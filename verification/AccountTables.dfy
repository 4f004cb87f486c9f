/** The four index tables of the accounts database as values, and what each
    index operation does to them (`index.rs`). */
module AccountTables {
  import opened Base
  import opened Extents

  datatype Tables = Tables(
    accounts: map<Pubkey, Extent>,
    /** (owner, offset, account), many per owner. */
    programs: set<(Pubkey, nat, Pubkey)>,
    deallocations: set<Extent>,
    owners: map<Pubkey, Pubkey>)

  const EMPTY_TABLES := Tables(map[], {}, {}, map[])

  // ---- Operations ----

  function RemoveProgramEntry(t: Tables, k: Pubkey, oldOwner: Option<Pubkey>, offset: nat): Tables {
    match oldOwner
    case Some(owner) => t.(programs := t.programs - {(owner, offset, k)})
    case None => if k in t.owners then t.(programs := t.programs - {(t.owners[k], offset, k)}) else t
  }

  function Reallocate(t: Tables, k: Pubkey, place: Extent): Tables
    requires k in t.accounts
  {
    var prior := t.accounts[k];
    RemoveProgramEntry(t.(deallocations := t.deallocations + {prior}, accounts := t.accounts[k := place]),
                       k, None, prior.offset)
  }

  function UpsertAccount(t: Tables, k: Pubkey, owner: Pubkey, place: Extent): Tables {
    var moved := if k in t.accounts then Reallocate(t, k, place) else t.(accounts := t.accounts[k := place]);
    moved.(programs := moved.programs + {(owner, place.offset, k)}, owners := moved.owners[k := owner])
  }

  /** Removing an account that is not there does nothing. */
  function Remove(t: Tables, k: Pubkey): Tables {
    if k !in t.accounts then t
    else
      var place := t.accounts[k];
      var cleared := RemoveProgramEntry(
        t.(accounts := t.accounts - {k}, deallocations := t.deallocations + {place}), k, None, place.offset);
      cleared.(owners := cleared.owners - {k})
  }

  function EnsureOwner(t: Tables, k: Pubkey, owner: Pubkey): Tables
    requires k in t.accounts
  {
    var prior := if k in t.owners then Some(t.owners[k]) else None;
    var cleared := RemoveProgramEntry(t, k, prior, t.accounts[k].offset);
    cleared.(programs := cleared.programs + {(owner, t.accounts[k].offset, k)}, owners := cleared.owners[k := owner])
  }

  /** A smallest hole that is large enough. */
  predicate BestFit(holes: set<Extent>, needed: nat, hole: Extent) {
    && hole in holes && needed <= hole.blocks
    && forall h :: h in holes && needed <= h.blocks ==> hole.blocks <= h.blocks
  }

  /** Takes the front of a hole and puts the remainder back. */
  function Recycle(t: Tables, hole: Extent, needed: nat): Tables
    requires needed <= hole.blocks
  {
    var left := t.deallocations - {hole};
    t.(deallocations :=
      if needed < hole.blocks then left + {Extent(hole.offset + needed, hole.blocks - needed)} else left)
  }

  lemma {:induction false} BestFitExists(holes: set<Extent>, needed: nat) returns (hole: Extent)
    requires exists h :: h in holes && needed <= h.blocks
    ensures BestFit(holes, needed, hole)
    decreases |holes|
  {
    var h :| h in holes && needed <= h.blocks;
    if forall x :: x in holes && needed <= x.blocks ==> h.blocks <= x.blocks {
      hole := h;
    } else {
      var smaller := set x | x in holes && x.blocks < h.blocks;
      assert smaller < holes by { assert h !in smaller; }
      assert |smaller| < |holes| by { SmallerSet(smaller, holes, h); }
      hole := BestFitExists(smaller, needed);
    }
  }

  lemma SmallerSet(a: set<Extent>, b: set<Extent>, x: Extent)
    requires a <= b && x in b && x !in a
    ensures |a| < |b|
  {
    var rest := b - a;
    assert x in rest;
    assert b == a + rest && a !! rest;
    assert |rest| > 0;
  }

  // ---- The tables agree ----

  predicate SameKeys(t: Tables) { t.accounts.Keys == t.owners.Keys }

  /** `programs` holds an account under an owner exactly when `owners` and
      `accounts` say so. */
  ghost predicate ProgramsExact(t: Tables) {
    forall owner: Pubkey, offset: nat, k: Pubkey :: (owner, offset, k) in t.programs <==>
      k in t.accounts && k in t.owners && t.owners[k] == owner && t.accounts[k].offset == offset
  }

  /** Live allocations and holes; no two accounts share a place, and none of
      them is a hole. */
  predicate Placed(t: Tables) { Injective(t.accounts) && t.accounts.Values !! t.deallocations }

  function InUse(t: Tables): set<Extent> { t.accounts.Values + t.deallocations }

  ghost predicate Sound(t: Tables, cursor: nat) {
    SameKeys(t) && ProgramsExact(t) && Placed(t) && Tiles(InUse(t), cursor)
  }

  /** As `Sound`, with one range handed out that no table knows yet. */
  ghost predicate SoundWith(t: Tables, cursor: nat, pending: Extent) {
    SameKeys(t) && ProgramsExact(t) && Placed(t) && pending !in InUse(t) && Tiles(InUse(t) + {pending}, cursor)
  }

  // ---- Taking space ----

  lemma RecycleWhole(t: Tables, cursor: nat, hole: Extent)
    requires Sound(t, cursor) && hole in t.deallocations
    ensures SoundWith(Recycle(t, hole, hole.blocks), cursor, hole)
  {
    var next := Recycle(t, hole, hole.blocks);
    assert hole !in t.accounts.Values;
    assert InUse(next) + {hole} == InUse(t);
  }

  lemma RecyclePart(t: Tables, cursor: nat, hole: Extent, needed: nat)
    requires Sound(t, cursor) && hole in t.deallocations && 0 < needed < hole.blocks
    ensures SoundWith(Recycle(t, hole, needed), cursor, Extent(hole.offset, needed))
  {
    var next := Recycle(t, hole, needed);
    var front, rest := Extent(hole.offset, needed), Extent(hole.offset + needed, hole.blocks - needed);
    TilesSplit(InUse(t), cursor, hole, needed);
    SplitIsNew(InUse(t), cursor, hole, front);
    SplitIsNew(InUse(t), cursor, hole, rest);
    assert InUse(next) + {front} == InUse(t) - {hole} + {front, rest};
  }

  /** Recycling hands out exactly `needed` blocks and loses none of the hole. */
  lemma RecycleKeepsSound(t: Tables, cursor: nat, hole: Extent, needed: nat)
    requires Sound(t, cursor) && hole in t.deallocations && 0 < needed <= hole.blocks
    ensures SoundWith(Recycle(t, hole, needed), cursor, Extent(hole.offset, needed))
  {
    if needed == hole.blocks {
      RecycleWhole(t, cursor, hole);
    } else {
      RecyclePart(t, cursor, hole, needed);
    }
  }

  lemma AppendKeepsSound(t: Tables, cursor: nat, needed: nat)
    requires Sound(t, cursor) && 0 < needed
    ensures SoundWith(t, cursor + needed, Extent(cursor, needed))
  {
    TilesAppend(InUse(t), cursor, needed);
  }

  // ---- Filing accounts ----

  lemma UpsertPlaces(t: Tables, cursor: nat, k: Pubkey, owner: Pubkey, place: Extent)
    requires SoundWith(t, cursor, place)
    ensures var next := UpsertAccount(t, k, owner, place);
      SameKeys(next) && Placed(next) && InUse(next) == InUse(t) + {place}
  {
    ValuesAfterUpdate(t.accounts, k, place);
  }

  lemma UpsertPrograms(t: Tables, k: Pubkey, owner: Pubkey, place: Extent)
    requires SameKeys(t) && ProgramsExact(t)
    ensures ProgramsExact(UpsertAccount(t, k, owner, place))
  {
    var next := UpsertAccount(t, k, owner, place);
    assert next.accounts == t.accounts[k := place] && next.owners == t.owners[k := owner];
    forall o: Pubkey, f: nat, j: Pubkey ensures (o, f, j) in next.programs <==>
      j in next.accounts && j in next.owners && next.owners[j] == o && next.accounts[j].offset == f
    {
      assert (o, f, j) in t.programs <==>
        j in t.accounts && j in t.owners && t.owners[j] == o && t.accounts[j].offset == f;
    }
  }

  lemma UpsertKeepsSound(t: Tables, cursor: nat, k: Pubkey, owner: Pubkey, place: Extent)
    requires SoundWith(t, cursor, place)
    ensures Sound(UpsertAccount(t, k, owner, place), cursor)
  {
    UpsertPlaces(t, cursor, k, owner, place);
    UpsertPrograms(t, k, owner, place);
  }

  lemma RemovePrograms(t: Tables, k: Pubkey)
    requires SameKeys(t) && ProgramsExact(t)
    ensures ProgramsExact(Remove(t, k))
  {
    if k in t.accounts {
      var next := Remove(t, k);
      assert next.accounts == t.accounts - {k} && next.owners == t.owners - {k};
      forall o: Pubkey, f: nat, j: Pubkey ensures (o, f, j) in next.programs <==>
        j in next.accounts && j in next.owners && next.owners[j] == o && next.accounts[j].offset == f
      {
        assert (o, f, j) in t.programs <==>
          j in t.accounts && j in t.owners && t.owners[j] == o && t.accounts[j].offset == f;
      }
    }
  }

  lemma RemoveKeepsSound(t: Tables, cursor: nat, k: Pubkey)
    requires Sound(t, cursor)
    ensures Sound(Remove(t, k), cursor)
  {
    RemovePrograms(t, k);
    if k in t.accounts {
      ValuesAfterRemoval(t.accounts, k);
      assert InUse(Remove(t, k)) == InUse(t);
    }
  }

  lemma EnsureOwnerKeepsSound(t: Tables, cursor: nat, k: Pubkey, owner: Pubkey)
    requires Sound(t, cursor) && k in t.accounts
    ensures Sound(EnsureOwner(t, k, owner), cursor)
  {
    var next := EnsureOwner(t, k, owner);
    assert next.accounts == t.accounts && next.owners == t.owners[k := owner];
    assert InUse(next) == InUse(t);
    forall o: Pubkey, f: nat, j: Pubkey ensures (o, f, j) in next.programs <==>
      j in next.accounts && j in next.owners && next.owners[j] == o && next.accounts[j].offset == f
    {
      assert (o, f, j) in t.programs <==>
        j in t.accounts && j in t.owners && t.owners[j] == o && t.accounts[j].offset == f;
    }
  }

  // ---- What the tables and the storage say together ----

  /** One block of storage, its bytes read as one number; zero when cleared. */
  type Block = nat

  datatype Record = Record(owner: Pubkey, blocks: seq<Block>)

  predicate InRange(e: Extent, bytes: seq<Block>) { e.End() <= |bytes| }

  function Slice(bytes: seq<Block>, e: Extent): seq<Block>
    requires InRange(e, bytes)
  {
    bytes[e.offset..e.End()]
  }

  ghost predicate Readable(t: Tables, bytes: seq<Block>) {
    SameKeys(t) && forall k :: k in t.accounts ==> InRange(t.accounts[k], bytes)
  }

  /** The plain map a user of the database sees. */
  ghost function ViewOf(t: Tables, bytes: seq<Block>): map<Pubkey, Record>
    requires Readable(t, bytes)
  {
    map k | k in t.accounts :: Record(t.owners[k], Slice(bytes, t.accounts[k]))
  }

  function Overwrite(bytes: seq<Block>, offset: nat, blocks: seq<Block>): (r: seq<Block>)
    requires offset + |blocks| <= |bytes|
    ensures |r| == |bytes|
  {
    bytes[..offset] + blocks + bytes[offset + |blocks|..]
  }

  lemma OverwriteElsewhere(bytes: seq<Block>, offset: nat, blocks: seq<Block>, e: Extent)
    requires offset + |blocks| <= |bytes| && InRange(e, bytes)
    requires Disjoint(e, Extent(offset, |blocks|))
    ensures Slice(Overwrite(bytes, offset, blocks), e) == Slice(bytes, e)
  {
  }

  lemma OverwriteHere(bytes: seq<Block>, offset: nat, blocks: seq<Block>)
    requires offset + |blocks| <= |bytes|
    ensures Slice(Overwrite(bytes, offset, blocks), Extent(offset, |blocks|)) == blocks
  {
  }

  lemma SoundIsReadable(t: Tables, cursor: nat, bytes: seq<Block>)
    requires Sound(t, cursor) && cursor <= |bytes|
    ensures Readable(t, bytes)
  {
    forall k | k in t.accounts ensures InRange(t.accounts[k], bytes) {
      assert t.accounts[k] in InUse(t);
    }
  }

  /** A range that is pending touches no account. */
  lemma PendingIsApart(t: Tables, cursor: nat, place: Extent, k: Pubkey)
    requires SoundWith(t, cursor, place) && k in t.accounts
    ensures Disjoint(t.accounts[k], place)
  {
    assert t.accounts[k] in InUse(t);
  }

  ghost predicate SameRecord(t: Tables, bytes: seq<Block>, next: Tables, written: seq<Block>, j: Pubkey)
    requires Readable(t, bytes) && Readable(next, written)
  {
    && j in t.accounts && j in next.accounts
    && next.owners[j] == t.owners[j] && Slice(written, next.accounts[j]) == Slice(bytes, t.accounts[j])
  }

  /** Two states of the database that differ in one account. */
  lemma ViewUpdate(t: Tables, bytes: seq<Block>, next: Tables, written: seq<Block>, k: Pubkey, record: Record)
    requires Readable(t, bytes) && Readable(next, written)
    requires next.accounts.Keys == t.accounts.Keys + {k}
    requires next.owners[k] == record.owner && Slice(written, next.accounts[k]) == record.blocks
    requires forall j :: j in t.accounts && j != k ==> SameRecord(t, bytes, next, written, j)
    ensures ViewOf(next, written) == ViewOf(t, bytes)[k := record]
  {
    forall j | j in next.accounts ensures ViewOf(next, written)[j] == ViewOf(t, bytes)[k := record][j] {
      assert j != k ==> SameRecord(t, bytes, next, written, j);
    }
  }

  lemma PlaceInRange(t: Tables, cursor: nat, bytes: seq<Block>, k: Pubkey, owner: Pubkey, place: Extent)
    requires SoundWith(t, cursor, place) && Readable(t, bytes) && place.End() <= |bytes|
    ensures var next := UpsertAccount(t, k, owner, place);
      Readable(next, bytes) && next.accounts == t.accounts[k := place] && next.owners == t.owners[k := owner]
  {
  }

  /** Filing `k` at a pending range and writing its record there is an update
      of the plain map, and of nothing else in it. */
  lemma UpsertViews(t: Tables, cursor: nat, bytes: seq<Block>, k: Pubkey, owner: Pubkey, place: Extent,
          blocks: seq<Block>)
    requires SoundWith(t, cursor, place) && cursor <= |bytes| && Readable(t, bytes)
    requires place.blocks == |blocks| && place.End() <= |bytes|
    ensures var next := UpsertAccount(t, k, owner, place);
      && Readable(next, Overwrite(bytes, place.offset, blocks))
      && ViewOf(next, Overwrite(bytes, place.offset, blocks)) == ViewOf(t, bytes)[k := Record(owner, blocks)]
  {
    var next, written := UpsertAccount(t, k, owner, place), Overwrite(bytes, place.offset, blocks);
    PlaceInRange(t, cursor, bytes, k, owner, place);
    assert Readable(next, written);
    OverwriteHere(bytes, place.offset, blocks);
    forall j | j in t.accounts && j != k ensures SameRecord(t, bytes, next, written, j) {
      PendingIsApart(t, cursor, place, j);
      OverwriteElsewhere(bytes, place.offset, blocks, t.accounts[j]);
    }
    ViewUpdate(t, bytes, next, written, k, Record(owner, blocks));
  }

  lemma RemoveViews(t: Tables, cursor: nat, bytes: seq<Block>, k: Pubkey)
    requires Sound(t, cursor) && Readable(t, bytes)
    ensures Readable(Remove(t, k), bytes)
    ensures ViewOf(Remove(t, k), bytes) == ViewOf(t, bytes) - {k}
  {
    var next := Remove(t, k);
    if k in t.accounts {
      assert next.accounts == t.accounts - {k} && next.owners == t.owners - {k};
    }
  }

  lemma OwnPlaceIsApart(t: Tables, cursor: nat, k: Pubkey, j: Pubkey)
    requires Sound(t, cursor) && k in t.accounts && j in t.accounts && j != k
    ensures Disjoint(t.accounts[j], t.accounts[k])
  {
    assert t.accounts[k] in InUse(t) && t.accounts[j] in InUse(t);
  }

  /** Rewriting a record within its own range, under a table that may file it
      with a new owner. */
  lemma RewriteViews(t: Tables, next: Tables, cursor: nat, bytes: seq<Block>, k: Pubkey, owner: Pubkey,
          blocks: seq<Block>)
    requires Sound(t, cursor) && Readable(t, bytes) && k in t.accounts && t.accounts[k].blocks == |blocks|
    requires next.accounts == t.accounts && next.owners == t.owners[k := owner]
    ensures Readable(next, Overwrite(bytes, t.accounts[k].offset, blocks))
    ensures ViewOf(next, Overwrite(bytes, t.accounts[k].offset, blocks)) == ViewOf(t, bytes)[k := Record(owner, blocks)]
  {
    var written := Overwrite(bytes, t.accounts[k].offset, blocks);
    assert Readable(next, written);
    OverwriteHere(bytes, t.accounts[k].offset, blocks);
    forall j | j in t.accounts && j != k ensures SameRecord(t, bytes, next, written, j) {
      OwnPlaceIsApart(t, cursor, k, j);
      OverwriteElsewhere(bytes, t.accounts[k].offset, blocks, t.accounts[j]);
    }
    ViewUpdate(t, bytes, next, written, k, Record(owner, blocks));
  }

  // ---- Committing a borrowed account ----

  /** The tables after a commit: a changed owner is filed under the key. */
  function Refiled(t: Tables, k: Pubkey, owner: Pubkey, changed: bool): Tables {
    if changed && k in t.accounts then EnsureOwner(t, k, owner) else t
  }

  lemma RefiledKeepsSound(t: Tables, cursor: nat, k: Pubkey, owner: Pubkey, changed: bool)
    requires Sound(t, cursor)
    ensures var next := Refiled(t, k, owner, changed);
      && Sound(next, cursor) && next.accounts == t.accounts
      && next.owners == if changed && k in t.accounts then t.owners[k := owner] else t.owners
  {
    if changed && k in t.accounts {
      EnsureOwnerKeepsSound(t, cursor, k, owner);
    }
  }

  /** The plain map after a commit that writes `blocks` at `place`, the range
      the account was read from, wherever the key stands by now. */
  ghost function Committed(t: Tables, cursor: nat, bytes: seq<Block>, k: Pubkey, owner: Pubkey, changed: bool,
          place: Extent, blocks: seq<Block>): map<Pubkey, Record>
    requires Sound(t, cursor) && cursor <= |bytes|
    requires place.blocks == |blocks| && InRange(place, bytes)
  {
    RefiledKeepsSound(t, cursor, k, owner, changed);
    SoundIsReadable(Refiled(t, k, owner, changed), cursor, bytes);
    ViewOf(Refiled(t, k, owner, changed), Overwrite(bytes, place.offset, blocks))
  }

  /** Committing where the key still stands is an update of the plain map. */
  lemma CommitInPlace(t: Tables, cursor: nat, bytes: seq<Block>, k: Pubkey, owner: Pubkey, changed: bool, place: Extent,
          blocks: seq<Block>)
    requires Sound(t, cursor) && cursor <= |bytes| && Readable(t, bytes)
    requires place.blocks == |blocks| && k in t.accounts && t.accounts[k] == place
    ensures Committed(t, cursor, bytes, k, owner, changed, place, blocks) ==
            ViewOf(t, bytes)[k := Record(if changed then owner else t.owners[k], blocks)]
  {
    var filed := if changed then owner else t.owners[k];
    RefiledKeepsSound(t, cursor, k, owner, changed);
    assert t.owners[k := t.owners[k]] == t.owners;
    RewriteViews(t, Refiled(t, k, owner, changed), cursor, bytes, k, filed, blocks);
  }

  /** The written blocks agree with what `e` already holds. */
  ghost predicate Agrees(bytes: seq<Block>, place: Extent, blocks: seq<Block>, e: Extent)
    requires place.blocks == |blocks| && InRange(place, bytes)
  {
    forall p :: e.Holds(p) && place.Holds(p) ==> blocks[p - place.offset] == bytes[p]
  }

  lemma OverwriteAgreesIff(bytes: seq<Block>, place: Extent, blocks: seq<Block>, e: Extent)
    requires place.blocks == |blocks| && InRange(place, bytes) && InRange(e, bytes)
    ensures Slice(Overwrite(bytes, place.offset, blocks), e) == Slice(bytes, e) <==> Agrees(bytes, place, blocks, e)
  {
    var written := Overwrite(bytes, place.offset, blocks);
    if Slice(written, e) == Slice(bytes, e) {
      forall p | e.Holds(p) && place.Holds(p) ensures blocks[p - place.offset] == bytes[p] {
        assert Slice(written, e)[p - e.offset] == Slice(bytes, e)[p - e.offset];
      }
    }
    if Agrees(bytes, place, blocks, e) {
      forall i | 0 <= i < e.blocks ensures Slice(written, e)[i] == Slice(bytes, e)[i] {
        assert e.Holds(e.offset + i);
      }
    }
  }

  /** A commit from a range the key may have left: it holds no account it did
      not hold before, and a record survives it exactly when the written blocks
      agree with it wherever the two ranges meet and its owner is not changed. */
  lemma RecordSurvivesIff(t: Tables, cursor: nat, bytes: seq<Block>, k: Pubkey, owner: Pubkey, changed: bool,
          place: Extent, blocks: seq<Block>, j: Pubkey)
    requires Sound(t, cursor) && cursor <= |bytes| && Readable(t, bytes)
    requires place.blocks == |blocks| && InRange(place, bytes)
    ensures var next := Committed(t, cursor, bytes, k, owner, changed, place, blocks);
      && next.Keys == t.accounts.Keys
      && (j in next ==>
          (next[j] == ViewOf(t, bytes)[j] <==>
           Agrees(bytes, place, blocks, t.accounts[j]) && (j == k && changed ==> owner == t.owners[j])))
  {
    RefiledKeepsSound(t, cursor, k, owner, changed);
    if j in t.accounts {
      OverwriteAgreesIff(bytes, place, blocks, t.accounts[j]);
    }
  }

  /** A block that both `e` and `place` hold. */
  lemma SharedBlock(e: Extent, place: Extent) returns (p: nat)
    requires e.blocks > 0 && place.blocks > 0 && !Disjoint(e, place)
    ensures e.Holds(p) && place.Holds(p)
  {
    p := if e.offset < place.offset then place.offset else e.offset;
  }

  ghost predicate Keeps(t: Tables, bytes: seq<Block>, next: map<Pubkey, Record>, j: Pubkey)
    requires Readable(t, bytes) && j in t.accounts
  {
    j in next && next[j] == ViewOf(t, bytes)[j]
  }

  /** A commit into another account's range damages it for some content. */
  lemma CommitHits(t: Tables, cursor: nat, bytes: seq<Block>, k: Pubkey, owner: Pubkey, changed: bool, place: Extent,
          j: Pubkey) returns (blocks: seq<Block>)
    requires Sound(t, cursor) && cursor <= |bytes| && Readable(t, bytes)
    requires InRange(place, bytes) && place.blocks > 0 && j in t.accounts && !Disjoint(t.accounts[j], place)
    ensures |blocks| == place.blocks
    ensures !Keeps(t, bytes, Committed(t, cursor, bytes, k, owner, changed, place, blocks), j)
  {
    assert t.accounts[j] in InUse(t);
    var p := SharedBlock(t.accounts[j], place);
    blocks := seq(place.blocks, _ => bytes[p] + 1);
    assert blocks[p - place.offset] != bytes[p];
    RecordSurvivesIff(t, cursor, bytes, k, owner, changed, place, blocks, j);
  }

  /** Exactly which other accounts a commit is sure to spare, whatever is
      written: those whose ranges lie apart from `place`. */
  lemma CommitSparesIff(t: Tables, cursor: nat, bytes: seq<Block>, k: Pubkey, owner: Pubkey, changed: bool,
          place: Extent, j: Pubkey)
    requires Sound(t, cursor) && cursor <= |bytes| && Readable(t, bytes)
    requires InRange(place, bytes) && place.blocks > 0 && j in t.accounts && j != k
    ensures Disjoint(t.accounts[j], place) <==>
      forall blocks: seq<Block> | |blocks| == place.blocks ::
        Keeps(t, bytes, Committed(t, cursor, bytes, k, owner, changed, place, blocks), j)
  {
    if Disjoint(t.accounts[j], place) {
      forall blocks: seq<Block> | |blocks| == place.blocks
        ensures Keeps(t, bytes, Committed(t, cursor, bytes, k, owner, changed, place, blocks), j)
      {
        RecordSurvivesIff(t, cursor, bytes, k, owner, changed, place, blocks, j);
      }
    } else {
      var _ := CommitHits(t, cursor, bytes, k, owner, changed, place, j);
    }
  }

  /** The owner a commit files the account under. */
  function FiledOwner(t: Tables, k: Pubkey, owner: Pubkey, changed: bool): Pubkey {
    if !changed && k in t.owners then t.owners[k] else owner
  }

  /** Whatever is written, committing to `place` updates the plain map at `k`
      and nowhere else. */
  ghost predicate CommitsUpdate(t: Tables, cursor: nat, bytes: seq<Block>, k: Pubkey, owner: Pubkey, changed: bool,
          place: Extent)
    requires Sound(t, cursor) && cursor <= |bytes| && Readable(t, bytes) && InRange(place, bytes)
  {
    forall blocks: seq<Block> | |blocks| == place.blocks ::
      Committed(t, cursor, bytes, k, owner, changed, place, blocks) ==
      ViewOf(t, bytes)[k := Record(FiledOwner(t, k, owner, changed), blocks)]
  }

  /** Two ranges of one size at different offsets: one holds a block that the
      other does not. */
  lemma BlockOutside(e: Extent, place: Extent) returns (p: nat)
    requires e.blocks == place.blocks > 0 && e != place
    ensures e.Holds(p) && !place.Holds(p)
  {
    p := if e.offset < place.offset then e.offset else e.End() - 1;
  }

  /** A commit to a range other than the key's own fails to update the key for
      some content. */
  lemma CommitElsewhereMisses(t: Tables, cursor: nat, bytes: seq<Block>, k: Pubkey, owner: Pubkey, changed: bool,
          place: Extent) returns (blocks: seq<Block>)
    requires Sound(t, cursor) && cursor <= |bytes| && Readable(t, bytes) && InRange(place, bytes) && place.blocks > 0
    requires k in t.accounts ==> t.accounts[k] != place
    ensures |blocks| == place.blocks
    ensures var next := Committed(t, cursor, bytes, k, owner, changed, place, blocks);
      k !in next || next[k].blocks != blocks
  {
    RefiledKeepsSound(t, cursor, k, owner, changed);
    if k !in t.accounts || t.accounts[k].blocks != place.blocks {
      blocks := seq(place.blocks, _ => 0);
    } else {
      var e := t.accounts[k];
      var p := BlockOutside(e, place);
      blocks := seq(place.blocks, _ => bytes[p] + 1);
      var written := Overwrite(bytes, place.offset, blocks);
      assert Slice(written, e)[p - e.offset] == written[p] == bytes[p];
      assert blocks[p - e.offset] == bytes[p] + 1;
    }
  }

  /** Exactly when a commit can be relied on: the key still stands where the
      account was read. */
  lemma CommitUpdatesIff(t: Tables, cursor: nat, bytes: seq<Block>, k: Pubkey, owner: Pubkey, changed: bool,
          place: Extent)
    requires Sound(t, cursor) && cursor <= |bytes| && Readable(t, bytes) && InRange(place, bytes) && place.blocks > 0
    ensures CommitsUpdate(t, cursor, bytes, k, owner, changed, place) <==>
      k in t.accounts && t.accounts[k] == place
  {
    if k in t.accounts && t.accounts[k] == place {
      forall blocks: seq<Block> | |blocks| == place.blocks
        ensures Committed(t, cursor, bytes, k, owner, changed, place, blocks) ==
                ViewOf(t, bytes)[k := Record(FiledOwner(t, k, owner, changed), blocks)]
      {
        CommitInPlace(t, cursor, bytes, k, owner, changed, place, blocks);
      }
    } else {
      var blocks := CommitElsewhereMisses(t, cursor, bytes, k, owner, changed, place);
    }
  }

  /** The first account is filed, then moved by a resize. */
  function MovedOn(first: Pubkey, owner: Pubkey): Tables {
    UpsertAccount(UpsertAccount(EMPTY_TABLES, first, owner, Extent(0, 1)), first, owner, Extent(1, 1))
  }

  /** And the second takes the place it left. */
  function ReusedPlace(first: Pubkey, second: Pubkey, owner: Pubkey): Tables {
    UpsertAccount(Recycle(MovedOn(first, owner), Extent(0, 1), 1), second, owner, Extent(0, 1))
  }

  lemma MovedOnIsSound(first: Pubkey, owner: Pubkey)
    ensures var t := MovedOn(first, owner);
      && Sound(t, 2) && t.accounts == map[first := Extent(1, 1)] && t.owners == map[first := owner]
      && t.deallocations == {Extent(0, 1)}
  {
    AppendKeepsSound(EMPTY_TABLES, 0, 1);
    UpsertKeepsSound(EMPTY_TABLES, 1, first, owner, Extent(0, 1));
    var filed := UpsertAccount(EMPTY_TABLES, first, owner, Extent(0, 1));
    AppendKeepsSound(filed, 1, 1);
    UpsertKeepsSound(filed, 2, first, owner, Extent(1, 1));
  }

  lemma ReusedPlaceIsSound(first: Pubkey, second: Pubkey, owner: Pubkey)
    requires first != second
    ensures var t := ReusedPlace(first, second, owner);
      && Sound(t, 2) && t.accounts == map[first := Extent(1, 1), second := Extent(0, 1)]
      && t.owners == map[first := owner, second := owner]
  {
    MovedOnIsSound(first, owner);
    RecycleKeepsSound(MovedOn(first, owner), 2, Extent(0, 1), 1);
    UpsertKeepsSound(Recycle(MovedOn(first, owner), Extent(0, 1), 1), 2, second, owner, Extent(0, 1));
  }

  lemma RecordIs(t: Tables, bytes: seq<Block>, k: Pubkey, p: nat)
    requires Readable(t, bytes) && k in t.accounts && t.accounts[k] == Extent(p, 1)
    ensures ViewOf(t, bytes)[k] == Record(t.owners[k], [bytes[p]])
  {
    assert bytes[p..p + 1] == [bytes[p]];
  }

  /** An instance: the first account is committed to the place it was read from
      before it moved. Its own record is not written, and the second's is lost. */
  lemma StaleCommitExample(first: Pubkey, second: Pubkey, owner: Pubkey)
    requires first != second
    ensures var t := ReusedPlace(first, second, owner);
      && Sound(t, 2) && Readable(t, [7, 8]) && first in t.accounts && second in t.accounts
      && var view, next := ViewOf(t, [7, 8]), Committed(t, 2, [7, 8], first, owner, false, Extent(0, 1), [9]);
         && view[first] == Record(owner, [8]) && view[second] == Record(owner, [7])
         && first in next && next[first] == Record(owner, [8])
         && second in next && next[second] == Record(owner, [9])
  {
    var t := ReusedPlace(first, second, owner);
    ReusedPlaceIsSound(first, second, owner);
    SoundIsReadable(t, 2, [7, 8]);
    SoundIsReadable(t, 2, [9, 8]);
    assert Overwrite([7, 8], 0, [9]) == [9, 8];
    RecordIs(t, [7, 8], first, 1);
    RecordIs(t, [7, 8], second, 0);
    RecordIs(t, [9, 8], first, 1);
    RecordIs(t, [9, 8], second, 0);
  }
}
