/** The accounts database as it runs: index tables and storage updated in place
    (`index.rs`, `storage.rs`, `lib.rs`), refining a plain map from public key to
    owner and record. */
module AccountsDatabase {
  import opened Base
  import opened Extents
  import Pure = AccountTables
  import opened AccountTables
  import opened Compaction

  datatype DbError = NotFound | DatabaseFull | OutOfBounds

  class Index {
    var accounts: map<Pubkey, Extent>
    var programs: set<(Pubkey, nat, Pubkey)>
    var deallocations: set<Extent>
    var owners: map<Pubkey, Pubkey>

    function Value(): Tables
      reads this
    {
      Tables(accounts, programs, deallocations, owners)
    }

    constructor ()
      ensures Value() == EMPTY_TABLES
    {
      accounts, programs, deallocations, owners := map[], {}, {}, map[];
    }

    method RemoveProgramIndexEntry(k: Pubkey, oldOwner: Option<Pubkey>, offset: nat)
      modifies this
      ensures Value() == RemoveProgramEntry(old(Value()), k, oldOwner, offset)
    {
      var owner := oldOwner;
      if owner.None? {
        if k !in owners {
          return;
        }
        owner := Some(owners[k]);
      }
      programs := programs - {(owner.value, offset, k)};
    }

    method ReallocateAccount(k: Pubkey, place: Extent) returns (previous: Extent)
      requires k in accounts
      modifies this
      ensures previous == old(accounts[k]) && Value() == Reallocate(old(Value()), k, place)
    {
      previous := accounts[k];
      deallocations := deallocations + {previous};
      accounts := accounts[k := place];
      RemoveProgramIndexEntry(k, None, previous.offset);
    }

    method UpsertAccount(k: Pubkey, owner: Pubkey, place: Extent) returns (previous: Option<Extent>)
      modifies this
      ensures Value() == Pure.UpsertAccount(old(Value()), k, owner, place)
      ensures previous == if k in old(accounts) then Some(old(accounts)[k]) else None
    {
      previous := None;
      var inserted := k !in accounts;
      if inserted {
        accounts := accounts[k := place];
      } else {
        var p := ReallocateAccount(k, place);
        previous := Some(p);
      }
      programs := programs + {(owner, place.offset, k)};
      owners := owners[k := owner];
    }

    method Remove(k: Pubkey)
      modifies this
      ensures Value() == Pure.Remove(old(Value()), k)
    {
      if k !in accounts {
        return;
      }
      var place := accounts[k];
      accounts := accounts - {k};
      deallocations := deallocations + {place};
      RemoveProgramIndexEntry(k, None, place.offset);
      owners := owners - {k};
    }

    method EnsureCorrectOwner(k: Pubkey, owner: Pubkey) returns (r: Result<(), DbError>)
      modifies this
      ensures r.Ok? <==> k in old(accounts)
      ensures r.Ok? ==> Value() == EnsureOwner(old(Value()), k, owner)
      ensures r.Err? ==> Value() == old(Value()) && r.error == NotFound
    {
      var oldOwner := if k in owners then Some(owners[k]) else None;
      if k !in accounts {
        return Err(NotFound);
      }
      var place := accounts[k];
      RemoveProgramIndexEntry(k, oldOwner, place.offset);
      programs := programs + {(owner, place.offset, k)};
      owners := owners[k := owner];
      return Ok(());
    }

    /** A smallest hole of at least `needed` blocks, cut down to `needed`. */
    method TryRecycle(needed: nat) returns (r: Option<Extent>)
      requires needed > 0
      modifies this
      ensures r.None? ==> Value() == old(Value()) && forall h :: h in deallocations ==> h.blocks < needed
      ensures r.Some? ==> exists hole ::
        && BestFit(old(deallocations), needed, hole)
        && r.value == Extent(hole.offset, needed) && Value() == Recycle(old(Value()), hole, needed)
    {
      if forall h :: h in deallocations ==> h.blocks < needed {
        return None;
      }
      ghost var fit := BestFitExists(deallocations, needed);
      var hole :| hole in deallocations && BestFit(deallocations, needed, hole);
      deallocations := deallocations - {hole};
      var remainder := hole.blocks - needed;
      if remainder > 0 {
        deallocations := deallocations + {Extent(hole.offset + needed, remainder)};
      }
      r := Some(Extent(hole.offset, needed));
    }

    /** Every account with its owner and place, by offset. */
    method AccountsByOffset() returns (list: seq<Allocation>)
      requires SameKeys(Value())
      ensures Lists(Value(), list) && Ascending(list)
    {
      list := [];
      var keys := accounts.Keys;
      while keys != {}
        invariant keys <= accounts.Keys
        invariant forall i :: 0 <= i < |list| ==> Names(Value(), list[i]) && list[i].key !in keys
        invariant forall i, j :: 0 <= i < j < |list| ==> list[i].key != list[j].key
        invariant forall k :: k in accounts && k !in keys ==> HasKey(list, k)
        decreases keys
      {
        var k :| k in keys;
        ghost var listed := list;
        list := list + [Allocation(k, owners[k], accounts[k].offset, accounts[k].blocks)];
        forall j | j in accounts && j !in keys - {k} ensures HasKey(list, j) {
          if j == k {
            assert list[|listed|].key == k;
          } else {
            assert HasKey(listed, j);
            var i :| 0 <= i < |listed| && listed[i].key == j;
            assert list[i].key == j;
          }
        }
        keys := keys - {k};
      }
      assert Lists(Value(), list);
      SortLists(Value(), list);
      list := SortByOffset(list);
    }

    method ApplyAccountMoves(moves: Moves)
      requires Plans(Value(), moves)
      modifies this
      ensures Value() == Compacted(old(Value()), moves)
    {
      for n := 0 to |moves|
        invariant Value() == ApplyMoves(old(Value()), moves, n)
      {
        var m := moves[n];
        if m.oldOffset == m.newOffset {
          continue;
        }
        accounts := accounts[m.key := m.To()];
        programs := programs - {(m.owner, m.oldOffset, m.key)};
        programs := programs + {(m.owner, m.newOffset, m.key)};
      }
      deallocations := {};
    }
  }

  lemma OverwriteOneMore(bytes: seq<Block>, offset: nat, blocks: seq<Block>, i: nat)
    requires offset + |blocks| <= |bytes| && i < |blocks|
    ensures Overwrite(bytes, offset, blocks[..i])[offset + i := blocks[i]] == Overwrite(bytes, offset, blocks[..i + 1])
  {
  }

  class Storage {
    var cursor: nat
    const data: array<Block>

    ghost predicate Valid()
      reads this
    {
      cursor <= data.Length < U32_LIMIT
    }

    constructor (capacity: nat)
      requires capacity < U32_LIMIT
      ensures cursor == 0 && data.Length == capacity && fresh(data) && Valid()
    {
      cursor := 0;
      data := new Block[capacity](i => 0);
    }

    /** One call with nobody else allocating: its rollback always succeeds. */
    method Allocate(blocks: nat) returns (r: Result<Extent, DbError>)
      requires Valid()
      modifies this
      ensures Valid()
      ensures if old(cursor) + blocks <= data.Length
        then r == Ok(Extent(old(cursor), blocks)) && cursor == old(cursor) + blocks
        else r == Err(DatabaseFull) && cursor == old(cursor)
    {
      var start := cursor;
      cursor := cursor + blocks;
      var end := start + blocks;
      if end > data.Length {
        if cursor == end {
          cursor := start;
        }
        return Err(DatabaseFull);
      }
      return Ok(Extent(start, blocks));
    }

    method Write(offset: nat, blocks: seq<Block>)
      requires offset + |blocks| <= data.Length
      modifies data
      ensures data[..] == Overwrite(old(data[..]), offset, blocks)
    {
      for i := 0 to |blocks|
        invariant data[..] == Overwrite(old(data[..]), offset, blocks[..i])
      {
        OverwriteOneMore(old(data[..]), offset, blocks, i);
        data[offset + i] := blocks[i];
      }
      assert blocks[..|blocks|] == blocks;
    }

    method ValidateAllocation(offset: nat, blocks: nat) returns (r: Result<(), DbError>)
      ensures r.Ok? <==>
        0 < blocks && offset + blocks < U32_LIMIT && offset + blocks <= cursor && offset + blocks <= data.Length
    {
      if blocks == 0 || offset + blocks >= U32_LIMIT {
        return Err(OutOfBounds);
      }
      var end := offset + blocks;
      if end > cursor || end > data.Length {
        return Err(OutOfBounds);
      }
      return Ok(());
    }

    method ValidateCursor(next: nat) returns (r: Result<(), DbError>)
      ensures r.Ok? <==> next <= cursor && next <= data.Length
    {
      if next > cursor || next > data.Length {
        return Err(OutOfBounds);
      }
      return Ok(());
    }

    method MoveAllocation(m: Move)
      requires m.From().End() <= data.Length && m.To().End() <= data.Length
      modifies data
      ensures data[..] == MoveBytes(old(data[..]), m)
    {
      if m.oldOffset == m.newOffset {
        assert Overwrite(data[..], m.newOffset, Slice(data[..], m.From())) == data[..];
        return;
      }
      var scratch := data[m.oldOffset..m.From().End()];
      assert scratch == Slice(data[..], m.From());
      Write(m.newOffset, scratch);
    }

    /** Everything from the new cursor to the old one is cleared. */
    method FinishDefragment(next: nat)
      requires Valid() && next <= cursor
      modifies this, data
      ensures cursor == next && Valid()
      ensures ClearedTail(old(data[..]), next, old(cursor), data[..])
    {
      var oldCursor := cursor;
      cursor := next;
      var tail := seq(oldCursor - next, _ => 0);
      if oldCursor <= next {
        assert Overwrite(data[..], next, tail) == data[..];
        return;
      }
      Write(next, tail);
    }
  }

  /** An account handed to the database. `Owned` data is serialized into new
      space; `Borrowed` data was read from `place` and is committed there. */
  datatype Account =
    | Owned(owner: Pubkey, ephemeral: bool, blocks: seq<Block>)
    | Borrowed(owner: Pubkey, ephemeral: bool, ownerChanged: bool, place: Extent, blocks: seq<Block>)
  {
    /** An ephemeral account that has been closed. */
    predicate Closed() { ephemeral && owner == ZERO32 }

    /** A serialized account is not empty, and a borrowed one fills its place. */
    predicate Mapped(capacity: nat) {
      |blocks| > 0 && (Borrowed? ==> |blocks| == place.blocks && place.End() <= capacity)
    }

    /** The owner an upsert files the account under. */
    function Filed(view: map<Pubkey, Record>, k: Pubkey): Pubkey {
      if Borrowed? && !ownerChanged && k in view then view[k].owner else owner
    }
  }

  /** What an upsert means for the plain map. */
  function Upserted(view: map<Pubkey, Record>, k: Pubkey, a: Account): map<Pubkey, Record> {
    if a.ephemeral && a.owner == ZERO32 then view - {k} else view[k := Record(a.Filed(view, k), a.blocks)]
  }

  /** The key still stands where the borrowed account was read. */
  predicate InPlace(t: Tables, k: Pubkey, a: Account) {
    a.Borrowed? ==> k in t.accounts && t.accounts[k] == a.place
  }

  datatype Operation =
    | Insert(key: Pubkey, owner: Pubkey, ephemeral: bool, blocks: seq<Block>)
    /** A change in place of an account read from the database. */
    | Rewrite(key: Pubkey, owner: Pubkey, ephemeral: bool, blocks: seq<Block>)
    | Delete(key: Pubkey)
    | DeleteWhere(matches: (Pubkey, seq<Block>) -> bool)
    | Compact

  /** One operation on the plain map; `done` is false for an insert that found
      no room. */
  function Replay(view: map<Pubkey, Record>, op: Operation, done: bool): map<Pubkey, Record> {
    match op
    case Insert(k, owner, ephemeral, blocks) =>
      if done then Upserted(view, k, Owned(owner, ephemeral, blocks)) else view
    case Rewrite(k, owner, ephemeral, blocks) =>
      if k in view && |view[k].blocks| == |blocks| && |blocks| > 0
      then Upserted(view, k, Owned(owner, ephemeral, blocks))
      else view
    case Delete(k) => view - {k}
    case DeleteWhere(matches) => view - Matching(Contents(view), matches)
    case Compact => view
  }

  /** An insert that found room stores the account, unless that is an ephemeral
      one without an owner, which goes; a rewrite does the same to an account of
      that size; nothing else puts anything into the map. */
  lemma ReplayMeans(view: map<Pubkey, Record>, op: Operation, done: bool)
    requires op.Insert? || op.Rewrite?
    ensures var next, stored := Replay(view, op, done), Record(op.owner, op.blocks);
      var happens := if op.Insert? then done
                     else op.key in view && |view[op.key].blocks| == |op.blocks| && |op.blocks| > 0;
      && (!happens ==> next == view)
      && (happens && op.ephemeral && op.owner == ZERO32 ==> next == view - {op.key})
      && (happens && (!op.ephemeral || op.owner != ZERO32) ==> next == view[op.key := stored])
  {
  }

  function ReplayAll(view: map<Pubkey, Record>, ops: seq<Operation>, done: seq<bool>): map<Pubkey, Record>
    requires |done| == |ops|
  {
    if ops == [] then view
    else Replay(ReplayAll(view, ops[..|ops| - 1], done[..|ops| - 1]), ops[|ops| - 1], done[|ops| - 1])
  }

  lemma ReplayOneMore(view: map<Pubkey, Record>, ops: seq<Operation>, done: seq<bool>, op: Operation, ok: bool)
    requires |done| == |ops|
    ensures ReplayAll(view, ops + [op], done + [ok]) == Replay(ReplayAll(view, ops, done), op, ok)
  {
    assert (ops + [op])[..|ops|] == ops && (done + [ok])[..|ops|] == done;
  }

  class AccountsDb {
    const index: Index
    const storage: Storage

    ghost predicate Valid()
      reads index, storage
    {
      storage.Valid() && Sound(index.Value(), storage.cursor)
    }

    ghost function View(): map<Pubkey, Record>
      requires Valid()
      reads index, storage, storage.data
    {
      SoundIsReadable(index.Value(), storage.cursor, storage.data[..]);
      ViewOf(index.Value(), storage.data[..])
    }

    constructor (capacity: nat)
      requires capacity < U32_LIMIT
      ensures fresh(index) && fresh(storage) && fresh(storage.data) && storage.data.Length == capacity
      ensures Valid() && View() == map[]
    {
      index := new Index();
      storage := new Storage(capacity);
    }

    /** No hole is large enough and the tail is too short. */
    ghost predicate NoRoom(blocks: nat)
      reads index, storage
    {
      (forall h :: h in index.deallocations ==> h.blocks < blocks) && storage.cursor + blocks > storage.data.Length
    }

    /** A recycled hole if one is large enough, else the end of the storage. */
    method TakeSpace(blocks: nat) returns (r: Result<Extent, DbError>)
      requires Valid() && blocks > 0
      modifies index, storage
      ensures r.Err? <==> old(NoRoom(blocks))
      ensures r.Err? ==>
        r.error == DatabaseFull && index.Value() == old(index.Value()) && storage.cursor == old(storage.cursor)
      ensures r.Ok? ==>
        && r.value.blocks == blocks && storage.Valid()
        && SoundWith(index.Value(), storage.cursor, r.value)
        && index.accounts == old(index.accounts) && index.owners == old(index.owners)
      ensures r.Ok? && storage.cursor == old(storage.cursor) ==>
        exists hole :: BestFit(old(index.deallocations), blocks, hole) && r.value == Extent(hole.offset, blocks)
      ensures r.Ok? && storage.cursor != old(storage.cursor) ==>
        && r.value == Extent(old(storage.cursor), blocks) && storage.cursor == old(storage.cursor) + blocks
        && forall h :: h in old(index.deallocations) ==> h.blocks < blocks
    {
      ghost var before := index.Value();
      var recycled := index.TryRecycle(blocks);
      if recycled.Some? {
        ghost var hole :| && BestFit(before.deallocations, blocks, hole)
          && recycled.value == Extent(hole.offset, blocks) && index.Value() == Recycle(before, hole, blocks);
        RecycleKeepsSound(before, storage.cursor, hole, blocks);
        return Ok(recycled.value);
      }
      AppendKeepsSound(before, storage.cursor, blocks);
      r := storage.Allocate(blocks);
    }

    method InsertOwned(k: Pubkey, owner: Pubkey, blocks: seq<Block>) returns (r: Result<(), DbError>)
      requires Valid() && |blocks| > 0
      modifies index, storage, storage.data
      ensures Valid()
      ensures r.Err? <==> old(NoRoom(|blocks|))
      ensures r.Ok? ==> View() == old(View())[k := Record(owner, blocks)]
      ensures r.Err? ==> View() == old(View())
    {
      ghost var bytes := storage.data[..];
      ghost var before := index.Value();
      SoundIsReadable(before, storage.cursor, bytes);
      var space := TakeSpace(|blocks|);
      if space.Err? {
        return Err(space.error);
      }
      var place := space.value;
      ghost var taken := index.Value();
      PendingFits(taken, storage.cursor, place);
      SameTablesSameView(before, taken, bytes);
      UpsertKeepsSound(taken, storage.cursor, k, owner, place);
      UpsertViews(taken, storage.cursor, bytes, k, owner, place, blocks);
      var _ := index.UpsertAccount(k, owner, place);
      storage.Write(place.offset, blocks);
      return Ok(());
    }

    /** What a commit of a borrowed account makes of the plain map. */
    ghost function ViewAfterCommit(k: Pubkey, owner: Pubkey, changed: bool, place: Extent, blocks: seq<Block>)
      : map<Pubkey, Record>
      requires Valid() && |blocks| == place.blocks && place.End() <= storage.data.Length
      reads index, storage, storage.data
    {
      Committed(index.Value(), storage.cursor, storage.data[..], k, owner, changed, place, blocks)
    }

    /** Whatever is written to `place`, the commit is the update of the plain map
        that an upsert means. */
    ghost predicate CommitsAreUpdates(k: Pubkey, owner: Pubkey, changed: bool, place: Extent)
      requires Valid() && place.End() <= storage.data.Length
      reads index, storage, storage.data
    {
      forall blocks: seq<Block> | |blocks| == place.blocks ::
        ViewAfterCommit(k, owner, changed, place, blocks) ==
        Upserted(View(), k, Borrowed(owner, false, changed, place, blocks))
    }

    /** Which it is exactly when the key still stands where the account was read. */
    lemma CommitIsUpdateIff(k: Pubkey, owner: Pubkey, changed: bool, place: Extent)
      requires Valid() && 0 < place.blocks && place.End() <= storage.data.Length
      ensures CommitsAreUpdates(k, owner, changed, place) <==> k in index.accounts && index.accounts[k] == place
    {
      SoundIsReadable(index.Value(), storage.cursor, storage.data[..]);
      CommitUpdatesIff(index.Value(), storage.cursor, storage.data[..], k, owner, changed, place);
    }

    /** Commits a borrowed account into the range it was read from. Only a
        changed owner makes the index look the key up. */
    method CommitBorrowed(k: Pubkey, owner: Pubkey, changed: bool, place: Extent, blocks: seq<Block>)
      returns (r: Result<(), DbError>)
      requires Valid() && |blocks| == place.blocks && place.End() <= storage.data.Length
      modifies index, storage.data
      ensures Valid()
      ensures r.Err? <==> changed && k !in old(View())
      ensures r.Err? ==> r.error == NotFound && View() == old(View())
      ensures r.Ok? ==> View() == old(ViewAfterCommit(k, owner, changed, place, blocks))
    {
      RefiledKeepsSound(index.Value(), storage.cursor, k, owner, changed);
      if changed {
        r := index.EnsureCorrectOwner(k, owner);
        if r.Err? {
          return;
        }
      } else {
        r := Ok(());
      }
      storage.Write(place.offset, blocks);
    }

    ghost predicate Refuses(k: Pubkey, a: Account)
      reads index, storage
    {
      && (!a.ephemeral || a.owner != ZERO32)
      && if a.Owned? then NoRoom(|a.blocks|) else a.ownerChanged && k !in index.accounts
    }

    /** An ephemeral account without an owner has been closed, and is removed.
        Any other is stored, as an update of the plain map, as long as a borrowed
        one still stands where it was read. Otherwise it is a write to the range
        it was read from, which is not that update for every content. It is
        refused, and changes nothing, when there is no room or a changed owner
        has no key to be filed under. */
    method Upsert(k: Pubkey, account: Account) returns (r: Result<(), DbError>)
      requires Valid() && ((account.ephemeral && account.owner == ZERO32) || account.Mapped(storage.data.Length))
      modifies index, storage, storage.data
      ensures Valid()
      ensures r.Err? <==> old(Refuses(k, account))
      ensures r.Err? ==> View() == old(View())
      ensures account.ephemeral && account.owner == ZERO32 ==> r.Ok? && View() == old(View()) - {k}
      ensures r.Ok? && account.Owned? && (!account.ephemeral || account.owner != ZERO32) ==>
        View() == old(View())[k := Record(account.owner, account.blocks)]
      ensures r.Ok? && account.Borrowed? && (!account.ephemeral || account.owner != ZERO32) ==>
        var a := account;
        View() == old(ViewAfterCommit(k, a.owner, a.ownerChanged, a.place, a.blocks))
      ensures account.Borrowed? && (!account.ephemeral || account.owner != ZERO32) ==>
        var a := account;
        InPlace(old(index.Value()), k, a) <==> old(CommitsAreUpdates(k, a.owner, a.ownerChanged, a.place))
      ensures r.Ok? && InPlace(old(index.Value()), k, account) ==> View() == Upserted(old(View()), k, account)
      ensures r.Ok? && account.Borrowed? && (!account.ephemeral || account.owner != ZERO32) ==>
        InPlace(old(index.Value()), k, account) ==>
        k in old(View()) && View() == old(View())[k :=
          Record(if account.ownerChanged then account.owner else old(View())[k].owner, account.blocks)]
    {
      if account.Closed() {
        RemoveAccount(k);
        return Ok(());
      }
      match account {
        case Borrowed(owner, _, changed, place, blocks) =>
          CommitIsUpdateIff(k, owner, changed, place);
          r := CommitBorrowed(k, owner, changed, place, blocks);
        case Owned(owner, _, blocks) => r := InsertOwned(k, owner, blocks);
      }
    }

    method RemoveAccount(k: Pubkey)
      requires Valid()
      modifies index
      ensures Valid() && View() == old(View()) - {k}
    {
      SoundIsReadable(index.Value(), storage.cursor, storage.data[..]);
      RemoveKeepsSound(index.Value(), storage.cursor, k);
      RemoveViews(index.Value(), storage.cursor, storage.data[..], k);
      index.Remove(k);
    }

    // ---- Reading ----

    method GetAccount(k: Pubkey) returns (r: Option<seq<Block>>)
      requires Valid()
      ensures r == if k in View() then Some(View()[k].blocks) else None
    {
      if k !in index.accounts {
        return None;
      }
      var e := index.accounts[k];
      SoundIsReadable(index.Value(), storage.cursor, storage.data[..]);
      r := Some(storage.data[e.offset..e.End()]);
      assert r.value == Slice(storage.data[..], e);
    }

    /** The record at an offset taken from the index. */
    method ReadAt(k: Pubkey, offset: nat) returns (blocks: seq<Block>)
      requires Valid() && k in View() && index.accounts[k].offset == offset
      ensures blocks == View()[k].blocks
    {
      var e := index.accounts[k];
      SoundIsReadable(index.Value(), storage.cursor, storage.data[..]);
      blocks := storage.data[offset..offset + e.blocks];
      assert blocks == Slice(storage.data[..], e);
    }

    /** Every account under `program` that passes the filter, and no other. */
    method GetProgramAccounts(program: Pubkey, filter: seq<Block> -> bool) returns (found: map<Pubkey, seq<Block>>)
      requires Valid()
      ensures found == Selection(View(), program, filter)
    {
      found := map[];
      var entries := set e | e in index.programs && e.0 == program;
      ghost var view, t := View(), index.Value();
      ghost var todo := OwnedBy(view, program);
      SoundIsReadable(t, storage.cursor, storage.data[..]);
      TodoStarts(t, storage.data[..], program);
      SelectionStarts(view, program, filter);
      while entries != {}
        invariant Todo(t, view, program, entries, todo)
        invariant found == Selection(view - todo, program, filter)
        decreases entries
      {
        var e :| e in entries;
        TodoStep(t, view, program, entries, todo, e);
        var blocks := ReadAt(e.2, e.1);
        SelectOneMore(view, todo, program, filter, e.2);
        if filter(blocks) {
          found := found[e.2 := blocks];
        }
        entries, todo := entries - {e}, todo - {e.2};
      }
      NothingLeftToSelect(t, view, todo, program, filter);
    }

    method IterateAll() returns (found: map<Pubkey, seq<Block>>)
      requires Valid()
      ensures found == Contents(View())
    {
      found := map[];
      ghost var view := View();
      var keys := index.accounts.Keys;
      assert view.Keys == keys;
      while keys != {}
        invariant keys <= view.Keys && view.Keys == index.accounts.Keys
        invariant found == Contents(view - keys)
        decreases keys
      {
        var k :| k in keys;
        var blocks := ReadAt(k, index.accounts[k].offset);
        found := found[k := blocks];
        ContentsOneMore(view, keys, k);
        keys := keys - {k};
      }
      assert view - keys == view;
    }

    method RemoveAll(keys: set<Pubkey>)
      requires Valid()
      modifies index
      ensures Valid() && View() == old(View()) - keys
    {
      var left := keys;
      ghost var view, gone: set<Pubkey> := View(), {};
      assert view - gone == view;
      while left != {}
        invariant Valid() && gone + left == keys && View() == view - gone
        decreases left
      {
        var k :| k in left;
        RemoveAccount(k);
        RemoveOneMore(view, gone, k);
        left, gone := left - {k}, gone + {k};
      }
    }

    /** Removes exactly the accounts that match, and says how many. */
    method RemoveWhere(matches: (Pubkey, seq<Block>) -> bool) returns (count: nat)
      requires Valid()
      modifies index
      ensures Valid() && View() == old(View()) - Matching(Contents(old(View())), matches)
      ensures count == |Matching(Contents(old(View())), matches)|
    {
      var all := IterateAll();
      var toRemove := Matching(all, matches);
      count := |toRemove|;
      RemoveAll(toRemove);
    }

    // ---- Defragmentation ----

    /** Where every live record goes: the validations never refuse. */
    method PlanMoves(list: seq<Allocation>) returns (r: Result<(), DbError>, moves: Moves, next: nat)
      requires storage.Valid() && Spread(list, storage.cursor)
      ensures r.Ok? && |moves| == |list| && Packs(list, moves, next)
    {
      r, moves, next := Ok(()), [], 0;
      var i := 0;
      while i < |list| && r.Ok?
        invariant 0 <= i <= |list| && r.Ok? && |moves| == i && Packs(list, moves, next)
        decreases |list| - i
      {
        var a := list[i];
        PackedSlides(list, moves, next, storage.cursor);
        PackOneMore(list, moves, next);
        r := storage.ValidateAllocation(a.offset, a.blocks);
        if r.Ok? {
          r := storage.ValidateAllocation(next, a.blocks);
        }
        if r.Ok? {
          moves := moves + [Move(a.key, a.owner, a.offset, next, a.blocks)];
          next := next + a.blocks;
        }
        i := i + 1;
      }
      PackedSlides(list, moves, next, storage.cursor);
      if r.Ok? {
        r := storage.ValidateCursor(next);
      }
    }

    /** Copies every record to its target, in order, through a scratch buffer. */
    method MoveRecords(moves: Moves)
      requires Slides(moves) && Fits(moves, storage.data.Length)
      modifies storage.data
      ensures Slid(moves, old(storage.data[..]), |moves|, storage.data[..])
    {
      ghost var before := storage.data[..];
      assert Slid(moves, before, 0, before);
      for n := 0 to |moves|
        invariant Slid(moves, before, n, storage.data[..])
      {
        SlideStep(moves, before, n, storage.data[..]);
        storage.MoveAllocation(moves[n]);
      }
    }

    /** Moves live records left until no hole remains. It never refuses; every
        account reads back the same; live records are contiguous from zero; and
        everything between the new cursor and the old one is cleared. */
    method Defragment() returns (r: Result<(), DbError>)
      requires Valid()
      modifies index, storage, storage.data
      ensures r.Ok? && Valid() && View() == old(View())
      ensures index.deallocations == {} && Tiles(index.accounts.Values, storage.cursor)
      ensures storage.cursor <= old(storage.cursor)
      ensures Cleared(storage.data[..], storage.cursor, old(storage.cursor))
    {
      ghost var before, cursor, bytes := index.Value(), storage.cursor, storage.data[..];
      var moves, next;
      ghost var list;
      r, list, moves, next := Plan();
      index.ApplyAccountMoves(moves);
      MoveRecords(moves);
      ghost var slid := storage.data[..];
      storage.FinishDefragment(next);
      AfterPlan(before, cursor, bytes, list, moves, next, slid, storage.data[..]);
    }

    // ---- Runs ----

    /** Reads an account, changes it in place and commits it; a record keeps its
        size. */
    method RewriteInPlace(k: Pubkey, owner: Pubkey, ephemeral: bool, blocks: seq<Block>)
      requires Valid()
      modifies index, storage, storage.data
      ensures Valid() && View() == Replay(old(View()), Rewrite(k, owner, ephemeral, blocks), true)
    {
      var held := GetAccount(k);
      if held.Some? && |held.value| == |blocks| && |blocks| > 0 {
        var changed := index.owners[k] != owner;
        var _ := Upsert(k, Borrowed(owner, ephemeral, changed, index.accounts[k], blocks));
      }
    }

    method RunOne(op: Operation) returns (done: bool)
      requires Valid() && (op.Insert? ==> |op.blocks| > 0)
      modifies index, storage, storage.data
      ensures Valid() && View() == Replay(old(View()), op, done)
      ensures !done ==> op.Insert? && old(NoRoom(|op.blocks|))
    {
      done := true;
      match op {
        case Insert(k, owner, ephemeral, blocks) =>
          var r := Upsert(k, Owned(owner, ephemeral, blocks));
          done := r.Ok?;
        case Rewrite(k, owner, ephemeral, blocks) =>
          RewriteInPlace(k, owner, ephemeral, blocks);
        case Delete(k) => RemoveAccount(k);
        case DeleteWhere(matches) => var _ := RemoveWhere(matches);
        case Compact => var _ := Defragment();
      }
    }

    /** After any sequence of operations the database shows exactly what a plain
        map would after the same operations, less the inserts there was no room
        for. */
    method RunAll(ops: seq<Operation>) returns (done: seq<bool>)
      requires Valid() && forall i :: 0 <= i < |ops| && ops[i].Insert? ==> |ops[i].blocks| > 0
      modifies index, storage, storage.data
      ensures Valid() && |done| == |ops| && View() == ReplayAll(old(View()), ops, done)
    {
      done := [];
      ghost var start := View();
      for i := 0 to |ops|
        invariant Valid() && |done| == i && View() == ReplayAll(start, ops[..i], done)
      {
        var ok := RunOne(ops[i]);
        ReplayOneMore(start, ops[..i], done, ops[i], ok);
        done := done + [ok];
        assert ops[..i + 1] == ops[..i] + [ops[i]];
      }
      assert ops[..|ops|] == ops;
    }

    method Plan() returns (r: Result<(), DbError>, ghost list: seq<Allocation>, moves: Moves, next: nat)
      requires Valid()
      ensures r.Ok? && GoodPlan(index.Value(), storage.cursor, storage.data.Length, list, moves, next)
    {
      var allocations := index.AccountsByOffset();
      list := allocations;
      ListIsSpread(index.Value(), storage.cursor, allocations);
      r, moves, next := PlanMoves(allocations);
      PackedSlides(list, moves, next, storage.cursor);
      PackedPlans(index.Value(), list, moves, next);
      MovesFit(list, moves, next, storage.cursor, storage.data.Length);
    }
  }

  /** A plan to move every record left, within the storage. */
  ghost predicate GoodPlan(t: Tables, cursor: nat, size: nat, list: seq<Allocation>, moves: Moves, next: nat) {
    && Sound(t, cursor) && next <= cursor <= size
    && Packs(list, moves, next) && Slides(moves) && Plans(t, moves) && Fits(moves, size)
  }

  predicate Cleared(bytes: seq<Block>, from: nat, to: nat) {
    to <= |bytes| && forall p :: from <= p < to ==> bytes[p] == 0
  }

  /** What a carried-out plan leaves behind. */
  lemma AfterPlan(t: Tables, cursor: nat, bytes: seq<Block>, list: seq<Allocation>, moves: Moves, next: nat,
          slid: seq<Block>, final: seq<Block>)
    requires GoodPlan(t, cursor, |bytes|, list, moves, next)
    requires |slid| == |bytes| && Slid(moves, bytes, |moves|, slid) && ClearedTail(slid, next, cursor, final)
    ensures Sound(Compacted(t, moves), next) && Readable(Compacted(t, moves), final) && Readable(t, bytes)
    ensures ViewOf(Compacted(t, moves), final) == ViewOf(t, bytes)
    ensures Tiles(Compacted(t, moves).accounts.Values, next) && Cleared(final, next, cursor)
  {
    var tail :| |tail| == cursor - next && (forall i :: 0 <= i < |tail| ==> tail[i] == 0)
      && final == Overwrite(slid, next, tail);
    TailIsFree(list, moves, next, bytes, slid, tail);
    CompactedIsSound(t, list, moves, next);
    SoundIsReadable(t, cursor, bytes);
    SoundIsReadable(Compacted(t, moves), next, final);
    CompactionKeepsView(t, moves, bytes, final);
    TailIsCleared(slid, next, tail, final);
    assert InUse(Compacted(t, moves)) == Compacted(t, moves).accounts.Values;
  }

  /** `final` is `bytes` with everything from `next` to `cursor` set to zero. */
  ghost predicate ClearedTail(bytes: seq<Block>, next: nat, cursor: nat, final: seq<Block>)
    requires next <= cursor <= |bytes|
  {
    exists tail: seq<Block> ::
      && |tail| == cursor - next && (forall i :: 0 <= i < |tail| ==> tail[i] == 0)
      && final == Overwrite(bytes, next, tail)
  }

  lemma PackOneMore(list: seq<Allocation>, moves: Moves, next: nat)
    requires Packs(list, moves, next) && |moves| < |list|
    ensures var a := list[|moves|];
      Packs(list, moves + [Move(a.key, a.owner, a.offset, next, a.blocks)], next + a.blocks)
  {
    var a := list[|moves|];
    var more := moves + [Move(a.key, a.owner, a.offset, next, a.blocks)];
    forall i | 0 <= i < |more| ensures PackedAt(list, more, i) {
      if i < |moves| {
        assert PackedAt(list, moves, i);
      }
    }
  }

  lemma MovesFit(list: seq<Allocation>, moves: Moves, next: nat, cursor: nat, size: nat)
    requires Packs(list, moves, next) && Spread(list, cursor) && Slides(moves) && cursor <= size
    ensures Fits(moves, size)
  {
    forall i | 0 <= i < |moves| ensures moves[i].From().End() <= size && moves[i].To().End() <= size {
      assert PackedAt(list, moves, i);
    }
  }

  lemma TailIsCleared(slid: seq<Block>, next: nat, tail: seq<Block>, bytes: seq<Block>)
    requires next + |tail| <= |slid| && bytes == Overwrite(slid, next, tail)
    requires forall i :: 0 <= i < |tail| ==> tail[i] == 0
    ensures Cleared(bytes, next, next + |tail|)
  {
    forall p | next <= p < next + |tail| ensures bytes[p] == 0 {
      assert bytes[p] == tail[p - next];
    }
  }

  function Contents(view: map<Pubkey, Record>): map<Pubkey, seq<Block>> { map k | k in view :: view[k].blocks }

  function Matching(all: map<Pubkey, seq<Block>>, matches: (Pubkey, seq<Block>) -> bool): set<Pubkey> {
    set k | k in all && matches(k, all[k])
  }

  function Selection(view: map<Pubkey, Record>, program: Pubkey, filter: seq<Block> -> bool): map<Pubkey, seq<Block>> {
    map k | k in view && view[k].owner == program && filter(view[k].blocks) :: view[k].blocks
  }

  /** A `programs` entry and what the map says about its account. */
  predicate Under(t: Tables, view: map<Pubkey, Record>, program: Pubkey, e: (Pubkey, nat, Pubkey)) {
    e.0 == program && e.2 in view && view[e.2].owner == program && e.2 in t.accounts && t.accounts[e.2].offset == e.1
  }

  lemma SelectOneMore(view: map<Pubkey, Record>, todo: set<Pubkey>, program: Pubkey, filter: seq<Block> -> bool,
          k: Pubkey)
    requires k in todo && k in view && view[k].owner == program
    ensures Selection(view - (todo - {k}), program, filter) ==
      if filter(view[k].blocks) then Selection(view - todo, program, filter)[k := view[k].blocks]
      else Selection(view - todo, program, filter)
  {
  }

  function OwnedBy(view: map<Pubkey, Record>, program: Pubkey): set<Pubkey> {
    set k | k in view && view[k].owner == program
  }

  /** Each entry still to visit stands for one account still to report. */
  ghost predicate Todo(t: Tables, view: map<Pubkey, Record>, program: Pubkey, entries: set<(Pubkey, nat, Pubkey)>,
          todo: set<Pubkey>) {
    && (forall e :: e in entries ==> Under(t, view, program, e) && e.2 in todo)
    && (forall k :: k in todo ==> k in t.accounts && (program, t.accounts[k].offset, k) in entries)
  }

  lemma TodoStarts(t: Tables, bytes: seq<Block>, program: Pubkey)
    requires Readable(t, bytes) && ProgramsExact(t)
    ensures var view := ViewOf(t, bytes);
      Todo(t, view, program, (set e | e in t.programs && e.0 == program), OwnedBy(view, program))
  {
    var view := ViewOf(t, bytes);
    forall e | e in t.programs && e.0 == program ensures Under(t, view, program, e) {
      assert (e.0, e.1, e.2) in t.programs;
    }
  }

  lemma TodoStep(t: Tables, view: map<Pubkey, Record>, program: Pubkey, entries: set<(Pubkey, nat, Pubkey)>,
          todo: set<Pubkey>, e: (Pubkey, nat, Pubkey))
    requires Todo(t, view, program, entries, todo) && e in entries
    ensures Under(t, view, program, e) && e.2 in todo
    ensures Todo(t, view, program, entries - {e}, todo - {e.2})
  {
    forall x | x in entries - {e} ensures x.2 in todo - {e.2} {
      assert Under(t, view, program, x) && Under(t, view, program, e);
    }
  }

  lemma SelectionStarts(view: map<Pubkey, Record>, program: Pubkey, filter: seq<Block> -> bool)
    ensures Selection(view - OwnedBy(view, program), program, filter) == map[]
  {
  }

  lemma NothingLeftToSelect(t: Tables, view: map<Pubkey, Record>, todo: set<Pubkey>, program: Pubkey,
          filter: seq<Block> -> bool)
    requires Todo(t, view, program, {}, todo)
    ensures Selection(view - todo, program, filter) == Selection(view, program, filter)
  {
    assert todo == {};
    assert view - todo == view;
  }

  lemma ContentsOneMore(view: map<Pubkey, Record>, keys: set<Pubkey>, k: Pubkey)
    requires k in keys && k in view
    ensures Contents(view - (keys - {k})) == Contents(view - keys)[k := view[k].blocks]
  {
  }

  lemma RemoveOneMore(view: map<Pubkey, Record>, gone: set<Pubkey>, k: Pubkey)
    ensures view - gone - {k} == view - (gone + {k})
  {
  }

  lemma PendingFits(t: Tables, cursor: nat, place: Extent)
    requires SoundWith(t, cursor, place)
    ensures place.End() <= cursor
  {
  }

  lemma SameTablesSameView(t: Tables, next: Tables, bytes: seq<Block>)
    requires Readable(t, bytes) && next.accounts == t.accounts && next.owners == t.owners
    ensures Readable(next, bytes) && ViewOf(next, bytes) == ViewOf(t, bytes)
  {
  }
}
