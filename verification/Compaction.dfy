/** Sliding every record left: the plan, what it does to the tables and to the
    bytes (`AccountsDb::defragment`). */
module Compaction {
  import opened Extents
  import opened AccountTables

  datatype Allocation = Allocation(key: Pubkey, owner: Pubkey, offset: nat, blocks: nat) {
    function Place(): Extent { Extent(offset, blocks) }
  }

  // ---- Accounts by offset ----

  predicate Ascending(list: seq<Allocation>) {
    forall i, j :: 0 <= i < j < |list| ==> list[i].offset <= list[j].offset
  }

  predicate HasKey(list: seq<Allocation>, k: Pubkey) { exists i :: 0 <= i < |list| && list[i].key == k }

  predicate DistinctKeys(list: seq<Allocation>) {
    forall i, j :: 0 <= i < j < |list| ==> list[i].key != list[j].key
  }

  function Insert(list: seq<Allocation>, x: Allocation): (r: seq<Allocation>)
    ensures |r| == |list| + 1
  {
    if list == [] || list[|list| - 1].offset <= x.offset then list + [x]
    else Insert(list[..|list| - 1], x) + [list[|list| - 1]]
  }

  /** `sort_by_key` on the offset. */
  function SortByOffset(list: seq<Allocation>): (r: seq<Allocation>)
    ensures |r| == |list|
  {
    if list == [] then [] else Insert(SortByOffset(list[..|list| - 1]), list[|list| - 1])
  }

  lemma {:induction false} InsertMembers(list: seq<Allocation>, x: Allocation, a: Allocation)
    ensures a in Insert(list, x) <==> a in list || a == x
    decreases |list|
  {
    if list != [] && list[|list| - 1].offset > x.offset {
      InsertMembers(list[..|list| - 1], x, a);
      assert list == list[..|list| - 1] + [list[|list| - 1]];
    }
  }

  lemma {:induction false} InsertAscends(list: seq<Allocation>, x: Allocation)
    requires Ascending(list)
    ensures Ascending(Insert(list, x))
    decreases |list|
  {
    if list != [] && list[|list| - 1].offset > x.offset {
      var init, last := list[..|list| - 1], list[|list| - 1];
      InsertAscends(init, x);
      forall i | 0 <= i < |Insert(init, x)| ensures Insert(init, x)[i].offset <= last.offset {
        InsertMembers(init, x, Insert(init, x)[i]);
      }
    }
  }

  lemma {:induction false} InsertDistinct(list: seq<Allocation>, x: Allocation)
    requires DistinctKeys(list) && forall i :: 0 <= i < |list| ==> list[i].key != x.key
    ensures DistinctKeys(Insert(list, x))
    decreases |list|
  {
    if list != [] && list[|list| - 1].offset > x.offset {
      var init, last := list[..|list| - 1], list[|list| - 1];
      InsertDistinct(init, x);
      forall i | 0 <= i < |Insert(init, x)| ensures Insert(init, x)[i].key != last.key {
        InsertMembers(init, x, Insert(init, x)[i]);
      }
    }
  }

  /** Sorting rearranges: same entries, in ascending order. */
  lemma {:induction false} SortMembers(list: seq<Allocation>, a: Allocation)
    ensures a in SortByOffset(list) <==> a in list
    decreases |list|
  {
    if list != [] {
      SortMembers(list[..|list| - 1], a);
      InsertMembers(SortByOffset(list[..|list| - 1]), list[|list| - 1], a);
      assert list == list[..|list| - 1] + [list[|list| - 1]];
    }
  }

  lemma {:induction false} SortAscends(list: seq<Allocation>)
    ensures Ascending(SortByOffset(list))
    decreases |list|
  {
    if list != [] {
      SortAscends(list[..|list| - 1]);
      InsertAscends(SortByOffset(list[..|list| - 1]), list[|list| - 1]);
    }
  }

  lemma {:induction false} SortDistinct(list: seq<Allocation>)
    requires DistinctKeys(list)
    ensures DistinctKeys(SortByOffset(list))
    decreases |list|
  {
    if list != [] {
      var init, last := list[..|list| - 1], list[|list| - 1];
      SortDistinct(init);
      forall i | 0 <= i < |init| ensures SortByOffset(init)[i].key != last.key {
        SortMembers(init, SortByOffset(init)[i]);
      }
      InsertDistinct(SortByOffset(init), last);
    }
  }

  predicate Names(t: Tables, a: Allocation) {
    && a.key in t.accounts && t.accounts[a.key] == a.Place()
    && a.key in t.owners && t.owners[a.key] == a.owner
  }

  /** `list` names every account once, with its owner and place. */
  ghost predicate Lists(t: Tables, list: seq<Allocation>) {
    && SameKeys(t) && DistinctKeys(list)
    && (forall i :: 0 <= i < |list| ==> Names(t, list[i]))
    && (forall k :: k in t.accounts ==> HasKey(list, k))
  }

  lemma SortLists(t: Tables, list: seq<Allocation>)
    requires Lists(t, list)
    ensures Lists(t, SortByOffset(list)) && Ascending(SortByOffset(list))
  {
    var sorted := SortByOffset(list);
    SortAscends(list);
    SortDistinct(list);
    forall i | 0 <= i < |sorted| ensures Names(t, sorted[i]) {
      SortMembers(list, sorted[i]);
    }
    forall k | k in t.accounts ensures HasKey(sorted, k) {
      assert HasKey(list, k);
      var j :| 0 <= j < |list| && list[j].key == k;
      SortMembers(list, list[j]);
      var i :| 0 <= i < |sorted| && sorted[i] == list[j];
    }
  }

  // ---- The plan ----

  datatype Move = Move(key: Pubkey, owner: Pubkey, oldOffset: nat, newOffset: nat, blocks: nat) {
    function From(): Extent { Extent(oldOffset, blocks) }
    function To(): Extent { Extent(newOffset, blocks) }
  }

  type Moves = seq<Move>

  predicate PackedAt(list: seq<Allocation>, moves: Moves, i: nat)
    requires i < |moves| <= |list|
  {
    && moves[i].key == list[i].key && moves[i].owner == list[i].owner && moves[i].From() == list[i].Place()
    && moves[i].newOffset == if i == 0 then 0 else moves[i - 1].To().End()
  }

  /** The moves follow the list, each to right after the one before. */
  predicate Packs(list: seq<Allocation>, moves: Moves, next: nat) {
    && |moves| <= |list|
    && (forall i :: 0 <= i < |moves| ==> PackedAt(list, moves, i))
    && next == if moves == [] then 0 else moves[|moves| - 1].To().End()
  }

  /** Each account is moved once, from where it is. */
  ghost predicate Plans(t: Tables, moves: Moves) {
    && SameKeys(t)
    && (forall i, j :: 0 <= i < j < |moves| ==> moves[i].key != moves[j].key)
    && (forall i :: 0 <= i < |moves| ==> StartsFrom(t, moves[i]))
    && (forall k :: k in t.accounts ==> exists i :: 0 <= i < |moves| && moves[i].key == k)
  }

  predicate StartsFrom(t: Tables, m: Move) {
    && m.key in t.accounts && t.accounts[m.key] == m.From()
    && m.key in t.owners && t.owners[m.key] == m.owner
  }

  /** Sources and targets are in order and apart, and nothing moves right. */
  predicate Slides(moves: Moves) {
    && (forall i :: 0 <= i < |moves| ==> moves[i].blocks > 0 && moves[i].newOffset <= moves[i].oldOffset)
    && (forall i, j :: 0 <= i < j < |moves| ==>
          moves[i].From().End() <= moves[j].oldOffset && moves[i].To().End() <= moves[j].newOffset)
  }

  lemma NoTwoShare(t: Tables, cursor: nat, k: Pubkey, j: Pubkey)
    requires Sound(t, cursor) && k in t.accounts && j in t.accounts && k != j
    ensures Disjoint(t.accounts[k], t.accounts[j])
    ensures t.accounts[k].blocks > 0 && t.accounts[k].End() <= cursor
  {
    assert t.accounts[k] in InUse(t) && t.accounts[j] in InUse(t);
  }

  lemma PlaceIsWithin(t: Tables, cursor: nat, k: Pubkey)
    requires Sound(t, cursor) && k in t.accounts
    ensures t.accounts[k].blocks > 0 && t.accounts[k].End() <= cursor
  {
    assert t.accounts[k] in InUse(t);
  }

  predicate Spread(list: seq<Allocation>, cursor: nat) {
    && (forall i :: 0 <= i < |list| ==> list[i].blocks > 0 && list[i].Place().End() <= cursor)
    && (forall i, j :: 0 <= i < j < |list| ==> list[i].Place().End() <= list[j].offset)
  }

  lemma ListIsSpread(t: Tables, cursor: nat, list: seq<Allocation>)
    requires Sound(t, cursor) && Lists(t, list) && Ascending(list)
    ensures Spread(list, cursor)
  {
    forall i | 0 <= i < |list| ensures list[i].blocks > 0 && list[i].Place().End() <= cursor {
      assert Names(t, list[i]);
      PlaceIsWithin(t, cursor, list[i].key);
    }
    forall i, j | 0 <= i < j < |list| ensures list[i].Place().End() <= list[j].offset {
      assert Names(t, list[i]) && Names(t, list[j]);
      NoTwoShare(t, cursor, list[i].key, list[j].key);
    }
  }

  lemma {:induction false} TargetsInOrder(list: seq<Allocation>, moves: Moves, next: nat, i: nat, j: nat)
    requires Packs(list, moves, next) && i < j < |moves|
    ensures moves[i].To().End() <= moves[j].newOffset
    decreases j
  {
    assert PackedAt(list, moves, j);
    if i + 1 < j {
      TargetsInOrder(list, moves, next, i, j - 1);
    }
  }

  /** Records only ever move left. */
  lemma {:induction false} MovesLeft(list: seq<Allocation>, moves: Moves, next: nat, cursor: nat, i: nat)
    requires Packs(list, moves, next) && Spread(list, cursor) && i < |moves|
    ensures moves[i].newOffset <= moves[i].oldOffset
  {
    assert PackedAt(list, moves, i);
    if i > 0 {
      MovesLeft(list, moves, next, cursor, i - 1);
      assert PackedAt(list, moves, i - 1);
    }
  }

  lemma PackedSlides(list: seq<Allocation>, moves: Moves, next: nat, cursor: nat)
    requires Packs(list, moves, next) && Spread(list, cursor)
    ensures Slides(moves) && next <= cursor
    ensures |moves| < |list| ==> next <= list[|moves|].offset
  {
    forall i | 0 <= i < |moves| ensures moves[i].blocks > 0 && moves[i].newOffset <= moves[i].oldOffset {
      MovesLeft(list, moves, next, cursor, i);
      assert PackedAt(list, moves, i);
    }
    forall i, j | 0 <= i < j < |moves|
      ensures moves[i].From().End() <= moves[j].oldOffset && moves[i].To().End() <= moves[j].newOffset
    {
      TargetsInOrder(list, moves, next, i, j);
      assert PackedAt(list, moves, i) && PackedAt(list, moves, j);
    }
    if moves != [] {
      var last := |moves| - 1;
      assert PackedAt(list, moves, last);
    }
  }

  lemma PackedPlans(t: Tables, list: seq<Allocation>, moves: Moves, next: nat)
    requires Lists(t, list) && Packs(list, moves, next) && |moves| == |list|
    ensures Plans(t, moves)
  {
    forall i | 0 <= i < |moves| ensures StartsFrom(t, moves[i]) {
      assert Names(t, list[i]) && PackedAt(list, moves, i);
    }
    forall i, j | 0 <= i < j < |moves| ensures moves[i].key != moves[j].key {
      assert PackedAt(list, moves, i) && PackedAt(list, moves, j);
    }
    forall k | k in t.accounts ensures exists i :: 0 <= i < |moves| && moves[i].key == k {
      assert HasKey(list, k);
      var i :| 0 <= i < |list| && list[i].key == k;
      assert PackedAt(list, moves, i);
    }
  }

  // ---- The tables ----

  function ApplyMove(t: Tables, m: Move): Tables {
    if m.oldOffset == m.newOffset then t
    else t.(accounts := t.accounts[m.key := m.To()],
            programs := t.programs - {(m.owner, m.oldOffset, m.key)} + {(m.owner, m.newOffset, m.key)})
  }

  function ApplyMoves(t: Tables, moves: Moves, n: nat): Tables
    requires n <= |moves|
  {
    if n == 0 then t else ApplyMove(ApplyMoves(t, moves, n - 1), moves[n - 1])
  }

  lemma {:induction false} MovesKeepKeys(t: Tables, moves: Moves, n: nat)
    requires Plans(t, moves) && n <= |moves|
    ensures var next := ApplyMoves(t, moves, n);
      next.accounts.Keys == t.accounts.Keys && next.owners == t.owners && next.deallocations == t.deallocations
  {
    if n > 0 {
      MovesKeepKeys(t, moves, n - 1);
      assert StartsFrom(t, moves[n - 1]);
    }
  }

  lemma {:induction false} MovesPlace(t: Tables, moves: Moves, n: nat, i: nat)
    requires Plans(t, moves) && n <= |moves| && i < |moves|
    ensures moves[i].key in ApplyMoves(t, moves, n).accounts
    ensures ApplyMoves(t, moves, n).accounts[moves[i].key] == if i < n then moves[i].To() else moves[i].From()
  {
    assert StartsFrom(t, moves[i]);
    if n > 0 {
      MovesPlace(t, moves, n - 1, i);
      assert i != n - 1 ==> moves[i].key != moves[n - 1].key;
    }
  }

  predicate Filed(t: Tables, o: Pubkey, f: nat, j: Pubkey) {
    j in t.accounts && j in t.owners && t.owners[j] == o && t.accounts[j].offset == f
  }

  /** When its turn comes, an account is still where its move starts. */
  predicate Ready(t: Tables, moves: Moves, n: nat)
    requires n < |moves|
  {
    SameKeys(ApplyMoves(t, moves, n)) && StartsFrom(ApplyMoves(t, moves, n), moves[n])
  }

  lemma MoveKeepsEntry(t: Tables, m: Move, o: Pubkey, f: nat, j: Pubkey)
    requires SameKeys(t) && StartsFrom(t, m)
    requires (o, f, j) in t.programs <==> Filed(t, o, f, j)
    ensures (o, f, j) in ApplyMove(t, m).programs <==> Filed(ApplyMove(t, m), o, f, j)
  {
  }

  lemma {:induction false} MovesKeepEntry(t: Tables, moves: Moves, n: nat, o: Pubkey, f: nat, j: Pubkey)
    requires n <= |moves| && forall i :: 0 <= i < n ==> Ready(t, moves, i)
    requires (o, f, j) in t.programs <==> Filed(t, o, f, j)
    ensures (o, f, j) in ApplyMoves(t, moves, n).programs <==> Filed(ApplyMoves(t, moves, n), o, f, j)
  {
    if n > 0 {
      MovesKeepEntry(t, moves, n - 1, o, f, j);
      assert Ready(t, moves, n - 1);
      MoveKeepsEntry(ApplyMoves(t, moves, n - 1), moves[n - 1], o, f, j);
    }
  }

  lemma MovesKeepPrograms(t: Tables, moves: Moves, n: nat)
    requires Plans(t, moves) && ProgramsExact(t) && n <= |moves|
    ensures ProgramsExact(ApplyMoves(t, moves, n))
  {
    var next := ApplyMoves(t, moves, n);
    forall i | 0 <= i < n ensures Ready(t, moves, i) {
      NextStartsFrom(t, moves, i);
    }
    forall o: Pubkey, f: nat, j: Pubkey ensures (o, f, j) in next.programs <==>
      j in next.accounts && j in next.owners && next.owners[j] == o && next.accounts[j].offset == f
    {
      assert (o, f, j) in t.programs <==> Filed(t, o, f, j);
      MovesKeepEntry(t, moves, n, o, f, j);
    }
  }

  lemma NextStartsFrom(t: Tables, moves: Moves, n: nat)
    requires Plans(t, moves) && n < |moves|
    ensures Ready(t, moves, n)
  {
    assert StartsFrom(t, moves[n]);
    MovesKeepKeys(t, moves, n);
    MovesPlace(t, moves, n, n);
  }

  function Compacted(t: Tables, moves: Moves): Tables {
    ApplyMoves(t, moves, |moves|).(deallocations := {})
  }

  // ---- The compacted layout ----

  lemma MoveOf(t: Tables, moves: Moves, k: Pubkey) returns (i: nat)
    requires Plans(t, moves) && k in t.accounts
    ensures i < |moves| && moves[i].key == k && StartsFrom(t, moves[i])
    ensures k in Compacted(t, moves).accounts && Compacted(t, moves).accounts[k] == moves[i].To()
  {
    i :| 0 <= i < |moves| && moves[i].key == k;
    MovesPlace(t, moves, |moves|, i);
  }

  lemma CompactedApart(t: Tables, moves: Moves, k: Pubkey, j: Pubkey)
    requires Plans(t, moves) && Slides(moves) && k in t.accounts && j in t.accounts && k != j
    ensures var next := Compacted(t, moves);
      && k in next.accounts && j in next.accounts
      && next.accounts[k] != next.accounts[j] && Disjoint(next.accounts[k], next.accounts[j])
  {
    var a := MoveOf(t, moves, k);
    var b := MoveOf(t, moves, j);
    assert a < b || b < a;
  }

  lemma {:induction false} TargetsCover(list: seq<Allocation>, moves: Moves, next: nat, n: nat, p: int) returns (i: nat)
    requires Packs(list, moves, next) && n < |moves| && 0 <= p < moves[n].To().End()
    ensures i <= n && moves[i].To().Holds(p)
    decreases n
  {
    assert PackedAt(list, moves, n);
    if p >= moves[n].newOffset {
      i := n;
    } else {
      i := TargetsCover(list, moves, next, n - 1, p);
    }
  }

  lemma CompactedCovers(t: Tables, list: seq<Allocation>, moves: Moves, next: nat)
    requires Plans(t, moves) && Packs(list, moves, next)
    ensures Covers(Compacted(t, moves).accounts.Values, next)
  {
    var after := Compacted(t, moves).accounts;
    forall p | 0 <= p < next ensures Held(after.Values, p) {
      var i := TargetsCover(list, moves, next, |moves| - 1, p);
      MovesPlace(t, moves, |moves|, i);
      assert moves[i].To() in after.Values;
    }
  }

  lemma TargetWithin(list: seq<Allocation>, moves: Moves, next: nat, i: nat)
    requires Packs(list, moves, next) && Slides(moves) && i < |moves|
    ensures moves[i].To().blocks > 0 && moves[i].To().End() <= next
  {
    if i < |moves| - 1 {
      TargetsInOrder(list, moves, next, i, |moves| - 1);
    }
  }

  lemma CompactedPlaced(t: Tables, moves: Moves)
    requires Plans(t, moves) && Slides(moves)
    ensures Injective(Compacted(t, moves).accounts) && Apart(Compacted(t, moves).accounts.Values)
  {
    var after := Compacted(t, moves).accounts;
    MovesKeepKeys(t, moves, |moves|);
    forall k, j | k in after && j in after && k != j
      ensures after[k] != after[j] && Disjoint(after[k], after[j])
    {
      CompactedApart(t, moves, k, j);
    }
    forall x, y | x in after.Values && y in after.Values && x != y ensures Disjoint(x, y) {
      var k :| k in after && after[k] == x;
      var j :| j in after && after[j] == y;
    }
  }

  lemma CompactedWithin(t: Tables, list: seq<Allocation>, moves: Moves, next: nat)
    requires Plans(t, moves) && Slides(moves) && Packs(list, moves, next)
    ensures Within(Compacted(t, moves).accounts.Values, next)
  {
    var after := Compacted(t, moves).accounts;
    MovesKeepKeys(t, moves, |moves|);
    forall x | x in after.Values ensures 0 < x.blocks && x.End() <= next {
      var k :| k in after && after[k] == x;
      var i := MoveOf(t, moves, k);
      TargetWithin(list, moves, next, i);
    }
  }

  /** After the moves the tables are sound for the packed cursor, with no hole
      left: live records are contiguous from zero. */
  lemma CompactedIsSound(t: Tables, list: seq<Allocation>, moves: Moves, next: nat)
    requires Plans(t, moves) && Slides(moves) && Packs(list, moves, next) && ProgramsExact(t)
    ensures Sound(Compacted(t, moves), next)
  {
    MovesKeepKeys(t, moves, |moves|);
    MovesKeepPrograms(t, moves, |moves|);
    CompactedPlaced(t, moves);
    CompactedWithin(t, list, moves, next);
    CompactedCovers(t, list, moves, next);
    assert InUse(Compacted(t, moves)) == Compacted(t, moves).accounts.Values;
  }

  // ---- The bytes ----

  predicate Fits(moves: Moves, size: nat) {
    forall i :: 0 <= i < |moves| ==> moves[i].From().End() <= size && moves[i].To().End() <= size
  }

  /** One move by way of a scratch buffer. */
  function MoveBytes(bytes: seq<Block>, m: Move): (r: seq<Block>)
    requires m.From().End() <= |bytes| && m.To().End() <= |bytes|
    ensures |r| == |bytes|
  {
    Overwrite(bytes, m.newOffset, Slice(bytes, m.From()))
  }

  /** Record `i` after `n` moves: at its target if it was moved, else still
      where it was. */
  ghost predicate SlidOne(moves: Moves, before: seq<Block>, n: nat, after: seq<Block>, i: nat)
    requires Fits(moves, |before|) && |after| == |before| && i < |moves|
  {
    Slice(after, if i < n then moves[i].To() else moves[i].From()) == Slice(before, moves[i].From())
  }

  ghost predicate Slid(moves: Moves, before: seq<Block>, n: nat, after: seq<Block>)
    requires Fits(moves, |before|) && |after| == |before|
  {
    forall i :: 0 <= i < |moves| ==> SlidOne(moves, before, n, after, i)
  }

  /** A move overwrites neither a record already in place nor one still to be
      moved, though source and target ranges may overlap. */
  lemma SlideOne(moves: Moves, before: seq<Block>, n: nat, now: seq<Block>, i: nat)
    requires Slides(moves) && Fits(moves, |before|) && |now| == |before| && n < |moves| && i < |moves|
    requires SlidOne(moves, before, n, now, n) && SlidOne(moves, before, n, now, i)
    ensures SlidOne(moves, before, n + 1, MoveBytes(now, moves[n]), i)
  {
    var record := Slice(now, moves[n].From());
    if i == n {
      OverwriteHere(now, moves[n].newOffset, record);
    } else {
      OverwriteElsewhere(now, moves[n].newOffset, record, if i < n then moves[i].To() else moves[i].From());
    }
  }

  lemma SlideStep(moves: Moves, before: seq<Block>, n: nat, now: seq<Block>)
    requires Slides(moves) && Fits(moves, |before|) && |now| == |before| && n < |moves| && Slid(moves, before, n, now)
    ensures Slid(moves, before, n + 1, MoveBytes(now, moves[n]))
  {
    var done, moved := n + 1, MoveBytes(now, moves[n]);
    forall i | 0 <= i < |moves| ensures SlidOne(moves, before, done, moved, i) {
      assert SlidOne(moves, before, n, now, n) && SlidOne(moves, before, n, now, i);
      SlideOne(moves, before, n, now, i);
    }
  }

  /** Clearing the tail touches no record. */
  lemma TailIsFree(list: seq<Allocation>, moves: Moves, next: nat, before: seq<Block>, after: seq<Block>,
          tail: seq<Block>)
    requires Packs(list, moves, next) && Slides(moves) && Fits(moves, |before|) && |after| == |before|
    requires Slid(moves, before, |moves|, after) && next + |tail| <= |after|
    ensures Slid(moves, before, |moves|, Overwrite(after, next, tail))
  {
    forall i | 0 <= i < |moves| ensures SlidOne(moves, before, |moves|, Overwrite(after, next, tail), i) {
      assert SlidOne(moves, before, |moves|, after, i);
      TargetWithin(list, moves, next, i);
      OverwriteElsewhere(after, next, tail, moves[i].To());
    }
  }

  /** The compacted database shows exactly the accounts it showed before. */
  lemma CompactionKeepsView(t: Tables, moves: Moves, before: seq<Block>, after: seq<Block>)
    requires Plans(t, moves) && Fits(moves, |before|) && |after| == |before|
    requires Readable(t, before) && Readable(Compacted(t, moves), after)
    requires Slid(moves, before, |moves|, after)
    ensures ViewOf(Compacted(t, moves), after) == ViewOf(t, before)
  {
    MovesKeepKeys(t, moves, |moves|);
    forall k | k in t.accounts ensures SameRecord(t, before, Compacted(t, moves), after, k) {
      var i := MoveOf(t, moves, k);
      assert SlidOne(moves, before, |moves|, after, i);
    }
    SameView(t, before, Compacted(t, moves), after);
  }

  lemma SameView(t: Tables, before: seq<Block>, next: Tables, after: seq<Block>)
    requires Readable(t, before) && Readable(next, after) && next.accounts.Keys == t.accounts.Keys
    requires forall k :: k in t.accounts ==> SameRecord(t, before, next, after, k)
    ensures ViewOf(next, after) == ViewOf(t, before)
  {
    forall k | k in t.accounts ensures ViewOf(next, after)[k] == ViewOf(t, before)[k] {
      assert SameRecord(t, before, next, after, k);
    }
  }
}
