/** `AccountsStorage::allocate`: a lock-free bump allocator whose failed calls
    try to put the cursor back. Any number of callers, interleaved at every
    atomic step. */
module Allocator {
  import opened Base
  import opened Extents

  datatype Phase = Reserved | Granted | Failing | Refused

  /** One call to `allocate`, from its `fetch_add` on. */
  datatype Call = Call(start: nat, blocks: nat, phase: Phase) {
    function End(): nat { start + blocks }
    function Range(): Extent { Extent(start, blocks) }
  }

  datatype State = State(cursor: nat, calls: map<nat, Call>)

  datatype Action =
    /** `write_cursor.fetch_add(blocks)` by a new call. */
    | FetchAdd(id: nat, blocks: nat)
    /** The comparison with the capacity. */
    | Compare(id: nat)
    /** `compare_exchange(end, start)`, whose outcome is ignored. */
    | RollBack(id: nat)

  predicate Enabled(s: State, a: Action) {
    match a
    case FetchAdd(id, blocks) => id !in s.calls && blocks < U32_LIMIT
    case Compare(id) => id in s.calls && s.calls[id].phase.Reserved?
    case RollBack(id) => id in s.calls && s.calls[id].phase.Failing?
  }

  /** The cursor is 64 bits wide and wraps, and so does the sum that `Compare`
      and `RollBack` work with. */
  function Next(capacity: nat, s: State, a: Action): State
    requires Enabled(s, a)
  {
    match a
    case FetchAdd(id, blocks) =>
      State((s.cursor + blocks) % U64_LIMIT, s.calls[id := Call(s.cursor, blocks, Reserved)])
    case Compare(id) =>
      var c := s.calls[id];
      State(s.cursor, s.calls[id := c.(phase := if c.End() % U64_LIMIT > capacity then Failing else Granted)])
    case RollBack(id) =>
      var c := s.calls[id];
      State(if s.cursor == c.End() % U64_LIMIT then c.start else s.cursor, s.calls[id := c.(phase := Refused)])
  }

  ghost predicate IsRun(capacity: nat, states: seq<State>, actions: seq<Action>) {
    && |states| == |actions| + 1
    && states[0].calls == map[] && states[0].cursor <= capacity
    && forall i :: 0 <= i < |actions| ==>
         Enabled(states[i], actions[i]) && states[i + 1] == Next(capacity, states[i], actions[i])
  }

  // ---- What every step keeps while the cursor does not wrap ----

  predicate Fits(capacity: nat, c: Call) { c.End() <= capacity }

  /** A call that is out of room and started inside it: the only kind whose
      rollback could bring the cursor back among ranges in use. */
  predicate Crosses(capacity: nat, c: Call) {
    c.start <= capacity < c.End() && !c.phase.Refused?
  }

  /** Ranges that are or will be granted lie between `base` and the cursor. */
  ghost predicate Below(capacity: nat, base: nat, s: State) {
    && base <= s.cursor
    && forall i :: i in s.calls ==>
         base <= s.calls[i].start && (Fits(capacity, s.calls[i]) ==> s.calls[i].End() <= s.cursor)
  }

  ghost predicate FitsApart(capacity: nat, s: State) {
    forall i, j ::
      (i in s.calls && j in s.calls && i != j && Fits(capacity, s.calls[i]) && Fits(capacity, s.calls[j])) ==>
      Disjoint(s.calls[i].Range(), s.calls[j].Range())
  }

  /** While a call crosses the capacity the cursor stands beyond it, and the
      call started after every range in use. */
  ghost predicate CrosserLast(capacity: nat, s: State) {
    forall x, i :: x in s.calls && i in s.calls && Crosses(capacity, s.calls[x]) ==>
      && s.cursor > capacity
      && (Fits(capacity, s.calls[i]) ==> s.calls[i].End() <= s.calls[x].start)
      && (Crosses(capacity, s.calls[i]) ==> i == x)
  }

  ghost predicate Judged(capacity: nat, s: State) {
    forall i :: i in s.calls ==>
      && s.calls[i].End() < U64_LIMIT
      && (s.calls[i].phase.Granted? ==> Fits(capacity, s.calls[i]))
      && (s.calls[i].phase.Failing? || s.calls[i].phase.Refused? ==> !Fits(capacity, s.calls[i]))
  }

  ghost predicate Inv(capacity: nat, base: nat, s: State) {
    Below(capacity, base, s) && FitsApart(capacity, s) && CrosserLast(capacity, s) && Judged(capacity, s)
  }

  lemma ReserveKeepsApart(capacity: nat, base: nat, s: State, id: nat, blocks: nat)
    requires Below(capacity, base, s) && FitsApart(capacity, s) && id !in s.calls
    ensures FitsApart(capacity, State(s.cursor + blocks, s.calls[id := Call(s.cursor, blocks, Reserved)]))
  {
  }

  lemma ReserveKeepsCrosser(capacity: nat, base: nat, s: State, id: nat, blocks: nat)
    requires Below(capacity, base, s) && CrosserLast(capacity, s) && id !in s.calls
    ensures CrosserLast(capacity, State(s.cursor + blocks, s.calls[id := Call(s.cursor, blocks, Reserved)]))
  {
    var next := State(s.cursor + blocks, s.calls[id := Call(s.cursor, blocks, Reserved)]);
    forall x, i | x in next.calls && i in next.calls && Crosses(capacity, next.calls[x])
      ensures next.cursor > capacity
      ensures Fits(capacity, next.calls[i]) ==> next.calls[i].End() <= next.calls[x].start
      ensures Crosses(capacity, next.calls[i]) ==> i == x
    {
      assert x != id ==> next.calls[x] == s.calls[x];
      assert i != id ==> next.calls[i] == s.calls[i];
    }
  }

  lemma NoWrap(n: nat)
    requires n < U64_LIMIT
    ensures n % U64_LIMIT == n
  {
  }

  lemma FetchAddKeepsInv(capacity: nat, base: nat, s: State, a: Action)
    requires Inv(capacity, base, s) && Enabled(s, a) && a.FetchAdd? && s.cursor + a.blocks < U64_LIMIT
    ensures Inv(capacity, base, Next(capacity, s, a))
  {
    ReserveKeepsApart(capacity, base, s, a.id, a.blocks);
    ReserveKeepsCrosser(capacity, base, s, a.id, a.blocks);
    assert Next(capacity, s, a) == State(s.cursor + a.blocks, s.calls[a.id := Call(s.cursor, a.blocks, Reserved)]);
  }

  /** Changing only the phase of one call, to one that its end calls for. */
  lemma RephaseKeepsInv(capacity: nat, base: nat, s: State, id: nat, phase: Phase)
    requires Inv(capacity, base, s) && id in s.calls && !s.calls[id].phase.Refused?
    requires phase == if Fits(capacity, s.calls[id]) then Granted else Failing
    ensures Inv(capacity, base, State(s.cursor, s.calls[id := s.calls[id].(phase := phase)]))
  {
    var next := State(s.cursor, s.calls[id := s.calls[id].(phase := phase)]);
    forall i | i in next.calls
      ensures next.calls[i].start == s.calls[i].start && next.calls[i].End() == s.calls[i].End()
      ensures Crosses(capacity, next.calls[i]) <==> Crosses(capacity, s.calls[i])
    {
    }
  }

  lemma CompareKeepsInv(capacity: nat, base: nat, s: State, a: Action)
    requires Inv(capacity, base, s) && Enabled(s, a) && a.Compare?
    ensures Inv(capacity, base, Next(capacity, s, a))
  {
    var c := s.calls[a.id];
    NoWrap(c.End());
    RephaseKeepsInv(capacity, base, s, a.id, if Fits(capacity, c) then Granted else Failing);
  }

  lemma RollBackKeepsInv(capacity: nat, base: nat, s: State, a: Action)
    requires Inv(capacity, base, s) && Enabled(s, a) && a.RollBack?
    ensures Inv(capacity, base, Next(capacity, s, a))
  {
    var c := s.calls[a.id];
    NoWrap(c.End());
  }

  // ---- Safety over every run ----

  /** No `fetch_add` carries the cursor past 64 bits. */
  ghost predicate NeverWraps(states: seq<State>, actions: seq<Action>)
    requires |states| == |actions| + 1
  {
    forall i :: 0 <= i < |actions| && actions[i].FetchAdd? ==> states[i].cursor + actions[i].blocks < U64_LIMIT
  }

  lemma StepKeepsInv(capacity: nat, base: nat, s: State, a: Action)
    requires Inv(capacity, base, s) && Enabled(s, a)
    requires a.FetchAdd? ==> s.cursor + a.blocks < U64_LIMIT
    ensures Inv(capacity, base, Next(capacity, s, a))
  {
    match a
    case FetchAdd(_, _) => FetchAddKeepsInv(capacity, base, s, a);
    case Compare(_) => CompareKeepsInv(capacity, base, s, a);
    case RollBack(_) => RollBackKeepsInv(capacity, base, s, a);
  }

  /** Was granted its range, or is about to be. */
  predicate Holds(capacity: nat, c: Call) { c.phase.Granted? || Fits(capacity, c) }

  lemma {:induction false} RunKeepsInv(capacity: nat, states: seq<State>, actions: seq<Action>, n: nat)
    requires IsRun(capacity, states, actions) && NeverWraps(states, actions) && n <= |actions|
    ensures Inv(capacity, states[0].cursor, states[n])
  {
    if n > 0 {
      RunKeepsInv(capacity, states, actions, n - 1);
      StepKeepsInv(capacity, states[0].cursor, states[n - 1], actions[n - 1]);
      assert states[n - 1 + 1] == Next(capacity, states[n - 1], actions[n - 1]);
    }
  }

  /** For any number of callers and any interleaving in which no `fetch_add`
      wraps: what has been granted lies inside the capacity, above everything
      allocated before the run, below the cursor, and overlaps nothing else that
      was granted or is about to be. */
  lemma GrantsAreDisjoint(capacity: nat, states: seq<State>, actions: seq<Action>, n: nat, i: nat, j: nat)
    requires IsRun(capacity, states, actions) && NeverWraps(states, actions) && n <= |actions|
    requires i in states[n].calls && states[n].calls[i].phase.Granted?
    ensures var c := states[n].calls[i];
      states[0].cursor <= c.start && c.End() <= capacity && c.End() <= states[n].cursor
    ensures j in states[n].calls && i != j && Holds(capacity, states[n].calls[j]) ==>
      Disjoint(states[n].calls[i].Range(), states[n].calls[j].Range())
  {
    RunKeepsInv(capacity, states, actions, n);
  }

  /** A rollback that succeeds puts the cursor back to a place that is still
      above every range anyone holds or will be given. */
  lemma RollBackIsSafe(capacity: nat, states: seq<State>, actions: seq<Action>, n: nat, i: nat)
    requires IsRun(capacity, states, actions) && NeverWraps(states, actions)
    requires n < |actions| && actions[n].RollBack?
    requires i in states[n].calls && Fits(capacity, states[n].calls[i])
    ensures states[n].calls[i].End() <= states[n + 1].cursor
  {
    RunKeepsInv(capacity, states, actions, n + 1);
    assert states[n + 1] == Next(capacity, states[n], actions[n]);
    assert states[n + 1].calls[i].End() == states[n].calls[i].End();
  }

  // ---- Building runs ----

  /** A longer run, and how it ends. */
  lemma Extend(capacity: nat, states: seq<State>, actions: seq<Action>, a: Action)
    returns (states': seq<State>, actions': seq<Action>)
    requires IsRun(capacity, states, actions) && Enabled(states[|actions|], a)
    ensures IsRun(capacity, states', actions') && states'[0] == states[0]
    ensures |actions'| == |actions| + 1 && states'[|actions'|] == Next(capacity, states[|actions|], a)
    ensures actions' == actions + [a]
  {
    states', actions' := states + [Next(capacity, states[|actions|], a)], actions + [a];
  }

  lemma Opening(capacity: nat, cursor: nat) returns (states: seq<State>, actions: seq<Action>)
    requires cursor <= capacity
    ensures IsRun(capacity, states, actions) && |actions| == 0 && states[0] == State(cursor, map[])
  {
    states, actions := [State(cursor, map[])], [];
  }

  // ---- Past 64 bits ----

  const MOST: nat := U32_LIMIT - 1

  /** Two overlapping oversized requests push the cursor on by one of them. */
  lemma Round(states: seq<State>, actions: seq<Action>, id: nat) returns (states': seq<State>, actions': seq<Action>)
    requires IsRun(1, states, actions)
    requires var s := states[|actions|];
      && 1 <= s.cursor && s.cursor + 2 * MOST < U64_LIMIT
      && 0 in s.calls && s.calls[0] == Call(0, 1, Granted) && id > 0 && forall k :: k in s.calls ==> k < id
    ensures IsRun(1, states', actions')
    ensures var s, t := states[|actions|], states'[|actions'|];
      && t.cursor == s.cursor + MOST
      && 0 in t.calls && t.calls[0] == Call(0, 1, Granted) && forall k :: k in t.calls ==> k < id + 2
  {
    states', actions' := Extend(1, states, actions, FetchAdd(id, MOST));
    states', actions' := Extend(1, states', actions', FetchAdd(id + 1, MOST));
    states', actions' := Extend(1, states', actions', Compare(id));
    states', actions' := Extend(1, states', actions', Compare(id + 1));
    states', actions' := Extend(1, states', actions', RollBack(id));
    states', actions' := Extend(1, states', actions', RollBack(id + 1));
  }

  lemma RoundFits(k: nat)
    requires 0 < k <= U32_LIMIT
    ensures 1 + (k - 1) * MOST + MOST == 1 + k * MOST
    ensures 1 + (k - 1) * MOST + 2 * MOST < U64_LIMIT + U32_LIMIT
    ensures k < U32_LIMIT ==> 1 + (k - 1) * MOST + 2 * MOST < U64_LIMIT
  {
    assert (k - 1) * MOST <= (U32_LIMIT - 1) * MOST;
    if k < U32_LIMIT {
      assert (k - 1) * MOST <= (U32_LIMIT - 2) * MOST;
    }
  }

  lemma {:induction false} Rounds(k: nat) returns (states: seq<State>, actions: seq<Action>, id: nat)
    requires k < U32_LIMIT
    ensures IsRun(1, states, actions)
    ensures var s := states[|actions|];
      && s.cursor == 1 + k * MOST && id > 0
      && 0 in s.calls && s.calls[0] == Call(0, 1, Granted) && forall j :: j in s.calls ==> j < id
    decreases k
  {
    if k == 0 {
      states, actions := Opening(1, 0);
      states, actions := Extend(1, states, actions, FetchAdd(0, 1));
      states, actions := Extend(1, states, actions, Compare(0));
      id := 1;
    } else {
      states, actions, id := Rounds(k - 1);
      RoundFits(k);
      states, actions := Round(states, actions, id);
      id := id + 2;
    }
  }

  /** That no `fetch_add` wraps cannot be dropped: enough lost rollbacks carry
      the 64-bit cursor round to zero, and the allocator hands out a block that
      is already in use. */
  lemma WrapExample() returns (states: seq<State>, actions: seq<Action>, id: nat)
    ensures IsRun(1, states, actions)
    ensures var calls := states[|actions|].calls;
      && id != 0 && 0 in calls && id in calls
      && calls[0] == Call(0, 1, Granted) && calls[id] == Call(0, 1, Granted)
  {
    var next;
    states, actions, next := Rounds(U32_LIMIT - 1);
    states, actions := Extend(1, states, actions, FetchAdd(next, MOST));
    states, actions := Extend(1, states, actions, FetchAdd(next + 1, MOST));
    id := next + 2;
    states, actions := Extend(1, states, actions, FetchAdd(id, 1));
    states, actions := Extend(1, states, actions, Compare(id));
  }
}
