/** Which requests, made together, can leave the allocator stuck: exactly those
    of which, for some one of them, the others do not fit together. */
module Requests {
  import opened Base
  import opened Extents
  import opened Allocator
  import opened Rollbacks

  /** What is asked for, by call. */
  type Wanted = map<nat, nat>

  function Amount(n: nat): int { n }

  function BlocksOf(c: Call): int { c.blocks }

  ghost function Total(wanted: Wanted): int { SumOver(wanted, Amount) }

  ghost function Sum(s: State): int { SumOver(s.calls, BlocksOf) }

  /** The calls of `s` are among those wanted. */
  predicate Serves(wanted: Wanted, s: State) {
    forall i :: i in s.calls ==> i in wanted && s.calls[i].blocks == wanted[i]
  }

  /** A run that makes only these requests. */
  ghost predicate RunOf(capacity: nat, wanted: Wanted, states: seq<State>, actions: seq<Action>) {
    && IsRun(capacity, states, actions)
    && forall i :: 0 <= i < |actions| ==> Asks(wanted, actions[i])
  }

  predicate Asks(wanted: Wanted, a: Action) { a.FetchAdd? ==> a.id in wanted && wanted[a.id] == a.blocks }

  // ---- Sums ----

  lemma {:induction false} SumWithinTotal(wanted: Wanted, s: State)
    requires Serves(wanted, s)
    ensures Sum(s) <= Total(wanted)
    decreases |s.calls|
  {
    if s.calls == map[] {
      SumCombination(wanted, Amount, Amount, Amount, 1, 0, 0);
    } else {
      var i :| i in s.calls;
      var rest := State(s.cursor, s.calls - {i});
      SumRemove(s.calls, BlocksOf, i);
      SumRemove(wanted, Amount, i);
      SumWithinTotal(wanted - {i}, rest);
    }
  }

  lemma {:induction false} SumIsTotal(wanted: Wanted, s: State)
    requires Serves(wanted, s) && s.calls.Keys == wanted.Keys
    ensures Sum(s) == Total(wanted)
    decreases |s.calls|
  {
    if s.calls == map[] {
      assert wanted == map[];
    } else {
      var i :| i in s.calls;
      SumRemove(s.calls, BlocksOf, i);
      SumRemove(wanted, Amount, i);
      SumIsTotal(wanted - {i}, State(s.cursor, s.calls - {i}));
    }
  }

  lemma StepSum(capacity: nat, s: State, a: Action)
    requires Enabled(s, a)
    ensures Sum(Next(capacity, s, a)) == Sum(s) + if a.FetchAdd? then a.blocks else 0
  {
    SumUpdate(s.calls, BlocksOf, a.id, Next(capacity, s, a).calls[a.id]);
  }

  // ---- Where live calls stand ----

  predicate Live(c: Call) { !c.phase.Refused? && c.blocks > 0 }

  /** Live ranges - granted or not - lie apart and below the cursor. */
  ghost predicate Stacked(s: State) {
    && (forall i :: i in s.calls && Live(s.calls[i]) ==> s.calls[i].End() <= s.cursor)
    && (forall i, j :: (i in s.calls && j in s.calls && i != j && Live(s.calls[i]) && Live(s.calls[j])) ==>
          Disjoint(s.calls[i].Range(), s.calls[j].Range()))
  }

  /** Some other call has taken `x`'s place at the top: it counts beside `x`. */
  predicate Topped(base: nat, s: State, sum: int, x: nat, y: nat) {
    && x in s.calls && y in s.calls && y != x && s.calls[y].blocks > 0
    && s.calls[x].End() + s.calls[y].blocks <= base + sum
  }

  ghost predicate Accounted(base: nat, s: State, x: nat)
    requires x in s.calls
  {
    && s.calls[x].End() <= base + Sum(s)
    && (Live(s.calls[x]) ==> s.cursor == s.calls[x].End() || exists y :: Topped(base, s, Sum(s), x, y))
  }

  ghost predicate Budget(base: nat, s: State) {
    && s.cursor <= base + Sum(s) && Stacked(s)
    && forall x :: x in s.calls ==> Accounted(base, s, x)
  }

  lemma FetchAddStacks(capacity: nat, s: State, a: Action)
    requires Stacked(s) && Enabled(s, a) && a.FetchAdd? && s.cursor + a.blocks < U64_LIMIT
    ensures Stacked(Next(capacity, s, a))
  {
    NoWrap(s.cursor + a.blocks);
  }

  lemma CompareStacks(capacity: nat, s: State, a: Action)
    requires Stacked(s) && Enabled(s, a) && a.Compare?
    ensures Stacked(Next(capacity, s, a))
  {
    var next := Next(capacity, s, a);
    forall i | i in s.calls
      ensures next.calls[i].Range() == s.calls[i].Range() && (Live(next.calls[i]) <==> Live(s.calls[i]))
    {
    }
  }

  lemma RollBackStacks(capacity: nat, s: State, a: Action)
    requires Stacked(s) && Enabled(s, a) && a.RollBack? && s.calls[a.id].End() < U64_LIMIT
    ensures Stacked(Next(capacity, s, a))
  {
    NoWrap(s.calls[a.id].End());
    var next := Next(capacity, s, a);
    forall i | i in next.calls && Live(next.calls[i]) ensures next.calls[i].End() <= next.cursor {
      assert i != a.id && next.calls[i] == s.calls[i];
    }
  }

  /** One call's account after one step. */
  lemma StepAccounts(capacity: nat, base: nat, s: State, a: Action, x: nat)
    requires Stacked(s) && Enabled(s, a) && x in s.calls && Accounted(base, s, x) && s.calls[x].End() < U64_LIMIT
    requires a.FetchAdd? ==> s.cursor + a.blocks < U64_LIMIT
    requires !a.FetchAdd? ==> s.calls[a.id].End() < U64_LIMIT
    ensures Accounted(base, Next(capacity, s, a), x)
  {
    var next := Next(capacity, s, a);
    StepSum(capacity, s, a);
    CallStays(capacity, s, a, x);
    if Live(next.calls[x]) {
      if y :| Topped(base, s, Sum(s), x, y) {
        CallStays(capacity, s, a, y);
        assert Topped(base, next, Sum(next), x, y);
      } else if a.FetchAdd? && a.blocks > 0 {
        assert Topped(base, next, Sum(next), x, a.id);
      } else {
        StaysOnTop(capacity, s, a, x);
      }
    }
  }

  lemma CallStays(capacity: nat, s: State, a: Action, x: nat)
    requires Enabled(s, a) && x in s.calls
    ensures x in Next(capacity, s, a).calls && Next(capacity, s, a).calls[x].Range() == s.calls[x].Range()
    ensures Live(Next(capacity, s, a).calls[x]) ==> Live(s.calls[x])
  {
  }

  lemma StaysOnTop(capacity: nat, s: State, a: Action, x: nat)
    requires Stacked(s) && Enabled(s, a) && x in s.calls && Live(s.calls[x]) && Live(Next(capacity, s, a).calls[x])
    requires s.cursor == s.calls[x].End() < U64_LIMIT && (a.FetchAdd? ==> a.blocks == 0)
    requires !a.FetchAdd? ==> s.calls[a.id].End() < U64_LIMIT
    ensures Next(capacity, s, a).cursor == Next(capacity, s, a).calls[x].End()
  {
    if a.FetchAdd? {
      NoWrap(s.cursor);
    } else {
      NoWrap(s.calls[a.id].End());
      if a.RollBack? {
        assert a.id != x;
        assert Live(s.calls[a.id]) ==> Disjoint(s.calls[a.id].Range(), s.calls[x].Range());
      }
    }
  }

  lemma StepKeepsBudget(capacity: nat, base: nat, s: State, a: Action)
    requires Inv(capacity, base, s) && Budget(base, s) && Enabled(s, a)
    requires a.FetchAdd? ==> s.cursor + a.blocks < U64_LIMIT
    ensures Budget(base, Next(capacity, s, a))
  {
    var next := Next(capacity, s, a);
    StepSum(capacity, s, a);
    forall x | x in next.calls ensures Accounted(base, next, x) {
      if x in s.calls {
        assert Accounted(base, s, x);
        StepAccounts(capacity, base, s, a, x);
      } else {
        NoWrap(s.cursor + a.blocks);
      }
    }
    match a
    case FetchAdd(_, _) =>
      NoWrap(s.cursor + a.blocks);
      FetchAddStacks(capacity, s, a);
    case Compare(_) => CompareStacks(capacity, s, a);
    case RollBack(id) =>
      NoWrap(s.calls[id].End());
      RollBackStacks(capacity, s, a);
  }

  // ---- Runs ----

  ghost predicate Kept(capacity: nat, base: nat, wanted: Wanted, s: State) {
    Inv(capacity, base, s) && Budget(base, s) && Serves(wanted, s)
  }

  lemma RequestNeverWraps(base: nat, wanted: Wanted, s: State, a: Action)
    requires s.cursor <= base + Sum(s) && Serves(wanted, s) && base + Total(wanted) < U64_LIMIT
    requires a.FetchAdd? && a.id !in s.calls && Asks(wanted, a)
    ensures s.cursor + a.blocks < U64_LIMIT
  {
    var next := State(s.cursor, s.calls[a.id := Call(0, a.blocks, Reserved)]);
    SumUpdate(s.calls, BlocksOf, a.id, Call(0, a.blocks, Reserved));
    SumWithinTotal(wanted, next);
  }

  lemma StepKeeps(capacity: nat, base: nat, wanted: Wanted, s: State, a: Action)
    requires Kept(capacity, base, wanted, s) && Enabled(s, a) && Asks(wanted, a) && base + Total(wanted) < U64_LIMIT
    ensures Kept(capacity, base, wanted, Next(capacity, s, a))
    ensures a.FetchAdd? ==> s.cursor + a.blocks < U64_LIMIT
  {
    if a.FetchAdd? {
      RequestNeverWraps(base, wanted, s, a);
    }
    StepKeepsInv(capacity, base, s, a);
    StepKeepsBudget(capacity, base, s, a);
  }

  lemma {:induction false} RunKeeps(capacity: nat, wanted: Wanted, states: seq<State>, actions: seq<Action>, n: nat)
    requires RunOf(capacity, wanted, states, actions) && n <= |actions|
    requires states[0].cursor + Total(wanted) < U64_LIMIT
    ensures Kept(capacity, states[0].cursor, wanted, states[n])
  {
    if n > 0 {
      RunKeeps(capacity, wanted, states, actions, n - 1);
      StepKeeps(capacity, states[0].cursor, wanted, states[n - 1], actions[n - 1]);
      assert states[n - 1 + 1] == Next(capacity, states[n - 1], actions[n - 1]);
    }
  }

  lemma RequestsNeverWrap(capacity: nat, wanted: Wanted, states: seq<State>, actions: seq<Action>)
    requires RunOf(capacity, wanted, states, actions) && states[0].cursor + Total(wanted) < U64_LIMIT
    ensures NeverWraps(states, actions)
  {
    forall i | 0 <= i < |actions| && actions[i].FetchAdd? ensures states[i].cursor + actions[i].blocks < U64_LIMIT {
      RunKeeps(capacity, wanted, states, actions, i);
      StepKeeps(capacity, states[0].cursor, wanted, states[i], actions[i]);
    }
  }

  // ---- What it takes to get stuck ----

  /** For some request, the others do not fit together into `room` blocks. */
  ghost predicate Overfull(room: nat, wanted: Wanted) {
    exists y :: y in wanted && wanted[y] > 0 && Total(wanted) - wanted[y] > room
  }

  lemma LostNeedsOverfull(capacity: nat, base: nat, wanted: Wanted, s: State, a: Action)
    requires base <= capacity && Kept(capacity, base, wanted, s) && Lost(capacity, s, a)
    ensures Overfull(capacity - base, wanted)
  {
    assert Accounted(base, s, a.id);
    var y :| Topped(base, s, Sum(s), a.id, y);
    SumWithinTotal(wanted, s);
    assert y in wanted && wanted[y] > 0;
  }

  lemma StuckNeedsOverfull(capacity: nat, wanted: Wanted, states: seq<State>, actions: seq<Action>, n: nat)
    requires RunOf(capacity, wanted, states, actions) && n <= |actions| && Stuck(capacity, states[n])
    requires states[0].cursor + Total(wanted) < U64_LIMIT
    ensures Overfull(capacity - states[0].cursor, wanted)
  {
    RequestsNeverWrap(capacity, wanted, states, actions);
    StuckIffLost(capacity, states, actions, n);
    var m :| 0 <= m < n && Lost(capacity, states[m], actions[m]);
    RunKeeps(capacity, wanted, states, actions, m);
    LostNeedsOverfull(capacity, states[0].cursor, wanted, states[m], actions[m]);
  }

  // ---- How to get stuck ----

  predicate Small(wanted: Wanted) { forall i :: i in wanted ==> wanted[i] < U32_LIMIT }

  lemma ExtendRunOf(capacity: nat, wanted: Wanted, states: seq<State>, actions: seq<Action>, a: Action)
    returns (states': seq<State>, actions': seq<Action>)
    requires RunOf(capacity, wanted, states, actions) && Enabled(states[|actions|], a) && Asks(wanted, a)
    ensures RunOf(capacity, wanted, states', actions') && states'[0] == states[0]
    ensures |actions'| == |actions| + 1 && states'[|actions'|] == Next(capacity, states[|actions|], a)
  {
    states', actions' := Extend(capacity, states, actions, a);
    forall i | 0 <= i < |actions'| ensures Asks(wanted, actions'[i]) {
      assert i < |actions| ==> actions'[i] == actions[i];
    }
  }

  /** Everything asked for so far was granted, `y` not among it. */
  ghost predicate AllGranted(capacity: nat, base: nat, wanted: Wanted, y: nat, s: State) {
    && Serves(wanted, s) && y !in s.calls
    && (forall i :: i in s.calls ==> s.calls[i].phase.Granted?)
    && s.cursor == base + Sum(s) <= capacity
  }

  lemma SomeoneIsLeft(capacity: nat, base: nat, wanted: Wanted, y: nat, s: State) returns (x: nat)
    requires AllGranted(capacity, base, wanted, y, s) && y in wanted && Total(wanted) - wanted[y] > capacity - base
    ensures x in wanted && x != y && x !in s.calls
  {
    var rest := wanted - {y};
    SumRemove(wanted, Amount, y);
    if s.calls.Keys == rest.Keys {
      SumIsTotal(rest, s);
    }
    assert s.calls.Keys <= rest.Keys && s.calls.Keys != rest.Keys;
    x :| x in rest && x !in s.calls;
  }

  lemma GrantOne(capacity: nat, base: nat, wanted: Wanted, y: nat, s: State, x: nat)
    requires AllGranted(capacity, base, wanted, y, s) && x in wanted && x != y && x !in s.calls
    requires s.cursor + wanted[x] <= capacity < U64_LIMIT && Small(wanted)
    ensures Enabled(s, FetchAdd(x, wanted[x]))
    ensures var reserved := Next(capacity, s, FetchAdd(x, wanted[x]));
      && Enabled(reserved, Compare(x))
      && AllGranted(capacity, base, wanted, y, Next(capacity, reserved, Compare(x)))
      && Next(capacity, reserved, Compare(x)).calls.Keys == s.calls.Keys + {x}
  {
    var a := FetchAdd(x, wanted[x]);
    NoWrap(s.cursor + wanted[x]);
    var reserved := Next(capacity, s, a);
    StepSum(capacity, s, a);
    StepSum(capacity, reserved, Compare(x));
  }

  /** Grants requests one after another until one no longer fits. */
  lemma {:induction false} FillUp(capacity: nat, wanted: Wanted, y: nat, states: seq<State>, actions: seq<Action>)
    returns (states': seq<State>, actions': seq<Action>, x: nat)
    requires RunOf(capacity, wanted, states, actions) && Small(wanted) && capacity < U64_LIMIT
    requires AllGranted(capacity, states[0].cursor, wanted, y, states[|actions|])
    requires y in wanted && Total(wanted) - wanted[y] > capacity - states[0].cursor
    ensures RunOf(capacity, wanted, states', actions') && states'[0] == states[0]
    ensures AllGranted(capacity, states[0].cursor, wanted, y, states'[|actions'|])
    ensures x in wanted && x != y && x !in states'[|actions'|].calls
    ensures states'[|actions'|].cursor + wanted[x] > capacity
    decreases |wanted.Keys - states[|actions|].calls.Keys|
  {
    var s := states[|actions|];
    x := SomeoneIsLeft(capacity, states[0].cursor, wanted, y, s);
    if s.cursor + wanted[x] > capacity {
      states', actions' := states, actions;
    } else {
      GrantOne(capacity, states[0].cursor, wanted, y, s, x);
      states', actions' := ExtendRunOf(capacity, wanted, states, actions, FetchAdd(x, wanted[x]));
      states', actions' := ExtendRunOf(capacity, wanted, states', actions', Compare(x));
      FewerLeft(wanted.Keys, s.calls.Keys, x);
      states', actions', x := FillUp(capacity, wanted, y, states', actions');
    }
  }

  lemma FewerLeft(all: set<nat>, done: set<nat>, x: nat)
    requires x in all && x !in done
    ensures |all - (done + {x})| < |all - done|
  {
    assert all - done == (all - (done + {x})) + {x};
  }

  /** A step of a run of requests, and what it does to being stuck. */
  lemma ExtendSticks(capacity: nat, wanted: Wanted, states: seq<State>, actions: seq<Action>, a: Action)
    returns (states': seq<State>, actions': seq<Action>)
    requires RunOf(capacity, wanted, states, actions) && Enabled(states[|actions|], a) && Asks(wanted, a)
    requires states[0].cursor + Total(wanted) < U64_LIMIT
    ensures RunOf(capacity, wanted, states', actions') && states'[0] == states[0]
    ensures |actions'| == |actions| + 1 && states'[|actions'|] == Next(capacity, states[|actions|], a)
    ensures Stuck(capacity, states'[|actions'|]) <==>
      Stuck(capacity, states[|actions|]) || Lost(capacity, states[|actions|], a)
  {
    RunKeeps(capacity, wanted, states, actions, |actions|);
    StepKeeps(capacity, states[0].cursor, wanted, states[|actions|], a);
    StepSticks(capacity, states[0].cursor, states[|actions|], a);
    states', actions' := ExtendRunOf(capacity, wanted, states, actions, a);
  }

  /** `x` no longer fits; `y` comes in before `x` can put the cursor back. */
  lemma Collide(capacity: nat, wanted: Wanted, x: nat, y: nat, states: seq<State>, actions: seq<Action>)
    returns (states': seq<State>, actions': seq<Action>)
    requires RunOf(capacity, wanted, states, actions) && Small(wanted)
    requires states[0].cursor + Total(wanted) < U64_LIMIT
    requires x in wanted && y in wanted && x != y && wanted[y] > 0
    requires x !in states[|actions|].calls && y !in states[|actions|].calls
    requires states[|actions|].cursor <= capacity < states[|actions|].cursor + wanted[x]
    ensures RunOf(capacity, wanted, states', actions') && states'[0] == states[0]
    ensures Stuck(capacity, states'[|actions'|])
  {
    states', actions' := AskFor(capacity, wanted, x, states, actions);
    states', actions' := AskFor(capacity, wanted, y, states', actions');
    states', actions' := LoseRollBack(capacity, wanted, x, states', actions');
  }

  /** One request's `fetch_add`. */
  lemma AskFor(capacity: nat, wanted: Wanted, x: nat, states: seq<State>, actions: seq<Action>)
    returns (states': seq<State>, actions': seq<Action>)
    requires RunOf(capacity, wanted, states, actions) && Small(wanted)
    requires states[0].cursor + Total(wanted) < U64_LIMIT && x in wanted && x !in states[|actions|].calls
    ensures RunOf(capacity, wanted, states', actions') && states'[0] == states[0]
    ensures var s := states[|actions|];
      states'[|actions'|] == State(s.cursor + wanted[x], s.calls[x := Call(s.cursor, wanted[x], Reserved)])
  {
    var s, a := states[|actions|], FetchAdd(x, wanted[x]);
    RunKeeps(capacity, wanted, states, actions, |actions|);
    RequestNeverWraps(states[0].cursor, wanted, s, a);
    NoWrap(s.cursor + wanted[x]);
    states', actions' := ExtendRunOf(capacity, wanted, states, actions, a);
  }

  lemma LoseRollBack(capacity: nat, wanted: Wanted, x: nat, states: seq<State>, actions: seq<Action>)
    returns (states': seq<State>, actions': seq<Action>)
    requires RunOf(capacity, wanted, states, actions) && states[0].cursor + Total(wanted) < U64_LIMIT
    requires x in states[|actions|].calls && states[|actions|].calls[x].phase.Reserved?
    requires Crosses(capacity, states[|actions|].calls[x])
    requires states[|actions|].cursor != states[|actions|].calls[x].End()
    ensures RunOf(capacity, wanted, states', actions') && states'[0] == states[0]
    ensures Stuck(capacity, states'[|actions'|])
  {
    RunKeeps(capacity, wanted, states, actions, |actions|);
    NoWrap(states[|actions|].calls[x].End());
    states', actions' := ExtendSticks(capacity, wanted, states, actions, Compare(x));
    states', actions' := ExtendSticks(capacity, wanted, states', actions', RollBack(x));
  }

  // ---- Letting every call return ----

  ghost predicate Unfinished(wanted: Wanted, s: State, i: nat) {
    i in wanted && (i !in s.calls || !Finished(s.calls[i]))
  }

  ghost function ToFinish(wanted: Wanted, s: State): set<nat> { set i | i in wanted && Unfinished(wanted, s, i) }

  lemma FinishStep(capacity: nat, wanted: Wanted, s: State, i: nat) returns (a: Action)
    requires Small(wanted) && Unfinished(wanted, s, i)
    ensures Enabled(s, a) && Asks(wanted, a) && a.id == i
  {
    a := if i !in s.calls then FetchAdd(i, wanted[i])
      else if s.calls[i].phase.Reserved? then Compare(i) else RollBack(i);
  }

  /** Steps a call still has to take. */
  function StepsLeft(s: State, i: nat): nat {
    if i !in s.calls then 3 else if s.calls[i].phase.Reserved? then 2 else if s.calls[i].phase.Failing? then 1 else 0
  }

  lemma {:induction false} FinishOne(capacity: nat, wanted: Wanted, i: nat, states: seq<State>, actions: seq<Action>)
    returns (states': seq<State>, actions': seq<Action>)
    requires RunOf(capacity, wanted, states, actions) && Small(wanted) && i in wanted
    requires states[0].cursor + Total(wanted) < U64_LIMIT && Stuck(capacity, states[|actions|])
    ensures RunOf(capacity, wanted, states', actions') && states'[0] == states[0]
    ensures Stuck(capacity, states'[|actions'|])
    ensures i in states'[|actions'|].calls && Finished(states'[|actions'|].calls[i])
    ensures forall j :: j != i && j in states[|actions|].calls ==>
      j in states'[|actions'|].calls && states'[|actions'|].calls[j] == states[|actions|].calls[j]
    decreases StepsLeft(states[|actions|], i)
  {
    if Unfinished(wanted, states[|actions|], i) {
      var a := FinishStep(capacity, wanted, states[|actions|], i);
      states', actions' := ExtendSticks(capacity, wanted, states, actions, a);
      states', actions' := FinishOne(capacity, wanted, i, states', actions');
    } else {
      states', actions' := states, actions;
    }
  }

  /** Every request was made and every call has returned. */
  ghost predicate Completed(wanted: Wanted, s: State) { Serves(wanted, s) && ToFinish(wanted, s) == {} }

  lemma FewerToFinish(wanted: Wanted, s: State, next: State, i: nat)
    requires i in ToFinish(wanted, s) && i in next.calls && Finished(next.calls[i])
    requires forall j :: j != i && j in s.calls ==> j in next.calls && next.calls[j] == s.calls[j]
    ensures |ToFinish(wanted, next)| < |ToFinish(wanted, s)|
  {
    var before, after := ToFinish(wanted, s), ToFinish(wanted, next);
    assert after <= before - {i};
    SubsetSize(after, before - {i});
  }

  lemma {:induction false} SubsetSize(a: set<nat>, b: set<nat>)
    requires a <= b
    ensures |a| <= |b|
    decreases |a|
  {
    if a != {} {
      var x :| x in a;
      SubsetSize(a - {x}, b - {x});
    }
  }

  lemma {:induction false} FinishAll(capacity: nat, wanted: Wanted, states: seq<State>, actions: seq<Action>)
    returns (states': seq<State>, actions': seq<Action>)
    requires RunOf(capacity, wanted, states, actions) && Small(wanted)
    requires states[0].cursor + Total(wanted) < U64_LIMIT && Stuck(capacity, states[|actions|])
    ensures RunOf(capacity, wanted, states', actions') && states'[0] == states[0]
    ensures Stuck(capacity, states'[|actions'|]) && Completed(wanted, states'[|actions'|])
    decreases |ToFinish(wanted, states[|actions|])|
  {
    if i :| i in ToFinish(wanted, states[|actions|]) {
      states', actions' := FinishOne(capacity, wanted, i, states, actions);
      FewerToFinish(wanted, states[|actions|], states'[|actions'|], i);
      states', actions' := FinishAll(capacity, wanted, states', actions');
    } else {
      states', actions' := states, actions;
      RunKeeps(capacity, wanted, states, actions, |actions|);
    }
  }

  // ---- Exactly when ----

  /** A run of all these requests, from `cursor`, that ends with every call
      returned and the allocator stuck. */
  ghost predicate EndsStuck(capacity: nat, cursor: nat, wanted: Wanted, states: seq<State>, actions: seq<Action>) {
    && RunOf(capacity, wanted, states, actions) && states[0].cursor == cursor
    && Completed(wanted, states[|actions|]) && Stuck(capacity, states[|actions|])
  }

  lemma OverfullSticks(capacity: nat, cursor: nat, wanted: Wanted) returns (states: seq<State>, actions: seq<Action>)
    requires cursor <= capacity && Small(wanted) && cursor + Total(wanted) < U64_LIMIT
    requires Overfull(capacity - cursor, wanted)
    ensures EndsStuck(capacity, cursor, wanted, states, actions)
  {
    var y :| y in wanted && wanted[y] > 0 && Total(wanted) - wanted[y] > capacity - cursor;
    states, actions := Opening(capacity, cursor);
    assert Sum(states[0]) == 0;
    var x;
    states, actions, x := FillUp(capacity, wanted, y, states, actions);
    states, actions := Collide(capacity, wanted, x, y, states, actions);
    states, actions := FinishAll(capacity, wanted, states, actions);
  }

  /** Requests made together can leave the allocator stuck exactly when, leaving
      out some one of them, the others do not fit together. `wanted` is any
      family of requests that stays within 64 bits. */
  lemma StuckIffOverfull(capacity: nat, cursor: nat, wanted: Wanted)
    requires cursor <= capacity && Small(wanted) && cursor + Total(wanted) < U64_LIMIT
    ensures (exists states, actions :: EndsStuck(capacity, cursor, wanted, states, actions)) <==>
      Overfull(capacity - cursor, wanted)
  {
    if states, actions :| EndsStuck(capacity, cursor, wanted, states, actions) {
      StuckNeedsOverfull(capacity, wanted, states, actions, |actions|);
    }
    if Overfull(capacity - cursor, wanted) {
      var states, actions := OverfullSticks(capacity, cursor, wanted);
    }
  }

  /** Two calls are enough: both ask for more than is there, and a whole database
      of free space can never be allocated again. */
  lemma StuckExample() returns (states: seq<State>, actions: seq<Action>)
    ensures EndsStuck(1, 0, map[0 := 2, 1 := 2], states, actions)
    ensures forall i :: i in states[|actions|].calls ==> !states[|actions|].calls[i].phase.Granted?
  {
    var wanted: Wanted := map[0 := 2, 1 := 2];
    SumRemove(wanted, Amount, 0);
    SumRemove(wanted - {0}, Amount, 1);
    assert wanted - {0} - {1} == map[];
    assert 1 in wanted;
    states, actions := OverfullSticks(1, 0, wanted);
    RunKeeps(1, wanted, states, actions, |actions|);
  }
}
