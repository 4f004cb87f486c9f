/** When a failed allocation leaves the cursor past the capacity for good: the
    exact step that does it, and the exact requests that can bring it about. */
module Rollbacks {
  import opened Base
  import opened Allocator

  /** The cursor is past the capacity and no call is left that could bring it
      back. */
  ghost predicate Stuck(capacity: nat, s: State) {
    s.cursor > capacity && forall i :: i in s.calls ==> !Crosses(capacity, s.calls[i])
  }

  // ---- The step that does it ----

  /** The call that crosses the capacity rolls back and finds the cursor moved
      on. */
  predicate Lost(capacity: nat, s: State, a: Action) {
    && a.RollBack? && a.id in s.calls
    && Crosses(capacity, s.calls[a.id]) && s.cursor != s.calls[a.id].End()
  }

  lemma RollBackSticks(capacity: nat, base: nat, s: State, a: Action)
    requires Inv(capacity, base, s) && Enabled(s, a) && a.RollBack?
    ensures Stuck(capacity, Next(capacity, s, a)) <==> Stuck(capacity, s) || Lost(capacity, s, a)
  {
    var c, next := s.calls[a.id], Next(capacity, s, a);
    NoWrap(c.End());
    if Crosses(capacity, c) {
      forall i | i in next.calls ensures !Crosses(capacity, next.calls[i]) {
        assert i != a.id ==> next.calls[i] == s.calls[i];
      }
    } else {
      forall i | i in s.calls ensures Crosses(capacity, next.calls[i]) <==> Crosses(capacity, s.calls[i]) {
        assert i != a.id ==> next.calls[i] == s.calls[i];
      }
    }
  }

  lemma FetchAddSticks(capacity: nat, base: nat, s: State, a: Action)
    requires Inv(capacity, base, s) && Enabled(s, a) && a.FetchAdd? && s.cursor + a.blocks < U64_LIMIT
    ensures Stuck(capacity, Next(capacity, s, a)) <==> Stuck(capacity, s)
  {
    var next := Next(capacity, s, a);
    assert next == State(s.cursor + a.blocks, s.calls[a.id := Call(s.cursor, a.blocks, Reserved)]);
    assert a.id in next.calls;
    assert forall i :: i in s.calls ==> i in next.calls && next.calls[i] == s.calls[i];
  }

  lemma CompareSticks(capacity: nat, s: State, a: Action)
    requires Enabled(s, a) && a.Compare?
    ensures Stuck(capacity, Next(capacity, s, a)) <==> Stuck(capacity, s)
  {
    var next := Next(capacity, s, a);
    forall i | i in s.calls
      ensures i in next.calls && (Crosses(capacity, next.calls[i]) <==> Crosses(capacity, s.calls[i]))
    {
    }
  }

  lemma StepSticks(capacity: nat, base: nat, s: State, a: Action)
    requires Inv(capacity, base, s) && Enabled(s, a)
    requires a.FetchAdd? ==> s.cursor + a.blocks < U64_LIMIT
    ensures Stuck(capacity, Next(capacity, s, a)) <==> Stuck(capacity, s) || Lost(capacity, s, a)
  {
    match a
    case FetchAdd(_, _) => FetchAddSticks(capacity, base, s, a);
    case Compare(_) => CompareSticks(capacity, s, a);
    case RollBack(_) => RollBackSticks(capacity, base, s, a);
  }

  ghost predicate LostBefore(capacity: nat, states: seq<State>, actions: seq<Action>, n: nat)
    requires |states| == |actions| + 1 && n <= |actions|
  {
    exists m :: 0 <= m < n && Lost(capacity, states[m], actions[m])
  }

  /** In every run in which no `fetch_add` wraps, the allocator is stuck exactly
      when some crossing call's rollback was lost. */
  lemma {:induction false} StuckIffLost(capacity: nat, states: seq<State>, actions: seq<Action>, n: nat)
    requires IsRun(capacity, states, actions) && NeverWraps(states, actions) && n <= |actions|
    ensures Stuck(capacity, states[n]) <==> LostBefore(capacity, states, actions, n)
  {
    if n > 0 {
      StuckIffLost(capacity, states, actions, n - 1);
      RunKeepsInv(capacity, states, actions, n - 1);
      StepSticks(capacity, states[0].cursor, states[n - 1], actions[n - 1]);
      assert states[n - 1 + 1] == Next(capacity, states[n - 1], actions[n - 1]);
      if Lost(capacity, states[n - 1], actions[n - 1]) {
        assert LostBefore(capacity, states, actions, n);
      }
    }
  }

  // ---- It lasts ----

  /** Every range that fits after was there, and fitted, before. */
  ghost predicate NothingNewFits(capacity: nat, before: State, after: State) {
    forall i :: i in after.calls && Fits(capacity, after.calls[i]) ==>
      i in before.calls && Fits(capacity, before.calls[i])
  }

  lemma StuckAddsNothing(capacity: nat, s: State, a: Action)
    requires Stuck(capacity, s) && Enabled(s, a)
    ensures NothingNewFits(capacity, s, Next(capacity, s, a))
  {
  }

  lemma NothingNewTransitive(capacity: nat, r: State, s: State, t: State)
    requires NothingNewFits(capacity, r, s) && NothingNewFits(capacity, s, t)
    ensures NothingNewFits(capacity, r, t)
  {
  }

  /** Once stuck, an allocator never grants another request, however small. */
  lemma {:induction false} StuckForGood(capacity: nat, states: seq<State>, actions: seq<Action>, n: nat, m: nat)
    requires IsRun(capacity, states, actions) && NeverWraps(states, actions) && n <= m <= |actions|
    requires Stuck(capacity, states[n])
    ensures Stuck(capacity, states[m]) && NothingNewFits(capacity, states[n], states[m])
    decreases m
  {
    if n < m {
      StuckForGood(capacity, states, actions, n, m - 1);
      RunKeepsInv(capacity, states, actions, m - 1);
      StepSticks(capacity, states[0].cursor, states[m - 1], actions[m - 1]);
      StuckAddsNothing(capacity, states[m - 1], actions[m - 1]);
      assert states[m - 1 + 1] == Next(capacity, states[m - 1], actions[m - 1]);
      NothingNewTransitive(capacity, states[n], states[m - 1], states[m]);
    }
  }

  // ---- Calls that do not overlap ----

  predicate Finished(c: Call) { c.phase.Granted? || c.phase.Refused? }

  ghost predicate Quiet(s: State) { forall i :: i in s.calls ==> Finished(s.calls[i]) }

  /** A call starts only when every earlier one has returned. */
  ghost predicate OneAtATime(states: seq<State>, actions: seq<Action>)
    requires |states| == |actions| + 1
  {
    forall i :: 0 <= i < |actions| && actions[i].FetchAdd? ==> Quiet(states[i])
  }

  function GrantedBlocks(c: Call): int { if c.phase.Granted? then c.blocks else 0 }

  /** The cursor is what it was plus what has been granted, plus the call that
      is under way, if any. */
  ghost predicate Tidy(capacity: nat, base: nat, s: State) {
    var level := base + SumOver(s.calls, GrantedBlocks);
    && level <= capacity
    && (Quiet(s) ==> s.cursor == level)
    && forall i :: i in s.calls && !Finished(s.calls[i]) ==>
         && s.calls[i].start == level && s.cursor == s.calls[i].End()
         && (s.calls[i].phase.Failing? ==> s.cursor > capacity) && OthersFinished(s, i)
  }

  ghost predicate OthersFinished(s: State, i: nat) { forall j :: j in s.calls && j != i ==> Finished(s.calls[j]) }

  lemma TidyFetchAdd(capacity: nat, base: nat, s: State, a: Action)
    requires capacity < U32_LIMIT && Tidy(capacity, base, s) && Quiet(s) && Enabled(s, a) && a.FetchAdd?
    ensures Tidy(capacity, base, Next(capacity, s, a))
  {
    NoWrap(s.cursor + a.blocks);
    var next := Next(capacity, s, a);
    SumUpdate(s.calls, GrantedBlocks, a.id, Call(s.cursor, a.blocks, Reserved));
    assert a.id in next.calls && !Finished(next.calls[a.id]);
    assert OthersFinished(next, a.id);
  }

  lemma TidyCompare(capacity: nat, base: nat, s: State, a: Action)
    requires capacity < U32_LIMIT && Tidy(capacity, base, s)
    requires Enabled(s, a) && a.Compare? && s.calls[a.id].blocks < U32_LIMIT
    ensures Tidy(capacity, base, Next(capacity, s, a))
  {
    var c, next := s.calls[a.id], Next(capacity, s, a);
    NoWrap(c.End());
    assert OthersFinished(s, a.id);
    SumUpdate(s.calls, GrantedBlocks, a.id, next.calls[a.id]);
    assert OthersFinished(next, a.id);
    assert a.id in next.calls;
  }

  lemma TidyRollBack(capacity: nat, base: nat, s: State, a: Action)
    requires capacity < U32_LIMIT && Tidy(capacity, base, s)
    requires Enabled(s, a) && a.RollBack? && s.calls[a.id].blocks < U32_LIMIT
    ensures Tidy(capacity, base, Next(capacity, s, a))
  {
    var c, next := s.calls[a.id], Next(capacity, s, a);
    NoWrap(c.End());
    assert OthersFinished(s, a.id);
    SumUpdate(s.calls, GrantedBlocks, a.id, next.calls[a.id]);
    assert Quiet(next);
  }

  ghost predicate SmallCalls(s: State) { forall i :: i in s.calls ==> s.calls[i].blocks < U32_LIMIT }

  lemma {:induction false} AloneStaysTidy(capacity: nat, states: seq<State>, actions: seq<Action>, n: nat)
    requires IsRun(capacity, states, actions) && OneAtATime(states, actions) && n <= |actions| && capacity < U32_LIMIT
    ensures Tidy(capacity, states[0].cursor, states[n]) && SmallCalls(states[n])
  {
    if n > 0 {
      AloneStaysTidy(capacity, states, actions, n - 1);
      var s, a := states[n - 1], actions[n - 1];
      assert states[n - 1 + 1] == Next(capacity, s, a);
      match a
      case FetchAdd(_, _) => TidyFetchAdd(capacity, states[0].cursor, s, a);
      case Compare(_) => TidyCompare(capacity, states[0].cursor, s, a);
      case RollBack(_) => TidyRollBack(capacity, states[0].cursor, s, a);
    }
  }

  lemma TidyIsNotStuck(capacity: nat, base: nat, s: State)
    requires Tidy(capacity, base, s)
    ensures !Stuck(capacity, s)
  {
    if !Quiet(s) {
      var i :| i in s.calls && !Finished(s.calls[i]);
      assert s.cursor > capacity ==> Crosses(capacity, s.calls[i]);
    }
  }

  /** Over every run of calls that do not overlap, no rollback is ever lost, and
      between calls the cursor has moved by exactly what was granted. */
  lemma AloneNeverStuck(capacity: nat, states: seq<State>, actions: seq<Action>, n: nat)
    requires IsRun(capacity, states, actions) && OneAtATime(states, actions) && n <= |actions| && capacity < U32_LIMIT
    ensures !Stuck(capacity, states[n])
    ensures Quiet(states[n]) ==>
      states[n].cursor == states[0].cursor + SumOver(states[n].calls, GrantedBlocks) <= capacity
  {
    AloneStaysTidy(capacity, states, actions, n);
    TidyIsNotStuck(capacity, states[0].cursor, states[n]);
  }
}
