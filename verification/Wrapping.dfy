/** Exactly when a grant can go wrong: the requests must carry the cursor through
    all of its 64 bits. */
module Wrapping {
  import opened Base
  import opened Extents
  import opened Allocator
  import opened Requests

  /** Call `i` was granted something that was not free: outside the room there
      was, or over what call `j` was granted. */
  predicate BadGrant(capacity: nat, base: nat, s: State, i: nat, j: nat) {
    && i in s.calls && s.calls[i].phase.Granted?
    && (|| s.calls[i].start < base
        || s.calls[i].End() > capacity
        || (j in s.calls && j != i && s.calls[j].phase.Granted?
            && !Disjoint(s.calls[i].Range(), s.calls[j].Range())))
  }

  /** A run from `cursor` that asks for at most `asked` blocks in all and ends
      with a bad grant. */
  ghost predicate Misgrants(capacity: nat, cursor: nat, asked: nat, states: seq<State>, actions: seq<Action>) {
    && IsRun(capacity, states, actions) && states[0].cursor == cursor
    && Sum(states[|actions|]) <= asked
    && exists i, j :: BadGrant(capacity, cursor, states[|actions|], i, j)
  }

  // ---- Below 64 bits nothing goes wrong ----

  lemma {:induction false} CallsPersist(capacity: nat, states: seq<State>, actions: seq<Action>, m: nat, n: nat, i: nat)
    requires IsRun(capacity, states, actions) && m <= n <= |actions| && i in states[m].calls
    ensures i in states[n].calls && states[n].calls[i].blocks == states[m].calls[i].blocks
    decreases n
  {
    if m < n {
      CallsPersist(capacity, states, actions, m, n - 1, i);
      CallStays(capacity, states[n - 1], actions[n - 1], i);
      assert states[n - 1 + 1] == Next(capacity, states[n - 1], actions[n - 1]);
    }
  }

  /** Everything a run asked for is on record at its end. */
  lemma RunIsOfItsCalls(capacity: nat, states: seq<State>, actions: seq<Action>) returns (wanted: Wanted)
    requires IsRun(capacity, states, actions)
    ensures RunOf(capacity, wanted, states, actions) && Total(wanted) == Sum(states[|actions|])
  {
    var last := states[|actions|];
    wanted := map i | i in last.calls :: last.calls[i].blocks;
    SumIsTotal(wanted, last);
    forall i | 0 <= i < |actions| ensures Asks(wanted, actions[i]) {
      if actions[i].FetchAdd? {
        assert states[i + 1] == Next(capacity, states[i], actions[i]);
        CallsPersist(capacity, states, actions, i + 1, |actions|, actions[i].id);
      }
    }
  }

  lemma BelowLimitGrantsWell(capacity: nat, states: seq<State>, actions: seq<Action>, i: nat, j: nat)
    requires IsRun(capacity, states, actions) && states[0].cursor + Sum(states[|actions|]) < U64_LIMIT
    ensures !BadGrant(capacity, states[0].cursor, states[|actions|], i, j)
  {
    var wanted := RunIsOfItsCalls(capacity, states, actions);
    RequestsNeverWrap(capacity, wanted, states, actions);
    RunKeepsInv(capacity, states, actions, |actions|);
  }

  // ---- At 64 bits something can ----

  /** Reservations alone take the cursor anywhere, at the price of the distance. */
  lemma {:induction false} Push(capacity: nat, states: seq<State>, actions: seq<Action>, id: nat, target: nat)
    returns (states': seq<State>, actions': seq<Action>, id': nat)
    requires IsRun(capacity, states, actions) && states[|actions|].cursor <= target < U64_LIMIT
    requires forall k :: k in states[|actions|].calls ==> k < id
    ensures IsRun(capacity, states', actions') && states'[0] == states[0]
    ensures var s, t := states[|actions|], states'[|actions'|];
      && t.cursor == target && Sum(t) == Sum(s) + target - s.cursor
      && forall k :: k in t.calls ==> k < id'
    decreases target - states[|actions|].cursor
  {
    states', actions', id' := states, actions, id;
    var s := states[|actions|];
    if s.cursor < target {
      var a := FetchAdd(id, if target - s.cursor < U32_LIMIT then target - s.cursor else MOST);
      StepSum(capacity, s, a);
      NoWrap(s.cursor + a.blocks);
      states', actions' := Extend(capacity, states, actions, a);
      states', actions', id' := Push(capacity, states', actions', id + 1, target);
    }
  }

  /** One block asked for at the very top ends at zero, which is within any
      capacity. */
  lemma WrapMisgrants(capacity: nat, cursor: nat, asked: nat) returns (states: seq<State>, actions: seq<Action>)
    requires cursor <= capacity < U64_LIMIT <= cursor + asked
    ensures Misgrants(capacity, cursor, asked, states, actions)
  {
    var id;
    states, actions := Opening(capacity, cursor);
    assert Sum(states[0]) == 0;
    states, actions, id := Push(capacity, states, actions, 0, U64_LIMIT - 1);
    StepSum(capacity, states[|actions|], FetchAdd(id, 1));
    states, actions := Extend(capacity, states, actions, FetchAdd(id, 1));
    StepSum(capacity, states[|actions|], Compare(id));
    states, actions := Extend(capacity, states, actions, Compare(id));
    assert BadGrant(capacity, cursor, states[|actions|], id, id);
  }

  /** Some run can end in a bad grant exactly when the requests, on top of the
      cursor, come to 2^64 blocks. */
  lemma MisgrantsIffWraps(capacity: nat, cursor: nat, asked: nat)
    requires cursor <= capacity < U64_LIMIT
    ensures (exists states, actions :: Misgrants(capacity, cursor, asked, states, actions)) <==>
      cursor + asked >= U64_LIMIT
  {
    if states, actions :| Misgrants(capacity, cursor, asked, states, actions) {
      var i, j :| BadGrant(capacity, cursor, states[|actions|], i, j);
      if cursor + asked < U64_LIMIT {
        BelowLimitGrantsWell(capacity, states, actions, i, j);
      }
    }
    if cursor + asked >= U64_LIMIT {
      var states, actions := WrapMisgrants(capacity, cursor, asked);
    }
  }
}
