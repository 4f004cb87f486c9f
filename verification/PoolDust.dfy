/** What rounding leaves behind in the pool: a bound for one slash, and one for
    everything a whole run has stranded. */
module PoolDust {
  import opened Base
  import opened Slashing
  import opened PoolRuns

  // ---- One slash ----

  lemma ClaimableAfterSlash<K>(m: map<K, PositionValue>, pool: PoolValue, share: nat)
    requires Anchored(m, pool.rewardIndex)
    requires pool.staked == TotalStake(m) && pool.staked > 0
    requires TotalWorth(m, pool.rewardIndex) + share * REWARD_SCALE < U64_LIMIT * REWARD_SCALE
    ensures var next := pool.rewardIndex + share * REWARD_SCALE / pool.staked;
      TotalClaimable(m, next) > TotalClaimable(m, pool.rewardIndex) + share - pool.staked
  {
    var delta := share * REWARD_SCALE / pool.staked;
    IndexStep(pool, share);
    TotalWorthAfterSlash(m, pool, share);
    ClaimableGrowth(m, pool.rewardIndex, delta);
    MulDistributes(pool.staked, REWARD_SCALE - 1, -delta);
  }

  lemma ClaimableGrowth<K>(m: map<K, PositionValue>, index: nat, delta: nat)
    requires Anchored(m, index)
    requires TotalWorth(m, index + delta) < U64_LIMIT * REWARD_SCALE
    ensures REWARD_SCALE * TotalClaimable(m, index + delta) - REWARD_SCALE * TotalClaimable(m, index)
            + (REWARD_SCALE - 1 - delta) * TotalStake(m) >= 0
  {
    var later, now := ClaimableAt(index + delta), ClaimableAt(index);
    var s, c := REWARD_SCALE, REWARD_SCALE - 1 - delta;
    forall k | k in m ensures s * later(m[k]) + -s * now(m[k]) + c * StakedOf(m[k]) >= 0 {
      MemberWithinTotal(m, index + delta, k);
      ClaimableGrowthOfOne(m[k], index, delta);
    }
    SumCombination(m, later, now, StakedOf, s, -s, c);
  }

  lemma ClaimableGrowthOfOne(p: PositionValue, index: nat, delta: nat)
    requires p.entryIndex <= index
    requires Worth(p, index + delta) < U64_LIMIT * REWARD_SCALE
    ensures REWARD_SCALE * p.Claimable(index + delta) - REWARD_SCALE * p.Claimable(index)
            + (REWARD_SCALE - 1 - delta) * p.staked >= 0
  {
    WorthIsNonNegative(p, index);
    WorthIsNonNegative(p, index + delta);
    var gained := p.staked * delta;
    assert Worth(p, index + delta) == Worth(p, index) + gained;
    SettleLosesLessThanOne(p, index);
    SettleLosesLessThanOne(p, index + delta);
    var before := p.staked * (index - p.entryIndex);
    assert (before + gained) / REWARD_SCALE >= before / REWARD_SCALE + gained / REWARD_SCALE;
    assert p.staked == 0 || gained - gained % REWARD_SCALE >= gained - (REWARD_SCALE - 1) * p.staked;
  }

  /** Each distribution strands strictly less than `pool.staked` lamports: the
      claimable total rises by more than the share less the stake. */
  lemma DustPerDistribution(books: seq<Book>, events: seq<Event>, n: nat)
    requires IsRun(books, events) && n < |events| && events[n].Slashes?
    requires books[n].pool.staked > 0 && books[n + 1].distributed < U64_LIMIT
    ensures var b, b' := books[n], books[n + 1];
      TotalClaimable(b'.positions, b'.pool.rewardIndex) >
      TotalClaimable(b.positions, b.pool.rewardIndex) + (b'.distributed - b.distributed) - b.pool.staked
  {
    RunIsSound(books, events, n);
    var b, share := books[n], SplitOf(events[n].amount).pool;
    assert books[n + 1] == Step(b, events[n]);
    if share > 0 {
      ClaimableAfterSlash(b.positions, b.pool, share);
    }
  }

  /** The bound is on the whole run, not on one slash. A slash of which the
      pool's share is one lamport can raise the claimable total by two, because
      fractions left by an earlier slash carry over. */
  lemma OneSlashCanReleaseMoreThanItAdds() returns (m: map<nat, PositionValue>, pool: PoolValue)
    ensures Anchored(m, pool.rewardIndex) && pool.staked == TotalStake(m) == 2
    ensures TotalClaimable(m, pool.rewardIndex) == 0
    ensures TotalClaimable(m, pool.rewardIndex + 1 * REWARD_SCALE / pool.staked) == 2
  {
    var p := PositionValue(1, 0, 0);
    m, pool := map[0 := p, 1 := p], PoolValue(2, REWARD_SCALE / 2);
    var next := pool.rewardIndex + 1 * REWARD_SCALE / pool.staked;
    SumOfTwo(StakedOf, p, p);
    SumOfTwo(ClaimableAt(pool.rewardIndex), p, p);
    SumOfTwo(ClaimableAt(next), p, p);
    assert p.Claimable(pool.rewardIndex) == 0 && p.Claimable(next) == 1;
  }

  lemma SumOfTwo<V>(f: V -> int, p: V, q: V)
    ensures var m: map<nat, V> := map[0 := p, 1 := q]; SumOver(m, f) == f(p) + f(q)
  {
    var one: map<nat, V> := map[0 := p];
    assert one - {0} == map[];
    SumRemove(one, f, 0);
    SumUpdate(one, f, 1, q);
    assert one[1 := q] == map[0 := p, 1 := q];
  }

  // ---- A whole run ----

  /** How many of the first `n` events were stake, unstake or claim calls. */
  ghost function Calls(events: seq<Event>, n: nat): nat
    requires n <= |events|
  {
    if n == 0 then 0 else Calls(events, n - 1) + if events[n - 1].Slashes? then 0 else 1
  }

  /** The pool's stake, summed over the slashes among the first `n` events. */
  ghost function StakeSlashed(books: seq<Book>, events: seq<Event>, n: nat): nat
    requires n <= |events| < |books|
  {
    if n == 0 then 0
    else StakeSlashed(books, events, n - 1) + if events[n - 1].Slashes? then books[n - 1].pool.staked else 0
  }

  /** Up to `calls` lamports and `units` index units, the positions and the
      payments made so far are worth all that was distributed. */
  ghost predicate Accounted(b: Book, calls: nat, units: nat) {
    b.distributed * REWARD_SCALE <=
    TotalWorth(b.positions, b.pool.rewardIndex) + (b.claimed + calls) * REWARD_SCALE + units
  }

  lemma PutKeepsAccount(b: Book, k: Key, change: int, paid: nat, calls: nat, units: nat)
    requires Sound(b) && b.distributed < U64_LIMIT && Accounted(b, calls, units)
    requires b.PositionOf(k).staked + change >= 0 && b.pool.staked + change >= 0
    requires paid <= b.PositionOf(k).Claimable(b.pool.rewardIndex)
    ensures Accounted(b.Put(k, b.pool.(staked := b.pool.staked + change),
                            Resettled(b.PositionOf(k), b.pool.rewardIndex, change, paid), paid), calls + 1, units)
  {
    var p, index := b.PositionOf(k), b.pool.rewardIndex;
    ResettledWorth(p, index, change, paid);
    TotalsAfterUpdate(b.positions, index, k, Resettled(p, index, change, paid));
    if k in b.positions {
      MemberWithinTotal(b.positions, index, k);
    }
  }

  lemma StakeKeepsAccount(b: Book, who: Key, amount: nat, calls: nat, units: nat)
    requires Sound(b) && b.distributed < U64_LIMIT && Accounted(b, calls, units)
    ensures Accounted(Step(b, Stakes(who, amount)), calls + 1, units)
  {
    var p := b.PositionOf(who);
    if Stake(b.pool, p, amount).Ok? {
      assert Stake(b.pool, p, amount).value.1 == Resettled(p, b.pool.rewardIndex, amount, 0);
      PutKeepsAccount(b, who, amount, 0, calls, units);
    }
  }

  lemma UnstakeKeepsAccount(b: Book, who: Key, amount: nat, calls: nat, units: nat)
    requires Sound(b) && b.distributed < U64_LIMIT && Accounted(b, calls, units)
    ensures Accounted(Step(b, Unstakes(who, amount)), calls + 1, units)
  {
    var p := b.PositionOf(who);
    if p.staked <= b.pool.staked && Unstake(b.pool, p, amount).Ok? {
      assert Unstake(b.pool, p, amount).value.1 == Resettled(p, b.pool.rewardIndex, 0 - amount, 0);
      PutKeepsAccount(b, who, 0 - amount, 0, calls, units);
    }
  }

  lemma ClaimKeepsAccount(b: Book, who: Key, calls: nat, units: nat)
    requires Sound(b) && b.distributed < U64_LIMIT && Accounted(b, calls, units)
    ensures Accounted(Step(b, Claims(who)), calls + 1, units)
  {
    assert b.pool.(staked := b.pool.staked + 0) == b.pool;
    PutKeepsAccount(b, who, 0, b.PositionOf(who).Claimable(b.pool.rewardIndex), calls, units);
  }

  lemma SlashKeepsAccount(b: Book, amount: nat, calls: nat, units: nat)
    requires Sound(b) && Accounted(b, calls, units)
    ensures Accounted(Step(b, Slashes(amount)), calls, units + b.pool.staked)
  {
    var share := SplitOf(amount).pool;
    if b.pool.staked > 0 && share > 0 {
      TotalWorthAfterSlash(b.positions, b.pool, share);
    }
  }

  lemma StepKeepsAccount(b: Book, e: Event, calls: nat, units: nat)
    requires Sound(b) && b.distributed < U64_LIMIT && Accounted(b, calls, units)
    ensures Accounted(Step(b, e), if e.Slashes? then calls else calls + 1,
                      if e.Slashes? then units + b.pool.staked else units)
  {
    match e
    case Stakes(who, amount) => StakeKeepsAccount(b, who, amount, calls, units);
    case Unstakes(who, amount) => UnstakeKeepsAccount(b, who, amount, calls, units);
    case Claims(who) => ClaimKeepsAccount(b, who, calls, units);
    case Slashes(amount) => SlashKeepsAccount(b, amount, calls, units);
  }

  lemma {:induction false} RunIsAccounted(books: seq<Book>, events: seq<Event>, n: nat)
    requires IsRun(books, events) && n < |books| && books[n].distributed < U64_LIMIT
    ensures Accounted(books[n], Calls(events, n), StakeSlashed(books, events, n))
  {
    if n > 0 {
      var b, e := books[n - 1], events[n - 1];
      assert books[n] == Step(b, e);
      RunIsSound(books, events, n - 1);
      RunIsAccounted(books, events, n - 1);
      var calls, units := Calls(events, n - 1), StakeSlashed(books, events, n - 1);
      StepKeepsAccount(b, e, calls, units);
    }
  }

  lemma TotalsWithout<K>(m: map<K, PositionValue>, index: nat, k: K)
    requires k in m
    ensures TotalWorth(m, index) == Worth(m[k], index) + TotalWorth(m - {k}, index)
    ensures TotalClaimable(m, index) == m[k].Claimable(index) + TotalClaimable(m - {k}, index)
    ensures |m - {k}| == |m| - 1
  {
    assert m == (m - {k})[k := m[k]];
    TotalsAfterUpdate(m - {k}, index, k, m[k]);
    SumRemove(m, ClaimableAt(index), k);
    assert (m - {k}).Keys == m.Keys - {k};
  }

  /** The claimable total falls short of the total worth by less than one
      lamport per position. */
  lemma {:induction false} WorthWithinClaimable<K>(m: map<K, PositionValue>, index: nat)
    requires Anchored(m, index)
    requires forall k :: k in m ==> Worth(m[k], index) < U64_LIMIT * REWARD_SCALE
    ensures TotalWorth(m, index) <= (TotalClaimable(m, index) + |m|) * REWARD_SCALE
    decreases |m|
  {
    if m != map[] {
      var k :| k in m;
      TotalsWithout(m, index, k);
      WorthWithinClaimable(m - {k}, index);
      SettleLosesLessThanOne(m[k], index);
    }
  }

  /** Everything a run has stranded, bounded: of the lamports distributed, those
      neither paid out nor claimable are at most one per call, one per position,
      and one index unit per lamport staked at each slash. */
  lemma StrandedIsBounded(books: seq<Book>, events: seq<Event>, n: nat)
    requires IsRun(books, events) && n < |books| && books[n].distributed < U64_LIMIT
    ensures var b := books[n];
      0 <= b.distributed - b.claimed - TotalClaimable(b.positions, b.pool.rewardIndex)
        <= Calls(events, n) + |b.positions| + StakeSlashed(books, events, n) / REWARD_SCALE
  {
    var b := books[n];
    RunIsSound(books, events, n);
    RunIsAccounted(books, events, n);
    NeverPaysMoreThanDistributed(books, events, n);
    forall k | k in b.positions ensures Worth(b.positions[k], b.pool.rewardIndex) < U64_LIMIT * REWARD_SCALE {
      MemberWithinTotal(b.positions, b.pool.rewardIndex, k);
    }
    WorthWithinClaimable(b.positions, b.pool.rewardIndex);
  }
}
