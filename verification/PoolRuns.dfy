/** Whole runs of the coverage pool, measured against the rule it stands for:
    split each slash pro rata among those staked at that moment. */
module PoolRuns {
  import opened Base
  import opened Slashing

  ghost function TotalStake<K>(m: map<K, PositionValue>): int { SumOver(m, StakedOf) }

  /** The exact scaled worth of every position together, at one index. */
  ghost function TotalWorth<K>(m: map<K, PositionValue>, index: nat): int {
    SumOver(m, Weight) + index * SumOver(m, StakedOf)
  }

  function ClaimableAt(index: nat): PositionValue -> int { (p: PositionValue) => p.Claimable(index) }

  ghost function TotalClaimable<K>(m: map<K, PositionValue>, index: nat): int { SumOver(m, ClaimableAt(index)) }

  ghost predicate Anchored<K>(m: map<K, PositionValue>, index: nat) {
    forall k :: k in m ==> m[k].entryIndex <= index
  }

  lemma TotalsAreNonNegative<K>(m: map<K, PositionValue>, index: nat)
    requires Anchored(m, index)
    ensures TotalStake(m) >= 0
    ensures TotalWorth(m, index) >= 0
  {
    forall k | k in m ensures 0 <= Weight(m[k]) + index * StakedOf(m[k]) {
      WorthIsNonNegative(m[k], index);
    }
    SumCombination(m, StakedOf, Weight, StakedOf, 1, 0, 0);
    SumCombination(m, StakedOf, Weight, StakedOf, 0, 1, index);
  }

  lemma ClaimableWithinTotalWorth<K>(m: map<K, PositionValue>, index: nat)
    requires Anchored(m, index)
    ensures TotalClaimable(m, index) * REWARD_SCALE <= TotalWorth(m, index)
  {
    forall k | k in m
      ensures -REWARD_SCALE * ClaimableAt(index)(m[k]) + 1 * Weight(m[k]) + index * StakedOf(m[k]) >= 0
    {
      ClaimableWithinWorth(m[k], index);
    }
    SumCombination(m, ClaimableAt(index), Weight, StakedOf, -REWARD_SCALE, 1, index);
  }

  /** No position is worth more, or holds more stake, than all of them. */
  lemma MemberWithinTotal<K>(m: map<K, PositionValue>, index: nat, k: K)
    requires Anchored(m, index) && k in m
    ensures m[k].staked <= TotalStake(m)
    ensures 0 <= Worth(m[k], index) <= TotalWorth(m, index)
  {
    var rest := m - {k};
    SumRemove(m, StakedOf, k);
    SumRemove(m, Weight, k);
    TotalsAreNonNegative(rest, index);
    WorthIsNonNegative(m[k], index);
    MulDistributes(index, m[k].staked, TotalStake(rest));
  }

  /** Replacing one position moves both totals by that position alone. */
  lemma TotalsAfterUpdate<K>(m: map<K, PositionValue>, index: nat, k: K, p: PositionValue)
    ensures TotalStake(m[k := p]) == TotalStake(m) + p.staked - (if k in m then m[k].staked else 0)
    ensures TotalWorth(m[k := p], index) ==
            TotalWorth(m, index) + Worth(p, index) - (if k in m then Worth(m[k], index) else 0)
  {
    SumUpdate(m, StakedOf, k, p);
    SumUpdate(m, Weight, k, p);
    var before := if k in m then m[k].staked else 0;
    assert index * (TotalStake(m) + p.staked - before)
        == index * TotalStake(m) + index * p.staked - index * before;
  }

  /** A slash raises the index; the total worth rises by at most the pool's
      share, and by more than that share less one unit per staked lamport. */
  lemma TotalWorthAfterSlash<K>(m: map<K, PositionValue>, pool: PoolValue, share: nat)
    requires pool.staked == TotalStake(m) && pool.staked > 0
    ensures var next := pool.rewardIndex + share * REWARD_SCALE / pool.staked;
      && TotalWorth(m, next) <= TotalWorth(m, pool.rewardIndex) + share * REWARD_SCALE
      && TotalWorth(m, next) > TotalWorth(m, pool.rewardIndex) + share * REWARD_SCALE - pool.staked
  {
    var delta := share * REWARD_SCALE / pool.staked;
    IndexStep(pool, share);
    assert (pool.rewardIndex + delta) * pool.staked == pool.rewardIndex * pool.staked + delta * pool.staked;
  }

  // ---- Runs ----

  datatype Event =
    | Stakes(who: Key, amount: nat)
    | Unstakes(who: Key, amount: nat)
    | Claims(who: Key)
    | Slashes(amount: nat)

  /** What one staker has been paid, what the pro-rata rule says they are due,
      how often they settled, and how many lamport-slashes they stood behind. */
  datatype History = History(paid: nat, exact: real, settlements: nat, exposure: nat)

  const NO_HISTORY := History(0, 0.0, 0, 0)

  datatype Book = Book(
    pool: PoolValue,
    positions: map<Key, PositionValue>,
    history: map<Key, History>,
    distributed: nat,
    claimed: nat)
  {
    function PositionOf(k: Key): PositionValue { if k in positions then positions[k] else NO_POSITION }
    function HistoryOf(k: Key): History { if k in history then history[k] else NO_HISTORY }

    function Put(k: Key, pool': PoolValue, p: PositionValue, paid: nat): Book {
      var h := HistoryOf(k);
      Book(pool', positions[k := p],
           history[k := h.(paid := h.paid + paid, settlements := h.settlements + 1)],
           distributed, claimed + paid)
    }
  }

  const OPENING := Book(PoolValue(0, 0), map[], map[], 0, 0)

  /** The share of one slash that the pro-rata rule gives to `staked` lamports. */
  function ProRata(share: nat, staked: nat, total: nat): real
    requires total > 0
  {
    share as real * staked as real / total as real
  }

  /** One event. A refused call leaves the book as it was. */
  function Step(b: Book, e: Event): Book {
    match e
    case Stakes(who, amount) =>
      (match Stake(b.pool, b.PositionOf(who), amount)
       case Ok((pool, p)) => b.Put(who, pool, p, 0)
       case Err(_) => b)
    case Unstakes(who, amount) =>
      var p := b.PositionOf(who);
      if p.staked > b.pool.staked then b else
      (match Unstake(b.pool, p, amount)
       case Ok((pool, q)) => b.Put(who, pool, q, 0)
       case Err(_) => b)
    case Claims(who) =>
      var (p, paid) := Claim(b.pool, b.PositionOf(who));
      b.Put(who, b.pool, p, paid)
    case Slashes(amount) =>
      var (pool, applied) := Distribute(b.pool, SplitOf(amount));
      if applied.pool == 0 then b else
      b.(pool := pool,
         distributed := b.distributed + applied.pool,
         history := map k | k in b.history ::
           var h, s := b.history[k], b.PositionOf(k).staked;
           h.(exact := h.exact + ProRata(applied.pool, s, b.pool.staked), exposure := h.exposure + s))
  }

  /** `books` is a run: it opens with an empty book and takes one event at a time. */
  ghost predicate IsRun(books: seq<Book>, events: seq<Event>) {
    && |books| == |events| + 1
    && books[0] == OPENING
    && forall i :: 0 <= i < |events| ==> books[i + 1] == Step(books[i], events[i])
  }

  ghost predicate Upper(b: Book, k: Key) {
    var h := b.HistoryOf(k);
    (h.paid * REWARD_SCALE + Worth(b.PositionOf(k), b.pool.rewardIndex)) as real
      <= h.exact * REWARD_SCALE as real
  }

  ghost predicate Lower(b: Book, k: Key) {
    var h := b.HistoryOf(k);
    h.exact * REWARD_SCALE as real
      <= ((h.paid + h.settlements) * REWARD_SCALE + h.exposure + Worth(b.PositionOf(k), b.pool.rewardIndex)) as real
  }

  ghost predicate Sound(b: Book) {
    && b.positions.Keys == b.history.Keys
    && Anchored(b.positions, b.pool.rewardIndex)
    && b.pool.staked == TotalStake(b.positions)
    && TotalWorth(b.positions, b.pool.rewardIndex) + b.claimed * REWARD_SCALE <= b.distributed * REWARD_SCALE
    && (forall k :: k in b.positions ==> Upper(b, k))
    && (b.distributed < U64_LIMIT ==> forall k :: k in b.positions ==> Lower(b, k))
  }

  /** The position left by a call that settles `p`, changes its stake by
      `change` and pays `paid` out of its banked rewards. */
  function Resettled(p: PositionValue, index: nat, change: int, paid: nat): PositionValue
    requires p.staked + change >= 0 && paid <= p.Claimable(index)
  {
    PositionValue(p.staked + change, index, p.Claimable(index) - paid)
  }

  lemma ResettledWorth(p: PositionValue, index: nat, change: int, paid: nat)
    requires p.entryIndex <= index
    requires p.staked + change >= 0 && paid <= p.Claimable(index)
    ensures Worth(Resettled(p, index, change, paid), index) == (p.Claimable(index) - paid) * REWARD_SCALE
    ensures Worth(Resettled(p, index, change, paid), index) + paid * REWARD_SCALE <= Worth(p, index)
    ensures Worth(p, index) < U64_LIMIT * REWARD_SCALE ==>
      Worth(p, index) <= Worth(Resettled(p, index, change, paid), index) + (paid + 1) * REWARD_SCALE
  {
    WorthIsNonNegative(Resettled(p, index, change, paid), index);
    ClaimableWithinWorth(p, index);
    if Worth(p, index) < U64_LIMIT * REWARD_SCALE {
      SettleLosesLessThanOne(p, index);
    }
  }

  /** Such a call keeps the book sound. */
  lemma PutKeepsSound(b: Book, k: Key, change: int, paid: nat)
    requires Sound(b)
    requires b.PositionOf(k).staked + change >= 0 && b.pool.staked + change >= 0
    requires paid <= b.PositionOf(k).Claimable(b.pool.rewardIndex)
    ensures Sound(b.Put(k, b.pool.(staked := b.pool.staked + change),
                        Resettled(b.PositionOf(k), b.pool.rewardIndex, change, paid), paid))
  {
    var index := b.pool.rewardIndex;
    var p := b.PositionOf(k);
    var r := Resettled(p, index, change, paid);
    var b' := b.Put(k, b.pool.(staked := b.pool.staked + change), r, paid);
    ResettledWorth(p, index, change, paid);
    TotalsAfterUpdate(b.positions, index, k, r);
    forall j | j in b'.positions
      ensures Upper(b', j)
      ensures b'.distributed < U64_LIMIT ==> Lower(b', j)
    {
      if j == k {
        PutKeepsBounds(b, b', k, r, paid);
      } else {
        assert Upper(b, j);
      }
    }
  }

  lemma PutKeepsBounds(b: Book, b': Book, k: Key, r: PositionValue, paid: nat)
    requires Sound(b)
    requires b'.PositionOf(k) == r && b'.pool.rewardIndex == b.pool.rewardIndex && b'.distributed == b.distributed
    requires var h := b.HistoryOf(k);
      b'.HistoryOf(k) == h.(paid := h.paid + paid, settlements := h.settlements + 1)
    requires var worth := Worth(b.PositionOf(k), b.pool.rewardIndex);
      && Worth(r, b.pool.rewardIndex) + paid * REWARD_SCALE <= worth
      && (worth < U64_LIMIT * REWARD_SCALE ==> worth <= Worth(r, b.pool.rewardIndex) + (paid + 1) * REWARD_SCALE)
    ensures Upper(b', k)
    ensures b'.distributed < U64_LIMIT ==> Lower(b', k)
  {
    if k in b.positions {
      assert Upper(b, k);
      MemberWithinTotal(b.positions, b.pool.rewardIndex, k);
    }
  }

  lemma MulMonotone(x: real, y: real, z: real)
    requires x <= y && z >= 0.0
    ensures x * z <= y * z
  {
    assert (y - x) * z >= 0.0;
  }

  lemma CancelPositive(x: real, y: real, t: real)
    requires t > 0.0 && x * t <= y * t
    ensures x <= y
  {
  }

  lemma SwapFactors(a: real, b: real, c: real)
    ensures a * b * c == a * c * b
  {
  }

  /** Rounding the index down costs a stake of `s` at most `s` index units. */
  lemma ProRataBounds(due: real, s: real, t: real, share: real, d: real, c: real)
    requires t > 0.0 && s >= 0.0 && due * t == share * s
    requires d * t <= share * c <= d * t + t
    ensures s * d <= due * c <= s * d + s
  {
    SwapFactors(share, c, s);
    SwapFactors(due, t, c);
    SwapFactors(d, t, s);
    assert share * c * s == due * c * t;
    MulMonotone(d * t, share * c, s);
    CancelPositive(d * s, due * c, t);
    MulMonotone(share * c, d * t + t, s);
    assert (d * t + t) * s == (d * s + s) * t;
    CancelPositive(due * c, d * s + s, t);
  }

  lemma ProRataStep(s: nat, total: nat, share: nat, delta: nat)
    requires total > 0
    requires delta * total <= share * REWARD_SCALE <= delta * total + total
    ensures (s * delta) as real <= ProRata(share, s, total) * REWARD_SCALE as real <= (s * delta + s) as real
  {
    CastProduct(delta, total);
    CastProduct(share, REWARD_SCALE);
    CastProduct(s, delta);
    ProRataBounds(ProRata(share, s, total), s as real, total as real, share as real, delta as real,
                  REWARD_SCALE as real);
  }

  lemma CastProduct(x: int, y: int)
    ensures (x * y) as real == x as real * y as real
  {
  }

  /** `b'` is `b` after a slash that gave `share` to the pool and moved the
      index by `delta`. */
  ghost predicate Slashed(b: Book, b': Book, share: nat, delta: nat) {
    && b.pool.staked > 0
    && delta * b.pool.staked <= share * REWARD_SCALE < delta * b.pool.staked + b.pool.staked
    && b'.positions == b.positions && b'.pool == b.pool.(rewardIndex := b.pool.rewardIndex + delta)
    && b'.distributed == b.distributed + share && b'.claimed == b.claimed
    && b'.history.Keys == b.history.Keys
    && forall k :: k in b.history ==>
         var h, s := b.history[k], b.PositionOf(k).staked;
         b'.history[k] == h.(exact := h.exact + ProRata(share, s, b.pool.staked), exposure := h.exposure + s)
  }

  lemma SlashKeepsBounds(b: Book, b': Book, k: Key, share: nat, delta: nat)
    requires Sound(b) && k in b.positions && Slashed(b, b', share, delta)
    ensures Upper(b', k)
    ensures b'.distributed < U64_LIMIT ==> Lower(b', k)
  {
    var p, index := b.PositionOf(k), b.pool.rewardIndex;
    var gain := ProRata(share, p.staked, b.pool.staked);
    assert Upper(b, k);
    ProRataStep(p.staked, b.pool.staked, share, delta);
    assert Worth(p, index + delta) == Worth(p, index) + p.staked * delta by {
      MulDistributes(p.staked, index, delta);
    }
    var exact := b.HistoryOf(k).exact;
    assert (exact + gain) * REWARD_SCALE as real == exact * REWARD_SCALE as real + gain * REWARD_SCALE as real;
  }

  lemma SlashBudget(weight: int, index: nat, delta: nat, stake: nat, claimed: nat, distributed: nat, share: nat)
    requires weight + index * stake + claimed * REWARD_SCALE <= distributed * REWARD_SCALE
    requires delta * stake <= share * REWARD_SCALE
    ensures weight + (index + delta) * stake + claimed * REWARD_SCALE <= (distributed + share) * REWARD_SCALE
  {
    MulDistributes(stake, index, delta);
  }

  lemma SlashedIsSound(b: Book, b': Book, share: nat, delta: nat)
    requires Sound(b) && Slashed(b, b', share, delta)
    ensures Sound(b')
  {
    SlashBudget(SumOver(b.positions, Weight), b.pool.rewardIndex, delta, b.pool.staked, b.claimed, b.distributed,
                share);
    forall k | k in b'.positions
      ensures Upper(b', k)
      ensures b'.distributed < U64_LIMIT ==> Lower(b', k)
    {
      SlashKeepsBounds(b, b', k, share, delta);
    }
  }

  lemma SlashKeepsSound(b: Book, amount: nat)
    requires Sound(b)
    ensures Sound(Step(b, Slashes(amount)))
  {
    var share := SplitOf(amount).pool;
    if b.pool.staked != 0 && share != 0 {
      IndexStep(b.pool, share);
      SlashedIsSound(b, Step(b, Slashes(amount)), share, share * REWARD_SCALE / b.pool.staked);
    }
  }

  lemma StakeKeepsSound(b: Book, who: Key, amount: nat)
    requires Sound(b)
    ensures Sound(Step(b, Stakes(who, amount)))
  {
    var p := b.PositionOf(who);
    if Stake(b.pool, p, amount).Ok? {
      assert Stake(b.pool, p, amount).value.1 == Resettled(p, b.pool.rewardIndex, amount, 0);
      PutKeepsSound(b, who, amount, 0);
    }
  }

  lemma UnstakeKeepsSound(b: Book, who: Key, amount: nat)
    requires Sound(b)
    ensures Sound(Step(b, Unstakes(who, amount)))
  {
    var p := b.PositionOf(who);
    if p.staked <= b.pool.staked && Unstake(b.pool, p, amount).Ok? {
      assert Unstake(b.pool, p, amount).value.1 == Resettled(p, b.pool.rewardIndex, 0 - amount, 0);
      PutKeepsSound(b, who, 0 - amount, 0);
    }
  }

  lemma ClaimKeepsSound(b: Book, who: Key)
    requires Sound(b)
    ensures Sound(Step(b, Claims(who)))
  {
    var paid := b.PositionOf(who).Claimable(b.pool.rewardIndex);
    assert b.pool.(staked := b.pool.staked + 0) == b.pool;
    PutKeepsSound(b, who, 0, paid);
  }

  lemma StepKeepsSound(b: Book, e: Event)
    requires Sound(b)
    ensures Sound(Step(b, e))
  {
    match e
    case Stakes(who, amount) => StakeKeepsSound(b, who, amount);
    case Unstakes(who, amount) => UnstakeKeepsSound(b, who, amount);
    case Claims(who) => ClaimKeepsSound(b, who);
    case Slashes(amount) => SlashKeepsSound(b, amount);
  }

  lemma {:induction false} RunIsSound(books: seq<Book>, events: seq<Event>, n: nat)
    requires IsRun(books, events) && n < |books|
    ensures Sound(books[n])
  {
    if n > 0 {
      RunIsSound(books, events, n - 1);
      StepKeepsSound(books[n - 1], events[n - 1]);
    }
  }

  // ---- What every run guarantees ----

  /** Pool solvency: everything ever paid out plus everything still claimable
      is covered by the pool shares ever distributed. */
  lemma NeverPaysMoreThanDistributed(books: seq<Book>, events: seq<Event>, n: nat)
    requires IsRun(books, events) && n < |books|
    ensures var b := books[n];
      && b.claimed + TotalClaimable(b.positions, b.pool.rewardIndex) <= b.distributed
      && b.pool.staked == TotalStake(b.positions)
  {
    RunIsSound(books, events, n);
    ClaimableWithinTotalWorth(books[n].positions, books[n].pool.rewardIndex);
  }

  /** While the total distributed fits in 64 bits, the product inside `accrued`
      stays below distributed * scale and the cast to 64 bits loses nothing. */
  lemma AccrualNeverOverflows(books: seq<Book>, events: seq<Event>, n: nat, k: Key)
    requires IsRun(books, events) && n < |books|
    requires k in books[n].positions && books[n].distributed < U64_LIMIT
    ensures var b := books[n];
      var p, index := b.positions[k], b.pool.rewardIndex;
      && p.entryIndex <= index
      && p.staked * (index - p.entryIndex) <= b.distributed * REWARD_SCALE
      && p.Accrued(index) == p.staked * (index - p.entryIndex) / REWARD_SCALE
      && p.Claimable(index) < U64_LIMIT
  {
    var b := books[n];
    RunIsSound(books, events, n);
    MemberWithinTotal(b.positions, b.pool.rewardIndex, k);
    WorthIsNonNegative(b.positions[k], b.pool.rewardIndex);
    SettleLosesLessThanOne(b.positions[k], b.pool.rewardIndex);
  }

  /** The index refines the pro-rata rule: paid plus claimable never exceeds
      the exact share, and falls short of it by less than one lamport per
      settlement, one for the pending accrual, and one index unit per lamport
      and slash stood behind. */
  lemma PaidTracksExactShare(books: seq<Book>, events: seq<Event>, n: nat, k: Key)
    requires IsRun(books, events) && n < |books|
    ensures var b := books[n];
      var h := b.HistoryOf(k);
      var total := h.paid + b.PositionOf(k).Claimable(b.pool.rewardIndex);
      && total as real <= h.exact
      && (b.distributed < U64_LIMIT ==>
          h.exact <= (total + h.settlements + 1) as real + h.exposure as real / REWARD_SCALE as real)
  {
    RunIsSound(books, events, n);
    if k in books[n].positions {
      SoundTracksExactShare(books[n], k);
    }
  }

  lemma SoundTracksExactShare(b: Book, k: Key)
    requires Sound(b) && k in b.positions
    ensures var h := b.HistoryOf(k);
      var total := h.paid + b.PositionOf(k).Claimable(b.pool.rewardIndex);
      && total as real <= h.exact
      && (b.distributed < U64_LIMIT ==>
          h.exact <= (total + h.settlements + 1) as real + h.exposure as real / REWARD_SCALE as real)
  {
    var p, index := b.positions[k], b.pool.rewardIndex;
    assert Upper(b, k);
    ClaimableWithinWorth(p, index);
    if b.distributed < U64_LIMIT {
      assert Lower(b, k);
      MemberWithinTotal(b.positions, index, k);
      SettleLosesLessThanOne(p, index);
    }
  }

  /** Capital that stood behind no slash earns nothing: if `k` had no stake at
      every slash of the run, its exact share and its whole return are zero. */
  lemma NoStakeNoReward(books: seq<Book>, events: seq<Event>, n: nat, k: Key)
    requires IsRun(books, events) && n < |books|
    requires forall i :: 0 <= i < n && events[i].Slashes? ==> books[i].PositionOf(k).staked == 0
    ensures books[n].HistoryOf(k).exact == 0.0
    ensures books[n].HistoryOf(k).paid == 0
    ensures books[n].PositionOf(k).Claimable(books[n].pool.rewardIndex) == 0
  {
    ExactStaysZero(books, events, n, k);
    PaidTracksExactShare(books, events, n, k);
  }

  lemma {:induction false} ExactStaysZero(books: seq<Book>, events: seq<Event>, n: nat, k: Key)
    requires IsRun(books, events) && n < |books|
    requires forall i :: 0 <= i < n && events[i].Slashes? ==> books[i].PositionOf(k).staked == 0
    ensures books[n].HistoryOf(k).exact == 0.0
  {
    if n > 0 {
      ExactStaysZero(books, events, n - 1, k);
      var b, e := books[n - 1], events[n - 1];
      RunIsSound(books, events, n - 1);
      assert books[n] == Step(b, e);
      if e.Slashes? {
        assert books[n].HistoryOf(k).exact == b.HistoryOf(k).exact;
      }
    }
  }
}
