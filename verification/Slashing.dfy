/** The coverage pool of `crates/slashing`: a reward-per-lamport index with
    floor division, the positions anchored to it, and the three-way split of a
    slashed bond, as values and pure rules. */
module Slashing {
  import opened Base

  const BPS_DENOMINATOR: nat := 10_000
  const BURN_BPS: nat := 5_000
  const VICTIM_BPS: nat := 3_000
  const POOL_BPS: nat := 2_000
  const REWARD_SCALE: int := 1_000_000_000_000
  const UNBOND_SLOTS: nat := 216_000

  datatype PoolError =
    | StakeIsZero
    | Overdraw(requested: nat, held: nat)
    | ForeignPosition

  datatype Split = Split(burn: nat, victim: nat, pool: nat) {
    function Total(): nat { burn + victim + pool }

    /** The split applied when nobody is staked: nothing is lost, nothing is
        left for the pool, and the victim's share does not move. */
    function WithoutPool(): (s: Split)
      ensures s.Total() == Total() && s.pool == 0 && s.victim == victim
    {
      Split(burn + pool, victim, 0)
    }
  }

  /** The shares sum to exactly what was taken, no payout share is rounded up,
      the burn absorbs at most two lamports of rounding, and the burn alone is
      at least both recoverable shares together. */
  function SplitOf(slashed: nat): (s: Split)
    ensures s.Total() == slashed
    ensures s.victim * BPS_DENOMINATOR <= slashed * VICTIM_BPS < (s.victim + 1) * BPS_DENOMINATOR
    ensures s.pool * BPS_DENOMINATOR <= slashed * POOL_BPS < (s.pool + 1) * BPS_DENOMINATOR
    ensures slashed * BURN_BPS <= s.burn * BPS_DENOMINATOR < slashed * BURN_BPS + 2 * BPS_DENOMINATOR
    ensures s.burn >= s.victim + s.pool
  {
    var victim := slashed * VICTIM_BPS / BPS_DENOMINATOR;
    var pool := slashed * POOL_BPS / BPS_DENOMINATOR;
    Split(slashed - victim - pool, victim, pool)
  }

  datatype PoolValue = PoolValue(staked: nat, rewardIndex: nat)

  datatype PositionValue = PositionValue(staked: nat, entryIndex: nat, reward: nat) {

    /** Rewards since the last settlement. The subtraction saturates and the
        quotient is narrowed to 64 bits, as the program does. */
    function Accrued(index: nat): nat {
      var delta := if index >= entryIndex then index - entryIndex else 0;
      staked * delta / REWARD_SCALE % U64_LIMIT
    }

    function Claimable(index: nat): nat { reward + Accrued(index) }

    function Settled(index: nat): PositionValue {
      PositionValue(staked, index, reward + Accrued(index))
    }
  }

  const NO_POSITION := PositionValue(0, 0, 0)

  function Stake(pool: PoolValue, p: PositionValue, amount: nat): Result<(PoolValue, PositionValue), PoolError> {
    if amount == 0 then Err(StakeIsZero)
    else if p.staked > 0 && p.entryIndex > pool.rewardIndex then Err(ForeignPosition)
    else
      var q := p.Settled(pool.rewardIndex);
      Ok((pool.(staked := pool.staked + amount), q.(staked := q.staked + amount)))
  }

  /** The pool's total may be smaller than the withdrawal only for a position
      that is not part of it; the caller answers for that. */
  function Unstake(pool: PoolValue, p: PositionValue, amount: nat): Result<(PoolValue, PositionValue), PoolError>
    requires p.staked <= pool.staked
  {
    if amount > p.staked then Err(Overdraw(amount, p.staked))
    else
      var q := p.Settled(pool.rewardIndex);
      Ok((pool.(staked := pool.staked - amount), q.(staked := q.staked - amount)))
  }

  function Claim(pool: PoolValue, p: PositionValue): (PositionValue, nat) {
    var q := p.Settled(pool.rewardIndex);
    (q.(reward := 0), q.reward)
  }

  function Distribute(pool: PoolValue, split: Split): (PoolValue, Split) {
    if pool.staked == 0 || split.pool == 0 then (pool, split.WithoutPool())
    else (pool.(rewardIndex := pool.rewardIndex + split.pool * REWARD_SCALE / pool.staked), split)
  }

  // ---- Arithmetic of the index ----

  /** What a position is worth at a given index, times `REWARD_SCALE`, less the
      part that depends on the index only through the stake. Summing this over
      positions turns a slash into one addition. */
  function Weight(p: PositionValue): int { p.reward * REWARD_SCALE - p.staked * p.entryIndex }

  function StakedOf(p: PositionValue): int { p.staked }

  /** The exact scaled worth of a position: banked rewards plus unrounded accrual. */
  function Worth(p: PositionValue, index: nat): int { Weight(p) + p.staked * index }

  lemma WorthIsNonNegative(p: PositionValue, index: nat)
    requires p.entryIndex <= index
    ensures Worth(p, index) == p.reward * REWARD_SCALE + p.staked * (index - p.entryIndex)
    ensures p.staked * (index - p.entryIndex) >= 0
    ensures Worth(p, index) >= 0
  {
    var s, e := p.staked, p.entryIndex;
    assert s * index - s * e == s * (index - e);
  }

  /** Rounding and narrowing only ever take away from the exact worth. */
  lemma ClaimableWithinWorth(p: PositionValue, index: nat)
    requires p.entryIndex <= index
    ensures p.Claimable(index) * REWARD_SCALE <= Worth(p, index)
  {
    WorthIsNonNegative(p, index);
    var exact := p.staked * (index - p.entryIndex);
    var q := exact / REWARD_SCALE;
    assert q * REWARD_SCALE <= exact;
    assert q % U64_LIMIT <= q;
  }

  /** When the exact worth fits in 64 bits the narrowing is the identity, and
      one settlement loses less than one lamport. */
  lemma SettleLosesLessThanOne(p: PositionValue, index: nat)
    requires p.entryIndex <= index
    requires Worth(p, index) < U64_LIMIT * REWARD_SCALE
    ensures p.Accrued(index) == p.staked * (index - p.entryIndex) / REWARD_SCALE
    ensures p.Claimable(index) < U64_LIMIT
    ensures Worth(p, index) < (p.Claimable(index) + 1) * REWARD_SCALE
    ensures Worth(p.Settled(index), index) == p.Claimable(index) * REWARD_SCALE
  {
    WorthIsNonNegative(p, index);
    var exact := p.staked * (index - p.entryIndex);
    assert exact / REWARD_SCALE < U64_LIMIT;
    WorthIsNonNegative(p.Settled(index), index);
    assert p.Settled(index).staked * (index - p.Settled(index).entryIndex) == 0;
  }

  /** What the narrowing does past 64 bits: an accrual of exactly 2^64 lamports
      reads as nothing. And behind its entry index a position accrues nothing. */
  lemma AccrualIsNarrowed(entry: nat, reward: nat)
    ensures PositionValue(U64_LIMIT, entry, reward).Accrued(entry + REWARD_SCALE) == 0
    ensures forall p: PositionValue, index: nat :: index <= p.entryIndex ==> p.Accrued(index) == 0
  {
    assert U64_LIMIT * REWARD_SCALE / REWARD_SCALE == U64_LIMIT;
  }

  /** Exactly when a stake is refused, and why. */
  lemma StakeRefusedIff(pool: PoolValue, p: PositionValue, amount: nat)
    ensures Stake(pool, p, amount).Err? <==> amount == 0 || (p.staked > 0 && pool.rewardIndex < p.entryIndex)
    ensures Stake(pool, p, amount).Err? ==>
      Stake(pool, p, amount).error == if amount == 0 then StakeIsZero else ForeignPosition
  {
  }

  /** One slash credits at most the pool's share to all stakers together, and
      falls short of it by less than one index unit per staked lamport. */
  lemma IndexStep(pool: PoolValue, share: nat)
    requires pool.staked > 0
    ensures var delta := share * REWARD_SCALE / pool.staked;
      delta * pool.staked <= share * REWARD_SCALE < delta * pool.staked + pool.staked
  {
  }
}

/** The `&mut self` methods of the crate, each proved to carry out the rule of
    the same name. */
module PoolObjects {
  import opened Base
  import opened Rules = Slashing

  class Position {
    var staked: nat
    var entryIndex: nat
    var reward: nat

    function Value(): PositionValue
      reads this
    {
      PositionValue(staked, entryIndex, reward)
    }

    constructor (v: PositionValue)
      ensures Value() == v
    {
      staked, entryIndex, reward := v.staked, v.entryIndex, v.reward;
    }

    method Settle(index: nat)
      modifies this
      ensures Value() == old(Value()).Settled(index)
    {
      reward := reward + Value().Accrued(index);
      entryIndex := index;
    }
  }

  class Pool {
    var staked: nat
    var rewardIndex: nat

    function Value(): PoolValue
      reads this
    {
      PoolValue(staked, rewardIndex)
    }

    constructor (v: PoolValue)
      ensures Value() == v
    {
      staked, rewardIndex := v.staked, v.rewardIndex;
    }

    method Stake(position: Position, amount: nat) returns (r: Result<(), PoolError>)
      modifies this, position
      ensures match Rules.Stake(old(Value()), old(position.Value()), amount)
        case Ok((pool, p)) => r == Ok(()) && Value() == pool && position.Value() == p
        case Err(e) => r == Err(e) && Value() == old(Value()) && position.Value() == old(position.Value())
    {
      if amount == 0 {
        return Err(StakeIsZero);
      }
      if position.staked > 0 && position.entryIndex > rewardIndex {
        return Err(ForeignPosition);
      }
      position.Settle(rewardIndex);
      position.staked := position.staked + amount;
      staked := staked + amount;
      return Ok(());
    }

    method Unstake(position: Position, amount: nat) returns (r: Result<nat, PoolError>)
      requires position.staked <= staked
      modifies this, position
      ensures match Rules.Unstake(old(Value()), old(position.Value()), amount)
        case Ok((pool, p)) => r == Ok(amount) && Value() == pool && position.Value() == p
        case Err(e) => r == Err(e) && Value() == old(Value()) && position.Value() == old(position.Value())
    {
      if amount > position.staked {
        return Err(Overdraw(amount, position.staked));
      }
      position.Settle(rewardIndex);
      position.staked := position.staked - amount;
      staked := staked - amount;
      return Ok(amount);
    }

    method Claim(position: Position) returns (paid: nat)
      modifies position
      ensures (position.Value(), paid) == Rules.Claim(Value(), old(position.Value()))
    {
      position.Settle(rewardIndex);
      paid := position.reward;
      position.reward := 0;
    }

    method Distribute(split: Split) returns (applied: Split)
      modifies this
      ensures (Value(), applied) == Rules.Distribute(old(Value()), split)
    {
      if staked == 0 || split.pool == 0 {
        return split.WithoutPool();
      }
      rewardIndex := rewardIndex + split.pool * REWARD_SCALE / staked;
      return split;
    }
  }
}
