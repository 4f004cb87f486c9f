/** What every run of the slashing program keeps: no lamport is created or
    lost, and every account can pay what it owes. */
module ProgramRuns {
  import opened Base
  import opened SlashErrors
  import Rules = Slashing
  import opened PoolRuns
  import opened Contradiction
  import opened Program

  const SCALE: int := Rules.REWARD_SCALE

  // ---- One operator's accounts ----

  function LamportsOf(v: Conviction): int { v.lamports }

  /** Everything held by an operator account and the accounts derived from it. */
  ghost function Holdings(env: Env, o: OperatorState): int {
    o.lamports + |o.positions| * env.positionRent + SumOver(o.convictions, LamportsOf)
  }

  /** Rent, bond, stake and the exact worth of every position are all there,
      in units of one lamport over `REWARD_SCALE`. */
  ghost predicate Covered(env: Env, o: OperatorState) {
    SCALE * (env.operatorRent + o.bond + o.pool.staked) + TotalWorth(o.positions, o.pool.rewardIndex)
      <= SCALE * o.lamports
  }

  ghost predicate PoolSound(o: OperatorState) {
    Anchored(o.positions, o.pool.rewardIndex) && o.pool.staked == TotalStake(o.positions)
  }

  predicate EscrowSound(env: Env, o: OperatorState) {
    forall k :: k in o.convictions ==> o.convictions[k].lamports >= env.convictionRent + o.convictions[k].owedToVictim
  }

  ghost predicate Solvent(env: Env, o: OperatorState) {
    PoolSound(o) && Covered(env, o) && EscrowSound(env, o)
  }

  /** In lamports: rent, bond, all stake and every claimable reward. */
  ghost predicate CoversClaims(env: Env, o: OperatorState) {
    env.operatorRent + o.bond + o.pool.staked + TotalClaimable(o.positions, o.pool.rewardIndex) <= o.lamports
  }

  lemma SolventCoversClaims(env: Env, o: OperatorState)
    requires Solvent(env, o)
    ensures CoversClaims(env, o)
  {
    ClaimableWithinTotalWorth(o.positions, o.pool.rewardIndex);
    var kept := env.operatorRent + o.bond + o.pool.staked;
    var owed := TotalClaimable(o.positions, o.pool.rewardIndex);
    assert SCALE * (kept + owed) <= SCALE * o.lamports;
  }

  lemma SolventKeepsFloor(env: Env, o: OperatorState)
    requires Solvent(env, o)
    ensures Reserved(env, o) <= o.lamports
  {
    TotalsAreNonNegative(o.positions, o.pool.rewardIndex);
  }

  // ---- Positions ----

  /** `o` with the caller's position settled, its stake changed by `change`,
      `paid` lamports of its rewards taken out, and `gained` new lamports. */
  function Resettle(o: OperatorState, k: Key, change: int, paid: nat, gained: int): OperatorState
    requires PositionAt(o, k).staked + change >= 0 && o.pool.staked + change >= 0
    requires paid <= PositionAt(o, k).Claimable(o.pool.rewardIndex) && o.lamports + gained >= 0
  {
    o.(pool := o.pool.(staked := o.pool.staked + change),
       positions := o.positions[k := Resettled(PositionAt(o, k), o.pool.rewardIndex, change, paid)],
       lamports := o.lamports + gained)
  }

  function PositionAt(o: OperatorState, k: Key): Rules.PositionValue {
    if k in o.positions then o.positions[k] else Rules.NO_POSITION
  }

  lemma WorthOfNoPosition(index: nat)
    ensures Rules.Worth(Rules.NO_POSITION, index) == 0
  {
  }

  lemma ResettleKeepsPool(o: OperatorState, k: Key, change: int, paid: nat, gained: int)
    requires PoolSound(o)
    requires PositionAt(o, k).staked + change >= 0 && o.pool.staked + change >= 0
    requires paid <= PositionAt(o, k).Claimable(o.pool.rewardIndex) && o.lamports + gained >= 0
    ensures var next := Resettle(o, k, change, paid, gained);
      && PoolSound(next)
      && TotalWorth(next.positions, next.pool.rewardIndex) + SCALE * paid <= TotalWorth(o.positions, o.pool.rewardIndex)
  {
    var index, p := o.pool.rewardIndex, PositionAt(o, k);
    var r := Resettled(p, index, change, paid);
    WorthOfNoPosition(index);
    ResettledWorth(p, index, change, paid);
    TotalsAfterUpdate(o.positions, index, k, r);
  }

  /** A call that pays out no more than the stake it gives up and the rewards
      it takes keeps the account covered. */
  lemma ResettleKeepsSolvent(env: Env, o: OperatorState, k: Key, change: int, paid: nat, gained: int)
    requires Solvent(env, o)
    requires PositionAt(o, k).staked + change >= 0 && o.pool.staked + change >= 0
    requires paid <= PositionAt(o, k).Claimable(o.pool.rewardIndex) && o.lamports + gained >= 0
    requires change - paid <= gained
    ensures Solvent(env, Resettle(o, k, change, paid, gained))
  {
    ResettleKeepsPool(o, k, change, paid, gained);
    var kept := env.operatorRent + o.bond + o.pool.staked;
    MulDistributes(SCALE, kept, change);
    MulDistributes(SCALE, o.lamports, gained);
    assert SCALE * (change - paid) <= SCALE * gained;
  }

  // ---- What each instruction does to one operator's accounts ----

  lemma StakeEffect(env: Env, o: OperatorState, occupied: bool, q: Request, funds: nat, position: (Key, Key),
          amount: nat, e: Effect)
    requires StakeLamports(env, o, occupied, q, funds, position, amount) == Ok(e)
    ensures e.after == Resettle(o, q.caller, amount, 0, amount) && e.burned == 0
    ensures e.funds == funds - amount - (if q.caller in o.positions then 0 else env.positionRent)
  {
  }

  lemma UnstakeEffect(env: Env, o: OperatorState, q: Request, funds: nat, position: (Key, Key), present: bool,
          amount: nat, e: Effect)
    requires UnstakeLamports(env, o, q, funds, position, present, amount) == Ok(e)
    ensures q.caller in o.positions && amount <= o.positions[q.caller].staked <= o.pool.staked && amount <= o.lamports
    ensures e == Effect(Resettle(o, q.caller, 0 - amount, 0, 0 - amount), funds + amount, 0)
  {
  }

  lemma ClaimEffect(env: Env, o: OperatorState, q: Request, funds: nat, position: (Key, Key), present: bool, e: Effect)
    requires ClaimRewards(env, o, q, funds, position, present) == Ok(e)
    ensures q.caller in o.positions
    ensures var earned := o.positions[q.caller].Claimable(o.pool.rewardIndex);
      earned <= o.lamports && e == Effect(Resettle(o, q.caller, 0, earned, 0 - earned), funds + earned, 0)
  {
  }

  lemma StakeKeepsSolvent(env: Env, o: OperatorState, occupied: bool, q: Request, funds: nat, position: (Key, Key),
          amount: nat, e: Effect)
    requires Solvent(env, o) && StakeLamports(env, o, occupied, q, funds, position, amount) == Ok(e)
    ensures Solvent(env, e.after)
  {
    StakeEffect(env, o, occupied, q, funds, position, amount, e);
    ResettleKeepsSolvent(env, o, q.caller, amount, 0, amount);
  }

  lemma UnstakeKeepsSolvent(env: Env, o: OperatorState, q: Request, funds: nat, position: (Key, Key), present: bool,
          amount: nat, e: Effect)
    requires Solvent(env, o) && UnstakeLamports(env, o, q, funds, position, present, amount) == Ok(e)
    ensures Solvent(env, e.after)
  {
    UnstakeEffect(env, o, q, funds, position, present, amount, e);
    ResettleKeepsSolvent(env, o, q.caller, 0 - amount, 0, 0 - amount);
  }

  lemma ClaimKeepsSolvent(env: Env, o: OperatorState, q: Request, funds: nat, position: (Key, Key), present: bool,
          e: Effect)
    requires Solvent(env, o) && ClaimRewards(env, o, q, funds, position, present) == Ok(e)
    ensures Solvent(env, e.after)
  {
    ClaimEffect(env, o, q, funds, position, present, e);
    var earned: int := o.positions[q.caller].Claimable(o.pool.rewardIndex);
    ResettleKeepsSolvent(env, o, q.caller, 0, earned, 0 - earned);
  }

  /** Distributing a slashed bond adds at most the pool's share to what the
      positions are worth together. */
  lemma DistributeWorth(o: OperatorState)
    requires PoolSound(o)
    ensures var (pool, applied) := Rules.Distribute(o.pool, Rules.SplitOf(o.bond));
      && applied.Total() == o.bond
      && pool.staked == o.pool.staked && pool.rewardIndex >= o.pool.rewardIndex
      && TotalWorth(o.positions, pool.rewardIndex) <= TotalWorth(o.positions, o.pool.rewardIndex) + applied.pool * SCALE
  {
    var split := Rules.SplitOf(o.bond);
    if o.pool.staked > 0 {
      TotalWorthAfterSlash(o.positions, o.pool, split.pool);
    }
  }

  lemma SlashBudget(kept: int, bond: nat, worth: int, worth': int, lamports: int, burn: nat, victim: nat, pool: nat)
    requires SCALE * (kept + bond) + worth <= SCALE * lamports
    requires worth' <= worth + pool * SCALE && burn + victim + pool == bond
    ensures SCALE * kept + worth' <= SCALE * (lamports - burn - victim)
  {
  }

  lemma SlashKeepsSolvent(env: Env, o: OperatorState, occupied: bool, q: Request, funds: nat, key: ConvictionKey,
          ev: Evidence, e: Effect)
    requires WellFormed(ev.a) && WellFormed(ev.b)
    requires Solvent(env, o) && Slash(env, o, occupied, q, funds, key, ev) == Ok(e)
    ensures Solvent(env, e.after)
  {
    var (pool, applied) := Rules.Distribute(o.pool, Rules.SplitOf(o.bond));
    DistributeWorth(o);
    SlashBudget(env.operatorRent + o.pool.staked, o.bond, TotalWorth(o.positions, o.pool.rewardIndex),
                TotalWorth(o.positions, pool.rewardIndex), o.lamports, applied.burn, applied.victim, applied.pool);
  }

  lemma TakeBondKeepsSolvent(env: Env, o: OperatorState, q: Request, funds: nat, e: Effect)
    requires Solvent(env, o) && TakeBond(env, o, q, funds) == Ok(e)
    ensures Solvent(env, e.after)
  {
    SlashBudget(env.operatorRent + o.pool.staked, o.bond, TotalWorth(o.positions, o.pool.rewardIndex),
                TotalWorth(o.positions, o.pool.rewardIndex), o.lamports, o.bond, 0, 0);
  }

  lemma OpeningIsSolvent(env: Env, signingKey: Bytes32, bond: nat)
    ensures Solvent(env,
              OperatorState(signingKey, bond, Rules.PoolValue(0, 0), 0, env.operatorRent + bond, map[], map[]))
  {
  }

  /** Every instruction keeps the accounts it touches solvent - including
      `prove_equivocation`, which pays out without the floor check. */
  lemma RunKeepsSolvent(env: Env, known: Option<OperatorState>, site: Site, q: Request, funds: nat, e: Effect)
    requires known.Some? ==> Solvent(env, known.value)
    requires Run(env, known, site, q, funds) == Ok(e)
    ensures Solvent(env, e.after)
  {
    match q.instruction
    case Register(signingKey, bond) => OpeningIsSolvent(env, signingKey, bond);
    case Stake(position, amount) => StakeKeepsSolvent(env, known.value, site.occupied, q, funds, position, amount, e);
    case Unstake(position, amount) =>
      UnstakeKeepsSolvent(env, known.value, q, funds, position, site.present, amount, e);
    case Claim(position) => ClaimKeepsSolvent(env, known.value, q, funds, position, site.present, e);
    case ProveEquivocation(conviction, _) =>
      SlashKeepsSolvent(env, known.value, site.occupied, q, funds, conviction.1,
                        CheckedEvidence(env, known.value, q, conviction).value, e);
    case ClaimVictim(_, _) =>
    case BeginUnbond =>
    case WithdrawBond => TakeBondKeepsSolvent(env, known.value, q, funds, e);
    case Donate(_, amount) => MulDistributes(SCALE, known.value.lamports, amount);
  }

  // ---- Conservation ----

  ghost function HeldBy(env: Env, known: Option<OperatorState>): int {
    match known case None => 0 case Some(o) => Holdings(env, o)
  }

  lemma OneMore<K, V>(m: map<K, V>, k: K, v: V)
    ensures |m[k := v]| == if k in m then |m| else |m| + 1
  {
    assert m[k := v].Keys == m.Keys + {k};
    assert |m[k := v].Keys| == |m[k := v]| && |m.Keys| == |m|;
  }

  lemma RentOfOneMore(count: nat, more: nat, rent: nat)
    ensures (count + more) * rent == count * rent + more * rent
  {
  }

  lemma ResettleHoldings(env: Env, o: OperatorState, k: Key, change: int, paid: nat, gained: int)
    requires PositionAt(o, k).staked + change >= 0 && o.pool.staked + change >= 0
    requires paid <= PositionAt(o, k).Claimable(o.pool.rewardIndex) && o.lamports + gained >= 0
    ensures Holdings(env, Resettle(o, k, change, paid, gained))
         == Holdings(env, o) + gained + if k in o.positions then 0 else env.positionRent
  {
    OneMore(o.positions, k, Resettled(PositionAt(o, k), o.pool.rewardIndex, change, paid));
    RentOfOneMore(|o.positions|, if k in o.positions then 0 else 1, env.positionRent);
  }

  lemma StakeConserves(env: Env, o: OperatorState, occupied: bool, q: Request, funds: nat, position: (Key, Key),
          amount: nat, e: Effect)
    requires StakeLamports(env, o, occupied, q, funds, position, amount) == Ok(e)
    ensures Holdings(env, e.after) + e.funds + e.burned == Holdings(env, o) + funds
  {
    StakeEffect(env, o, occupied, q, funds, position, amount, e);
    ResettleHoldings(env, o, q.caller, amount, 0, amount);
  }

  lemma UnstakeConserves(env: Env, o: OperatorState, q: Request, funds: nat, position: (Key, Key), present: bool,
          amount: nat, e: Effect)
    requires UnstakeLamports(env, o, q, funds, position, present, amount) == Ok(e)
    ensures Holdings(env, e.after) + e.funds + e.burned == Holdings(env, o) + funds
  {
    UnstakeEffect(env, o, q, funds, position, present, amount, e);
    ResettleHoldings(env, o, q.caller, 0 - amount, 0, 0 - amount);
  }

  lemma ClaimConserves(env: Env, o: OperatorState, q: Request, funds: nat, position: (Key, Key), present: bool,
          e: Effect)
    requires ClaimRewards(env, o, q, funds, position, present) == Ok(e)
    ensures Holdings(env, e.after) + e.funds + e.burned == Holdings(env, o) + funds
  {
    ClaimEffect(env, o, q, funds, position, present, e);
    var earned: int := o.positions[q.caller].Claimable(o.pool.rewardIndex);
    ResettleHoldings(env, o, q.caller, 0, earned, 0 - earned);
  }

  lemma SlashConserves(env: Env, o: OperatorState, occupied: bool, q: Request, funds: nat, key: ConvictionKey,
          ev: Evidence, e: Effect)
    requires WellFormed(ev.a) && WellFormed(ev.b)
    requires key !in o.convictions && Slash(env, o, occupied, q, funds, key, ev) == Ok(e)
    ensures Holdings(env, e.after) + e.funds + e.burned == Holdings(env, o) + funds
  {
    SumUpdate(o.convictions, LamportsOf, key, e.after.convictions[key]);
  }

  lemma PayVictimConserves(env: Env, o: OperatorState, q: Request, funds: nat, key: ConvictionKey, wire: Bytes,
          e: Effect)
    requires PayVictim(env, o, q, funds, key, wire) == Ok(e)
    ensures Holdings(env, e.after) + e.funds + e.burned == Holdings(env, o) + funds
  {
    SumUpdate(o.convictions, LamportsOf, key, e.after.convictions[key]);
  }

  /** No lamport appears or disappears. */
  lemma RunConserves(env: Env, known: Option<OperatorState>, site: Site, q: Request, funds: nat, e: Effect)
    requires Run(env, known, site, q, funds) == Ok(e)
    ensures Holdings(env, e.after) + e.funds + e.burned == HeldBy(env, known) + funds
  {
    match q.instruction
    case Register(_, _) =>
    case Stake(position, amount) => StakeConserves(env, known.value, site.occupied, q, funds, position, amount, e);
    case Unstake(position, amount) => UnstakeConserves(env, known.value, q, funds, position, site.present, amount, e);
    case Claim(position) => ClaimConserves(env, known.value, q, funds, position, site.present, e);
    case ProveEquivocation(conviction, _) =>
      SlashConserves(env, known.value, site.occupied, q, funds, conviction.1,
                     CheckedEvidence(env, known.value, q, conviction).value, e);
    case ClaimVictim(escrow, wire) => PayVictimConserves(env, known.value, q, funds, escrow, wire, e);
    case BeginUnbond =>
    case WithdrawBond =>
    case Donate(_, _) =>
  }

  // ---- Ledgers ----

  function LamportsIn(n: nat): int { n }

  ghost function HoldingsOf(env: Env): OperatorState -> int { (o: OperatorState) => Holdings(env, o) }

  /** Every lamport the program or its callers can reach. */
  ghost function Supply(env: Env, l: Ledger): int {
    SumOver(l.wallets, LamportsIn) + SumOver(l.operators, HoldingsOf(env)) + SumOver(l.stray, LamportsIn)
      + l.incinerated
  }

  lemma SumIsNonNegative<K, V>(m: map<K, V>, f: V -> int)
    requires forall k :: k in m ==> f(m[k]) >= 0
    ensures SumOver(m, f) >= 0
  {
    SumCombination(m, f, f, f, 1, 0, 0);
  }

  lemma HoldingsCoverAccount(env: Env, o: OperatorState)
    ensures Holdings(env, o) >= o.lamports
  {
    SumIsNonNegative(o.convictions, LamportsOf);
  }

  lemma ConvictionWithinHoldings(env: Env, o: OperatorState, k: ConvictionKey)
    requires k in o.convictions
    ensures Holdings(env, o) >= o.lamports + o.convictions[k].lamports
  {
    SumRemove(o.convictions, LamportsOf, k);
    SumIsNonNegative(o.convictions - {k}, LamportsOf);
    RentIsNonNegative(|o.positions|, env.positionRent);
  }

  lemma RentIsNonNegative(count: nat, rent: nat)
    ensures count * rent >= 0
  {
  }

  lemma AllHoldingsAreNonNegative(env: Env, operators: map<Key, OperatorState>)
    ensures forall k :: k in operators ==> HoldingsOf(env)(operators[k]) >= 0
  {
    forall k | k in operators ensures HoldingsOf(env)(operators[k]) >= 0 {
      HoldingsCoverAccount(env, operators[k]);
    }
  }

  lemma WalletWithinTotal(wallets: map<Key, nat>, k: Key)
    ensures (if k in wallets then wallets[k] else 0) <= SumOver(wallets, LamportsIn)
  {
    if k in wallets {
      SumRemove(wallets, LamportsIn, k);
      SumIsNonNegative(wallets - {k}, LamportsIn);
    } else {
      SumIsNonNegative(wallets, LamportsIn);
    }
  }

  lemma HoldingsWithinTotal(env: Env, operators: map<Key, OperatorState>, k: Key)
    ensures (if k in operators then Holdings(env, operators[k]) else 0) <= SumOver(operators, HoldingsOf(env))
  {
    AllHoldingsAreNonNegative(env, operators);
    if k in operators {
      SumRemove(operators, HoldingsOf(env), k);
      SumIsNonNegative(operators - {k}, HoldingsOf(env));
    } else {
      SumIsNonNegative(operators, HoldingsOf(env));
    }
  }

  /** One wallet and one operator's accounts hold no more than there is. */
  lemma PartsWithinSupply(env: Env, l: Ledger, who: Key, op: Key)
    ensures l.Funds(who) + HeldBy(env, l.Operator(op)) + l.incinerated <= Supply(env, l)
  {
    WalletWithinTotal(l.wallets, who);
    HoldingsWithinTotal(env, l.operators, op);
    SumIsNonNegative(l.stray, LamportsIn);
  }

  ghost predicate Sound(env: Env, l: Ledger) {
    && (forall k :: k in l.operators ==> Solvent(env, l.operators[k]))
    && Supply(env, l) < U64_LIMIT
  }

  /** What `Transact` does once the instruction itself succeeded. */
  lemma StepEffect(env: Env, l: Ledger, q: Request, next: Ledger) returns (e: Effect)
    requires Transact(env, l, q) == Ok(next) && !GoesAstray(l, q)
    ensures Run(env, l.Operator(q.operator), SiteOf(l, q), q, l.Funds(q.caller)) == Ok(e)
    ensures next == Settle(l, q, e) && PrecompileAccepts(env.c, q)
  {
    e := Run(env, l.Operator(q.operator), SiteOf(l, q), q, l.Funds(q.caller)).value;
  }

  lemma AstrayConserves(env: Env, l: Ledger, q: Request, next: Ledger)
    requires q.instruction.Donate? && LeaveAt(l, q) == Ok(next)
    ensures Supply(env, next) == Supply(env, l) && next.operators == l.operators
  {
    var at := (q.operator, q.instruction.place);
    SumUpdate(l.wallets, LamportsIn, q.caller, next.wallets[q.caller]);
    SumUpdate(l.stray, LamportsIn, at, next.stray[at]);
  }

  lemma StepConserves(env: Env, l: Ledger, q: Request, next: Ledger)
    requires Transact(env, l, q) == Ok(next)
    ensures Supply(env, next) == Supply(env, l)
  {
    if GoesAstray(l, q) {
      AstrayConserves(env, l, q, next);
    } else {
      var e := StepEffect(env, l, q, next);
      RunConserves(env, l.Operator(q.operator), SiteOf(l, q), q, l.Funds(q.caller), e);
      SumUpdate(l.wallets, LamportsIn, q.caller, e.funds);
      SumUpdate(l.operators, HoldingsOf(env), q.operator, e.after);
    }
  }

  lemma StepKeepsSolvent(env: Env, l: Ledger, q: Request, next: Ledger)
    requires Sound(env, l) && Transact(env, l, q) == Ok(next)
    ensures forall k :: k in next.operators ==> Solvent(env, next.operators[k])
  {
    if GoesAstray(l, q) {
      AstrayConserves(env, l, q, next);
    } else {
      var e := StepEffect(env, l, q, next);
      RunKeepsSolvent(env, l.Operator(q.operator), SiteOf(l, q), q, l.Funds(q.caller), e);
    }
  }

  // ---- Runs ----

  /** Any sequence of requests from an opening ledger with no operators; a
      failed request leaves the ledger as it was. */
  ghost predicate IsRun(env: Env, ledgers: seq<Ledger>, requests: seq<Request>) {
    && |ledgers| == |requests| + 1
    && ledgers[0].operators == map[] && Supply(env, ledgers[0]) < U64_LIMIT
    && forall i :: 0 <= i < |requests| ==> ledgers[i + 1] == After(env, ledgers[i], requests[i])
  }

  /** Solvency and conservation over every run: at every moment each operator
      account covers its rent, bond, stake and everything its positions could
      claim, and the lamports in the ledger are exactly those it opened with. */
  lemma {:induction false} EveryRunIsSound(env: Env, ledgers: seq<Ledger>, requests: seq<Request>, n: nat)
    requires IsRun(env, ledgers, requests) && n < |ledgers|
    ensures Sound(env, ledgers[n]) && Supply(env, ledgers[n]) == Supply(env, ledgers[0])
  {
    if n > 0 {
      EveryRunIsSound(env, ledgers, requests, n - 1);
      var l, q := ledgers[n - 1], requests[n - 1];
      assert ledgers[n - 1 + 1] == After(env, l, q);
      if Transact(env, l, q).Ok? {
        StepConserves(env, l, q, Transact(env, l, q).value);
        StepKeepsSolvent(env, l, q, Transact(env, l, q).value);
      }
    }
  }

  lemma EveryRunCoversClaims(env: Env, ledgers: seq<Ledger>, requests: seq<Request>, n: nat, k: Key)
    requires IsRun(env, ledgers, requests) && n < |ledgers| && k in ledgers[n].operators
    ensures CoversClaims(env, ledgers[n].operators[k])
  {
    EveryRunIsSound(env, ledgers, requests, n);
    SolventCoversClaims(env, ledgers[n].operators[k]);
  }

  // ---- Payouts are never refused ----

  lemma ClaimFits(env: Env, o: OperatorState, k: Key)
    requires Solvent(env, o) && k in o.positions
    ensures o.positions[k].Claimable(o.pool.rewardIndex) <= o.lamports
  {
    var p, index := o.positions[k], o.pool.rewardIndex;
    MemberWithinTotal(o.positions, index, k);
    Rules.ClaimableWithinWorth(p, index);
    assert SCALE * (env.operatorRent + o.bond + o.pool.staked) >= 0;
    assert SCALE * p.Claimable(index) <= SCALE * o.lamports;
  }

  lemma ClaimSucceeds(env: Env, o: OperatorState, q: Request, funds: nat)
    requires Solvent(env, o) && q.caller in o.positions && funds + o.lamports < U64_LIMIT
    ensures ClaimRewards(env, o, q, funds, (q.operator, q.caller), true).Ok?
  {
    var earned: int := o.positions[q.caller].Claimable(o.pool.rewardIndex);
    ClaimFits(env, o, q.caller);
    ResettleKeepsSolvent(env, o, q.caller, 0, earned, 0 - earned);
    SolventKeepsFloor(env, Resettle(o, q.caller, 0, earned, 0 - earned));
  }

  lemma UnstakeSucceeds(env: Env, o: OperatorState, q: Request, funds: nat, amount: nat)
    requires Solvent(env, o) && q.caller in o.positions && funds + o.lamports < U64_LIMIT
    requires amount <= o.positions[q.caller].staked
    ensures UnstakeLamports(env, o, q, funds, (q.operator, q.caller), true, amount).Ok?
  {
    MemberWithinTotal(o.positions, o.pool.rewardIndex, q.caller);
    SolventKeepsFloor(env, o);
    ResettleKeepsSolvent(env, o, q.caller, 0 - amount, 0, 0 - amount);
    SolventKeepsFloor(env, Resettle(o, q.caller, 0 - amount, 0, 0 - amount));
  }

  lemma TakeBondSucceeds(env: Env, o: OperatorState, q: Request, funds: nat)
    requires Solvent(env, o) && funds + o.lamports < U64_LIMIT
    requires q.caller == q.operator && o.unbondAt != 0 && o.unbondAt <= q.slot
    ensures TakeBond(env, o, q, funds).Ok?
  {
    SolventKeepsFloor(env, o);
  }

  lemma SlashSucceeds(env: Env, o: OperatorState, occupied: bool, q: Request, funds: nat, key: ConvictionKey,
          ev: Evidence)
    requires WellFormed(ev.a) && WellFormed(ev.b)
    requires Solvent(env, o) && o.bond > 0 && !occupied && funds >= env.convictionRent
    ensures Slash(env, o, occupied, q, funds, key, ev).Ok?
    ensures Slash(env, o, occupied, q, funds, key, ev).value.burned <= o.lamports
  {
    SolventKeepsFloor(env, o);
    DistributeWorth(o);
  }

  lemma Room(env: Env, l: Ledger, q: Request)
    requires Sound(env, l) && q.operator in l.operators
    ensures l.Funds(q.caller) + l.operators[q.operator].lamports + l.incinerated < U64_LIMIT
  {
    PartsWithinSupply(env, l, q.caller, q.operator);
    HoldingsCoverAccount(env, l.operators[q.operator]);
  }

  /** A staker's claim is honoured in full in every reachable ledger. */
  lemma ClaimIsNeverRefused(env: Env, l: Ledger, q: Request)
    requires Sound(env, l) && q.operator in l.operators && q.caller in l.operators[q.operator].positions
    requires q.signed && PrecompileAccepts(env.c, q) && q.instruction == Claim((q.operator, q.caller))
    ensures Transact(env, l, q).Ok?
    ensures var o := l.operators[q.operator];
      Transact(env, l, q).value.Funds(q.caller) ==
      l.Funds(q.caller) + o.positions[q.caller].Claimable(o.pool.rewardIndex)
  {
    Room(env, l, q);
    ClaimSucceeds(env, l.operators[q.operator], q, l.Funds(q.caller));
  }

  /** Stake can be taken back up to exactly what the position holds. */
  lemma UnstakeIsRefusedOnlyForOverdraw(env: Env, l: Ledger, q: Request, amount: nat)
    requires Sound(env, l) && q.operator in l.operators && q.caller in l.operators[q.operator].positions
    requires q.signed && PrecompileAccepts(env.c, q) && q.instruction == Unstake((q.operator, q.caller), amount)
    ensures Transact(env, l, q).Ok? <==> amount <= l.operators[q.operator].positions[q.caller].staked
    ensures Transact(env, l, q).Ok? ==> Transact(env, l, q).value.Funds(q.caller) == l.Funds(q.caller) + amount
    ensures Transact(env, l, q).Err? ==> Transact(env, l, q).error == Refused(Overdraw)
  {
    Room(env, l, q);
    var o := l.operators[q.operator];
    MemberWithinTotal(o.positions, o.pool.rewardIndex, q.caller);
    if amount <= o.positions[q.caller].staked {
      UnstakeSucceeds(env, o, q, l.Funds(q.caller), amount);
    }
  }

  /** An unlocked bond is paid back whole. */
  lemma WithdrawIsRefusedOnlyWhileLocked(env: Env, l: Ledger, q: Request)
    requires Sound(env, l) && q.operator in l.operators && q.caller == q.operator
    requires q.signed && PrecompileAccepts(env.c, q) && q.instruction == WithdrawBond
    ensures var o := l.operators[q.operator];
      Transact(env, l, q).Ok? <==> o.unbondAt != 0 && o.unbondAt <= q.slot
    ensures Transact(env, l, q).Ok? ==>
      Transact(env, l, q).value.Funds(q.caller) == l.Funds(q.caller) + l.operators[q.operator].bond
    ensures Transact(env, l, q).Err? ==> Transact(env, l, q).error == Refused(BondLocked)
  {
    Room(env, l, q);
    var o := l.operators[q.operator];
    if o.unbondAt != 0 && o.unbondAt <= q.slot {
      TakeBondSucceeds(env, o, q, l.Funds(q.caller));
    }
  }

  /** Evidence that passes the checks convicts exactly when a bond stands, the
      conviction's address holds nothing yet and the accuser can pay its rent;
      no payout ever refuses it. */
  lemma SlashSucceedsIff(env: Env, l: Ledger, q: Request, conviction: (Key, ConvictionKey))
    requires Sound(env, l) && q.operator in l.operators
    requires q.signed && PrecompileAccepts(env.c, q) && q.instruction == ProveEquivocation(conviction, env.incinerator)
    requires CheckedEvidence(env, l.operators[q.operator], q, conviction).Ok?
    ensures Transact(env, l, q).Ok? <==>
      && l.operators[q.operator].bond > 0 && l.StrayAt((q.operator, ConvictionPlace(conviction.1))) == 0
      && l.Funds(q.caller) >= env.convictionRent
    ensures Transact(env, l, q).Err? ==>
      Transact(env, l, q).error == if l.operators[q.operator].bond == 0 then Refused(InsufficientBond) else Runtime
  {
    Room(env, l, q);
    var o, occupied := l.operators[q.operator], SiteOf(l, q).occupied;
    var evidence := CheckedEvidence(env, o, q, conviction).value;
    ProofIsSlash(env, l, q, conviction, evidence);
    if o.bond > 0 && !occupied && l.Funds(q.caller) >= env.convictionRent {
      SlashSucceeds(env, o, occupied, q, l.Funds(q.caller), conviction.1, evidence);
    }
  }

  lemma ProofIsSlash(env: Env, l: Ledger, q: Request, conviction: (Key, ConvictionKey), evidence: Evidence)
    requires q.operator in l.operators && q.signed && PrecompileAccepts(env.c, q)
    requires q.instruction == ProveEquivocation(conviction, env.incinerator)
    requires CheckedEvidence(env, l.operators[q.operator], q, conviction) == Ok(evidence)
    ensures WellFormed(evidence.a) && WellFormed(evidence.b)
    ensures var o, occupied := l.operators[q.operator], l.StrayAt((q.operator, ConvictionPlace(conviction.1))) > 0;
      Transact(env, l, q) ==
      match Slash(env, o, occupied, q, l.Funds(q.caller), conviction.1, evidence)
      case Err(e) => Err(e)
      case Ok(e) =>
        if e.burned > 0 && l.incinerated + e.burned >= U64_LIMIT then Err(Refused(Overdraw)) else Ok(Settle(l, q, e))
  {
  }

  /** A first stake also has to find its position's address empty; beyond that a
      stake is refused only for being nothing or not being there. */
  lemma StakeSucceedsIff(env: Env, l: Ledger, q: Request, amount: nat)
    requires Sound(env, l) && q.operator in l.operators
    requires q.signed && PrecompileAccepts(env.c, q) && q.instruction == Stake((q.operator, q.caller), amount)
    ensures var first := q.caller !in l.operators[q.operator].positions;
      Transact(env, l, q).Ok? <==>
        && amount > 0 && l.Funds(q.caller) >= amount + (if first then env.positionRent else 0)
        && (first ==> l.StrayAt((q.operator, PositionPlace(q.caller))) == 0)
  {
    var o := l.operators[q.operator];
    assert PoolSound(o);
  }

  /** An escrow is paid in full to whoever produces the wronged transaction. */
  lemma EscrowIsNeverRefused(env: Env, l: Ledger, q: Request, key: ConvictionKey, wire: Bytes)
    requires Sound(env, l) && q.operator in l.operators && key in l.operators[q.operator].convictions
    requires q.signed && PrecompileAccepts(env.c, q) && q.instruction == ClaimVictim(key, wire)
    requires env.c.sha256(wire) == l.operators[q.operator].convictions[key].wrongedTxHash
    requires env.payerOf(wire) == Ok(q.caller)
    ensures Transact(env, l, q).Ok?
    ensures Transact(env, l, q).value.Funds(q.caller)
         == l.Funds(q.caller) + l.operators[q.operator].convictions[key].owedToVictim
  {
    var o := l.operators[q.operator];
    PartsWithinSupply(env, l, q.caller, q.operator);
    ConvictionWithinHoldings(env, o, key);
    assert EscrowSound(env, o);
    assert PayVictim(env, o, q, l.Funds(q.caller), key, wire).Ok?;
  }

  // ---- Nobody else's instruction touches what is mine ----

  lemma RunKeepsOthers(env: Env, known: Option<OperatorState>, site: Site, q: Request, funds: nat, e: Effect, k: Key)
    requires Run(env, known, site, q, funds) == Ok(e) && k != q.caller && known.Some?
    ensures k in e.after.positions <==> k in known.value.positions
    ensures PositionAt(e.after, k) == PositionAt(known.value, k)
  {
  }

  lemma DistributeRaisesIndex(pool: Rules.PoolValue, split: Rules.Split)
    ensures Rules.Distribute(pool, split).0.rewardIndex >= pool.rewardIndex
  {
    if pool.staked > 0 {
      Rules.IndexStep(pool, split.pool);
    }
  }

  lemma OthersKeepIndex(env: Env, o: OperatorState, site: Site, q: Request, funds: nat, e: Effect)
    requires Run(env, Some(o), site, q, funds) == Ok(e) && !q.instruction.ProveEquivocation?
    ensures e.after.pool.rewardIndex == o.pool.rewardIndex
  {
  }

  lemma RunRaisesIndex(env: Env, o: OperatorState, site: Site, q: Request, funds: nat, e: Effect)
    requires Run(env, Some(o), site, q, funds) == Ok(e)
    ensures e.after.pool.rewardIndex >= o.pool.rewardIndex
  {
    if q.instruction.ProveEquivocation? {
      DistributeRaisesIndex(o.pool, Rules.SplitOf(o.bond));
    } else {
      OthersKeepIndex(env, o, site, q, funds, e);
    }
  }

  lemma FloorGrows(a: int, b: int)
    requires a <= b
    ensures a / SCALE <= b / SCALE
  {
  }

  lemma ProductGrows(s: nat, x: nat, y: nat)
    requires x <= y
    ensures s * x <= s * y
  {
  }

  lemma WorthFits(env: Env, o: OperatorState, k: Key)
    requires Solvent(env, o) && k in o.positions && o.lamports < U64_LIMIT
    ensures o.positions[k].entryIndex <= o.pool.rewardIndex
    ensures Rules.Worth(o.positions[k], o.pool.rewardIndex) < U64_LIMIT * SCALE
  {
    MemberWithinTotal(o.positions, o.pool.rewardIndex, k);
  }

  lemma ClaimableGrows(p: Rules.PositionValue, x: nat, y: nat)
    requires p.entryIndex <= x <= y
    requires Rules.Worth(p, x) < U64_LIMIT * SCALE && Rules.Worth(p, y) < U64_LIMIT * SCALE
    ensures p.Claimable(x) <= p.Claimable(y)
  {
    Rules.SettleLosesLessThanOne(p, x);
    Rules.SettleLosesLessThanOne(p, y);
    ProductGrows(p.staked, x - p.entryIndex, y - p.entryIndex);
    FloorGrows(p.staked * (x - p.entryIndex), p.staked * (y - p.entryIndex));
  }

  /** A transaction leaves every other wallet and every other operator alone,
      and only a transfer there changes what an address holds beside its books. */
  lemma OthersAreUntouched(env: Env, l: Ledger, q: Request, next: Ledger, k: Key, at: Address)
    requires Transact(env, l, q) == Ok(next)
    ensures k != q.caller ==> next.Funds(k) == l.Funds(k)
    ensures k != q.operator ==> next.Operator(k) == l.Operator(k)
    ensures next.StrayAt(at) != l.StrayAt(at) ==>
      q.instruction.Donate? && at == (q.operator, q.instruction.place) && next.StrayAt(at) > l.StrayAt(at)
  {
    if !GoesAstray(l, q) {
      var _ := StepEffect(env, l, q, next);
    }
  }

  /** And it never lowers anyone else's stake or what they can claim. */
  lemma OthersLoseNothing(env: Env, l: Ledger, q: Request, next: Ledger, k: Key)
    requires Sound(env, l) && Transact(env, l, q) == Ok(next)
    requires q.operator in l.operators && k != q.caller && k in l.operators[q.operator].positions
    ensures q.operator in next.operators && k in next.operators[q.operator].positions
    ensures var o, after := l.operators[q.operator], next.operators[q.operator];
      && after.positions[k].staked == o.positions[k].staked
      && after.positions[k].Claimable(after.pool.rewardIndex) >= o.positions[k].Claimable(o.pool.rewardIndex)
  {
    if GoesAstray(l, q) {
      AstrayConserves(env, l, q, next);
    } else {
      var e := StepEffect(env, l, q, next);
      SettledOthersLoseNothing(env, l, q, next, e, k);
    }
  }

  lemma SettledOthersLoseNothing(env: Env, l: Ledger, q: Request, next: Ledger, e: Effect, k: Key)
    requires Sound(env, l) && Transact(env, l, q) == Ok(next) && next == Settle(l, q, e)
    requires Run(env, l.Operator(q.operator), SiteOf(l, q), q, l.Funds(q.caller)) == Ok(e)
    requires q.operator in l.operators && k != q.caller && k in l.operators[q.operator].positions
    ensures k in e.after.positions && e.after.positions[k].staked == l.operators[q.operator].positions[k].staked
    ensures e.after.positions[k].Claimable(e.after.pool.rewardIndex)
         >= l.operators[q.operator].positions[k].Claimable(l.operators[q.operator].pool.rewardIndex)
  {
    var o, after := l.operators[q.operator], e.after;
    RunKeepsOthers(env, Some(o), SiteOf(l, q), q, l.Funds(q.caller), e, k);
    RunRaisesIndex(env, o, SiteOf(l, q), q, l.Funds(q.caller), e);
    StepKeepsSolvent(env, l, q, next);
    StepConserves(env, l, q, next);
    Room(env, l, q);
    Room(env, next, q);
    WorthFits(env, o, k);
    WorthFits(env, after, k);
    ClaimableGrows(o.positions[k], o.pool.rewardIndex, after.pool.rewardIndex);
  }
}
