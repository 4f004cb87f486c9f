/** The coverage pool as the ledger shows it: what a slash does with the bond,
    and what every staker gets over every run of the program. */
module PoolStory {
  import opened Base
  import Rules = Slashing
  import P = PoolRuns
  import opened Contradiction
  import opened Program
  import opened ProgramRuns
  import opened BondStory

  // ---- One slash ----

  /** Where a bond goes: three tenths to the wronged party, two tenths to those
      staked, if any, and the rest to the incinerator. */
  datatype Shares = Shares(victim: nat, pool: nat, burn: nat)

  function SharesOf(bond: nat, staked: nat): (s: Shares)
    ensures s.victim + s.pool + s.burn == bond
  {
    var victim, pool := bond * 3_000 / 10_000, if staked == 0 then 0 else bond * 2_000 / 10_000;
    Shares(victim, pool, bond - victim - pool)
  }

  /** How far a share moves the reward index. */
  function Increment(share: nat, staked: nat): nat {
    if staked == 0 then 0 else share * 1_000_000_000_000 / staked
  }

  lemma SplitIs(bond: nat)
    ensures var split := Rules.SplitOf(bond);
      && split.victim == bond * 3_000 / 10_000 && split.pool == bond * 2_000 / 10_000
      && split.burn == bond - split.victim - split.pool
  {
  }

  lemma DistributeShares(pool: Rules.PoolValue, bond: nat)
    ensures var (next, applied) := Rules.Distribute(pool, Rules.SplitOf(bond));
      var shares := SharesOf(bond, pool.staked);
      && applied == Rules.Split(shares.burn, shares.victim, shares.pool)
      && next == pool.(rewardIndex := pool.rewardIndex + Increment(shares.pool, pool.staked))
  {
    SplitIs(bond);
    ZeroIncrement(pool.staked);
    var split, shares := Rules.SplitOf(bond), SharesOf(bond, pool.staked);
    if pool.staked > 0 && split.pool > 0 {
      assert split == Rules.Split(shares.burn, shares.victim, shares.pool);
    }
  }

  lemma ZeroIncrement(staked: nat)
    ensures Increment(0, staked) == 0
  {
  }

  /** One slash of one operator's accounts, and what it files under `key`. */
  predicate SharedOut(env: Env, o: OperatorState, slot: nat, key: ConvictionKey, after: OperatorState) {
    var shares := SharesOf(o.bond, o.pool.staked);
    && after.bond == 0 && after.lamports == o.lamports - shares.burn - shares.victim
    && after.positions == o.positions && after.pool.staked == o.pool.staked
    && after.pool.rewardIndex == o.pool.rewardIndex + Increment(shares.pool, o.pool.staked)
    && key in after.convictions
    && var filed := after.convictions[key];
       && filed.slashed == o.bond && filed.slot == slot
       && filed.owedToVictim == shares.victim && filed.lamports == env.convictionRent + shares.victim
  }

  lemma SlashSharesOut(env: Env, o: OperatorState, occupied: bool, q: Request, funds: nat, key: ConvictionKey,
          ev: Evidence, e: Effect)
    requires WellFormed(ev.a) && WellFormed(ev.b)
    requires Slash(env, o, occupied, q, funds, key, ev) == Ok(e)
    ensures o.bond > 0 && SharedOut(env, o, q.slot, key, e.after)
    ensures e.burned == SharesOf(o.bond, o.pool.staked).burn && e.funds == funds - env.convictionRent
  {
    DistributeShares(o.pool, o.bond);
  }

  lemma ConvictionShares(env: Env, l: Ledger, q: Request, next: Ledger)
    requires Transact(env, l, q) == Ok(next) && q.instruction.ProveEquivocation?
    ensures q.operator in l.operators && q.operator in next.operators && l.operators[q.operator].bond > 0
    ensures SharedOut(env, l.operators[q.operator], q.slot, q.instruction.conviction.1, next.operators[q.operator])
    ensures q.instruction.conviction.1 !in l.operators[q.operator].convictions
    ensures var o := l.operators[q.operator];
      && next.incinerated == l.incinerated + SharesOf(o.bond, o.pool.staked).burn
      && next.Funds(q.caller) == l.Funds(q.caller) - env.convictionRent
  {
    var e := StepEffect(env, l, q, next);
    var o, conviction := l.operators[q.operator], q.instruction.conviction;
    var ev := CheckedEvidence(env, o, q, conviction).value;
    SlashSharesOut(env, o, SiteOf(l, q).occupied, q, l.Funds(q.caller), conviction.1, ev, e);
  }

  /** Raising the index by the pool's share raises what the positions are worth
      together by that share, to within one index unit per staked lamport. */
  lemma ShareIsCredited(o: OperatorState, share: nat)
    requires PoolSound(o) && (o.pool.staked == 0 ==> share == 0)
    ensures var before := P.TotalWorth(o.positions, o.pool.rewardIndex);
      var now := P.TotalWorth(o.positions, o.pool.rewardIndex + Increment(share, o.pool.staked));
      && now <= before + share * SCALE
      && (o.pool.staked > 0 ==> now > before + share * SCALE - o.pool.staked)
  {
    if o.pool.staked > 0 {
      P.TotalWorthAfterSlash(o.positions, o.pool, share);
    }
  }

  /** The stakers of `o` together have the pool's share of its bond. */
  ghost predicate Credited(o: OperatorState, after: OperatorState) {
    var share, before := SharesOf(o.bond, o.pool.staked).pool, P.TotalWorth(o.positions, o.pool.rewardIndex);
    var now := P.TotalWorth(after.positions, after.pool.rewardIndex);
    now <= before + share * SCALE && (o.pool.staked > 0 ==> now > before + share * SCALE - o.pool.staked)
  }

  lemma SharingCredits(env: Env, o: OperatorState, slot: nat, key: ConvictionKey, after: OperatorState)
    requires PoolSound(o) && SharedOut(env, o, slot, key, after)
    ensures Credited(o, after)
  {
    ShareIsCredited(o, SharesOf(o.bond, o.pool.staked).pool);
  }

  /** What the ledger shows after a conviction: the bond is shared out whole, the
      escrow is funded with the victim's share, the incinerator has the burn, and
      the positions together are worth the pool's share more, to within one
      index unit per staked lamport. */
  lemma SlashPaysEveryone(env: Env, l: Ledger, q: Request, next: Ledger)
    requires Sound(env, l) && Transact(env, l, q) == Ok(next) && q.instruction.ProveEquivocation?
    ensures q.instruction.burnTo == env.incinerator
    ensures q.operator in l.operators && q.operator in next.operators && l.operators[q.operator].bond > 0
    ensures q.instruction.conviction.1 !in l.operators[q.operator].convictions
    ensures var o, after := l.operators[q.operator], next.operators[q.operator];
      && SharedOut(env, o, q.slot, q.instruction.conviction.1, after) && Credited(o, after)
      && next.incinerated == l.incinerated + SharesOf(o.bond, o.pool.staked).burn
      && next.Funds(q.caller) == l.Funds(q.caller) - env.convictionRent
  {
    ConvictionShares(env, l, q, next);
    var o, after := l.operators[q.operator], next.operators[q.operator];
    assert Solvent(env, o);
    SharingCredits(env, o, q.slot, q.instruction.conviction.1, after);
  }

  // ---- A whole run ----

  /** What a request that went through means to the operator's pool. */
  function EventOf(o: OperatorState, q: Request): Option<P.Event> {
    match q.instruction
    case Stake(_, amount) => Some(P.Stakes(q.caller, amount))
    case Unstake(_, amount) => Some(P.Unstakes(q.caller, amount))
    case Claim(_) => Some(P.Claims(q.caller))
    case ProveEquivocation(_, _) => Some(P.Slashes(o.bond))
    case _ => None
  }

  /** The pool's book after a request, if it concerned the pool. */
  function NextBook(b: P.Book, o: OperatorState, q: Request): P.Book {
    match EventOf(o, q) case Some(e) => P.Step(b, e) case None => b
  }

  /** `b` is the book of this operator's pool. An operator whose bond stands has
      not been slashed yet. */
  ghost predicate Mirrors(b: P.Book, o: OperatorState) {
    && b.pool == o.pool && b.positions == o.positions
    && b.distributed < U64_LIMIT && (o.bond > 0 ==> b.distributed == 0)
  }

  lemma SettlingMirrors(env: Env, b: P.Book, o: OperatorState, site: Site, q: Request, funds: nat, e: Effect)
    requires Mirrors(b, o) && Run(env, Some(o), site, q, funds) == Ok(e)
    requires q.instruction.Stake? || q.instruction.Unstake? || q.instruction.Claim?
    ensures Mirrors(NextBook(b, o, q), e.after)
  {
  }

  lemma SlashMirrors(env: Env, b: P.Book, o: OperatorState, site: Site, q: Request, funds: nat, e: Effect)
    requires Mirrors(b, o) && Run(env, Some(o), site, q, funds) == Ok(e) && q.instruction.ProveEquivocation?
    requires o.bond < U64_LIMIT
    ensures Mirrors(NextBook(b, o, q), e.after)
  {
  }

  lemma OtherMirrors(env: Env, b: P.Book, o: OperatorState, site: Site, q: Request, funds: nat, e: Effect)
    requires Mirrors(b, o) && Run(env, Some(o), site, q, funds) == Ok(e) && EventOf(o, q).None?
    ensures Mirrors(b, e.after)
  {
  }

  lemma RunMirrors(env: Env, b: P.Book, o: OperatorState, site: Site, q: Request, funds: nat, e: Effect)
    requires Mirrors(b, o) && Run(env, Some(o), site, q, funds) == Ok(e) && o.bond < U64_LIMIT
    ensures Mirrors(NextBook(b, o, q), e.after)
  {
    if EventOf(o, q).None? {
      OtherMirrors(env, b, o, site, q, funds, e);
    } else if q.instruction.ProveEquivocation? {
      SlashMirrors(env, b, o, site, q, funds, e);
    } else {
      SettlingMirrors(env, b, o, site, q, funds, e);
    }
  }

  // ---- What one staker gets ----

  /** What the ledgers show of one staker's dealings with one pool: the lamports
      its claims brought, the exact shares of the slashes it stood behind, its
      calls, and the stake it had at those slashes. */
  datatype Return = Return(paid: int, due: real, calls: nat, exposure: nat)

  const NOTHING := Return(0, 0.0, 0, 0)

  /** One request that went through, and staker `k`. */
  ghost function Received(o: OperatorState, before: Ledger, q: Request, after: Ledger, k: Key, r: Return): Return {
    match q.instruction
    case Stake(_, _) => if q.caller == k then r.(calls := r.calls + 1) else r
    case Unstake(_, _) => if q.caller == k then r.(calls := r.calls + 1) else r
    case Claim(_) =>
      if q.caller == k then r.(paid := r.paid + after.Funds(k) - before.Funds(k), calls := r.calls + 1) else r
    case ProveEquivocation(_, _) =>
      var share, stake := SharesOf(o.bond, o.pool.staked).pool, PositionAt(o, k).staked;
      if share == 0 then r
      else r.(due := r.due + P.ProRata(share, stake, o.pool.staked), exposure := r.exposure + stake)
    case _ => r
  }

  /** Staker `k`'s return from operator `op`'s pool over the first `n` requests. */
  ghost function ReturnOf(env: Env, ledgers: seq<Ledger>, requests: seq<Request>, op: Key, k: Key, n: nat): Return
    requires n <= |requests| < |ledgers|
  {
    if n == 0 then NOTHING
    else
      var l, q, r := ledgers[n - 1], requests[n - 1], ReturnOf(env, ledgers, requests, op, k, n - 1);
      if Succeeds(env, l, q, op) && op in l.operators
      then Received(l.operators[op], l, q, ledgers[n], k, r)
      else r
  }

  predicate Tells(h: P.History, r: Return) {
    h.paid == r.paid && h.exact == r.due && h.settlements == r.calls && h.exposure == r.exposure
  }

  lemma SettlingTells(env: Env, b: P.Book, l: Ledger, q: Request, next: Ledger, k: Key, r: Return)
    requires q.operator in l.operators && Mirrors(b, l.operators[q.operator]) && Transact(env, l, q) == Ok(next)
    requires q.instruction.Stake? || q.instruction.Unstake? || q.instruction.Claim?
    requires Tells(b.HistoryOf(k), r)
    ensures var o := l.operators[q.operator]; Tells(NextBook(b, o, q).HistoryOf(k), Received(o, l, q, next, k, r))
  {
    var e := StepEffect(env, l, q, next);
    var o := l.operators[q.operator];
    if q.instruction.Claim? {
      ClaimEffect(env, o, q, l.Funds(q.caller), q.instruction.position, SiteOf(l, q).present, e);
    }
  }

  lemma NoStakeNoShare(share: nat, total: nat)
    requires total > 0
    ensures P.ProRata(share, 0, total) == 0.0
  {
  }

  lemma SlashTells(b: P.Book, o: OperatorState, before: Ledger, q: Request, after: Ledger, k: Key, r: Return)
    requires Mirrors(b, o) && q.instruction.ProveEquivocation? && b.positions.Keys == b.history.Keys
    requires Tells(b.HistoryOf(k), r)
    ensures Tells(NextBook(b, o, q).HistoryOf(k), Received(o, before, q, after, k, r))
  {
    DistributeShares(o.pool, o.bond);
    var share := SharesOf(o.bond, o.pool.staked).pool;
    if share > 0 && k !in b.positions {
      NoStakeNoShare(share, o.pool.staked);
    }
  }

  lemma StepTells(env: Env, b: P.Book, l: Ledger, q: Request, next: Ledger, k: Key, r: Return)
    requires q.operator in l.operators && Mirrors(b, l.operators[q.operator]) && Transact(env, l, q) == Ok(next)
    requires b.positions.Keys == b.history.Keys && Tells(b.HistoryOf(k), r)
    ensures var o := l.operators[q.operator]; Tells(NextBook(b, o, q).HistoryOf(k), Received(o, l, q, next, k, r))
  {
    if q.instruction.ProveEquivocation? {
      SlashTells(b, l.operators[q.operator], l, q, next, k, r);
    } else if EventOf(l.operators[q.operator], q).Some? {
      SettlingTells(env, b, l, q, next, k, r);
    }
  }

  // ---- Every run has its book ----

  lemma Unmoved(env: Env, l: Ledger, q: Request, op: Key)
    requires !Succeeds(env, l, q, op)
    ensures After(env, l, q).Operator(op) == l.Operator(op)
  {
    if Transact(env, l, q).Ok? && !GoesAstray(l, q) {
      var e := StepEffect(env, l, q, After(env, l, q));
    }
  }

  lemma RegisteredEmpty(env: Env, l: Ledger, q: Request, op: Key)
    requires op !in l.operators && op in After(env, l, q).operators
    ensures Mirrors(P.OPENING, After(env, l, q).operators[op])
  {
    if !Succeeds(env, l, q, op) {
      Unmoved(env, l, q, op);
    } else {
      var e := StepEffect(env, l, q, After(env, l, q));
      StepMovesBond(env, l, q, After(env, l, q));
    }
  }

  lemma StaysRegistered(env: Env, l: Ledger, q: Request, op: Key)
    ensures op in l.operators ==> op in After(env, l, q).operators
  {
    if !Succeeds(env, l, q, op) {
      Unmoved(env, l, q, op);
    } else {
      StepMovesBond(env, l, q, After(env, l, q));
    }
  }

  lemma {:induction false} NothingBefore(env: Env, ledgers: seq<Ledger>, requests: seq<Request>, op: Key, k: Key,
          n: nat)
    requires IsRun(env, ledgers, requests) && n <= |requests| && op !in ledgers[n].operators
    ensures ReturnOf(env, ledgers, requests, op, k, n) == NOTHING
  {
    if n > 0 {
      StaysRegistered(env, ledgers[n - 1], requests[n - 1], op);
      assert ledgers[n] == After(env, ledgers[n - 1], requests[n - 1]);
      NothingBefore(env, ledgers, requests, op, k, n - 1);
    }
  }

  /** `b` is the book of operator `op`'s pool after `n` requests, and says of
      every staker what the ledgers show. */
  ghost predicate Records(env: Env, ledgers: seq<Ledger>, requests: seq<Request>, op: Key, n: nat, b: P.Book)
    requires n <= |requests| < |ledgers| && op in ledgers[n].operators
  {
    && Mirrors(b, ledgers[n].operators[op])
    && forall k :: Tells(b.HistoryOf(k), ReturnOf(env, ledgers, requests, op, k, n))
  }

  lemma RequestIsRecorded(env: Env, ledgers: seq<Ledger>, requests: seq<Request>, op: Key, n: nat, b: P.Book)
    requires IsRun(env, ledgers, requests) && 0 < n <= |requests|
    requires op in ledgers[n - 1].operators && Succeeds(env, ledgers[n - 1], requests[n - 1], op)
    requires Records(env, ledgers, requests, op, n - 1, b) && b.positions.Keys == b.history.Keys
    ensures op in ledgers[n].operators
    ensures Records(env, ledgers, requests, op, n, NextBook(b, ledgers[n - 1].operators[op], requests[n - 1]))
  {
    var l, q, next := ledgers[n - 1], requests[n - 1], ledgers[n];
    assert next == After(env, l, q);
    EveryRunIsSound(env, ledgers, requests, n - 1);
    BondIsSmall(env, l, q);
    var e := StepEffect(env, l, q, next);
    RunMirrors(env, b, l.operators[op], SiteOf(l, q), q, l.Funds(q.caller), e);
    forall k ensures Tells(NextBook(b, l.operators[op], q).HistoryOf(k), ReturnOf(env, ledgers, requests, op, k, n)) {
      StepTells(env, b, l, q, next, k, ReturnOf(env, ledgers, requests, op, k, n - 1));
    }
  }

  lemma BondIsSmall(env: Env, l: Ledger, q: Request)
    requires Sound(env, l) && q.operator in l.operators
    ensures l.operators[q.operator].bond < U64_LIMIT
  {
    Room(env, l, q);
    SolventKeepsFloor(env, l.operators[q.operator]);
  }

  lemma BookGrows(books: seq<P.Book>, events: seq<P.Event>, e: P.Event)
    requires P.IsRun(books, events)
    ensures P.IsRun(books + [P.Step(books[|events|], e)], events + [e])
  {
  }

  /** Seen from one operator's pool, every run of the program is a run of stakes,
      unstakes, claims and slashes. */
  lemma {:induction false} EveryRunHasABook(env: Env, ledgers: seq<Ledger>, requests: seq<Request>, op: Key, n: nat)
    returns (books: seq<P.Book>, events: seq<P.Event>)
    requires IsRun(env, ledgers, requests) && n <= |requests| && op in ledgers[n].operators
    ensures P.IsRun(books, events) && Records(env, ledgers, requests, op, n, books[|events|])
  {
    var l, q := ledgers[n - 1], requests[n - 1];
    assert ledgers[n] == After(env, l, q);
    if op !in l.operators {
      books, events := [P.OPENING], [];
      RegisteredEmpty(env, l, q, op);
      forall k ensures ReturnOf(env, ledgers, requests, op, k, n) == NOTHING {
        NothingBefore(env, ledgers, requests, op, k, n - 1);
      }
    } else {
      books, events := EveryRunHasABook(env, ledgers, requests, op, n - 1);
      if Succeeds(env, l, q, op) {
        P.RunIsSound(books, events, |events|);
        RequestIsRecorded(env, ledgers, requests, op, n, books[|events|]);
        if EventOf(l.operators[op], q).Some? {
          var e := EventOf(l.operators[op], q).value;
          BookGrows(books, events, e);
          books, events := books + [P.Step(books[|events|], e)], events + [e];
        }
      } else {
        Unmoved(env, l, q, op);
      }
    }
  }

  /** Every staker is paid by the rule "split each slash pro rata among those
      staked at that moment": at every moment of every run of the program, the
      lamports its claims brought and those it can still claim never exceed its
      exact share, and fall short of it by at most one lamport per call, one for
      the pending accrual, and one index unit per lamport and slash it stood
      behind. */
  lemma StakersGetTheirShare(env: Env, ledgers: seq<Ledger>, requests: seq<Request>, op: Key, k: Key, n: nat)
    requires IsRun(env, ledgers, requests) && n <= |requests| && op in ledgers[n].operators
    ensures var o, r := ledgers[n].operators[op], ReturnOf(env, ledgers, requests, op, k, n);
      var got := r.paid + PositionAt(o, k).Claimable(o.pool.rewardIndex);
      got as real <= r.due <= (got + r.calls + 1) as real + r.exposure as real / SCALE as real
  {
    var books, events := EveryRunHasABook(env, ledgers, requests, op, n);
    P.PaidTracksExactShare(books, events, |events|, k);
    assert Tells(books[|events|].HistoryOf(k), ReturnOf(env, ledgers, requests, op, k, n));
  }
}
