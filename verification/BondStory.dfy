/** The life of a bond and of an escrow over every run of the program. */
module BondStory {
  import opened Base
  import Rules = Slashing
  import opened Contradiction
  import opened Program
  import opened ProgramRuns

  // ---- One instruction ----

  /** How one instruction may move the bond and its lock. */
  predicate BondMoves(known: Option<OperatorState>, q: Request, after: OperatorState) {
    match q.instruction
    case Register(signingKey, bond) =>
      && q.signed && q.caller == q.operator
      && known.None? && after.bond == bond > 0 && after.unbondAt == 0 && after.signingKey == signingKey
    case ProveEquivocation(conviction, _) =>
      known.Some? && known.value.bond > 0 && after.bond == 0 && after.unbondAt == known.value.unbondAt
    case WithdrawBond =>
      && q.signed && q.caller == q.operator
      && known.Some? && 0 < known.value.unbondAt <= q.slot && after.bond == 0 && after.unbondAt == 0
    case BeginUnbond =>
      && q.signed && q.caller == q.operator
      && known.Some? && known.value.bond > 0 && after.bond == known.value.bond
      && after.unbondAt == if known.value.unbondAt == 0 then q.slot + 216_000 else known.value.unbondAt
    case _ => known.Some? && after.bond == known.value.bond && after.unbondAt == known.value.unbondAt
  }

  /** The signing key is fixed at registration. */
  predicate KeepsKey(known: Option<OperatorState>, after: OperatorState) {
    known.Some? ==> after.signingKey == known.value.signingKey
  }

  lemma RunMovesBond(env: Env, known: Option<OperatorState>, site: Site, q: Request, funds: nat, e: Effect)
    requires Run(env, known, site, q, funds) == Ok(e)
    ensures BondMoves(known, q, e.after) && KeepsKey(known, e.after)
  {
  }

  lemma StepMovesBond(env: Env, l: Ledger, q: Request, next: Ledger)
    requires Transact(env, l, q) == Ok(next) && !GoesAstray(l, q)
    ensures q.operator in next.operators
    ensures BondMoves(l.Operator(q.operator), q, next.operators[q.operator])
    ensures KeepsKey(l.Operator(q.operator), next.operators[q.operator])
    ensures forall k :: k != q.operator ==> next.Operator(k) == l.Operator(k)
  {
    var e := StepEffect(env, l, q, next);
    RunMovesBond(env, l.Operator(q.operator), SiteOf(l, q), q, l.Funds(q.caller), e);
  }

  // ---- An operator's story ----

  /** What one operator's accounts went through: their state before and after
      each request, the requests, and which of them succeeded for it. */
  datatype Story = Story(states: seq<Option<OperatorState>>, requests: seq<Request>, done: seq<bool>) {
    predicate Fits() { |states| == |requests| + 1 == |done| + 1 }

    predicate SlashAt(i: nat)
      requires Fits() && i < |requests|
    {
      done[i] && requests[i].instruction.ProveEquivocation?
    }

    /** A withdrawal that pays something. */
    predicate WithdrawalAt(i: nat)
      requires Fits() && i < |requests|
    {
      done[i] && requests[i].instruction.WithdrawBond? && states[i].Some? && states[i].value.bond > 0
    }

    predicate UnbondAt(i: nat)
      requires Fits() && i < |requests|
    {
      done[i] && requests[i].instruction.BeginUnbond?
    }

    predicate RegisterAt(i: nat)
      requires Fits() && i < |requests|
    {
      done[i] && requests[i].instruction.Register?
    }

    predicate EscrowClaimedAt(c: ConvictionKey, i: nat)
      requires Fits() && i < |requests|
    {
      done[i] && requests[i].instruction.ClaimVictim? && requests[i].instruction.escrow == c
    }

    /** How many times the bond was slashed or paid back before `n`. */
    function Departures(n: nat): nat
      requires Fits() && n <= |requests|
    {
      if n == 0 then 0 else Departures(n - 1) + if SlashAt(n - 1) || WithdrawalAt(n - 1) then 1 else 0
    }

    /** What was paid out of escrow `c` before `n`. */
    function EscrowPaid(c: ConvictionKey, n: nat): nat
      requires Fits() && n <= |requests|
    {
      if n == 0 then 0 else EscrowPaid(c, n - 1) + if EscrowClaimedAt(c, n - 1) then OwedOn(states[n - 1], c) else 0
    }
  }

  function OwedOn(o: Option<OperatorState>, c: ConvictionKey): nat {
    if o.Some? && c in o.value.convictions then o.value.convictions[c].owedToVictim else 0
  }

  /** The request went through and reached operator `k`'s own accounts. */
  predicate Succeeds(env: Env, l: Ledger, q: Request, k: Key) {
    q.operator == k && !GoesAstray(l, q) && Transact(env, l, q).Ok?
  }

  /** The story of operator `k` in a run. */
  function StoryOf(env: Env, ledgers: seq<Ledger>, requests: seq<Request>, k: Key): (s: Story)
    requires |ledgers| == |requests| + 1
    ensures s.Fits() && s.requests == requests
    ensures forall i :: 0 <= i < |ledgers| ==> s.states[i] == ledgers[i].Operator(k)
    ensures forall i :: 0 <= i < |requests| ==> s.done[i] == Succeeds(env, ledgers[i], requests[i], k)
  {
    Story(seq(|ledgers|, i requires 0 <= i < |ledgers| => ledgers[i].Operator(k)), requests,
          seq(|requests|, i requires 0 <= i < |requests| => Succeeds(env, ledgers[i], requests[i], k)))
  }

  /** One step of a story. */
  ghost predicate Moves(before: Option<OperatorState>, q: Request, done: bool, after: Option<OperatorState>) {
    && (done ==>
          && after.Some? && BondMoves(before, q, after.value) && KeepsKey(before, after.value)
          && forall c :: EscrowMoves(before, q, after.value, c))
    && (!done ==> after == before)
  }

  ghost predicate IsStory(s: Story) {
    && s.Fits() && s.states[0] == None
    && forall i :: 0 <= i < |s.requests| ==> Moves(s.states[i], s.requests[i], s.done[i], s.states[i + 1])
  }

  // ---- Escrows ----

  /** How one instruction may move the escrow of conviction `c`. */
  predicate EscrowMoves(known: Option<OperatorState>, q: Request, after: OperatorState, c: ConvictionKey) {
    var held := known.Some? && c in known.value.convictions;
    if held then
      && c in after.convictions
      && after.convictions[c].slashed == known.value.convictions[c].slashed
      && after.convictions[c].owedToVictim ==
         if q.instruction.ClaimVictim? && q.instruction.escrow == c then 0 else known.value.convictions[c].owedToVictim
    else c in after.convictions ==>
      && known.Some? && q.instruction.ProveEquivocation?
      && after.convictions[c].slashed == known.value.bond
      && after.convictions[c].owedToVictim == Rules.SplitOf(known.value.bond).victim
  }

  lemma SlashMovesEscrow(env: Env, o: OperatorState, occupied: bool, q: Request, funds: nat,
          conviction: (Key, ConvictionKey), e: Effect, c: ConvictionKey)
    requires q.instruction.ProveEquivocation? && Prove(env, o, occupied, q, funds, conviction) == Ok(e)
    ensures EscrowMoves(Some(o), q, e.after, c)
  {
    var evidence := CheckedEvidence(env, o, q, conviction).value;
    assert conviction.1 !in o.convictions;
    assert Slash(env, o, occupied, q, funds, conviction.1, evidence) == Ok(e);
  }

  lemma PayVictimMovesEscrow(env: Env, o: OperatorState, q: Request, funds: nat, escrow: ConvictionKey, wire: Bytes,
          e: Effect, c: ConvictionKey)
    requires q.instruction == ClaimVictim(escrow, wire) && PayVictim(env, o, q, funds, escrow, wire) == Ok(e)
    ensures EscrowMoves(Some(o), q, e.after, c)
    ensures escrow in o.convictions && e.funds == funds + o.convictions[escrow].owedToVictim
  {
  }

  /** No other instruction touches a conviction. */
  lemma OthersKeepConvictions(env: Env, known: Option<OperatorState>, site: Site, q: Request, funds: nat, e: Effect)
    requires Run(env, known, site, q, funds) == Ok(e)
    requires !q.instruction.ProveEquivocation? && !q.instruction.ClaimVictim?
    ensures e.after.convictions == if known.Some? then known.value.convictions else map[]
  {
  }

  lemma RunMovesEscrow(env: Env, known: Option<OperatorState>, site: Site, q: Request, funds: nat, e: Effect,
          c: ConvictionKey)
    requires Run(env, known, site, q, funds) == Ok(e)
    ensures EscrowMoves(known, q, e.after, c)
    ensures q.instruction.ClaimVictim? && q.instruction.escrow == c ==>
      known.Some? && c in known.value.convictions && e.funds == funds + known.value.convictions[c].owedToVictim
  {
    match q.instruction
    case ProveEquivocation(conviction, _) =>
      SlashMovesEscrow(env, known.value, site.occupied, q, funds, conviction, e, c);
    case ClaimVictim(escrow, wire) => PayVictimMovesEscrow(env, known.value, q, funds, escrow, wire, e, c);
    case _ => OthersKeepConvictions(env, known, site, q, funds, e);
  }

  /** An escrow goes only to the payer of the very transaction the log lied to. */
  lemma EscrowNeedsTransaction(env: Env, l: Ledger, q: Request, next: Ledger)
    requires Transact(env, l, q) == Ok(next) && q.instruction.ClaimVictim?
    ensures q.operator in l.operators && q.instruction.escrow in l.operators[q.operator].convictions
    ensures q.signed && env.payerOf(q.instruction.wire) == Ok(q.caller)
    ensures env.c.sha256(q.instruction.wire) == l.operators[q.operator].convictions[q.instruction.escrow].wrongedTxHash
  {
    var e := StepEffect(env, l, q, next);
  }

  lemma StepMoves(env: Env, l: Ledger, q: Request, k: Key)
    ensures Moves(l.Operator(k), q, Succeeds(env, l, q, k), After(env, l, q).Operator(k))
  {
    if Transact(env, l, q).Ok? && GoesAstray(l, q) {
      AstrayConserves(env, l, q, Transact(env, l, q).value);
    } else if Transact(env, l, q).Ok? {
      var next := Transact(env, l, q).value;
      StepMovesBond(env, l, q, next);
      var e := StepEffect(env, l, q, next);
      forall c ensures EscrowMoves(l.Operator(q.operator), q, e.after, c) {
        RunMovesEscrow(env, l.Operator(q.operator), SiteOf(l, q), q, l.Funds(q.caller), e, c);
      }
    }
  }

  lemma RunTellsStory(env: Env, ledgers: seq<Ledger>, requests: seq<Request>, k: Key)
    requires IsRun(env, ledgers, requests)
    ensures IsStory(StoryOf(env, ledgers, requests, k))
  {
    var s := StoryOf(env, ledgers, requests, k);
    forall i | 0 <= i < |requests| ensures Moves(s.states[i], s.requests[i], s.done[i], s.states[i + 1]) {
      assert ledgers[i + 1] == After(env, ledgers[i], requests[i]);
      StepMoves(env, ledgers[i], requests[i], k);
    }
  }

  /** A claim pays the claimant exactly what the escrow owed. */
  lemma ClaimPaysOwed(env: Env, l: Ledger, q: Request, next: Ledger)
    requires Transact(env, l, q) == Ok(next) && q.instruction.ClaimVictim?
    ensures next.Funds(q.caller) == l.Funds(q.caller) + OwedOn(l.Operator(q.operator), q.instruction.escrow)
  {
    var e := StepEffect(env, l, q, next);
    RunMovesEscrow(env, l.Operator(q.operator), SiteOf(l, q), q, l.Funds(q.caller), e, q.instruction.escrow);
  }

  // ---- The bond leaves once ----

  function Gone(o: Option<OperatorState>): nat { if o.Some? && o.value.bond == 0 then 1 else 0 }

  /** In every story the bond is either still there and never left, or gone and
      left exactly once - slashed whole or withdrawn, not both. */
  lemma {:induction false} DeparturesCount(s: Story, n: nat)
    requires IsStory(s) && n <= |s.requests|
    ensures s.Departures(n) == Gone(s.states[n])
  {
    if n > 0 {
      DeparturesCount(s, n - 1);
      assert Moves(s.states[n - 1], s.requests[n - 1], s.done[n - 1], s.states[n - 1 + 1]);
    }
  }

  lemma BondLeavesOnce(env: Env, ledgers: seq<Ledger>, requests: seq<Request>, k: Key, n: nat)
    requires IsRun(env, ledgers, requests) && n <= |requests|
    ensures StoryOf(env, ledgers, requests, k).Departures(n)
         == if k in ledgers[n].operators && ledgers[n].operators[k].bond == 0 then 1 else 0
  {
    RunTellsStory(env, ledgers, requests, k);
    DeparturesCount(StoryOf(env, ledgers, requests, k), n);
  }

  /** Since its registration: the bond posted there or none, and the key named
      there. */
  predicate AsPosted(o: Option<OperatorState>, q: Request) {
    && o.Some? && q.instruction.Register?
    && (o.value.bond == 0 || o.value.bond == q.instruction.bond)
    && o.value.signingKey == q.instruction.signingKey
  }

  lemma {:induction false} StaysAsPosted(s: Story, n: nat) returns (r: nat)
    requires IsStory(s) && n <= |s.requests| && s.states[n].Some?
    ensures r < n && s.RegisterAt(r) && AsPosted(s.states[n], s.requests[r])
  {
    assert n > 0;
    assert Moves(s.states[n - 1], s.requests[n - 1], s.done[n - 1], s.states[n - 1 + 1]);
    if s.states[n - 1].Some? {
      r := StaysAsPosted(s, n - 1);
    } else {
      r := n - 1;
    }
  }

  /** While it stands the bond is exactly what was posted at registration,
      behind the key named there. */
  lemma BondIsAsPosted(env: Env, ledgers: seq<Ledger>, requests: seq<Request>, k: Key, n: nat) returns (r: nat)
    requires IsRun(env, ledgers, requests) && n <= |requests| && k in ledgers[n].operators
    ensures r < n && StoryOf(env, ledgers, requests, k).RegisterAt(r)
    ensures AsPosted(ledgers[n].Operator(k), requests[r])
  {
    RunTellsStory(env, ledgers, requests, k);
    r := StaysAsPosted(StoryOf(env, ledgers, requests, k), n);
  }

  /** A pending lock was started by the operator, `UNBOND_SLOTS` earlier. */
  lemma {:induction false} LockWasAskedFor(s: Story, n: nat) returns (j: nat)
    requires IsStory(s) && n <= |s.requests| && s.states[n].Some? && s.states[n].value.unbondAt != 0
    ensures j < n && s.UnbondAt(j) && s.requests[j].caller == s.requests[j].operator
    ensures s.states[n].value.unbondAt == s.requests[j].slot + Rules.UNBOND_SLOTS
  {
    assert n > 0;
    assert Moves(s.states[n - 1], s.requests[n - 1], s.done[n - 1], s.states[n - 1 + 1]);
    if s.states[n - 1].Some? && s.states[n - 1].value.unbondAt != 0 {
      j := LockWasAskedFor(s, n - 1);
    } else {
      j := n - 1;
    }
  }

  /** Any withdrawal comes at least `UNBOND_SLOTS` after the operator's request
      for it, and until it happens the bond stands whole behind the log. */
  lemma WithdrawalWaits(env: Env, ledgers: seq<Ledger>, requests: seq<Request>, k: Key, i: nat) returns (j: nat)
    requires IsRun(env, ledgers, requests) && i < |requests| && StoryOf(env, ledgers, requests, k).WithdrawalAt(i)
    ensures j < i && StoryOf(env, ledgers, requests, k).UnbondAt(j) && requests[j].caller == requests[j].operator
    ensures requests[j].slot + Rules.UNBOND_SLOTS <= requests[i].slot
    ensures StoryOf(env, ledgers, requests, k).Departures(i) == 0
  {
    RunTellsStory(env, ledgers, requests, k);
    var s := StoryOf(env, ledgers, requests, k);
    assert Moves(s.states[i], s.requests[i], s.done[i], s.states[i + 1]);
    j := LockWasAskedFor(s, i);
    DeparturesCount(s, i);
  }

  /** At every moment of every run, locked or not, evidence that passes the
      checks convicts exactly when the bond has not left, nobody has put lamports
      at the conviction's address, and the accuser can pay its rent. */
  lemma BondIsSlashableIff(env: Env, ledgers: seq<Ledger>, requests: seq<Request>, n: nat, q: Request,
          conviction: (Key, ConvictionKey))
    requires IsRun(env, ledgers, requests) && n <= |requests| && q.operator in ledgers[n].operators
    requires q.signed && PrecompileAccepts(env.c, q) && q.instruction == ProveEquivocation(conviction, env.incinerator)
    requires CheckedEvidence(env, ledgers[n].operators[q.operator], q, conviction).Ok?
    ensures Transact(env, ledgers[n], q).Ok? <==>
      && StoryOf(env, ledgers, requests, q.operator).Departures(n) == 0
      && ledgers[n].StrayAt((q.operator, ConvictionPlace(conviction.1))) == 0
      && ledgers[n].Funds(q.caller) >= env.convictionRent
  {
    EveryRunIsSound(env, ledgers, requests, n);
    BondLeavesOnce(env, ledgers, requests, q.operator, n);
    SlashSucceedsIff(env, ledgers[n], q, conviction);
  }

  // ---- An escrow is paid at most once ----

  /** Paid so far and still owed. */
  predicate Settles(o: Option<OperatorState>, c: ConvictionKey, paid: nat) {
    if o.Some? && c in o.value.convictions
    then
      var v := o.value.convictions[c];
      paid + v.owedToVictim == Rules.SplitOf(v.slashed).victim && (paid == 0 || v.owedToVictim == 0)
    else paid == 0
  }

  lemma EscrowStep(before: Option<OperatorState>, q: Request, done: bool, after: Option<OperatorState>,
          c: ConvictionKey, paid: nat)
    requires Moves(before, q, done, after) && Settles(before, c, paid)
    ensures Settles(after, c, paid +
              if done && q.instruction.ClaimVictim? && q.instruction.escrow == c then OwedOn(before, c) else 0)
  {
    if done {
      assert EscrowMoves(before, q, after.value, c);
    }
  }

  lemma {:induction false} EscrowSettles(s: Story, c: ConvictionKey, n: nat)
    requires IsStory(s) && n <= |s.requests|
    ensures Settles(s.states[n], c, s.EscrowPaid(c, n))
  {
    if n > 0 {
      EscrowSettles(s, c, n - 1);
      assert Moves(s.states[n - 1], s.requests[n - 1], s.done[n - 1], s.states[n - 1 + 1]);
      EscrowStep(s.states[n - 1], s.requests[n - 1], s.done[n - 1], s.states[n], c, s.EscrowPaid(c, n - 1));
    }
  }

  /** Whatever has been claimed so far, an escrow pays exactly the victim's
      share of the slash, once: paid and still owed always add up to it. */
  lemma EscrowPaysOnce(env: Env, ledgers: seq<Ledger>, requests: seq<Request>, k: Key, c: ConvictionKey, n: nat)
    requires IsRun(env, ledgers, requests) && n <= |requests|
    ensures Settles(ledgers[n].Operator(k), c, StoryOf(env, ledgers, requests, k).EscrowPaid(c, n))
  {
    RunTellsStory(env, ledgers, requests, k);
    EscrowSettles(StoryOf(env, ledgers, requests, k), c, n);
  }
}
