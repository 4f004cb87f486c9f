/** The processor as it runs: accounts read, changed field by field and written
    back, with the runtime undoing a failed transaction. */
module Processor {
  import opened Base
  import opened SlashErrors
  import Rules = Slashing
  import opened PoolObjects
  import opened Contradiction
  import opened Program
  import opened ProgramRuns
  import opened BondStory

  /** What a method promises about the instruction it carries out. A failed
      one may stop half way: undoing it is the runtime's part. */
  predicate CarriesOut(env: Env, before: Ledger, q: Request, r: Result<(), Failure>, after: Ledger) {
    match Transact(env, before, q)
    case Ok(next) => r == Ok(()) && after == next
    case Err(e) => r == Err(e)
  }

  class Accounts {
    var operators: map<Key, OperatorState>
    var wallets: map<Key, nat>
    var stray: map<Address, nat>
    var incinerated: nat

    function View(): Ledger
      reads this
    {
      Ledger(operators, wallets, stray, incinerated)
    }

    constructor (l: Ledger)
      ensures View() == l
    {
      operators, wallets, stray, incinerated := l.operators, l.wallets, l.stray, l.incinerated;
    }

    method PayOutOfOperator(env: Env, operator: Key, to: Key, amount: nat) returns (r: Result<(), Failure>)
      requires operator in operators
      modifies this
      ensures match PayOutFromOperator(env, old(operators[operator]), old(View()).Funds(to), amount)
        case Ok(e) =>
          && r == Ok(()) && stray == old(stray) && incinerated == old(incinerated)
          && operators == old(operators)[operator := e.after] && wallets == old(wallets)[to := e.funds]
        case Err(e) => r == Err(e)
    {
      var account := operators[operator];
      if account.lamports < amount {
        return Err(Refused(Overdraw));
      }
      var remaining := account.lamports - amount;
      if remaining < Reserved(env, account) {
        return Err(Refused(Overdraw));
      }
      var funds := View().Funds(to);
      operators := operators[operator := account.(lamports := remaining)];
      if funds + amount >= U64_LIMIT {
        return Err(Refused(Overdraw));
      }
      wallets := wallets[to := funds + amount];
      return Ok(());
    }

    method DoRegister(env: Env, q: Request) returns (r: Result<(), Failure>)
      requires q.instruction.Register? && PrecompileAccepts(env.c, q)
      modifies this
      ensures CarriesOut(env, old(View()), q, r, View())
    {
      if !q.signed {
        return Err(Refused(NotSigner));
      }
      var bond := q.instruction.bond;
      if bond == 0 {
        return Err(Refused(InsufficientBond));
      }
      if q.operator != q.caller {
        return Err(Refused(WrongPda));
      }
      var funds := View().Funds(q.caller);
      if q.operator in operators || View().StrayAt((q.operator, OperatorPlace)) > 0 || funds < env.operatorRent + bond {
        return Err(Runtime);
      }
      wallets := wallets[q.caller := funds - env.operatorRent - bond];
      operators := operators[q.operator := OperatorState(
        q.instruction.signingKey, bond, Rules.PoolValue(0, 0), 0, env.operatorRent + bond, map[], map[])];
      return Ok(());
    }

    /** Creates the caller's position account if this is their first stake. */
    method OpenPosition(env: Env, q: Request, position: (Key, Key)) returns (r: Result<Rules.PositionValue, Failure>)
      requires q.operator in operators
      modifies this
      ensures q.operator in operators && stray == old(stray) && incinerated == old(incinerated)
      ensures var o, opens := old(operators[q.operator]), q.caller !in old(operators[q.operator]).positions;
        if position != (q.operator, q.caller) then r == Err(Refused(WrongPda))
        else if opens && old(View()).StrayAt((q.operator, PositionPlace(q.caller))) > 0 then r == Err(Runtime)
        else if opens && old(View()).Funds(q.caller) < env.positionRent then r == Err(Runtime)
        else
          && r == Ok(if opens then Rules.NO_POSITION else o.positions[q.caller])
          && operators[q.operator] == o.(positions := o.positions[q.caller := r.value])
          && operators == old(operators)[q.operator := operators[q.operator]]
          && wallets ==
             if opens then old(wallets)[q.caller := old(View()).Funds(q.caller) - env.positionRent] else old(wallets)
    {
      if position != (q.operator, q.caller) {
        return Err(Refused(WrongPda));
      }
      var account := operators[q.operator];
      if q.caller !in account.positions {
        var funds := View().Funds(q.caller);
        if View().StrayAt((q.operator, PositionPlace(q.caller))) > 0 || funds < env.positionRent {
          return Err(Runtime);
        }
        wallets := wallets[q.caller := funds - env.positionRent];
        operators := operators[q.operator := account.(positions := account.positions[q.caller := Rules.NO_POSITION])];
        return Ok(Rules.NO_POSITION);
      }
      var stored := account.positions[q.caller];
      assert account == account.(positions := account.positions[q.caller := stored]);
      return Ok(stored);
    }

    /** The pool's own books first, then the lamports, then both written back. */
    method Deposit(q: Request, account: OperatorState, stored: Rules.PositionValue, amount: nat)
        returns (r: Result<(), Failure>)
      modifies this
      ensures match Rules.Stake(account.pool, stored, amount)
        case Err(_) => r == Err(Refused(NothingStaked))
        case Ok((pool, p)) =>
          if old(View()).Funds(q.caller) < amount then r == Err(Runtime)
          else
            && r == Ok(()) && stray == old(stray) && incinerated == old(incinerated)
            && wallets == old(wallets)[q.caller := old(View()).Funds(q.caller) - amount]
            && operators == old(operators)[q.operator :=
                 account.(pool := pool, positions := account.positions[q.caller := p],
                          lamports := account.lamports + amount)]
    {
      var pool := new Pool(account.pool);
      var position := new Position(stored);
      var staked := pool.Stake(position, amount);
      if staked.Err? {
        return Err(Refused(NothingStaked));
      }
      var funds := View().Funds(q.caller);
      if funds < amount {
        return Err(Runtime);
      }
      wallets := wallets[q.caller := funds - amount];
      operators := operators[q.operator := account.(
        pool := pool.Value(), positions := account.positions[q.caller := position.Value()],
        lamports := account.lamports + amount)];
      return Ok(());
    }

    method StakeAt(env: Env, q: Request, position: (Key, Key), amount: nat) returns (r: Result<(), Failure>)
      requires q.operator in operators
      modifies this
      ensures match StakeLamports(env, old(operators[q.operator]),
                                  old(View()).StrayAt((q.operator, PositionPlace(q.caller))) > 0, q,
                                  old(View()).Funds(q.caller), position, amount)
        case Err(e) => r == Err(e)
        case Ok(e) => r == Ok(()) && View() == Settle(old(View()), q, e)
    {
      var account := operators[q.operator];
      var entry := OpenPosition(env, q, position);
      if entry.Err? {
        return Err(entry.error);
      }
      r := Deposit(q, account, entry.value, amount);
    }

    method DoStake(env: Env, q: Request) returns (r: Result<(), Failure>)
      requires q.instruction.Stake? && PrecompileAccepts(env.c, q)
      modifies this
      ensures CarriesOut(env, old(View()), q, r, View())
    {
      if !q.signed {
        return Err(Refused(NotSigner));
      }
      if q.operator !in operators {
        return Err(Refused(WrongOwner));
      }
      r := StakeAt(env, q, q.instruction.position, q.instruction.amount);
    }

    method DoUnstake(env: Env, q: Request) returns (r: Result<(), Failure>)
      requires q.instruction.Unstake? && PrecompileAccepts(env.c, q)
      modifies this
      ensures CarriesOut(env, old(View()), q, r, View())
    {
      if !q.signed {
        return Err(Refused(NotSigner));
      }
      if q.operator !in operators || !View().PositionExists(q.instruction.position) {
        return Err(Refused(WrongOwner));
      }
      if q.instruction.position != (q.operator, q.caller) {
        return Err(Refused(WrongPda));
      }
      var account := operators[q.operator];
      var amount := q.instruction.amount;
      var pool := new Pool(account.pool);
      var position := new Position(account.positions[q.caller]);
      if position.staked > pool.staked {
        return Err(Runtime);
      }
      var unstaked := pool.Unstake(position, amount);
      if unstaked.Err? {
        return Err(Refused(Overdraw));
      }
      account := account.(pool := pool.Value(), positions := account.positions[q.caller := position.Value()]);
      operators := operators[q.operator := account];
      r := PayOutOfOperator(env, q.operator, q.caller, amount);
    }

    method DoClaim(env: Env, q: Request) returns (r: Result<(), Failure>)
      requires q.instruction.Claim? && PrecompileAccepts(env.c, q)
      modifies this
      ensures CarriesOut(env, old(View()), q, r, View())
    {
      if !q.signed {
        return Err(Refused(NotSigner));
      }
      if q.operator !in operators || !View().PositionExists(q.instruction.position) {
        return Err(Refused(WrongOwner));
      }
      if q.instruction.position != (q.operator, q.caller) {
        return Err(Refused(WrongPda));
      }
      var account := operators[q.operator];
      var pool := new Pool(account.pool);
      var position := new Position(account.positions[q.caller]);
      var earned := pool.Claim(position);
      operators := operators[q.operator := account.(positions := account.positions[q.caller := position.Value()])];
      r := PayOutOfOperator(env, q.operator, q.caller, earned);
    }

    method DoProve(env: Env, q: Request) returns (r: Result<(), Failure>)
      requires q.instruction.ProveEquivocation? && PrecompileAccepts(env.c, q)
      modifies this
      ensures CarriesOut(env, old(View()), q, r, View())
    {
      if !q.signed {
        return Err(Refused(NotSigner));
      }
      if q.instruction.burnTo != env.incinerator {
        return Err(Refused(BadInstruction));
      }
      if q.operator !in operators {
        return Err(Refused(WrongOwner));
      }
      var account := operators[q.operator];
      var conviction := q.instruction.conviction;
      var checked := CheckedEvidence(env, account, q, conviction);
      if checked.Err? {
        return Err(checked.error);
      }
      r := TakeTheBond(env, q, conviction.1, checked.value);
    }

    method TakeTheBond(env: Env, q: Request, key: ConvictionKey, evidence: Evidence) returns (r: Result<(), Failure>)
      requires q.operator in operators && WellFormed(evidence.a) && WellFormed(evidence.b)
      modifies this
      ensures match Slash(env, old(operators[q.operator]), old(View()).StrayAt((q.operator, ConvictionPlace(key))) > 0,
                          q, old(View()).Funds(q.caller), key, evidence)
        case Err(e) => r == Err(e)
        case Ok(e) =>
          if old(incinerated) + e.burned >= U64_LIMIT then r == Err(Refused(Overdraw))
          else r == Ok(()) && View() == Settle(old(View()), q, e)
    {
      var account := operators[q.operator];
      var slashed := account.bond;
      if slashed == 0 {
        return Err(Refused(InsufficientBond));
      }
      var pool := new Pool(account.pool);
      var applied := pool.Distribute(Rules.SplitOf(slashed));
      var funds := View().Funds(q.caller);
      if View().StrayAt((q.operator, ConvictionPlace(key))) > 0 || funds < env.convictionRent {
        return Err(Runtime);
      }
      wallets := wallets[q.caller := funds - env.convictionRent];
      account := account.(bond := 0, pool := pool.Value());
      if account.lamports < applied.burn {
        return Err(Refused(Overdraw));
      }
      account := account.(lamports := account.lamports - applied.burn);
      if account.lamports < applied.victim {
        return Err(Refused(Overdraw));
      }
      if incinerated + applied.burn >= U64_LIMIT {
        return Err(Refused(Overdraw));
      }
      incinerated := incinerated + applied.burn;
      account := account.(lamports := account.lamports - applied.victim,
        convictions := account.convictions[key := ConvictionOf(env, evidence, slashed, applied.victim, q.slot)]);
      operators := operators[q.operator := account];
      return Ok(());
    }

    method DoClaimVictim(env: Env, q: Request) returns (r: Result<(), Failure>)
      requires q.instruction.ClaimVictim? && PrecompileAccepts(env.c, q)
      modifies this
      ensures CarriesOut(env, old(View()), q, r, View())
    {
      if !q.signed {
        return Err(Refused(NotSigner));
      }
      var key := q.instruction.escrow;
      if q.operator !in operators || key !in operators[q.operator].convictions {
        return Err(Refused(WrongOwner));
      }
      var account := operators[q.operator];
      var conviction := account.convictions[key];
      if env.c.sha256(q.instruction.wire) != conviction.wrongedTxHash {
        return Err(Refused(MalformedReceipt));
      }
      var payer := env.payerOf(q.instruction.wire);
      if payer.Err? {
        return Err(Refused(payer.error));
      }
      if q.caller != payer.value {
        return Err(Refused(NotSigner));
      }
      var owed := conviction.owedToVictim;
      var funds := View().Funds(q.caller);
      if conviction.lamports < owed || funds + owed >= U64_LIMIT {
        return Err(Refused(Overdraw));
      }
      conviction := conviction.(owedToVictim := 0, lamports := conviction.lamports - owed);
      operators := operators[q.operator := account.(convictions := account.convictions[key := conviction])];
      wallets := wallets[q.caller := funds + owed];
      return Ok(());
    }

    method DoBeginUnbond(env: Env, q: Request) returns (r: Result<(), Failure>)
      requires q.instruction.BeginUnbond? && PrecompileAccepts(env.c, q)
      modifies this
      ensures CarriesOut(env, old(View()), q, r, View())
    {
      if !q.signed {
        return Err(Refused(NotSigner));
      }
      if q.operator !in operators {
        return Err(Refused(WrongOwner));
      }
      if q.operator != q.caller {
        return Err(Refused(NotSigner));
      }
      var account := operators[q.operator];
      if account.bond == 0 {
        return Err(Refused(InsufficientBond));
      }
      if account.unbondAt == 0 {
        account := account.(unbondAt := q.slot + Rules.UNBOND_SLOTS);
      }
      operators := operators[q.operator := account];
      wallets := wallets[q.caller := View().Funds(q.caller)];
      return Ok(());
    }

    method DoWithdrawBond(env: Env, q: Request) returns (r: Result<(), Failure>)
      requires q.instruction.WithdrawBond? && PrecompileAccepts(env.c, q)
      modifies this
      ensures CarriesOut(env, old(View()), q, r, View())
    {
      if !q.signed {
        return Err(Refused(NotSigner));
      }
      if q.operator !in operators {
        return Err(Refused(WrongOwner));
      }
      if q.operator != q.caller {
        return Err(Refused(NotSigner));
      }
      var account := operators[q.operator];
      if account.unbondAt == 0 || q.slot < account.unbondAt {
        return Err(Refused(BondLocked));
      }
      var bond := account.bond;
      operators := operators[q.operator := account.(bond := 0, unbondAt := 0)];
      r := PayOutOfOperator(env, q.operator, q.caller, bond);
    }

    method DoDonate(env: Env, q: Request) returns (r: Result<(), Failure>)
      requires q.instruction.Donate? && PrecompileAccepts(env.c, q)
      modifies this
      ensures CarriesOut(env, old(View()), q, r, View())
    {
      if !q.signed {
        return Err(Refused(NotSigner));
      }
      var funds, amount := View().Funds(q.caller), q.instruction.amount;
      if funds < amount {
        return Err(Runtime);
      }
      wallets := wallets[q.caller := funds - amount];
      if q.instruction.place.OperatorPlace? && q.operator in operators {
        var account := operators[q.operator];
        operators := operators[q.operator := account.(lamports := account.lamports + amount)];
      } else {
        var at := (q.operator, q.instruction.place);
        stray := stray[at := (if at in stray then stray[at] else 0) + amount];
      }
      return Ok(());
    }

    method Dispatch(env: Env, q: Request) returns (r: Result<(), Failure>)
      requires PrecompileAccepts(env.c, q)
      modifies this
      ensures CarriesOut(env, old(View()), q, r, View())
    {
      match q.instruction {
        case Register(_, _) => r := DoRegister(env, q);
        case Stake(_, _) => r := DoStake(env, q);
        case Unstake(_, _) => r := DoUnstake(env, q);
        case Claim(_) => r := DoClaim(env, q);
        case ProveEquivocation(_, _) => r := DoProve(env, q);
        case ClaimVictim(_, _) => r := DoClaimVictim(env, q);
        case BeginUnbond => r := DoBeginUnbond(env, q);
        case WithdrawBond => r := DoWithdrawBond(env, q);
        case Donate(_, _) => r := DoDonate(env, q);
      }
    }

    /** One transaction: all of it, or none of it. */
    method Process(env: Env, q: Request) returns (r: Result<(), Failure>)
      modifies this
      ensures View() == After(env, old(View()), q)
      ensures CarriesOut(env, old(View()), q, r, View())
    {
      if !PrecompileAccepts(env.c, q) {
        return Err(Runtime);
      }
      var before := View();
      r := Dispatch(env, q);
      if r.Err? {
        operators, wallets, stray, incinerated := before.operators, before.wallets, before.stray, before.incinerated;
      }
    }

    /** Any sequence of transactions, from any sound state. Afterwards the state
        is sound, no lamport has been created or lost, and every operator account
        covers rent, bond, stake and all that its positions can claim. From a
        state without operators, each bond has left at most once, and exactly
        once if it is gone. */
    method ProcessAll(env: Env, requests: seq<Request>) returns (done: seq<bool>, ghost ledgers: seq<Ledger>)
      requires Sound(env, View())
      modifies this
      ensures |ledgers| == |requests| + 1 && ledgers[0] == old(View()) && ledgers[|requests|] == View()
      ensures |done| == |requests| && Follows(env, ledgers, requests, done)
      ensures Sound(env, View()) && Supply(env, View()) == Supply(env, old(View()))
      ensures forall k :: k in operators ==> CoversClaims(env, operators[k])
      ensures old(operators) == map[] ==> forall k :: k in operators ==>
        StoryOf(env, ledgers, requests, k).Departures(|requests|) == if operators[k].bond == 0 then 1 else 0
    {
      done, ledgers := [], [View()];
      ghost var start := View();
      for i := 0 to |requests|
        invariant |done| == i && |ledgers| == i + 1 && ledgers[0] == start && ledgers[i] == View()
        invariant Follows(env, ledgers, requests[..i], done)
        invariant Sound(env, View()) && Supply(env, View()) == Supply(env, start)
      {
        ghost var before := View();
        var r := Process(env, requests[i]);
        SoundAfter(env, before, requests[i]);
        FollowsOn(env, ledgers, requests[..i], done, requests[i], r.Ok?);
        done, ledgers := done + [r.Ok?], ledgers + [View()];
        assert requests[..i + 1] == requests[..i] + [requests[i]];
      }
      assert requests[..|requests|] == requests;
      forall k | k in operators ensures CoversClaims(env, operators[k]) {
        SolventCoversClaims(env, operators[k]);
      }
      if start.operators == map[] {
        FollowingIsRun(env, ledgers, requests, done);
        forall k | k in operators
          ensures StoryOf(env, ledgers, requests, k).Departures(|requests|) == if operators[k].bond == 0 then 1 else 0
        {
          BondLeavesOnce(env, ledgers, requests, k, |requests|);
        }
      }
    }
  }

  /** The ledgers passed through, and which requests succeeded. */
  ghost predicate Follows(env: Env, ledgers: seq<Ledger>, requests: seq<Request>, done: seq<bool>)
    requires |ledgers| == |requests| + 1 == |done| + 1
  {
    forall i :: 0 <= i < |requests| ==> Led(env, ledgers[i], requests[i], done[i], ledgers[i + 1])
  }

  predicate Led(env: Env, l: Ledger, q: Request, done: bool, next: Ledger) {
    next == After(env, l, q) && (done <==> Transact(env, l, q).Ok?)
  }

  lemma FollowsOn(env: Env, ledgers: seq<Ledger>, requests: seq<Request>, done: seq<bool>, q: Request, ok: bool)
    requires |ledgers| == |requests| + 1 == |done| + 1 && Follows(env, ledgers, requests, done)
    requires ok <==> Transact(env, ledgers[|requests|], q).Ok?
    ensures Follows(env, ledgers + [After(env, ledgers[|requests|], q)], requests + [q], done + [ok])
  {
    var l, r, d := ledgers + [After(env, ledgers[|requests|], q)], requests + [q], done + [ok];
    forall i | 0 <= i < |r| ensures Led(env, l[i], r[i], d[i], l[i + 1]) {
      assert i < |requests| ==> Led(env, ledgers[i], requests[i], done[i], ledgers[i + 1]);
    }
  }

  lemma FollowingIsRun(env: Env, ledgers: seq<Ledger>, requests: seq<Request>, done: seq<bool>)
    requires |ledgers| == |requests| + 1 == |done| + 1 && Follows(env, ledgers, requests, done)
    requires ledgers[0].operators == map[] && Supply(env, ledgers[0]) < U64_LIMIT
    ensures IsRun(env, ledgers, requests)
  {
    forall i | 0 <= i < |requests| ensures ledgers[i + 1] == After(env, ledgers[i], requests[i]) {
      assert Led(env, ledgers[i], requests[i], done[i], ledgers[i + 1]);
    }
  }

  lemma SoundAfter(env: Env, l: Ledger, q: Request)
    requires Sound(env, l)
    ensures Sound(env, After(env, l, q)) && Supply(env, After(env, l, q)) == Supply(env, l)
  {
    if Transact(env, l, q).Ok? {
      StepConserves(env, l, q, Transact(env, l, q).value);
      StepKeepsSolvent(env, l, q, Transact(env, l, q).value);
    }
  }
}
