/** What the slashing program refuses, and with which error: who may call, what
    must be there, and in what order it is asked for. */
module Refusals {
  import opened Base
  import opened SlashErrors
  import Rules = Slashing
  import opened Contradiction
  import opened Program
  import opened ProgramRuns

  /** Nothing happens without the caller's signature, or if a signature that the
      ed25519 program was pointed at does not verify. */
  lemma UnsignedIsRefused(env: Env, l: Ledger, q: Request)
    requires !q.signed || !PrecompileAccepts(env.c, q)
    ensures Transact(env, l, q) == Err(if PrecompileAccepts(env.c, q) then Refused(NotSigner) else Runtime)
    ensures After(env, l, q) == l
  {
  }

  /** An operator registers itself, once, with a bond, at an address that holds
      nothing, and pays rent and bond. */
  lemma RegisterSucceedsIff(env: Env, l: Ledger, q: Request, signingKey: Bytes32, bond: nat)
    requires q.signed && PrecompileAccepts(env.c, q) && q.instruction == Register(signingKey, bond)
    ensures Transact(env, l, q).Ok? <==>
      && bond > 0 && q.caller == q.operator && q.operator !in l.operators
      && l.StrayAt((q.operator, OperatorPlace)) == 0 && l.Funds(q.caller) >= env.operatorRent + bond
    ensures Transact(env, l, q).Err? ==>
      Transact(env, l, q).error ==
        if bond == 0 then Refused(InsufficientBond) else if q.caller != q.operator then Refused(WrongPda) else Runtime
    ensures Transact(env, l, q).Ok? ==>
      var next := Transact(env, l, q).value;
      && next.Funds(q.caller) == l.Funds(q.caller) - env.operatorRent - bond
      && q.operator in next.operators
      && next.operators[q.operator] ==
         OperatorState(signingKey, bond, Rules.PoolValue(0, 0), 0, env.operatorRent + bond, map[], map[])
  {
  }

  /** Everything else needs a registered operator, and a proof the right place
      to burn to. */
  lemma NeedsOperator(env: Env, l: Ledger, q: Request)
    requires q.signed && PrecompileAccepts(env.c, q) && !q.instruction.Register? && !q.instruction.Donate?
    requires q.operator !in l.operators || (q.instruction.ProveEquivocation? && q.instruction.burnTo != env.incinerator)
    ensures Transact(env, l, q) == Err(Refused(
      if q.instruction.ProveEquivocation? && q.instruction.burnTo != env.incinerator then BadInstruction
      else WrongOwner))
  {
  }

  /** Stake, unstake and claim take only the caller's own position with that
      operator; the last two only one that exists. */
  lemma NeedsOwnPosition(env: Env, l: Ledger, q: Request, position: (Key, Key))
    requires q.signed && PrecompileAccepts(env.c, q) && q.operator in l.operators
    requires PositionNamed(q.instruction) == Some(position)
    requires position != (q.operator, q.caller) || (!q.instruction.Stake? && !l.PositionExists(position))
    ensures Transact(env, l, q) == Err(Refused(
      if q.instruction.Stake? || l.PositionExists(position) then WrongPda else WrongOwner))
  {
  }

  /** Only the operator itself starts the lock or takes the bond back. */
  lemma NeedsAuthority(env: Env, l: Ledger, q: Request)
    requires q.signed && PrecompileAccepts(env.c, q) && q.operator in l.operators
    requires q.instruction.BeginUnbond? || q.instruction.WithdrawBond?
    ensures q.caller != q.operator ==> Transact(env, l, q) == Err(Refused(NotSigner))
    ensures q.caller == q.operator && q.instruction.BeginUnbond? ==>
      && (Transact(env, l, q).Ok? <==> l.operators[q.operator].bond > 0)
      && (Transact(env, l, q).Err? ==> Transact(env, l, q).error == Refused(InsufficientBond))
  {
  }

  /** Anyone can send lamports to any of an operator's addresses. They count as
      the operator account's own once that exists, and otherwise stay at the
      address. */
  lemma TransferSucceedsIff(env: Env, l: Ledger, q: Request, place: Place, amount: nat)
    requires q.signed && PrecompileAccepts(env.c, q) && q.instruction == Donate(place, amount)
    ensures Transact(env, l, q).Ok? <==> l.Funds(q.caller) >= amount
    ensures Transact(env, l, q).Ok? ==>
      var next, at := Transact(env, l, q).value, (q.operator, place);
      && next.Funds(q.caller) == l.Funds(q.caller) - amount
      && if place.OperatorPlace? && q.operator in l.operators
         then next.stray == l.stray && q.operator in next.operators &&
              next.operators[q.operator].lamports == l.operators[q.operator].lamports + amount
         else next.operators == l.operators && next.StrayAt(at) == l.StrayAt(at) + amount
  {
  }

  /** No payout touches what the account must keep: whatever the ledger, an
      unstake, a claim or a withdrawal that goes through leaves at least rent,
      bond and stake. */
  lemma PayoutsKeepFloor(env: Env, l: Ledger, q: Request, next: Ledger)
    requires Transact(env, l, q) == Ok(next)
    requires q.instruction.Unstake? || q.instruction.Claim? || q.instruction.WithdrawBond?
    ensures q.operator in next.operators
    ensures var o := next.operators[q.operator]; env.operatorRent + o.bond + o.pool.staked <= o.lamports
  {
    var e := StepEffect(env, l, q, next);
  }

  /** An escrow is paid against the wire bytes of the wronged transaction, to its
      payer. */
  lemma EscrowRefusals(env: Env, l: Ledger, q: Request, key: ConvictionKey, wire: Bytes)
    requires q.signed && PrecompileAccepts(env.c, q) && q.operator in l.operators
    requires q.instruction == ClaimVictim(key, wire)
    ensures key !in l.operators[q.operator].convictions ==> Transact(env, l, q) == Err(Refused(WrongOwner))
    ensures key in l.operators[q.operator].convictions ==>
      var filed := l.operators[q.operator].convictions[key];
      && (env.c.sha256(wire) != filed.wrongedTxHash ==> Transact(env, l, q) == Err(Refused(MalformedReceipt)))
      && (env.c.sha256(wire) == filed.wrongedTxHash && env.payerOf(wire).Err? ==>
            Transact(env, l, q) == Err(Refused(env.payerOf(wire).error)))
      && (env.c.sha256(wire) == filed.wrongedTxHash && env.payerOf(wire).Ok? && env.payerOf(wire).value != q.caller ==>
            Transact(env, l, q) == Err(Refused(NotSigner)))
  {
  }

  /** What evidence must bring, in the order it is asked for. */
  lemma EvidenceRefusals(env: Env, o: OperatorState, q: Request, conviction: (Key, ConvictionKey))
    requires CheckedEvidence(env, o, q, conviction).Err?
    ensures CheckedEvidence(env, o, q, conviction).error ==
      match ProvenMessages(o, q)
      case Err(e) => e
      case Ok((a, b)) =>
        if Check(a, b).Err? then Refused(Check(a, b).error)
        else if conviction != (q.operator, ClientKey(env.c, a, b)) then Refused(WrongPda)
        else Refused(AlreadyConvicted)
  {
    if ProvenMessages(o, q).Ok? {
      var messages := ProvenMessages(o, q).value;
      if Check(messages.0, messages.1).Ok? {
        KeysAgree(env.c, messages.0, messages.1);
      }
    }
  }
}
