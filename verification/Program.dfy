/** The on-chain slashing program (`crates/program/src/processor.rs`): eight
    instructions over operator, position and conviction accounts. Rent, the
    clock, signatures and sibling instructions are inputs. */
module Program {
  import opened Base
  import opened Receipts
  import opened SlashErrors
  import Rules = Slashing
  import opened Contradiction
  import opened Ed25519

  datatype Env = Env(
    c: Crypto,
    operatorRent: nat,
    positionRent: nat,
    convictionRent: nat,
    incinerator: Key,
    payerOf: Bytes -> Result<Key, SlashError>)

  datatype Conviction = Conviction(
    wronged: Bytes64,
    wrongedTxHash: Bytes32,
    slashed: nat,
    owedToVictim: nat,
    slot: nat,
    lamports: nat)

  /** An operator account with the accounts derived from it. An operator is
      named by its authority, from which its address is derived. */
  datatype OperatorState = OperatorState(
    signingKey: Bytes32,
    bond: nat,
    pool: Rules.PoolValue,
    unbondAt: nat,
    lamports: nat,
    positions: map<Key, Rules.PositionValue>,
    convictions: map<ConvictionKey, Conviction>)

  /** The addresses derived from an operator: its own account's, and those of
      its positions and convictions. */
  datatype Place = OperatorPlace | PositionPlace(owner: Key) | ConvictionPlace(key: ConvictionKey)

  type Address = (Key, Place)

  datatype Instruction =
    | Register(signingKey: Bytes32, bond: nat)
    | Stake(position: (Key, Key), amount: nat)
    | Unstake(position: (Key, Key), amount: nat)
    | Claim(position: (Key, Key))
    | ProveEquivocation(conviction: (Key, ConvictionKey), burnTo: Key)
    | ClaimVictim(escrow: ConvictionKey, wire: Bytes)
    | BeginUnbond
    | WithdrawBond
    /** A plain transfer to one of the operator's addresses, in use or not,
        which anyone can make. */
    | Donate(place: Place, amount: nat)

  /** The instruction just before this one in the same transaction. */
  datatype Sibling = Sibling(isEd25519: bool, data: Bytes)

  datatype Request = Request(
    caller: Key,
    signed: bool,
    slot: nat,
    here: U16,
    sibling: Sibling,
    operator: Key,
    instruction: Instruction)

  /** A refusal by the program, or by the runtime and the system program it
      calls: funds that are not there, an address already in use, a signature
      that does not verify, an addition that overflows. */
  datatype Failure = Refused(error: SlashError) | Runtime

  /** What an instruction finds at the addresses it names: whether the position
      presented exists, and whether the address it would create an account at
      already holds lamports, in which case the system program refuses. */
  datatype Site = Site(present: bool, occupied: bool)

  /** What one successful instruction leaves: the operator's accounts, the
      caller's wallet, and what was sent to the incinerator. */
  datatype Effect = Effect(after: OperatorState, funds: nat, burned: nat)

  type Outcome = Result<Effect, Failure>

  /** Lamports the account must keep. The comment at processor.rs:59-60 also
      lists unclaimed rewards; the code does not count them. */
  function Reserved(env: Env, o: OperatorState): nat { env.operatorRent + o.bond + o.pool.staked }

  /** `o` is the state being written, so the floor is that of the new state. */
  function PayOutFromOperator(env: Env, o: OperatorState, funds: nat, amount: nat): Outcome {
    if o.lamports < amount || o.lamports - amount < Reserved(env, o) then Err(Refused(Overdraw))
    else if funds + amount >= U64_LIMIT then Err(Refused(Overdraw))
    else Ok(Effect(o.(lamports := o.lamports - amount), funds + amount, 0))
  }

  function RegisterOperator(env: Env, known: Option<OperatorState>, occupied: bool, q: Request, funds: nat,
          signingKey: Bytes32, bond: nat): Outcome {
    if !q.signed then Err(Refused(NotSigner))
    else if bond == 0 then Err(Refused(InsufficientBond))
    else if q.operator != q.caller then Err(Refused(WrongPda))
    else if known.Some? || occupied || funds < env.operatorRent + bond then Err(Runtime)
    else Ok(Effect(
      OperatorState(signingKey, bond, Rules.PoolValue(0, 0), 0, env.operatorRent + bond, map[], map[]),
      funds - env.operatorRent - bond, 0))
  }

  function StakeLamports(env: Env, o: OperatorState, occupied: bool, q: Request, funds: nat, position: (Key, Key),
          amount: nat): Outcome {
    if position != (q.operator, q.caller) then Err(Refused(WrongPda))
    else
      var opens := q.caller !in o.positions;
      if opens && (occupied || funds < env.positionRent) then Err(Runtime)
      else
        var left := if opens then funds - env.positionRent else funds;
        var p := if opens then Rules.NO_POSITION else o.positions[q.caller];
        match Rules.Stake(o.pool, p, amount)
        case Err(_) => Err(Refused(NothingStaked))
        case Ok((pool, settled)) =>
          if left < amount then Err(Runtime)
          else Ok(Effect(
            o.(pool := pool, positions := o.positions[q.caller := settled], lamports := o.lamports + amount),
            left - amount, 0))
  }

  /** `present`: whether the position account presented exists at all. */
  function OwnPosition(o: OperatorState, q: Request, position: (Key, Key),
          present: bool): Result<Rules.PositionValue, Failure> {
    if !present then Err(Refused(WrongOwner))
    else if position != (q.operator, q.caller) || q.caller !in o.positions then Err(Refused(WrongPda))
    else Ok(o.positions[q.caller])
  }

  function UnstakeLamports(env: Env, o: OperatorState, q: Request, funds: nat, position: (Key, Key), present: bool,
          amount: nat): Outcome {
    match OwnPosition(o, q, position, present)
    case Err(e) => Err(e)
    case Ok(p) =>
      if p.staked > o.pool.staked then Err(Runtime)
      else match Rules.Unstake(o.pool, p, amount)
        case Err(_) => Err(Refused(Overdraw))
        case Ok((pool, settled)) =>
          PayOutFromOperator(env, o.(pool := pool, positions := o.positions[q.caller := settled]), funds, amount)
  }

  function ClaimRewards(env: Env, o: OperatorState, q: Request, funds: nat, position: (Key, Key),
          present: bool): Outcome {
    match OwnPosition(o, q, position, present)
    case Err(e) => Err(e)
    case Ok(p) =>
      var (settled, earned) := Rules.Claim(o.pool, p);
      PayOutFromOperator(env, o.(positions := o.positions[q.caller := settled]), funds, earned)
  }

  /** The two messages an ed25519 sibling proves under the registered key. */
  function ProvenMessages(o: OperatorState, q: Request): Result<(Bytes, Bytes), Failure> {
    if q.here == 0 || !q.sibling.isEd25519 then Err(Refused(NoEd25519Instruction))
    else match VerifiedPairs(q.sibling.data, q.here - 1)
      case Err(e) => Err(Refused(e))
      case Ok(pairs) =>
        if |pairs| != 2 then Err(Refused(WrongSignatureCount))
        else if pairs[0].key != o.signingKey then Err(Refused(UnregisteredKey))
        else if |pairs[0].message| != RECEIPT_LEN then Err(Refused(MalformedReceipt))
        else if pairs[1].key != o.signingKey then Err(Refused(UnregisteredKey))
        else if |pairs[1].message| != RECEIPT_LEN then Err(Refused(MalformedReceipt))
        else Ok((pairs[0].message, pairs[1].message))
  }

  /** Evidence that passes every check, and the address it convicts under. */
  function CheckedEvidence(env: Env, o: OperatorState, q: Request, conviction: (Key, ConvictionKey))
    : Result<Evidence, Failure>
  {
    match ProvenMessages(o, q)
    case Err(e) => Err(e)
    case Ok((a, b)) =>
      match Check(a, b)
      case Err(e) => Err(Refused(e))
      case Ok(evidence) =>
        if conviction != (q.operator, ProgramKey(env.c, evidence)) then Err(Refused(WrongPda))
        else if conviction.1 in o.convictions then Err(Refused(AlreadyConvicted))
        else Ok(evidence)
  }

  function ConvictionOf(env: Env, e: Evidence, slashed: nat, victim: nat, slot: nat): Conviction
    requires WellFormed(e.a) && WellFormed(e.b)
  {
    Conviction(WrongedSignature(e), WrongedTxHash(e), slashed, victim, slot, env.convictionRent + victim)
  }

  /** Takes the whole bond: the pool's share stays in the account, the burn
      leaves, the victim's share moves into the new conviction. */
  function Slash(env: Env, o: OperatorState, occupied: bool, q: Request, funds: nat, key: ConvictionKey,
          e: Evidence): Outcome
    requires WellFormed(e.a) && WellFormed(e.b)
  {
    if o.bond == 0 then Err(Refused(InsufficientBond))
    else
      var (pool, applied) := Rules.Distribute(o.pool, Rules.SplitOf(o.bond));
      if occupied || funds < env.convictionRent then Err(Runtime)
      else if o.lamports < applied.burn || o.lamports - applied.burn < applied.victim then Err(Refused(Overdraw))
      else Ok(Effect(
        o.(bond := 0, pool := pool, lamports := o.lamports - applied.burn - applied.victim,
           convictions := o.convictions[key := ConvictionOf(env, e, o.bond, applied.victim, q.slot)]),
        funds - env.convictionRent, applied.burn))
  }

  function Prove(env: Env, o: OperatorState, occupied: bool, q: Request, funds: nat,
          conviction: (Key, ConvictionKey)): Outcome {
    match CheckedEvidence(env, o, q, conviction)
    case Err(e) => Err(e)
    case Ok(evidence) => Slash(env, o, occupied, q, funds, conviction.1, evidence)
  }

  function PayVictim(env: Env, o: OperatorState, q: Request, funds: nat, key: ConvictionKey, wire: Bytes): Outcome {
    if key !in o.convictions then Err(Refused(WrongOwner))
    else
      var v := o.convictions[key];
      if env.c.sha256(wire) != v.wrongedTxHash then Err(Refused(MalformedReceipt))
      else match env.payerOf(wire)
        case Err(e) => Err(Refused(e))
        case Ok(payer) =>
          if q.caller != payer then Err(Refused(NotSigner))
          else if v.lamports < v.owedToVictim || funds + v.owedToVictim >= U64_LIMIT then Err(Refused(Overdraw))
          else Ok(Effect(
            o.(convictions := o.convictions[key := v.(owedToVictim := 0, lamports := v.lamports - v.owedToVictim)]),
            funds + v.owedToVictim, 0))
  }

  function StartUnbond(o: OperatorState, q: Request, funds: nat): Outcome {
    if q.operator != q.caller then Err(Refused(NotSigner))
    else if o.bond == 0 then Err(Refused(InsufficientBond))
    else Ok(Effect(if o.unbondAt == 0 then o.(unbondAt := q.slot + Rules.UNBOND_SLOTS) else o, funds, 0))
  }

  function TakeBond(env: Env, o: OperatorState, q: Request, funds: nat): Outcome {
    if q.operator != q.caller then Err(Refused(NotSigner))
    else if o.unbondAt == 0 || q.slot < o.unbondAt then Err(Refused(BondLocked))
    else PayOutFromOperator(env, o.(bond := 0, unbondAt := 0), funds, o.bond)
  }

  function Accept(env: Env, o: OperatorState, q: Request, funds: nat, amount: nat): Outcome {
    if funds < amount then Err(Runtime) else Ok(Effect(o.(lamports := o.lamports + amount), funds - amount, 0))
  }

  /** One instruction against one operator's accounts. */
  function Run(env: Env, known: Option<OperatorState>, site: Site, q: Request, funds: nat): Outcome {
    match q.instruction
    case Register(signingKey, bond) => RegisterOperator(env, known, site.occupied, q, funds, signingKey, bond)
    case _ =>
      if !q.signed then Err(Refused(NotSigner))
      else if q.instruction.ProveEquivocation? && q.instruction.burnTo != env.incinerator then
        Err(Refused(BadInstruction))
      else if known.None? then Err(Refused(WrongOwner))
      else
        var o := known.value;
        match q.instruction
        case Stake(position, amount) => StakeLamports(env, o, site.occupied, q, funds, position, amount)
        case Unstake(position, amount) => UnstakeLamports(env, o, q, funds, position, site.present, amount)
        case Claim(position) => ClaimRewards(env, o, q, funds, position, site.present)
        case ProveEquivocation(conviction, _) => Prove(env, o, site.occupied, q, funds, conviction)
        case ClaimVictim(escrow, wire) => PayVictim(env, o, q, funds, escrow, wire)
        case BeginUnbond => StartUnbond(o, q, funds)
        case WithdrawBond => TakeBond(env, o, q, funds)
        case Donate(_, amount) => Accept(env, o, q, funds, amount)
        case Register(_, _) => Err(Runtime)
  }

  // ---- The ledger ----

  /** `stray` holds the lamports sent to addresses that no operator account's
      own balance counts: all that an address not yet created holds, and
      anything above its books that was sent to a position or a conviction. */
  datatype Ledger = Ledger(
    operators: map<Key, OperatorState>,
    wallets: map<Key, nat>,
    stray: map<Address, nat>,
    incinerated: nat)
  {
    function StrayAt(a: Address): nat { if a in stray then stray[a] else 0 }

    function Funds(k: Key): nat { if k in wallets then wallets[k] else 0 }

    function Operator(k: Key): Option<OperatorState> { if k in operators then Some(operators[k]) else None }

    predicate PositionExists(position: (Key, Key)) {
      position.0 in operators && position.1 in operators[position.0].positions
    }
  }

  function PositionNamed(i: Instruction): Option<(Key, Key)> {
    match i
    case Stake(p, _) => Some(p)
    case Unstake(p, _) => Some(p)
    case Claim(p) => Some(p)
    case _ => None
  }

  /** The address an instruction creates its account at, if it creates one. */
  function CreatedBy(q: Request): Address {
    match q.instruction
    case Stake(_, _) => (q.operator, PositionPlace(q.caller))
    case ProveEquivocation(conviction, _) => (q.operator, ConvictionPlace(conviction.1))
    case _ => (q.operator, OperatorPlace)
  }

  function SiteOf(l: Ledger, q: Request): Site {
    var named := PositionNamed(q.instruction);
    Site(named.Some? && l.PositionExists(named.value), l.StrayAt(CreatedBy(q)) > 0)
  }

  /** A transfer that does not reach an existing operator account. */
  predicate GoesAstray(l: Ledger, q: Request) {
    q.instruction.Donate? && !(q.instruction.place.OperatorPlace? && q.operator in l.operators)
  }

  function LeaveAt(l: Ledger, q: Request): Result<Ledger, Failure>
    requires q.instruction.Donate?
  {
    var at, amount := (q.operator, q.instruction.place), q.instruction.amount;
    if !q.signed then Err(Refused(NotSigner))
    else if l.Funds(q.caller) < amount then Err(Runtime)
    else Ok(l.(wallets := l.wallets[q.caller := l.Funds(q.caller) - amount],
               stray := l.stray[at := l.StrayAt(at) + amount]))
  }

  /** The signatures the ed25519 program checked before a transaction got as
      far as this program: a transaction in which one does not verify has no
      effect at all. */
  predicate PrecompileAccepts(c: Crypto, q: Request) {
    q.here > 0 && q.sibling.isEd25519 ==> VerifiesAll(c, q.sibling.data, q.here - 1)
  }

  predicate VerifiesAll(c: Crypto, data: Bytes, index: U16) {
    |data| >= HEADER_LEN ==> forall e: nat :: e < data[0] ==> VerifiesEntry(c, data, index, e)
  }

  predicate VerifiesEntry(c: Crypto, data: Bytes, index: U16, e: nat) {
    ReadEntry(data, index, e).Ok? && SignatureOf(data, e).Some? && |SignatureOf(data, e).value| == 64 ==>
      var read := ReadEntry(data, index, e).value;
      c.verifies(read.key, read.message, SignatureOf(data, e).value)
  }

  function Transact(env: Env, l: Ledger, q: Request): Result<Ledger, Failure> {
    if !PrecompileAccepts(env.c, q) then Err(Runtime)
    else if GoesAstray(l, q) then LeaveAt(l, q)
    else match Run(env, l.Operator(q.operator), SiteOf(l, q), q, l.Funds(q.caller))
      case Err(e) => Err(e)
      case Ok(effect) =>
        if effect.burned > 0 && l.incinerated + effect.burned >= U64_LIMIT then Err(Refused(Overdraw))
        else Ok(Settle(l, q, effect))
  }

  function Settle(l: Ledger, q: Request, e: Effect): Ledger {
    l.(operators := l.operators[q.operator := e.after],
       wallets := l.wallets[q.caller := e.funds],
       incinerated := l.incinerated + e.burned)
  }

  /** A failed transaction changes nothing. */
  function After(env: Env, l: Ledger, q: Request): Ledger {
    match Transact(env, l, q) case Ok(next) => next case Err(_) => l
  }
}
