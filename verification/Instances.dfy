/** Runs that show the conviction theorem from each side: an operator that loses
    its bond, one whose statements differ only in their signature, and one that
    gets its bond back because the conviction's address was not empty. */
module Instances {
  import opened Base
  import opened Receipts
  import opened SlashErrors
  import F = Faults
  import L = LogScan
  import T = LogTheorems
  import Rules = Slashing
  import opened Contradiction
  import opened Program
  import opened ProgramRuns
  import opened BondStory
  import opened EndToEnd

  const EXAMPLE_OPERATOR := F.Operator(ZERO32, ZERO32)

  function ExampleEnv(): Env {
    Env(Crypto((_, _, _) => true, _ => ZERO32, _ => ZERO32), 0, 0, 0, ZERO32, _ => Err(MalformedReceipt))
  }

  /** A plain receipt at position 0; `b` tells two statements apart, `s` two
      signatures. */
  function ExampleReceipt(b: Byte, s: Byte): SignedReceipt {
    SignedReceipt(Receipt(ZERO32, Plain, 0, Filled(64, 1), Filled(32, b), ZERO32, ZERO32, ZERO32, 0, 0), Filled(64, s))
  }

  lemma ExampleIsAccepted(b: Byte, s: Byte)
    ensures F.Accepted(F.WatchOf(ExampleEnv().c, EXAMPLE_OPERATOR), ExampleReceipt(b, s))
  {
    assert Filled(64, 1)[0] != ZERO64[0];
  }

  /** Two accepted, different statements of position 0 are reported, as
      themselves. */
  lemma TwoStatements(w: F.Watch, a: SignedReceipt, b: SignedReceipt) returns (f: F.Fault)
    requires F.Accepted(w, a) && F.Accepted(w, b) && a != b && a.receipt.seqNo == b.receipt.seqNo == 0
    ensures f in L.ScanOf(w, [a, b]).faults && f.Equivocation?
    ensures f.a in [a, b] && f.b in [a, b] && f.a != f.b
  {
    L.AttributableMembers(w, [a, b]);
    assert T.Contradicts(L.Attributable(w, [a, b]), 0, a, b);
    T.EquivocationExact(w, [a, b], 0);
    f :| f in L.ScanOf(w, [a, b]).faults && f.Equivocation? && f.seqNo == 0;
    T.EquivocationNamesDelivered(w, [a, b], f);
  }

  lemma ExamplesDiffer(b: Byte, s: Byte)
    ensures ExampleReceipt(1, 1).receipt == ExampleReceipt(b, s).receipt <==> b == 1
    ensures ExampleReceipt(1, 1) == ExampleReceipt(b, s) <==> b == 1 && s == 1
  {
    var x, y := ExampleReceipt(1, 1), ExampleReceipt(b, s);
    assert x.receipt.txHash[0] == 1 && y.receipt.txHash[0] == b && x.signature[0] == 1 && y.signature[0] == s;
  }

  /** A scan that reports two statements, differing in the content hash or in
      the signature only. */
  lemma ExampleScan(b: Byte, s: Byte) returns (receipts: L.Log, f: F.Fault)
    requires b != 1 || s != 1
    ensures f in L.ScanOf(F.WatchOf(ExampleEnv().c, EXAMPLE_OPERATOR), receipts).faults && f.Equivocation?
    ensures f.a.receipt == f.b.receipt <==> b == 1
  {
    var x, y := ExampleReceipt(1, 1), ExampleReceipt(b, s);
    ExampleIsAccepted(1, 1);
    ExampleIsAccepted(b, s);
    ExamplesDiffer(b, s);
    receipts := [x, y];
    f := TwoStatements(F.WatchOf(ExampleEnv().c, EXAMPLE_OPERATOR), x, y);
  }

  // ---- Registering ----

  /** A signed instruction with nothing before it in its transaction. */
  function Plainly(caller: Key, slot: nat, operator: Key, instruction: Instruction): Request {
    Request(caller, true, slot, 0, Sibling(false, []), operator, instruction)
  }

  const EXAMPLE_FUNDS: nat := 2_000_010

  function ExampleOpening(): Ledger { Ledger(map[], map[ZERO32 := EXAMPLE_FUNDS], map[], 0) }

  lemma ExampleSupply()
    ensures Supply(ExampleEnv(), ExampleOpening()) == EXAMPLE_FUNDS
  {
    var none: map<Key, nat> := map[];
    SumUpdate(none, LamportsIn, ZERO32, EXAMPLE_FUNDS);
    assert none[ZERO32 := EXAMPLE_FUNDS] == ExampleOpening().wallets;
  }

  /** A run of one registration by an operator whose address is empty. */
  lemma RegistrationRun(env: Env, start: Ledger, k: Key, signingKey: Bytes32, bond: nat)
    returns (ledgers: seq<Ledger>, requests: seq<Request>)
    requires start.operators == map[] && Supply(env, start) < U64_LIMIT && start.StrayAt((k, OperatorPlace)) == 0
    requires bond > 0 && start.Funds(k) >= env.operatorRent + bond
    ensures IsRun(env, ledgers, requests) && |requests| == 1 && k in ledgers[1].operators
    ensures var o := ledgers[1].operators[k]; o.bond == bond && o.signingKey == signingKey && o.unbondAt == 0
    ensures ledgers[1].stray == start.stray && ledgers[1].Funds(k) == start.Funds(k) - env.operatorRent - bond
  {
    requests := [Plainly(k, 0, k, Register(signingKey, bond))];
    ledgers := [start, After(env, start, requests[0])];
  }

  lemma ExampleRun() returns (ledgers: seq<Ledger>, requests: seq<Request>)
    ensures IsRun(ExampleEnv(), ledgers, requests) && |requests| == 1 && ZERO32 in ledgers[1].operators
    ensures var o := ledgers[1].operators[ZERO32]; o.bond == 10 && o.signingKey == ZERO32 && o.unbondAt == 0
    ensures ledgers[1].stray == map[] && ledgers[1].Funds(ZERO32) == 2_000_000
    ensures StoryOf(ExampleEnv(), ledgers, requests, ZERO32).Departures(1) == 0
  {
    ExampleSupply();
    ledgers, requests := RegistrationRun(ExampleEnv(), ExampleOpening(), ZERO32, ZERO32, 10);
    BondLeavesOnce(ExampleEnv(), ledgers, requests, ZERO32, 1);
  }

  /** An operator registers, signs two statements about one position, and loses
      the bond. */
  lemma ConvictionExample() returns (env: Env, l: Ledger, q: Request)
    ensures Transact(env, l, q).Ok? && q.instruction.ProveEquivocation?
    ensures ZERO32 in l.operators && l.operators[ZERO32].bond == 10
    ensures ZERO32 in Transact(env, l, q).value.operators && Transact(env, l, q).value.operators[ZERO32].bond == 0
  {
    env := ExampleEnv();
    var ledgers, requests := ExampleRun();
    var receipts, f := ExampleScan(2, 1);
    DetectionConvicts(env, ledgers, requests, 1, EXAMPLE_OPERATOR, ZERO32, receipts, f, ZERO32, 0, 1);
    l, q := ledgers[1], CourtRequest(env, ZERO32, ZERO32, ZERO32, 0, 1, f.a, f.b);
  }

  /** Two signatures over one receipt: the watchtower reports an equivocation,
      the report verifies, and the program refuses the court's transaction. */
  lemma SignatureOnlyExample() returns (env: Env, l: Ledger, q: Request, receipts: L.Log, f: F.Fault)
    ensures f in L.ScanOf(F.WatchOf(env.c, EXAMPLE_OPERATOR), receipts).faults && f.Equivocation?
    ensures f.a.receipt == f.b.receipt && F.Verify(env.c, EXAMPLE_OPERATOR.key, f) == Ok(())
    ensures ZERO32 in l.operators && l.operators[ZERO32].bond == 10
    ensures q == CourtRequest(env, ZERO32, ZERO32, ZERO32, 0, 1, f.a, f.b) && Transact(env, l, q).Err?
  {
    env := ExampleEnv();
    var ledgers, requests := ExampleRun();
    receipts, f := ExampleScan(1, 2);
    T.EveryFaultVerifies(env.c, EXAMPLE_OPERATOR, receipts, f);
    DetectionConvicts(env, ledgers, requests, 1, EXAMPLE_OPERATOR, ZERO32, receipts, f, ZERO32, 0, 1);
    l, q := ledgers[1], CourtRequest(env, ZERO32, ZERO32, ZERO32, 0, 1, f.a, f.b);
  }

  // ---- An address that is not empty ----

  lemma ExtendRun(env: Env, ledgers: seq<Ledger>, requests: seq<Request>, q: Request)
    returns (ledgers': seq<Ledger>, requests': seq<Request>)
    requires IsRun(env, ledgers, requests)
    ensures IsRun(env, ledgers', requests') && requests' == requests + [q]
    ensures ledgers' == ledgers + [After(env, ledgers[|requests|], q)]
  {
    ledgers', requests' := ledgers + [After(env, ledgers[|requests|], q)], requests + [q];
  }

  lemma TransferArrives(env: Env, l: Ledger, k: Key, key: ConvictionKey, amount: nat)
    requires l.Funds(k) >= amount
    ensures var next := After(env, l, Plainly(k, 0, k, Donate(ConvictionPlace(key), amount)));
      && next.operators == l.operators && next.Funds(k) == l.Funds(k) - amount
      && next.StrayAt((k, ConvictionPlace(key))) == l.StrayAt((k, ConvictionPlace(key))) + amount
  {
  }

  lemma UnbondStarts(env: Env, l: Ledger, k: Key, slot: nat)
    requires k in l.operators && l.operators[k].bond > 0 && l.operators[k].unbondAt == 0
    ensures var next := After(env, l, Plainly(k, slot, k, BeginUnbond));
      && k in next.operators && next.operators[k] == l.operators[k].(unbondAt := slot + Rules.UNBOND_SLOTS)
      && next.Funds(k) == l.Funds(k) && next.stray == l.stray
  {
  }

  lemma BondComesBack(env: Env, l: Ledger, k: Key, slot: nat)
    requires Sound(env, l) && k in l.operators && 0 < l.operators[k].unbondAt <= slot
    ensures var next := After(env, l, Plainly(k, slot, k, WithdrawBond));
      && Transact(env, l, Plainly(k, slot, k, WithdrawBond)).Ok?
      && k in next.operators && next.operators[k].bond == 0
      && next.Funds(k) == l.Funds(k) + l.operators[k].bond
  {
    var q := Plainly(k, slot, k, WithdrawBond);
    WithdrawIsRefusedOnlyWhileLocked(env, l, q);
    StepMovesBond(env, l, q, Transact(env, l, q).value);
  }

  /** While lamports sit at its address no proof files a conviction there. */
  lemma OccupiedIsRefused(env: Env, l: Ledger, q: Request)
    requires q.instruction.ProveEquivocation?
    requires l.StrayAt((q.operator, ConvictionPlace(q.instruction.conviction.1))) > 0
    ensures Transact(env, l, q).Err?
  {
  }

  /** From any moment of any run at which operator `k`'s bond stands unasked for
      and `k` can spare `amount` lamports: a transfer to the address of a pair of
      statements, a request for the bond and a withdrawal `UNBOND_SLOTS` later.
      In between, the court's transaction about that pair is refused whoever
      sends it; at the end the bond is back in `k`'s wallet. */
  lemma OccupiedAddressRun(env: Env, ledgers: seq<Ledger>, requests: seq<Request>, k: Key, amount: nat, slot: nat,
          a: SignedReceipt, b: SignedReceipt)
    returns (ledgers': seq<Ledger>, requests': seq<Request>)
    requires IsRun(env, ledgers, requests) && k in ledgers[|requests|].operators
    requires var l := ledgers[|requests|];
      && l.operators[k].bond > 0 && l.operators[k].unbondAt == 0 && l.Funds(k) >= amount > 0
    ensures IsRun(env, ledgers', requests') && |requests'| == |requests| + 3
    ensures ledgers'[|requests|] == ledgers[|requests|]
    ensures forall m :: |requests| < m < |requests'| ==>
      Shielded(env, ledgers'[m], ledgers[|requests|].operators[k], k, a, b)
    ensures var l, final := ledgers[|requests|], ledgers'[|requests'|];
      && k in final.operators && final.operators[k].bond == 0
      && final.Funds(k) == l.Funds(k) - amount + l.operators[k].bond
  {
    var l, at := ledgers[|requests|], CourtAddress(env, k, a, b);
    TransferArrives(env, l, k, at.1.key, amount);
    ledgers', requests' := ExtendRun(env, ledgers, requests, Plainly(k, 0, k, Donate(at.1, amount)));
    var funded := ledgers'[|requests'|];
    UnbondStarts(env, funded, k, slot);
    ledgers', requests' := ExtendRun(env, ledgers', requests', Plainly(k, slot, k, BeginUnbond));
    var asked := ledgers'[|requests'|];
    EveryRunIsSound(env, ledgers', requests', |requests'|);
    BondComesBack(env, asked, k, slot + Rules.UNBOND_SLOTS);
    ledgers', requests' := ExtendRun(env, ledgers', requests', Plainly(k, slot + Rules.UNBOND_SLOTS, k, WithdrawBond));
    OccupiedShields(env, funded, l.operators[k], k, a, b);
    OccupiedShields(env, asked, l.operators[k], k, a, b);
    forall m | |requests| < m < |requests'| ensures Shielded(env, ledgers'[m], l.operators[k], k, a, b) {
      assert ledgers'[m] == funded || ledgers'[m] == asked;
    }
  }

  /** The bond stands as in `o`, and the court's transaction about `a` and `b` is
      refused whoever sends it. */
  ghost predicate Shielded(env: Env, l: Ledger, o: OperatorState, k: Key, a: SignedReceipt, b: SignedReceipt) {
    && k in l.operators && l.operators[k].bond == o.bond && l.operators[k].signingKey == o.signingKey
    && forall caller, slot, here: U16 ::
         Transact(env, l, CourtRequest(env, k, o.signingKey, caller, slot, here, a, b)).Err?
  }

  lemma OccupiedShields(env: Env, l: Ledger, o: OperatorState, k: Key, a: SignedReceipt, b: SignedReceipt)
    requires k in l.operators && l.operators[k].bond == o.bond && l.operators[k].signingKey == o.signingKey
    requires l.StrayAt(CourtAddress(env, k, a, b)) > 0
    ensures Shielded(env, l, o, k, a, b)
  {
    forall caller, slot, here: U16
      ensures Transact(env, l, CourtRequest(env, k, o.signingKey, caller, slot, here, a, b)).Err?
    {
      OccupiedIsRefused(env, l, CourtRequest(env, k, o.signingKey, caller, slot, here, a, b));
    }
  }

  /** An instance: an operator signs two statements about one position, a scan
      reports them, and after a transfer of a million lamports the operator is
      not convicted and has its bond back. */
  lemma OccupiedAddressExample()
    returns (env: Env, ledgers: seq<Ledger>, requests: seq<Request>, receipts: L.Log, f: F.Fault)
    ensures IsRun(env, ledgers, requests) && |requests| == 4
    ensures f in L.ScanOf(F.WatchOf(env.c, EXAMPLE_OPERATOR), receipts).faults && f.Equivocation?
    ensures f.a.receipt != f.b.receipt && ZERO32 in ledgers[1].operators && ledgers[1].operators[ZERO32].bond == 10
    ensures forall m :: 1 < m < 4 ==> Shielded(env, ledgers[m], ledgers[1].operators[ZERO32], ZERO32, f.a, f.b)
    ensures ZERO32 in ledgers[4].operators && ledgers[4].operators[ZERO32].bond == 0
    ensures ledgers[4].Funds(ZERO32) == 1_000_010
  {
    env := ExampleEnv();
    ledgers, requests := ExampleRun();
    receipts, f := ExampleScan(2, 1);
    ledgers, requests := OccupiedAddressRun(env, ledgers, requests, ZERO32, 1_000_000, 0, f.a, f.b);
  }
}
