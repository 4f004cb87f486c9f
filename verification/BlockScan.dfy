/** Checking one block against the receipts the operator issued for it
    (`reorder.rs`). */
module BlockScan {
  import opened Base
  import opened Faults
  import opened Blocks
  import opened ReceiptTables
  import opened Serializability

  /** What the checks of one block share: who is watched, the block, its
      recovered order, the receipts and the validator's own key. */
  datatype Scene = Scene(
    w: Watch,
    block: ObservedBlock,
    executed: Transactions,
    receipts: ReceiptIndex,
    identity: Bytes32)

  function CheckTicketIsLive(s: Scene, i: nat): Verdict
    requires i < |s.executed|
  {
    var t := s.executed[i];
    match s.receipts.Find(t)
    case None => Accuse(Unticketed(s.block.slot, i, t.signature, t.wireBytes))
    case Some(receipt) =>
      match s.receipts.Withdrawal(s.w, receipt)
      case None => Clean
      case Some(withdrawal) =>
        Accuse(WithdrawnButExecuted(receipt, withdrawal, Execution(s.block.slot, i),
                                    s.block.previousBlockhash, s.block.blockhash, Signatures(s.executed)))
  }

  function CheckPair(s: Scene, i: nat, j: nat): Verdict
    requires i < j < |s.executed|
  {
    var first, second := s.executed[i], s.executed[j];
    if !Conflicts(first, second) then Clean
    else if s.receipts.Find(first).None? || s.receipts.Find(second).None? then
      CannotDetermine(MissingReceipt(s.block.slot))
    else
      var a, b := s.receipts.Find(first).value, s.receipts.Find(second).value;
      if !Accepted(s.w, a) || !Accepted(s.w, b) then CannotDetermine(MissingReceipt(s.block.slot))
      else if s.receipts.Withdrawal(s.w, a).Some? || s.receipts.Withdrawal(s.w, b).Some? then
        CannotDetermine(WithdrawnReceipt(s.block.slot))
      else if a.receipt.seqNo < b.receipt.seqNo then Clean
      else if first.feePayer == s.identity || second.feePayer == s.identity then
        CannotDetermine(OperatorIssuedPair(s.block.slot))
      else Accuse(Reorder(s.block.slot, s.block.previousBlockhash, s.block.blockhash, Signatures(s.executed),
                          ReorderedTransaction(a, first.wireBytes, i),
                          ReorderedTransaction(b, second.wireBytes, j)))
  }

  function TicketVerdicts(s: Scene, n: nat): (v: seq<Verdict>)
    requires n <= |s.executed|
    ensures |v| == n
  {
    if n == 0 then [] else TicketVerdicts(s, n - 1) + [CheckTicketIsLive(s, n - 1)]
  }

  /** The verdicts on position `i` with each later position before `end`. */
  function RowVerdicts(s: Scene, i: nat, end: nat): seq<Verdict>
    requires i < end <= |s.executed|
  {
    if end == i + 1 then [] else RowVerdicts(s, i, end - 1) + [CheckPair(s, i, end - 1)]
  }

  function PairVerdicts(s: Scene, n: nat): seq<Verdict>
    requires n <= |s.executed|
  {
    if n == 0 then [] else PairVerdicts(s, n - 1) + RowVerdicts(s, n - 1, |s.executed|)
  }

  function BlockVerdicts(s: Scene): seq<Verdict> {
    TicketVerdicts(s, |s.executed|) + PairVerdicts(s, |s.executed|)
  }

  function BlockScanOf(c: Crypto, w: Watch, block: ObservedBlock, receipts: ReceiptIndex, identity: Bytes32): Scan {
    match ExecutedOrder(c, block)
    case None => EMPTY_SCAN.Record(CannotDetermine(UnverifiableBlock(block.slot)))
    case Some(executed) => Tally(BlockVerdicts(Scene(w, block, executed, receipts, identity)))
  }

  method ScanTickets(s: Scene) returns (scan: Scan)
    ensures scan == Tally(TicketVerdicts(s, |s.executed|))
  {
    scan := EMPTY_SCAN;
    for i := 0 to |s.executed|
      invariant scan == Tally(TicketVerdicts(s, i))
    {
      scan := scan.Record(CheckTicketIsLive(s, i));
      TallyAppend(TicketVerdicts(s, i), CheckTicketIsLive(s, i));
    }
  }

  lemma Regroup<T>(a: seq<T>, b: seq<T>, c: seq<T>)
    ensures a + (b + c) == (a + b) + c
  {
  }

  method ScanRow(s: Scene, i: nat, before: Scan, ghost verdicts: seq<Verdict>) returns (scan: Scan)
    requires i < |s.executed| && before == Tally(verdicts)
    ensures scan == Tally(verdicts + RowVerdicts(s, i, |s.executed|))
  {
    scan := before;
    assert verdicts + [] == verdicts;
    for j := i + 1 to |s.executed|
      invariant scan == Tally(verdicts + RowVerdicts(s, i, j))
    {
      scan := scan.Record(CheckPair(s, i, j));
      TallyAppend(verdicts + RowVerdicts(s, i, j), CheckPair(s, i, j));
      Regroup(verdicts, RowVerdicts(s, i, j), [CheckPair(s, i, j)]);
    }
  }

  method ScanPositions(s: Scene) returns (scan: Scan)
    ensures scan == Tally(BlockVerdicts(s))
  {
    scan := ScanTickets(s);
    ghost var tickets := TicketVerdicts(s, |s.executed|);
    assert tickets + [] == tickets;
    for i := 0 to |s.executed|
      invariant scan == Tally(tickets + PairVerdicts(s, i))
    {
      scan := ScanRow(s, i, scan, tickets + PairVerdicts(s, i));
      Regroup(tickets, PairVerdicts(s, i), RowVerdicts(s, i, |s.executed|));
    }
  }

  method ScanBlock(c: Crypto, w: Watch, block: ObservedBlock, receipts: ReceiptIndex, identity: Bytes32)
    returns (scan: Scan)
    ensures scan == BlockScanOf(c, w, block, receipts, identity)
  {
    var order := ExecutedOrder(c, block);
    if order.None? {
      return EMPTY_SCAN.Record(CannotDetermine(UnverifiableBlock(block.slot)));
    }
    scan := ScanPositions(Scene(w, block, order.value, receipts, identity));
  }

  // ---- Which checks ran ----

  predicate FromTicket(s: Scene, n: nat, v: Verdict)
    requires n <= |s.executed|
  {
    exists i :: 0 <= i < n && CheckTicketIsLive(s, i) == v
  }

  predicate FromPair(s: Scene, n: nat, v: Verdict)
    requires n <= |s.executed|
  {
    exists i, j :: 0 <= i < n && i < j < |s.executed| && CheckPair(s, i, j) == v
  }

  lemma {:induction false} TicketMembers(s: Scene, n: nat, v: Verdict)
    requires n <= |s.executed|
    ensures v in TicketVerdicts(s, n) <==> FromTicket(s, n, v)
  {
    if n > 0 {
      TicketMembers(s, n - 1, v);
    }
  }

  lemma {:induction false} RowMembers(s: Scene, i: nat, end: nat, v: Verdict)
    requires i < end <= |s.executed|
    ensures v in RowVerdicts(s, i, end) <==> exists j :: i < j < end && CheckPair(s, i, j) == v
    decreases end
  {
    if end > i + 1 {
      RowMembers(s, i, end - 1, v);
      assert v in RowVerdicts(s, i, end) <==> v in RowVerdicts(s, i, end - 1) || CheckPair(s, i, end - 1) == v;
    }
  }

  lemma {:induction false} PairMembers(s: Scene, n: nat, v: Verdict)
    requires n <= |s.executed|
    ensures v in PairVerdicts(s, n) <==> FromPair(s, n, v)
  {
    if n > 0 {
      PairMembers(s, n - 1, v);
      RowMembers(s, n - 1, |s.executed|, v);
      assert v in PairVerdicts(s, n) <==> v in PairVerdicts(s, n - 1) || v in RowVerdicts(s, n - 1, |s.executed|);
    }
  }

  /** Every position and every ordered pair of positions is checked, and
      nothing else contributes a verdict. */
  lemma VerdictsAreChecks(s: Scene, v: Verdict)
    ensures v in BlockVerdicts(s) <==> FromTicket(s, |s.executed|, v) || FromPair(s, |s.executed|, v)
  {
    TicketMembers(s, |s.executed|, v);
    PairMembers(s, |s.executed|, v);
  }
}
