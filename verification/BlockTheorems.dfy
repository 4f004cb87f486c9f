/** What a block scan establishes. */
module BlockTheorems {
  import opened Base
  import opened Receipts
  import opened BlockHash
  import opened Faults
  import opened Blocks
  import opened ReceiptTables
  import opened Serializability
  import opened BlockScan

  /** The scene of a block whose order is known, judged by delivered receipts. */
  function SceneOf(w: Watch, block: ObservedBlock, executed: Transactions, log: seq<SignedReceipt>,
          identity: Bytes32): Scene {
    Scene(w, block, executed, IndexOf(w, log), identity)
  }

  // ---- A clean block ----

  /** The receipt standing behind position `i`, if it is still good. */
  predicate Stands(s: Scene, i: nat)
    requires i < |s.executed|
  {
    s.receipts.Find(s.executed[i]).Some? && s.receipts.Withdrawal(s.w, s.receipts.Find(s.executed[i]).value).None?
  }

  /** Every position has a standing receipt. */
  predicate Covered(s: Scene) { forall i :: 0 <= i < |s.executed| ==> Stands(s, i) }

  function SequenceOf(s: Scene, i: nat): U64
    requires Covered(s) && i < |s.executed|
  {
    assert Stands(s, i);
    s.receipts.Find(s.executed[i]).value.receipt.seqNo
  }

  /** Conflicting transactions ran in the order they were sequenced. */
  predicate InOrder(s: Scene)
    requires Covered(s)
  {
    forall i, j :: 0 <= i < j < |s.executed| && Conflicts(s.executed[i], s.executed[j]) ==>
      SequenceOf(s, i) < SequenceOf(s, j)
  }

  lemma TicketClean(s: Scene, i: nat)
    requires i < |s.executed|
    ensures CheckTicketIsLive(s, i) == Clean <==> Stands(s, i)
  {
  }

  predicate FindsAccepted(s: Scene) {
    forall i :: 0 <= i < |s.executed| && s.receipts.Find(s.executed[i]).Some? ==>
      Accepted(s.w, s.receipts.Find(s.executed[i]).value)
  }

  lemma PairClean(s: Scene, i: nat, j: nat)
    requires i < j < |s.executed| && Covered(s) && FindsAccepted(s)
    ensures CheckPair(s, i, j) == Clean <==>
      (Conflicts(s.executed[i], s.executed[j]) ==> SequenceOf(s, i) < SequenceOf(s, j))
  {
    assert Stands(s, i) && Stands(s, j);
  }

  lemma IndexFindsAccepted(w: Watch, block: ObservedBlock, executed: Transactions, log: seq<SignedReceipt>,
          identity: Bytes32)
    ensures FindsAccepted(SceneOf(w, block, executed, log, identity))
  {
    forall i | 0 <= i < |executed| && IndexOf(w, log).Find(executed[i]).Some?
      ensures Accepted(w, IndexOf(w, log).Find(executed[i]).value)
    {
      FoundReceipt(w, log, executed[i]);
    }
  }

  predicate AllClean(s: Scene) {
    && (forall i :: 0 <= i < |s.executed| ==> CheckTicketIsLive(s, i) == Clean)
    && (forall i, j :: 0 <= i < j < |s.executed| ==> CheckPair(s, i, j) == Clean)
  }

  lemma TallyClean(s: Scene)
    ensures Tally(BlockVerdicts(s)).IsClean() <==> AllClean(s)
  {
    var n, verdicts := |s.executed|, BlockVerdicts(s);
    TallyReports(verdicts);
    forall v ensures v in verdicts <==> FromTicket(s, n, v) || FromPair(s, n, v) {
      VerdictsAreChecks(s, v);
    }
    if Tally(verdicts).IsClean() {
      forall i | 0 <= i < n ensures CheckTicketIsLive(s, i) == Clean {
        assert FromTicket(s, n, CheckTicketIsLive(s, i));
      }
      forall i, j | 0 <= i < j < n ensures CheckPair(s, i, j) == Clean {
        assert FromPair(s, n, CheckPair(s, i, j));
      }
    }
  }

  lemma AllCleanMeans(s: Scene)
    requires FindsAccepted(s)
    ensures AllClean(s) <==> Covered(s) && InOrder(s)
  {
    forall i | 0 <= i < |s.executed|
      ensures CheckTicketIsLive(s, i) == Clean <==> Stands(s, i)
    {
      TicketClean(s, i);
    }
    if Covered(s) {
      forall i, j | 0 <= i < j < |s.executed|
        ensures CheckPair(s, i, j) == Clean <==>
          (Conflicts(s.executed[i], s.executed[j]) ==> SequenceOf(s, i) < SequenceOf(s, j))
      {
        PairClean(s, i, j);
      }
    }
  }

  /** A block scan is clean exactly when the block's order is recovered, every
      transaction in it has a receipt the operator still stands behind, and
      conflicting transactions ran in sequence order. */
  lemma CleanBlockMeans(c: Crypto, w: Watch, block: ObservedBlock, log: seq<SignedReceipt>, identity: Bytes32)
    ensures BlockScanOf(c, w, block, IndexOf(w, log), identity).IsClean() <==>
      && ExecutedOrder(c, block).Some?
      && var s := SceneOf(w, block, ExecutedOrder(c, block).value, log, identity);
      && Covered(s) && InOrder(s)
  {
    if ExecutedOrder(c, block).Some? {
      var executed := ExecutedOrder(c, block).value;
      TallyClean(SceneOf(w, block, executed, log, identity));
      IndexFindsAccepted(w, block, executed, log, identity);
      AllCleanMeans(SceneOf(w, block, executed, log, identity));
    }
  }

  // ---- Serializability ----

  function Upto(n: nat): (s: seq<nat>)
    ensures |s| == n && forall i :: 0 <= i < n ==> s[i] == i
  {
    if n == 0 then [] else Upto(n - 1) + [n - 1]
  }

  lemma {:induction false} UptoOnce(n: nat, x: nat)
    ensures multiset(Upto(n))[x] == if x < n then 1 else 0
  {
    if n > 0 {
      UptoOnce(n - 1, x);
      assert multiset(Upto(n))[x] == multiset(Upto(n - 1))[x] + if x == n - 1 then 1 else 0;
    }
  }

  lemma Distinct(order: seq<nat>, n: nat, p: nat, q: nat)
    requires multiset(order) == multiset(Upto(n)) && p < q < |order|
    ensures order[p] != order[q]
  {
    UptoOnce(n, order[p]);
    assert order == order[..q] + order[q..];
    assert multiset(order) == multiset(order[..q]) + multiset(order[q..]);
    assert order[..q][p] == order[p] && order[q..][0] == order[q];
    assert order[p] in order[..q] && order[q] in order[q..];
  }

  /** `order` lists every position of the block once, by receipt sequence. */
  ghost predicate SortedBySequence(s: Scene, order: seq<nat>)
    requires Covered(s)
  {
    && multiset(order) == multiset(Upto(|s.executed|))
    && Within(s.executed, order)
    && forall p, q :: 0 <= p < q < |order| ==> SequenceOf(s, order[p]) <= SequenceOf(s, order[q])
  }

  lemma SequenceKeepsConflicts(s: Scene, order: seq<nat>)
    requires Covered(s) && InOrder(s) && SortedBySequence(s, order)
    ensures KeepsConflicts(s.executed, order)
  {
    forall p, q | 0 <= p < q < |order| && Conflicts(s.executed[order[p]], s.executed[order[q]])
      ensures order[p] < order[q]
    {
      Distinct(order, |s.executed|, p, q);
      assert SequenceOf(s, order[p]) <= SequenceOf(s, order[q]);
      assert Conflicts(s.executed[order[q]], s.executed[order[p]]);
    }
  }

  /** A clean block is serializable by receipt: whatever the transactions
      compute, running them by sequence number leaves exactly the accounts the
      executed order left. */
  lemma CleanBlockIsSerializable<V>(c: Crypto, w: Watch, block: ObservedBlock, log: seq<SignedReceipt>,
          identity: Bytes32, sem: Semantics<V>, state: map<Bytes32, V>, order: seq<nat>)
    requires BlockScanOf(c, w, block, IndexOf(w, log), identity).IsClean()
    requires ExecutedOrder(c, block).Some? && Covered(SceneOf(w, block, ExecutedOrder(c, block).value, log, identity))
    requires SortedBySequence(SceneOf(w, block, ExecutedOrder(c, block).value, log, identity), order)
    ensures var executed := ExecutedOrder(c, block).value;
      Execute(sem, state, executed, order) == Execute(sem, state, executed, Upto(|executed|))
  {
    CleanBlockMeans(c, w, block, log, identity);
    var s := SceneOf(w, block, ExecutedOrder(c, block).value, log, identity);
    SequenceKeepsConflicts(s, order);
    ConflictOrderDecidesState(sem, state, s.executed, Upto(|s.executed|), order);
  }

  // ---- What is accused ----

  /** Positions `i` and `j` ran against their receipts, both standing, and
      neither is the validator's own work. */
  predicate RanOutOfOrder(s: Scene, i: nat, j: nat)
    requires i < j < |s.executed|
  {
    && Conflicts(s.executed[i], s.executed[j]) && Stands(s, i) && Stands(s, j)
    && s.receipts.Find(s.executed[i]).value.receipt.seqNo >= s.receipts.Find(s.executed[j]).value.receipt.seqNo
    && s.executed[i].feePayer != s.identity && s.executed[j].feePayer != s.identity
  }

  lemma PairAccusedIff(s: Scene, i: nat, j: nat)
    requires i < j < |s.executed| && FindsAccepted(s)
    ensures CheckPair(s, i, j).Accuse? <==> RanOutOfOrder(s, i, j)
  {
  }

  ghost predicate AccusedUnticketed(scan: Scan, i: nat) {
    exists f :: f in scan.faults && f.Unticketed? && f.index == i
  }

  ghost predicate AccusedWithdrawn(scan: Scan, i: nat) {
    exists f :: f in scan.faults && f.WithdrawnButExecuted? && f.execution.index == i
  }

  /** The scan's faults at position `i` that are not about order are those of
      its own check. */
  lemma PositionFaults(w: Watch, block: ObservedBlock, executed: Transactions, log: seq<SignedReceipt>,
          identity: Bytes32, i: nat)
    requires i < |executed|
    ensures var s := SceneOf(w, block, executed, log, identity);
      var verdict, scan := CheckTicketIsLive(s, i), Tally(BlockVerdicts(s));
      && (AccusedUnticketed(scan, i) <==> verdict.Accuse? && verdict.fault.Unticketed?)
      && (AccusedWithdrawn(scan, i) <==> verdict.Accuse? && verdict.fault.WithdrawnButExecuted?)
  {
    var s := SceneOf(w, block, executed, log, identity);
    var verdict, scan := CheckTicketIsLive(s, i), Tally(BlockVerdicts(s));
    TallyReports(BlockVerdicts(s));
    if verdict.Accuse? {
      assert FromTicket(s, |executed|, verdict);
      VerdictsAreChecks(s, verdict);
      assert verdict.fault in scan.faults;
    }
    forall f | f in scan.faults
      ensures f.Unticketed? && f.index == i ==> verdict == Accuse(f)
      ensures f.WithdrawnButExecuted? && f.execution.index == i ==> verdict == Accuse(f)
    {
      var a, b := FaultSource(w, block, executed, log, identity, f);
      if b > 0 {
        PairEvidence(w, block, executed, log, identity, a, b, f);
      }
    }
  }

  /** A position is accused of having no ticket exactly when no accepted plain
      receipt names its signature and no accepted ticket names its contents. */
  lemma UnticketedIsExact(c: Crypto, w: Watch, block: ObservedBlock, log: seq<SignedReceipt>, identity: Bytes32, i: nat)
    requires ExecutedOrder(c, block).Some? && i < |ExecutedOrder(c, block).value|
    ensures var t := ExecutedOrder(c, block).value[i];
      AccusedUnticketed(BlockScanOf(c, w, block, IndexOf(w, log), identity), i) <==>
        forall j :: 0 <= j < |log| ==>
          PlainKey(w)(log[j]) != Some(t.signature) && CommitKey(w)(log[j]) != Some(t.txHash)
  {
    var executed := ExecutedOrder(c, block).value;
    PositionFaults(w, block, executed, log, identity, i);
    NotFoundMeans(w, log, executed[i]);
  }

  /** It is accused of running a withdrawn transaction exactly when the receipt
      found for it is named by some accepted retraction. */
  lemma WithdrawnIsExact(c: Crypto, w: Watch, block: ObservedBlock, log: seq<SignedReceipt>, identity: Bytes32, i: nat)
    requires ExecutedOrder(c, block).Some? && i < |ExecutedOrder(c, block).value|
    ensures var found := IndexOf(w, log).Find(ExecutedOrder(c, block).value[i]);
      AccusedWithdrawn(BlockScanOf(c, w, block, IndexOf(w, log), identity), i) <==>
        found.Some? && exists j :: 0 <= j < |log| && RetractKey(w)(log[j]) == Some(w.hash(found.value))
  {
    var executed := ExecutedOrder(c, block).value;
    PositionFaults(w, block, executed, log, identity, i);
    var found := IndexOf(w, log).Find(executed[i]);
    if found.Some? {
      FoundWithdrawal(w, log, found.value);
    }
  }

  ghost predicate AccusedPair(scan: Scan, i: nat, j: nat) {
    exists f :: f in scan.faults && f.Reorder? && f.jumped.index == i && f.delayed.index == j
  }

  /** A pair of positions is accused of reordering exactly when two conflicting
      transactions, neither of them the validator's own, ran against the
      sequence numbers of receipts that both still stand. */
  lemma ReorderIsExact(c: Crypto, w: Watch, block: ObservedBlock, log: seq<SignedReceipt>, identity: Bytes32, i: nat,
          j: nat)
    requires ExecutedOrder(c, block).Some? && i < j < |ExecutedOrder(c, block).value|
    ensures AccusedPair(BlockScanOf(c, w, block, IndexOf(w, log), identity), i, j) <==>
      RanOutOfOrder(SceneOf(w, block, ExecutedOrder(c, block).value, log, identity), i, j)
  {
    var executed := ExecutedOrder(c, block).value;
    var s := SceneOf(w, block, executed, log, identity);
    var scan := Tally(BlockVerdicts(s));
    IndexFindsAccepted(w, block, executed, log, identity);
    PairAccusedIff(s, i, j);
    TallyReports(BlockVerdicts(s));
    if CheckPair(s, i, j).Accuse? {
      var f := CheckPair(s, i, j).fault;
      assert FromPair(s, |executed|, Accuse(f));
      VerdictsAreChecks(s, Accuse(f));
      PairEvidence(w, block, executed, log, identity, i, j, f);
    }
    if AccusedPair(scan, i, j) {
      var f :| f in scan.faults && f.Reorder? && f.jumped.index == i && f.delayed.index == j;
      var a, b := FaultSource(w, block, executed, log, identity, f);
      if b == 0 {
        TicketEvidence(w, block, executed, log, identity, a, f);
      } else {
        PairEvidence(w, block, executed, log, identity, a, b, f);
      }
    }
  }

  // ---- Re-verification ----

  /** What a third party can check about an accusation before presenting it:
      the evidence binds the bytes and signatures that were observed. */
  predicate Presentable(c: Crypto, executed: Transactions, f: Fault) {
    match f
    case Unticketed(_, _, _, _) => true
    case WithdrawnButExecuted(r, withdrawal, e, _, _, _) =>
      && e.index < |executed|
      && r.receipt.txSig == executed[e.index].signature
      && r.receipt.seqNo < withdrawal.receipt.seqNo
    case Reorder(_, _, _, _, jumped, delayed) =>
      && jumped.index < |executed| && delayed.index < |executed|
      && c.sha256(jumped.wireBytes) == jumped.receipt.receipt.txHash
      && c.sha256(delayed.wireBytes) == delayed.receipt.receipt.txHash
      && jumped.receipt.receipt.txSig == executed[jumped.index].signature
      && delayed.receipt.receipt.txSig == executed[delayed.index].signature
      && jumped.receipt.receipt.seqNo != delayed.receipt.receipt.seqNo
    case _ => false
  }

  lemma AcceptedIsSigned(c: Crypto, op: Operator, s: SignedReceipt)
    requires Accepted(WatchOf(c, op), s)
    ensures Signed(c, op.key, s).Ok? && s.receipt.logId == op.logId
  {
  }

  lemma ReorderVerifiesIff(c: Crypto, key: Bytes32, executed: Transactions, f: Fault)
    requires f.Reorder? && f.executed == Signatures(executed)
    requires FoldHash(c, f.previousBlockhash, f.executed) == f.blockhash
    requires f.jumped.index < f.delayed.index < |executed|
    requires Signed(c, key, f.jumped.receipt).Ok? && Signed(c, key, f.delayed.receipt).Ok?
    requires f.jumped.receipt.receipt.logId == f.delayed.receipt.receipt.logId
    requires f.delayed.receipt.receipt.seqNo <= f.jumped.receipt.receipt.seqNo
    ensures Verify(c, key, f).Ok? <==> Presentable(c, executed, f)
  {
  }

  lemma WithdrawnVerifiesIff(c: Crypto, key: Bytes32, executed: Transactions, f: Fault)
    requires f.WithdrawnButExecuted? && f.executed == Signatures(executed)
    requires FoldHash(c, f.previousBlockhash, f.executed) == f.blockhash
    requires f.execution.index < |executed|
    requires Signed(c, key, f.receipt).Ok? && Signed(c, key, f.withdrawal).Ok?
    requires f.receipt.receipt.logId == f.withdrawal.receipt.logId
    requires f.withdrawal.receipt.mode.Retract? && f.withdrawal.receipt.txHash == ReceiptHash(c, f.receipt)
    ensures Verify(c, key, f).Ok? <==> Presentable(c, executed, f)
  {
  }

  /** The evidence a position's check hands over. */
  lemma TicketEvidence(w: Watch, block: ObservedBlock, executed: Transactions, log: seq<SignedReceipt>,
          identity: Bytes32, i: nat, f: Fault)
    requires i < |executed| && CheckTicketIsLive(SceneOf(w, block, executed, log, identity), i) == Accuse(f)
    ensures f.Unticketed? || f.WithdrawnButExecuted?
    ensures f.WithdrawnButExecuted? ==>
      && f.executed == Signatures(executed) && f.execution.index == i
      && f.previousBlockhash == block.previousBlockhash && f.blockhash == block.blockhash
      && Accepted(w, f.receipt) && Accepted(w, f.withdrawal)
      && f.withdrawal.receipt.mode.Retract? && f.withdrawal.receipt.txHash == w.hash(f.receipt)
      && IndexOf(w, log).Find(executed[i]) == Some(f.receipt)
  {
    FoundReceipt(w, log, executed[i]);
    var found := IndexOf(w, log).Find(executed[i]);
    if found.Some? {
      FoundWithdrawal(w, log, found.value);
    }
  }

  /** The evidence a pair's check hands over. */
  lemma PairEvidence(w: Watch, block: ObservedBlock, executed: Transactions, log: seq<SignedReceipt>, identity: Bytes32,
          i: nat, j: nat, f: Fault)
    requires i < j < |executed| && CheckPair(SceneOf(w, block, executed, log, identity), i, j) == Accuse(f)
    ensures f.Reorder? && f.executed == Signatures(executed)
    ensures f.previousBlockhash == block.previousBlockhash && f.blockhash == block.blockhash
    ensures f.jumped.index == i && f.delayed.index == j
    ensures f.jumped.wireBytes == executed[i].wireBytes && f.delayed.wireBytes == executed[j].wireBytes
    ensures Accepted(w, f.jumped.receipt) && Accepted(w, f.delayed.receipt)
    ensures f.delayed.receipt.receipt.seqNo <= f.jumped.receipt.receipt.seqNo
    ensures IndexOf(w, log).Find(executed[i]) == Some(f.jumped.receipt)
    ensures IndexOf(w, log).Find(executed[j]) == Some(f.delayed.receipt)
  {
  }

  lemma TicketFaultVerifies(c: Crypto, op: Operator, block: ObservedBlock, executed: Transactions,
          log: seq<SignedReceipt>, identity: Bytes32, i: nat, f: Fault)
    requires i < |executed| && FoldHash(c, block.previousBlockhash, Signatures(executed)) == block.blockhash
    requires CheckTicketIsLive(SceneOf(WatchOf(c, op), block, executed, log, identity), i) == Accuse(f)
    ensures Verify(c, op.key, f).Ok? <==> Presentable(c, executed, f)
  {
    TicketEvidence(WatchOf(c, op), block, executed, log, identity, i, f);
    if f.WithdrawnButExecuted? {
      AcceptedIsSigned(c, op, f.receipt);
      AcceptedIsSigned(c, op, f.withdrawal);
      WithdrawnVerifiesIff(c, op.key, executed, f);
    }
  }

  lemma PairFaultVerifies(c: Crypto, op: Operator, block: ObservedBlock, executed: Transactions,
          log: seq<SignedReceipt>, identity: Bytes32, i: nat, j: nat, f: Fault)
    requires i < j < |executed| && FoldHash(c, block.previousBlockhash, Signatures(executed)) == block.blockhash
    requires CheckPair(SceneOf(WatchOf(c, op), block, executed, log, identity), i, j) == Accuse(f)
    ensures Verify(c, op.key, f).Ok? <==> Presentable(c, executed, f)
  {
    PairEvidence(WatchOf(c, op), block, executed, log, identity, i, j, f);
    AcceptedIsSigned(c, op, f.jumped.receipt);
    AcceptedIsSigned(c, op, f.delayed.receipt);
    ReorderVerifiesIff(c, op.key, executed, f);
  }

  /** Where a block fault came from. */
  lemma FaultSource(w: Watch, block: ObservedBlock, executed: Transactions, log: seq<SignedReceipt>, identity: Bytes32,
          f: Fault)
    returns (i: nat, j: nat)
    requires f in Tally(BlockVerdicts(SceneOf(w, block, executed, log, identity))).faults
    ensures i < |executed| && (j == 0 || i < j < |executed|)
    ensures j == 0 ==> CheckTicketIsLive(SceneOf(w, block, executed, log, identity), i) == Accuse(f)
    ensures j > 0 ==> CheckPair(SceneOf(w, block, executed, log, identity), i, j) == Accuse(f)
  {
    var s := SceneOf(w, block, executed, log, identity);
    TallyReports(BlockVerdicts(s));
    VerdictsAreChecks(s, Accuse(f));
    if k :| 0 <= k < |executed| && CheckTicketIsLive(s, k) == Accuse(f) {
      i, j := k, 0;
    } else {
      i, j :| 0 <= i < j < |executed| && CheckPair(s, i, j) == Accuse(f);
    }
  }

  /** A fault of a block scan passes `Fault::verify` exactly when its evidence
      is presentable. */
  lemma BlockFaultVerifiesIff(c: Crypto, op: Operator, block: ObservedBlock, log: seq<SignedReceipt>, identity: Bytes32,
          f: Fault)
    requires f in BlockScanOf(c, WatchOf(c, op), block, IndexOf(WatchOf(c, op), log), identity).faults
    ensures ExecutedOrder(c, block).Some?
    ensures Verify(c, op.key, f).Ok? <==> Presentable(c, ExecutedOrder(c, block).value, f)
  {
    var executed := ExecutedOrder(c, block).value;
    var i, j := FaultSource(WatchOf(c, op), block, executed, log, identity, f);
    if j == 0 {
      TicketFaultVerifies(c, op, block, executed, log, identity, i, f);
    } else {
      PairFaultVerifies(c, op, block, executed, log, identity, i, j, f);
    }
  }

  lemma PlainNamesSignature(w: Watch, block: ObservedBlock, executed: Transactions, log: seq<SignedReceipt>,
          identity: Bytes32, f: Fault)
    requires f in Tally(BlockVerdicts(SceneOf(w, block, executed, log, identity))).faults
    ensures f.WithdrawnButExecuted? ==>
      && f.execution.index < |executed|
      && (f.receipt.receipt.mode.Plain? ==> f.receipt.receipt.txSig == executed[f.execution.index].signature)
    ensures f.Reorder? ==>
      && f.jumped.index < f.delayed.index < |executed|
      && (f.jumped.receipt.receipt.mode.Plain? ==> f.jumped.receipt.receipt.txSig == executed[f.jumped.index].signature)
      && (f.delayed.receipt.receipt.mode.Plain? ==>
          f.delayed.receipt.receipt.txSig == executed[f.delayed.index].signature)
  {
    var i, j := FaultSource(w, block, executed, log, identity, f);
    FoundReceipt(w, log, executed[i]);
    FoundReceipt(w, log, executed[j]);
    if j == 0 {
      TicketEvidence(w, block, executed, log, identity, i, f);
    } else {
      PairEvidence(w, block, executed, log, identity, i, j, f);
    }
  }

  /** Plain receipts name the signature that ran, so an executed plain
      receipt's withdrawal convicts exactly when it came later in the log. */
  lemma PlainWithdrawnVerifiesIff(c: Crypto, op: Operator, block: ObservedBlock, log: seq<SignedReceipt>,
          identity: Bytes32, f: Fault)
    requires f in BlockScanOf(c, WatchOf(c, op), block, IndexOf(WatchOf(c, op), log), identity).faults
    requires f.WithdrawnButExecuted? && f.receipt.receipt.mode.Plain?
    ensures Verify(c, op.key, f).Ok? <==> f.receipt.receipt.seqNo < f.withdrawal.receipt.seqNo
  {
    BlockFaultVerifiesIff(c, op, block, log, identity, f);
    PlainNamesSignature(WatchOf(c, op), block, ExecutedOrder(c, block).value, log, identity, f);
  }

  /** And an order accusation between plain receipts stands exactly when they
      bind the observed bytes and differ in sequence number. */
  lemma PlainReorderVerifiesIff(c: Crypto, op: Operator, block: ObservedBlock, log: seq<SignedReceipt>,
          identity: Bytes32, f: Fault)
    requires f in BlockScanOf(c, WatchOf(c, op), block, IndexOf(WatchOf(c, op), log), identity).faults
    requires f.Reorder? && f.jumped.receipt.receipt.mode.Plain? && f.delayed.receipt.receipt.mode.Plain?
    ensures Verify(c, op.key, f).Ok? <==>
      && c.sha256(f.jumped.wireBytes) == f.jumped.receipt.receipt.txHash
      && c.sha256(f.delayed.wireBytes) == f.delayed.receipt.receipt.txHash
      && f.jumped.receipt.receipt.seqNo != f.delayed.receipt.receipt.seqNo
  {
    BlockFaultVerifiesIff(c, op, block, log, identity, f);
    PlainNamesSignature(WatchOf(c, op), block, ExecutedOrder(c, block).value, log, identity, f);
  }

  /** A ticket carries no signature, so an accusation resting on one is refused
      whenever the transaction that ran has a signature other than zero. */
  lemma TicketFaultNeverVerifies(c: Crypto, op: Operator, block: ObservedBlock, log: seq<SignedReceipt>,
          identity: Bytes32, f: Fault)
    requires f in BlockScanOf(c, WatchOf(c, op), block, IndexOf(WatchOf(c, op), log), identity).faults
    requires forall t :: t in block.transactions ==> t.signature != ZERO64
    ensures f.WithdrawnButExecuted? && f.receipt.receipt.mode.Commit? ==> Verify(c, op.key, f).Err?
    ensures f.Reorder? && (f.jumped.receipt.receipt.mode.Commit? || f.delayed.receipt.receipt.mode.Commit?) ==>
      Verify(c, op.key, f).Err?
  {
    var w := WatchOf(c, op);
    BlockFaultVerifiesIff(c, op, block, log, identity, f);
    var executed := ExecutedOrder(c, block).value;
    var i, j := FaultSource(w, block, executed, log, identity, f);
    ReversedMembers(block.transactions);
    assert executed[i] in executed && executed[j] in executed;
    if j == 0 {
      TicketEvidence(w, block, executed, log, identity, i, f);
      if f.WithdrawnButExecuted? {
        CommitHasNoSignature(c, op, f.receipt);
      }
    } else {
      PairEvidence(w, block, executed, log, identity, i, j, f);
      CommitHasNoSignature(c, op, f.jumped.receipt);
      CommitHasNoSignature(c, op, f.delayed.receipt);
    }
  }

  lemma CommitHasNoSignature(c: Crypto, op: Operator, s: SignedReceipt)
    requires Accepted(WatchOf(c, op), s)
    ensures s.receipt.mode.Commit? ==> s.receipt.txSig == ZERO64
  {
  }

  lemma ReversedMembers(txs: Transactions)
    ensures forall t :: t in Reversed(txs) ==> t in txs
  {
  }

  // ---- An accusation that rests on tickets ----

  function ExampleTicket(seqNo: U64, hash: Bytes32): SignedReceipt {
    SignedReceipt(Receipt(ZERO32, Commit, seqNo, ZERO64, hash, ZERO32, ZERO32, Filled(32, 1), 0, 0), ZERO64)
  }

  function ExampleTransaction(b: Byte): ObservedTransaction {
    ObservedTransaction(Filled(64, b), Filled(32, b), ZERO32, [ZERO32], [], [])
  }

  function ExampleCrypto(): Crypto { Crypto((_, _, _) => true, _ => ZERO32, _ => ZERO32) }

  lemma TwoTicketsFound(w: Watch, a: SignedReceipt, b: SignedReceipt, first: ObservedTransaction,
          second: ObservedTransaction)
    requires Accepted(w, a) && Accepted(w, b) && a.receipt.mode.Commit? && b.receipt.mode.Commit?
    requires a.receipt.txHash == first.txHash && b.receipt.txHash == second.txHash && first.txHash != second.txHash
    ensures var index := IndexOf(w, [a, b]);
      index.Find(first) == Some(a) && index.Find(second) == Some(b) && index.withdrawn == map[]
  {
    var log := [a, b];
    assert log[..1] == [a] && log[..1][..0] == [];
    assert LastBy(log[..1], PlainKey(w)) == map[] && LastBy(log, PlainKey(w)) == map[];
    assert LastBy(log[..1], RetractKey(w)) == map[] && LastBy(log, RetractKey(w)) == map[];
    assert LastBy(log[..1], CommitKey(w)) == map[first.txHash := a];
  }

  lemma TwoTicketsAccused(w: Watch, block: ObservedBlock, a: SignedReceipt, b: SignedReceipt,
          first: ObservedTransaction, second: ObservedTransaction, identity: Bytes32) returns (f: Fault)
    requires Accepted(w, a) && Accepted(w, b) && a.receipt.mode.Commit? && b.receipt.mode.Commit?
    requires a.receipt.txHash == first.txHash && b.receipt.txHash == second.txHash && first.txHash != second.txHash
    requires Conflicts(first, second) && b.receipt.seqNo <= a.receipt.seqNo
    requires first.feePayer != identity && second.feePayer != identity
    ensures f.Reorder? && f.jumped.receipt.receipt.mode.Commit?
    ensures f in Tally(BlockVerdicts(SceneOf(w, block, [first, second], [a, b], identity))).faults
  {
    TwoTicketsFound(w, a, b, first, second);
    var s := SceneOf(w, block, [first, second], [a, b], identity);
    f := CheckPair(s, 0, 1).fault;
    assert FromPair(s, 2, Accuse(f));
    VerdictsAreChecks(s, Accuse(f));
    TallyReports(BlockVerdicts(s));
  }

  lemma TwoTicketsRefused(c: Crypto, op: Operator, block: ObservedBlock, a: SignedReceipt, b: SignedReceipt,
          first: ObservedTransaction, second: ObservedTransaction, identity: Bytes32) returns (f: Fault)
    requires Accepted(WatchOf(c, op), a) && Accepted(WatchOf(c, op), b)
    requires a.receipt.mode.Commit? && b.receipt.mode.Commit?
    requires a.receipt.txHash == first.txHash && b.receipt.txHash == second.txHash && first.txHash != second.txHash
    requires Conflicts(first, second) && b.receipt.seqNo <= a.receipt.seqNo
    requires first.feePayer != identity && second.feePayer != identity
    requires first.signature != ZERO64 && second.signature != ZERO64
    requires block.transactions == [first, second] && ExecutedOrder(c, block) == Some([first, second])
    ensures f in BlockScanOf(c, WatchOf(c, op), block, IndexOf(WatchOf(c, op), [a, b]), identity).faults
    ensures f.Reorder? && Verify(c, op.key, f).Err?
  {
    f := TwoTicketsAccused(WatchOf(c, op), block, a, b, first, second, identity);
    TicketFaultNeverVerifies(c, op, block, [a, b], identity, f);
  }

  lemma ExampleIsAccepted(seqNo: U64, hash: Bytes32)
    ensures Accepted(WatchOf(ExampleCrypto(), Operator(ZERO32, ZERO32)), ExampleTicket(seqNo, hash))
  {
    assert Filled(32, 1)[0] != ZERO32[0];
  }

  lemma ExampleConflicts(x: Byte, y: Byte)
    ensures Conflicts(ExampleTransaction(x), ExampleTransaction(y))
  {
    assert ZERO32 in ExampleTransaction(x).writable && ZERO32 in ExampleTransaction(y).writable;
  }

  /** Two tickets executed against their sequence numbers: the scan accuses,
      and `Fault::verify` refuses the accusation. */
  lemma TicketReorderExample() returns (c: Crypto, op: Operator, block: ObservedBlock, log: seq<SignedReceipt>,
          identity: Bytes32, f: Fault)
    ensures f in BlockScanOf(c, WatchOf(c, op), block, IndexOf(WatchOf(c, op), log), identity).faults
    ensures f.Reorder? && Verify(c, op.key, f).Err?
  {
    c, op, identity := ExampleCrypto(), Operator(ZERO32, ZERO32), Filled(32, 1);
    var first, second := ExampleTransaction(1), ExampleTransaction(2);
    var a, b := ExampleTicket(1, first.txHash), ExampleTicket(0, second.txHash);
    block, log := ObservedBlock(0, ZERO32, ZERO32, [first, second]), [a, b];
    ExampleIsAccepted(1, first.txHash);
    ExampleIsAccepted(0, second.txHash);
    ExampleConflicts(1, 2);
    assert first.txHash[0] != second.txHash[0] && identity[0] != ZERO32[0];
    assert first.signature[0] != ZERO64[0] && second.signature[0] != ZERO64[0];
    f := TwoTicketsRefused(c, op, block, a, b, first, second, identity);
  }
}
