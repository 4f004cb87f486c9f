/** Everything a block scan reports, told from the block and the delivered
    receipts alone: each fault with all of its evidence, and each doubt. */
module BlockFaults {
  import opened Base
  import opened Receipts
  import opened Faults
  import opened Blocks
  import opened ReceiptTables
  import opened Serializability
  import opened BlockScan
  import opened BlockTheorems

  /** `t` is judged by `r`: the last accepted plain receipt for its signature,
      or without one the last accepted ticket for its contents. */
  ghost predicate JudgedBy(w: Watch, log: seq<SignedReceipt>, t: ObservedTransaction, r: SignedReceipt) {
    || LastFiled(log, PlainKey(w), t.signature, r)
    || (!Filed(log, PlainKey(w), t.signature) && LastFiled(log, CommitKey(w), t.txHash, r))
  }

  /** No accepted receipt names `t`. */
  ghost predicate Unnamed(w: Watch, log: seq<SignedReceipt>, t: ObservedTransaction) {
    !Filed(log, PlainKey(w), t.signature) && !Filed(log, CommitKey(w), t.txHash)
  }

  ghost predicate Retracted(w: Watch, log: seq<SignedReceipt>, r: SignedReceipt) {
    Filed(log, RetractKey(w), w.hash(r))
  }

  /** What is being watched: the operator, one block in the order it ran, the
      receipts as delivered, and the validator's own key. */
  datatype Scenery = Scenery(
    w: Watch,
    block: ObservedBlock,
    executed: Transactions,
    log: seq<SignedReceipt>,
    identity: Bytes32)
  {
    function Scene(): Scene { SceneOf(w, block, executed, log, identity) }
  }

  ghost predicate RanUnticketed(y: Scenery, f: Fault)
    requires f.Unticketed?
  {
    && f.slot == y.block.slot && f.index < |y.executed|
    && f.signature == y.executed[f.index].signature && f.wireBytes == y.executed[f.index].wireBytes
    && Unnamed(y.w, y.log, y.executed[f.index])
  }

  ghost predicate RanWithdrawn(y: Scenery, f: Fault)
    requires f.WithdrawnButExecuted?
  {
    && f.execution.slot == y.block.slot && f.execution.index < |y.executed|
    && f.previousBlockhash == y.block.previousBlockhash && f.blockhash == y.block.blockhash
    && f.executed == Signatures(y.executed)
    && JudgedBy(y.w, y.log, y.executed[f.execution.index], f.receipt)
    && LastFiled(y.log, RetractKey(y.w), y.w.hash(f.receipt), f.withdrawal)
  }

  /** Positions `i` and `j` conflict and are judged by `a` and `b`. */
  ghost predicate Contend(y: Scenery, i: nat, j: nat, a: SignedReceipt, b: SignedReceipt) {
    && i < j < |y.executed| && Conflicts(y.executed[i], y.executed[j])
    && JudgedBy(y.w, y.log, y.executed[i], a) && JudgedBy(y.w, y.log, y.executed[j], b)
  }

  predicate OwnWork(y: Scenery, i: nat, j: nat)
    requires i < |y.executed| && j < |y.executed|
  {
    y.executed[i].feePayer == y.identity || y.executed[j].feePayer == y.identity
  }

  /** And both stand, but not in the order the two ran. */
  ghost predicate Inverted(y: Scenery, i: nat, j: nat, a: SignedReceipt, b: SignedReceipt) {
    && Contend(y, i, j, a, b) && !Retracted(y.w, y.log, a) && !Retracted(y.w, y.log, b)
    && b.receipt.seqNo <= a.receipt.seqNo
  }

  ghost predicate RanReordered(y: Scenery, f: Fault)
    requires f.Reorder?
  {
    && f.slot == y.block.slot && f.executed == Signatures(y.executed)
    && f.previousBlockhash == y.block.previousBlockhash && f.blockhash == y.block.blockhash
    && Inverted(y, f.jumped.index, f.delayed.index, f.jumped.receipt, f.delayed.receipt)
    && !OwnWork(y, f.jumped.index, f.delayed.index)
    && f.jumped.wireBytes == y.executed[f.jumped.index].wireBytes
    && f.delayed.wireBytes == y.executed[f.delayed.index].wireBytes
  }

  ghost predicate Happened(y: Scenery, f: Fault) {
    || (f.Unticketed? && RanUnticketed(y, f))
    || (f.WithdrawnButExecuted? && RanWithdrawn(y, f))
    || (f.Reorder? && RanReordered(y, f))
  }

  // ---- The tables, in terms of what was delivered ----

  lemma FoundIff(y: Scenery, i: nat, r: SignedReceipt)
    requires i < |y.executed|
    ensures y.Scene().receipts.Find(y.executed[i]) == Some(r) <==> JudgedBy(y.w, y.log, y.executed[i], r)
  {
    FindIsExact(y.w, y.log, y.executed[i], r);
  }

  lemma MissingIff(y: Scenery, i: nat)
    requires i < |y.executed|
    ensures y.Scene().receipts.Find(y.executed[i]).None? <==> Unnamed(y.w, y.log, y.executed[i])
  {
    LastByIsLast(y.log, PlainKey(y.w), y.executed[i].signature);
    LastByIsLast(y.log, CommitKey(y.w), y.executed[i].txHash);
  }

  lemma WithdrawnIff(y: Scenery, s: SignedReceipt)
    ensures y.Scene().receipts.Withdrawal(y.w, s).Some? <==> Retracted(y.w, y.log, s)
  {
    LastByIsLast(y.log, RetractKey(y.w), y.w.hash(s));
  }

  // ---- Faults ----

  lemma TicketAccuses(y: Scenery, i: nat, f: Fault)
    requires i < |y.executed| && CheckTicketIsLive(y.Scene(), i) == Accuse(f)
    ensures Happened(y, f) && !f.Reorder?
  {
    var found := y.Scene().receipts.Find(y.executed[i]);
    if found.None? {
      MissingIff(y, i);
    } else {
      FoundIff(y, i, found.value);
      WithdrawalIsExact(y.w, y.log, found.value, f.withdrawal);
    }
  }

  lemma UnticketedIsAccused(y: Scenery, f: Fault)
    requires f.Unticketed? && RanUnticketed(y, f)
    ensures CheckTicketIsLive(y.Scene(), f.index) == Accuse(f)
  {
    MissingIff(y, f.index);
  }

  lemma WithdrawnIsAccused(y: Scenery, f: Fault)
    requires f.WithdrawnButExecuted? && RanWithdrawn(y, f)
    ensures CheckTicketIsLive(y.Scene(), f.execution.index) == Accuse(f)
  {
    FoundIff(y, f.execution.index, f.receipt);
    WithdrawalIsExact(y.w, y.log, f.receipt, f.withdrawal);
  }

  lemma PairAccuses(y: Scenery, i: nat, j: nat, f: Fault)
    requires i < j < |y.executed| && CheckPair(y.Scene(), i, j) == Accuse(f)
    ensures f.Reorder? && RanReordered(y, f)
  {
    var a, b := y.Scene().receipts.Find(y.executed[i]).value, y.Scene().receipts.Find(y.executed[j]).value;
    FoundIff(y, i, a);
    FoundIff(y, j, b);
    WithdrawnIff(y, a);
    WithdrawnIff(y, b);
  }

  lemma ReorderIsAccused(y: Scenery, f: Fault)
    requires f.Reorder? && RanReordered(y, f)
    ensures CheckPair(y.Scene(), f.jumped.index, f.delayed.index) == Accuse(f)
  {
    var i, j := f.jumped.index, f.delayed.index;
    FoundIff(y, i, f.jumped.receipt);
    FoundIff(y, j, f.delayed.receipt);
    WithdrawnIff(y, f.jumped.receipt);
    WithdrawnIff(y, f.delayed.receipt);
    FoundReceipt(y.w, y.log, y.executed[i]);
    FoundReceipt(y.w, y.log, y.executed[j]);
  }

  lemma RaisedIffHappened(y: Scenery, f: Fault)
    ensures Accuse(f) in BlockVerdicts(y.Scene()) <==> Happened(y, f)
  {
    var s, n := y.Scene(), |y.executed|;
    VerdictsAreChecks(s, Accuse(f));
    if i :| 0 <= i < n && CheckTicketIsLive(s, i) == Accuse(f) {
      TicketAccuses(y, i, f);
    }
    if i, j :| 0 <= i < n && i < j < n && CheckPair(s, i, j) == Accuse(f) {
      PairAccuses(y, i, j, f);
    }
    if Happened(y, f) {
      if f.Unticketed? {
        UnticketedIsAccused(y, f);
        assert FromTicket(s, n, Accuse(f));
      } else if f.WithdrawnButExecuted? {
        WithdrawnIsAccused(y, f);
        assert FromTicket(s, n, Accuse(f));
      } else {
        ReorderIsAccused(y, f);
        assert FromPair(s, n, Accuse(f));
      }
    }
  }

  /** A block scan accuses of exactly what happened, and hands over exactly the
      evidence for it. */
  lemma BlockFaultsAreExact(c: Crypto, w: Watch, block: ObservedBlock, log: seq<SignedReceipt>, identity: Bytes32,
          f: Fault)
    ensures f in BlockScanOf(c, w, block, IndexOf(w, log), identity).faults <==>
      ExecutedOrder(c, block).Some? && Happened(Scenery(w, block, ExecutedOrder(c, block).value, log, identity), f)
  {
    if ExecutedOrder(c, block).Some? {
      var y := Scenery(w, block, ExecutedOrder(c, block).value, log, identity);
      RaisedIffHappened(y, f);
      TallyReports(BlockVerdicts(y.Scene()));
    }
  }

  // ---- Doubts ----

  ghost predicate LacksReceipt(y: Scenery, i: nat, j: nat) {
    && i < j < |y.executed| && Conflicts(y.executed[i], y.executed[j])
    && (Unnamed(y.w, y.log, y.executed[i]) || Unnamed(y.w, y.log, y.executed[j]))
  }

  /** What a scan of a block whose order is known cannot tell, pair by pair. */
  ghost predicate InDoubt(y: Scenery, i: nat, j: nat, reason: Undetermined) {
    || (reason == MissingReceipt(y.block.slot) && LacksReceipt(y, i, j))
    || (reason == WithdrawnReceipt(y.block.slot) &&
        exists a, b :: Contend(y, i, j, a, b) && (Retracted(y.w, y.log, a) || Retracted(y.w, y.log, b)))
    || (reason == OperatorIssuedPair(y.block.slot) &&
        exists a, b :: Inverted(y, i, j, a, b) && OwnWork(y, i, j))
  }

  lemma PairDoubts(y: Scenery, i: nat, j: nat, reason: Undetermined)
    requires i < j < |y.executed|
    ensures CheckPair(y.Scene(), i, j) == CannotDetermine(reason) ==> InDoubt(y, i, j, reason)
  {
    var found, other := y.Scene().receipts.Find(y.executed[i]), y.Scene().receipts.Find(y.executed[j]);
    MissingIff(y, i);
    MissingIff(y, j);
    if found.Some? && other.Some? && Conflicts(y.executed[i], y.executed[j]) {
      var a, b := found.value, other.value;
      FoundIff(y, i, a);
      FoundIff(y, j, b);
      FoundReceipt(y.w, y.log, y.executed[i]);
      FoundReceipt(y.w, y.log, y.executed[j]);
      WithdrawnIff(y, a);
      WithdrawnIff(y, b);
      assert Contend(y, i, j, a, b);
      assert a.receipt.seqNo >= b.receipt.seqNo && !Retracted(y.w, y.log, a) && !Retracted(y.w, y.log, b) ==>
        Inverted(y, i, j, a, b);
    }
  }

  lemma DoubtIsRecorded(y: Scenery, i: nat, j: nat, a: SignedReceipt, b: SignedReceipt)
    requires Contend(y, i, j, a, b)
    ensures Retracted(y.w, y.log, a) || Retracted(y.w, y.log, b) ==>
      CheckPair(y.Scene(), i, j) == CannotDetermine(WithdrawnReceipt(y.block.slot))
    ensures Inverted(y, i, j, a, b) && OwnWork(y, i, j) ==>
      CheckPair(y.Scene(), i, j) == CannotDetermine(OperatorIssuedPair(y.block.slot))
  {
    FoundIff(y, i, a);
    FoundIff(y, j, b);
    FoundReceipt(y.w, y.log, y.executed[i]);
    FoundReceipt(y.w, y.log, y.executed[j]);
    WithdrawnIff(y, a);
    WithdrawnIff(y, b);
  }

  lemma LackIsRecorded(y: Scenery, i: nat, j: nat)
    requires LacksReceipt(y, i, j)
    ensures CheckPair(y.Scene(), i, j) == CannotDetermine(MissingReceipt(y.block.slot))
  {
    MissingIff(y, i);
    MissingIff(y, j);
  }

  lemma PairDoubtsIff(y: Scenery, i: nat, j: nat, reason: Undetermined)
    requires i < j < |y.executed|
    ensures CheckPair(y.Scene(), i, j) == CannotDetermine(reason) <==> InDoubt(y, i, j, reason)
  {
    PairDoubts(y, i, j, reason);
    if reason == MissingReceipt(y.block.slot) && LacksReceipt(y, i, j) {
      LackIsRecorded(y, i, j);
    } else if InDoubt(y, i, j, reason) {
      if reason.WithdrawnReceipt? {
        var a, b :| Contend(y, i, j, a, b) && (Retracted(y.w, y.log, a) || Retracted(y.w, y.log, b));
        DoubtIsRecorded(y, i, j, a, b);
      } else {
        var a, b :| Inverted(y, i, j, a, b) && OwnWork(y, i, j);
        DoubtIsRecorded(y, i, j, a, b);
      }
    }
  }

  /** What a block scan could not determine: the block's order, or a pair of
      conflicting transactions one of which lacks a standing receipt or was the
      validator's own. */
  lemma BlockDoubtsAreExact(c: Crypto, w: Watch, block: ObservedBlock, log: seq<SignedReceipt>, identity: Bytes32,
          reason: Undetermined)
    ensures reason in BlockScanOf(c, w, block, IndexOf(w, log), identity).undetermined <==>
      if ExecutedOrder(c, block).None? then reason == UnverifiableBlock(block.slot)
      else
        var y := Scenery(w, block, ExecutedOrder(c, block).value, log, identity);
        exists i, j :: 0 <= i < j < |y.executed| && InDoubt(y, i, j, reason)
  {
    if ExecutedOrder(c, block).Some? {
      var y := Scenery(w, block, ExecutedOrder(c, block).value, log, identity);
      var s, n := y.Scene(), |y.executed|;
      TallyReports(BlockVerdicts(s));
      VerdictsAreChecks(s, CannotDetermine(reason));
      forall i, j | 0 <= i < j < n
        ensures CheckPair(s, i, j) == CannotDetermine(reason) <==> InDoubt(y, i, j, reason)
      {
        PairDoubtsIff(y, i, j, reason);
      }
    }
  }
}
