/** The streaming block hash (`order.rs`): the previous hash, then every
    dispatched signature in order. */
module BlockHash {
  import opened Base

  function Flatten(signatures: seq<Bytes64>): (b: Bytes)
    ensures |b| == 64 * |signatures|
  {
    if signatures == [] then [] else Flatten(signatures[..|signatures| - 1]) + signatures[|signatures| - 1]
  }

  function Preimage(previous: Bytes32, signatures: seq<Bytes64>): Bytes { previous + Flatten(signatures) }

  /** What is hashed: the previous hash, then every signature in order. */
  lemma {:induction false} PreimageLayout(previous: Bytes32, signatures: seq<Bytes64>, i: nat)
    requires i < |signatures|
    ensures var b := Preimage(previous, signatures);
      && |b| == 32 + 64 * |signatures| && b[..32] == previous
      && b[32 + 64 * i..96 + 64 * i] == signatures[i]
    decreases |signatures|
  {
    var n := |signatures| - 1;
    var front := signatures[..n];
    assert Preimage(previous, signatures) == Preimage(previous, front) + signatures[n];
    if i < n {
      PreimageLayout(previous, front, i);
    }
  }

  function FoldHash(c: Crypto, previous: Bytes32, signatures: seq<Bytes64>): Bytes32 {
    c.blake3(Preimage(previous, signatures))
  }

  method Fold(c: Crypto, previous: Bytes32, signatures: seq<Bytes64>) returns (hash: Bytes32)
    ensures hash == FoldHash(c, previous, signatures)
  {
    var hasher: Bytes := previous;
    for i := 0 to |signatures|
      invariant hasher == Preimage(previous, signatures[..i])
    {
      hasher := hasher + signatures[i];
      assert signatures[..i + 1][..i] == signatures[..i];
      assert previous + (Flatten(signatures[..i]) + signatures[i])
          == previous + Flatten(signatures[..i]) + signatures[i];
    }
    assert signatures[..|signatures|] == signatures;
    hash := c.blake3(hasher);
  }

  /** Fixed-width signatures cannot be shifted against one another: two
      signature lists with the same preimage are the same list. */
  lemma {:induction false} FlattenInjective(a: seq<Bytes64>, b: seq<Bytes64>)
    requires Flatten(a) == Flatten(b)
    ensures a == b
    decreases |a|
  {
    assert |a| == |b|;
    if a != [] {
      var n := |a| - 1;
      var f := Flatten(a);
      assert f[..64 * n] == Flatten(a[..n]) && f[64 * n..] == a[n];
      assert f[..64 * n] == Flatten(b[..n]) && f[64 * n..] == b[n];
      FlattenInjective(a[..n], b[..n]);
      assert a == a[..n] + [a[n]] && b == b[..n] + [b[n]];
    }
  }

  lemma PreimageInjective(previous: Bytes32, a: seq<Bytes64>, b: seq<Bytes64>)
    requires Preimage(previous, a) == Preimage(previous, b)
    ensures a == b
  {
    assert Preimage(previous, a)[32..] == Flatten(a);
    assert Preimage(previous, b)[32..] == Flatten(b);
    FlattenInjective(a, b);
  }
}

/** What the watchtower says about an operator, and how a third party checks it
    (`operator.rs`, `rejected.rs`, `undetermined.rs`, `verdict.rs`, `scan.rs`,
    `fault.rs`, `reordered_transaction.rs`). */
module Faults {
  import opened Base
  import opened Receipts
  import opened BlockHash

  const GENESIS_PREV_HASH: Bytes32 := ZERO32

  datatype Operator = Operator(key: Bytes32, logId: Bytes32)

  datatype Rejected = ForeignLogEntry | Unverifiable

  function Accepts(c: Crypto, op: Operator, s: SignedReceipt): Result<(), Rejected> {
    if s.receipt.logId != op.logId then Err(ForeignLogEntry)
    else if VerifySigned(c, op.key, s).Err? then Err(Unverifiable)
    else Ok(())
  }

  /** All a log scan asks of the operator and of the hash function. */
  datatype Watch = Watch(accepts: SignedReceipt -> Result<(), Rejected>, hash: SignedReceipt -> Bytes32)

  function WatchOf(c: Crypto, op: Operator): Watch {
    Watch(s => Accepts(c, op, s), s => ReceiptHash(c, s))
  }

  /** A statement this operator provably made about this log. */
  predicate Accepted(w: Watch, s: SignedReceipt) { w.accepts(s).Ok? }

  datatype Undetermined =
    | SequenceGap(after: U64, before: U64)
    | MissingOrigin(lowest: U64)
    | UnverifiableReceipt(seqNo: U64)
    | ForeignLog(seqNo: U64)
    | UnverifiableBlock(slot: nat)
    | MissingReceipt(slot: nat)
    | WithdrawnReceipt(slot: nat)
    | UnknownBlockhash(seqNo: U64)
    | NotYetExecuted(seqNo: U64)
    | OperatorIssuedPair(slot: nat)

  datatype Execution = Execution(slot: nat, index: nat)

  datatype ReorderedTransaction = ReorderedTransaction(receipt: SignedReceipt, wireBytes: Bytes, index: nat)

  datatype Fault =
    | Equivocation(seqNo: U64, a: SignedReceipt, b: SignedReceipt)
    | BrokenChain(seqNo: U64, receipt: SignedReceipt, predecessor: SignedReceipt)
    | BadOrigin(receipt: SignedReceipt)
    | Unticketed(slot: nat, index: nat, signature: Bytes64, wireBytes: Bytes)
    | Withheld(receipt: SignedReceipt, execution: Execution, held: nat)
    | WithdrawnButExecuted(receipt: SignedReceipt, withdrawal: SignedReceipt, execution: Execution,
                           previousBlockhash: Bytes32, blockhash: Bytes32, executed: seq<Bytes64>)
    | Absent(receipt: SignedReceipt, head: nat, waited: nat)
    | NotRevealed(receipt: SignedReceipt, head: nat, waited: nat)
    | ImpossibleIngress(receipt: SignedReceipt, blockhashSlot: nat, maxBlockhashAge: nat)
    | Reorder(slot: nat, previousBlockhash: Bytes32, blockhash: Bytes32, executed: seq<Bytes64>,
              jumped: ReorderedTransaction, delayed: ReorderedTransaction)

  datatype FaultError =
    | NotSigned(seqNo: U64)
    | MixedLogs
    | NotContradictory
    | NotAdjacent(first: U64, second: U64)
    | ChainIntact
    | OriginIntact
    | NotAWithdrawal
    | WithdrawalNamesAnotherReceipt
    | WithdrawalPrecedesReceipt
    | ReceiptDoesNotBindTransaction
    | OrderNotReproduced
    | NotAtClaimedIndex
    | OrderRespected
    | DeliveredInTime
    | IngressPossible

  type Check = Result<(), FaultError>

  /** `seq + 1` on 64 bits. */
  function NextSeq(n: U64): U64 { if n + 1 == U64_LIMIT then 0 else n + 1 }

  function Signed(c: Crypto, key: Bytes32, s: SignedReceipt): Check {
    if VerifySigned(c, key, s).Ok? then Ok(()) else Err(NotSigned(s.receipt.seqNo))
  }

  function AtIndex(executed: seq<Bytes64>, index: nat, signature: Bytes64): Check {
    if index < |executed| && executed[index] == signature then Ok(()) else Err(NotAtClaimedIndex)
  }

  function VerifyReordered(c: Crypto, key: Bytes32, t: ReorderedTransaction): Check {
    if Signed(c, key, t.receipt).Err? then Signed(c, key, t.receipt)
    else if c.sha256(t.wireBytes) != t.receipt.receipt.txHash then Err(ReceiptDoesNotBindTransaction)
    else Ok(())
  }

  /** Re-derives the accusation from the evidence alone. */
  function Verify(c: Crypto, key: Bytes32, f: Fault): Check {
    match f
    case Equivocation(n, a, b) =>
      if Signed(c, key, a).Err? then Signed(c, key, a)
      else if Signed(c, key, b).Err? then Signed(c, key, b)
      else if a.receipt.logId != b.receipt.logId then Err(MixedLogs)
      else if a.receipt.seqNo != n || b.receipt.seqNo != n then Err(NotAdjacent(a.receipt.seqNo, b.receipt.seqNo))
      else if a == b then Err(NotContradictory)
      else Ok(())
    case BrokenChain(n, r, p) =>
      if Signed(c, key, r).Err? then Signed(c, key, r)
      else if Signed(c, key, p).Err? then Signed(c, key, p)
      else if r.receipt.logId != p.receipt.logId then Err(MixedLogs)
      else if r.receipt.seqNo != n || NextSeq(p.receipt.seqNo) != n
      then Err(NotAdjacent(p.receipt.seqNo, r.receipt.seqNo))
      else if r.receipt.prevReceiptHash == ReceiptHash(c, p) then Err(ChainIntact)
      else Ok(())
    case BadOrigin(r) =>
      if Signed(c, key, r).Err? then Signed(c, key, r)
      else if r.receipt.seqNo == 0 && r.receipt.prevReceiptHash == GENESIS_PREV_HASH then Err(OriginIntact)
      else Ok(())
    case Withheld(r, e, held) =>
      if Signed(c, key, r).Err? then Signed(c, key, r)
      else if e.slot < r.receipt.ingressSlot || e.slot - r.receipt.ingressSlot != held then Err(DeliveredInTime)
      else Ok(())
    case WithdrawnButExecuted(r, w, e, previous, hash, executed) =>
      if Signed(c, key, r).Err? then Signed(c, key, r)
      else if Signed(c, key, w).Err? then Signed(c, key, w)
      else if r.receipt.logId != w.receipt.logId then Err(MixedLogs)
      else if w.receipt.mode != Retract then Err(NotAWithdrawal)
      else if w.receipt.txHash != ReceiptHash(c, r) then Err(WithdrawalNamesAnotherReceipt)
      else if w.receipt.seqNo <= r.receipt.seqNo then Err(WithdrawalPrecedesReceipt)
      else if FoldHash(c, previous, executed) != hash then Err(OrderNotReproduced)
      else AtIndex(executed, e.index, r.receipt.txSig)
    case Absent(r, _, _) => Signed(c, key, r)
    case NotRevealed(r, _, _) => Signed(c, key, r)
    case ImpossibleIngress(r, slot, age) =>
      if Signed(c, key, r).Err? then Signed(c, key, r)
      else if r.receipt.ingressSlot < slot || r.receipt.ingressSlot - slot > age then Ok(())
      else Err(IngressPossible)
    case Unticketed(_, _, _, _) => Ok(())
    case Reorder(_, previous, hash, executed, jumped, delayed) =>
      if VerifyReordered(c, key, jumped).Err? then VerifyReordered(c, key, jumped)
      else if VerifyReordered(c, key, delayed).Err? then VerifyReordered(c, key, delayed)
      else if jumped.receipt.receipt.logId != delayed.receipt.receipt.logId then Err(MixedLogs)
      else if FoldHash(c, previous, executed) != hash then Err(OrderNotReproduced)
      else if AtIndex(executed, jumped.index, jumped.receipt.receipt.txSig).Err? then Err(NotAtClaimedIndex)
      else if AtIndex(executed, delayed.index, delayed.receipt.receipt.txSig).Err? then Err(NotAtClaimedIndex)
      else if jumped.index >= delayed.index then Err(OrderRespected)
      else if jumped.receipt.receipt.seqNo <= delayed.receipt.receipt.seqNo then Err(OrderRespected)
      else Ok(())
  }

  /** A receipt that obeys the format and that the holder of `key` signed. */
  predicate Genuine(c: Crypto, key: Bytes32, s: SignedReceipt) {
    Validate(s.receipt).Ok? && c.verifies(key, Encode(s.receipt), s.signature)
  }

  /** What is accepted, and why the rest is not: another log's entry, or one the
      operator did not sign in the format. */
  lemma AcceptsIs(c: Crypto, op: Operator, s: SignedReceipt)
    ensures Accepts(c, op, s).Ok? <==> s.receipt.logId == op.logId && Genuine(c, op.key, s)
    ensures Accepts(c, op, s) == Err(ForeignLogEntry) <==> s.receipt.logId != op.logId
  {
  }

  /** The recorded order hashes to the block, and `signature` stands at `index`. */
  predicate RanAt(c: Crypto, previous: Bytes32, hash: Bytes32, executed: seq<Bytes64>, index: nat, signature: Bytes64) {
    FoldHash(c, previous, executed) == hash && index < |executed| && executed[index] == signature
  }

  predicate Binds(c: Crypto, key: Bytes32, t: ReorderedTransaction) {
    Genuine(c, key, t.receipt) && t.receipt.receipt.txHash == c.sha256(t.wireBytes)
  }

  /** What an accusation claims, as far as its evidence can show it: the
      statements were signed, and what they say is at odds in the way claimed. */
  predicate Proven(c: Crypto, key: Bytes32, f: Fault) {
    match f
    case Equivocation(n, a, b) =>
      && Genuine(c, key, a) && Genuine(c, key, b) && a != b
      && a.receipt.logId == b.receipt.logId && a.receipt.seqNo == b.receipt.seqNo == n
    case BrokenChain(n, r, p) =>
      && Genuine(c, key, r) && Genuine(c, key, p) && r.receipt.logId == p.receipt.logId
      && r.receipt.seqNo == n == (p.receipt.seqNo + 1) % U64_LIMIT
      && r.receipt.prevReceiptHash != c.sha256(EncodeSigned(p))
    case BadOrigin(r) =>
      Genuine(c, key, r) && (r.receipt.seqNo > 0 || r.receipt.prevReceiptHash != ZERO32)
    case Withheld(r, e, held) => Genuine(c, key, r) && e.slot == r.receipt.ingressSlot + held
    case WithdrawnButExecuted(r, w, e, previous, hash, executed) =>
      && Genuine(c, key, r) && Genuine(c, key, w) && r.receipt.logId == w.receipt.logId
      && w.receipt.mode == Retract && w.receipt.txHash == c.sha256(EncodeSigned(r))
      && r.receipt.seqNo < w.receipt.seqNo
      && RanAt(c, previous, hash, executed, e.index, r.receipt.txSig)
    case Absent(r, _, _) => Genuine(c, key, r)
    case NotRevealed(r, _, _) => Genuine(c, key, r)
    case ImpossibleIngress(r, slot, age) =>
      Genuine(c, key, r) && !(slot <= r.receipt.ingressSlot <= slot + age)
    case Unticketed(_, _, _, _) => true
    case Reorder(_, previous, hash, executed, jumped, delayed) =>
      && Binds(c, key, jumped) && Binds(c, key, delayed)
      && jumped.receipt.receipt.logId == delayed.receipt.receipt.logId
      && RanAt(c, previous, hash, executed, jumped.index, jumped.receipt.receipt.txSig)
      && RanAt(c, previous, hash, executed, delayed.index, delayed.receipt.receipt.txSig)
      && jumped.index < delayed.index && delayed.receipt.receipt.seqNo < jumped.receipt.receipt.seqNo
  }

  lemma NextSeqWraps(n: U64)
    ensures NextSeq(n) == (n + 1) % U64_LIMIT
  {
  }

  lemma VerifyReorderIff(c: Crypto, key: Bytes32, f: Fault)
    requires f.Reorder?
    ensures Verify(c, key, f).Ok? <==> Proven(c, key, f)
  {
    assert VerifyReordered(c, key, f.jumped).Ok? <==> Binds(c, key, f.jumped);
    assert VerifyReordered(c, key, f.delayed).Ok? <==> Binds(c, key, f.delayed);
  }

  lemma VerifyLogFaultIff(c: Crypto, key: Bytes32, f: Fault)
    requires f.Equivocation? || f.BrokenChain? || f.BadOrigin?
    ensures Verify(c, key, f).Ok? <==> Proven(c, key, f)
  {
    if f.BrokenChain? {
      NextSeqWraps(f.predecessor.receipt.seqNo);
    }
  }

  /** `Fault::verify` accepts exactly the accusations whose evidence shows what
      they claim. */
  lemma VerifyIffProven(c: Crypto, key: Bytes32, f: Fault)
    ensures Verify(c, key, f).Ok? <==> Proven(c, key, f)
  {
    if f.Reorder? {
      VerifyReorderIff(c, key, f);
    } else if f.Equivocation? || f.BrokenChain? || f.BadOrigin? {
      VerifyLogFaultIff(c, key, f);
    }
  }

  // ---- Verdicts and scans ----

  datatype Verdict = Accuse(fault: Fault) | Clean | CannotDetermine(reason: Undetermined)

  datatype Scan = Scan(faults: seq<Fault>, undetermined: seq<Undetermined>, examined: nat) {
    function Record(v: Verdict): Scan {
      match v
      case Accuse(f) => Scan(faults + [f], undetermined, examined + 1)
      case CannotDetermine(r) => Scan(faults, undetermined + [r], examined + 1)
      case Clean => Scan(faults, undetermined, examined + 1)
    }

    predicate IsClean() { faults == [] && undetermined == [] }
  }

  const EMPTY_SCAN := Scan([], [], 0)

  /** What a scan holds after recording `verdicts` in order. */
  function Tally(verdicts: seq<Verdict>): Scan {
    if verdicts == [] then EMPTY_SCAN
    else Tally(verdicts[..|verdicts| - 1]).Record(verdicts[|verdicts| - 1])
  }

  lemma TallyAppend(verdicts: seq<Verdict>, v: Verdict)
    ensures Tally(verdicts + [v]) == Tally(verdicts).Record(v)
  {
    assert (verdicts + [v])[..|verdicts|] == verdicts;
  }

  /** A fault is reported exactly when some check raised it, and a doubt exactly
      when some check had it; a scan is clean exactly when every check was; and
      every check is counted. */
  lemma {:induction false} TallyReports(verdicts: seq<Verdict>)
    ensures forall f :: f in Tally(verdicts).faults <==> Accuse(f) in verdicts
    ensures forall r :: r in Tally(verdicts).undetermined <==> CannotDetermine(r) in verdicts
    ensures Tally(verdicts).IsClean() <==> forall v :: v in verdicts ==> v == Clean
    ensures Tally(verdicts).examined == |verdicts|
    decreases |verdicts|
  {
    if verdicts != [] {
      var n := |verdicts| - 1;
      TallyReports(verdicts[..n]);
      var last := verdicts[n];
      assert verdicts == verdicts[..n] + [last];
      assert forall v :: v in verdicts <==> v in verdicts[..n] || v == last;
      assert Tally(verdicts).IsClean() <==> Tally(verdicts[..n]).IsClean() && last == Clean;
      assert last in verdicts;
    }
  }
}
