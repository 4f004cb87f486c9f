/** Where transactions ran and which slot each block hash came from
    (`execution.rs`, `blockhash_slots.rs`). */
module ExecutionTables {
  import opened Base
  import opened Receipts
  import opened Faults

  datatype ExecutionTable = ExecutionTable(bySignature: map<Bytes64, Execution>, byHash: map<Bytes32, Execution>) {
    function Find(s: SignedReceipt): Option<Execution> {
      match s.receipt.mode
      case Commit => if s.receipt.txHash in byHash then Some(byHash[s.receipt.txHash]) else None
      case Plain => if s.receipt.txSig in bySignature then Some(bySignature[s.receipt.txSig]) else None
      case Retract => if s.receipt.txSig in bySignature then Some(bySignature[s.receipt.txSig]) else None
      case Reveal => None
    }
  }

  class ExecutionIndex {
    var bySignature: map<Bytes64, Execution>
    var byHash: map<Bytes32, Execution>

    function Table(): ExecutionTable
      reads this
    {
      ExecutionTable(bySignature, byHash)
    }

    constructor ()
      ensures Table() == ExecutionTable(map[], map[])
    {
      bySignature, byHash := map[], map[];
    }

    /** A transaction that ran is found by its plain receipt and by its ticket
        alike; no other transaction's place changes. */
    method Record(signature: Bytes64, txHash: Bytes32, execution: Execution)
      modifies this
      ensures bySignature == old(bySignature)[signature := execution]
      ensures byHash == old(byHash)[txHash := execution]
      ensures forall s: SignedReceipt ::
        (s.receipt.mode.Plain? || s.receipt.mode.Retract?) && s.receipt.txSig == signature ==>
          Table().Find(s) == Some(execution)
      ensures forall s: SignedReceipt :: s.receipt.mode.Commit? && s.receipt.txHash == txHash ==>
        Table().Find(s) == Some(execution)
      ensures forall s: SignedReceipt :: s.receipt.txSig != signature && s.receipt.txHash != txHash ==>
        Table().Find(s) == old(Table()).Find(s)
    {
      bySignature := bySignature[signature := execution];
      byHash := byHash[txHash := execution];
    }
  }

  /** The bounded memory of block hashes as a value: what is known, and the
      hashes in the order they were first seen. */
  datatype SlotMemory = SlotMemory(slots: map<Bytes32, nat>, order: seq<Bytes32>, capacity: nat) {
    ghost predicate Valid() {
      && 1 <= capacity && |order| <= capacity
      && (forall i, j :: 0 <= i < j < |order| ==> order[i] != order[j])
      && (forall h :: h in slots <==> h in order)
    }

    function SlotOf(h: Bytes32): Option<nat> { if h in slots then Some(slots[h]) else None }

    function Record(h: Bytes32, slot: nat): SlotMemory {
      var known := slots[h := slot];
      if h in slots then SlotMemory(known, order, capacity)
      else if |order| < capacity || order == [] then SlotMemory(known, order + [h], capacity)
      else SlotMemory(known - {order[0]}, order[1..] + [h], capacity)
    }
  }

  lemma RecordKeepsValid(m: SlotMemory, h: Bytes32, slot: nat)
    requires m.Valid()
    ensures m.Record(h, slot).Valid()
    ensures m.Record(h, slot).SlotOf(h) == Some(slot)
  {
    var after := m.Record(h, slot);
    if h !in m.slots {
      var full := m.order + [h];
      assert after.order == full || (full[0] == m.order[0] && after.order == full[1..]);
      forall x ensures x in after.slots <==> x in after.order {
        assert x in full <==> x in m.order || x == h;
        if after.order == full[1..] {
          assert full == [full[0]] + after.order;
        }
      }
    }
  }

  class BlockhashSlots {
    var slots: map<Bytes32, nat>
    var order: seq<Bytes32>
    const capacity: nat

    function Memory(): SlotMemory
      reads this
    {
      SlotMemory(slots, order, capacity)
    }

    constructor (requested: nat)
      ensures Memory() == SlotMemory(map[], [], if requested == 0 then 1 else requested) && Memory().Valid()
    {
      slots, order := map[], [];
      capacity := if requested == 0 then 1 else requested;
    }

    method Record(h: Bytes32, slot: nat)
      requires Memory().Valid()
      modifies this
      ensures Memory() == old(Memory()).Record(h, slot) && Memory().Valid()
    {
      RecordKeepsValid(Memory(), h, slot);
      var known := h in slots;
      slots := slots[h := slot];
      if known {
        return;
      }
      ghost var pushed, queue := slots, order + [h];
      order := order + [h];
      while |order| > capacity
        invariant
          || (slots == pushed && order == queue)
          || (|queue| > capacity && order == queue[1..] && slots == pushed - {queue[0]})
        decreases |order|
      {
        var evicted := order[0];
        order := order[1..];
        slots := slots - {evicted};
      }
    }
  }

  type Sightings = seq<(Bytes32, nat)>

  function RecordAll(m: SlotMemory, seen: Sightings): SlotMemory
    decreases |seen|
  {
    if seen == [] then m else RecordAll(m, seen[..|seen| - 1]).Record(seen[|seen| - 1].0, seen[|seen| - 1].1)
  }

  /** The slot last recorded for `h`. */
  function LastSlot(seen: Sightings, h: Bytes32, before: nat): nat
    decreases |seen|
  {
    if seen == [] then before
    else if seen[|seen| - 1].0 == h then seen[|seen| - 1].1
    else LastSlot(seen[..|seen| - 1], h, before)
  }

  /** `place` is where `h` waits in the eviction queue: one recording brings it
      at most one step closer to the front. */
  lemma OneStepOlder(m: SlotMemory, x: Bytes32, slot: nat, h: Bytes32, place: nat) returns (k: nat)
    requires m.Valid() && place < |m.order| && m.order[place] == h
    requires |m.order| - place < m.capacity
    ensures var after := m.Record(x, slot);
      && k < |after.order| && after.order[k] == h
      && |after.order| - k <= |m.order| - place + 1
      && after.SlotOf(h) == if x == h then Some(slot) else m.SlotOf(h)
  {
    var after := m.Record(x, slot);
    assert h in m.order;
    k := if x in m.slots || |m.order| < m.capacity then place else place - 1;
    assert after.order[k] == h;
  }

  lemma {:induction false} StillRemembered(m: SlotMemory, seen: Sightings, h: Bytes32, slot: nat,
          place: nat) returns (k: nat)
    requires m.Valid() && place < |m.order| && m.order[place] == h && m.SlotOf(h) == Some(slot)
    requires |seen| + |m.order| - place <= m.capacity
    ensures var after := RecordAll(m, seen);
      && after.Valid() && after.capacity == m.capacity
      && k < |after.order| && after.order[k] == h && |after.order| - k <= |m.order| - place + |seen|
      && after.SlotOf(h) == Some(LastSlot(seen, h, slot))
    decreases |seen|
  {
    if seen == [] {
      k := place;
    } else {
      var n := |seen| - 1;
      var j := StillRemembered(m, seen[..n], h, slot, place);
      RecordKeepsValid(RecordAll(m, seen[..n]), seen[n].0, seen[n].1);
      k := OneStepOlder(RecordAll(m, seen[..n]), seen[n].0, seen[n].1, h, j);
    }
  }

  /** A newly seen block hash is still known, with its latest slot, until
      `capacity` further hashes have been recorded. */
  lemma RememberedWhileRecent(m: SlotMemory, h: Bytes32, slot: nat, seen: Sightings)
    requires m.Valid() && h !in m.slots && |seen| < m.capacity
    ensures RecordAll(m.Record(h, slot), seen).SlotOf(h) == Some(LastSlot(seen, h, slot))
  {
    RecordKeepsValid(m, h, slot);
    var first := m.Record(h, slot);
    var _ := StillRemembered(first, seen, h, slot, |first.order| - 1);
  }
}

/** Transactions the operator sequenced and then sat on (`withholding.rs`). */
module Withholding {
  import opened Base
  import opened Receipts
  import opened Faults
  import opened ReceiptTables
  import opened ExecutionTables

  datatype Patience = Patience(heldSlots: nat, absentSlots: nat, revealSlots: nat, maxBlockhashAge: nat)

  /** What the watchtower knows while scanning. */
  datatype View = View(executed: ExecutionTable, blockhashes: map<Bytes32, nat>, head: nat, patience: Patience)

  function SaturatingSub(a: nat, b: nat): nat { if a < b then 0 else a - b }

  function CheckIngressIsPossible(v: View, s: SignedReceipt): Verdict {
    if s.receipt.mode.Commit? then Clean
    else if s.receipt.recentBlockhash !in v.blockhashes then CannotDetermine(UnknownBlockhash(s.receipt.seqNo))
    else
      var slot := v.blockhashes[s.receipt.recentBlockhash];
      var ingress := s.receipt.ingressSlot;
      if ingress < slot || SaturatingSub(ingress, slot) > v.patience.maxBlockhashAge
      then Accuse(ImpossibleIngress(s, slot, v.patience.maxBlockhashAge))
      else Clean
  }

  function CheckDelivery(v: View, s: SignedReceipt): Verdict {
    var ingress := s.receipt.ingressSlot;
    match v.executed.Find(s)
    case None =>
      var waited := SaturatingSub(v.head, ingress);
      if s.receipt.mode.Commit? then
        if waited > v.patience.revealSlots then Accuse(NotRevealed(s, v.head, waited))
        else CannotDetermine(NotYetExecuted(s.receipt.seqNo))
      else if waited > v.patience.absentSlots then Accuse(Absent(s, v.head, waited))
      else CannotDetermine(NotYetExecuted(s.receipt.seqNo))
    case Some(execution) =>
      var held := SaturatingSub(execution.slot, ingress);
      if execution.slot >= ingress && held > v.patience.heldSlots then Accuse(Withheld(s, execution, held)) else Clean
  }

  function ReceiptVerdicts(w: Watch, v: View, withdrawn: map<Bytes32, SignedReceipt>, s: SignedReceipt): seq<Verdict> {
    if !Accepted(w, s) || s.receipt.mode.Retract? then []
    else if WithdrawalIn(w, withdrawn, s).Some? then [CheckIngressIsPossible(v, s)]
    else [CheckIngressIsPossible(v, s), CheckDelivery(v, s)]
  }

  function WithholdingVerdicts(w: Watch, v: View, withdrawn: map<Bytes32, SignedReceipt>,
          receipts: seq<SignedReceipt>): seq<Verdict>
    decreases |receipts|
  {
    if receipts == [] then []
    else
      WithholdingVerdicts(w, v, withdrawn, receipts[..|receipts| - 1])
      + ReceiptVerdicts(w, v, withdrawn, receipts[|receipts| - 1])
  }

  function WithholdingScanOf(w: Watch, v: View, receipts: seq<SignedReceipt>): Scan {
    Tally(WithholdingVerdicts(w, v, LastBy(receipts, RetractKey(w)), receipts))
  }

  lemma TallyTwo(verdicts: seq<Verdict>, a: Verdict, b: Verdict)
    ensures Tally(verdicts + [a, b]) == Tally(verdicts).Record(a).Record(b)
  {
    TallyAppend(verdicts, a);
    TallyAppend(verdicts + [a], b);
    assert verdicts + [a] + [b] == verdicts + [a, b];
  }

  method RecordReceipt(w: Watch, v: View, withdrawn: map<Bytes32, SignedReceipt>, s: SignedReceipt, before: Scan,
          ghost verdicts: seq<Verdict>)
    returns (scan: Scan)
    requires before == Tally(verdicts)
    ensures scan == Tally(verdicts + ReceiptVerdicts(w, v, withdrawn, s))
  {
    assert verdicts + [] == verdicts;
    if !Accepted(w, s) || s.receipt.mode.Retract? {
      return before;
    }
    scan := before.Record(CheckIngressIsPossible(v, s));
    if WithdrawalIn(w, withdrawn, s).Some? {
      TallyAppend(verdicts, CheckIngressIsPossible(v, s));
      return;
    }
    scan := scan.Record(CheckDelivery(v, s));
    TallyTwo(verdicts, CheckIngressIsPossible(v, s), CheckDelivery(v, s));
  }

  method ScanWithholding(w: Watch, v: View, receipts: seq<SignedReceipt>) returns (scan: Scan)
    ensures scan == WithholdingScanOf(w, v, receipts)
  {
    scan := EMPTY_SCAN;
    var withdrawn := BuildWithdrawals(w, receipts);
    for i := 0 to |receipts|
      invariant scan == Tally(WithholdingVerdicts(w, v, withdrawn, receipts[..i]))
    {
      scan := RecordReceipt(w, v, withdrawn, receipts[i], scan, WithholdingVerdicts(w, v, withdrawn, receipts[..i]));
      assert receipts[..i + 1][..i] == receipts[..i];
    }
    assert receipts[..|receipts|] == receipts;
  }

  lemma {:induction false} VerdictSource(w: Watch, v: View, withdrawn: map<Bytes32, SignedReceipt>,
          receipts: seq<SignedReceipt>, verdict: Verdict)
    ensures verdict in WithholdingVerdicts(w, v, withdrawn, receipts) <==>
      exists s :: s in receipts && verdict in ReceiptVerdicts(w, v, withdrawn, s)
    decreases |receipts|
  {
    if receipts != [] {
      var n := |receipts| - 1;
      VerdictSource(w, v, withdrawn, receipts[..n], verdict);
      assert receipts == receipts[..n] + [receipts[n]];
    }
  }

  /** The operator still stands behind `s` and it promises to run something. */
  predicate Standing(w: Watch, receipts: seq<SignedReceipt>, s: SignedReceipt) {
    && s in receipts && Accepted(w, s) && !s.receipt.mode.Retract?
    && forall i :: 0 <= i < |receipts| ==> RetractKey(w)(receipts[i]) != Some(w.hash(s))
  }

  /** What each accusation claims, in the watchtower's own observations. */
  predicate Observed(w: Watch, v: View, receipts: seq<SignedReceipt>, f: Fault) {
    match f
    case ImpossibleIngress(s, slot, age) =>
      && s in receipts && Accepted(w, s) && !s.receipt.mode.Retract? && !s.receipt.mode.Commit?
      && s.receipt.recentBlockhash in v.blockhashes && slot == v.blockhashes[s.receipt.recentBlockhash]
      && age == v.patience.maxBlockhashAge
      && !(slot <= s.receipt.ingressSlot <= slot + age)
    case Withheld(s, e, held) =>
      && Standing(w, receipts, s) && v.executed.Find(s) == Some(e)
      && e.slot == s.receipt.ingressSlot + held && held > v.patience.heldSlots
    case Absent(s, head, waited) =>
      && Standing(w, receipts, s) && v.executed.Find(s) == None && !s.receipt.mode.Commit?
      && head == v.head == s.receipt.ingressSlot + waited && waited > v.patience.absentSlots
    case NotRevealed(s, head, waited) =>
      && Standing(w, receipts, s) && v.executed.Find(s) == None && s.receipt.mode.Commit?
      && head == v.head == s.receipt.ingressSlot + waited && waited > v.patience.revealSlots
    case _ => false
  }

  lemma ReceiptFaults(w: Watch, v: View, receipts: seq<SignedReceipt>, s: SignedReceipt, f: Fault)
    requires s in receipts
    ensures Accuse(f) in ReceiptVerdicts(w, v, LastBy(receipts, RetractKey(w)), s) <==>
      Observed(w, v, receipts, f) && f.receipt == s
  {
    FoundWithdrawal(w, receipts, s);
  }

  /** The scan accuses of exactly what was observed: every impossible ingress,
      and every late, missing or unrevealed transaction whose promise stands. */
  lemma WithholdingIsExact(w: Watch, v: View, receipts: seq<SignedReceipt>, f: Fault)
    ensures f in WithholdingScanOf(w, v, receipts).faults <==> Observed(w, v, receipts, f)
  {
    var withdrawn := LastBy(receipts, RetractKey(w));
    TallyReports(WithholdingVerdicts(w, v, withdrawn, receipts));
    VerdictSource(w, v, withdrawn, receipts, Accuse(f));
    forall s | s in receipts
      ensures Accuse(f) in ReceiptVerdicts(w, v, withdrawn, s) <==> Observed(w, v, receipts, f) && f.receipt == s
    {
      ReceiptFaults(w, v, receipts, s, f);
    }
  }

  lemma ObservedVerifies(c: Crypto, op: Operator, v: View, receipts: seq<SignedReceipt>, f: Fault)
    requires Observed(WatchOf(c, op), v, receipts, f)
    ensures Verify(c, op.key, f) == Ok(())
  {
    assert Accepts(c, op, f.receipt).Ok?;
  }

  /** Every withholding fault passes `Fault::verify`. */
  lemma WithholdingFaultsVerify(c: Crypto, op: Operator, v: View, receipts: seq<SignedReceipt>, f: Fault)
    requires f in WithholdingScanOf(WatchOf(c, op), v, receipts).faults
    ensures Verify(c, op.key, f) == Ok(())
  {
    WithholdingIsExact(WatchOf(c, op), v, receipts, f);
    ObservedVerifies(c, op, v, receipts, f);
  }

  // ---- What could not be told, and when nothing is left to tell ----

  /** An accepted receipt that promises something. */
  predicate Promises(w: Watch, receipts: seq<SignedReceipt>, s: SignedReceipt) {
    s in receipts && Accepted(w, s) && !s.receipt.mode.Retract?
  }

  /** Not executed as far as is known, and not overdue either. */
  predicate Pending(v: View, s: SignedReceipt) {
    && v.executed.Find(s) == None
    && v.head <= s.receipt.ingressSlot +
       if s.receipt.mode.Commit? then v.patience.revealSlots else v.patience.absentSlots
  }

  predicate Doubtful(w: Watch, v: View, receipts: seq<SignedReceipt>, s: SignedReceipt, reason: Undetermined) {
    || (reason == UnknownBlockhash(s.receipt.seqNo) && Promises(w, receipts, s)
        && !s.receipt.mode.Commit? && s.receipt.recentBlockhash !in v.blockhashes)
    || (reason == NotYetExecuted(s.receipt.seqNo) && Standing(w, receipts, s) && Pending(v, s))
  }

  lemma ReceiptDoubts(w: Watch, v: View, receipts: seq<SignedReceipt>, s: SignedReceipt, reason: Undetermined)
    requires s in receipts
    ensures CannotDetermine(reason) in ReceiptVerdicts(w, v, LastBy(receipts, RetractKey(w)), s) <==>
      Doubtful(w, v, receipts, s, reason)
  {
    FoundWithdrawal(w, receipts, s);
  }

  /** The scan leaves open exactly these questions: the ingress of a receipt
      whose block hash is not known, and the delivery of a standing promise that
      is neither kept nor overdue. */
  lemma WithholdingDoubtsAreExact(w: Watch, v: View, receipts: seq<SignedReceipt>, reason: Undetermined)
    ensures reason in WithholdingScanOf(w, v, receipts).undetermined <==>
      exists s :: s in receipts && Doubtful(w, v, receipts, s, reason)
  {
    var withdrawn := LastBy(receipts, RetractKey(w));
    TallyReports(WithholdingVerdicts(w, v, withdrawn, receipts));
    VerdictSource(w, v, withdrawn, receipts, CannotDetermine(reason));
    forall s | s in receipts
      ensures CannotDetermine(reason) in ReceiptVerdicts(w, v, withdrawn, s) <==> Doubtful(w, v, receipts, s, reason)
    {
      ReceiptDoubts(w, v, receipts, s, reason);
    }
  }

  /** The ingress is one the block hash allows. */
  predicate IngressFits(v: View, s: SignedReceipt) {
    && s.receipt.recentBlockhash in v.blockhashes
    && var slot := v.blockhashes[s.receipt.recentBlockhash];
       slot <= s.receipt.ingressSlot <= slot + v.patience.maxBlockhashAge
  }

  predicate KeptInTime(v: View, s: SignedReceipt) {
    v.executed.Find(s).Some? && v.executed.Find(s).value.slot <= s.receipt.ingressSlot + v.patience.heldSlots
  }

  /** Nothing to say against `s`, and nothing left open about it. */
  predicate Settled(w: Watch, v: View, receipts: seq<SignedReceipt>, s: SignedReceipt) {
    && (Promises(w, receipts, s) ==> s.receipt.mode.Commit? || IngressFits(v, s))
    && (Standing(w, receipts, s) ==> KeptInTime(v, s))
  }

  ghost predicate AllClean(verdicts: seq<Verdict>) { forall x :: x in verdicts ==> x == Clean }

  lemma ReceiptClean(w: Watch, v: View, receipts: seq<SignedReceipt>, s: SignedReceipt)
    requires s in receipts
    ensures AllClean(ReceiptVerdicts(w, v, LastBy(receipts, RetractKey(w)), s)) <==> Settled(w, v, receipts, s)
  {
    var verdicts := ReceiptVerdicts(w, v, LastBy(receipts, RetractKey(w)), s);
    FoundWithdrawal(w, receipts, s);
    assert |verdicts| > 0 ==> verdicts[0] in verdicts;
    assert |verdicts| > 1 ==> verdicts[1] in verdicts;
  }

  /** A withholding scan is clean exactly when every promise has an ingress that
      its block hash allows, or is a ticket, and every standing promise was kept
      within the slots allowed. */
  lemma WithholdingCleanIff(w: Watch, v: View, receipts: seq<SignedReceipt>)
    ensures WithholdingScanOf(w, v, receipts).IsClean() <==>
      forall s :: s in receipts ==> Settled(w, v, receipts, s)
  {
    var withdrawn := LastBy(receipts, RetractKey(w));
    var verdicts := WithholdingVerdicts(w, v, withdrawn, receipts);
    TallyReports(verdicts);
    forall x ensures x in verdicts <==> exists s :: s in receipts && x in ReceiptVerdicts(w, v, withdrawn, s) {
      VerdictSource(w, v, withdrawn, receipts, x);
    }
    forall s | s in receipts
      ensures AllClean(ReceiptVerdicts(w, v, withdrawn, s)) <==> Settled(w, v, receipts, s)
    {
      ReceiptClean(w, v, receipts, s);
    }
  }
}
