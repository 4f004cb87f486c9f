/** From a watchtower's accusation to a slashed bond, and back: what is
    detected convicts, and what convicts was signed. */
module EndToEnd {
  import opened Base
  import opened Receipts
  import opened SlashErrors
  import F = Faults
  import L = LogScan
  import T = LogTheorems
  import opened Ed25519
  import opened Contradiction
  import opened Program
  import opened ProgramRuns
  import opened BondStory

  /** The transaction the court sends: an ed25519 instruction over both
      receipts, then `prove_equivocation` at the address both derive. */
  function CourtRequest(env: Env, op: Key, key: Bytes32, caller: Key, slot: nat, here: U16, a: SignedReceipt,
          b: SignedReceipt): Request {
    Request(caller, true, slot, here, Sibling(true, InstructionData(key, a, b)), op,
            ProveEquivocation((op, ClientKey(env.c, Encode(a.receipt), Encode(b.receipt))), env.incinerator))
  }

  // ---- Detection implies conviction ----

  lemma PrecompileVerifiesBoth(c: Crypto, key: Bytes32, a: SignedReceipt, b: SignedReceipt, index: U16)
    requires c.verifies(key, Encode(a.receipt), a.signature) && c.verifies(key, Encode(b.receipt), b.signature)
    ensures VerifiesAll(c, InstructionData(key, a, b), index)
  {
    var data := InstructionData(key, a, b);
    BuiltIsReadBack(key, a, b, index);
    EntriesAreRead(EntryReader(data, index), data[0],
                   [Verified(key, Encode(a.receipt)), Verified(key, Encode(b.receipt))]);
    forall e: nat | e < data[0] ensures VerifiesEntry(c, data, index, e) {
      assert EntryReader(data, index)(e) == ReadEntry(data, index, e);
    }
  }

  lemma CourtMessages(env: Env, o: OperatorState, op: Key, caller: Key, slot: nat, here: U16, a: SignedReceipt,
          b: SignedReceipt)
    requires here > 0
    ensures ProvenMessages(o, CourtRequest(env, op, o.signingKey, caller, slot, here, a, b))
         == Ok((Encode(a.receipt), Encode(b.receipt)))
  {
    BuiltIsReadBack(o.signingKey, a, b, here - 1);
  }

  /** The program's reading of the court's evidence: accepted exactly when the
      two receipts differ, and filed where the client said. */
  lemma CourtEvidence(env: Env, o: OperatorState, op: Key, caller: Key, slot: nat, here: U16, a: SignedReceipt,
          b: SignedReceipt)
    requires here > 0 && Validate(a.receipt).Ok? && Validate(b.receipt).Ok?
    requires a.receipt.logId == b.receipt.logId && a.receipt.seqNo == b.receipt.seqNo && o.convictions == map[]
    ensures var q := CourtRequest(env, op, o.signingKey, caller, slot, here, a, b);
      CheckedEvidence(env, o, q, q.instruction.conviction)
      == if a.receipt == b.receipt then Err(Refused(NotContradictory))
         else Ok(Evidence(a.receipt.seqNo, a.receipt.logId, Encode(a.receipt), Encode(b.receipt)))
  {
    CourtMessages(env, o, op, caller, slot, here, a, b);
    CheckIsExact(a.receipt, b.receipt);
    if a.receipt != b.receipt {
      KeysAgree(env.c, Encode(a.receipt), Encode(b.receipt));
    }
  }

  // ---- Runs ----

  lemma StepKeepsUnconvicted(known: Option<OperatorState>, q: Request, done: bool, after: Option<OperatorState>)
    requires Moves(known, q, done, after)
    requires known.Some? && known.value.bond > 0 ==> known.value.convictions == map[]
    ensures after.Some? && after.value.bond > 0 ==> after.value.convictions == map[]
  {
    if done && after.value.bond > 0 {
      forall c ensures c !in after.value.convictions {
        assert EscrowMoves(known, q, after.value, c);
      }
    }
  }

  lemma {:induction false} StoryUnconvicted(s: Story, n: nat)
    requires IsStory(s) && n <= |s.requests|
    ensures s.states[n].Some? && s.states[n].value.bond > 0 ==> s.states[n].value.convictions == map[]
  {
    if n > 0 {
      StoryUnconvicted(s, n - 1);
      assert Moves(s.states[n - 1], s.requests[n - 1], s.done[n - 1], s.states[n - 1 + 1]);
      StepKeepsUnconvicted(s.states[n - 1], s.requests[n - 1], s.done[n - 1], s.states[n]);
    }
  }

  /** Nothing has been convicted while the bond still stands. */
  lemma UnconvictedWhileBonded(env: Env, ledgers: seq<Ledger>, requests: seq<Request>, k: Key, n: nat)
    requires IsRun(env, ledgers, requests) && n <= |requests|
    ensures k in ledgers[n].operators && ledgers[n].operators[k].bond > 0 ==>
      ledgers[n].operators[k].convictions == map[]
  {
    RunTellsStory(env, ledgers, requests, k);
    StoryUnconvicted(StoryOf(env, ledgers, requests, k), n);
  }

  lemma EquivocationFacts(c: Crypto, op: F.Operator, receipts: L.Log, f: F.Fault)
    requires f in L.ScanOf(F.WatchOf(c, op), receipts).faults && f.Equivocation?
    ensures Validate(f.a.receipt).Ok? && c.verifies(op.key, Encode(f.a.receipt), f.a.signature)
    ensures Validate(f.b.receipt).Ok? && c.verifies(op.key, Encode(f.b.receipt), f.b.signature)
    ensures f.a.receipt.logId == f.b.receipt.logId && f.a.receipt.seqNo == f.b.receipt.seqNo == f.seqNo
  {
    T.EveryFaultVerifies(c, op, receipts, f);
    assert F.Verify(c, op.key, f) == Ok(());
  }

  /** The address the court's transaction creates its conviction at. */
  function CourtAddress(env: Env, k: Key, a: SignedReceipt, b: SignedReceipt): Address {
    (k, ConvictionPlace(ClientKey(env.c, Encode(a.receipt), Encode(b.receipt))))
  }

  /** What the program does with the court's transaction about two genuine
      statements of one position, in any sound ledger. */
  lemma CourtConvicts(env: Env, l: Ledger, k: Key, caller: Key, slot: nat, here: U16, a: SignedReceipt,
          b: SignedReceipt)
    requires Sound(env, l) && k in l.operators && l.operators[k].bond > 0 && l.operators[k].convictions == map[]
    requires here > 0
    requires Validate(a.receipt).Ok? && Validate(b.receipt).Ok?
    requires a.receipt.logId == b.receipt.logId && a.receipt.seqNo == b.receipt.seqNo
    requires env.c.verifies(l.operators[k].signingKey, Encode(a.receipt), a.signature)
    requires env.c.verifies(l.operators[k].signingKey, Encode(b.receipt), b.signature)
    ensures var q := CourtRequest(env, k, l.operators[k].signingKey, caller, slot, here, a, b);
      Transact(env, l, q).Ok? <==>
        && a.receipt != b.receipt && l.StrayAt(CourtAddress(env, k, a, b)) == 0
        && l.Funds(caller) >= env.convictionRent
  {
    var o := l.operators[k];
    var q := CourtRequest(env, k, o.signingKey, caller, slot, here, a, b);
    PrecompileVerifiesBoth(env.c, o.signingKey, a, b, here - 1);
    CourtEvidence(env, o, k, caller, slot, here, a, b);
    if a.receipt != b.receipt {
      SlashSucceedsIff(env, l, q, q.instruction.conviction);
    } else {
      BadEvidenceRefused(env, l, q);
    }
  }

  lemma BadEvidenceRefused(env: Env, l: Ledger, q: Request)
    requires q.operator in l.operators && q.instruction.ProveEquivocation?
    requires CheckedEvidence(env, l.operators[q.operator], q, q.instruction.conviction).Err?
    ensures Transact(env, l, q).Err?
  {
  }

  /** A successful proof takes the whole bond and files the conviction where it
      was addressed. */
  lemma ProofTakesBond(env: Env, l: Ledger, q: Request, next: Ledger)
    requires Transact(env, l, q) == Ok(next) && q.instruction.ProveEquivocation?
    ensures q.operator in l.operators && q.operator in next.operators
    ensures var o, after := l.operators[q.operator], next.operators[q.operator];
      && o.bond > 0 && after.bond == 0
      && q.instruction.conviction.1 in after.convictions
      && after.convictions[q.instruction.conviction.1].slashed == o.bond
  {
    var e := StepEffect(env, l, q, next);
  }

  /** Detection implies conviction. Take any moment of any run at which the
      operator's bond has not left. Whatever equivocation a watchtower reports
      from whatever deliveries, the court's transaction about it succeeds
      exactly when the two statements differ in more than their signature, the
      conviction's address holds nothing and the accuser can pay its rent; and
      then it takes the whole bond. */
  lemma DetectionConvicts(env: Env, ledgers: seq<Ledger>, requests: seq<Request>, n: nat, op: F.Operator, k: Key,
          receipts: L.Log, f: F.Fault, caller: Key, slot: nat, here: U16)
    requires IsRun(env, ledgers, requests) && n <= |requests| && k in ledgers[n].operators
    requires ledgers[n].operators[k].signingKey == op.key && StoryOf(env, ledgers, requests, k).Departures(n) == 0
    requires here > 0 && f in L.ScanOf(F.WatchOf(env.c, op), receipts).faults && f.Equivocation?
    ensures var l, q := ledgers[n], CourtRequest(env, k, op.key, caller, slot, here, f.a, f.b);
      && (Transact(env, l, q).Ok? <==>
            && f.a.receipt != f.b.receipt && l.StrayAt(CourtAddress(env, k, f.a, f.b)) == 0
            && l.Funds(caller) >= env.convictionRent)
      && (Transact(env, l, q).Ok? ==>
            && k in Transact(env, l, q).value.operators && Transact(env, l, q).value.operators[k].bond == 0)
  {
    var l := ledgers[n];
    EveryRunIsSound(env, ledgers, requests, n);
    BondLeavesOnce(env, ledgers, requests, k, n);
    UnconvictedWhileBonded(env, ledgers, requests, k, n);
    EquivocationFacts(env.c, op, receipts, f);
    CourtConvicts(env, l, k, caller, slot, here, f.a, f.b);
    var q := CourtRequest(env, k, op.key, caller, slot, here, f.a, f.b);
    if Transact(env, l, q).Ok? {
      ProofTakesBond(env, l, q, Transact(env, l, q).value);
    }
  }

  // ---- Conviction implies guilt ----

  lemma EntrySignature(data: Bytes, index: U16, e: nat)
    requires ReadEntry(data, index, e).Ok?
    ensures SignatureOf(data, e).Some? && |SignatureOf(data, e).value| == 64
  {
  }

  lemma ProvenMessagesWereSigned(env: Env, o: OperatorState, q: Request, a: Bytes, b: Bytes)
    returns (sa: Bytes64, sb: Bytes64)
    requires PrecompileAccepts(env.c, q) && ProvenMessages(o, q) == Ok((a, b))
    ensures env.c.verifies(o.signingKey, a, sa) && env.c.verifies(o.signingKey, b, sb)
  {
    var data, index := q.sibling.data, q.here - 1;
    var pairs := VerifiedPairs(data, index).value;
    EntriesAreRead(EntryReader(data, index), data[0], pairs);
    assert EntryReader(data, index)(0) == ReadEntry(data, index, 0);
    assert EntryReader(data, index)(1) == ReadEntry(data, index, 1);
    EntrySignature(data, index, 0);
    EntrySignature(data, index, 1);
    assert VerifiesEntry(env.c, data, index, 0) && VerifiesEntry(env.c, data, index, 1);
    sa, sb := SignatureOf(data, 0).value, SignatureOf(data, 1).value;
  }

  /** What the raw-byte check establishes: two different messages in the receipt
      format about one position of one log. */
  lemma CheckedMessages(a: Bytes, b: Bytes)
    requires Check(a, b).Ok?
    ensures a != b && |a| == |b| == 261 && a[..12] == b[..12] == DOMAIN_TAG
    ensures a[12..44] == b[12..44] && a[45..53] == b[45..53]
  {
    ToLeFromLe(a[45..53]);
    ToLeFromLe(b[45..53]);
  }

  /** The conviction names the transaction in the lesser of the two messages. */
  predicate NamesLesser(filed: Conviction, a: Bytes, b: Bytes, i: nat)
    requires |a| == |b| == 261 && i < 261
  {
    var lesser := if a[i] < b[i] then a else b;
    filed.wronged == lesser[53..117] && filed.wrongedTxHash == lesser[117..149]
  }

  lemma WrongedInLesser(a: Bytes, b: Bytes, i: nat)
    requires Check(a, b).Ok? && FirstDiffers(a, b, i)
    ensures var e, lesser := Check(a, b).value, if a[i] < b[i] then a else b;
      && WellFormed(e.a) && WellFormed(e.b)
      && WrongedSignature(e) == lesser[53..117] && WrongedTxHash(e) == lesser[117..149]
  {
    LexByFirstDifference(a, b, i);
  }

  /** Nobody is slashed without having signed the contradiction: behind every
      successful proof stand two different messages about one position of one
      log, each verified under the key fixed at registration. The conviction is
      filed under exactly that pair, and names the transaction of the message
      with the lesser byte where the two first differ, at `i`. */
  lemma ConvictionIsJust(env: Env, l: Ledger, q: Request, next: Ledger)
    returns (a: Bytes, b: Bytes, sa: Bytes64, sb: Bytes64, i: nat)
    requires Transact(env, l, q) == Ok(next) && q.instruction.ProveEquivocation?
    ensures q.operator in l.operators && q.operator in next.operators
    ensures |a| == |b| == 261 && a[..12] == b[..12] == DOMAIN_TAG
    ensures a[12..44] == b[12..44] && a[45..53] == b[45..53] && FirstDiffers(a, b, i)
    ensures env.c.verifies(l.operators[q.operator].signingKey, a, sa)
    ensures env.c.verifies(l.operators[q.operator].signingKey, b, sb)
    ensures var (x, y) := if a[i] < b[i] then (a, b) else (b, a);
      q.instruction.conviction == (q.operator, (env.c.sha256(x), env.c.sha256(y)))
    ensures q.instruction.conviction.1 in next.operators[q.operator].convictions
    ensures NamesLesser(next.operators[q.operator].convictions[q.instruction.conviction.1], a, b, i)
  {
    var e := StepEffect(env, l, q, next);
    var o := l.operators[q.operator];
    var messages := ProvenMessages(o, q).value;
    a, b := messages.0, messages.1;
    sa, sb := ProvenMessagesWereSigned(env, o, q, a, b);
    CheckedMessages(a, b);
    i := DifferSomewhere(a, b);
    WrongedInLesser(a, b, i);
    KeyIsOrdered(env.c, a, b, i);
  }
}
