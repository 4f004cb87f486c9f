/** The program's refusals (`crates/program/src/error.rs`). */
module SlashErrors {
  datatype SlashError =
    | BadInstruction
    | BadAccountData
    | WrongOwner
    | WrongPda
    | NotSigner
    | NoEd25519Instruction
    | UnregisteredKey
    | OffsetsNotSelfContained
    | WrongSignatureCount
    | MalformedReceipt
    | MixedLogs
    | DifferentSequence
    | NotContradictory
    | AlreadyConvicted
    | InsufficientBond
    | NothingStaked
    | Overdraw
    | BondLocked
}

/** The data of an ed25519 verification instruction: built by the court client
    (`crates/court/src/ed25519_instruction.rs`) and read back by the program
    (`crates/program/src/ed25519.rs`). */
module Ed25519 {
  import opened Base
  import opened Receipts
  import opened SlashErrors

  const HEADER_LEN: nat := 2
  const OFFSETS_LEN: nat := 14
  const THIS_INSTRUCTION: U16 := 0xFFFF

  datatype Verified = Verified(key: Bytes32, message: Bytes)

  // ---- Reading ----

  function Get(data: Bytes, at: nat, len: nat): Option<Bytes> {
    if at + len <= |data| then Some(data[at..at + len]) else None
  }

  /** The `n`-th little-endian half-word of an entry. */
  function HalfWord(entry: Bytes, n: nat): U16
    requires 2 * n + 2 <= |entry|
  {
    Pow256Widths();
    FromLe(entry[2 * n..2 * n + 2])
  }

  function PointsHere(instruction: U16, index: U16): bool { instruction == THIS_INSTRUCTION || instruction == index }

  function ReadEntry(data: Bytes, index: U16, entry: nat): Result<Verified, SlashError> {
    match Get(data, HEADER_LEN + entry * OFFSETS_LEN, OFFSETS_LEN)
    case None => Err(NoEd25519Instruction)
    case Some(o) =>
      if !PointsHere(HalfWord(o, 1), index) || !PointsHere(HalfWord(o, 3), index) || !PointsHere(HalfWord(o, 6), index)
      then Err(OffsetsNotSelfContained)
      else if Get(data, HalfWord(o, 0), 64).None? then Err(OffsetsNotSelfContained)
      else if Get(data, HalfWord(o, 2), 32).None? then Err(OffsetsNotSelfContained)
      else if Get(data, HalfWord(o, 4), HalfWord(o, 5)).None? then Err(OffsetsNotSelfContained)
      else Ok(Verified(Get(data, HalfWord(o, 2), 32).value, Get(data, HalfWord(o, 4), HalfWord(o, 5)).value))
  }

  /** The signature the precompile is pointed at by an entry. */
  function SignatureOf(data: Bytes, entry: nat): Option<Bytes> {
    match Get(data, HEADER_LEN + entry * OFFSETS_LEN, OFFSETS_LEN)
    case None => None
    case Some(o) => Get(data, HalfWord(o, 0), 64)
  }

  type Reader = nat -> Result<Verified, SlashError>

  function EntryReader(data: Bytes, index: U16): Reader { (entry: nat) => ReadEntry(data, index, entry) }

  /** The first `n` entries, or the first refusal among them. */
  function ReadEntries(read: Reader, n: nat): Result<seq<Verified>, SlashError> {
    if n == 0 then Ok([])
    else match ReadEntries(read, n - 1)
      case Err(e) => Err(e)
      case Ok(pairs) =>
        match read(n - 1)
        case Err(e) => Err(e)
        case Ok(pair) => Ok(pairs + [pair])
  }

  function VerifiedPairs(data: Bytes, index: U16): Result<seq<Verified>, SlashError> {
    if |data| < HEADER_LEN then Err(NoEd25519Instruction) else ReadEntries(EntryReader(data, index), data[0])
  }

  lemma {:induction false} RefusedEarly(read: Reader, n: nat, m: nat)
    requires n <= m && ReadEntries(read, n).Err?
    ensures ReadEntries(read, m) == ReadEntries(read, n)
    decreases m
  {
    if n < m {
      RefusedEarly(read, n, m - 1);
    }
  }

  method ReadPairs(data: Bytes, index: U16) returns (r: Result<seq<Verified>, SlashError>)
    ensures r == VerifiedPairs(data, index)
  {
    if |data| < HEADER_LEN {
      return Err(NoEd25519Instruction);
    }
    var count := data[0];
    var pairs := [];
    for entry := 0 to count
      invariant ReadEntries(EntryReader(data, index), entry) == Ok(pairs)
    {
      var next := ReadEntry(data, index, entry);
      if next.Err? {
        RefusedEarly(EntryReader(data, index), entry + 1, count);
        return Err(next.error);
      }
      pairs := pairs + [next.value];
    }
    r := Ok(pairs);
  }

  /** A successful read reports every entry, in order; one refused entry
      refuses the whole instruction. */
  lemma {:induction false} EntriesAreRead(read: Reader, n: nat, pairs: seq<Verified>)
    ensures ReadEntries(read, n) == Ok(pairs) <==> |pairs| == n && forall e :: 0 <= e < n ==> read(e) == Ok(pairs[e])
    decreases n
  {
    if n > 0 && |pairs| == n {
      EntriesAreRead(read, n - 1, pairs[..n - 1]);
      assert pairs == pairs[..n - 1] + [pairs[n - 1]];
    } else if n > 0 && ReadEntries(read, n - 1).Ok? {
      EntriesAreRead(read, n - 1, ReadEntries(read, n - 1).value);
    }
  }

  // ---- Building ----

  function OffsetsEntry(at: nat): (b: Bytes)
    ensures |b| == OFFSETS_LEN
  {
    ToLe(at, 2) + ToLe(THIS_INSTRUCTION, 2) + ToLe(at + 64, 2) + ToLe(THIS_INSTRUCTION, 2)
    + ToLe(at + 96, 2) + ToLe(RECEIPT_LEN, 2) + ToLe(THIS_INSTRUCTION, 2)
  }

  const PAYLOAD_LEN: nat := 64 + 32 + RECEIPT_LEN

  function Payload(key: Bytes32, s: SignedReceipt): (b: Bytes)
    ensures |b| == PAYLOAD_LEN
    ensures b[..64] == s.signature && b[64..96] == key && b[96..] == Encode(s.receipt)
  {
    s.signature + key + Encode(s.receipt)
  }

  const PAYLOAD_START: nat := HEADER_LEN + 2 * OFFSETS_LEN

  /** Header, two offset entries, two payloads. */
  function InstructionData(key: Bytes32, a: SignedReceipt, b: SignedReceipt): (data: Bytes)
    ensures |data| == PAYLOAD_START + 2 * PAYLOAD_LEN
  {
    [2, 0] + (OffsetsEntry(PAYLOAD_START) + OffsetsEntry(PAYLOAD_START + PAYLOAD_LEN))
    + (Payload(key, a) + Payload(key, b))
  }

  /** `as u16`, which keeps the low sixteen bits. */
  function AsU16(n: nat): U16 { n % U16_LIMIT }

  method PushHalfWords(data: Bytes, values: seq<U16>) returns (out: Bytes)
    ensures out == data + HalfWords(values)
  {
    out := data;
    for i := 0 to |values|
      invariant out == data + HalfWords(values[..i])
    {
      out := out + ToLe(values[i], 2);
      assert values[..i + 1][..i] == values[..i];
      Assoc(data, HalfWords(values[..i]), ToLe(values[i], 2));
    }
    assert values[..|values|] == values;
  }

  function HalfWords(values: seq<U16>): Bytes {
    if values == [] then [] else HalfWords(values[..|values| - 1]) + ToLe(values[|values| - 1], 2)
  }

  lemma Assoc(a: Bytes, b: Bytes, c: Bytes)
    ensures (a + b) + c == a + (b + c)
  {
  }

  lemma EntryHalfWords(at: nat)
    requires at + 96 < U16_LIMIT
    ensures OffsetsEntry(at) ==
            HalfWords([at, THIS_INSTRUCTION, at + 64, THIS_INSTRUCTION, at + 96, RECEIPT_LEN, THIS_INSTRUCTION])
  {
    var v: seq<U16> := [at, THIS_INSTRUCTION, at + 64, THIS_INSTRUCTION, at + 96, RECEIPT_LEN, THIS_INSTRUCTION];
    assert v[..6][..5] == v[..5] && v[..5][..4] == v[..4] && v[..4][..3] == v[..3] && v[..3][..2] == v[..2];
    assert v[..2][..1] == v[..1] && v[..1][..0] == [];
    assert HalfWords(v[..1]) == ToLe(at, 2);
    assert HalfWords(v[..2]) == HalfWords(v[..1]) + ToLe(THIS_INSTRUCTION, 2);
    assert HalfWords(v[..3]) == HalfWords(v[..2]) + ToLe(at + 64, 2);
    assert HalfWords(v[..4]) == HalfWords(v[..3]) + ToLe(THIS_INSTRUCTION, 2);
    assert HalfWords(v[..5]) == HalfWords(v[..4]) + ToLe(at + 96, 2);
    assert HalfWords(v[..6]) == HalfWords(v[..5]) + ToLe(RECEIPT_LEN, 2);
  }

  /** One round of the builder's loop: offsets are taken from the length of
      what is already in the payload. */
  method AppendReceipt(data: Bytes, payload: Bytes, key: Bytes32, s: SignedReceipt)
    returns (outData: Bytes, outPayload: Bytes)
    requires PAYLOAD_START + |payload| + 96 < U16_LIMIT
    ensures outData == data + OffsetsEntry(PAYLOAD_START + |payload|)
    ensures outPayload == payload + Payload(key, s)
  {
    var signatureAt := PAYLOAD_START + |payload|;
    outPayload := payload + s.signature;
    var keyAt := PAYLOAD_START + |outPayload|;
    outPayload := outPayload + key;
    var messageAt := PAYLOAD_START + |outPayload|;
    var message := Encode(s.receipt);
    outPayload := outPayload + message;
    PayloadParts(payload, key, s, message);
    EntryHalfWords(signatureAt);
    assert keyAt == signatureAt + 64 && messageAt == signatureAt + 96 && |message| == RECEIPT_LEN;
    outData := PushHalfWords(data, [
      AsU16(signatureAt), THIS_INSTRUCTION, AsU16(keyAt), THIS_INSTRUCTION,
      AsU16(messageAt), AsU16(|message|), THIS_INSTRUCTION]);
  }

  lemma PayloadParts(payload: Bytes, key: Bytes32, s: SignedReceipt, message: Bytes)
    requires message == Encode(s.receipt)
    ensures payload + s.signature + key + message == payload + Payload(key, s)
  {
  }

  method VerifyTwo(key: Bytes32, a: SignedReceipt, b: SignedReceipt) returns (data: Bytes)
    ensures data == InstructionData(key, a, b)
  {
    data := [2, 0];
    var payload: Bytes := [];
    var receipts := [a, b];
    for i := 0 to 2
      invariant data == [2, 0] + Entries(i)
      invariant payload == Payloads(key, receipts[..i]) && |payload| == i * PAYLOAD_LEN
    {
      Assoc([2, 0], Entries(i), OffsetsEntry(PAYLOAD_START + |payload|));
      data, payload := AppendReceipt(data, payload, key, receipts[i]);
      assert receipts[..i + 1][..i] == receipts[..i];
    }
    TwoEntries();
    TwoPayloads(key, a, b);
    assert receipts[..2] == receipts;
    data := data + payload;
  }

  lemma TwoEntries()
    ensures Entries(2) == OffsetsEntry(PAYLOAD_START) + OffsetsEntry(PAYLOAD_START + PAYLOAD_LEN)
  {
    assert Entries(1) == OffsetsEntry(PAYLOAD_START);
  }

  lemma TwoPayloads(key: Bytes32, a: SignedReceipt, b: SignedReceipt)
    ensures Payloads(key, [a, b]) == Payload(key, a) + Payload(key, b)
  {
    assert [a, b][..1] == [a] && [a][..0] == [];
    assert Payloads(key, [a]) == Payload(key, a);
  }

  function Entries(n: nat): Bytes {
    if n == 0 then [] else Entries(n - 1) + OffsetsEntry(PAYLOAD_START + (n - 1) * PAYLOAD_LEN)
  }

  function Payloads(key: Bytes32, receipts: seq<SignedReceipt>): Bytes {
    if receipts == [] then []
    else Payloads(key, receipts[..|receipts| - 1]) + Payload(key, receipts[|receipts| - 1])
  }

  // ---- Built, then read ----

  lemma SliceOfSlice(data: Bytes, part: Bytes, at: nat, i: nat, j: nat)
    requires at + |part| <= |data| && data[at..at + |part|] == part && i <= j <= |part|
    ensures data[at + i..at + j] == part[i..j]
  {
    forall k | i <= k < j ensures data[at + k] == part[k] {
      assert data[at..at + |part|][k] == data[at + k];
    }
    assert data[at + i..at + j] == part[i..j];
  }

  lemma DataLayout(key: Bytes32, a: SignedReceipt, b: SignedReceipt)
    ensures var data := InstructionData(key, a, b);
      && data[0] == 2
      && data[HEADER_LEN..HEADER_LEN + OFFSETS_LEN] == OffsetsEntry(PAYLOAD_START)
      && data[HEADER_LEN + OFFSETS_LEN..PAYLOAD_START] == OffsetsEntry(PAYLOAD_START + PAYLOAD_LEN)
      && data[PAYLOAD_START..PAYLOAD_START + PAYLOAD_LEN] == Payload(key, a)
      && data[PAYLOAD_START + PAYLOAD_LEN..] == Payload(key, b)
  {
    FiveParts([2, 0], OffsetsEntry(PAYLOAD_START), OffsetsEntry(PAYLOAD_START + PAYLOAD_LEN),
              Payload(key, a), Payload(key, b));
  }

  lemma FiveParts(h: Bytes, e: Bytes, f: Bytes, p: Bytes, q: Bytes)
    ensures var data := h + (e + f) + (p + q);
      && data[..|h|] == h
      && data[|h|..|h| + |e|] == e
      && data[|h| + |e|..|h| + |e| + |f|] == f
      && data[|h| + |e| + |f|..|h| + |e| + |f| + |p|] == p
      && data[|h| + |e| + |f| + |p|..] == q
  {
  }

  lemma HalfWordIs(entry: Bytes, n: nat, v: nat)
    requires 2 * n + 2 <= |entry| && entry[2 * n..2 * n + 2] == ToLe(v, 2) && v < U16_LIMIT
    ensures HalfWord(entry, n) == v
  {
    Pow256Widths();
    FromLeToLe(v, 2);
  }

  lemma SevenParts(a: Bytes, b: Bytes, c: Bytes, d: Bytes, e: Bytes, f: Bytes, g: Bytes)
    requires |a| == |b| == |c| == |d| == |e| == |f| == |g| == 2
    ensures var all := a + b + c + d + e + f + g;
      && all[0..2] == a && all[2..4] == b && all[4..6] == c && all[6..8] == d
      && all[8..10] == e && all[10..12] == f && all[12..14] == g
  {
  }

  lemma EntryFields(at: nat)
    requires at + 96 < U16_LIMIT
    ensures var o := OffsetsEntry(at);
      && HalfWord(o, 0) == at && HalfWord(o, 2) == at + 64 && HalfWord(o, 4) == at + 96 && HalfWord(o, 5) == RECEIPT_LEN
      && HalfWord(o, 1) == HalfWord(o, 3) == HalfWord(o, 6) == THIS_INSTRUCTION
  {
    var o, here := OffsetsEntry(at), ToLe(THIS_INSTRUCTION, 2);
    SevenParts(ToLe(at, 2), here, ToLe(at + 64, 2), here, ToLe(at + 96, 2), ToLe(RECEIPT_LEN, 2), here);
    HalfWordIs(o, 0, at);
    HalfWordIs(o, 1, THIS_INSTRUCTION);
    HalfWordIs(o, 2, at + 64);
    HalfWordIs(o, 3, THIS_INSTRUCTION);
    HalfWordIs(o, 4, at + 96);
    HalfWordIs(o, 5, RECEIPT_LEN);
    HalfWordIs(o, 6, THIS_INSTRUCTION);
  }

  /** One entry of the built data names exactly the signer's key and the
      receipt's signed bytes, and carries the receipt's own signature. */
  lemma EntryReadsBack(data: Bytes, index: U16, entry: nat, at: nat, key: Bytes32, s: SignedReceipt)
    requires HEADER_LEN + entry * OFFSETS_LEN + OFFSETS_LEN <= |data|
    requires data[HEADER_LEN + entry * OFFSETS_LEN..HEADER_LEN + entry * OFFSETS_LEN + OFFSETS_LEN] == OffsetsEntry(at)
    requires at + PAYLOAD_LEN <= |data| && at + 96 < U16_LIMIT
    requires data[at..at + PAYLOAD_LEN] == Payload(key, s)
    ensures ReadEntry(data, index, entry) == Ok(Verified(key, Encode(s.receipt)))
    ensures SignatureOf(data, entry) == Some(s.signature)
  {
    EntryFields(at);
    var p := Payload(key, s);
    SliceOfSlice(data, p, at, 0, 64);
    SliceOfSlice(data, p, at, 64, 96);
    SliceOfSlice(data, p, at, 96, PAYLOAD_LEN);
    assert p[0..64] == p[..64] && p[96..PAYLOAD_LEN] == p[96..];
  }

  /** The program reads back exactly what the court built, whatever the
      instruction's place in the transaction. */
  lemma BuiltIsReadBack(key: Bytes32, a: SignedReceipt, b: SignedReceipt, index: U16)
    ensures VerifiedPairs(InstructionData(key, a, b), index)
         == Ok([Verified(key, Encode(a.receipt)), Verified(key, Encode(b.receipt))])
    ensures SignatureOf(InstructionData(key, a, b), 0) == Some(a.signature)
    ensures SignatureOf(InstructionData(key, a, b), 1) == Some(b.signature)
  {
    var data := InstructionData(key, a, b);
    DataLayout(key, a, b);
    EntryReadsBack(data, index, 0, PAYLOAD_START, key, a);
    EntryReadsBack(data, index, 1, PAYLOAD_START + PAYLOAD_LEN, key, b);
    TwoRead(data, index, Verified(key, Encode(a.receipt)), Verified(key, Encode(b.receipt)));
  }

  lemma TwoRead(data: Bytes, index: U16, p: Verified, q: Verified)
    requires |data| >= HEADER_LEN && data[0] == 2
    requires ReadEntry(data, index, 0) == Ok(p) && ReadEntry(data, index, 1) == Ok(q)
    ensures VerifiedPairs(data, index) == Ok([p, q])
  {
    EntriesAreRead(EntryReader(data, index), 2, [p, q]);
  }

  predicate RunOf(data: Bytes, part: Bytes, at: nat) { at + |part| <= |data| && data[at..at + |part|] == part }

  /** The half-word at `at`, least significant byte first. */
  function Word16(data: Bytes, at: nat): nat
    requires at + 2 <= |data|
  {
    var high: nat := data[at + 1];
    data[at] + 256 * high
  }

  lemma HalfWordBytes(entry: Bytes, n: nat)
    requires 2 * n + 2 <= |entry|
    ensures HalfWord(entry, n) == Word16(entry, 2 * n)
  {
    var word := entry[2 * n..2 * n + 2];
    assert word == [entry[2 * n], entry[2 * n + 1]];
    assert FromLe(word[1..]) == word[1] + 256 * FromLe(word[1..][1..]);
  }

  predicate IsHere(instruction: nat, index: U16) { instruction == 0xFFFF || instruction == index }

  /** What an entry must say to be read, from the raw bytes: 14 bytes of offsets
      that all point into this instruction, at a signature, a key and a message
      that it holds in full. */
  predicate SelfContained(data: Bytes, index: U16, at: nat) {
    && at + 14 <= |data|
    && IsHere(Word16(data, at + 2), index) && IsHere(Word16(data, at + 6), index)
    && IsHere(Word16(data, at + 12), index)
    && Word16(data, at) + 64 <= |data| && Word16(data, at + 4) + 32 <= |data|
    && Word16(data, at + 8) + Word16(data, at + 10) <= |data|
  }

  lemma EntryWords(data: Bytes, at: nat)
    requires at + OFFSETS_LEN <= |data|
    ensures var o := data[at..at + OFFSETS_LEN];
      forall n :: 0 <= n < 7 ==> HalfWord(o, n) == Word16(data, at + 2 * n)
  {
    var o := data[at..at + OFFSETS_LEN];
    forall n | 0 <= n < 7 ensures HalfWord(o, n) == Word16(data, at + 2 * n) {
      HalfWordBytes(o, n);
    }
  }

  lemma EntryFieldsAre(data: Bytes, index: U16, e: nat, o: Bytes)
    requires Get(data, HEADER_LEN + e * OFFSETS_LEN, OFFSETS_LEN) == Some(o)
    ensures ReadEntry(data, index, e).Ok? <==>
      && PointsHere(HalfWord(o, 1), index) && PointsHere(HalfWord(o, 3), index) && PointsHere(HalfWord(o, 6), index)
      && HalfWord(o, 0) + 64 <= |data| && HalfWord(o, 2) + 32 <= |data| && HalfWord(o, 4) + HalfWord(o, 5) <= |data|
    ensures ReadEntry(data, index, e).Err? ==> ReadEntry(data, index, e).error == OffsetsNotSelfContained
  {
  }

  lemma EntryBytesAre(data: Bytes, index: U16, e: nat, o: Bytes)
    requires Get(data, HEADER_LEN + e * OFFSETS_LEN, OFFSETS_LEN) == Some(o) && ReadEntry(data, index, e).Ok?
    ensures var signature, key, message, length := HalfWord(o, 0), HalfWord(o, 2), HalfWord(o, 4), HalfWord(o, 5);
      && signature + 64 <= |data| && key + 32 <= |data| && message + length <= |data|
      && ReadEntry(data, index, e) == Ok(Verified(data[key..key + 32], data[message..message + length]))
      && SignatureOf(data, e) == Some(data[signature..signature + 64])
  {
  }

  /** An entry is read exactly when it is self-contained; otherwise the refusal
      says whether it is there at all. */
  lemma EntryReadIff(data: Bytes, index: U16, e: nat)
    ensures ReadEntry(data, index, e).Ok? <==> SelfContained(data, index, 2 + 14 * e)
    ensures ReadEntry(data, index, e).Err? ==>
      ReadEntry(data, index, e).error == if 16 + 14 * e <= |data| then OffsetsNotSelfContained else NoEd25519Instruction
  {
    var at := 2 + 14 * e;
    if at + 14 <= |data| {
      EntryWords(data, at);
      EntryFieldsAre(data, index, e, data[at..at + 14]);
    } else {
      assert Get(data, HEADER_LEN + e * OFFSETS_LEN, OFFSETS_LEN).None?;
    }
  }

  /** And gives the bytes its offsets point at. */
  lemma EntryIsExact(data: Bytes, index: U16, e: nat)
    requires SelfContained(data, index, 2 + 14 * e)
    ensures var at := 2 + 14 * e;
      var signature, key, message := Word16(data, at), Word16(data, at + 4), Word16(data, at + 8);
      && ReadEntry(data, index, e) ==
         Ok(Verified(data[key..key + 32], data[message..message + Word16(data, at + 10)]))
      && SignatureOf(data, e) == Some(data[signature..signature + 64])
  {
    var at := 2 + 14 * e;
    var o := data[at..at + 14];
    EntryReadIff(data, index, e);
    EntryBytesAre(data, index, e, o);
    EntryWords(data, at);
    assert HalfWord(o, 0) == Word16(data, at) && HalfWord(o, 2) == Word16(data, at + 4);
    assert HalfWord(o, 4) == Word16(data, at + 8) && HalfWord(o, 5) == Word16(data, at + 10);
  }

  /** Whatever is reported lies in this instruction's own bytes, and so does
      the signature it goes with. */
  lemma PairsLieInData(data: Bytes, index: U16, pairs: seq<Verified>, e: nat) returns (keyAt: nat, messageAt: nat)
    requires VerifiedPairs(data, index) == Ok(pairs) && e < |pairs|
    ensures |pairs| == data[0]
    ensures RunOf(data, pairs[e].key, keyAt) && RunOf(data, pairs[e].message, messageAt)
    ensures SignatureOf(data, e).Some?
  {
    EntriesAreRead(EntryReader(data, index), data[0], pairs);
    assert ReadEntry(data, index, e) == Ok(pairs[e]);
    var at := HEADER_LEN + e * OFFSETS_LEN;
    var o := data[at..at + OFFSETS_LEN];
    keyAt, messageAt := HalfWord(o, 2), HalfWord(o, 4);
  }
}

/** Two contradictory statements about one position, read from raw bytes
    (`crates/program/src/evidence.rs`), and the address they are convicted
    under (`crates/court/src/addresses.rs`). */
module Contradiction {
  import opened Base
  import opened Receipts
  import opened SlashErrors

  datatype Evidence = Evidence(seqNo: U64, logId: Bytes32, a: Bytes, b: Bytes)

  predicate WellFormed(b: Bytes) { |b| == RECEIPT_LEN && b[..OFF_LOG_ID] == DOMAIN_TAG }

  function Check(a: Bytes, b: Bytes): Result<Evidence, SlashError> {
    if !WellFormed(a) then Err(MalformedReceipt)
    else if !WellFormed(b) then Err(MalformedReceipt)
    else
      var logId := a[OFF_LOG_ID..OFF_LOG_ID + 32];
      if b[OFF_LOG_ID..OFF_LOG_ID + 32] != logId then Err(MixedLogs)
      else
        var seqNo := WordAt(a, OFF_SEQ);
        if WordAt(b, OFF_SEQ) != seqNo then Err(DifferentSequence)
        else if a == b then Err(NotContradictory)
        else Ok(Evidence(seqNo, logId, a, b))
  }

  /** The raw offsets the program reads are where the decoded fields live. */
  lemma RawFieldsAreDecoded(b: Bytes)
    requires Decode(b).Ok?
    ensures WellFormed(b)
    ensures b[OFF_LOG_ID..OFF_LOG_ID + 32] == Decode(b).value.logId
    ensures WordAt(b, OFF_SEQ) == Decode(b).value.seqNo
    ensures b[OFF_TX_SIG..OFF_TX_SIG + 64] == Decode(b).value.txSig
    ensures b[OFF_TX_HASH..OFF_RECENT_BLOCKHASH] == Decode(b).value.txHash
  {
  }

  /** On receipts, the raw-byte check accepts exactly two different statements
      about one position of one log, and reports that position; otherwise it
      says what is wrong. */
  lemma CheckIsExact(r: Receipt, s: Receipt)
    requires Validate(r).Ok? && Validate(s).Ok?
    ensures Check(Encode(r), Encode(s)) ==
      if r.logId != s.logId then Err(MixedLogs)
      else if r.seqNo != s.seqNo then Err(DifferentSequence)
      else if r == s then Err(NotContradictory)
      else Ok(Evidence(r.seqNo, r.logId, Encode(r), Encode(s)))
  {
    DecodeEncode(r);
    DecodeEncode(s);
    RawFieldsAreDecoded(Encode(r));
    RawFieldsAreDecoded(Encode(s));
  }

  // ---- Canonical order ----

  /** Byte strings in dictionary order. */
  predicate Lex(a: Bytes, b: Bytes) {
    a == [] || (b != [] && (a[0] < b[0] || (a[0] == b[0] && Lex(a[1..], b[1..]))))
  }

  lemma {:induction false} LexIsTotal(a: Bytes, b: Bytes)
    ensures Lex(a, b) || Lex(b, a)
    ensures Lex(a, b) && Lex(b, a) ==> a == b
  {
    if a != [] && b != [] && a[0] == b[0] {
      LexIsTotal(a[1..], b[1..]);
      assert a == [a[0]] + a[1..] && b == [b[0]] + b[1..];
    }
  }

  /** `i` is where `a` and `b` first differ. */
  predicate FirstDiffers(a: Bytes, b: Bytes, i: nat) {
    i < |a| && i < |b| && a[i] != b[i] && forall j :: 0 <= j < i ==> a[j] == b[j]
  }

  lemma {:induction false} DifferSomewhere(a: Bytes, b: Bytes) returns (i: nat)
    requires |a| == |b| && a != b
    ensures FirstDiffers(a, b, i)
  {
    if a[0] != b[0] {
      i := 0;
    } else {
      assert a == [a[0]] + a[1..] && b == [b[0]] + b[1..];
      i := DifferSomewhere(a[1..], b[1..]);
      i := i + 1;
    }
  }

  /** The order is decided by the first byte that differs. */
  lemma {:induction false} LexByFirstDifference(a: Bytes, b: Bytes, i: nat)
    requires FirstDiffers(a, b, i)
    ensures Lex(a, b) <==> a[i] < b[i]
    decreases i
  {
    if i > 0 {
      LexByFirstDifference(a[1..], b[1..], i - 1);
    }
  }

  function Ordered(a: Bytes, b: Bytes): (Bytes, Bytes) { if Lex(a, b) then (a, b) else (b, a) }

  /** Whichever way round a pair is presented, it names one ordered pair; and
      different unordered pairs name different ones. */
  lemma OrderedIsCanonical(a: Bytes, b: Bytes, x: Bytes, y: Bytes)
    ensures Ordered(a, b) == Ordered(b, a)
    ensures Ordered(a, b) == Ordered(x, y) <==> (a == x && b == y) || (a == y && b == x)
  {
    LexIsTotal(a, b);
    LexIsTotal(x, y);
  }

  /** The seeds of a conviction address: the hashes of both receipts. */
  type ConvictionKey = (Bytes32, Bytes32)

  /** As the program derives it, from checked evidence. */
  function ProgramKey(c: Crypto, e: Evidence): ConvictionKey {
    var (low, high) := Ordered(e.a, e.b);
    (c.sha256(low), c.sha256(high))
  }

  /** As the court's client derives it, from the two messages it holds. */
  function ClientKey(c: Crypto, a: Bytes, b: Bytes): ConvictionKey {
    var (low, high) := if Lex(a, b) then (a, b) else (b, a);
    (c.sha256(low), c.sha256(high))
  }

  ghost predicate Sha256Collision(c: Crypto) { exists p, q :: p != q && c.sha256(p) == c.sha256(q) }

  /** Client and program agree on the address whichever way round each holds
      the pair, and two contradictions share an address only by a hash
      collision. */
  lemma KeysAgree(c: Crypto, a: Bytes, b: Bytes)
    requires Check(a, b).Ok?
    ensures Check(b, a).Ok?
    ensures ProgramKey(c, Check(a, b).value) == ClientKey(c, a, b) == ClientKey(c, b, a)
    ensures ProgramKey(c, Check(b, a).value) == ClientKey(c, a, b)
  {
    OrderedIsCanonical(a, b, b, a);
  }

  /** The seeds are the hashes of the two messages, the lesser one first. */
  lemma KeyIsOrdered(c: Crypto, a: Bytes, b: Bytes, i: nat)
    requires FirstDiffers(a, b, i)
    ensures ClientKey(c, a, b) ==
      if a[i] < b[i] then (c.sha256(a), c.sha256(b)) else (c.sha256(b), c.sha256(a))
  {
    LexByFirstDifference(a, b, i);
  }

  lemma KeyNamesPair(c: Crypto, a: Bytes, b: Bytes, x: Bytes, y: Bytes)
    requires ClientKey(c, a, b) == ClientKey(c, x, y)
    ensures (a == x && b == y) || (a == y && b == x) || Sha256Collision(c)
  {
    OrderedIsCanonical(a, b, x, y);
    var (low, high) := Ordered(a, b);
    var (l, h) := Ordered(x, y);
    if low != l {
      assert c.sha256(low) == c.sha256(l);
    } else if high != h {
      assert c.sha256(high) == c.sha256(h);
    }
  }

  /** The transaction the log lied to, by canonical order. */
  function WrongedSignature(e: Evidence): (s: Bytes)
    requires WellFormed(e.a) && WellFormed(e.b)
    ensures |s| == 64
  {
    Ordered(e.a, e.b).0[OFF_TX_SIG..OFF_TX_SIG + 64]
  }

  function WrongedTxHash(e: Evidence): (h: Bytes)
    requires WellFormed(e.a) && WellFormed(e.b)
    ensures |h| == 32
  {
    Ordered(e.a, e.b).0[OFF_TX_HASH..OFF_RECENT_BLOCKHASH]
  }

  /** The victim is the transaction of one of the two receipts, the same one
      whichever way round they are presented. */
  lemma VictimIsCanonical(r: Receipt, s: Receipt)
    requires Validate(r).Ok? && Validate(s).Ok? && Check(Encode(r), Encode(s)).Ok?
    ensures Check(Encode(s), Encode(r)).Ok?
    ensures var e, f := Check(Encode(r), Encode(s)).value, Check(Encode(s), Encode(r)).value;
      && WellFormed(e.a) && WellFormed(e.b) && WellFormed(f.a) && WellFormed(f.b)
      && WrongedTxHash(e) == WrongedTxHash(f) && WrongedSignature(e) == WrongedSignature(f)
      && ((WrongedTxHash(e) == r.txHash && WrongedSignature(e) == r.txSig)
          || (WrongedTxHash(e) == s.txHash && WrongedSignature(e) == s.txSig))
  {
    DecodeEncode(r);
    DecodeEncode(s);
    RawFieldsAreDecoded(Encode(r));
    RawFieldsAreDecoded(Encode(s));
    OrderedIsCanonical(Encode(r), Encode(s), Encode(s), Encode(r));
  }

  /** Which one: that of the receipt with the lesser byte where the two encoded
      receipts first differ. */
  lemma VictimIsLesser(r: Receipt, s: Receipt, i: nat)
    requires Validate(r).Ok? && Validate(s).Ok? && Check(Encode(r), Encode(s)).Ok?
    requires FirstDiffers(Encode(r), Encode(s), i)
    ensures var e := Check(Encode(r), Encode(s)).value;
      && WellFormed(e.a) && WellFormed(e.b)
      && var wronged := if Encode(r)[i] < Encode(s)[i] then r else s;
         WrongedTxHash(e) == wronged.txHash && WrongedSignature(e) == wronged.txSig
  {
    DecodeEncode(r);
    DecodeEncode(s);
    RawFieldsAreDecoded(Encode(r));
    RawFieldsAreDecoded(Encode(s));
    LexByFirstDifference(Encode(r), Encode(s), i);
  }
}
