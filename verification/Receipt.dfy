/** Receipts and their frozen byte layout (`crates/receipt`, `crates/constants`). */
module Receipts {
  import opened Base

  const OFF_LOG_ID: nat := 12
  const OFF_MODE: nat := 44
  const OFF_SEQ: nat := 45
  const OFF_TX_SIG: nat := 53
  const OFF_TX_HASH: nat := 117
  const OFF_RECENT_BLOCKHASH: nat := 149
  const OFF_PREV_RECEIPT_HASH: nat := 181
  const OFF_COMMITTER: nat := 213
  const OFF_INGRESS_SLOT: nat := 245
  const OFF_T_INGRESS_MICROS: nat := 253
  const RECEIPT_LEN: nat := 261
  const SIGNED_RECEIPT_LEN: nat := 325

  /** "MBRECEIPT_V1" in ASCII. */
  const DOMAIN_TAG: Bytes := [77, 66, 82, 69, 67, 69, 73, 80, 84, 95, 86, 49]

  datatype Mode = Plain | Commit | Reveal | Retract {
    function Code(): Byte {
      match this case Plain => 1 case Commit => 2 case Reveal => 3 case Retract => 4
    }
  }

  function ModeOf(b: Byte): (m: Option<Mode>)
    ensures if 1 <= b <= 4 then m.Some? && m.value.Code() == b else m.None?
  {
    if b == 1 then Some(Plain) else if b == 2 then Some(Commit)
    else if b == 3 then Some(Reveal) else if b == 4 then Some(Retract) else None
  }

  datatype Receipt = Receipt(
    logId: Bytes32,
    mode: Mode,
    seqNo: U64,
    txSig: Bytes64,
    txHash: Bytes32,
    recentBlockhash: Bytes32,
    prevReceiptHash: Bytes32,
    committer: Bytes32,
    ingressSlot: U64,
    tIngressMicros: U64)

  datatype SignedReceipt = SignedReceipt(receipt: Receipt, signature: Bytes64)

  datatype ReceiptError =
    | WrongLength(len: nat)
    | BadDomainTag
    | InvalidMode(code: Byte)
    | ModeReserved
    | TxSigNotZeroed
    | TxSigZeroed
    | TxHashZeroed
    | RecentBlockhashNotZeroed
    | CommitterNotZeroed
    | CommitterZeroed
    | BadSignature

  function Validate(r: Receipt): Result<(), ReceiptError> {
    match r.mode
    case Plain =>
      if r.txSig == ZERO64 then Err(TxSigZeroed)
      else if r.committer != ZERO32 then Err(CommitterNotZeroed)
      else Ok(())
    case Commit =>
      if r.txSig != ZERO64 then Err(TxSigNotZeroed)
      else if r.committer == ZERO32 then Err(CommitterZeroed)
      else Ok(())
    case Retract =>
      if r.txSig == ZERO64 then Err(TxSigZeroed)
      else if r.txHash == ZERO32 then Err(TxHashZeroed)
      else if r.recentBlockhash != ZERO32 then Err(RecentBlockhashNotZeroed)
      else if r.committer != ZERO32 then Err(CommitterNotZeroed)
      else Ok(())
    case Reveal => Err(ModeReserved)
  }

  function EncodeHead(r: Receipt): (b: Bytes)
    ensures |b| == OFF_TX_SIG
    ensures b[..OFF_LOG_ID] == DOMAIN_TAG && b[OFF_LOG_ID..OFF_MODE] == r.logId
    ensures b[OFF_MODE] == r.mode.Code() && b[OFF_SEQ..] == ToLe(r.seqNo, 8)
  {
    DOMAIN_TAG + r.logId + [r.mode.Code()] + ToLe(r.seqNo, 8)
  }

  function EncodeBody(r: Receipt): (b: Bytes)
    ensures |b| == 160
    ensures b[..64] == r.txSig && b[64..96] == r.txHash && b[96..128] == r.recentBlockhash
    ensures b[128..] == r.prevReceiptHash
  {
    r.txSig + r.txHash + r.recentBlockhash + r.prevReceiptHash
  }

  function EncodeTail(r: Receipt): (b: Bytes)
    ensures |b| == 48
    ensures b[..32] == r.committer && b[32..40] == ToLe(r.ingressSlot, 8) && b[40..] == ToLe(r.tIngressMicros, 8)
  {
    r.committer + ToLe(r.ingressSlot, 8) + ToLe(r.tIngressMicros, 8)
  }

  /** The signed message: every field at its documented place. */
  function Encode(r: Receipt): (b: Bytes)
    ensures |b| == RECEIPT_LEN
  {
    EncodeHead(r) + EncodeBody(r) + EncodeTail(r)
  }

  function WordAt(b: Bytes, at: nat): U64
    requires at + 8 <= |b|
  {
    Pow256Widths();
    FromLe(b[at..at + 8])
  }

  function FieldsOf(b: Bytes, mode: Mode): Receipt
    requires |b| == RECEIPT_LEN
  {
    Receipt(
      b[OFF_LOG_ID..OFF_MODE], mode, WordAt(b, OFF_SEQ), b[OFF_TX_SIG..OFF_TX_HASH],
      b[OFF_TX_HASH..OFF_RECENT_BLOCKHASH], b[OFF_RECENT_BLOCKHASH..OFF_PREV_RECEIPT_HASH],
      b[OFF_PREV_RECEIPT_HASH..OFF_COMMITTER], b[OFF_COMMITTER..OFF_INGRESS_SLOT],
      WordAt(b, OFF_INGRESS_SLOT), WordAt(b, OFF_T_INGRESS_MICROS))
  }

  function Decode(b: Bytes): Result<Receipt, ReceiptError> {
    if |b| != RECEIPT_LEN then Err(WrongLength(|b|))
    else if b[..OFF_LOG_ID] != DOMAIN_TAG then Err(BadDomainTag)
    else match ModeOf(b[OFF_MODE])
      case None => Err(InvalidMode(b[OFF_MODE]))
      case Some(mode) =>
        var r := FieldsOf(b, mode);
        match Validate(r)
        case Ok(_) => Ok(r)
        case Err(e) => Err(e)
  }

  predicate AllZero(b: Bytes) { forall i :: 0 <= i < |b| ==> b[i] == 0 }

  lemma ZeroIff(b: Bytes)
    ensures |b| == 32 ==> (b == ZERO32 <==> AllZero(b))
    ensures |b| == 64 ==> (b == ZERO64 <==> AllZero(b))
  {
  }

  /** Exactly which byte strings are receipts: 261 bytes under the domain tag,
      whose mode byte says plain, ticket or retraction. A ticket names no
      signature and some committer, the others some signature and no committer;
      a retraction names a receipt and no block hash. */
  lemma DecodesIff(b: Bytes)
    ensures Decode(b).Ok? <==>
      && |b| == 261 && b[..12] == DOMAIN_TAG && b[44] in {1, 2, 4}
      && (AllZero(b[53..117]) <==> b[44] == 2)
      && (AllZero(b[213..245]) <==> b[44] != 2)
      && (b[44] == 4 ==> !AllZero(b[117..149]) && AllZero(b[149..181]))
  {
    if |b| == RECEIPT_LEN {
      ZeroIff(b[53..117]);
      ZeroIff(b[213..245]);
      ZeroIff(b[117..149]);
      ZeroIff(b[149..181]);
    }
  }

  /** Where each field of an encoded receipt is found. */
  lemma EncodeLayout(r: Receipt)
    ensures var b := Encode(r);
      && b[..OFF_LOG_ID] == DOMAIN_TAG
      && b[OFF_LOG_ID..OFF_MODE] == r.logId
      && b[OFF_MODE] == r.mode.Code()
      && b[OFF_SEQ..OFF_TX_SIG] == ToLe(r.seqNo, 8)
      && b[OFF_TX_SIG..OFF_TX_HASH] == r.txSig
      && b[OFF_TX_HASH..OFF_RECENT_BLOCKHASH] == r.txHash
      && b[OFF_RECENT_BLOCKHASH..OFF_PREV_RECEIPT_HASH] == r.recentBlockhash
      && b[OFF_PREV_RECEIPT_HASH..OFF_COMMITTER] == r.prevReceiptHash
      && b[OFF_COMMITTER..OFF_INGRESS_SLOT] == r.committer
      && b[OFF_INGRESS_SLOT..OFF_T_INGRESS_MICROS] == ToLe(r.ingressSlot, 8)
      && b[OFF_T_INGRESS_MICROS..RECEIPT_LEN] == ToLe(r.tIngressMicros, 8)
  {
    var b, head, body, tail := Encode(r), EncodeHead(r), EncodeBody(r), EncodeTail(r);
    assert b[..53] == head && b[53..213] == body && b[213..] == tail;
    assert b[12..44] == head[12..44] && b[45..53] == head[45..];
    assert b[53..117] == body[..64] && b[117..149] == body[64..96];
    assert b[149..181] == body[96..128] && b[181..213] == body[128..];
    assert b[213..245] == tail[..32] && b[245..253] == tail[32..40] && b[253..261] == tail[40..];
  }

  /** The integers read at raw offsets are the fields that were signed. */
  lemma EncodeWords(r: Receipt)
    ensures var b := Encode(r);
      && WordAt(b, OFF_SEQ) == r.seqNo
      && WordAt(b, OFF_INGRESS_SLOT) == r.ingressSlot
      && WordAt(b, OFF_T_INGRESS_MICROS) == r.tIngressMicros
  {
    EncodeLayout(r);
    Pow256Widths();
    FromLeToLe(r.seqNo, 8);
    FromLeToLe(r.ingressSlot, 8);
    FromLeToLe(r.tIngressMicros, 8);
  }

  /** Decoding an encoded receipt gives it back exactly when it is valid, and
      otherwise the very reason it is not. */
  lemma DecodeEncode(r: Receipt)
    ensures Decode(Encode(r)) == match Validate(r) case Ok(_) => Ok(r) case Err(e) => Err(e)
  {
    var b := Encode(r);
    TagAndMode(r);
    FieldsOfEncode(r);
    assert ModeOf(b[OFF_MODE]) == Some(r.mode);
  }

  lemma TagAndMode(r: Receipt)
    ensures Encode(r)[..OFF_LOG_ID] == DOMAIN_TAG && Encode(r)[OFF_MODE] == r.mode.Code()
  {
    EncodeLayout(r);
  }

  lemma FieldsOfEncode(r: Receipt)
    ensures FieldsOf(Encode(r), r.mode) == r
  {
    EncodeLayout(r);
    EncodeWords(r);
  }

  lemma HeadOfFields(b: Bytes, mode: Mode)
    requires |b| == RECEIPT_LEN && b[..OFF_LOG_ID] == DOMAIN_TAG && b[OFF_MODE] == mode.Code()
    ensures EncodeHead(FieldsOf(b, mode)) == b[..OFF_TX_SIG]
  {
    ToLeFromLe(b[OFF_SEQ..OFF_TX_SIG]);
  }

  lemma BodyOfFields(b: Bytes, mode: Mode)
    requires |b| == RECEIPT_LEN
    ensures EncodeBody(FieldsOf(b, mode)) == b[OFF_TX_SIG..OFF_COMMITTER]
  {
  }

  lemma TailOfFields(b: Bytes, mode: Mode)
    requires |b| == RECEIPT_LEN
    ensures EncodeTail(FieldsOf(b, mode)) == b[OFF_COMMITTER..]
  {
    ToLeFromLe(b[OFF_INGRESS_SLOT..OFF_T_INGRESS_MICROS]);
    ToLeFromLe(b[OFF_T_INGRESS_MICROS..RECEIPT_LEN]);
  }

  lemma EncodeOfFields(b: Bytes, mode: Mode)
    requires |b| == RECEIPT_LEN && b[..OFF_LOG_ID] == DOMAIN_TAG && b[OFF_MODE] == mode.Code()
    ensures Encode(FieldsOf(b, mode)) == b
  {
    HeadOfFields(b, mode);
    BodyOfFields(b, mode);
    TailOfFields(b, mode);
    assert b == b[..OFF_TX_SIG] + b[OFF_TX_SIG..OFF_COMMITTER] + b[OFF_COMMITTER..];
  }

  /** Any accepted bytes are the encoding of the receipt they decode to. */
  lemma EncodeDecode(b: Bytes)
    requires Decode(b).Ok?
    ensures Encode(Decode(b).value) == b
    ensures Validate(Decode(b).value).Ok?
  {
    EncodeOfFields(b, ModeOf(b[OFF_MODE]).value);
  }

  /** Different receipts are different messages, valid or not. */
  lemma EncodeInjective(r: Receipt, s: Receipt)
    requires Encode(r) == Encode(s)
    ensures r == s
  {
    TagAndMode(r);
    TagAndMode(s);
    FieldsOfEncode(r);
    FieldsOfEncode(s);
    assert ModeOf(r.mode.Code()) == Some(r.mode) && ModeOf(s.mode.Code()) == Some(s.mode);
  }

  // ---- The buffer-filling encoder ----

  method CopyInto(out: array<Byte>, at: nat, src: Bytes)
    requires at + |src| <= out.Length
    modifies out
    ensures out[..at + |src|] == old(out[..at]) + src
    ensures out[at + |src|..] == old(out[at + |src|..])
  {
    var i := 0;
    while i < |src|
      invariant 0 <= i <= |src|
      invariant out[..at + i] == old(out[..at]) + src[..i]
      invariant out[at + i..] == old(out[at + i..])
    {
      out[at + i] := src[i];
      i := i + 1;
    }
  }

  method WriteHead(out: array<Byte>, r: Receipt)
    requires out.Length == RECEIPT_LEN
    modifies out
    ensures out[..OFF_TX_SIG] == EncodeHead(r)
  {
    CopyInto(out, 0, DOMAIN_TAG);
    CopyInto(out, OFF_LOG_ID, r.logId);
    CopyInto(out, OFF_MODE, [r.mode.Code()]);
    CopyInto(out, OFF_SEQ, ToLe(r.seqNo, 8));
  }

  method WriteBody(out: array<Byte>, r: Receipt)
    requires out.Length == RECEIPT_LEN
    modifies out
    ensures out[..OFF_COMMITTER] == old(out[..OFF_TX_SIG]) + EncodeBody(r)
  {
    CopyInto(out, OFF_TX_SIG, r.txSig);
    CopyInto(out, OFF_TX_HASH, r.txHash);
    CopyInto(out, OFF_RECENT_BLOCKHASH, r.recentBlockhash);
    CopyInto(out, OFF_PREV_RECEIPT_HASH, r.prevReceiptHash);
  }

  method WriteTail(out: array<Byte>, r: Receipt)
    requires out.Length == RECEIPT_LEN
    modifies out
    ensures out[..] == old(out[..OFF_COMMITTER]) + EncodeTail(r)
  {
    CopyInto(out, OFF_COMMITTER, r.committer);
    CopyInto(out, OFF_INGRESS_SLOT, ToLe(r.ingressSlot, 8));
    CopyInto(out, OFF_T_INGRESS_MICROS, ToLe(r.tIngressMicros, 8));
    assert out[..] == out[..RECEIPT_LEN];
  }

  /** Fills a zeroed buffer field by field, at the offsets of the layout table. */
  method ToBytes(r: Receipt) returns (out: array<Byte>)
    ensures fresh(out) && out[..] == Encode(r)
  {
    out := new Byte[RECEIPT_LEN](i => 0);
    WriteHead(out, r);
    WriteBody(out, r);
    WriteTail(out, r);
  }

  // ---- Signed receipts ----

  function EncodeSigned(s: SignedReceipt): (b: Bytes)
    ensures |b| == SIGNED_RECEIPT_LEN && b[..261] == Encode(s.receipt) && b[261..] == s.signature
  {
    Encode(s.receipt) + s.signature
  }

  function DecodeSigned(b: Bytes): Result<SignedReceipt, ReceiptError> {
    if |b| != SIGNED_RECEIPT_LEN then Err(WrongLength(|b|))
    else match Decode(b[..RECEIPT_LEN])
      case Ok(r) => Ok(SignedReceipt(r, b[RECEIPT_LEN..]))
      case Err(e) => Err(e)
  }

  lemma DecodeEncodeSigned(s: SignedReceipt)
    ensures DecodeSigned(EncodeSigned(s))
         == match Validate(s.receipt) case Ok(_) => Ok(s) case Err(e) => Err(e)
  {
    assert EncodeSigned(s)[..RECEIPT_LEN] == Encode(s.receipt);
    assert EncodeSigned(s)[RECEIPT_LEN..] == s.signature;
    DecodeEncode(s.receipt);
  }

  lemma EncodeDecodeSigned(b: Bytes)
    requires DecodeSigned(b).Ok?
    ensures EncodeSigned(DecodeSigned(b).value) == b
  {
    EncodeDecode(b[..RECEIPT_LEN]);
  }

  lemma EncodeSignedInjective(s: SignedReceipt, t: SignedReceipt)
    requires EncodeSigned(s) == EncodeSigned(t)
    ensures s == t
  {
    assert EncodeSigned(s)[..RECEIPT_LEN] == Encode(s.receipt);
    assert EncodeSigned(t)[..RECEIPT_LEN] == Encode(t.receipt);
    assert EncodeSigned(s)[RECEIPT_LEN..] == s.signature;
    assert EncodeSigned(t)[RECEIPT_LEN..] == t.signature;
    EncodeInjective(s.receipt, t.receipt);
  }

  /** What the next receipt in the log must carry as its chain link. */
  function ReceiptHash(c: Crypto, s: SignedReceipt): Bytes32 { c.sha256(EncodeSigned(s)) }

  function VerifySigned(c: Crypto, key: Bytes32, s: SignedReceipt): Result<(), ReceiptError> {
    match Validate(s.receipt)
    case Err(e) => Err(e)
    case Ok(_) => if c.verifies(key, Encode(s.receipt), s.signature) then Ok(()) else Err(BadSignature)
  }
}
