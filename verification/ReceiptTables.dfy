/** Lookup tables over the receipts an operator stands behind
    (`receipt_index.rs`, `withdrawals.rs`). */
module ReceiptTables {
  import opened Base
  import opened Receipts
  import opened Faults
  import opened Blocks

  type Key<!K> = SignedReceipt -> Option<K>

  /** Every key with the last receipt filed under it. */
  function LastBy<K>(receipts: seq<SignedReceipt>, key: Key<K>): map<K, SignedReceipt> {
    if receipts == [] then map[]
    else
      var before, last := LastBy(receipts[..|receipts| - 1], key), receipts[|receipts| - 1];
      match key(last)
      case None => before
      case Some(k) => before[k := last]
  }

  /** What "last" means, said without the table: the receipt at `i` is filed
      under `k` and nothing after it is. */
  predicate IsLast<K(==)>(receipts: seq<SignedReceipt>, key: Key<K>, k: K, i: int) {
    0 <= i < |receipts| && key(receipts[i]) == Some(k) && forall j :: i < j < |receipts| ==> key(receipts[j]) != Some(k)
  }

  lemma {:induction false} LastByIsLast<K>(receipts: seq<SignedReceipt>, key: Key<K>, k: K)
    ensures k in LastBy(receipts, key) <==> exists i :: 0 <= i < |receipts| && key(receipts[i]) == Some(k)
    ensures k in LastBy(receipts, key) ==>
      exists i :: IsLast(receipts, key, k, i) && receipts[i] == LastBy(receipts, key)[k]
    decreases |receipts|
  {
    if receipts != [] {
      var n := |receipts| - 1;
      var init := receipts[..n];
      LastByIsLast(init, key, k);
      if key(receipts[n]) == Some(k) {
        assert IsLast(receipts, key, k, n);
      } else {
        assert forall i :: 0 <= i < n ==> init[i] == receipts[i];
        if k in LastBy(init, key) {
          var i :| IsLast(init, key, k, i) && init[i] == LastBy(init, key)[k];
          assert IsLast(receipts, key, k, i);
        }
      }
    }
  }

  /** Whatever a table returns was delivered and is filed where it was found. */
  lemma LastByFiles<K>(receipts: seq<SignedReceipt>, key: Key<K>, k: K)
    requires k in LastBy(receipts, key)
    ensures LastBy(receipts, key)[k] in receipts && key(LastBy(receipts, key)[k]) == Some(k)
  {
    LastByIsLast(receipts, key, k);
  }

  function PlainKey(w: Watch): Key<Bytes64> {
    (s: SignedReceipt) => if Accepted(w, s) && s.receipt.mode == Plain then Some(s.receipt.txSig) else None
  }

  function CommitKey(w: Watch): Key<Bytes32> {
    (s: SignedReceipt) => if Accepted(w, s) && s.receipt.mode == Commit then Some(s.receipt.txHash) else None
  }

  /** A retraction carries the hash of the receipt it takes back. */
  function RetractKey(w: Watch): Key<Bytes32> {
    (s: SignedReceipt) => if s.receipt.mode != Retract || !Accepted(w, s) then None else Some(s.receipt.txHash)
  }

  datatype ReceiptIndex = ReceiptIndex(
    bySignature: map<Bytes64, SignedReceipt>,
    byHash: map<Bytes32, SignedReceipt>,
    withdrawn: map<Bytes32, SignedReceipt>)
  {
    function Find(t: ObservedTransaction): Option<SignedReceipt> {
      if t.signature in bySignature then Some(bySignature[t.signature])
      else if t.txHash in byHash then Some(byHash[t.txHash])
      else None
    }

    function Withdrawal(w: Watch, s: SignedReceipt): Option<SignedReceipt> {
      WithdrawalIn(w, withdrawn, s)
    }
  }

  function WithdrawalIn(w: Watch, withdrawn: map<Bytes32, SignedReceipt>, s: SignedReceipt): Option<SignedReceipt> {
    if w.hash(s) in withdrawn then Some(withdrawn[w.hash(s)]) else None
  }

  function IndexOf(w: Watch, receipts: seq<SignedReceipt>): ReceiptIndex {
    ReceiptIndex(LastBy(receipts, PlainKey(w)), LastBy(receipts, CommitKey(w)), LastBy(receipts, RetractKey(w)))
  }

  method BuildWithdrawals(w: Watch, receipts: seq<SignedReceipt>) returns (withdrawn: map<Bytes32, SignedReceipt>)
    ensures withdrawn == LastBy(receipts, RetractKey(w))
  {
    withdrawn := map[];
    for i := 0 to |receipts|
      invariant withdrawn == LastBy(receipts[..i], RetractKey(w))
    {
      var s := receipts[i];
      assert receipts[..i + 1][..i] == receipts[..i];
      if s.receipt.mode != Retract || !Accepted(w, s) {
        continue;
      }
      withdrawn := withdrawn[s.receipt.txHash := s];
    }
    assert receipts[..|receipts|] == receipts;
  }

  method BuildIndex(w: Watch, receipts: seq<SignedReceipt>) returns (index: ReceiptIndex)
    ensures index == IndexOf(w, receipts)
  {
    var withdrawn := BuildWithdrawals(w, receipts);
    var bySignature, byHash := map[], map[];
    for i := 0 to |receipts|
      invariant bySignature == LastBy(receipts[..i], PlainKey(w))
      invariant byHash == LastBy(receipts[..i], CommitKey(w))
    {
      var s := receipts[i];
      assert receipts[..i + 1][..i] == receipts[..i];
      if !Accepted(w, s) {
        continue;
      }
      match s.receipt.mode {
        case Commit => byHash := byHash[s.receipt.txHash := s];
        case Plain => bySignature := bySignature[s.receipt.txSig := s];
        case Retract =>
        case Reveal =>
      }
    }
    assert receipts[..|receipts|] == receipts;
    index := ReceiptIndex(bySignature, byHash, withdrawn);
  }

  /** The receipt found for a transaction was delivered, is the operator's own
      statement about this log, and names the transaction: a plain receipt by
      signature, a ticket by content hash. */
  lemma FoundReceipt(w: Watch, receipts: seq<SignedReceipt>, t: ObservedTransaction)
    ensures var found := IndexOf(w, receipts).Find(t);
      found.Some? ==>
        && found.value in receipts && Accepted(w, found.value)
        && (found.value.receipt.mode.Plain? || found.value.receipt.mode.Commit?)
        && (found.value.receipt.mode.Plain? ==> found.value.receipt.txSig == t.signature)
        && (found.value.receipt.mode.Commit? ==> found.value.receipt.txHash == t.txHash)
  {
    var index := IndexOf(w, receipts);
    if t.signature in index.bySignature {
      LastByFiles(receipts, PlainKey(w), t.signature);
    } else if t.txHash in index.byHash {
      LastByFiles(receipts, CommitKey(w), t.txHash);
    }
  }

  /** A transaction goes without a receipt exactly when no accepted plain
      receipt names its signature and no accepted ticket names its contents. */
  lemma NotFoundMeans(w: Watch, receipts: seq<SignedReceipt>, t: ObservedTransaction)
    ensures IndexOf(w, receipts).Find(t).None? <==>
      forall i :: 0 <= i < |receipts| ==>
        PlainKey(w)(receipts[i]) != Some(t.signature) && CommitKey(w)(receipts[i]) != Some(t.txHash)
  {
    LastByIsLast(receipts, PlainKey(w), t.signature);
    LastByIsLast(receipts, CommitKey(w), t.txHash);
  }

  /** A withdrawal is a retraction the operator signed about this log, naming
      exactly the receipt asked about. */
  lemma FoundWithdrawal(w: Watch, receipts: seq<SignedReceipt>, s: SignedReceipt)
    ensures var found := WithdrawalIn(w, LastBy(receipts, RetractKey(w)), s);
      && (found.Some? ==>
        && found.value in receipts && Accepted(w, found.value)
        && found.value.receipt.mode.Retract? && found.value.receipt.txHash == w.hash(s))
      && (found.None? <==> forall i :: 0 <= i < |receipts| ==> RetractKey(w)(receipts[i]) != Some(w.hash(s)))
  {
    LastByIsLast(receipts, RetractKey(w), w.hash(s));
    if w.hash(s) in LastBy(receipts, RetractKey(w)) {
      LastByFiles(receipts, RetractKey(w), w.hash(s));
    }
  }

  /** `r` is the last receipt delivered that is filed under `k`. */
  ghost predicate LastFiled<K(!new)>(receipts: seq<SignedReceipt>, key: Key<K>, k: K, r: SignedReceipt) {
    exists i :: IsLast(receipts, key, k, i) && receipts[i] == r
  }

  ghost predicate Filed<K(!new)>(receipts: seq<SignedReceipt>, key: Key<K>, k: K) {
    exists i :: 0 <= i < |receipts| && key(receipts[i]) == Some(k)
  }

  lemma LookupIsLast<K(!new)>(receipts: seq<SignedReceipt>, key: Key<K>, k: K, r: SignedReceipt)
    ensures k in LastBy(receipts, key) <==> Filed(receipts, key, k)
    ensures (k in LastBy(receipts, key) && LastBy(receipts, key)[k] == r) <==> LastFiled(receipts, key, k, r)
  {
    LastByIsLast(receipts, key, k);
    if i :| IsLast(receipts, key, k, i) && receipts[i] == r {
      assert key(receipts[i]) == Some(k);
      var j :| IsLast(receipts, key, k, j) && receipts[j] == LastBy(receipts, key)[k];
    }
  }

  /** Which receipt a transaction is judged by: the last accepted plain receipt
      that names its signature, and failing any, the last accepted ticket that
      names its contents. */
  lemma FindIsExact(w: Watch, receipts: seq<SignedReceipt>, t: ObservedTransaction, r: SignedReceipt)
    ensures IndexOf(w, receipts).Find(t) == Some(r) <==>
      || LastFiled(receipts, PlainKey(w), t.signature, r)
      || (!Filed(receipts, PlainKey(w), t.signature) && LastFiled(receipts, CommitKey(w), t.txHash, r))
  {
    LookupIsLast(receipts, PlainKey(w), t.signature, r);
    LookupIsLast(receipts, CommitKey(w), t.txHash, r);
  }

  /** Which retraction withdraws a receipt: the last accepted one that names it. */
  lemma WithdrawalIsExact(w: Watch, receipts: seq<SignedReceipt>, s: SignedReceipt, r: SignedReceipt)
    ensures IndexOf(w, receipts).Withdrawal(w, s) == Some(r) <==> LastFiled(receipts, RetractKey(w), w.hash(s), r)
  {
    LookupIsLast(receipts, RetractKey(w), w.hash(s), r);
  }
}
