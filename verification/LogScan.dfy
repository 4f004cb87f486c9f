/** Scanning a stretch of receipt log for contradictions the operator signed
    (`equivocation.rs`): sort, attribute, group, link. */
module LogScan {
  import opened Base
  import opened Receipts
  import opened Faults

  type Log = seq<SignedReceipt>

  function SeqNo(s: SignedReceipt): U64 { s.receipt.seqNo }

  // ---- Sorting and filtering ----

  ghost predicate Sorted(s: Log) {
    forall i, j :: 0 <= i < j < |s| ==> SeqNo(s[i]) <= SeqNo(s[j])
  }

  /** Entries at one sequence number, in the order they arrived. */
  function AtSeq(s: Log, n: U64): Log {
    if s == [] then []
    else
      var last := s[|s| - 1];
      AtSeq(s[..|s| - 1], n) + if SeqNo(last) == n then [last] else []
  }

  function Attributable(w: Watch, s: Log): Log {
    if s == [] then []
    else
      var last := s[|s| - 1];
      Attributable(w, s[..|s| - 1]) + if Accepted(w, last) then [last] else []
  }

  function Insert(s: Log, x: SignedReceipt): Log {
    if s == [] || SeqNo(s[|s| - 1]) <= SeqNo(x) then s + [x]
    else Insert(s[..|s| - 1], x) + [s[|s| - 1]]
  }

  /** `sort_by_key` on the sequence number. Being stable is what makes the
      result unique: sorted, with each sequence number's entries left in
      arrival order. */
  function StableSort(s: Log): Log {
    if s == [] then [] else Insert(StableSort(s[..|s| - 1]), s[|s| - 1])
  }

  lemma {:induction false} AtSeqMembers(s: Log, n: U64)
    ensures forall r :: r in AtSeq(s, n) <==> r in s && SeqNo(r) == n
    decreases |s|
  {
    if s != [] {
      AtSeqMembers(s[..|s| - 1], n);
      assert s == s[..|s| - 1] + [s[|s| - 1]];
    }
  }

  lemma {:induction false} AttributableMembers(w: Watch, s: Log)
    ensures forall r :: r in Attributable(w, s) <==> r in s && Accepted(w, r)
    decreases |s|
  {
    if s != [] {
      AttributableMembers(w, s[..|s| - 1]);
      assert s == s[..|s| - 1] + [s[|s| - 1]];
    }
  }

  lemma AtSeqSnoc(s: Log, x: SignedReceipt, n: U64)
    ensures AtSeq(s + [x], n) == AtSeq(s, n) + if SeqNo(x) == n then [x] else []
  {
    assert (s + [x])[..|s|] == s;
  }

  lemma {:induction false} AtSeqAppend(a: Log, b: Log, n: U64)
    ensures AtSeq(a + b, n) == AtSeq(a, n) + AtSeq(b, n)
    decreases |b|
  {
    if b == [] {
      assert a + b == a;
    } else {
      assert (a + b)[..|a + b| - 1] == a + b[..|b| - 1];
      AtSeqAppend(a, b[..|b| - 1], n);
    }
  }

  lemma {:induction false} InsertMembers(s: Log, x: SignedReceipt)
    ensures forall r :: r in Insert(s, x) <==> r in s || r == x
    decreases |s|
  {
    if s != [] && SeqNo(s[|s| - 1]) > SeqNo(x) {
      InsertMembers(s[..|s| - 1], x);
      assert s == s[..|s| - 1] + [s[|s| - 1]];
    }
  }

  lemma {:induction false} InsertSorted(s: Log, x: SignedReceipt)
    requires Sorted(s)
    ensures Sorted(Insert(s, x))
    decreases |s|
  {
    if s != [] && SeqNo(s[|s| - 1]) > SeqNo(x) {
      var k := |s| - 1;
      InsertSorted(s[..k], x);
      InsertMembers(s[..k], x);
      forall r | r in Insert(s[..k], x) ensures SeqNo(r) <= SeqNo(s[k]) {
      }
    }
  }

  lemma {:induction false} InsertStable(s: Log, x: SignedReceipt, n: U64)
    ensures AtSeq(Insert(s, x), n) == AtSeq(s, n) + if SeqNo(x) == n then [x] else []
    decreases |s|
  {
    if s == [] || SeqNo(s[|s| - 1]) <= SeqNo(x) {
      AtSeqSnoc(s, x, n);
    } else {
      var k := |s| - 1;
      InsertStable(s[..k], x, n);
      AtSeqSnoc(Insert(s[..k], x), s[k], n);
    }
  }

  lemma {:induction false} StableSortSpec(s: Log, n: U64)
    ensures Sorted(StableSort(s))
    ensures AtSeq(StableSort(s), n) == AtSeq(s, n)
    decreases |s|
  {
    if s != [] {
      StableSortSpec(s[..|s| - 1], n);
      InsertSorted(StableSort(s[..|s| - 1]), s[|s| - 1]);
      InsertStable(StableSort(s[..|s| - 1]), s[|s| - 1], n);
    }
  }

  lemma {:induction false} StableSortMembers(s: Log)
    ensures forall r :: r in StableSort(s) <==> r in s
    decreases |s|
  {
    if s != [] {
      StableSortMembers(s[..|s| - 1]);
      InsertMembers(StableSort(s[..|s| - 1]), s[|s| - 1]);
      assert s == s[..|s| - 1] + [s[|s| - 1]];
    }
  }

  lemma {:induction false} AttributableSorted(w: Watch, s: Log)
    requires Sorted(s)
    ensures Sorted(Attributable(w, s))
    decreases |s|
  {
    if s != [] {
      var k := |s| - 1;
      AttributableSorted(w, s[..k]);
      AttributableMembers(w, s[..k]);
      forall r | r in s[..k] ensures SeqNo(r) <= SeqNo(s[k]) {
      }
    }
  }

  // ---- The checks ----

  function CheckBelongsHere(w: Watch, s: SignedReceipt): Verdict {
    match w.accepts(s)
    case Ok(_) => Clean
    case Err(ForeignLogEntry) => CannotDetermine(ForeignLog(SeqNo(s)))
    case Err(Unverifiable) => CannotDetermine(UnverifiableReceipt(SeqNo(s)))
  }

  function FindOther(group: Log, first: SignedReceipt): (r: Option<SignedReceipt>)
    ensures r.Some? ==> r.value in group && r.value != first
    ensures r.None? ==> forall x :: x in group ==> x == first
  {
    if group == [] then None
    else if group[0] != first then Some(group[0])
    else
      assert group == [first] + group[1..];
      FindOther(group[1..], first)
  }

  function CheckOneStatementPerSequence(n: U64, group: Log): Verdict
    requires group != []
  {
    match FindOther(group, group[0])
    case Some(other) => Accuse(Equivocation(n, group[0], other))
    case None => Clean
  }

  function CheckOrigin(first: SignedReceipt): Verdict {
    if SeqNo(first) != 0 then CannotDetermine(MissingOrigin(SeqNo(first)))
    else if first.receipt.prevReceiptHash != GENESIS_PREV_HASH then Accuse(BadOrigin(first))
    else Clean
  }

  function CheckLink(w: Watch, predecessor: SignedReceipt, s: SignedReceipt): Verdict {
    if NextSeq(SeqNo(predecessor)) != SeqNo(s) then
      CannotDetermine(SequenceGap(SeqNo(predecessor), SeqNo(s)))
    else if s.receipt.prevReceiptHash != w.hash(predecessor) then
      Accuse(BrokenChain(SeqNo(s), s, predecessor))
    else Clean
  }

  // ---- The scan as a list of verdicts ----

  function BelongVerdicts(w: Watch, s: Log): seq<Verdict> {
    if s == [] then [] else BelongVerdicts(w, s[..|s| - 1]) + [CheckBelongsHere(w, s[|s| - 1])]
  }

  /** One past the last entry of the group that starts at `at`. */
  function GroupEnd(s: Log, n: U64, at: nat): (end: nat)
    requires at <= |s|
    ensures at <= end <= |s|
    ensures forall i :: at <= i < end ==> SeqNo(s[i]) == n
    ensures end < |s| ==> SeqNo(s[end]) != n
    decreases |s| - at
  {
    if at == |s| || SeqNo(s[at]) != n then at else GroupEnd(s, n, at + 1)
  }

  function GroupVerdicts(s: Log, at: nat): seq<Verdict>
    requires at <= |s|
    decreases |s| - at
  {
    if at == |s| then []
    else
      var end := GroupEnd(s, SeqNo(s[at]), at + 1);
      [CheckOneStatementPerSequence(SeqNo(s[at]), s[at..end])] + GroupVerdicts(s, end)
  }

  /** The first-delivered entry of each group. */
  function Heads(s: Log, at: nat): Log
    requires at <= |s|
    decreases |s| - at
  {
    if at == |s| then [] else [s[at]] + Heads(s, GroupEnd(s, SeqNo(s[at]), at + 1))
  }

  function OriginVerdicts(heads: Log): seq<Verdict> {
    if heads == [] then [] else [CheckOrigin(heads[0])]
  }

  function LinkVerdicts(w: Watch, heads: Log): seq<Verdict> {
    if |heads| < 2 then []
    else LinkVerdicts(w, heads[..|heads| - 1]) + [CheckLink(w, heads[|heads| - 2], heads[|heads| - 1])]
  }

  function Verdicts(w: Watch, receipts: Log): seq<Verdict> {
    var ordered := StableSort(receipts);
    var attributable := Attributable(w, ordered);
    var heads := Heads(attributable, 0);
    BelongVerdicts(w, ordered) + GroupVerdicts(attributable, 0) + OriginVerdicts(heads) + LinkVerdicts(w, heads)
  }

  function ScanOf(w: Watch, receipts: Log): Scan { Tally(Verdicts(w, receipts)) }

  method AttributeEntries(w: Watch, ordered: Log) returns (scan: Scan, attributable: Log)
    ensures scan == Tally(BelongVerdicts(w, ordered))
    ensures attributable == Attributable(w, ordered)
  {
    scan, attributable := EMPTY_SCAN, [];
    for i := 0 to |ordered|
      invariant attributable == Attributable(w, ordered[..i])
      invariant scan == Tally(BelongVerdicts(w, ordered[..i]))
    {
      var verdict := CheckBelongsHere(w, ordered[i]);
      assert ordered[..i + 1][..i] == ordered[..i];
      if verdict == Clean {
        attributable := attributable + [ordered[i]];
      }
      TallyAppend(BelongVerdicts(w, ordered[..i]), verdict);
      scan := scan.Record(verdict);
    }
    assert ordered[..|ordered|] == ordered;
  }

  lemma ConsAssociates<T>(a: seq<T>, x: T, b: seq<T>)
    ensures a + ([x] + b) == (a + [x]) + b
  {
  }

  lemma SnocAssociates<T>(a: seq<T>, b: seq<T>, x: T)
    ensures a + (b + [x]) == (a + b) + [x]
  {
  }

  method GroupEntries(before: Scan, ghost verdicts: seq<Verdict>, attributable: Log) returns (scan: Scan, distinct: Log)
    requires before == Tally(verdicts)
    ensures scan == Tally(verdicts + GroupVerdicts(attributable, 0))
    ensures distinct == Heads(attributable, 0)
  {
    scan, distinct := before, [];
    var position := 0;
    ghost var done := verdicts;
    while position < |attributable|
      invariant position <= |attributable|
      invariant distinct + Heads(attributable, position) == Heads(attributable, 0)
      invariant done + GroupVerdicts(attributable, position) == verdicts + GroupVerdicts(attributable, 0)
      invariant scan == Tally(done)
    {
      var n := SeqNo(attributable[position]);
      var end := GroupEnd(attributable, n, position + 1);
      var verdict := CheckOneStatementPerSequence(n, attributable[position..end]);
      TallyAppend(done, verdict);
      ConsAssociates(done, verdict, GroupVerdicts(attributable, end));
      ConsAssociates(distinct, attributable[position], Heads(attributable, end));
      done := done + [verdict];
      scan := scan.Record(verdict);
      distinct := distinct + [attributable[position]];
      position := end;
    }
    assert done + [] == done && distinct + [] == distinct;
  }

  method LinkEntries(w: Watch, before: Scan, ghost verdicts: seq<Verdict>, distinct: Log) returns (scan: Scan)
    requires before == Tally(verdicts)
    ensures scan == Tally(verdicts + OriginVerdicts(distinct) + LinkVerdicts(w, distinct))
  {
    scan := before;
    if distinct == [] {
      assert verdicts + OriginVerdicts(distinct) + LinkVerdicts(w, distinct) == verdicts;
      return;
    }
    TallyAppend(verdicts, CheckOrigin(distinct[0]));
    scan := scan.Record(CheckOrigin(distinct[0]));
    ghost var origin := verdicts + OriginVerdicts(distinct);
    ghost var done := origin;
    for i := 1 to |distinct|
      invariant done == origin + LinkVerdicts(w, distinct[..i])
      invariant scan == Tally(done)
    {
      var verdict := CheckLink(w, distinct[i - 1], distinct[i]);
      TallyAppend(done, verdict);
      LinkVerdictsStep(w, distinct, i);
      SnocAssociates(origin, LinkVerdicts(w, distinct[..i]), verdict);
      done := done + [verdict];
      scan := scan.Record(verdict);
    }
    assert distinct[..|distinct|] == distinct;
  }

  lemma LinkVerdictsStep(w: Watch, heads: Log, i: nat)
    requires 1 <= i < |heads|
    ensures LinkVerdicts(w, heads[..i + 1]) == LinkVerdicts(w, heads[..i]) + [CheckLink(w, heads[i - 1], heads[i])]
  {
    assert heads[..i + 1][..i] == heads[..i];
  }

  method ScanReceipts(w: Watch, receipts: Log) returns (scan: Scan)
    ensures scan == ScanOf(w, receipts)
  {
    var ordered := StableSort(receipts);
    var attributed, attributable := AttributeEntries(w, ordered);
    ghost var belong := BelongVerdicts(w, ordered);
    var grouped, distinct := GroupEntries(attributed, belong, attributable);
    scan := LinkEntries(w, grouped, belong + GroupVerdicts(attributable, 0), distinct);
  }
}
