/** What a receipt-log scan means: when it accuses, when it is clean, and what an
    honest log can never be accused of. */
module LogTheorems {
  import opened Base
  import opened Receipts
  import opened Faults
  import opened LogScan

  // ---- Groups ----

  lemma {:induction false} AtSeqNone(s: Log, a: nat, b: nat, n: U64)
    requires a <= b <= |s| && forall i :: a <= i < b ==> SeqNo(s[i]) != n
    ensures AtSeq(s[a..b], n) == []
    decreases b
  {
    if a < b {
      AtSeqNone(s, a, b - 1, n);
      assert s[a..b] == s[a..b - 1] + [s[b - 1]];
      AtSeqSnoc(s[a..b - 1], s[b - 1], n);
    }
  }

  lemma {:induction false} AtSeqAll(s: Log, a: nat, b: nat, n: U64)
    requires a <= b <= |s| && forall i :: a <= i < b ==> SeqNo(s[i]) == n
    ensures AtSeq(s[a..b], n) == s[a..b]
    decreases b
  {
    if a < b {
      AtSeqAll(s, a, b - 1, n);
      assert s[a..b] == s[a..b - 1] + [s[b - 1]];
      AtSeqSnoc(s[a..b - 1], s[b - 1], n);
    }
  }

  /** A group starts at `at` when nothing before it shares its sequence number. */
  ghost predicate Boundary(s: Log, at: nat) {
    at <= |s| && forall i, j :: 0 <= i < at <= j < |s| ==> SeqNo(s[i]) < SeqNo(s[j])
  }

  lemma GroupEndsAtBoundary(s: Log, at: nat)
    requires Sorted(s) && Boundary(s, at) && at < |s|
    ensures Boundary(s, GroupEnd(s, SeqNo(s[at]), at + 1))
  {
    var n := SeqNo(s[at]);
    var end := GroupEnd(s, n, at + 1);
    forall i, j | 0 <= i < end <= j < |s| ensures SeqNo(s[i]) < SeqNo(s[j]) {
      assert n <= SeqNo(s[end]) <= SeqNo(s[j]);
      assert i < at ==> SeqNo(s[i]) < SeqNo(s[at]);
    }
  }

  lemma AtSeqSplit(s: Log, a: nat, b: nat, n: U64)
    requires a <= b <= |s|
    ensures AtSeq(s, n) == AtSeq(s[0..a], n) + AtSeq(s[a..b], n) + AtSeq(s[b..|s|], n)
  {
    assert s == s[0..a] + s[a..b] + s[b..|s|];
    AtSeqAppend(s[0..a] + s[a..b], s[b..|s|], n);
    AtSeqAppend(s[0..a], s[a..b], n);
  }

  lemma RangeIsAtSeq(s: Log, at: nat, end: nat, n: U64)
    requires at <= end <= |s|
    requires forall i :: 0 <= i < |s| ==> (SeqNo(s[i]) == n <==> at <= i < end)
    ensures s[at..end] == AtSeq(s, n)
  {
    AtSeqNone(s, 0, at, n);
    AtSeqAll(s, at, end, n);
    AtSeqNone(s, end, |s|, n);
    AtSeqSplit(s, at, end, n);
  }

  lemma GroupIsAtSeq(s: Log, at: nat)
    requires Sorted(s) && Boundary(s, at) && at < |s|
    ensures s[at..GroupEnd(s, SeqNo(s[at]), at + 1)] == AtSeq(s, SeqNo(s[at]))
  {
    GroupEndsAtBoundary(s, at);
    RangeIsAtSeq(s, at, GroupEnd(s, SeqNo(s[at]), at + 1), SeqNo(s[at]));
  }

  function VerdictAt(s: Log, n: U64): Verdict {
    var group := AtSeq(s, n);
    if group == [] then Clean else CheckOneStatementPerSequence(n, group)
  }

  lemma GroupVerdictsStep(s: Log, at: nat)
    requires Sorted(s) && Boundary(s, at) && at < |s|
    ensures var end := GroupEnd(s, SeqNo(s[at]), at + 1);
      GroupVerdicts(s, at) == [VerdictAt(s, SeqNo(s[at]))] + GroupVerdicts(s, end)
  {
    GroupIsAtSeq(s, at);
  }

  lemma {:induction false} GroupVerdictsSpec(s: Log, at: nat)
    requires Sorted(s) && Boundary(s, at)
    ensures forall i :: at <= i < |s| ==> VerdictAt(s, SeqNo(s[i])) in GroupVerdicts(s, at)
    ensures forall v :: v in GroupVerdicts(s, at) ==> exists i :: at <= i < |s| && v == VerdictAt(s, SeqNo(s[i]))
    decreases |s| - at
  {
    if at < |s| {
      var n := SeqNo(s[at]);
      var end := GroupEnd(s, n, at + 1);
      GroupEndsAtBoundary(s, at);
      GroupVerdictsStep(s, at);
      GroupVerdictsSpec(s, end);
    }
  }

  /** Every head is an entry, found at or after `at`. */
  lemma {:induction false} HeadsAreEntries(s: Log, at: nat)
    requires at <= |s|
    ensures forall h :: h in Heads(s, at) ==> exists i :: at <= i < |s| && s[i] == h
    decreases |s| - at
  {
    if at < |s| {
      HeadsAreEntries(s, GroupEnd(s, SeqNo(s[at]), at + 1));
    }
  }

  /** Heads climb strictly: one per sequence number. */
  lemma {:induction false} HeadsIncrease(s: Log, at: nat)
    requires Sorted(s) && Boundary(s, at)
    ensures forall j, k :: 0 <= j < k < |Heads(s, at)| ==> SeqNo(Heads(s, at)[j]) < SeqNo(Heads(s, at)[k])
    decreases |s| - at
  {
    if at < |s| {
      var end := GroupEnd(s, SeqNo(s[at]), at + 1);
      GroupEndsAtBoundary(s, at);
      HeadsIncrease(s, end);
      HeadsAreEntries(s, end);
      var rest := Heads(s, end);
      forall h | h in rest ensures SeqNo(s[at]) < SeqNo(h) {
      }
    }
  }

  /** Every entry's sequence number has a head. */
  lemma {:induction false} HeadsCover(s: Log, at: nat, i: nat)
    requires at <= i < |s|
    ensures exists j :: 0 <= j < |Heads(s, at)| && SeqNo(Heads(s, at)[j]) == SeqNo(s[i])
    decreases |s| - at
  {
    var end := GroupEnd(s, SeqNo(s[at]), at + 1);
    var all := Heads(s, at);
    if i < end {
      assert SeqNo(all[0]) == SeqNo(s[i]);
    } else {
      HeadsCover(s, end, i);
      var j :| 0 <= j < |Heads(s, end)| && SeqNo(Heads(s, end)[j]) == SeqNo(s[i]);
      assert all[j + 1] == Heads(s, end)[j];
    }
  }

  lemma {:induction false} LinkVerdictAt(w: Watch, heads: Log, j: nat)
    requires j < |heads| - 1
    ensures |LinkVerdicts(w, heads)| == |heads| - 1
    ensures LinkVerdicts(w, heads)[j] == CheckLink(w, heads[j], heads[j + 1])
    decreases |heads|
  {
    var k := |heads| - 1;
    if k > 1 {
      LinkVerdictAt(w, heads[..k], if j < k - 1 then j else 0);
    }
  }

  lemma LinkVerdictsSpec(w: Watch, heads: Log)
    ensures forall v :: v in LinkVerdicts(w, heads) <==>
      exists j :: 0 <= j < |heads| - 1 && v == CheckLink(w, heads[j], heads[j + 1])
  {
    var links := LinkVerdicts(w, heads);
    if |heads| >= 2 {
      assert |links| == |heads| - 1 by { LinkVerdictAt(w, heads, 0); }
      forall j | 0 <= j < |links| ensures links[j] == CheckLink(w, heads[j], heads[j + 1]) {
        LinkVerdictAt(w, heads, j);
      }
    }
  }

  ghost predicate AllClean(verdicts: seq<Verdict>) { forall v :: v in verdicts ==> v == Clean }

  ghost predicate AllAccepted(w: Watch, s: Log) { forall r :: r in s ==> Accepted(w, r) }

  lemma {:induction false} BelongVerdictsSpec(w: Watch, s: Log)
    ensures forall v :: v in BelongVerdicts(w, s) ==> !v.Accuse?
    ensures AllClean(BelongVerdicts(w, s)) <==> AllAccepted(w, s)
    decreases |s|
  {
    if s != [] {
      var k := |s| - 1;
      var front, last := BelongVerdicts(w, s[..k]), CheckBelongsHere(w, s[k]);
      BelongVerdictsSpec(w, s[..k]);
      assert s == s[..k] + [s[k]];
      assert AllAccepted(w, s) <==> AllAccepted(w, s[..k]) && Accepted(w, s[k]);
      AllCleanSnoc(front, last);
    }
  }

  lemma AllCleanSnoc(front: seq<Verdict>, last: Verdict)
    ensures AllClean(front + [last]) <==> AllClean(front) && last == Clean
  {
    var all := front + [last];
    assert last in all;
    forall v | v in front ensures v in all {
      var i :| 0 <= i < |front| && front[i] == v;
      assert all[i] == v;
    }
  }

  // ---- What the verdicts say ----

  /** The verdict on one sequence number: clean when it carries at most one
      statement, and otherwise an equivocation naming two that differ. */
  lemma VerdictAtMeans(s: Log, n: U64)
    ensures VerdictAt(s, n) == Clean <==> forall a, b :: a in s && b in s && SeqNo(a) == n && SeqNo(b) == n ==> a == b
    ensures VerdictAt(s, n) != Clean ==>
      && VerdictAt(s, n).Accuse? && VerdictAt(s, n).fault.Equivocation?
      && var f := VerdictAt(s, n).fault;
         f.seqNo == n && f.a in s && f.b in s && SeqNo(f.a) == n && SeqNo(f.b) == n && f.a != f.b
  {
    AtSeqMembers(s, n);
    var group := AtSeq(s, n);
    if group != [] {
      assert group[0] in group;
    }
  }

  ghost predicate Increasing(heads: Log) {
    forall j, k :: 0 <= j < k < |heads| ==> SeqNo(heads[j]) < SeqNo(heads[k])
  }

  /** `heads` picks one entry per occupied sequence number, in order. */
  ghost predicate HeadsFit(entries: Log, heads: Log) {
    && (forall h :: h in heads ==> h in entries)
    && Increasing(heads)
    && (forall r :: r in entries ==> exists j :: 0 <= j < |heads| && SeqNo(heads[j]) == SeqNo(r))
  }

  ghost predicate SameMembers(s: Log, t: Log) { forall r :: r in s <==> r in t }

  lemma HeadsOfEntriesFit(entries: Log)
    requires Sorted(entries)
    ensures HeadsFit(entries, Heads(entries, 0))
  {
    HeadsAreEntries(entries, 0);
    HeadsIncrease(entries, 0);
    forall r | r in entries
      ensures exists j :: 0 <= j < |Heads(entries, 0)| && SeqNo(Heads(entries, 0)[j]) == SeqNo(r)
    {
      var i :| 0 <= i < |entries| && entries[i] == r;
      HeadsCover(entries, 0, i);
    }
  }

  lemma EntriesAreAccepted(w: Watch, receipts: Log)
    ensures Sorted(Attributable(w, StableSort(receipts)))
    ensures SameMembers(Attributable(w, StableSort(receipts)), Attributable(w, receipts))
  {
    var ordered := StableSort(receipts);
    StableSortSpec(receipts, 0);
    StableSortMembers(receipts);
    AttributableMembers(w, ordered);
    AttributableMembers(w, receipts);
    AttributableSorted(w, ordered);
  }

  lemma TallyOfFour(a: seq<Verdict>, b: seq<Verdict>, d: seq<Verdict>, e: seq<Verdict>)
    ensures forall f :: f in Tally(a + b + d + e).faults <==>
      Accuse(f) in a || Accuse(f) in b || Accuse(f) in d || Accuse(f) in e
    ensures Tally(a + b + d + e).IsClean() <==> AllClean(a) && AllClean(b) && AllClean(d) && AllClean(e)
  {
    TallyReports(a + b + d + e);
    assert forall v :: v in a + b + d + e <==> v in a || v in b || v in d || v in e;
  }

  ghost predicate Raised(w: Watch, entries: Log, heads: Log, f: Fault) {
    || (exists r :: r in entries && VerdictAt(entries, SeqNo(r)) == Accuse(f))
    || (heads != [] && CheckOrigin(heads[0]) == Accuse(f))
    || (exists j :: 0 <= j < |heads| - 1 && CheckLink(w, heads[j], heads[j + 1]) == Accuse(f))
  }

  ghost predicate Spotless(w: Watch, entries: Log, heads: Log) {
    && (forall r :: r in entries ==> VerdictAt(entries, SeqNo(r)) == Clean)
    && (heads != [] ==> CheckOrigin(heads[0]) == Clean)
    && (forall j :: 0 <= j < |heads| - 1 ==> CheckLink(w, heads[j], heads[j + 1]) == Clean)
  }

  lemma SpotlessVerdicts(w: Watch, entries: Log, heads: Log)
    requires Sorted(entries)
    ensures Spotless(w, entries, heads) <==>
      AllClean(GroupVerdicts(entries, 0)) && AllClean(OriginVerdicts(heads)) && AllClean(LinkVerdicts(w, heads))
  {
    GroupVerdictsMeaning(entries);
    LinkVerdictsSpec(w, heads);
    if AllClean(GroupVerdicts(entries, 0)) {
      forall r | r in entries ensures VerdictAt(entries, SeqNo(r)) == Clean {
        assert VerdictAt(entries, SeqNo(r)) in GroupVerdicts(entries, 0);
      }
    }
    if AllClean(LinkVerdicts(w, heads)) {
      forall j | 0 <= j < |heads| - 1 ensures CheckLink(w, heads[j], heads[j + 1]) == Clean {
        assert CheckLink(w, heads[j], heads[j + 1]) in LinkVerdicts(w, heads);
      }
    }
    if heads != [] {
      assert CheckOrigin(heads[0]) in OriginVerdicts(heads);
    }
  }

  lemma GroupVerdictsMeaning(s: Log)
    requires Sorted(s)
    ensures forall v :: v in GroupVerdicts(s, 0) <==> exists r :: r in s && VerdictAt(s, SeqNo(r)) == v
  {
    GroupVerdictsSpec(s, 0);
    forall v | v in GroupVerdicts(s, 0) ensures exists r :: r in s && VerdictAt(s, SeqNo(r)) == v {
      var i :| 0 <= i < |s| && v == VerdictAt(s, SeqNo(s[i]));
      assert s[i] in s;
    }
  }

  lemma RaisedVerdicts(w: Watch, entries: Log, heads: Log)
    requires Sorted(entries)
    ensures forall f :: Raised(w, entries, heads, f) <==>
      || Accuse(f) in GroupVerdicts(entries, 0)
      || Accuse(f) in OriginVerdicts(heads)
      || Accuse(f) in LinkVerdicts(w, heads)
  {
    GroupVerdictsMeaning(entries);
    LinkVerdictsSpec(w, heads);
  }

  lemma ScanFaults(w: Watch, receipts: Log, entries: Log, heads: Log)
    requires entries == Attributable(w, StableSort(receipts)) && heads == Heads(entries, 0) && Sorted(entries)
    ensures forall f :: f in ScanOf(w, receipts).faults <==> Raised(w, entries, heads, f)
  {
    var belong := BelongVerdicts(w, StableSort(receipts));
    TallyOfFour(belong, GroupVerdicts(entries, 0), OriginVerdicts(heads), LinkVerdicts(w, heads));
    BelongVerdictsSpec(w, StableSort(receipts));
    RaisedVerdicts(w, entries, heads);
  }

  lemma ScanClean(w: Watch, receipts: Log, entries: Log, heads: Log)
    requires entries == Attributable(w, StableSort(receipts)) && heads == Heads(entries, 0) && Sorted(entries)
    ensures ScanOf(w, receipts).IsClean() <==>
      AllAccepted(w, receipts) && Spotless(w, entries, heads)
  {
    var belong := BelongVerdicts(w, StableSort(receipts));
    TallyOfFour(belong, GroupVerdicts(entries, 0), OriginVerdicts(heads), LinkVerdicts(w, heads));
    BelongVerdictsSpec(w, StableSort(receipts));
    StableSortMembers(receipts);
    SpotlessVerdicts(w, entries, heads);
  }

  /** A scan reports exactly what its checks found, and the checks look at the
      accepted entries and at one head per sequence number. */
  lemma ScanMeans(w: Watch, receipts: Log) returns (entries: Log, heads: Log)
    ensures SameMembers(entries, Attributable(w, receipts)) && HeadsFit(entries, heads)
    ensures forall f :: f in ScanOf(w, receipts).faults <==> Raised(w, entries, heads, f)
    ensures ScanOf(w, receipts).IsClean() <==>
      AllAccepted(w, receipts) && Spotless(w, entries, heads)
  {
    entries := Attributable(w, StableSort(receipts));
    heads := Heads(entries, 0);
    EntriesAreAccepted(w, receipts);
    HeadsOfEntriesFit(entries);
    ScanFaults(w, receipts, entries, heads);
    ScanClean(w, receipts, entries, heads);
  }

  // ---- Theorems ----

  /** Two different statements the operator made about one position. */
  ghost predicate Contradicts(s: Log, n: U64, a: SignedReceipt, b: SignedReceipt) {
    a in s && b in s && SeqNo(a) == n && SeqNo(b) == n && a != b
  }

  ghost predicate Accused(scan: Scan, n: U64) {
    exists f :: f in scan.faults && f.Equivocation? && f.seqNo == n
  }

  ghost predicate Contradiction(s: Log, n: U64) { exists a, b :: Contradicts(s, n, a, b) }

  lemma ContradictionMembers(s: Log, t: Log, n: U64)
    requires SameMembers(s, t)
    ensures Contradiction(s, n) ==> Contradiction(t, n)
  {
    if a, b :| Contradicts(s, n, a, b) {
      assert Contradicts(t, n, a, b);
    }
  }

  lemma RaisedIffContradiction(w: Watch, entries: Log, heads: Log, n: U64)
    ensures Contradiction(entries, n) <==>
      exists f: Fault :: f.Equivocation? && f.seqNo == n && Raised(w, entries, heads, f)
  {
    VerdictAtMeans(entries, n);
    if f: Fault :| f.Equivocation? && f.seqNo == n && Raised(w, entries, heads, f) {
      var r :| r in entries && VerdictAt(entries, SeqNo(r)) == Accuse(f);
      VerdictAtMeans(entries, SeqNo(r));
      assert Contradicts(entries, n, f.a, f.b);
    }
    if a, b :| Contradicts(entries, n, a, b) {
      assert Raised(w, entries, heads, VerdictAt(entries, SeqNo(a)).fault);
    }
  }

  /** Equivocation detection is sound and complete: position `n` is accused
      exactly when two distinct accepted receipts sit there. */
  lemma EquivocationExact(w: Watch, receipts: Log, n: U64)
    ensures Accused(ScanOf(w, receipts), n) <==> Contradiction(Attributable(w, receipts), n)
  {
    var entries, heads := ScanMeans(w, receipts);
    RaisedIffContradiction(w, entries, heads, n);
    ContradictionMembers(entries, Attributable(w, receipts), n);
    ContradictionMembers(Attributable(w, receipts), entries, n);
  }

  /** An accusation of equivocation names two different delivered statements of
      the operator about that position. */
  lemma EquivocationNamesDelivered(w: Watch, receipts: Log, f: Fault)
    requires f in ScanOf(w, receipts).faults && f.Equivocation?
    ensures f.a in receipts && f.b in receipts && f.a != f.b && Accepted(w, f.a) && Accepted(w, f.b)
    ensures SeqNo(f.a) == SeqNo(f.b) == f.seqNo
  {
    var entries, heads := ScanMeans(w, receipts);
    RaisedEquivocation(w, entries, heads, f);
    AttributableMembers(w, receipts);
  }

  lemma RaisedEquivocation(w: Watch, entries: Log, heads: Log, f: Fault)
    requires Raised(w, entries, heads, f) && f.Equivocation?
    ensures f.a in entries && f.b in entries && f.a != f.b && SeqNo(f.a) == SeqNo(f.b) == f.seqNo
  {
    assert heads != [] ==> CheckOrigin(heads[0]) != Accuse(f);
    var r :| r in entries && VerdictAt(entries, SeqNo(r)) == Accuse(f);
    VerdictAtMeans(entries, SeqNo(r));
  }

  /** Permuting or duplicating the delivery changes no accusation of
      equivocation. */
  lemma DeliveryInsensitive(w: Watch, receipts: Log, again: Log, n: U64)
    requires SameMembers(receipts, again)
    ensures Accused(ScanOf(w, receipts), n) <==> Accused(ScanOf(w, again), n)
  {
    var s, t := Attributable(w, receipts), Attributable(w, again);
    EquivocationExact(w, receipts, n);
    EquivocationExact(w, again, n);
    assert SameMembers(s, t) by {
      AttributableMembers(w, receipts);
      AttributableMembers(w, again);
    }
    ContradictionMembers(s, t, n);
    ContradictionMembers(t, s, n);
  }

  ghost predicate Unique(s: Log) {
    forall a, b :: a in s && b in s && SeqNo(a) == SeqNo(b) ==> a == b
  }

  ghost predicate Linked(w: Watch, s: Log) {
    forall a, b :: a in s && b in s && SeqNo(a) + 1 == SeqNo(b) ==> b.receipt.prevReceiptHash == w.hash(a)
  }

  ghost predicate Rooted(s: Log) {
    forall a :: a in s && SeqNo(a) == 0 ==> a.receipt.prevReceiptHash == GENESIS_PREV_HASH
  }

  /** Nothing in `s` contradicts one hash chain from genesis. */
  ghost predicate Coherent(w: Watch, s: Log) { Unique(s) && Linked(w, s) && Rooted(s) }

  lemma UniqueIffClean(entries: Log)
    ensures Unique(entries) <==> forall r :: r in entries ==> VerdictAt(entries, SeqNo(r)) == Clean
  {
    forall r | r in entries
      ensures VerdictAt(entries, SeqNo(r)) == Clean <==>
        forall a, b :: a in entries && b in entries && SeqNo(a) == SeqNo(r) && SeqNo(b) == SeqNo(r) ==> a == b
    {
      VerdictAtMeans(entries, SeqNo(r));
    }
  }

  lemma HeadOrder(heads: Log, j: nat, k: nat)
    requires Increasing(heads) && j < |heads| && k < |heads|
    ensures SeqNo(heads[j]) < SeqNo(heads[k]) <==> j < k
  {
  }

  /** Where no two entries share a position, every entry is its own head. */
  lemma HeadOf(entries: Log, heads: Log, a: SignedReceipt) returns (j: nat)
    requires HeadsFit(entries, heads) && Unique(entries) && a in entries
    ensures j < |heads| && heads[j] == a
    ensures SeqNo(a) == 0 ==> j == 0
  {
    j :| 0 <= j < |heads| && SeqNo(heads[j]) == SeqNo(a);
    assert heads[j] in heads;
    HeadOrder(heads, 0, j);
  }

  lemma RootedIffOrigin(entries: Log, heads: Log)
    requires HeadsFit(entries, heads) && Unique(entries)
    ensures Rooted(entries) <==> heads == [] || !CheckOrigin(heads[0]).Accuse?
  {
    if a :| a in entries && SeqNo(a) == 0 && a.receipt.prevReceiptHash != GENESIS_PREV_HASH {
      var _ := HeadOf(entries, heads, a);
    }
    if heads != [] {
      assert heads[0] in heads;
    }
  }

  lemma NeighboursAreAdjacent(entries: Log, heads: Log, a: SignedReceipt, b: SignedReceipt) returns (j: nat)
    requires HeadsFit(entries, heads) && Unique(entries)
    requires a in entries && b in entries && SeqNo(a) + 1 == SeqNo(b)
    ensures j < |heads| - 1 && heads[j] == a && heads[j + 1] == b
  {
    j := HeadOf(entries, heads, a);
    var k := HeadOf(entries, heads, b);
    HeadOrder(heads, j, k);
    HeadOrder(heads, j, j + 1);
    HeadOrder(heads, j + 1, k);
  }

  lemma LinkedMeansLink(w: Watch, entries: Log, a: SignedReceipt, b: SignedReceipt)
    requires Linked(w, entries) && a in entries && b in entries && SeqNo(a) < SeqNo(b)
    ensures !CheckLink(w, a, b).Accuse?
  {
  }

  lemma BrokenLinkAccused(w: Watch, a: SignedReceipt, b: SignedReceipt)
    requires SeqNo(a) + 1 == SeqNo(b) && b.receipt.prevReceiptHash != w.hash(a)
    ensures CheckLink(w, a, b).Accuse?
  {
  }

  lemma LinkedIffLinks(w: Watch, entries: Log, heads: Log)
    requires HeadsFit(entries, heads) && Unique(entries)
    ensures Linked(w, entries) <==> forall j :: 0 <= j < |heads| - 1 ==> !CheckLink(w, heads[j], heads[j + 1]).Accuse?
  {
    if Linked(w, entries) {
      forall j | 0 <= j < |heads| - 1 ensures !CheckLink(w, heads[j], heads[j + 1]).Accuse? {
        assert heads[j] in heads && heads[j + 1] in heads;
        HeadOrder(heads, j, j + 1);
        LinkedMeansLink(w, entries, heads[j], heads[j + 1]);
      }
    } else {
      var a, b :| a in entries && b in entries && SeqNo(a) + 1 == SeqNo(b) && b.receipt.prevReceiptHash != w.hash(a);
      BrokenLinkAccused(w, a, b);
      var j := NeighboursAreAdjacent(entries, heads, a, b);
    }
  }

  lemma CoherentRaisesNothing(w: Watch, entries: Log, heads: Log, f: Fault)
    requires HeadsFit(entries, heads) && Coherent(w, entries)
    ensures !Raised(w, entries, heads, f)
  {
    UniqueIffClean(entries);
    RootedIffOrigin(entries, heads);
    LinkedIffLinks(w, entries, heads);
  }

  lemma DuplicateRaises(w: Watch, entries: Log, heads: Log) returns (f: Fault)
    requires !Unique(entries)
    ensures Raised(w, entries, heads, f)
  {
    UniqueIffClean(entries);
    var r :| r in entries && VerdictAt(entries, SeqNo(r)) != Clean;
    VerdictAtMeans(entries, SeqNo(r));
    f := VerdictAt(entries, SeqNo(r)).fault;
  }

  lemma IncoherentRaises(w: Watch, entries: Log, heads: Log) returns (f: Fault)
    requires HeadsFit(entries, heads) && !Coherent(w, entries)
    ensures Raised(w, entries, heads, f)
  {
    if !Unique(entries) {
      f := DuplicateRaises(w, entries, heads);
    } else if !Rooted(entries) {
      RootedIffOrigin(entries, heads);
      f := CheckOrigin(heads[0]).fault;
    } else {
      LinkedIffLinks(w, entries, heads);
      var j :| 0 <= j < |heads| - 1 && CheckLink(w, heads[j], heads[j + 1]).Accuse?;
      f := CheckLink(w, heads[j], heads[j + 1]).fault;
    }
  }

  /** A scan accuses exactly when the operator's own statements cannot belong
      to one hash chain. */
  lemma FaultFreeIffCoherent(w: Watch, receipts: Log)
    ensures ScanOf(w, receipts).faults == [] <==> Coherent(w, Attributable(w, receipts))
  {
    var entries, heads := ScanMeans(w, receipts);
    var faults, accepted := ScanOf(w, receipts).faults, Attributable(w, receipts);
    CoherentMembers(w, entries, accepted);
    if !Coherent(w, entries) {
      var f := IncoherentRaises(w, entries, heads);
      assert f in faults;
    } else {
      if faults != [] {
        var f := faults[0];
        assert f in faults;
        CoherentRaisesNothing(w, entries, heads, f);
      }
    }
  }

  lemma CoherentMembers(w: Watch, s: Log, t: Log)
    requires SameMembers(s, t)
    ensures Coherent(w, s) <==> Coherent(w, t)
  {
  }

  // ---- Chains ----

  /** One hash chain 0..n from genesis. */
  ghost predicate IsChain(w: Watch, chain: Log) {
    && (forall i :: 0 <= i < |chain| ==> SeqNo(chain[i]) == i)
    && (|chain| > 0 ==> chain[0].receipt.prevReceiptHash == GENESIS_PREV_HASH)
    && (forall i :: 0 < i < |chain| ==> chain[i].receipt.prevReceiptHash == w.hash(chain[i - 1]))
  }

  lemma ChainIsCoherent(w: Watch, chain: Log, s: Log)
    requires IsChain(w, chain) && forall r :: r in s ==> r in chain
    ensures Coherent(w, s)
  {
    forall r | r in s ensures SeqNo(r) < |chain| && r == chain[SeqNo(r)] {
    }
  }

  /** An honest log is never accused. However its receipts are delivered -
      some missing, some repeated, in any order, mixed with entries that are
      not accepted - the scan finds no fault. */
  lemma HonestLogNeverAccused(w: Watch, honest: Log, receipts: Log)
    requires IsChain(w, honest)
    requires forall r :: r in receipts && Accepted(w, r) ==> r in honest
    ensures ScanOf(w, receipts).faults == []
  {
    AttributableMembers(w, receipts);
    ChainIsCoherent(w, honest, Attributable(w, receipts));
    FaultFreeIffCoherent(w, receipts);
  }

  /** Nor can a contradiction be assembled by hand from its receipts - but for
      one pair: in a log that has used up every sequence number, the first
      receipt passes for the successor of the last. */
  lemma HonestLogFramedIff(c: Crypto, key: Bytes32, honest: Log, n: U64, a: SignedReceipt, b: SignedReceipt,
          op: Operator)
    requires IsChain(WatchOf(c, op), honest) && a in honest && b in honest
    ensures Verify(c, key, Equivocation(n, a, b)).Err?
    ensures Verify(c, key, BrokenChain(n, a, b)).Ok? <==>
      && n == SeqNo(a) == 0 && SeqNo(b) == U64_LIMIT - 1
      && Signed(c, key, a).Ok? && Signed(c, key, b).Ok? && a.receipt.logId == b.receipt.logId
      && ReceiptHash(c, b) != GENESIS_PREV_HASH
  {
    ChainPair(WatchOf(c, op), honest, a, b);
  }

  // ---- A log with no sequence number left ----

  function FullLogCrypto(): Crypto { Crypto((_, _, _) => true, _ => Filled(32, 1), _ => ZERO32) }

  function FullLogEntry(i: U64): SignedReceipt {
    SignedReceipt(
      Receipt(ZERO32, Plain, i, Filled(64, 1), ZERO32, ZERO32, if i == 0 then ZERO32 else Filled(32, 1), ZERO32, 0, 0),
      ZERO64)
  }

  function FullLog(): (log: Log)
    ensures |log| == U64_LIMIT && forall i :: 0 <= i < U64_LIMIT ==> log[i] == FullLogEntry(i)
  {
    seq(U64_LIMIT, i requires 0 <= i < U64_LIMIT => FullLogEntry(i))
  }

  lemma FullLogExample(op: Operator)
    ensures IsChain(WatchOf(FullLogCrypto(), op), FullLog())
    ensures Verify(FullLogCrypto(), op.key, BrokenChain(0, FullLog()[0], FullLog()[U64_LIMIT - 1])) == Ok(())
  {
    var log, w := FullLog(), WatchOf(FullLogCrypto(), op);
    forall i | 0 < i < |log| ensures log[i].receipt.prevReceiptHash == w.hash(log[i - 1]) {
    }
    assert Filled(32, 1)[0] != ZERO32[0] && Filled(64, 1)[0] != ZERO64[0];
    assert log[0] == FullLogEntry(0) && log[U64_LIMIT - 1] == FullLogEntry(U64_LIMIT - 1);
  }

  lemma ChainPair(w: Watch, chain: Log, a: SignedReceipt, b: SignedReceipt)
    requires IsChain(w, chain) && a in chain && b in chain
    ensures SeqNo(a) == SeqNo(b) ==> a == b
    ensures SeqNo(b) + 1 == SeqNo(a) ==> a.receipt.prevReceiptHash == w.hash(b)
    ensures SeqNo(a) < |chain| && (SeqNo(a) == 0 ==> a.receipt.prevReceiptHash == GENESIS_PREV_HASH)
  {
    ChainIsCoherent(w, chain, chain);
  }

  lemma {:induction false} SpotlessHeadsChain(w: Watch, entries: Log, heads: Log, j: nat)
    requires HeadsFit(entries, heads) && Spotless(w, entries, heads) && j < |heads|
    ensures SeqNo(heads[j]) == j
  {
    if j > 0 {
      SpotlessHeadsChain(w, entries, heads, j - 1);
      assert CheckLink(w, heads[j - 1], heads[j]) == Clean;
    }
  }

  lemma SpotlessIsChain(w: Watch, entries: Log, heads: Log)
    requires HeadsFit(entries, heads) && Spotless(w, entries, heads)
    ensures IsChain(w, heads) && SameMembers(heads, entries)
  {
    forall j | 0 <= j < |heads| ensures SeqNo(heads[j]) == j {
      SpotlessHeadsChain(w, entries, heads, j);
    }
    forall j | 0 < j < |heads| ensures heads[j].receipt.prevReceiptHash == w.hash(heads[j - 1]) {
      assert CheckLink(w, heads[j - 1], heads[j - 1 + 1]) == Clean;
    }
    UniqueIffClean(entries);
    forall r | r in entries ensures r in heads {
      var j := HeadOf(entries, heads, r);
    }
  }

  lemma ChainIsSpotless(w: Watch, entries: Log, heads: Log, chain: Log)
    requires HeadsFit(entries, heads) && IsChain(w, chain) && SameMembers(entries, chain)
    ensures Spotless(w, entries, heads)
  {
    ChainIsCoherent(w, chain, entries);
    UniqueIffClean(entries);
    RootedIffOrigin(entries, heads);
    LinkedIffLinks(w, entries, heads);
    if heads != [] {
      assert heads[0] in heads;
      assert chain[0] in chain;
      var _ := HeadOf(entries, heads, chain[0]);
    }
    forall j | 0 <= j < |heads| - 1 ensures SeqNo(heads[j]) + 1 == SeqNo(heads[j + 1]) {
      HeadsAreConsecutive(w, entries, heads, chain, j);
    }
  }

  lemma HeadsAreConsecutive(w: Watch, entries: Log, heads: Log, chain: Log, j: nat)
    requires HeadsFit(entries, heads) && IsChain(w, chain) && SameMembers(entries, chain) && j < |heads| - 1
    requires Unique(entries)
    ensures SeqNo(heads[j]) + 1 == SeqNo(heads[j + 1])
  {
    assert heads[j] in heads && heads[j + 1] in heads;
    var x, y := SeqNo(heads[j]), SeqNo(heads[j + 1]);
    assert x < y < |chain|;
    assert chain[x + 1] in chain;
    var k := HeadOf(entries, heads, chain[x + 1]);
    HeadOrder(heads, j, k);
    HeadOrder(heads, j + 1, k);
  }

  ghost predicate ChainOf(w: Watch, receipts: Log, chain: Log) { IsChain(w, chain) && SameMembers(receipts, chain) }

  /** A clean scan is exactly a complete, accepted, unbroken log: every entry is
      accepted, and the distinct entries form one chain from genesis. */
  lemma CleanIffChain(w: Watch, receipts: Log)
    ensures ScanOf(w, receipts).IsClean() <==>
      AllAccepted(w, receipts) && exists chain :: ChainOf(w, receipts, chain)
  {
    var entries, heads := ScanMeans(w, receipts);
    if AllAccepted(w, receipts) {
      AttributableMembers(w, receipts);
      assert SameMembers(entries, receipts);
      if Spotless(w, entries, heads) {
        SpotlessIsChain(w, entries, heads);
        assert ChainOf(w, receipts, heads);
      }
      if chain :| ChainOf(w, receipts, chain) {
        ChainIsSpotless(w, entries, heads, chain);
      }
    }
  }

  lemma {:induction false} ChainsAgreeBackwards(w: Watch, a: Log, b: Log, n: nat)
    requires IsChain(w, a) && IsChain(w, b) && n < |a| && n < |b| && a[n] == b[n]
    requires forall i :: 0 <= i < n ==> w.hash(a[i]) == w.hash(b[i]) ==> a[i] == b[i]
    ensures a[..n + 1] == b[..n + 1]
  {
    if n > 0 {
      assert a[n].receipt.prevReceiptHash == w.hash(a[n - 1]);
      assert b[n].receipt.prevReceiptHash == w.hash(b[n - 1]);
      ChainsAgreeBackwards(w, a, b, n - 1);
    }
  }

  /** Tamper evidence: two clean logs with the same newest receipt hold the same
      receipts, unless two different receipts, one from each, share a hash. */
  lemma SameTipSameLog(w: Watch, first: Log, second: Log, tip: SignedReceipt)
    requires ScanOf(w, first).IsClean() && ScanOf(w, second).IsClean()
    requires tip in first && tip in second
    requires forall r :: r in first || r in second ==> SeqNo(r) <= SeqNo(tip)
    ensures SameMembers(first, second) ||
      exists x, y :: x in first && y in second && x != y && w.hash(x) == w.hash(y)
  {
    CleanIffChain(w, first);
    CleanIffChain(w, second);
    var a :| ChainOf(w, first, a);
    var b :| ChainOf(w, second, b);
    ChainEndsAtTip(w, first, a, tip);
    ChainEndsAtTip(w, second, b, tip);
    if a != b {
      var i := ChainsWithSameTip(w, a, b);
      assert a[i] in a && b[i] in b;
      assert a[i] in first && b[i] in second;
    }
  }

  lemma ChainsWithSameTip(w: Watch, a: Log, b: Log) returns (i: nat)
    requires IsChain(w, a) && IsChain(w, b) && |a| == |b| > 0 && a[|a| - 1] == b[|a| - 1] && a != b
    ensures i < |a| && a[i] != b[i] && w.hash(a[i]) == w.hash(b[i])
  {
    if forall k :: 0 <= k < |a| ==> w.hash(a[k]) == w.hash(b[k]) ==> a[k] == b[k] {
      ChainsAgreeBackwards(w, a, b, |a| - 1);
    }
    i :| 0 <= i < |a| && w.hash(a[i]) == w.hash(b[i]) && a[i] != b[i];
  }

  /** With real receipts the exception is a SHA-256 collision on two different
      325-byte strings. */
  lemma SameTipOrCollision(c: Crypto, op: Operator, first: Log, second: Log, tip: SignedReceipt)
    requires ScanOf(WatchOf(c, op), first).IsClean() && ScanOf(WatchOf(c, op), second).IsClean()
    requires tip in first && tip in second
    requires forall r :: r in first || r in second ==> SeqNo(r) <= SeqNo(tip)
    ensures SameMembers(first, second) ||
      exists p, q :: |p| == |q| == SIGNED_RECEIPT_LEN && p != q && c.sha256(p) == c.sha256(q)
  {
    var w := WatchOf(c, op);
    SameTipSameLog(w, first, second, tip);
    if !SameMembers(first, second) {
      var x, y :| x in first && y in second && x != y && w.hash(x) == w.hash(y);
      DistinctReceiptsCollide(c, x, y);
    }
  }

  lemma DistinctReceiptsCollide(c: Crypto, x: SignedReceipt, y: SignedReceipt)
    requires x != y && ReceiptHash(c, x) == ReceiptHash(c, y)
    ensures exists p, q :: |p| == |q| == SIGNED_RECEIPT_LEN && p != q && c.sha256(p) == c.sha256(q)
  {
    if EncodeSigned(x) == EncodeSigned(y) {
      EncodeSignedInjective(x, y);
    }
  }

  lemma ChainEndsAtTip(w: Watch, s: Log, chain: Log, tip: SignedReceipt)
    requires ChainOf(w, s, chain) && tip in s && forall r :: r in s ==> SeqNo(r) <= SeqNo(tip)
    ensures |chain| == SeqNo(tip) + 1 && chain[SeqNo(tip)] == tip
  {
    var last := chain[|chain| - 1];
    assert last in chain;
  }

  /** Everything a scan reports, a third party holding only the key confirms. */
  lemma EveryFaultVerifies(c: Crypto, op: Operator, receipts: Log, f: Fault)
    requires f in ScanOf(WatchOf(c, op), receipts).faults
    ensures Verify(c, op.key, f) == Ok(())
  {
    var w := WatchOf(c, op);
    var entries, heads := ScanMeans(w, receipts);
    AttributableMembers(w, receipts);
    RaisedVerifies(c, op, entries, heads, f);
  }

  lemma EquivocationVerifies(c: Crypto, op: Operator, a: SignedReceipt, b: SignedReceipt)
    requires Accepts(c, op, a).Ok? && Accepts(c, op, b).Ok? && SeqNo(a) == SeqNo(b) && a != b
    ensures Verify(c, op.key, Equivocation(SeqNo(a), a, b)) == Ok(())
  {
  }

  lemma BrokenChainVerifies(c: Crypto, op: Operator, p: SignedReceipt, r: SignedReceipt)
    requires Accepts(c, op, p).Ok? && Accepts(c, op, r).Ok? && CheckLink(WatchOf(c, op), p, r).Accuse?
    ensures Verify(c, op.key, CheckLink(WatchOf(c, op), p, r).fault) == Ok(())
  {
  }

  lemma BadOriginVerifies(c: Crypto, op: Operator, r: SignedReceipt)
    requires Accepts(c, op, r).Ok? && CheckOrigin(r).Accuse?
    ensures Verify(c, op.key, CheckOrigin(r).fault) == Ok(())
  {
  }

  lemma RaisedVerifies(c: Crypto, op: Operator, entries: Log, heads: Log, f: Fault)
    requires HeadsFit(entries, heads) && Raised(WatchOf(c, op), entries, heads, f)
    requires forall r :: r in entries ==> Accepts(c, op, r).Ok?
    ensures Verify(c, op.key, f) == Ok(())
  {
    if r :| r in entries && VerdictAt(entries, SeqNo(r)) == Accuse(f) {
      VerdictAtMeans(entries, SeqNo(r));
      EquivocationVerifies(c, op, f.a, f.b);
    } else if heads != [] && CheckOrigin(heads[0]) == Accuse(f) {
      assert heads[0] in heads;
      BadOriginVerifies(c, op, heads[0]);
    } else {
      var j :| 0 <= j < |heads| - 1 && CheckLink(WatchOf(c, op), heads[j], heads[j + 1]) == Accuse(f);
      assert heads[j] in heads && heads[j + 1] in heads;
      BrokenChainVerifies(c, op, heads[j], heads[j + 1]);
    }
  }
}
