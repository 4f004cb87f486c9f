/** Everything a receipt-log scan reports, in terms of what was delivered first:
    each fault and each doubt, and exactly which logs give the same faults
    however they arrive. */
module Delivery {
  import opened Base
  import opened Receipts
  import opened Faults
  import opened LogScan
  import opened LogTheorems

  /** `r` is the first statement delivered about its position. */
  predicate First(s: Log, r: SignedReceipt) {
    var group := AtSeq(s, SeqNo(r));
    group != [] && group[0] == r
  }

  // ---- Sorting and filtering keep what came first ----

  lemma {:induction false} AtSeqAttributable(w: Watch, s: Log, n: U64)
    ensures AtSeq(Attributable(w, s), n) == Attributable(w, AtSeq(s, n))
    decreases |s|
  {
    if s != [] {
      var front, last := s[..|s| - 1], s[|s| - 1];
      AtSeqAttributable(w, front, n);
      var kept, group := Attributable(w, front), AtSeq(front, n);
      assert kept + [] == kept && group + [] == group;
      AtSeqSnoc(kept, last, n);
      AttributableSnoc(w, group, last);
      assert Attributable(w, group) + [] == Attributable(w, group);
    }
  }

  lemma AttributableSnoc(w: Watch, s: Log, x: SignedReceipt)
    ensures Attributable(w, s + [x]) == Attributable(w, s) + if Accepted(w, x) then [x] else []
  {
    assert (s + [x])[..|s|] == s;
  }

  lemma GroupsAsDelivered(w: Watch, receipts: Log, n: U64)
    ensures AtSeq(Attributable(w, StableSort(receipts)), n) == AtSeq(Attributable(w, receipts), n)
  {
    AtSeqAttributable(w, StableSort(receipts), n);
    AtSeqAttributable(w, receipts, n);
    StableSortSpec(receipts, n);
  }

  lemma {:induction false} HeadsAreFirst(s: Log, at: nat)
    requires Sorted(s) && Boundary(s, at)
    ensures forall h :: h in Heads(s, at) ==> First(s, h)
    decreases |s| - at
  {
    if at < |s| {
      GroupIsAtSeq(s, at);
      GroupEndsAtBoundary(s, at);
      HeadsAreFirst(s, GroupEnd(s, SeqNo(s[at]), at + 1));
    }
  }

  lemma HeadIffFirst(s: Log, heads: Log, r: SignedReceipt)
    requires Sorted(s) && heads == Heads(s, 0)
    ensures r in heads <==> First(s, r)
  {
    HeadsAreFirst(s, 0);
    HeadsOfEntriesFit(s);
    AtSeqMembers(s, SeqNo(r));
    if First(s, r) {
      assert AtSeq(s, SeqNo(r))[0] in AtSeq(s, SeqNo(r));
      var j :| 0 <= j < |heads| && SeqNo(heads[j]) == SeqNo(r);
      assert heads[j] in heads;
    }
  }

  /** A scan is about the accepted entries in order, and about the first one
      delivered at each position. */
  lemma ScanInFirsts(w: Watch, receipts: Log) returns (entries: Log, heads: Log)
    ensures forall f :: f in ScanOf(w, receipts).faults <==> Raised(w, entries, heads, f)
    ensures forall n: U64 :: AtSeq(entries, n) == AtSeq(Attributable(w, receipts), n)
    ensures forall r :: r in heads <==> First(Attributable(w, receipts), r)
    ensures SameMembers(entries, Attributable(w, receipts)) && Increasing(heads)
  {
    entries := Attributable(w, StableSort(receipts));
    heads := Heads(entries, 0);
    EntriesAreAccepted(w, receipts);
    HeadsOfEntriesFit(entries);
    ScanFaults(w, receipts, entries, heads);
    forall n: U64 ensures AtSeq(entries, n) == AtSeq(Attributable(w, receipts), n) {
      GroupsAsDelivered(w, receipts, n);
    }
    forall r ensures r in heads <==> First(Attributable(w, receipts), r) {
      HeadIffFirst(entries, heads, r);
    }
  }

  // ---- Every fault, exactly ----

  /** `other` stands at `j`, and only `first` before it. */
  predicate FirstOther(group: Log, first: SignedReceipt, other: SignedReceipt, j: int) {
    0 <= j < |group| && group[j] == other != first && forall i :: 0 <= i < j ==> group[i] == first
  }

  lemma {:induction false} FindsFirstOther(group: Log, first: SignedReceipt, other: SignedReceipt)
    ensures FindOther(group, first) == Some(other) <==> exists j :: FirstOther(group, first, other, j)
    decreases |group|
  {
    if group != [] {
      var rest := group[1..];
      FindsFirstOther(rest, first, other);
      if group[0] != first {
        assert group[0] == other ==> FirstOther(group, first, other, 0);
        assert forall j :: FirstOther(group, first, other, j) ==> j == 0;
      } else {
        if j :| FirstOther(rest, first, other, j) {
          assert forall i :: 0 < i < j + 1 ==> group[i] == rest[i - 1];
          assert FirstOther(group, first, other, j + 1);
        }
        if j :| FirstOther(group, first, other, j) {
          assert FirstOther(rest, first, other, j - 1);
        }
      }
    }
  }

  ghost predicate Splits(s: Log, f: Fault)
    requires f.Equivocation?
  {
    First(s, f.a) && f.seqNo == SeqNo(f.a) && exists j :: FirstOther(AtSeq(s, f.seqNo), f.a, f.b, j)
  }

  ghost predicate Breaks(w: Watch, s: Log, f: Fault)
    requires f.BrokenChain?
  {
    && First(s, f.predecessor) && First(s, f.receipt)
    && SeqNo(f.predecessor) + 1 == SeqNo(f.receipt) == f.seqNo
    && f.receipt.receipt.prevReceiptHash != w.hash(f.predecessor)
  }

  ghost predicate Misroots(s: Log, f: Fault)
    requires f.BadOrigin?
  {
    First(s, f.receipt) && SeqNo(f.receipt) == 0 && f.receipt.receipt.prevReceiptHash != GENESIS_PREV_HASH
  }

  /** The faults a delivery gives, told from the accepted entries alone. */
  ghost predicate Expected(w: Watch, s: Log, f: Fault) {
    || (f.Equivocation? && Splits(s, f))
    || (f.BrokenChain? && Breaks(w, s, f))
    || (f.BadOrigin? && Misroots(s, f))
  }

  lemma OnlyGroupsSplit(w: Watch, entries: Log, heads: Log, f: Fault) returns (r: SignedReceipt)
    requires f.Equivocation? && Raised(w, entries, heads, f)
    ensures r in entries && VerdictAt(entries, SeqNo(r)) == Accuse(f)
  {
    assert heads != [] ==> CheckOrigin(heads[0]) != Accuse(f);
    r :| r in entries && VerdictAt(entries, SeqNo(r)) == Accuse(f);
  }

  lemma VerdictSplits(s: Log, n: U64, f: Fault)
    requires VerdictAt(s, n) == Accuse(f)
    ensures f.Equivocation? && Splits(s, f)
  {
    VerdictAtMeans(s, n);
    FindsFirstOther(AtSeq(s, n), f.a, f.b);
  }

  lemma RaisedSplits(w: Watch, entries: Log, heads: Log, s: Log, f: Fault)
    requires forall n: U64 :: AtSeq(entries, n) == AtSeq(s, n)
    requires f.Equivocation? && Raised(w, entries, heads, f)
    ensures Splits(s, f)
  {
    var r := OnlyGroupsSplit(w, entries, heads, f);
    assert VerdictAt(entries, SeqNo(r)) == VerdictAt(s, SeqNo(r));
    VerdictSplits(s, SeqNo(r), f);
  }

  lemma SplitIsRaised(w: Watch, entries: Log, heads: Log, s: Log, f: Fault)
    requires forall n: U64 :: AtSeq(entries, n) == AtSeq(s, n)
    requires SameMembers(entries, s) && f.Equivocation? && Splits(s, f)
    ensures Raised(w, entries, heads, f)
  {
    AtSeqMembers(s, f.seqNo);
    assert AtSeq(s, f.seqNo)[0] in AtSeq(s, f.seqNo);
    assert AtSeq(entries, f.seqNo) == AtSeq(s, f.seqNo);
    FindsFirstOther(AtSeq(s, f.seqNo), f.a, f.b);
    assert f.a in entries && VerdictAt(entries, SeqNo(f.a)) == Accuse(f);
  }

  lemma NoOtherVerdict(entries: Log, f: Fault)
    requires !f.Equivocation?
    ensures forall r :: r in entries ==> VerdictAt(entries, SeqNo(r)) != Accuse(f)
  {
    forall r | r in entries ensures VerdictAt(entries, SeqNo(r)) != Accuse(f) {
      VerdictAtMeans(entries, SeqNo(r));
    }
  }

  /** Heads one apart are neighbours. */
  lemma NextHead(heads: Log, p: SignedReceipt, r: SignedReceipt) returns (j: nat)
    requires Increasing(heads) && p in heads && r in heads && SeqNo(p) + 1 == SeqNo(r)
    ensures j < |heads| - 1 && heads[j] == p && heads[j + 1] == r
  {
    j :| 0 <= j < |heads| && heads[j] == p;
    var k :| 0 <= k < |heads| && heads[k] == r;
    HeadOrder(heads, j, k);
    HeadOrder(heads, j, j + 1);
    HeadOrder(heads, j + 1, k);
  }

  lemma OnlyLinksBreak(w: Watch, entries: Log, heads: Log, f: Fault) returns (j: nat)
    requires f.BrokenChain? && Raised(w, entries, heads, f)
    ensures j < |heads| - 1 && CheckLink(w, heads[j], heads[j + 1]) == Accuse(f)
  {
    NoOtherVerdict(entries, f);
    assert heads != [] ==> CheckOrigin(heads[0]) != Accuse(f);
    j :| 0 <= j < |heads| - 1 && CheckLink(w, heads[j], heads[j + 1]) == Accuse(f);
  }

  lemma RaisedBreaks(w: Watch, entries: Log, heads: Log, s: Log, f: Fault)
    requires forall r :: r in heads <==> First(s, r)
    requires Increasing(heads) && f.BrokenChain? && Raised(w, entries, heads, f)
    ensures Breaks(w, s, f)
  {
    var j := OnlyLinksBreak(w, entries, heads, f);
    assert heads[j] in heads && heads[j + 1] in heads;
    HeadOrder(heads, j, j + 1);
  }

  lemma BreakIsRaised(w: Watch, entries: Log, heads: Log, s: Log, f: Fault)
    requires forall r :: r in heads <==> First(s, r)
    requires Increasing(heads) && f.BrokenChain? && Breaks(w, s, f)
    ensures Raised(w, entries, heads, f)
  {
    var j := NextHead(heads, f.predecessor, f.receipt);
    assert CheckLink(w, heads[j], heads[j + 1]) == Accuse(f);
  }

  lemma MisrootIffRaised(w: Watch, entries: Log, heads: Log, s: Log, f: Fault)
    requires forall r :: r in heads <==> First(s, r)
    requires Increasing(heads) && f.BadOrigin?
    ensures Raised(w, entries, heads, f) <==> Misroots(s, f)
  {
    NoOtherVerdict(entries, f);
    if Raised(w, entries, heads, f) {
      assert heads[0] in heads;
    }
    if Misroots(s, f) {
      var j :| 0 <= j < |heads| && heads[j] == f.receipt;
      HeadOrder(heads, 0, j);
    }
  }

  lemma NoOtherKind(w: Watch, entries: Log, heads: Log, f: Fault)
    requires Raised(w, entries, heads, f)
    ensures f.Equivocation? || f.BrokenChain? || f.BadOrigin?
  {
    if !f.Equivocation? {
      NoOtherVerdict(entries, f);
    }
  }

  lemma ExpectedIffRaised(w: Watch, entries: Log, heads: Log, s: Log, f: Fault)
    requires forall n: U64 :: AtSeq(entries, n) == AtSeq(s, n)
    requires forall r :: r in heads <==> First(s, r)
    requires SameMembers(entries, s) && Increasing(heads)
    ensures Raised(w, entries, heads, f) <==> Expected(w, s, f)
  {
    if Raised(w, entries, heads, f) {
      NoOtherKind(w, entries, heads, f);
    }
    match f
    case Equivocation(_, _, _) =>
      if Splits(s, f) {
        SplitIsRaised(w, entries, heads, s, f);
      } else if Raised(w, entries, heads, f) {
        RaisedSplits(w, entries, heads, s, f);
      }
    case BrokenChain(_, _, _) =>
      if Breaks(w, s, f) {
        BreakIsRaised(w, entries, heads, s, f);
      } else if Raised(w, entries, heads, f) {
        RaisedBreaks(w, entries, heads, s, f);
      }
    case BadOrigin(_) => MisrootIffRaised(w, entries, heads, s, f);
    case _ =>
  }

  /** A scan raises exactly the faults to be expected from its accepted entries,
      in the order they were delivered. */
  lemma FaultsAreExact(w: Watch, receipts: Log, f: Fault)
    ensures f in ScanOf(w, receipts).faults <==> Expected(w, Attributable(w, receipts), f)
  {
    var entries, heads := ScanInFirsts(w, receipts);
    ExpectedIffRaised(w, entries, heads, Attributable(w, receipts), f);
  }

  // ---- Every doubt, exactly ----

  ghost predicate Occupied(s: Log, n: U64) { exists r :: r in s && SeqNo(r) == n }

  ghost predicate Rejects(w: Watch, receipts: Log, n: U64, why: Rejected) {
    exists r :: r in receipts && SeqNo(r) == n && w.accepts(r) == Err(why)
  }

  /** `a` and `b` are occupied and no position between them is. */
  ghost predicate Neighbours(s: Log, a: U64, b: U64) {
    a < b && Occupied(s, a) && Occupied(s, b) && forall n: U64 :: a < n < b ==> !Occupied(s, n)
  }

  ghost predicate Gap(s: Log, reason: Undetermined) {
    reason.SequenceGap? && Neighbours(s, reason.after, reason.before) && reason.after + 1 < reason.before
  }

  /** What a log scan leaves open: entries that are not the operator's own, a
      log that does not start at its origin, and gaps. */
  ghost predicate Open(w: Watch, receipts: Log, reason: Undetermined) {
    var s := Attributable(w, receipts);
    match reason
    case ForeignLog(n) => Rejects(w, receipts, n, ForeignLogEntry)
    case UnverifiableReceipt(n) => Rejects(w, receipts, n, Unverifiable)
    case MissingOrigin(n) => n > 0 && Occupied(s, n) && forall m: U64 :: m < n ==> !Occupied(s, m)
    case SequenceGap(_, _) => Gap(s, reason)
    case _ => false
  }

  lemma {:induction false} BelongDoubts(w: Watch, s: Log, reason: Undetermined)
    ensures CannotDetermine(reason) in BelongVerdicts(w, s) <==>
      exists r :: r in s && CheckBelongsHere(w, r) == CannotDetermine(reason)
    decreases |s|
  {
    if s != [] {
      var k := |s| - 1;
      BelongDoubts(w, s[..k], reason);
      assert s == s[..k] + [s[k]];
      assert s[k] in s;
    }
  }

  lemma BelongsIff(w: Watch, receipts: Log, reason: Undetermined)
    ensures (exists r :: r in receipts && CheckBelongsHere(w, r) == CannotDetermine(reason)) <==>
      || (reason.ForeignLog? && Rejects(w, receipts, reason.seqNo, ForeignLogEntry))
      || (reason.UnverifiableReceipt? && Rejects(w, receipts, reason.seqNo, Unverifiable))
  {
  }

  ghost predicate HasHead(heads: Log, n: U64) { exists j :: 0 <= j < |heads| && SeqNo(heads[j]) == n }

  /** Heads stand for the occupied positions, in order. */
  ghost predicate Stand(s: Log, heads: Log) {
    Increasing(heads) && forall n: U64 :: Occupied(s, n) <==> HasHead(heads, n)
  }

  lemma HeadAt(s: Log, heads: Log, n: U64) returns (j: nat)
    requires Stand(s, heads) && Occupied(s, n)
    ensures j < |heads| && SeqNo(heads[j]) == n
  {
    assert HasHead(heads, n);
    j :| 0 <= j < |heads| && SeqNo(heads[j]) == n;
  }

  lemma HeadIsOccupied(s: Log, heads: Log, j: nat)
    requires Stand(s, heads) && j < |heads|
    ensures Occupied(s, SeqNo(heads[j]))
  {
    assert HasHead(heads, SeqNo(heads[j]));
  }

  lemma OriginIff(s: Log, heads: Log, reason: Undetermined)
    requires Stand(s, heads)
    ensures (heads != [] && CheckOrigin(heads[0]) == CannotDetermine(reason)) <==>
      && reason.MissingOrigin? && reason.lowest > 0 && Occupied(s, reason.lowest)
      && forall m: U64 :: m < reason.lowest ==> !Occupied(s, m)
  {
    if heads != [] {
      HeadIsOccupied(s, heads, 0);
      forall n: U64 | Occupied(s, n) ensures SeqNo(heads[0]) <= n {
        var j := HeadAt(s, heads, n);
        HeadOrder(heads, 0, j);
      }
    } else if reason.MissingOrigin? {
      assert !HasHead(heads, reason.lowest);
    }
  }

  lemma NothingBetween(heads: Log, j: nat, k: nat)
    requires Increasing(heads) && j < |heads| - 1 && k < |heads|
    ensures !(SeqNo(heads[j]) < SeqNo(heads[k]) < SeqNo(heads[j + 1]))
  {
    HeadOrder(heads, j, k);
    HeadOrder(heads, k, j + 1);
  }

  lemma NeighboursAreHeads(s: Log, heads: Log, a: U64, b: U64) returns (j: nat)
    requires Stand(s, heads) && Neighbours(s, a, b)
    ensures j < |heads| - 1 && SeqNo(heads[j]) == a && SeqNo(heads[j + 1]) == b
  {
    j := HeadAt(s, heads, a);
    var k := HeadAt(s, heads, b);
    HeadOrder(heads, j, k);
    HeadIsOccupied(s, heads, j + 1);
    HeadOrder(heads, j, j + 1);
    HeadOrder(heads, j + 1, k);
  }

  lemma HeadsAreNeighbours(s: Log, heads: Log, j: nat)
    requires Stand(s, heads) && j < |heads| - 1
    ensures Neighbours(s, SeqNo(heads[j]), SeqNo(heads[j + 1]))
  {
    HeadIsOccupied(s, heads, j);
    HeadIsOccupied(s, heads, j + 1);
    HeadOrder(heads, j, j + 1);
    forall n: U64 | Occupied(s, n) ensures !(SeqNo(heads[j]) < n < SeqNo(heads[j + 1])) {
      var k := HeadAt(s, heads, n);
      NothingBetween(heads, j, k);
    }
  }

  lemma LinkDoubts(w: Watch, p: SignedReceipt, r: SignedReceipt, reason: Undetermined)
    requires SeqNo(p) < SeqNo(r)
    ensures CheckLink(w, p, r) == CannotDetermine(reason) <==>
      reason == SequenceGap(SeqNo(p), SeqNo(r)) && SeqNo(p) + 1 < SeqNo(r)
  {
  }

  ghost predicate DoubtfulLink(w: Watch, heads: Log, reason: Undetermined) {
    exists j :: 0 <= j < |heads| - 1 && CheckLink(w, heads[j], heads[j + 1]) == CannotDetermine(reason)
  }

  lemma DoubtfulLinkIsGap(w: Watch, s: Log, heads: Log, reason: Undetermined)
    requires Stand(s, heads) && DoubtfulLink(w, heads, reason)
    ensures Gap(s, reason)
  {
    var j :| 0 <= j < |heads| - 1 && CheckLink(w, heads[j], heads[j + 1]) == CannotDetermine(reason);
    HeadOrder(heads, j, j + 1);
    LinkDoubts(w, heads[j], heads[j + 1], reason);
    HeadsAreNeighbours(s, heads, j);
  }

  lemma GapIsDoubted(w: Watch, s: Log, heads: Log, reason: Undetermined)
    requires Stand(s, heads) && Gap(s, reason)
    ensures DoubtfulLink(w, heads, reason)
  {
    var j := NeighboursAreHeads(s, heads, reason.after, reason.before);
    LinkDoubts(w, heads[j], heads[j + 1], reason);
  }

  lemma GroupsNeverDoubt(entries: Log, reason: Undetermined)
    requires Sorted(entries)
    ensures CannotDetermine(reason) !in GroupVerdicts(entries, 0)
  {
    GroupVerdictsSpec(entries, 0);
    forall i | 0 <= i < |entries| ensures VerdictAt(entries, SeqNo(entries[i])) != CannotDetermine(reason) {
      VerdictAtMeans(entries, SeqNo(entries[i]));
    }
  }

  lemma OccupiedIffHead(entries: Log, heads: Log, s: Log, n: U64)
    requires HeadsFit(entries, heads) && SameMembers(entries, s)
    ensures Occupied(s, n) <==> HasHead(heads, n)
  {
    if r :| r in s && SeqNo(r) == n {
      assert r in entries;
    }
    if j :| 0 <= j < |heads| && SeqNo(heads[j]) == n {
      assert heads[j] in heads;
    }
  }

  lemma EntriesStand(w: Watch, receipts: Log)
    ensures var entries := Attributable(w, StableSort(receipts));
      Sorted(entries) && Stand(Attributable(w, receipts), Heads(entries, 0))
  {
    var entries, s := Attributable(w, StableSort(receipts)), Attributable(w, receipts);
    EntriesAreAccepted(w, receipts);
    HeadsOfEntriesFit(entries);
    forall n: U64 ensures Occupied(s, n) <==> HasHead(Heads(entries, 0), n) {
      OccupiedIffHead(entries, Heads(entries, 0), s, n);
    }
  }

  lemma DoubtIn(a: seq<Verdict>, b: seq<Verdict>, d: seq<Verdict>, e: seq<Verdict>, reason: Undetermined)
    ensures reason in Tally(a + b + d + e).undetermined <==>
      || CannotDetermine(reason) in a || CannotDetermine(reason) in b
      || CannotDetermine(reason) in d || CannotDetermine(reason) in e
  {
    TallyReports(a + b + d + e);
    assert forall v :: v in a + b + d + e <==> v in a || v in b || v in d || v in e;
  }

  /** A log scan leaves open exactly what the accepted entries leave open. */
  lemma DoubtsAreExact(w: Watch, receipts: Log, reason: Undetermined)
    ensures reason in ScanOf(w, receipts).undetermined <==> Open(w, receipts, reason)
  {
    var ordered, s := StableSort(receipts), Attributable(w, receipts);
    var entries := Attributable(w, ordered);
    var heads := Heads(entries, 0);
    EntriesStand(w, receipts);
    DoubtIn(BelongVerdicts(w, ordered), GroupVerdicts(entries, 0), OriginVerdicts(heads), LinkVerdicts(w, heads),
            reason);
    GroupsNeverDoubt(entries, reason);
    BelongDoubts(w, ordered, reason);
    StableSortMembers(receipts);
    BelongsIff(w, receipts, reason);
    OriginIff(s, heads, reason);
    LinkVerdictsSpec(w, heads);
    if DoubtfulLink(w, heads, reason) {
      DoubtfulLinkIsGap(w, s, heads, reason);
    }
    if Gap(s, reason) {
      GapIsDoubted(w, s, heads, reason);
    }
  }

  // ---- When the delivery carries no meaning ----

  ghost predicate SameFaults(a: Scan, b: Scan) { forall f :: f in a.faults <==> f in b.faults }

  /** However the receipts arrive, and however often, the scan gives the same
      faults. */
  ghost predicate DeliveryMeansNothing(w: Watch, receipts: Log) {
    forall again :: SameMembers(receipts, again) ==> SameFaults(ScanOf(w, receipts), ScanOf(w, again))
  }

  lemma FirstIffMember(s: Log, r: SignedReceipt)
    requires Unique(s)
    ensures First(s, r) <==> r in s
  {
    AtSeqMembers(s, SeqNo(r));
    if AtSeq(s, SeqNo(r)) != [] {
      assert AtSeq(s, SeqNo(r))[0] in AtSeq(s, SeqNo(r));
    }
  }

  lemma UniqueNeverSplits(s: Log, f: Fault)
    requires Unique(s) && f.Equivocation?
    ensures !Splits(s, f)
  {
    AtSeqMembers(s, f.seqNo);
    FirstIffMember(s, f.a);
    FindsFirstOther(AtSeq(s, f.seqNo), f.a, f.b);
  }

  lemma UniqueExpects(w: Watch, s: Log, t: Log, f: Fault)
    requires Unique(s) && SameMembers(s, t) && Expected(w, s, f)
    ensures Expected(w, t, f)
  {
    match f
    case Equivocation(_, _, _) => UniqueNeverSplits(s, f);
    case BrokenChain(_, r, p) =>
      FirstIffMember(s, r);
      FirstIffMember(s, p);
      FirstIffMember(t, r);
      FirstIffMember(t, p);
    case BadOrigin(r) =>
      FirstIffMember(s, r);
      FirstIffMember(t, r);
    case _ =>
  }

  lemma UniqueScansAlike(w: Watch, receipts: Log, again: Log)
    requires Unique(Attributable(w, receipts)) && SameMembers(receipts, again)
    ensures SameFaults(ScanOf(w, receipts), ScanOf(w, again))
  {
    var s, t := Attributable(w, receipts), Attributable(w, again);
    AttributableMembers(w, receipts);
    AttributableMembers(w, again);
    forall f ensures f in ScanOf(w, receipts).faults <==> f in ScanOf(w, again).faults {
      FaultsAreExact(w, receipts, f);
      FaultsAreExact(w, again, f);
      if Expected(w, s, f) {
        UniqueExpects(w, s, t, f);
      }
      if Expected(w, t, f) {
        UniqueExpects(w, t, s, f);
      }
    }
  }

  lemma {:induction false} AttributableCons(w: Watch, x: SignedReceipt, s: Log)
    requires Accepted(w, x)
    ensures Attributable(w, [x] + s) == [x] + Attributable(w, s)
    decreases |s|
  {
    if s == [] {
      AttributableSnoc(w, [], x);
      assert [x] + s == [] + [x];
    } else {
      var front, last := s[..|s| - 1], s[|s| - 1];
      assert [x] + s == ([x] + front) + [last];
      AttributableSnoc(w, [x] + front, last);
      AttributableCons(w, x, front);
    }
  }

  /** Delivering `x` ahead of everything else makes it the first statement about
      its position. */
  lemma DeliveredAhead(w: Watch, x: SignedReceipt, receipts: Log)
    requires Accepted(w, x)
    ensures First(Attributable(w, [x] + receipts), x)
  {
    AttributableCons(w, x, receipts);
    AtSeqAppend([x], Attributable(w, receipts), SeqNo(x));
    AtSeqSnoc([], x, SeqNo(x));
    assert [] + [x] == [x];
  }

  /** Where two statements share a position, delivering the second of them once
      more, first, withdraws the fault there was. */
  lemma SplitDependsOnOrder(w: Watch, receipts: Log) returns (again: Log, f: Fault)
    requires !Unique(Attributable(w, receipts))
    ensures SameMembers(receipts, again)
    ensures f in ScanOf(w, receipts).faults && f !in ScanOf(w, again).faults
  {
    var s := Attributable(w, receipts);
    var a, b :| a in s && b in s && SeqNo(a) == SeqNo(b) && a != b;
    assert Contradicts(s, SeqNo(a), a, b);
    EquivocationExact(w, receipts, SeqNo(a));
    f :| f in ScanOf(w, receipts).faults && f.Equivocation? && f.seqNo == SeqNo(a);
    EquivocationNamesDelivered(w, receipts, f);
    again := [f.b] + receipts;
    DeliveredAhead(w, f.b, receipts);
    FaultsAreExact(w, again, f);
  }

  /** Order and repetition carry no meaning exactly when no two accepted
      statements share a position. */
  lemma DeliveryMeansNothingIff(w: Watch, receipts: Log)
    ensures DeliveryMeansNothing(w, receipts) <==> Unique(Attributable(w, receipts))
  {
    if Unique(Attributable(w, receipts)) {
      forall again | SameMembers(receipts, again) ensures SameFaults(ScanOf(w, receipts), ScanOf(w, again)) {
        UniqueScansAlike(w, receipts, again);
      }
    } else {
      var again, f := SplitDependsOnOrder(w, receipts);
    }
  }

  // ---- An accusation that comes and goes ----

  lemma FirstIsMember(s: Log, r: SignedReceipt)
    requires First(s, r)
    ensures r in s
  {
    AtSeqMembers(s, SeqNo(r));
    assert AtSeq(s, SeqNo(r))[0] in AtSeq(s, SeqNo(r));
  }

  lemma AloneIsFirst(s: Log, r: SignedReceipt)
    requires r in s && forall q :: q in s && SeqNo(q) == SeqNo(r) ==> q == r
    ensures First(s, r)
  {
    AtSeqMembers(s, SeqNo(r));
    assert r in AtSeq(s, SeqNo(r));
    assert AtSeq(s, SeqNo(r))[0] in AtSeq(s, SeqNo(r));
  }

  ghost predicate TwoFirsts(s: Log, x: SignedReceipt, b: SignedReceipt) {
    First(s, x) && First(s, b) && forall r :: First(s, r) ==> r == x || r == b
  }

  ghost predicate ChainBroken(scan: Scan) { exists f :: f in scan.faults && f.BrokenChain? }

  /** Besides `b`, everything delivered is about position 0, and `x` comes first. */
  lemma FirstOfTwo(w: Watch, x: SignedReceipt, rest: Log, b: SignedReceipt)
    requires Accepted(w, x) && Accepted(w, b) && b in rest && SeqNo(x) == 0 && SeqNo(b) == 1
    requires forall r :: r in rest ==> r == b || SeqNo(r) == 0
    ensures TwoFirsts(Attributable(w, [x] + rest), x, b)
  {
    var s := Attributable(w, [x] + rest);
    AttributableMembers(w, [x] + rest);
    DeliveredAhead(w, x, rest);
    AloneIsFirst(s, b);
    forall r | First(s, r) ensures r == x || r == b {
      FirstIsMember(s, r);
    }
  }

  lemma BreakNeedsTwoFirsts(w: Watch, log: Log, x: SignedReceipt, b: SignedReceipt, f: Fault)
    requires TwoFirsts(Attributable(w, log), x, b) && SeqNo(x) == 0 && SeqNo(b) == 1
    requires f in ScanOf(w, log).faults && f.BrokenChain?
    ensures f == BrokenChain(1, b, x) && b.receipt.prevReceiptHash != w.hash(x)
  {
    FaultsAreExact(w, log, f);
    assert Breaks(w, Attributable(w, log), f);
  }

  lemma FirstDecidesBreak(w: Watch, log: Log, x: SignedReceipt, b: SignedReceipt)
    requires TwoFirsts(Attributable(w, log), x, b) && SeqNo(x) == 0 && SeqNo(b) == 1
    ensures ChainBroken(ScanOf(w, log)) <==> b.receipt.prevReceiptHash != w.hash(x)
    ensures ChainBroken(ScanOf(w, log)) ==> BrokenChain(1, b, x) in ScanOf(w, log).faults
  {
    FaultsAreExact(w, log, BrokenChain(1, b, x));
    if f :| f in ScanOf(w, log).faults && f.BrokenChain? {
      BreakNeedsTwoFirsts(w, log, x, b, f);
    }
  }

  /** Two statements about position 0 and one that follows the first of them:
      whether position 1 is accused of a broken chain depends on which of the
      two was delivered first. */
  lemma BreakDependsOnOrder(w: Watch, log: Log, again: Log, a: SignedReceipt, other: SignedReceipt, b: SignedReceipt)
    requires log == [a, other, b] && again == [other, a, b]
    requires Accepted(w, a) && Accepted(w, other) && Accepted(w, b)
    requires SeqNo(a) == SeqNo(other) == 0 && SeqNo(b) == 1
    requires b.receipt.prevReceiptHash == w.hash(a) != w.hash(other)
    ensures !ChainBroken(ScanOf(w, log)) && BrokenChain(1, b, other) in ScanOf(w, again).faults
  {
    assert log == [a] + [other, b] && again == [other] + [a, b];
    FirstOfTwo(w, a, [other, b], b);
    FirstOfTwo(w, other, [a, b], b);
    FirstDecidesBreak(w, log, a, b);
    FirstDecidesBreak(w, again, other, b);
  }

  /** A plain receipt; `b` tells two statements about one position apart. */
  function Statement(n: U64, b: Byte, previous: Bytes32): SignedReceipt {
    SignedReceipt(Receipt(ZERO32, Plain, n, Filled(64, 1), Filled(32, b), ZERO32, previous, ZERO32, 0, 0), ZERO64)
  }

  function ExampleCrypto(marked: Bytes): Crypto {
    Crypto((_, _, _) => true, x => if x == marked then Filled(32, 1) else ZERO32, _ => ZERO32)
  }

  lemma ExampleHashes(a: SignedReceipt, other: SignedReceipt)
    requires a != other
    ensures var c := ExampleCrypto(EncodeSigned(a));
      ReceiptHash(c, a) == Filled(32, 1) && ReceiptHash(c, other) == ZERO32
  {
    if EncodeSigned(other) == EncodeSigned(a) {
      EncodeSignedInjective(a, other);
    }
  }

  lemma StatementIsAccepted(marked: Bytes, n: U64, b: Byte, previous: Bytes32)
    ensures Accepted(WatchOf(ExampleCrypto(marked), Operator(ZERO32, ZERO32)), Statement(n, b, previous))
  {
    assert Filled(64, 1)[0] != ZERO64[0];
  }

  /** An instance: an operator and three receipts, delivered in two orders. */
  lemma DeliveryExample() returns (w: Watch, log: Log, again: Log)
    ensures SameMembers(log, again) && !ChainBroken(ScanOf(w, log)) && ChainBroken(ScanOf(w, again))
  {
    var a, other, b := Statement(0, 1, ZERO32), Statement(0, 2, ZERO32), Statement(1, 1, Filled(32, 1));
    var marked := EncodeSigned(a);
    w, log, again := WatchOf(ExampleCrypto(marked), Operator(ZERO32, ZERO32)), [a, other, b], [other, a, b];
    StatementIsAccepted(marked, 0, 1, ZERO32);
    StatementIsAccepted(marked, 0, 2, ZERO32);
    StatementIsAccepted(marked, 1, 1, Filled(32, 1));
    assert a.receipt.txHash[0] != other.receipt.txHash[0] && Filled(32, 1)[0] != ZERO32[0];
    ExampleHashes(a, other);
    BreakDependsOnOrder(w, log, again, a, other, b);
  }
}
