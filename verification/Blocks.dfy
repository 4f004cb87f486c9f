/** Blocks as a watchtower sees them, and the execution order recovered from
    their hash (`observed_transaction.rs`, `observed_block.rs`, `order.rs`). */
module Blocks {
  import opened Base
  import opened BlockHash

  datatype ObservedTransaction = ObservedTransaction(
    signature: Bytes64,
    txHash: Bytes32,
    feePayer: Bytes32,
    writable: seq<Bytes32>,
    readonly: seq<Bytes32>,
    wireBytes: Bytes)

  type Transactions = seq<ObservedTransaction>

  datatype ObservedBlock = ObservedBlock(
    slot: nat,
    previousBlockhash: Bytes32,
    blockhash: Bytes32,
    transactions: Transactions)

  function Signatures(txs: Transactions): (s: seq<Bytes64>)
    ensures |s| == |txs| && forall i :: 0 <= i < |txs| ==> s[i] == txs[i].signature
  {
    seq(|txs|, i requires 0 <= i < |txs| => txs[i].signature)
  }

  function Reversed(txs: Transactions): (r: Transactions)
    ensures |r| == |txs| && forall i :: 0 <= i < |txs| ==> r[i] == txs[|txs| - 1 - i]
  {
    if txs == [] then [] else Reversed(txs[1..]) + [txs[0]]
  }

  datatype Order = AsReported | Reverse | Unverifiable

  function Derive(c: Crypto, block: ObservedBlock): Order {
    if FoldHash(c, block.previousBlockhash, Signatures(block.transactions)) == block.blockhash then AsReported
    else if FoldHash(c, block.previousBlockhash, Signatures(Reversed(block.transactions))) == block.blockhash
    then Reverse
    else Unverifiable
  }

  function ExecutedOrder(c: Crypto, block: ObservedBlock): (r: Option<Transactions>)
    ensures r.Some? ==>
      && (r.value == block.transactions || r.value == Reversed(block.transactions))
      && FoldHash(c, block.previousBlockhash, Signatures(r.value)) == block.blockhash
  {
    match Derive(c, block)
    case AsReported => Some(block.transactions)
    case Reverse => Some(Reversed(block.transactions))
    case Unverifiable => None
  }

  ghost predicate Blake3Collision(c: Crypto) { exists p, q :: p != q && c.blake3(p) == c.blake3(q) }

  /** Whatever order is reported for a block, it is the list that produced the
      block hash - unless two different byte strings share a hash. */
  lemma RecoveredOrderIsTrue(c: Crypto, block: ObservedBlock, truth: seq<Bytes64>)
    requires FoldHash(c, block.previousBlockhash, truth) == block.blockhash
    ensures ExecutedOrder(c, block).Some? ==>
      Signatures(ExecutedOrder(c, block).value) == truth || Blake3Collision(c)
  {
    if ExecutedOrder(c, block).Some? {
      var found := Signatures(ExecutedOrder(c, block).value);
      if found != truth {
        if Preimage(block.previousBlockhash, found) == Preimage(block.previousBlockhash, truth) {
          PreimageInjective(block.previousBlockhash, found, truth);
        }
        assert c.blake3(Preimage(block.previousBlockhash, found)) == c.blake3(Preimage(block.previousBlockhash, truth));
      }
    }
  }

  /** A block reported in true order or fully reversed is always read back in
      the order that produced its hash. */
  lemma OrderIsRecovered(c: Crypto, block: ObservedBlock, truth: seq<Bytes64>)
    requires FoldHash(c, block.previousBlockhash, truth) == block.blockhash
    requires Signatures(block.transactions) == truth || Signatures(Reversed(block.transactions)) == truth
    ensures ExecutedOrder(c, block).Some?
    ensures Signatures(ExecutedOrder(c, block).value) == truth || Blake3Collision(c)
  {
    RecoveredOrderIsTrue(c, block, truth);
  }
}

/** Two transactions interact only through an account one of them writes
    (`conflict.rs`), so a block can be replayed in any order that keeps
    conflicting transactions in place. */
module Serializability {
  import opened Base
  import opened Blocks

  predicate Touches(t: ObservedTransaction, written: seq<Bytes32>) {
    exists k :: k in written && (k in t.writable || k in t.readonly)
  }

  predicate Conflicts(a: ObservedTransaction, b: ObservedTransaction) {
    Touches(a, b.writable) || Touches(b, a.writable)
  }

  /** What a transaction does with the accounts it lists. Deterministic, and
      otherwise arbitrary; an account missing from a map does not exist. */
  type Semantics<!V> = (ObservedTransaction, map<Bytes32, V>) -> map<Bytes32, V>

  predicate Lists(t: ObservedTransaction, k: Bytes32) { k in t.writable || k in t.readonly }

  function Seen<V>(state: map<Bytes32, V>, t: ObservedTransaction): map<Bytes32, V> {
    map k | k in state && Lists(t, k) :: state[k]
  }

  /** Reads only listed accounts and writes only writable ones. */
  function Apply<V>(sem: Semantics<V>, state: map<Bytes32, V>, t: ObservedTransaction): map<Bytes32, V> {
    var out := sem(t, Seen(state, t));
    map k | k in state.Keys + out.Keys && k in (if k in t.writable then out else state) ::
      if k in t.writable then out[k] else state[k]
  }

  predicate Within(txs: Transactions, order: seq<nat>) { forall k :: 0 <= k < |order| ==> order[k] < |txs| }

  /** Runs the transactions of a block in the order of the given positions. */
  function Execute<V>(sem: Semantics<V>, state: map<Bytes32, V>, txs: Transactions, order: seq<nat>): map<Bytes32, V>
    requires Within(txs, order)
    decreases |order|
  {
    if order == [] then state
    else Execute(sem, Apply(sem, state, txs[order[0]]), txs, order[1..])
  }

  /** One key after one transaction. */
  lemma ApplyAt<V>(sem: Semantics<V>, state: map<Bytes32, V>, t: ObservedTransaction, k: Bytes32)
    ensures var after := Apply(sem, state, t);
      var out := sem(t, Seen(state, t));
      if k in t.writable
      then (k in after <==> k in out) && (k in after ==> after[k] == out[k])
      else (k in after <==> k in state) && (k in after ==> after[k] == state[k])
  {
  }

  lemma SeenUnchanged<V>(sem: Semantics<V>, state: map<Bytes32, V>, a: ObservedTransaction, b: ObservedTransaction)
    requires !Touches(b, a.writable)
    ensures Seen(Apply(sem, state, a), b) == Seen(state, b)
  {
    forall k | Lists(b, k) ensures k !in a.writable {
    }
    forall k ensures Lists(b, k) ==> (k in Apply(sem, state, a) <==> k in state) {
      ApplyAt(sem, state, a, k);
    }
  }

  /** Transactions that do not conflict commute, whatever they compute. */
  lemma NonConflictingCommute<V>(sem: Semantics<V>, state: map<Bytes32, V>, a: ObservedTransaction,
          b: ObservedTransaction)
    requires !Conflicts(a, b)
    ensures Apply(sem, Apply(sem, state, a), b) == Apply(sem, Apply(sem, state, b), a)
  {
    var ab := Apply(sem, Apply(sem, state, a), b);
    var ba := Apply(sem, Apply(sem, state, b), a);
    SeenUnchanged(sem, state, a, b);
    SeenUnchanged(sem, state, b, a);
    forall k ensures (k in ab <==> k in ba) && (k in ab ==> ab[k] == ba[k]) {
      ApplyAt(sem, state, a, k);
      ApplyAt(sem, state, b, k);
      ApplyAt(sem, Apply(sem, state, a), b, k);
      ApplyAt(sem, Apply(sem, state, b), a, k);
      assert !(k in a.writable && k in b.writable);
    }
  }

  lemma {:induction false} ExecuteAppend<V>(sem: Semantics<V>, state: map<Bytes32, V>, txs: Transactions, a: seq<nat>,
          b: seq<nat>)
    requires Within(txs, a) && Within(txs, b)
    ensures Within(txs, a + b)
    ensures Execute(sem, state, txs, a + b) == Execute(sem, Execute(sem, state, txs, a), txs, b)
    decreases |a|
  {
    if a == [] {
      assert a + b == b;
    } else {
      assert (a + b)[1..] == a[1..] + b;
      ExecuteAppend(sem, Apply(sem, state, txs[a[0]]), txs, a[1..], b);
    }
  }

  /** A transaction that conflicts with nothing in `front` can run before it. */
  lemma {:induction false} MoveToFront<V>(sem: Semantics<V>, state: map<Bytes32, V>, txs: Transactions, front: seq<nat>,
          x: nat)
    requires Within(txs, front) && x < |txs|
    requires forall k :: 0 <= k < |front| ==> !Conflicts(txs[front[k]], txs[x])
    ensures Execute(sem, state, txs, front + [x]) == Execute(sem, state, txs, [x] + front)
    decreases |front|
  {
    if front == [] {
      assert front + [x] == [x] + front;
    } else {
      var head, rest := front[0], front[1..];
      var after := Apply(sem, state, txs[head]);
      assert front == [head] + rest;
      assert (front + [x])[1..] == rest + [x];
      MoveToFront(sem, after, txs, rest, x);
      assert ([x] + rest)[1..] == rest && ([x] + front)[1..] == front;
      NonConflictingCommute(sem, state, txs[head], txs[x]);
    }
  }

  predicate Increasing(order: seq<nat>) { forall p, q :: 0 <= p < q < |order| ==> order[p] < order[q] }

  /** Every conflicting pair of `order` stands in block order. */
  predicate KeepsConflicts(txs: Transactions, order: seq<nat>)
    requires Within(txs, order)
  {
    forall p, q :: 0 <= p < q < |order| && Conflicts(txs[order[p]], txs[order[q]]) ==> order[p] < order[q]
  }

  lemma Without(a: seq<nat>, k: nat)
    requires k < |a|
    ensures multiset(a[..k] + a[k + 1..]) == multiset(a) - multiset{a[k]}
  {
    assert a == a[..k] + [a[k]] + a[k + 1..];
  }

  lemma WithoutFirst(a: seq<nat>)
    requires a != []
    ensures multiset(a[1..]) == multiset(a) - multiset{a[0]}
  {
    assert a == [a[0]] + a[1..];
  }

  lemma SameMembers(a: seq<nat>, b: seq<nat>)
    requires multiset(a) == multiset(b)
    ensures forall i :: i in a <==> i in b
  {
    forall i ensures i in a <==> i in b {
      assert i in a <==> i in multiset(a);
      assert i in b <==> i in multiset(b);
    }
  }

  lemma EmptyRearranged(block: seq<nat>)
    requires multiset(block) == multiset([])
    ensures block == []
  {
    assert |block| == |multiset(block)|;
  }

  lemma PositionOf(block: seq<nat>, order: seq<nat>) returns (k: nat)
    requires multiset(block) == multiset(order) && order != []
    ensures k < |block| && block[k] == order[0]
  {
    SameMembers(block, order);
    assert order[0] in order;
    k :| 0 <= k < |block| && block[k] == order[0];
  }

  lemma FrontDoesNotConflict(txs: Transactions, block: seq<nat>, order: seq<nat>, k: nat)
    requires Within(txs, block) && Within(txs, order)
    requires Increasing(block) && multiset(block) == multiset(order)
    requires KeepsConflicts(txs, order) && order != []
    requires k < |block| && block[k] == order[0]
    ensures forall j :: 0 <= j < k ==> !Conflicts(txs[block[j]], txs[block[k]])
  {
    SameMembers(block, order);
    forall j | 0 <= j < k ensures !Conflicts(txs[block[j]], txs[block[k]]) {
      assert block[j] in block;
      var q :| 0 <= q < |order| && order[q] == block[j];
      assert order[q] < order[0];
    }
  }

  /** `order` rearranges the executed positions `block` without turning a
      conflicting pair round. */
  predicate Rearranges(txs: Transactions, block: seq<nat>, order: seq<nat>) {
    && Within(txs, block) && Within(txs, order)
    && Increasing(block) && multiset(block) == multiset(order)
    && KeepsConflicts(txs, order)
  }

  lemma RestIncreasing(txs: Transactions, block: seq<nat>, k: nat)
    requires Within(txs, block) && Increasing(block) && k < |block|
    ensures Within(txs, block[..k] + block[k + 1..]) && Increasing(block[..k] + block[k + 1..])
  {
  }

  lemma RestCounts(block: seq<nat>, order: seq<nat>, k: nat)
    requires multiset(block) == multiset(order)
    requires k < |block| && order != [] && block[k] == order[0]
    ensures multiset(block[..k] + block[k + 1..]) == multiset(order[1..])
  {
    Without(block, k);
    WithoutFirst(order);
  }

  lemma TailKeepsConflicts(txs: Transactions, order: seq<nat>)
    requires Within(txs, order) && KeepsConflicts(txs, order) && order != []
    ensures Within(txs, order[1..]) && KeepsConflicts(txs, order[1..])
  {
    var rest := order[1..];
    forall p, q | 0 <= p < q < |rest| ensures Conflicts(txs[rest[p]], txs[rest[q]]) ==> rest[p] < rest[q] {
      assert rest[p] == order[p + 1] && rest[q] == order[q + 1];
    }
  }

  lemma RestRearranges(txs: Transactions, block: seq<nat>, order: seq<nat>, k: nat)
    requires Rearranges(txs, block, order)
    requires k < |block| && order != [] && block[k] == order[0]
    ensures Rearranges(txs, block[..k] + block[k + 1..], order[1..])
  {
    RestIncreasing(txs, block, k);
    RestCounts(block, order, k);
    TailKeepsConflicts(txs, order);
  }

  lemma CutAt(block: seq<nat>, k: nat)
    requires k < |block|
    ensures block == (block[..k] + [block[k]]) + block[k + 1..]
    ensures (([block[k]] + block[..k]) + block[k + 1..])[1..] == block[..k] + block[k + 1..]
    ensures (([block[k]] + block[..k]) + block[k + 1..])[0] == block[k]
  {
  }

  /** The `k`-th position runs first when nothing ahead of it conflicts. */
  lemma TakeOut<V>(sem: Semantics<V>, state: map<Bytes32, V>, txs: Transactions, block: seq<nat>, k: nat)
    requires Within(txs, block) && k < |block|
    requires forall j :: 0 <= j < k ==> !Conflicts(txs[block[j]], txs[block[k]])
    ensures Execute(sem, state, txs, block)
         == Execute(sem, Apply(sem, state, txs[block[k]]), txs, block[..k] + block[k + 1..])
  {
    var front, x, back := block[..k], block[k], block[k + 1..];
    CutAt(block, k);
    MoveToFront(sem, state, txs, front, x);
    ExecuteAppend(sem, state, txs, front + [x], back);
    ExecuteAppend(sem, state, txs, [x] + front, back);
  }

  /** Running a block in any order that keeps its conflicting pairs in place
      leaves the same accounts behind. `block` is the executed order and `order`
      a rearrangement of it. */
  lemma {:induction false} ConflictOrderDecidesState<V>(sem: Semantics<V>, state: map<Bytes32, V>, txs: Transactions,
          block: seq<nat>, order: seq<nat>)
    requires Rearranges(txs, block, order)
    ensures Execute(sem, state, txs, order) == Execute(sem, state, txs, block)
    decreases |order|
  {
    if order == [] {
      EmptyRearranged(block);
    } else {
      var k := PositionOf(block, order);
      FrontDoesNotConflict(txs, block, order, k);
      TakeOut(sem, state, txs, block, k);
      RestRearranges(txs, block, order, k);
      ConflictOrderDecidesState(sem, Apply(sem, state, txs[order[0]]), txs, block[..k] + block[k + 1..], order[1..]);
    }
  }

  // ---- The test is as sharp as it can be ----

  /** What transaction `a` does in the two-transaction world of `ConflictIsNecessary`: it sets
      account `k`; `b` records in account `m` whether it could see `k`, or sets it differently. */
  function Probe(a: ObservedTransaction, k: Bytes32, m: Bytes32): Semantics<int> {
    (t: ObservedTransaction, seen: map<Bytes32, int>) =>
      if t == a then seen[k := 1] else seen[m := if k in seen then 2 else 3]
  }

  /** `a` writes `k`, and `b` - which writes `m` - lists it: then some
      semantics tells the two orders apart. */
  lemma OneWayConflictShows(a: ObservedTransaction, b: ObservedTransaction, k: Bytes32, m: Bytes32)
    requires a != b && k in a.writable && Lists(b, k) && m in b.writable
    requires k in b.writable ==> m == k
    ensures var sem := Probe(a, k, m);
      Apply(sem, Apply(sem, map[], a), b) != Apply(sem, Apply(sem, map[], b), a)
  {
    var sem := Probe(a, k, m);
    var afterA, afterB := Apply(sem, map[], a), Apply(sem, map[], b);
    var ab, ba := Apply(sem, afterA, b), Apply(sem, afterB, a);
    ApplyAt(sem, map[], a, k);
    ApplyAt(sem, map[], b, k);
    ApplyAt(sem, map[], b, m);
    ApplyAt(sem, afterA, b, m);
    ApplyAt(sem, afterB, a, m);
    ApplyAt(sem, afterB, a, k);
    assert m in ab && ab[m] == 2;
    assert m in ba ==> ba[m] != 2;
  }

  ghost predicate OrderMatters(a: ObservedTransaction, b: ObservedTransaction) {
    exists sem: Semantics<int>, state: map<Bytes32, int> ::
      Apply(sem, Apply(sem, state, a), b) != Apply(sem, Apply(sem, state, b), a)
  }

  /** For two different transactions that each write something, `conflicts` is
      exactly "some account semantics can tell their order". */
  lemma ConflictIsNecessary(a: ObservedTransaction, b: ObservedTransaction)
    requires a != b && a.writable != [] && b.writable != []
    ensures Conflicts(a, b) <==> OrderMatters(a, b)
  {
    if Touches(b, a.writable) {
      var k :| k in a.writable && Lists(b, k);
      OneWayConflictShows(a, b, k, if k in b.writable then k else b.writable[0]);
    } else if Touches(a, b.writable) {
      var k :| k in b.writable && Lists(a, k);
      OneWayConflictShows(b, a, k, if k in a.writable then k else a.writable[0]);
    } else {
      forall sem: Semantics<int>, state: map<Bytes32, int>
        ensures Apply(sem, Apply(sem, state, a), b) == Apply(sem, Apply(sem, state, b), a)
      {
        NonConflictingCommute(sem, state, a, b);
      }
    }
  }
}
