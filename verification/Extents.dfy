/** Ranges of blocks, and when they tile a prefix of the storage. */
module Extents {
  import opened Base

  type Pubkey = Bytes32

  datatype Extent = Extent(offset: nat, blocks: nat) {
    function End(): nat { offset + blocks }
    predicate Holds(p: int) { offset <= p < End() }
  }

  predicate Disjoint(a: Extent, b: Extent) { a.End() <= b.offset || b.End() <= a.offset }

  predicate Within(extents: set<Extent>, cursor: nat) {
    forall e :: e in extents ==> 0 < e.blocks && e.End() <= cursor
  }

  predicate Apart(extents: set<Extent>) {
    forall a, b :: a in extents && b in extents && a != b ==> Disjoint(a, b)
  }

  predicate Held(extents: set<Extent>, p: int) { exists e :: e in extents && e.Holds(p) }

  ghost predicate Covers(extents: set<Extent>, cursor: nat) {
    forall p :: 0 <= p < cursor ==> Held(extents, p)
  }

  /** Every block below the cursor belongs to exactly one extent, and nothing
      reaches past it. */
  ghost predicate Tiles(extents: set<Extent>, cursor: nat) {
    Within(extents, cursor) && Apart(extents) && Covers(extents, cursor)
  }

  /** Appending at the cursor. */
  lemma TilesAppend(extents: set<Extent>, cursor: nat, blocks: nat)
    requires Tiles(extents, cursor) && blocks > 0
    ensures Extent(cursor, blocks) !in extents
    ensures Tiles(extents + {Extent(cursor, blocks)}, cursor + blocks)
  {
    var e := Extent(cursor, blocks);
    var all := extents + {e};
    forall p | 0 <= p < cursor + blocks ensures Held(all, p) {
      if p < cursor {
        assert Held(extents, p);
        var x :| x in extents && x.Holds(p);
        assert x in all;
      } else {
        assert e in all && e.Holds(p);
      }
    }
  }

  /** Splitting one extent in two. */
  lemma TilesSplit(extents: set<Extent>, cursor: nat, hole: Extent, needed: nat)
    requires Tiles(extents, cursor) && hole in extents && 0 < needed < hole.blocks
    ensures var front, rest := Extent(hole.offset, needed), Extent(hole.offset + needed, hole.blocks - needed);
      Tiles(extents - {hole} + {front, rest}, cursor)
  {
    var front, rest := Extent(hole.offset, needed), Extent(hole.offset + needed, hole.blocks - needed);
    var all := extents - {hole} + {front, rest};
    forall a, b | a in all && b in all && a != b ensures Disjoint(a, b) {
      SplitApart(extents, hole, needed, a);
      SplitApart(extents, hole, needed, b);
    }
    forall p | 0 <= p < cursor ensures Held(all, p) {
      assert Held(extents, p);
      var x :| x in extents && x.Holds(p);
      var y := if x != hole then x else if p < rest.offset then front else rest;
      assert y in all && y.Holds(p);
    }
  }

  lemma SplitApart(extents: set<Extent>, hole: Extent, needed: nat, a: Extent)
    requires Apart(extents) && hole in extents && 0 < needed < hole.blocks
    requires a in extents - {hole}
          || a == Extent(hole.offset, needed) || a == Extent(hole.offset + needed, hole.blocks - needed)
    ensures a in extents - {hole} ==> Disjoint(a, hole)
    ensures a !in extents - {hole} ==> hole.offset <= a.offset && a.End() <= hole.End()
  {
  }

  /** The parts of a split are new: nothing else lies inside the hole. */
  lemma SplitIsNew(extents: set<Extent>, cursor: nat, hole: Extent, part: Extent)
    requires Tiles(extents, cursor) && hole in extents
    requires part != hole && 0 < part.blocks && hole.offset <= part.offset && part.End() <= hole.End()
    ensures part !in extents
  {
    assert part in extents ==> Disjoint(part, hole);
  }

  // ---- Where accounts are ----

  predicate Injective(m: map<Pubkey, Extent>) {
    forall a, b :: a in m && b in m && a != b ==> m[a] != m[b]
  }

  /** Giving `k` a new place: its old one, if any, drops out of the values. */
  lemma ValuesAfterUpdate(m: map<Pubkey, Extent>, k: Pubkey, e: Extent)
    requires Injective(m) && e !in m.Values
    ensures Injective(m[k := e])
    ensures m[k := e].Values == (if k in m then m.Values - {m[k]} else m.Values) + {e}
  {
    var next := m[k := e];
    var rest := if k in m then m.Values - {m[k]} else m.Values;
    forall x ensures x in next.Values <==> x in rest + {e} {
      if x in rest {
        var j :| j in m && m[j] == x;
        assert j in next && next[j] == x;
      } else if x == e {
        assert k in next && next[k] == e;
      }
    }
    forall a, b | a in next && b in next && a != b ensures next[a] != next[b] {
      assert a != k ==> next[a] in m.Values;
      assert b != k ==> next[b] in m.Values;
    }
  }

  lemma ValuesAfterRemoval(m: map<Pubkey, Extent>, k: Pubkey)
    requires Injective(m) && k in m
    ensures Injective(m - {k})
    ensures (m - {k}).Values == m.Values - {m[k]}
  {
    var next := m - {k};
    forall x ensures x in next.Values <==> x in m.Values - {m[k]} {
      if x in m.Values - {m[k]} {
        var j :| j in m && m[j] == x;
        assert j in next && next[j] == x;
      }
    }
  }
}
