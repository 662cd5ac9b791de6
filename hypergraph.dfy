/** Hypergraph construction: the K4 records of K_n in the order in which the
    four nested loops of `add_all_k4` create them, the record `add_k4` builds,
    and the incidence lists it prepends to. */
module Hypergraph {
  import opened Records
  import opened WeightModel

  /** The vertices of one K4, in the order add_k4 receives them. */
  datatype Quad = Quad(i1: int, i2: int, i3: int, i4: int)

  predicate IsQuad(q: Quad, n: int)
  {
    0 <= q.i1 < q.i2 < q.i3 < q.i4 < n
  }

  predicate IsEdge(p: Edge, n: int)
  {
    0 <= p.0 < p.1 < n
  }

  /** The number of K4 records, N(N-1)(N-2)(N-3)/24, as a mathematical integer. */
  function K(n: int): int
  {
    n * (n - 1) * (n - 2) * (n - 3) / 24
  }

  /** The six edges of a K4, in the slot order of add_k4. */
  function SixPairs(q: Quad): seq<Edge>
  {
    [(q.i1, q.i2), (q.i1, q.i3), (q.i1, q.i4), (q.i2, q.i3), (q.i2, q.i4), (q.i3, q.i4)]
  }

  /** The record add_k4 allocates: the six pairs, all tagged Init, with the
      initial weight 2^-5. */
  function NewK4(q: Quad): K4Graph
  {
    K4Graph([ValuePair(q.i1, q.i2, Init), ValuePair(q.i1, q.i3, Init),
             ValuePair(q.i1, q.i4, Init), ValuePair(q.i2, q.i3, Init),
             ValuePair(q.i2, q.i4, Init), ValuePair(q.i3, q.i4, Init)],
            Pow2(-5))
  }

  function NewK4s(qs: seq<Quad>): seq<K4Graph>
  {
    seq(|qs|, j requires 0 <= j < |qs| => NewK4(qs[j]))
  }

  /** A fresh record stands for the six pairs of its K4, untagged, and its
      initial weight is the weight of its tags. */
  lemma NewK4Shape(q: Quad)
    ensures Endpoints(NewK4(q).edgePair) == SixPairs(q)
    ensures forall k :: 0 <= k < 6 ==> NewK4(q).edgePair[k].color == Init
    ensures NewK4(q).weight == Weight(NewK4(q).edgePair)
  {
    var ps := NewK4(q).edgePair;
    assert forall k :: 0 <= k < 6 ==> Endpoints(ps)[k] == SixPairs(q)[k];
    assert CountColor(ps, White) == 0 && CountColor(ps, Black) == 0 by {
      CountColorOccurs(ps, White);
      CountColorOccurs(ps, Black);
    }
  }

  /** The six pairs of a K4 with i1 < i2 < i3 < i4 are distinct edges. */
  lemma SixPairsAreEdges(q: Quad, n: int)
    requires IsQuad(q, n)
    ensures NoDup(SixPairs(q))
    ensures forall p :: p in SixPairs(q) ==> IsEdge(p, n)
  {
  }

  // ----- the enumeration of add_all_k4 -----

  /** The innermost loop: i4 from lo to n-1. */
  function Level4(n: int, i1: int, i2: int, i3: int, lo: int): seq<Quad>
    decreases n - lo
  {
    if lo >= n then [] else [Quad(i1, i2, i3, lo)] + Level4(n, i1, i2, i3, lo + 1)
  }

  /** The loop over i3 from lo, each followed by its i4 loop. */
  function Level3(n: int, i1: int, i2: int, lo: int): seq<Quad>
    decreases n - lo
  {
    if lo >= n then [] else Level4(n, i1, i2, lo, lo + 1) + Level3(n, i1, i2, lo + 1)
  }

  /** The loop over i2 from lo. */
  function Level2(n: int, i1: int, lo: int): seq<Quad>
    decreases n - lo
  {
    if lo >= n then [] else Level3(n, i1, lo, lo + 1) + Level2(n, i1, lo + 1)
  }

  /** The outer loop over i1 from lo. */
  function Level1(n: int, lo: int): seq<Quad>
    decreases n - lo
  {
    if lo >= n then [] else Level2(n, lo, lo + 1) + Level1(n, lo + 1)
  }

  /** Every call add_all_k4 makes to add_k4, in order. */
  function Quads(n: int): seq<Quad>
  {
    Level1(n, 0)
  }

  lemma {:induction false} Level4Length(n: int, i1: int, i2: int, i3: int, lo: int)
    requires lo <= n
    ensures |Level4(n, i1, i2, i3, lo)| == n - lo
    decreases n - lo
  {
    if lo < n {
      Level4Length(n, i1, i2, i3, lo + 1);
    }
  }

  lemma {:induction false} Level3Length(n: int, i1: int, i2: int, lo: int)
    requires lo <= n
    ensures 2 * |Level3(n, i1, i2, lo)| == (n - lo) * (n - lo - 1)
    decreases n - lo
  {
    if lo < n {
      var m := n - lo;
      Level4Length(n, i1, i2, lo, lo + 1);
      Level3Length(n, i1, i2, lo + 1);
      assert 2 * (m - 1) + (m - 1) * (m - 2) == m * (m - 1);
    }
  }

  lemma {:induction false} Level2Length(n: int, i1: int, lo: int)
    requires lo <= n
    ensures 6 * |Level2(n, i1, lo)| == (n - lo) * (n - lo - 1) * (n - lo - 2)
    decreases n - lo
  {
    if lo < n {
      Level3Length(n, i1, lo, lo + 1);
      Level2Length(n, i1, lo + 1);
      var a, b := |Level3(n, i1, lo, lo + 1)|, |Level2(n, i1, lo + 1)|;
      assert |Level2(n, i1, lo)| == a + b;
      ChooseThreeStep(n - lo, a, b);
    }
  }

  /** Pascal's rule for m(m-1)(m-2)/6, the number of ways to pick three of m. */
  lemma ChooseThreeStep(m: int, a: int, b: int)
    requires 2 * a == (m - 1) * (m - 2)
    requires 6 * b == (m - 1) * (m - 2) * (m - 3)
    ensures 6 * (a + b) == m * (m - 1) * (m - 2)
  {
    var x := (m - 1) * (m - 2);
    assert (m - 1) * (m - 2) * (m - 3) == x * (m - 3);
    assert m * (m - 1) * (m - 2) == x * m;
  }

  lemma {:induction false} Level1Length(n: int, lo: int)
    requires lo <= n
    ensures 24 * |Level1(n, lo)| == (n - lo) * (n - lo - 1) * (n - lo - 2) * (n - lo - 3)
    decreases n - lo
  {
    if lo < n {
      Level2Length(n, lo, lo + 1);
      Level1Length(n, lo + 1);
      var a, b := |Level2(n, lo, lo + 1)|, |Level1(n, lo + 1)|;
      assert |Level1(n, lo)| == a + b;
      ChooseFourStep(n - lo, a, b);
    }
  }

  /** Pascal's rule for m(m-1)(m-2)(m-3)/24, the number of ways to pick four of m. */
  lemma ChooseFourStep(m: int, a: int, b: int)
    requires 6 * a == (m - 1) * (m - 2) * (m - 3)
    requires 24 * b == (m - 1) * (m - 2) * (m - 3) * (m - 4)
    ensures 24 * (a + b) == m * (m - 1) * (m - 2) * (m - 3)
  {
    var x := (m - 1) * (m - 2) * (m - 3);
    assert (m - 1) * (m - 2) * (m - 3) * (m - 4) == x * (m - 4);
    assert m * (m - 1) * (m - 2) * (m - 3) == x * m;
  }

  /** add_all_k4 makes exactly C(N,4) = K records. */
  lemma QuadsLength(n: nat)
    ensures |Quads(n)| == K(n)
  {
    Level1Length(n, 0);
  }

  lemma {:induction false} Level4Members(n: int, i1: int, i2: int, i3: int, lo: int)
    ensures forall q :: q in Level4(n, i1, i2, i3, lo) <==>
      q.i1 == i1 && q.i2 == i2 && q.i3 == i3 && lo <= q.i4 < n
    decreases n - lo
  {
    if lo < n {
      Level4Members(n, i1, i2, i3, lo + 1);
    }
  }

  lemma {:induction false} Level3Members(n: int, i1: int, i2: int, lo: int)
    ensures forall q :: q in Level3(n, i1, i2, lo) <==>
      q.i1 == i1 && q.i2 == i2 && lo <= q.i3 < q.i4 < n
    decreases n - lo
  {
    if lo < n {
      Level4Members(n, i1, i2, lo, lo + 1);
      Level3Members(n, i1, i2, lo + 1);
    }
  }

  lemma {:induction false} Level2Members(n: int, i1: int, lo: int)
    ensures forall q :: q in Level2(n, i1, lo) <==>
      q.i1 == i1 && lo <= q.i2 < q.i3 < q.i4 < n
    decreases n - lo
  {
    if lo < n {
      Level3Members(n, i1, lo, lo + 1);
      Level2Members(n, i1, lo + 1);
    }
  }

  lemma {:induction false} Level1Members(n: int, lo: int)
    ensures forall q :: q in Level1(n, lo) <==> lo <= q.i1 < q.i2 < q.i3 < q.i4 < n
    decreases n - lo
  {
    if lo < n {
      Level2Members(n, lo, lo + 1);
      Level1Members(n, lo + 1);
    }
  }

  /** add_all_k4 creates a record for every strictly increasing quadruple and
      for nothing else. */
  lemma QuadsMembers(n: int)
    ensures forall q :: q in Quads(n) <==> IsQuad(q, n)
    ensures forall j :: 0 <= j < |Quads(n)| ==> IsQuad(Quads(n)[j], n)
  {
    Level1Members(n, 0);
  }

  /** Lexicographic order on quadruples. */
  predicate LexLess(a: Quad, b: Quad)
  {
    a.i1 < b.i1 || (a.i1 == b.i1 && (a.i2 < b.i2 || (a.i2 == b.i2 &&
    (a.i3 < b.i3 || (a.i3 == b.i3 && a.i4 < b.i4)))))
  }

  predicate LexSorted(qs: seq<Quad>)
  {
    forall i, j :: 0 <= i < j < |qs| ==> LexLess(qs[i], qs[j])
  }

  lemma SortedAppend(a: seq<Quad>, b: seq<Quad>)
    requires LexSorted(a) && LexSorted(b)
    requires forall x, y :: x in a && y in b ==> LexLess(x, y)
    ensures LexSorted(a + b)
  {
    forall i, j | 0 <= i < j < |a + b|
      ensures LexLess((a + b)[i], (a + b)[j])
    {
      if j < |a| {
      } else if i >= |a| {
        assert (a + b)[i] == b[i - |a|] && (a + b)[j] == b[j - |a|];
      } else {
        assert (a + b)[i] == a[i] && (a + b)[j] == b[j - |a|];
      }
    }
  }

  lemma {:induction false} Level4Sorted(n: int, i1: int, i2: int, i3: int, lo: int)
    ensures LexSorted(Level4(n, i1, i2, i3, lo))
    decreases n - lo
  {
    if lo < n {
      Level4Sorted(n, i1, i2, i3, lo + 1);
      Level4Members(n, i1, i2, i3, lo + 1);
      SortedAppend([Quad(i1, i2, i3, lo)], Level4(n, i1, i2, i3, lo + 1));
    }
  }

  lemma {:induction false} Level3Sorted(n: int, i1: int, i2: int, lo: int)
    ensures LexSorted(Level3(n, i1, i2, lo))
    decreases n - lo
  {
    if lo < n {
      Level4Sorted(n, i1, i2, lo, lo + 1);
      Level3Sorted(n, i1, i2, lo + 1);
      Level4Members(n, i1, i2, lo, lo + 1);
      Level3Members(n, i1, i2, lo + 1);
      SortedAppend(Level4(n, i1, i2, lo, lo + 1), Level3(n, i1, i2, lo + 1));
    }
  }

  lemma {:induction false} Level2Sorted(n: int, i1: int, lo: int)
    ensures LexSorted(Level2(n, i1, lo))
    decreases n - lo
  {
    if lo < n {
      Level3Sorted(n, i1, lo, lo + 1);
      Level2Sorted(n, i1, lo + 1);
      Level3Members(n, i1, lo, lo + 1);
      Level2Members(n, i1, lo + 1);
      SortedAppend(Level3(n, i1, lo, lo + 1), Level2(n, i1, lo + 1));
    }
  }

  lemma {:induction false} Level1Sorted(n: int, lo: int)
    ensures LexSorted(Level1(n, lo))
    decreases n - lo
  {
    if lo < n {
      Level2Sorted(n, lo, lo + 1);
      Level1Sorted(n, lo + 1);
      Level2Members(n, lo, lo + 1);
      Level1Members(n, lo + 1);
      SortedAppend(Level2(n, lo, lo + 1), Level1(n, lo + 1));
    }
  }

  /** The records are created in lexicographic order, so each quadruple is
      created exactly once. */
  lemma QuadsSorted(n: int)
    ensures LexSorted(Quads(n))
    ensures NoDup(Quads(n))
  {
    Level1Sorted(n, 0);
  }

  // ----- incidence lists -----

  /** The list `edge[p]` after add_k4 has run for the quadruples `qs`, the
      first of them becoming record `base`: each record containing `p` is
      prepended, so the newest comes first. */
  function Incidence(qs: seq<Quad>, p: Edge, base: nat): seq<nat>
  {
    if qs == [] then []
    else (if p in SixPairs(qs[|qs| - 1]) then [base + |qs| - 1] else [])
         + Incidence(qs[..|qs| - 1], p, base)
  }

  /** The records of a longer enumeration come first in the list. */
  lemma {:induction false} IncidenceAppend(qs: seq<Quad>, more: seq<Quad>, p: Edge, base: nat)
    ensures Incidence(qs + more, p, base) == Incidence(more, p, base + |qs|) + Incidence(qs, p, base)
  {
    if more == [] {
      assert qs + more == qs;
    } else {
      var m := more[..|more| - 1];
      IncidenceAppend(qs, m, p, base);
      assert (qs + more)[..|qs + more| - 1] == qs + m;
    }
  }

  /** The list of `p` names exactly the records whose K4 contains `p`, each
      once, newest first. */
  lemma {:induction false} IncidenceMembers(qs: seq<Quad>, p: Edge, base: nat)
    ensures forall j :: j in Incidence(qs, p, base) <==>
      base <= j < base + |qs| && p in SixPairs(qs[j - base])
    ensures forall i, j :: 0 <= i < j < |Incidence(qs, p, base)| ==>
      Incidence(qs, p, base)[i] > Incidence(qs, p, base)[j]
    ensures NoDup(Incidence(qs, p, base))
  {
    if qs != [] {
      var q := qs[..|qs| - 1];
      IncidenceMembers(q, p, base);
      assert forall j :: 0 <= j < |q| ==> q[j] == qs[j];
      var tail := Incidence(q, p, base);
      if p in SixPairs(qs[|qs| - 1]) {
        var l := [base + |qs| - 1] + tail;
        forall i, j | 0 <= i < j < |l|
          ensures l[i] > l[j]
        {
          assert l[j] == tail[j - 1] && tail[j - 1] in tail;
          if i > 0 {
            assert l[i] == tail[i - 1];
          }
        }
      }
    }
  }

  // ----- the length of each list -----

  /** The number of quadruples among `qs` that contain `p`. */
  function Hits(qs: seq<Quad>, p: Edge): nat
  {
    if qs == [] then 0
    else Hits(qs[..|qs| - 1], p) + (if p in SixPairs(qs[|qs| - 1]) then 1 else 0)
  }

  lemma {:induction false} HitsAppend(qs: seq<Quad>, more: seq<Quad>, p: Edge)
    ensures Hits(qs + more, p) == Hits(qs, p) + Hits(more, p)
  {
    if more == [] {
      assert qs + more == qs;
    } else {
      HitsAppend(qs, more[..|more| - 1], p);
      assert (qs + more)[..|qs + more| - 1] == qs + more[..|more| - 1];
    }
  }

  /** A list is as long as the number of K4s containing its edge. */
  lemma {:induction false} IncidenceHits(qs: seq<Quad>, p: Edge, base: nat)
    ensures |Incidence(qs, p, base)| == Hits(qs, p)
  {
    if qs != [] {
      IncidenceHits(qs[..|qs| - 1], p, base);
    }
  }

  /** C(m, 2), the number of ways to pick two of m, by Pascal's rule. */
  function Choose2(m: int): nat
  {
    if m <= 1 then 0 else (m - 1) + Choose2(m - 1)
  }

  lemma {:induction false} Choose2Closed(m: nat)
    ensures 2 * Choose2(m) == m * (m - 1)
  {
    if m > 1 {
      Choose2Closed(m - 1);
    }
  }

  /** How often the i4 loop for i1 < i2 < i3 < lo meets `p`: n - lo times
      when `p` is a pair of i1, i2, i3, once when `p` joins one of them to a
      vertex from lo on, and never otherwise. */
  function Level4Count(n: int, i1: int, i2: int, i3: int, lo: int, p: Edge): int
  {
    if (p.0 == i1 && (p.1 == i2 || p.1 == i3)) || (p.0 == i2 && p.1 == i3) then n - lo
    else if (p.0 == i1 || p.0 == i2 || p.0 == i3) && lo <= p.1 then 1
    else 0
  }

  /** The same for the i3 loop for i1 < i2 < lo: C(n - lo, 2) for (i1, i2),
      n - lo - 1 for an edge from i1 or i2 to a later vertex, one for an edge
      between later vertices. */
  function Level3Count(n: int, i1: int, i2: int, lo: int, p: Edge): int
  {
    if p.0 == i1 && p.1 == i2 then Choose2(n - lo)
    else if (p.0 == i1 || p.0 == i2) && lo <= p.1 then n - lo - 1
    else if lo <= p.0 then 1
    else 0
  }

  /** The same for the i2 loop for i1 < lo: C(n - lo - 1, 2) for an edge from
      i1 to a later vertex, n - lo - 2 for an edge between later vertices. */
  function Level2Count(n: int, i1: int, lo: int, p: Edge): int
  {
    if p.0 == i1 && lo <= p.1 then Choose2(n - lo - 1)
    else if lo <= p.0 then n - lo - 2
    else 0
  }

  /** The same for the i1 loop from lo: C(n - lo - 2, 2) for an edge between
      vertices from lo on. */
  function Level1Count(n: int, lo: int, p: Edge): int
  {
    if lo <= p.0 then Choose2(n - lo - 2) else 0
  }

  lemma Count4Step(n: int, i1: int, i2: int, i3: int, lo: int, p: Edge)
    requires i1 < i2 < i3 < lo < n && p.0 < p.1 < n
    ensures (if p in SixPairs(Quad(i1, i2, i3, lo)) then 1 else 0)
      + Level4Count(n, i1, i2, i3, lo + 1, p) == Level4Count(n, i1, i2, i3, lo, p)
  {
  }

  lemma Count3Step(n: int, i1: int, i2: int, lo: int, p: Edge)
    requires i1 < i2 < lo < n && p.0 < p.1 < n
    ensures Level4Count(n, i1, i2, lo, lo + 1, p) + Level3Count(n, i1, i2, lo + 1, p)
      == Level3Count(n, i1, i2, lo, p)
  {
    if p.0 == i1 && p.1 == i2 {
      assert Choose2(n - lo) == n - lo - 1 + Choose2(n - lo - 1);
    }
  }

  lemma Count2Step(n: int, i1: int, lo: int, p: Edge)
    requires i1 < lo < n && p.0 < p.1 < n
    ensures Level3Count(n, i1, lo, lo + 1, p) + Level2Count(n, i1, lo + 1, p)
      == Level2Count(n, i1, lo, p)
  {
    if p.0 == i1 && lo < p.1 {
      assert Choose2(n - lo - 1) == n - lo - 2 + Choose2(n - lo - 2);
    }
  }

  lemma Count1Step(n: int, lo: int, p: Edge)
    requires lo < n && p.0 < p.1 < n
    ensures Level2Count(n, lo, lo + 1, p) + Level1Count(n, lo + 1, p) == Level1Count(n, lo, p)
  {
    if lo < p.0 {
      assert Choose2(n - lo - 2) == n - lo - 3 + Choose2(n - lo - 3);
    }
  }

  lemma {:induction false} Level4Hits(n: int, i1: int, i2: int, i3: int, lo: int, p: Edge)
    requires i1 < i2 < i3 < lo <= n && p.0 < p.1 < n
    ensures Hits(Level4(n, i1, i2, i3, lo), p) == Level4Count(n, i1, i2, i3, lo, p)
    decreases n - lo
  {
    if lo < n {
      var q := Quad(i1, i2, i3, lo);
      Level4Hits(n, i1, i2, i3, lo + 1, p);
      HitsAppend([q], Level4(n, i1, i2, i3, lo + 1), p);
      assert [q][..0] == [];
      Count4Step(n, i1, i2, i3, lo, p);
    }
  }

  lemma {:induction false} Level3Hits(n: int, i1: int, i2: int, lo: int, p: Edge)
    requires i1 < i2 < lo <= n && p.0 < p.1 < n
    ensures Hits(Level3(n, i1, i2, lo), p) == Level3Count(n, i1, i2, lo, p)
    decreases n - lo
  {
    if lo < n {
      Level4Hits(n, i1, i2, lo, lo + 1, p);
      Level3Hits(n, i1, i2, lo + 1, p);
      HitsAppend(Level4(n, i1, i2, lo, lo + 1), Level3(n, i1, i2, lo + 1), p);
      Count3Step(n, i1, i2, lo, p);
    }
  }

  lemma {:induction false} Level2Hits(n: int, i1: int, lo: int, p: Edge)
    requires i1 < lo <= n && p.0 < p.1 < n
    ensures Hits(Level2(n, i1, lo), p) == Level2Count(n, i1, lo, p)
    decreases n - lo
  {
    if lo < n {
      Level3Hits(n, i1, lo, lo + 1, p);
      Level2Hits(n, i1, lo + 1, p);
      HitsAppend(Level3(n, i1, lo, lo + 1), Level2(n, i1, lo + 1), p);
      Count2Step(n, i1, lo, p);
    }
  }

  lemma {:induction false} Level1Hits(n: int, lo: int, p: Edge)
    requires lo <= n && p.0 < p.1 < n
    ensures Hits(Level1(n, lo), p) == Level1Count(n, lo, p)
    decreases n - lo
  {
    if lo < n {
      Level2Hits(n, lo, lo + 1, p);
      Level1Hits(n, lo + 1, p);
      HitsAppend(Level2(n, lo, lo + 1), Level1(n, lo + 1), p);
      Count1Step(n, lo, p);
    }
  }

  /** After add_all_k4 the list of every edge of K_n holds C(n - 2, 2)
      records: one for each choice of the other two vertices. */
  lemma IncidenceLength(n: int, p: Edge)
    requires IsEdge(p, n)
    ensures 2 * |Incidence(Quads(n), p, 0)| == (n - 2) * (n - 3)
  {
    Level1Hits(n, 0, p);
    IncidenceHits(Quads(n), p, 0);
    Choose2Closed(n - 2);
  }
}
