/** What the greedy engine computes, on values: the visiting order of
    `color_all_edges`, the running total, the change one hypothetical colour
    makes to it, and the state of the records while the edges are coloured. */
module Greedy {
  import opened Records
  import opened WeightModel
  import opened Hypergraph

  // ----- the visiting order -----

  /** Lexicographic order on edges. */
  predicate EdgeLess(p: Edge, q: Edge)
  {
    p.0 < q.0 || (p.0 == q.0 && p.1 < q.1)
  }

  /** The inner loop of color_all_edges: (s, lo), (s, lo + 1), ..., (s, n - 1). */
  function Row(n: int, s: int, lo: int): seq<Edge>
    decreases n - lo
  {
    if lo >= n then [] else [(s, lo)] + Row(n, s, lo + 1)
  }

  /** The outer loop from s = lo. */
  function Rows(n: int, lo: int): seq<Edge>
    decreases n - lo
  {
    if lo >= n then [] else Row(n, lo, lo + 1) + Rows(n, lo + 1)
  }

  /** The edges in the order color_all_edges colours them. */
  function EdgeOrder(n: int): seq<Edge>
  {
    Rows(n, 0)
  }

  predicate EdgeSorted(es: seq<Edge>)
  {
    forall i, j :: 0 <= i < j < |es| ==> EdgeLess(es[i], es[j])
  }

  lemma {:induction false} RowFacts(n: int, s: int, lo: int)
    ensures forall p :: p in Row(n, s, lo) <==> p.0 == s && lo <= p.1 < n
    ensures EdgeSorted(Row(n, s, lo))
    decreases n - lo
  {
    if lo < n {
      RowFacts(n, s, lo + 1);
      var r := Row(n, s, lo);
      forall i, j | 0 <= i < j < |r|
        ensures EdgeLess(r[i], r[j])
      {
        assert r[j] in Row(n, s, lo + 1);
      }
    }
  }

  lemma {:induction false} RowsFacts(n: int, lo: int)
    ensures forall p :: p in Rows(n, lo) <==> lo <= p.0 < p.1 < n
    ensures EdgeSorted(Rows(n, lo))
    decreases n - lo
  {
    if lo < n {
      RowFacts(n, lo, lo + 1);
      RowsFacts(n, lo + 1);
      var a, b := Row(n, lo, lo + 1), Rows(n, lo + 1);
      forall i, j | 0 <= i < j < |a + b|
        ensures EdgeLess((a + b)[i], (a + b)[j])
      {
        if i < |a| && j >= |a| {
          assert (a + b)[i] == a[i] && (a + b)[j] == b[j - |a|];
          assert a[i] in a && b[j - |a|] in b;
        } else if i >= |a| {
          assert (a + b)[i] == b[i - |a|] && (a + b)[j] == b[j - |a|];
        }
      }
    }
  }

  /** color_all_edges visits every edge s < e, in lexicographic order, and
      so each edge exactly once. */
  lemma EdgeOrderFacts(n: int)
    ensures forall p :: p in EdgeOrder(n) <==> IsEdge(p, n)
    ensures EdgeSorted(EdgeOrder(n))
    ensures NoDup(EdgeOrder(n))
  {
    RowsFacts(n, 0);
  }

  // ----- the total weight -----

  /** The sum of the stored weights of the records. */
  function SumWeights(recs: seq<K4Graph>): real
  {
    if recs == [] then 0.0 else SumWeights(recs[..|recs| - 1]) + recs[|recs| - 1].weight
  }

  /** Replacing one record changes the sum by the difference of its weights. */
  lemma {:induction false} SumWeightsUpdate(recs: seq<K4Graph>, j: nat, x: K4Graph)
    requires j < |recs|
    ensures SumWeights(recs[j := x]) == SumWeights(recs) - recs[j].weight + x.weight
  {
    var r := recs[j := x];
    var q := recs[..|recs| - 1];
    if j == |recs| - 1 {
      assert r[..|r| - 1] == q;
    } else {
      SumWeightsUpdate(q, j, x);
      assert r[..|r| - 1] == q[j := x];
    }
  }

  /** The sum depends on the weights alone. */
  lemma {:induction false} SumWeightsSame(a: seq<K4Graph>, b: seq<K4Graph>)
    requires |a| == |b|
    requires forall j :: 0 <= j < |a| ==> a[j].weight == b[j].weight
    ensures SumWeights(a) == SumWeights(b)
  {
    if a != [] {
      SumWeightsSame(a[..|a| - 1], b[..|b| - 1]);
    }
  }

  /** The initial total weight, K times 2^-5, is the sum of the initial
      weights of the records add_all_k4 creates. */
  lemma {:induction false} InitialTotal(n: nat)
    ensures SumWeights(NewK4s(Quads(n))) == K(n) as real * Pow2(-5)
  {
    QuadsLength(n);
    NewK4sSum(Quads(n));
  }

  lemma {:induction false} NewK4sSum(qs: seq<Quad>)
    ensures SumWeights(NewK4s(qs)) == |qs| as real * Pow2(-5)
  {
    if qs != [] {
      NewK4sSum(qs[..|qs| - 1]);
      assert NewK4s(qs)[..|qs| - 1] == NewK4s(qs[..|qs| - 1]);
    }
  }

  // ----- one hypothetical colour -----

  predicate IndicesBelow(l: seq<nat>, bound: int)
  {
    forall i :: 0 <= i < |l| ==> l[i] < bound
  }

  /** A record after set_edge_color: retagged, with its weight recomputed. */
  function Commit(r: K4Graph, p: Edge, c: Color): K4Graph
  {
    var ps := Recolor(r.edgePair, p, c);
    K4Graph(ps, Weight(ps))
  }

  /** What calculate_edge_color adds to the total for the records `l`: for each
      record, the weight after tagging `p` with `c` less its stored weight. */
  function Gain(recs: seq<K4Graph>, l: seq<nat>, p: Edge, c: Color): real
    requires IndicesBelow(l, |recs|)
  {
    if l == [] then 0.0
    else
      var j := l[|l| - 1];
      Gain(recs, l[..|l| - 1], p, c) + (Weight(Recolor(recs[j].edgePair, p, c)) - recs[j].weight)
  }

  /** A gain does not see an earlier speculative tag on `p`, nor anything
      else but the stored weight and the other tags. */
  lemma {:induction false} GainRetagged(a: seq<K4Graph>, b: seq<K4Graph>, l: seq<nat>, p: Edge, c: Color, d: Color)
    requires |a| == |b| && IndicesBelow(l, |a|)
    requires forall i :: 0 <= i < |l| ==> b[l[i]] == Retag(a[l[i]], p, d)
    ensures Gain(b, l, p, c) == Gain(a, l, p, c)
  {
    if l != [] {
      GainRetagged(a, b, l[..|l| - 1], p, c, d);
      RecolorOverwrites(a[l[|l| - 1]].edgePair, p, d, c);
    }
  }

  /** When `p` is still uncoloured in every listed record and the stored
      weights are current, the two hypothetical gains cancel: the two
      candidate totals average to the current total. */
  lemma {:induction false} GainsCancel(recs: seq<K4Graph>, l: seq<nat>, p: Edge)
    requires IndicesBelow(l, |recs|)
    requires forall i :: 0 <= i < |l| ==>
      Uncolored(recs[l[i]].edgePair, p) && recs[l[i]].weight == Weight(recs[l[i]].edgePair)
    ensures Gain(recs, l, p, White) + Gain(recs, l, p, Black) == 0.0
  {
    if l != [] {
      GainsCancel(recs, l[..|l| - 1], p);
      RecolorAverages(recs[l[|l| - 1]].edgePair, p);
    }
  }

  // ----- the state of the records -----

  /** What init_edge and add_all_k4 leave behind and colouring never changes:
      one record per quadruple, in creation order, with its six pairs, and for
      every edge its incidence list. */
  ghost predicate BuiltState(n: int, recs: seq<K4Graph>, edge: map<Edge, seq<nat>>)
  {
    && |recs| == |Quads(n)|
    && (forall j :: 0 <= j < |recs| ==> Endpoints(recs[j].edgePair) == SixPairs(Quads(n)[j]))
    && (forall p :: p in edge <==> IsEdge(p, n))
    && (forall p :: p in edge ==> edge[p] == Incidence(Quads(n), p, 0))
  }

  /** Every stored weight is the weight of its record's tags. */
  ghost predicate AllStored(recs: seq<K4Graph>)
  {
    forall j :: 0 <= j < |recs| ==> recs[j].weight == Weight(recs[j].edgePair)
  }

  lemma BuiltFacts(n: int, recs: seq<K4Graph>, edge: map<Edge, seq<nat>>)
    requires BuiltState(n, recs, edge)
    ensures forall j :: 0 <= j < |recs| ==>
      |recs[j].edgePair| == 6 && NoDup(Endpoints(recs[j].edgePair))
    ensures forall j, k :: 0 <= j < |recs| && 0 <= k < |recs[j].edgePair| ==>
      IsEdge(Pair(recs[j].edgePair[k]), n)
    ensures forall p :: p in edge ==> NoDup(edge[p]) && IndicesBelow(edge[p], |recs|)
    ensures forall p, j :: p in edge ==>
      (j in edge[p] <==> 0 <= j < |recs| && p in Endpoints(recs[j].edgePair))
  {
    QuadsMembers(n);
    forall j | 0 <= j < |recs|
      ensures |recs[j].edgePair| == 6 && NoDup(Endpoints(recs[j].edgePair))
      ensures forall k :: 0 <= k < |recs[j].edgePair| ==> IsEdge(Pair(recs[j].edgePair[k]), n)
    {
      SixPairsAreEdges(Quads(n)[j], n);
      assert |Endpoints(recs[j].edgePair)| == 6;
      forall k | 0 <= k < |recs[j].edgePair|
        ensures IsEdge(Pair(recs[j].edgePair[k]), n)
      {
        assert Endpoints(recs[j].edgePair)[k] in SixPairs(Quads(n)[j]);
      }
    }
    forall p | p in edge
      ensures NoDup(edge[p]) && IndicesBelow(edge[p], |recs|)
      ensures forall j :: j in edge[p] <==> 0 <= j < |recs| && p in Endpoints(recs[j].edgePair)
    {
      IncidenceMembers(Quads(n), p, 0);
      forall i | 0 <= i < |edge[p]|
        ensures edge[p][i] < |recs|
      {
        assert edge[p][i] in edge[p];
      }
    }
  }

  /** What a walk over the list of `p` needs: the indices name records, and
      each of those records has six slots. */
  ghost predicate Walkable(recs: seq<K4Graph>, l: seq<nat>)
  {
    IndicesBelow(l, |recs|) && forall i :: 0 <= i < |l| ==> |recs[l[i]].edgePair| == 6
  }

  lemma ListFacts(n: int, recs: seq<K4Graph>, edge: map<Edge, seq<nat>>, p: Edge)
    requires BuiltState(n, recs, edge) && p in edge
    ensures Walkable(recs, edge[p])
  {
    BuiltFacts(n, recs, edge);
  }

  /** Once the build is done, every edge lies in C(n - 2, 2) of the K4s: its
      list has (n - 2)(n - 3) / 2 entries. */
  lemma ListLengths(n: int, recs: seq<K4Graph>, edge: map<Edge, seq<nat>>)
    requires BuiltState(n, recs, edge)
    ensures forall p :: p in edge ==> 2 * |edge[p]| == (n - 2) * (n - 3)
  {
    forall p | p in edge
      ensures 2 * |edge[p]| == (n - 2) * (n - 3)
    {
      IncidenceLength(n, p);
    }
  }

  /** The records after calculate_edge_color(p, c) has walked the list `l`,
      one record at a time: each listed record retagged, its stored weight
      kept. */
  function Probed(recs: seq<K4Graph>, l: seq<nat>, p: Edge, c: Color): (r: seq<K4Graph>)
    requires IndicesBelow(l, |recs|)
    ensures |r| == |recs|
  {
    if l == [] then recs
    else
      var prev, j := Probed(recs, l[..|l| - 1], p, c), l[|l| - 1];
      prev[j := Retag(prev[j], p, c)]
  }

  /** The records after set_edge_color(p, c) has walked the list `l`: each
      listed record retagged and its weight recomputed. */
  function Committed(recs: seq<K4Graph>, l: seq<nat>, p: Edge, c: Color): (r: seq<K4Graph>)
    requires IndicesBelow(l, |recs|)
    ensures |r| == |recs|
  {
    if l == [] then recs
    else
      var prev, j := Committed(recs, l[..|l| - 1], p, c), l[|l| - 1];
      prev[j := Commit(prev[j], p, c)]
  }

  /** Record by record, a probe retags exactly the listed records; a record
      listed twice is retagged the same way twice, which changes nothing more. */
  lemma {:induction false} ProbedAt(recs: seq<K4Graph>, l: seq<nat>, p: Edge, c: Color)
    requires IndicesBelow(l, |recs|)
    ensures forall j :: 0 <= j < |recs| ==>
      Probed(recs, l, p, c)[j] == if j in l then Retag(recs[j], p, c) else recs[j]
  {
    if l != [] {
      var front, last := l[..|l| - 1], l[|l| - 1];
      ProbedAt(recs, front, p, c);
      assert l == front + [last];
      RecolorOverwrites(recs[last].edgePair, p, c, c);
    }
  }

  /** Record by record, a commit retags and reweighs exactly the listed records. */
  lemma {:induction false} CommittedAt(recs: seq<K4Graph>, l: seq<nat>, p: Edge, c: Color)
    requires IndicesBelow(l, |recs|)
    ensures forall j :: 0 <= j < |recs| ==>
      Committed(recs, l, p, c)[j] == if j in l then Commit(recs[j], p, c) else recs[j]
  {
    if l != [] {
      var front, last := l[..|l| - 1], l[|l| - 1];
      CommittedAt(recs, front, p, c);
      assert l == front + [last];
      RecolorOverwrites(recs[last].edgePair, p, c, c);
    }
  }

  /** The next step of calculate_edge_color: the next listed record still has
      six slots and its stored weight, retagging it gives what retagging it in
      the starting records gives, and it adds its change to the gain. */
  lemma ProbeNext(start: seq<K4Graph>, l: seq<nat>, i: nat, p: Edge, c: Color)
    requires Walkable(start, l) && i < |l|
    ensures var cur := Probed(start, l[..i], p, c)[l[i]];
      && |cur.edgePair| == 6 && |Retag(cur, p, c).edgePair| == 6
      && cur.weight == start[l[i]].weight
      && Weight(Retag(cur, p, c).edgePair) == Weight(Recolor(start[l[i]].edgePair, p, c))
    ensures Probed(start, l[..i + 1], p, c)
      == Probed(start, l[..i], p, c)[l[i] := Retag(Probed(start, l[..i], p, c)[l[i]], p, c)]
    ensures Gain(start, l[..i + 1], p, c)
      == Gain(start, l[..i], p, c) + (Weight(Recolor(start[l[i]].edgePair, p, c)) - start[l[i]].weight)
  {
    var ps := start[l[i]].edgePair;
    ProbedAt(start, l[..i], p, c);
    RecolorChangesFirstMatchOnly(ps, p, c);
    RecolorChangesFirstMatchOnly(Recolor(ps, p, c), p, c);
    RecolorOverwrites(ps, p, c, c);
    assert l[..i + 1][..i] == l[..i];
  }

  /** The next step of set_edge_color: the next listed record still has six
      slots, and it is committed. */
  lemma CommitNext(start: seq<K4Graph>, l: seq<nat>, i: nat, p: Edge, c: Color)
    requires Walkable(start, l) && i < |l|
    ensures |Committed(start, l[..i], p, c)[l[i]].edgePair| == 6
    ensures |Retag(Committed(start, l[..i], p, c)[l[i]], p, c).edgePair| == 6
    ensures Committed(start, l[..i + 1], p, c)
      == Committed(start, l[..i], p, c)[l[i] := Commit(Committed(start, l[..i], p, c)[l[i]], p, c)]
  {
    var ps := start[l[i]].edgePair;
    CommittedAt(start, l[..i], p, c);
    RecolorChangesFirstMatchOnly(ps, p, c);
    RecolorChangesFirstMatchOnly(Recolor(ps, p, c), p, c);
    assert l[..i + 1][..i] == l[..i];
  }

  /** A commit over a list without repetitions moves the sum of the stored
      weights by the gain the probe of the same colour computes. */
  lemma {:induction false} CommittedSum(start: seq<K4Graph>, l: seq<nat>, p: Edge, c: Color)
    requires NoDup(l) && IndicesBelow(l, |start|)
    ensures SumWeights(Committed(start, l, p, c)) == SumWeights(start) + Gain(start, l, p, c)
  {
    if l != [] {
      var front, last := l[..|l| - 1], l[|l| - 1];
      CommittedSum(start, front, p, c);
      CommittedAt(start, front, p, c);
      assert last !in front by {
        assert l[|l| - 1] == last;
      }
      var prev := Committed(start, front, p, c);
      SumWeightsUpdate(prev, last, Commit(prev[last], p, c));
    }
  }

  // ----- one color_edge call -----

  /** What one color_edge call leaves: the records, the total weight, and the
      colour it committed. */
  datatype Outcome = Outcome(recs: seq<K4Graph>, total: real, color: Color)

  /** color_edge(p) on the records `recs` with total `total`, `l` being the
      list of `p`: the colour whose candidate total is smaller, White on a tie,
      is committed and its candidate total becomes the total. */
  function ColorEdgeStep(recs: seq<K4Graph>, l: seq<nat>, total: real, p: Edge): (r: Outcome)
    requires IndicesBelow(l, |recs|)
    ensures IsColor(r.color)
    ensures r.total <= total + Gain(recs, l, p, White) && r.total <= total + Gain(recs, l, p, Black)
    ensures r.total == total + Gain(recs, l, p, r.color)
    ensures r.color == White <==> Gain(recs, l, p, White) <= Gain(recs, l, p, Black)
    ensures r.recs == Committed(recs, l, p, r.color)
  {
    var white := total + Gain(recs, l, p, White);
    var black := total + Gain(recs, l, p, Black);
    if white <= black then Outcome(Committed(recs, l, p, White), white, White)
    else Outcome(Committed(recs, l, p, Black), black, Black)
  }

  /** The two probes of color_edge: probing keeps the records walkable, the
      Black probe sees the records as they were before the White one, and
      after both the records are as if only Black had been tried. */
  lemma TwoProbes(start: seq<K4Graph>, l: seq<nat>, p: Edge)
    requires Walkable(start, l)
    ensures Walkable(Probed(start, l, p, White), l)
    ensures Probed(Probed(start, l, p, White), l, p, Black) == Probed(start, l, p, Black)
    ensures Walkable(Probed(start, l, p, Black), l)
    ensures Gain(Probed(start, l, p, White), l, p, Black) == Gain(start, l, p, Black)
  {
    var afterWhite, afterBlack := Probed(start, l, p, White), Probed(start, l, p, Black);
    ProbedAt(start, l, p, White);
    ProbedAt(start, l, p, Black);
    ProbedAt(afterWhite, l, p, Black);
    forall j | 0 <= j < |start|
      ensures Probed(afterWhite, l, p, Black)[j] == afterBlack[j]
    {
      RecolorOverwrites(start[j].edgePair, p, White, Black);
    }
    forall i | 0 <= i < |l|
      ensures |afterWhite[l[i]].edgePair| == 6 && |afterBlack[l[i]].edgePair| == 6
      ensures afterWhite[l[i]] == Retag(start[l[i]], p, White)
    {
      assert l[i] in l;
      RecolorChangesFirstMatchOnly(start[l[i]].edgePair, p, White);
      RecolorChangesFirstMatchOnly(start[l[i]].edgePair, p, Black);
    }
    GainRetagged(start, afterWhite, l, p, Black, White);
  }

  /** Committing over a Black probe is committing from the start: the commit
      overwrites the speculative tag. */
  lemma CommitOverProbe(start: seq<K4Graph>, l: seq<nat>, p: Edge, c: Color)
    requires IndicesBelow(l, |start|)
    ensures Committed(Probed(start, l, p, Black), l, p, c) == Committed(start, l, p, c)
  {
    var afterBlack := Probed(start, l, p, Black);
    ProbedAt(start, l, p, Black);
    CommittedAt(afterBlack, l, p, c);
    CommittedAt(start, l, p, c);
    forall j | 0 <= j < |start|
      ensures Committed(afterBlack, l, p, c)[j] == Committed(start, l, p, c)[j]
    {
      RecolorOverwrites(start[j].edgePair, p, Black, c);
    }
  }

  // ----- the greedy pass as a fold -----

  /** What the pass carries from one color_edge call to the next: the
      records, the total weight, and the colour committed for each edge
      so far. */
  datatype Pass = Pass(recs: seq<K4Graph>, total: real, palette: map<Edge, Color>)

  /** color_edge(p) on the state `st`, recording the colour it commits. An
      edge whose list does not name records of `st` (which the built state
      rules out) leaves the state as it is. */
  function ColorEdgeOn(edge: map<Edge, seq<nat>>, st: Pass, p: Edge): (r: Pass)
    ensures |r.recs| == |st.recs|
  {
    if p in edge && IndicesBelow(edge[p], |st.recs|) then
      var r := ColorEdgeStep(st.recs, edge[p], st.total, p);
      Pass(r.recs, r.total, st.palette[p := r.color])
    else st
  }

  /** color_edge applied to the edges `es` one after the other, from `st`. */
  function ColorEdges(edge: map<Edge, seq<nat>>, st: Pass, es: seq<Edge>): (r: Pass)
    ensures |r.recs| == |st.recs|
    decreases |es|
  {
    if es == [] then st else ColorEdges(edge, ColorEdgeOn(edge, st, es[0]), es[1..])
  }

  /** The rows of color_all_edges from s = lo, one row after the other. */
  function ColorRows(edge: map<Edge, seq<nat>>, st: Pass, n: int, lo: int): (r: Pass)
    ensures |r.recs| == |st.recs|
    decreases n - lo
  {
    if lo >= n then st else ColorRows(edge, ColorEdges(edge, st, Row(n, lo, lo + 1)), n, lo + 1)
  }

  /** Colouring `a` and then `b` is colouring `a + b`. */
  lemma {:induction false} ColorEdgesAppend(edge: map<Edge, seq<nat>>, st: Pass, a: seq<Edge>, b: seq<Edge>)
    ensures ColorEdges(edge, st, a + b) == ColorEdges(edge, ColorEdges(edge, st, a), b)
    decreases |a|
  {
    if a == [] {
      assert a + b == b;
    } else {
      ColorEdgesAppend(edge, ColorEdgeOn(edge, st, a[0]), a[1..], b);
      assert (a + b)[0] == a[0] && (a + b)[1..] == a[1..] + b;
    }
  }

  /** One step of the inner loop: colouring row s from e on is colour_edge(s, e)
      followed by the row from e + 1. */
  lemma RowStep(edge: map<Edge, seq<nat>>, st: Pass, n: int, s: int, e: int)
    requires e < n
    ensures ColorEdges(edge, st, Row(n, s, e)) == ColorEdges(edge, ColorEdgeOn(edge, st, (s, e)), Row(n, s, e + 1))
  {
    assert Row(n, s, e)[0] == (s, e) && Row(n, s, e)[1..] == Row(n, s, e + 1);
  }

  /** One step of the outer loop: colouring the rows from s on is colouring
      row s, then the rows from s + 1 on. */
  lemma RowsSplit(edge: map<Edge, seq<nat>>, st: Pass, n: int, s: int)
    requires s < n
    ensures ColorEdges(edge, st, Rows(n, s))
      == ColorEdges(edge, ColorEdges(edge, st, Row(n, s, s + 1)), Rows(n, s + 1))
  {
    ColorEdgesAppend(edge, st, Row(n, s, s + 1), Rows(n, s + 1));
  }

  /** Colouring row after row is colouring the whole order edge after edge. */
  lemma {:induction false} ColorRowsInOrder(edge: map<Edge, seq<nat>>, st: Pass, n: int, lo: int)
    ensures ColorRows(edge, st, n, lo) == ColorEdges(edge, st, Rows(n, lo))
    decreases n - lo
  {
    if lo < n {
      ColorRowsInOrder(edge, ColorEdges(edge, st, Row(n, lo, lo + 1)), n, lo + 1);
      ColorEdgesAppend(edge, st, Row(n, lo, lo + 1), Rows(n, lo + 1));
    }
  }

  /** The pass commits a colour only for the edges it visits; every other
      edge keeps the colour it had. */
  lemma {:induction false} ColorEdgesElsewhere(edge: map<Edge, seq<nat>>, st: Pass, es: seq<Edge>)
    ensures forall q :: q in ColorEdges(edge, st, es).palette ==> q in st.palette || q in es
    ensures forall q :: q in st.palette && q !in es ==>
      q in ColorEdges(edge, st, es).palette && ColorEdges(edge, st, es).palette[q] == st.palette[q]
    decreases |es|
  {
    if es != [] {
      ColorEdgesElsewhere(edge, ColorEdgeOn(edge, st, es[0]), es[1..]);
      assert forall q :: q in es[1..] ==> q in es;
      assert es == [es[0]] + es[1..];
    }
  }

  /** The lists add_all_k4 leaves: every edge of K_n with the indices of the
      records containing it. */
  function BuiltEdges(n: int): map<Edge, seq<nat>>
  {
    map p | p in EdgeOrder(n) :: Incidence(Quads(n), p, 0)
  }

  /** The whole run from the static initial values: the records add_all_k4
      creates, the initial total K * 2^-5 and no colour yet, then
      color_all_edges. */
  function GreedyPass(n: int): Pass
  {
    ColorEdges(BuiltEdges(n), Pass(NewK4s(Quads(n)), K(n) as real / 32.0, map[]), EdgeOrder(n))
  }

  /** A pass over the edge order from the built records, lists, initial total
      and no colour is `GreedyPass`. */
  lemma GreedyPassFrom(n: int, edge: map<Edge, seq<nat>>, st: Pass, r: Pass)
    requires edge == BuiltEdges(n) && st == Pass(NewK4s(Quads(n)), K(n) as real / 32.0, map[])
    requires r == ColorEdges(edge, st, EdgeOrder(n))
    ensures r == GreedyPass(n)
  {
  }

  /** Lists with the keys and contents add_all_k4 leaves are `BuiltEdges`. */
  lemma BuiltEdgesAre(n: int, edge: map<Edge, seq<nat>>)
    requires forall p :: p in edge <==> IsEdge(p, n)
    requires forall p :: p in edge ==> edge[p] == Incidence(Quads(n), p, 0)
    ensures edge == BuiltEdges(n)
  {
    EdgeOrderFacts(n);
    assert edge.Keys == BuiltEdges(n).Keys;
  }

  /** color_edge keeps the built state and the stored weights current, keeps
      the total equal to the sum of the stored weights, and tags exactly the
      slots of `p` with the colour it chose. */
  lemma ColorEdgeKeeps(n: int, edge: map<Edge, seq<nat>>, recs: seq<K4Graph>, total: real, p: Edge)
    requires BuiltState(n, recs, edge) && AllStored(recs) && total == SumWeights(recs) && p in edge
    ensures IndicesBelow(edge[p], |recs|)
    ensures var r := ColorEdgeStep(recs, edge[p], total, p);
      && BuiltState(n, r.recs, edge)
      && AllStored(r.recs)
      && r.total == SumWeights(r.recs)
      && Painted(recs, r.recs, p, r.color)
  {
    BuiltFacts(n, recs, edge);
    var c := ColorEdgeStep(recs, edge[p], total, p).color;
    CommittedSum(recs, edge[p], p, c);
    CommittedAt(recs, edge[p], p, c);
    CommitAllRecords(n, edge, recs, p, c);
    CommitPaints(n, edge, recs, p, c);
  }

  /** The guarantee of the method of conditional expectations: on an edge not
      yet coloured, color_edge never raises the total. */
  lemma ColorEdgeNoWorse(n: int, edge: map<Edge, seq<nat>>, recs: seq<K4Graph>, total: real, p: Edge)
    requires BuiltState(n, recs, edge) && AllStored(recs) && p in edge
    requires forall j :: 0 <= j < |recs| ==> Uncolored(recs[j].edgePair, p)
    ensures IndicesBelow(edge[p], |recs|)
    ensures ColorEdgeStep(recs, edge[p], total, p).total <= total
  {
    BuiltFacts(n, recs, edge);
    GainsCancel(recs, edge[p], p);
  }

  /** A commit tags exactly the slots standing for `p`. */
  lemma CommitPaints(n: int, edge: map<Edge, seq<nat>>, start: seq<K4Graph>, p: Edge, c: Color)
    requires BuiltState(n, start, edge) && p in edge && IndicesBelow(edge[p], |start|)
    ensures Painted(start, Committed(start, edge[p], p, c), p, c)
  {
    BuiltFacts(n, start, edge);
    var final := Committed(start, edge[p], p, c);
    CommittedAt(start, edge[p], p, c);
    forall j | 0 <= j < |start|
      ensures |final[j].edgePair| == |start[j].edgePair|
      ensures forall k :: 0 <= k < |start[j].edgePair| ==>
        Pair(final[j].edgePair[k]) == Pair(start[j].edgePair[k]) &&
        final[j].edgePair[k].color ==
          (if Matches(start[j].edgePair[k], p) then c else start[j].edgePair[k].color)
    {
      if j in edge[p] {
        CommitSlots(start[j], p, c);
      } else {
        AbsentSlots(start[j], p);
      }
    }
  }

  /** Slot by slot, a commit on a record with distinct endpoints. */
  lemma CommitSlots(r: K4Graph, p: Edge, c: Color)
    requires NoDup(Endpoints(r.edgePair))
    ensures |Commit(r, p, c).edgePair| == |r.edgePair|
    ensures forall k :: 0 <= k < |r.edgePair| ==>
      Pair(Commit(r, p, c).edgePair[k]) == Pair(r.edgePair[k]) &&
      Commit(r, p, c).edgePair[k].color == (if Matches(r.edgePair[k], p) then c else r.edgePair[k].color)
  {
    var ps := r.edgePair;
    RecolorDistinct(ps, p, c);
    forall k | 0 <= k < |ps|
      ensures Pair(Recolor(ps, p, c)[k]) == Pair(ps[k])
    {
      assert Endpoints(Recolor(ps, p, c))[k] == Endpoints(ps)[k];
    }
  }

  /** A record without `p` has no slot standing for it. */
  lemma AbsentSlots(r: K4Graph, p: Edge)
    requires p !in Endpoints(r.edgePair)
    ensures forall k :: 0 <= k < |r.edgePair| ==> !Matches(r.edgePair[k], p)
  {
    forall k | 0 <= k < |r.edgePair|
      ensures !Matches(r.edgePair[k], p)
    {
      assert Endpoints(r.edgePair)[k] == Pair(r.edgePair[k]);
    }
  }

  /** Committing a colour keeps the built state. */
  lemma CommitAllRecords(n: int, edge: map<Edge, seq<nat>>, start: seq<K4Graph>, p: Edge, c: Color)
    requires BuiltState(n, start, edge) && p in edge && IndicesBelow(edge[p], |start|)
    ensures BuiltState(n, Committed(start, edge[p], p, c), edge)
  {
    var final := Committed(start, edge[p], p, c);
    CommittedAt(start, edge[p], p, c);
    forall j | 0 <= j < |final|
      ensures Endpoints(final[j].edgePair) == Endpoints(start[j].edgePair)
    {
      RecolorChangesFirstMatchOnly(start[j].edgePair, p, c);
    }
  }

  // ----- progress of color_all_edges -----

  /** The edges before the cursor `cur` have been coloured as `palette` says;
      every other slot is still Init. */
  ghost predicate PaintedBefore(recs: seq<K4Graph>, palette: map<Edge, Color>, n: int, cur: Edge)
  {
    && (forall q :: q in palette <==> IsEdge(q, n) && EdgeLess(q, cur))
    && (forall q :: q in palette ==> IsColor(palette[q]))
    && (forall j, k :: 0 <= j < |recs| && 0 <= k < |recs[j].edgePair| ==>
          recs[j].edgePair[k].color ==
            (if Pair(recs[j].edgePair[k]) in palette then palette[Pair(recs[j].edgePair[k])] else Init))
  }

  /** Before any edge is coloured the cursor stands at (0, 1). */
  lemma PaintStart(n: int, recs: seq<K4Graph>, edge: map<Edge, seq<nat>>)
    requires BuiltState(n, recs, edge)
    requires forall j, k :: 0 <= j < |recs| && 0 <= k < |recs[j].edgePair| ==> recs[j].edgePair[k].color == Init
    ensures PaintedBefore(recs, map[], n, (0, 1))
  {
    BuiltFacts(n, recs, edge);
  }

  /** `b` is `a` with every slot standing for `p` tagged `c`: same records,
      same endpoints, every other tag kept. */
  ghost predicate Painted(a: seq<K4Graph>, b: seq<K4Graph>, p: Edge, c: Color)
  {
    && |a| == |b|
    && (forall j :: 0 <= j < |a| ==> |b[j].edgePair| == |a[j].edgePair|)
    && (forall j, k :: 0 <= j < |a| && 0 <= k < |a[j].edgePair| ==>
          Pair(b[j].edgePair[k]) == Pair(a[j].edgePair[k]) &&
          b[j].edgePair[k].color == (if Matches(a[j].edgePair[k], p) then c else a[j].edgePair[k].color))
  }

  /** Colouring the edge at the cursor moves the cursor one place along the row. */
  lemma CursorStep(a: seq<K4Graph>, b: seq<K4Graph>, palette: map<Edge, Color>, n: int, p: Edge, c: Color)
    requires PaintedBefore(a, palette, n, p) && IsEdge(p, n) && IsColor(c)
    requires Painted(a, b, p, c)
    ensures PaintedBefore(b, palette[p := c], n, (p.0, p.1 + 1))
  {
    var pal := palette[p := c];
    forall j, k | 0 <= j < |b| && 0 <= k < |b[j].edgePair|
      ensures b[j].edgePair[k].color ==
        (if Pair(b[j].edgePair[k]) in pal then pal[Pair(b[j].edgePair[k])] else Init)
    {
      assert Pair(b[j].edgePair[k]) == Pair(a[j].edgePair[k]);
    }
  }

  /** One color_edge call at the cursor of color_all_edges: the edge is still
      uncoloured, so the total does not grow; the built state, the stored
      weights and the balance are kept; and the cursor moves one place. */
  lemma ColorEdgeProgress(n: int, edge: map<Edge, seq<nat>>, recs: seq<K4Graph>, total: real,
                          palette: map<Edge, Color>, p: Edge)
    requires BuiltState(n, recs, edge) && AllStored(recs) && total == SumWeights(recs)
    requires IsEdge(p, n) && PaintedBefore(recs, palette, n, p)
    ensures p in edge && Walkable(recs, edge[p])
    ensures var r := ColorEdgeStep(recs, edge[p], total, p);
      && BuiltState(n, r.recs, edge) && AllStored(r.recs) && r.total == SumWeights(r.recs)
      && r.total <= total
      && PaintedBefore(r.recs, palette[p := r.color], n, (p.0, p.1 + 1))
  {
    ListFacts(n, recs, edge, p);
    ColorEdgeKeeps(n, edge, recs, total, p);
    ColorEdgeNoWorse(n, edge, recs, total, p);
    var r := ColorEdgeStep(recs, edge[p], total, p);
    CursorStep(recs, r.recs, palette, n, p, r.color);
  }

  /** At the end of a row the cursor moves to the start of the next one. */
  lemma RowEnd(recs: seq<K4Graph>, palette: map<Edge, Color>, n: int, s: int)
    requires PaintedBefore(recs, palette, n, (s, n))
    ensures PaintedBefore(recs, palette, n, (s + 1, s + 2))
  {
  }

  /** The end state of color_all_edges: the palette gives every edge of K_n
      one of the two colours, every slot carries the colour of its edge, and
      no slot is Init any more. */
  ghost predicate ColoredAs(recs: seq<K4Graph>, palette: map<Edge, Color>, n: int)
  {
    && (forall q :: q in palette <==> IsEdge(q, n))
    && (forall q :: q in palette ==> IsColor(palette[q]))
    && (forall j, k :: 0 <= j < |recs| && 0 <= k < |recs[j].edgePair| ==>
          Pair(recs[j].edgePair[k]) in palette &&
          recs[j].edgePair[k].color == palette[Pair(recs[j].edgePair[k])])
    && (forall j :: 0 <= j < |recs| ==> FullyColored(recs[j].edgePair))
  }

  /** When the cursor is past the last row, every slot is coloured as the
      palette says, and the palette colours every edge. */
  lemma PaintEnd(n: int, recs: seq<K4Graph>, edge: map<Edge, seq<nat>>, palette: map<Edge, Color>)
    requires BuiltState(n, recs, edge) && PaintedBefore(recs, palette, n, (n, n + 1))
    ensures ColoredAs(recs, palette, n)
  {
    BuiltFacts(n, recs, edge);
    forall j | 0 <= j < |recs|
      ensures FullyColored(recs[j].edgePair)
    {
      forall k | 0 <= k < |recs[j].edgePair|
        ensures recs[j].edgePair[k].color != Init
      {
        assert IsEdge(Pair(recs[j].edgePair[k]), n);
      }
    }
  }

  /** What init_edge and add_all_k4 leave: the built state, every record
      untagged with its initial weight, and the sum of the weights equal to
      the initial total K * 2^-5. */
  lemma BuiltStart(n: nat, recs: seq<K4Graph>, edge: map<Edge, seq<nat>>, total: real)
    requires recs == NewK4s(Quads(n))
    requires forall p :: p in edge <==> IsEdge(p, n)
    requires forall p :: p in edge ==> edge[p] == Incidence(Quads(n), p, 0)
    requires total == K(n) as real / 32.0
    ensures BuiltState(n, recs, edge) && AllStored(recs)
    ensures SumWeights(recs) == total
    ensures forall j, k :: 0 <= j < |recs| && 0 <= k < |recs[j].edgePair| ==> recs[j].edgePair[k].color == Init
  {
    InitialTotal(n);
    assert Pow2(-5) == 1.0 / 32.0;
    forall j | 0 <= j < |recs|
      ensures Endpoints(recs[j].edgePair) == SixPairs(Quads(n)[j])
      ensures recs[j].weight == Weight(recs[j].edgePair)
      ensures forall k :: 0 <= k < |recs[j].edgePair| ==> recs[j].edgePair[k].color == Init
    {
      NewK4Shape(Quads(n)[j]);
    }
  }

  // ----- the final count -----

  /** Under an edge colouring, all six edges of `q` have one colour. */
  ghost predicate MonoUnder(palette: map<Edge, Color>, q: Quad)
  {
    (q.i1, q.i2) in palette &&
    forall p :: p in SixPairs(q) ==> p in palette && palette[p] == palette[(q.i1, q.i2)]
  }

  /** The number of monochromatic K4s among `qs`, by enumeration. */
  ghost function MonoCount(palette: map<Edge, Color>, qs: seq<Quad>): (r: nat)
    ensures r <= |qs|
  {
    if qs == [] then 0
    else MonoCount(palette, qs[..|qs| - 1]) + (if MonoUnder(palette, qs[|qs| - 1]) then 1 else 0)
  }

  /** A record whose tags follow the palette is monochromatic exactly when its
      K4 is monochromatic under the palette. */
  lemma MonochromaticUnder(r: K4Graph, palette: map<Edge, Color>, q: Quad)
    requires Endpoints(r.edgePair) == SixPairs(q)
    requires forall p :: p in palette ==> IsColor(palette[p])
    requires forall k :: 0 <= k < |r.edgePair| ==>
      Pair(r.edgePair[k]) in palette && r.edgePair[k].color == palette[Pair(r.edgePair[k])]
    ensures Monochromatic(r.edgePair) <==> MonoUnder(palette, q)
  {
    var ps := r.edgePair;
    assert |ps| == 6;
    assert forall k :: 0 <= k < 6 ==> Pair(ps[k]) == SixPairs(q)[k];
    if MonoUnder(palette, q) {
      var c := palette[(q.i1, q.i2)];
      assert forall k :: 0 <= k < 6 ==> ps[k].color == c by {
        forall k | 0 <= k < 6
          ensures ps[k].color == c
        {
          assert SixPairs(q)[k] in SixPairs(q);
        }
      }
      assert AllTagged(ps, c);
    }
    if Monochromatic(ps) {
      assert Pair(ps[0]) == (q.i1, q.i2);
      forall p | p in SixPairs(q)
        ensures p in palette && palette[p] == palette[(q.i1, q.i2)]
      {
        var k :| 0 <= k < 6 && SixPairs(q)[k] == p;
        assert ps[k].color == ps[0].color;
      }
    }
  }

  /** Once every stored weight is the indicator of its K4 being monochromatic,
      the total is the number of monochromatic K4s. */
  lemma {:induction false} SumIsMonoCount(recs: seq<K4Graph>, palette: map<Edge, Color>, qs: seq<Quad>)
    requires |recs| == |qs|
    requires forall j :: 0 <= j < |recs| ==>
      recs[j].weight == if MonoUnder(palette, qs[j]) then 1.0 else 0.0
    ensures SumWeights(recs) == MonoCount(palette, qs) as real
  {
    if recs != [] {
      SumIsMonoCount(recs[..|recs| - 1], palette, qs[..|qs| - 1]);
    }
  }

  /** Once every edge is coloured, every stored weight is 0 or 1 and their
      sum is the number of monochromatic K4s, which is at most K. */
  lemma FinalCount(n: nat, recs: seq<K4Graph>, edge: map<Edge, seq<nat>>, palette: map<Edge, Color>)
    requires BuiltState(n, recs, edge) && AllStored(recs) && ColoredAs(recs, palette, n)
    ensures forall j :: 0 <= j < |recs| ==> recs[j].weight == 0.0 || recs[j].weight == 1.0
    ensures SumWeights(recs) == MonoCount(palette, Quads(n)) as real
    ensures MonoCount(palette, Quads(n)) <= K(n)
  {
    BuiltFacts(n, recs, edge);
    QuadsLength(n);
    forall j | 0 <= j < |recs|
      ensures recs[j].weight == if MonoUnder(palette, Quads(n)[j]) then 1.0 else 0.0
    {
      ColoredWeight(recs[j].edgePair);
      MonochromaticUnder(recs[j], palette, Quads(n)[j]);
    }
    SumIsMonoCount(recs, palette, Quads(n));
  }
}
