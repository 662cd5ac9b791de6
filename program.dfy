/** The program's global state and the procedures that change it: building
    the hypergraph and colouring the edges greedily. */
module Program {
  import opened Records
  import opened WeightModel
  import opened Hypergraph
  import opened Greedy

  /** The globals of the program: the K4 records (the objects add_k4
      allocates, kept in creation order), `edge[s][e]` as the list of the
      indices of the records containing (s, e), and `total_weight`. */
  class Session {
    const n: nat
    var records: seq<K4Graph>
    var edge: map<Edge, seq<nat>>
    var totalWeight: real
    /** The colour color_edge committed for each edge so far. */
    ghost var palette: map<Edge, Color>

    /** The static initial values: no record, no list, and
        `total_weight = K * 2^-5`, written K / 32 (Pow2(-5) == 1 / 32). */
    constructor (n: nat)
      ensures this.n == n && records == [] && edge == map[]
      ensures totalWeight == K(n) as real / 32.0
      ensures palette == map[]
    {
      this.n := n;
      records := [];
      edge := map[];
      totalWeight := K(n) as real / 32.0;
      palette := map[];
    }

    ghost predicate Built()
      reads this
    {
      BuiltState(n, records, edge)
    }

    ghost predicate Stored()
      reads this
    {
      AllStored(records)
    }

    /** The invariant the engine keeps: total_weight is the sum of the stored weights. */
    ghost predicate Balanced()
      reads this
    {
      totalWeight == SumWeights(records)
    }

    /** The first two steps of main, init_edge then add_all_k4, from the
        initial values: every K4 of K_n stored, untagged and balanced. */
    method Prepare()
      requires records == [] && edge == map[]
      requires totalWeight == K(n) as real / 32.0
      modifies this`records, this`edge
      ensures Built() && Stored() && Balanced()
      ensures forall j, k :: 0 <= j < |records| && 0 <= k < |records[j].edgePair| ==> records[j].edgePair[k].color == Init
      ensures records == NewK4s(Quads(n)) && edge == BuiltEdges(n)
    {
      InitEdge();
      AddAllK4();
      assert records == NewK4s(Quads(n));
      forall p | p in edge
        ensures edge[p] == Incidence(Quads(n), p, 0)
      {
        assert edge[p] == Incidence(Quads(n), p, 0) + [];
      }
      BuiltStart(n, records, edge, totalWeight);
      BuiltEdgesAre(n, edge);
    }

    /** init_edge: an empty list for every edge (i, j) with i < j. */
    method InitEdge()
      modifies this`edge
      ensures forall p :: p in edge <==> p in old(edge) || IsEdge(p, n)
      ensures forall p :: IsEdge(p, n) ==> edge[p] == []
      ensures forall p :: p in old(edge) && !IsEdge(p, n) ==> edge[p] == old(edge)[p]
    {
      for i := 0 to n
        invariant forall p :: p in edge <==> p in old(edge) || (IsEdge(p, n) && p.0 < i)
        invariant forall p :: IsEdge(p, n) && p.0 < i ==> edge[p] == []
        invariant forall p :: p in old(edge) && !(IsEdge(p, n) && p.0 < i) ==> edge[p] == old(edge)[p]
      {
        for j := i + 1 to n
          invariant forall p :: p in edge <==>
            p in old(edge) || (IsEdge(p, n) && (p.0 < i || (p.0 == i && p.1 < j)))
          invariant forall p :: IsEdge(p, n) && (p.0 < i || (p.0 == i && p.1 < j)) ==> edge[p] == []
          invariant forall p :: p in old(edge) && !(IsEdge(p, n) && (p.0 < i || (p.0 == i && p.1 < j))) ==>
            edge[p] == old(edge)[p]
        {
          edge := edge[(i, j) := []];
        }
      }
    }

    /** add_k4: a fresh record for i1 < i2 < i3 < i4, prepended to the lists
        of its six edges and of no other. */
    method AddK4(i1: int, i2: int, i3: int, i4: int)
      requires 0 <= i1 < i2 < i3 < i4
      requires forall p :: p in SixPairs(Quad(i1, i2, i3, i4)) ==> p in edge
      modifies this`records, this`edge
      ensures records == old(records) + [NewK4(Quad(i1, i2, i3, i4))]
      ensures edge.Keys == old(edge).Keys
      ensures forall p :: p in edge ==>
        edge[p] == (if p in SixPairs(Quad(i1, i2, i3, i4)) then [|old(records)|] else []) + old(edge)[p]
    {
      var k4 := NewK4(Quad(i1, i2, i3, i4));
      var k4Index := |records|;
      records := records + [k4];
      var lists := edge;
      lists := lists[(i1, i2) := [k4Index] + lists[(i1, i2)]];
      lists := lists[(i1, i3) := [k4Index] + lists[(i1, i3)]];
      lists := lists[(i1, i4) := [k4Index] + lists[(i1, i4)]];
      lists := lists[(i2, i3) := [k4Index] + lists[(i2, i3)]];
      lists := lists[(i2, i4) := [k4Index] + lists[(i2, i4)]];
      lists := lists[(i3, i4) := [k4Index] + lists[(i3, i4)]];
      edge := lists;
    }

    /** add_all_k4: add_k4 for every quadruple, in the order of the four
        nested loops, so the records appended are those of Quads(n) and each
        list gains the records containing its edge, newest first. The two
        inner loops are AddK4sWith. */
    method AddAllK4()
      requires forall p :: IsEdge(p, n) ==> p in edge
      modifies this`records, this`edge
      ensures records == old(records) + NewK4s(Quads(n))
      ensures edge.Keys == old(edge).Keys
      ensures forall p :: p in edge ==> edge[p] == Incidence(Quads(n), p, |old(records)|) + old(edge)[p]
    {
      ghost var records0, edge0 := records, edge;
      // `done` are the quadruples added so far and `todo` those still to come
      ghost var done: seq<Quad>, todo := [], Quads(n);
      for i1 := 0 to n
        invariant Grown(records, edge, records0, edge0, done)
        invariant done + todo == Quads(n)
        invariant todo == Level1(n, i1)
      {
        ghost var rest1 := Level1(n, i1 + 1);
        for i2 := i1 + 1 to n
          invariant Grown(records, edge, records0, edge0, done)
          invariant done + todo == Quads(n)
          invariant todo == Level2(n, i1, i2) + rest1
        {
          ghost var chunk := Level3(n, i1, i2, i2 + 1);
          ghost var recordsBefore, edgeBefore := records, edge;
          AddK4sWith(i1, i2);
          GrownCompose(records, edge, recordsBefore, edgeBefore, records0, edge0, done, chunk);
          Regroup(chunk, Level2(n, i1, i2 + 1), rest1);
          Regroup(done, chunk, Level2(n, i1, i2 + 1) + rest1);
          done, todo := done + chunk, Level2(n, i1, i2 + 1) + rest1;
        }
        Regroup(Level2(n, i1, i1 + 1), Level1(n, i1 + 1), []);
      }
      assert done == Quads(n);
    }

    /** The two inner loops of add_all_k4 for fixed i1 < i2: add_k4 for every
        i2 < i3 < i4 < n. */
    method AddK4sWith(i1: int, i2: int)
      requires 0 <= i1 < i2 < n
      requires forall p :: IsEdge(p, n) ==> p in edge
      modifies this`records, this`edge
      ensures Grown(records, edge, old(records), old(edge), Level3(n, i1, i2, i2 + 1))
    {
      ghost var records0, edge0 := records, edge;
      ghost var done: seq<Quad>, todo := [], Level3(n, i1, i2, i2 + 1);
      for i3 := i2 + 1 to n
        invariant Grown(records, edge, records0, edge0, done)
        invariant done + todo == Level3(n, i1, i2, i2 + 1)
        invariant todo == Level3(n, i1, i2, i3)
      {
        ghost var rest3 := Level3(n, i1, i2, i3 + 1);
        for i4 := i3 + 1 to n
          invariant Grown(records, edge, records0, edge0, done)
          invariant done + todo == Level3(n, i1, i2, i2 + 1)
          invariant todo == Level4(n, i1, i2, i3, i4) + rest3
        {
          ghost var q := Quad(i1, i2, i3, i4);
          ghost var recordsBefore, edgeBefore := records, edge;
          SixPairsPresent(edge, edge0, q, n);
          AddK4(i1, i2, i3, i4);
          GrowStep(recordsBefore, edgeBefore, records0, edge0, done, q, records, edge);
          Regroup([q], Level4(n, i1, i2, i3, i4 + 1), rest3);
          MoveFirst(done, todo);
          done, todo := done + [q], todo[1..];
        }
        Regroup(Level4(n, i1, i2, i3, i3 + 1), rest3, []);
      }
      assert done == Level3(n, i1, i2, i2 + 1);
    }

    /** change_edge_color_in_k4: the first slot of record `k4Index` standing
        for (s, e) gets tag `c`; nothing else changes. */
    method ChangeEdgeColorInK4(s: int, e: int, k4Index: nat, c: Color)
      requires k4Index < |records| && |records[k4Index].edgePair| == 6
      modifies this`records
      ensures records == old(records)[k4Index := Retag(old(records)[k4Index], (s, e), c)]
    {
      var ps := records[k4Index].edgePair;
      for i := 0 to 6
        invariant records == old(records)
        invariant forall k :: 0 <= k < i ==> !Matches(ps[k], (s, e))
      {
        if ps[i].start == s && ps[i].end == e {
          records := records[k4Index := records[k4Index].(edgePair := ps[i := ps[i].(color := c)])];
          return;
        }
      }
    }

    /** calculate_edge_color: the total weight if (s, e) were coloured `c`.
        As in the source, it leaves tag `c` on (s, e) in every listed record
        but changes no stored weight and not the total. */
    method CalculateEdgeColor(s: int, e: int, c: Color) returns (colorWeight: real)
      requires (s, e) in edge && Walkable(records, edge[(s, e)])
      modifies this`records
      ensures records == Probed(old(records), edge[(s, e)], (s, e), c)
      ensures colorWeight == totalWeight + Gain(old(records), edge[(s, e)], (s, e), c)
    {
      var list := edge[(s, e)];
      colorWeight := totalWeight;
      for i := 0 to |list|
        invariant records == Probed(old(records), list[..i], (s, e), c)
        invariant colorWeight == totalWeight + Gain(old(records), list[..i], (s, e), c)
      {
        var k4Index := list[i];
        ProbeNext(old(records), list, i, (s, e), c);
        colorWeight := colorWeight - records[k4Index].weight;
        ChangeEdgeColorInK4(s, e, k4Index, c);
        var w := CalculateK4Weight(records[k4Index]);
        colorWeight := colorWeight + w;
      }
      assert list[..|list|] == list;
    }

    /** set_edge_color: tag (s, e) with `c` in every record containing it and
        store the recomputed weight. */
    method SetEdgeColor(s: int, e: int, c: Color)
      requires (s, e) in edge && Walkable(records, edge[(s, e)])
      modifies this`records
      ensures records == Committed(old(records), edge[(s, e)], (s, e), c)
    {
      var list := edge[(s, e)];
      for i := 0 to |list|
        invariant records == Committed(old(records), list[..i], (s, e), c)
      {
        var k4Index := list[i];
        CommitNext(old(records), list, i, (s, e), c);
        ChangeEdgeColorInK4(s, e, k4Index, c);
        var w := CalculateK4Weight(records[k4Index]);
        records := records[k4Index := records[k4Index].(weight := w)];
      }
      assert list[..|list|] == list;
    }

    /** color_edge: evaluate White, then Black, commit the cheaper (White on
        a tie) and take its value as the new total. */
    method ColorEdge(s: int, e: int)
      requires (s, e) in edge && Walkable(records, edge[(s, e)])
      modifies this
      ensures edge == old(edge)
      ensures var r := ColorEdgeStep(old(records), edge[(s, e)], old(totalWeight), (s, e));
        && records == r.recs
        && totalWeight == r.total
        && palette == old(palette)[(s, e) := r.color]
      ensures Pass(records, totalWeight, palette)
        == ColorEdgeOn(edge, Pass(old(records), old(totalWeight), old(palette)), (s, e))
    {
      ghost var start, list := records, edge[(s, e)];
      TwoProbes(start, list, (s, e));
      var whiteWeight := CalculateEdgeColor(s, e, White);
      var blackWeight := CalculateEdgeColor(s, e, Black);
      if whiteWeight <= blackWeight {
        SetEdgeColor(s, e, White);
        totalWeight := whiteWeight;
        CommitOverProbe(start, list, (s, e), White);
        palette := palette[(s, e) := White];
      } else {
        SetEdgeColor(s, e, Black);
        totalWeight := blackWeight;
        CommitOverProbe(start, list, (s, e), Black);
        palette := palette[(s, e) := Black];
      }
    }

    /** color_all_edges: color_edge on every edge s < e, in lexicographic
        order, from the built state with nothing coloured yet (`PaintStart`
        gives this for untagged slots), so that the result is the fold of
        color_edge over that order.
        Afterwards every edge of K_n has a colour and every slot is tagged
        with its edge's colour (`PaintEnd` turns this into `ColoredAs`), the
        invariants still hold and the total has not grown. */
    method ColorAllEdges()
      requires Built() && Stored() && Balanced() && palette == map[]
      requires PaintedBefore(records, palette, n, (0, 1))
      modifies this
      ensures edge == old(edge)
      ensures Built() && Stored() && Balanced()
      ensures totalWeight <= old(totalWeight)
      ensures PaintedBefore(records, palette, n, (n, n + 1))
      ensures Pass(records, totalWeight, palette)
        == ColorEdges(edge, Pass(old(records), old(totalWeight), old(palette)), EdgeOrder(n))
    {
      for s := 0 to n
        invariant edge == old(edge)
        invariant Built() && Stored() && Balanced()
        invariant totalWeight <= old(totalWeight)
        invariant PaintedBefore(records, palette, n, (s, s + 1))
        invariant ColorEdges(edge, Pass(records, totalWeight, palette), Rows(n, s))
          == ColorEdges(edge, Pass(old(records), old(totalWeight), old(palette)), EdgeOrder(n))
      {
        RowsSplit(edge, Pass(records, totalWeight, palette), n, s);
        ColorRow(s);
        RowEnd(records, palette, n, s);
      }
      assert Rows(n, n) == [];
    }

    /** The inner loop of color_all_edges for row `s`: color_edge(s, e) for
        e = s + 1, ..., n - 1, in that order. */
    method ColorRow(s: int)
      requires Built() && Stored() && Balanced()
      requires 0 <= s < n && PaintedBefore(records, palette, n, (s, s + 1))
      modifies this
      ensures edge == old(edge)
      ensures Built() && Stored() && Balanced()
      ensures totalWeight <= old(totalWeight)
      ensures PaintedBefore(records, palette, n, (s, n))
      ensures Pass(records, totalWeight, palette)
        == ColorEdges(edge, Pass(old(records), old(totalWeight), old(palette)), Row(n, s, s + 1))
    {
      for e := s + 1 to n
        invariant edge == old(edge)
        invariant Built() && Stored() && Balanced()
        invariant totalWeight <= old(totalWeight)
        invariant PaintedBefore(records, palette, n, (s, e))
        invariant ColorEdges(edge, Pass(records, totalWeight, palette), Row(n, s, e))
          == ColorEdges(edge, Pass(old(records), old(totalWeight), old(palette)), Row(n, s, s + 1))
      {
        ColorEdgeProgress(n, edge, records, totalWeight, palette, (s, e));
        RowStep(edge, Pass(records, totalWeight, palette), n, s, e);
        ColorEdge(s, e);
      }
      assert Row(n, s, n) == [];
    }
  }

  /** After add_k4 has run for the quadruples `done`, starting from
      `records0` and `edge0`: their records appended in order, and every
      list extended by the new records containing its edge. */
  ghost predicate Grown(records: seq<K4Graph>, edge: map<Edge, seq<nat>>,
                        records0: seq<K4Graph>, edge0: map<Edge, seq<nat>>, done: seq<Quad>)
  {
    && records == records0 + NewK4s(done)
    && edge.Keys == edge0.Keys
    && (forall p :: p in edge ==> edge[p] == Incidence(done, p, |records0|) + edge0[p])
  }

  /** The lists of a K4's six edges exist once init_edge has run. */
  lemma SixPairsPresent(edge: map<Edge, seq<nat>>, edge0: map<Edge, seq<nat>>, q: Quad, n: int)
    requires edge.Keys == edge0.Keys && IsQuad(q, n)
    requires forall p :: IsEdge(p, n) ==> p in edge0
    ensures forall p :: p in SixPairs(q) ==> p in edge
  {
    SixPairsAreEdges(q, n);
  }

  /** Two rounds of add_k4 calls compose. */
  lemma GrownCompose(records2: seq<K4Graph>, edge2: map<Edge, seq<nat>>,
                     records1: seq<K4Graph>, edge1: map<Edge, seq<nat>>,
                     records0: seq<K4Graph>, edge0: map<Edge, seq<nat>>, done: seq<Quad>, more: seq<Quad>)
    requires Grown(records1, edge1, records0, edge0, done)
    requires Grown(records2, edge2, records1, edge1, more)
    ensures Grown(records2, edge2, records0, edge0, done + more)
  {
    assert NewK4s(done + more) == NewK4s(done) + NewK4s(more);
    forall p | p in edge2
      ensures edge2[p] == Incidence(done + more, p, |records0|) + edge0[p]
    {
      IncidenceAppend(done, more, p, |records0|);
    }
  }

  lemma Regroup<T>(a: seq<T>, b: seq<T>, c: seq<T>)
    ensures a + b + c == a + (b + c)
  {
  }

  lemma MoveFirst<T>(done: seq<T>, todo: seq<T>)
    requires todo != []
    ensures done + [todo[0]] + todo[1..] == done + todo
  {
    assert todo == [todo[0]] + todo[1..];
  }

  /** One add_k4 call extends the quadruples done by one. */
  lemma GrowStep(records: seq<K4Graph>, edge: map<Edge, seq<nat>>,
                 records0: seq<K4Graph>, edge0: map<Edge, seq<nat>>, done: seq<Quad>,
                 q: Quad, records1: seq<K4Graph>, edge1: map<Edge, seq<nat>>)
    requires Grown(records, edge, records0, edge0, done)
    requires records1 == records + [NewK4(q)]
    requires edge1.Keys == edge.Keys
    requires forall p :: p in edge1 ==>
      edge1[p] == (if p in SixPairs(q) then [|records|] else []) + edge[p]
    ensures Grown(records1, edge1, records0, edge0, done + [q])
  {
    var base := |records0|;
    assert (done + [q])[..|done|] == done;
    assert NewK4s(done + [q]) == NewK4s(done) + [NewK4(q)];
    forall p | p in edge1
      ensures edge1[p] == Incidence(done + [q], p, base) + edge0[p]
    {
      assert Incidence(done + [q], p, base)
        == (if p in SixPairs(q) then [base + |done|] else []) + Incidence(done, p, base);
    }
  }

  /** What print_info reports, stated on the final values: truncating the
      final total gives the number of monochromatic K4s, which lies between
      0 and K and is at most the starting total K * 2^-5. */
  lemma Report(n: nat, recs: seq<K4Graph>, edge: map<Edge, seq<nat>>,
               palette: map<Edge, Color>, total: real, start: real)
    requires BuiltState(n, recs, edge) && AllStored(recs) && ColoredAs(recs, palette, n)
    requires total == SumWeights(recs) && total <= start
    ensures total.Floor == MonoCount(palette, Quads(n))
    ensures 0 <= total.Floor <= K(n)
    ensures total.Floor as real <= start
  {
    FinalCount(n, recs, edge, palette);
  }

  /** The end of color_all_edges, as main reaches it: the cursor past the
      last row means every edge is coloured, and print_info's facts follow. */
  lemma Outcome(n: nat, recs: seq<K4Graph>, edge: map<Edge, seq<nat>>,
                palette: map<Edge, Color>, total: real, start: real)
    requires BuiltState(n, recs, edge) && AllStored(recs) && PaintedBefore(recs, palette, n, (n, n + 1))
    requires total == SumWeights(recs) && total <= start
    ensures forall p :: p in palette <==> IsEdge(p, n)
    ensures forall p :: p in palette ==> IsColor(palette[p])
    ensures total.Floor == MonoCount(palette, Quads(n))
    ensures 0 <= total.Floor <= K(n)
    ensures total.Floor as real <= start
  {
    PaintEnd(n, recs, edge, palette);
    Report(n, recs, edge, palette, total, start);
  }

  /** main without the printing: build, colour, and report K, the average
      K * 2^-5 and ALG, the final total truncated to an integer. ALG is the
      number of monochromatic K4s of the colouring found, and it is at most
      the average. */
  method Run(n: nat) returns (k: int, average: real, alg: int, ghost palette: map<Edge, Color>)
    ensures k == K(n) && average == k as real / 32.0
    ensures forall p :: p in palette <==> IsEdge(p, n)
    ensures forall p :: p in palette ==> IsColor(palette[p])
    ensures alg == MonoCount(palette, Quads(n))
    ensures 0 <= alg <= k
    ensures alg as real <= average
    ensures palette == GreedyPass(n).palette
  {
    k := K(n);
    average := k as real / 32.0;
    var session := new Session(n);
    session.Prepare();
    PaintStart(n, session.records, session.edge);
    ghost var st0 := Pass(session.records, session.totalWeight, session.palette);
    session.ColorAllEdges();
    palette := session.palette;
    GreedyPassFrom(n, session.edge, st0, Pass(session.records, session.totalWeight, palette));
    Outcome(n, session.records, session.edge, palette, session.totalWeight, average);
    alg := session.totalWeight.Floor;
  }

  /** The smallest instance, n = 4: K_4 has a single K4, K * 2^-5 = 1/32, and
      the greedy colouring leaves no monochromatic K4. */
  method RunOnK4() returns (alg: int)
    ensures alg == 0
  {
    var k, average, a, palette := Run(4);
    alg := a;
  }
}
