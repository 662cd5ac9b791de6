/** The records of the hypergraph: the colour tags, the six (start, end, colour)
    slots of a K4 record, and the retagging of one slot that
    `change_edge_color_in_k4` performs. */
module Records {

  /** The tag of a slot. `Init` means the edge has not been coloured yet. */
  datatype Color = Init | Black | White

  /** One edge of a K4 record: its two endpoints and its current tag. */
  datatype ValuePair = ValuePair(start: int, end: int, color: Color)

  /** A K4 record: its six slots and the weight stored with it. */
  datatype K4Graph = K4Graph(edgePair: seq<ValuePair>, weight: real)

  /** An edge of the complete graph, as the pair (start, end). */
  type Edge = (int, int)

  /** The two colours an edge can finally receive. */
  predicate IsColor(c: Color) { c == Black || c == White }

  /** The edge a slot stands for. */
  function Pair(v: ValuePair): Edge { (v.start, v.end) }

  /** Slot `v` stands for edge `p`. */
  predicate Matches(v: ValuePair, p: Edge) { Pair(v) == p }

  /** The endpoints of every slot, in slot order. */
  function Endpoints(ps: seq<ValuePair>): seq<Edge>
  {
    seq(|ps|, k requires 0 <= k < |ps| => Pair(ps[k]))
  }

  predicate NoDup<T(==)>(s: seq<T>)
  {
    forall i, j :: 0 <= i < j < |s| ==> s[i] != s[j]
  }

  /** The index of the first slot that stands for `p`, or |ps| when none does. */
  function FirstMatch(ps: seq<ValuePair>, p: Edge): (i: nat)
    ensures i <= |ps|
    ensures forall k :: 0 <= k < i ==> !Matches(ps[k], p)
    ensures i < |ps| ==> Matches(ps[i], p)
  {
    if ps == [] then 0
    else if Matches(ps[0], p) then 0
    else 1 + FirstMatch(ps[1..], p)
  }

  /** The slots after `change_edge_color_in_k4(p, c)`: the first slot standing
      for `p` gets tag `c`; without such a slot nothing changes. */
  function Recolor(ps: seq<ValuePair>, p: Edge, c: Color): seq<ValuePair>
  {
    var i := FirstMatch(ps, p);
    if i < |ps| then ps[i := ps[i].(color := c)] else ps
  }

  /** A record after `change_edge_color_in_k4`: tags retagged, weight kept. */
  function Retag(k: K4Graph, p: Edge, c: Color): K4Graph
  {
    k.(edgePair := Recolor(k.edgePair, p, c))
  }

  /** Every slot standing for `p` still has tag `Init`. */
  predicate Uncolored(ps: seq<ValuePair>, p: Edge)
  {
    forall k :: 0 <= k < |ps| && Matches(ps[k], p) ==> ps[k].color == Init
  }

  /** Only the first slot standing for `p` is rewritten, the endpoints of every
      slot stay, and without a matching slot the record is unchanged. */
  lemma RecolorChangesFirstMatchOnly(ps: seq<ValuePair>, p: Edge, c: Color)
    ensures |Recolor(ps, p, c)| == |ps|
    ensures Endpoints(Recolor(ps, p, c)) == Endpoints(ps)
    ensures forall k :: 0 <= k < |ps| ==>
      Recolor(ps, p, c)[k].color == (if k == FirstMatch(ps, p) then c else ps[k].color)
    ensures (forall k :: 0 <= k < |ps| ==> !Matches(ps[k], p)) ==> Recolor(ps, p, c) == ps
  {
    var r := Recolor(ps, p, c);
    assert forall k :: 0 <= k < |ps| ==> Endpoints(r)[k] == Endpoints(ps)[k];
  }

  /** Matching depends on the endpoints only, so two slot sequences with the
      same endpoints have the same first match. */
  lemma FirstMatchByEndpoints(ps: seq<ValuePair>, qs: seq<ValuePair>, p: Edge)
    requires Endpoints(ps) == Endpoints(qs)
    ensures FirstMatch(ps, p) == FirstMatch(qs, p)
  {
    var i, j := FirstMatch(ps, p), FirstMatch(qs, p);
    assert |ps| == |Endpoints(ps)| == |qs|;
    forall k | 0 <= k < |ps|
      ensures Matches(ps[k], p) <==> Matches(qs[k], p)
    {
      assert Endpoints(ps)[k] == Endpoints(qs)[k];
    }
  }

  /** Retagging the same edge twice leaves only the second tag: so exploring
      one colour and then the other gives the same record as exploring the
      second colour from the start. */
  lemma RecolorOverwrites(ps: seq<ValuePair>, p: Edge, a: Color, b: Color)
    ensures Recolor(Recolor(ps, p, a), p, b) == Recolor(ps, p, b)
  {
    RecolorChangesFirstMatchOnly(ps, p, a);
    FirstMatchByEndpoints(Recolor(ps, p, a), ps, p);
  }

  /** When the slots stand for distinct edges, retagging `p` sets every slot
      standing for `p` and no other. */
  lemma RecolorDistinct(ps: seq<ValuePair>, p: Edge, c: Color)
    requires NoDup(Endpoints(ps))
    ensures |Recolor(ps, p, c)| == |ps|
    ensures Endpoints(Recolor(ps, p, c)) == Endpoints(ps)
    ensures forall k :: 0 <= k < |ps| ==>
      Recolor(ps, p, c)[k].color == (if Matches(ps[k], p) then c else ps[k].color)
  {
    RecolorChangesFirstMatchOnly(ps, p, c);
    var i := FirstMatch(ps, p);
    forall k | 0 <= k < |ps| && Matches(ps[k], p)
      ensures k == i
    {
      assert Endpoints(ps)[k] == Endpoints(ps)[i];
    }
  }
}
