/** The weight model: the conditional probability that a K4 record ends up
    monochromatic, given the tags fixed so far (`calculate_k4_weight`). */
module WeightModel {
  import opened Records

  /** 2 to the power `k`, exactly, for any integer exponent. */
  function Pow2(k: int): real
    decreases if k < 0 then -k else k
  {
    if k == 0 then 1.0
    else if k > 0 then 2.0 * Pow2(k - 1)
    else Pow2(k + 1) / 2.0
  }

  lemma Pow2Step(k: int)
    ensures Pow2(k + 1) == 2.0 * Pow2(k)
  {
  }

  /** Pow2 is positive, below 1 for negative exponents and 1 only at 0. */
  lemma {:induction false} Pow2Bounds(k: int)
    ensures Pow2(k) > 0.0
    ensures k < 0 ==> Pow2(k) < 1.0
    ensures k > 0 ==> Pow2(k) > 1.0
    decreases if k < 0 then -k else k
  {
    if k > 0 {
      Pow2Bounds(k - 1);
    } else if k < 0 {
      Pow2Bounds(k + 1);
    }
  }

  /** The number of slots tagged `c`. */
  function CountColor(ps: seq<ValuePair>, c: Color): (r: nat)
    ensures r <= |ps|
  {
    if ps == [] then 0
    else CountColor(ps[..|ps| - 1], c) + (if ps[|ps| - 1].color == c then 1 else 0)
  }

  /** `calculate_k4_weight`: 0 once both colours occur, 2^-5 while no slot is
      coloured, and 2^(c-6) when c slots share the one colour present. */
  function Weight(ps: seq<ValuePair>): real
  {
    var white := CountColor(ps, White);
    var black := CountColor(ps, Black);
    if white > 0 && black > 0 then 0.0
    else if white == 0 && black == 0 then Pow2(-5)
    else Pow2(-6 + white + black)
  }

  /** The counting loop of `calculate_k4_weight`, over the six slots. */
  method CalculateK4Weight(k4: K4Graph) returns (w: real)
    requires |k4.edgePair| == 6
    ensures w == Weight(k4.edgePair)
  {
    var ps := k4.edgePair;
    var whiteAmount, blackAmount := 0, 0;
    for i := 0 to 6
      invariant whiteAmount == CountColor(ps[..i], White)
      invariant blackAmount == CountColor(ps[..i], Black)
    {
      assert ps[..i + 1][..i] == ps[..i];
      if ps[i].color == White {
        whiteAmount := whiteAmount + 1;
      }
      if ps[i].color == Black {
        blackAmount := blackAmount + 1;
      }
    }
    assert ps[..6] == ps;
    if whiteAmount > 0 && blackAmount > 0 {
      return 0.0;
    }
    if whiteAmount == 0 && blackAmount == 0 {
      return Pow2(-5);
    }
    return Pow2(-6 + whiteAmount + blackAmount);
  }

  /** Every slot carries tag `c`. */
  predicate AllTagged(ps: seq<ValuePair>, c: Color)
  {
    forall k :: 0 <= k < |ps| ==> ps[k].color == c
  }

  /** All slots share one colour. */
  predicate Monochromatic(ps: seq<ValuePair>)
  {
    AllTagged(ps, White) || AllTagged(ps, Black)
  }

  /** No slot is still `Init`. */
  predicate FullyColored(ps: seq<ValuePair>)
  {
    forall k :: 0 <= k < |ps| ==> ps[k].color != Init
  }

  lemma {:induction false} CountColorOccurs(ps: seq<ValuePair>, c: Color)
    ensures CountColor(ps, c) == |ps| <==> AllTagged(ps, c)
    ensures CountColor(ps, c) == 0 <==> forall k :: 0 <= k < |ps| ==> ps[k].color != c
  {
    if ps != [] {
      var q := ps[..|ps| - 1];
      CountColorOccurs(q, c);
      assert forall k :: 0 <= k < |q| ==> q[k] == ps[k];
    }
  }

  /** The three tags partition the slots. */
  lemma {:induction false} CountColorTotal(ps: seq<ValuePair>)
    ensures CountColor(ps, White) + CountColor(ps, Black) + CountColor(ps, Init) == |ps|
  {
    if ps != [] {
      CountColorTotal(ps[..|ps| - 1]);
    }
  }

  /** Retagging slot `i` moves it from the count of its old tag to the count of
      its new one. */
  lemma {:induction false} CountColorUpdate(ps: seq<ValuePair>, i: nat, x: Color, c: Color)
    requires i < |ps|
    ensures CountColor(ps[i := ps[i].(color := x)], c)
      == CountColor(ps, c) - (if ps[i].color == c then 1 else 0) + (if x == c then 1 else 0)
  {
    var r := ps[i := ps[i].(color := x)];
    var q := ps[..|ps| - 1];
    if i == |ps| - 1 {
      assert r[..|r| - 1] == q;
    } else {
      CountColorUpdate(q, i, x, c);
      assert r[..|r| - 1] == q[i := q[i].(color := x)];
    }
  }

  /** The weight of a record lies in [0, 1]; it is 1 exactly when all six
      slots share one colour and 0 exactly when both colours occur. */
  lemma WeightRange(ps: seq<ValuePair>)
    requires |ps| == 6
    ensures 0.0 <= Weight(ps) <= 1.0
    ensures Weight(ps) == 1.0 <==> Monochromatic(ps)
    ensures Weight(ps) == 0.0 <==> CountColor(ps, White) > 0 && CountColor(ps, Black) > 0
  {
    var white: int, black: int := CountColor(ps, White), CountColor(ps, Black);
    CountColorTotal(ps);
    CountColorOccurs(ps, White);
    CountColorOccurs(ps, Black);
    Pow2Bounds(-5);
    Pow2Bounds(-6 + white + black);
  }

  /** Once every slot is coloured the weight is the indicator of monochromacy. */
  lemma ColoredWeight(ps: seq<ValuePair>)
    requires |ps| == 6 && FullyColored(ps)
    ensures Weight(ps) == if Monochromatic(ps) then 1.0 else 0.0
  {
    CountColorOccurs(ps, Init);
    CountColorTotal(ps);
    WeightRange(ps);
    if CountColor(ps, White) == 0 {
      CountColorOccurs(ps, Black);
    } else if CountColor(ps, Black) == 0 {
      CountColorOccurs(ps, White);
    }
  }

  /** The independent reading of the weight: the probability that every slot
      ends up `c` when each `Init` slot is later coloured by its own fair coin. */
  function AllBecome(ps: seq<ValuePair>, c: Color): real
  {
    if ps == [] then 1.0
    else
      var last := ps[|ps| - 1].color;
      AllBecome(ps[..|ps| - 1], c) * (if last == c then 1.0 else if last == Init then 0.5 else 0.0)
  }

  /** The probability that the record ends up monochromatic (the two events
      are disjoint for a non-empty record). */
  function MonoProbability(ps: seq<ValuePair>): real
  {
    AllBecome(ps, White) + AllBecome(ps, Black)
  }

  function Other(c: Color): Color
  {
    if c == White then Black else White
  }

  lemma {:induction false} AllBecomeCounts(ps: seq<ValuePair>, c: Color)
    requires IsColor(c)
    ensures AllBecome(ps, c)
      == if CountColor(ps, Other(c)) > 0 then 0.0 else Pow2(CountColor(ps, c) - |ps|)
  {
    if ps != [] {
      var q := ps[..|ps| - 1];
      AllBecomeCounts(q, c);
      Pow2Step(CountColor(q, c) - |ps|);
    }
  }

  /** `calculate_k4_weight` is the conditional probability of monochromacy. */
  lemma WeightIsMonoProbability(ps: seq<ValuePair>)
    requires |ps| == 6
    ensures Weight(ps) == MonoProbability(ps)
  {
    AllBecomeCounts(ps, White);
    AllBecomeCounts(ps, Black);
    Pow2Step(-6);
  }

  /** Colouring an `Init` slot either way and averaging gives back the weight:
      the step of the method of conditional expectations. */
  lemma {:induction false} ChoicesAverage(ps: seq<ValuePair>, i: nat)
    requires i < |ps| && ps[i].color == Init
    ensures Weight(ps[i := ps[i].(color := White)]) + Weight(ps[i := ps[i].(color := Black)])
      == 2.0 * Weight(ps)
  {
    CountColorUpdate(ps, i, White, White);
    CountColorUpdate(ps, i, White, Black);
    CountColorUpdate(ps, i, Black, White);
    CountColorUpdate(ps, i, Black, Black);
    Pow2Step(-6 + CountColor(ps, White) + CountColor(ps, Black));
  }

  /** The same step, stated for `change_edge_color_in_k4`. */
  lemma RecolorAverages(ps: seq<ValuePair>, p: Edge)
    requires Uncolored(ps, p)
    ensures Weight(Recolor(ps, p, White)) + Weight(Recolor(ps, p, Black)) == 2.0 * Weight(ps)
  {
    var i := FirstMatch(ps, p);
    if i < |ps| {
      ChoicesAverage(ps, i);
    }
  }
}
