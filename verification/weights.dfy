/** `_redistribute_weights`: each plant's entry weights are divided by their total,
    so the shares of one plant add up to one. */
module Weights {
  import opened Wrappers
  import opened OrderedDict
  import opened PlantMap

  /** `sum([entry.weight for entry in entries])`, added left to right. */
  function TotalWeight(es: seq<PlantMapEntry>): real {
    if |es| == 0 then 0.0 else TotalWeight(es[..|es| - 1]) + es[|es| - 1].weight
  }

  /** `entry.weight /= total_weight` for every entry of one plant. */
  function Rescale(es: seq<PlantMapEntry>, total: real): (r: seq<PlantMapEntry>)
    requires total != 0.0
    ensures |r| == |es|
    ensures forall j :: 0 <= j < |es| ==> r[j] == es[j].(weight := es[j].weight / total)
  {
    seq(|es|, j requires 0 <= j < |es| => es[j].(weight := es[j].weight / total))
  }

  /** `after` is `before` with every weight divided by `total`; plants and element
      names are untouched. */
  ghost predicate ScaledBy(before: seq<PlantMapEntry>, after: seq<PlantMapEntry>, total: real) {
    && |after| == |before|
    && forall j :: 0 <= j < |before| ==>
         && after[j].plant == before[j].plant
         && after[j].elmName == before[j].elmName
         && after[j].weight * total == before[j].weight
  }

  /** `after` is `before` divided by its own non-zero total, so its weights add up to one. */
  ghost predicate Reweighted(before: seq<PlantMapEntry>, after: seq<PlantMapEntry>) {
    && TotalWeight(before) != 0.0
    && TotalWeight(after) == 1.0
    && ScaledBy(before, after, TotalWeight(before))
  }

  /** Dividing every weight by `total` divides their sum by `total`. */
  lemma {:induction false} RescaleTotal(es: seq<PlantMapEntry>, total: real)
    requires total != 0.0
    ensures TotalWeight(Rescale(es, total)) == TotalWeight(es) / total
    decreases |es|
  {
    if |es| > 0 {
      var n := |es| - 1;
      var init := es[..n];
      RescaleTotal(init, total);
      assert Rescale(es, total)[..n] == Rescale(init, total);
      calc {
        TotalWeight(Rescale(es, total));
        TotalWeight(Rescale(init, total)) + es[n].weight / total;
        TotalWeight(init) / total + es[n].weight / total;
        (TotalWeight(init) + es[n].weight) / total;
        TotalWeight(es) / total;
      }
    }
  }

  /** `Rescale` divides every weight by `total` and changes nothing else. */
  lemma RescaleScales(es: seq<PlantMapEntry>, total: real)
    requires total != 0.0
    ensures ScaledBy(es, Rescale(es, total), total)
  {
    var r := Rescale(es, total);
    forall j | 0 <= j < |es| ensures r[j].weight * total == es[j].weight {
      DivMul(es[j].weight, total);
    }
  }

  lemma DivMul(x: real, t: real)
    requires t != 0.0
    ensures (x / t) * t == x
  {
  }

  lemma DivSelf(t: real)
    requires t != 0.0
    ensures t / t == 1.0
  {
  }

  /** Rescaling one plant's entries by their own total gives a `Reweighted` list. */
  lemma NormaliseOne(es: seq<PlantMapEntry>)
    requires TotalWeight(es) != 0.0
    ensures Reweighted(es, Rescale(es, TotalWeight(es)))
  {
    var t := TotalWeight(es);
    RescaleTotal(es, t);
    RescaleScales(es, t);
    assert TotalWeight(Rescale(es, t)) == 1.0 by {
      DivSelf(t);
    }
  }

  /** `_redistribute_weights`, plant by plant in iteration order; a plant whose weights
      add up to zero stops the pass with Python's `ZeroDivisionError`, reported here as
      that plant. */
  function Redistribute(pm: PlantMap): (r: Result<PlantMap, SddpPlant>)
    ensures r.Success? <==> forall i :: 0 <= i < |pm| ==> TotalWeight(pm[i].1) != 0.0
    ensures r.Success? ==> Keys(r.value) == Keys(pm)
    ensures r.Success? ==> forall i :: 0 <= i < |pm| ==> Reweighted(pm[i].1, r.value[i].1)
  {
    if |pm| == 0 then Success([])
    else
      var t := TotalWeight(pm[0].1);
      if t == 0.0 then Failure(pm[0].0)
      else
        match Redistribute(pm[1..])
        case Failure(k) => Failure(k)
        case Success(rest) =>
          NormaliseOne(pm[0].1);
          var r := [(pm[0].0, Rescale(pm[0].1, t))] + rest;
          assert forall i :: 1 <= i < |pm| ==> r[i] == rest[i - 1] && pm[i] == pm[1..][i - 1];
          Success(r)
  }

  /** The pass fails on the first plant, in iteration order, whose weights total zero. */
  lemma {:induction false} RedistributeFailsAtFirstZero(pm: PlantMap, i: int)
    requires 0 <= i < |pm| && TotalWeight(pm[i].1) == 0.0
    requires forall j :: 0 <= j < i ==> TotalWeight(pm[j].1) != 0.0
    ensures Redistribute(pm) == Failure(pm[i].0)
  {
    if i > 0 {
      assert forall j :: 0 <= j < i - 1 ==> pm[1..][j] == pm[j + 1];
      RedistributeFailsAtFirstZero(pm[1..], i - 1);
    }
  }

  /** Every weight of a plant is divided by the same number: shares keep their ratios. */
  lemma ReweightedKeepsRatios(before: seq<PlantMapEntry>, after: seq<PlantMapEntry>, j: int, j': int)
    requires Reweighted(before, after)
    requires 0 <= j < |before| && 0 <= j' < |before|
    ensures after[j].weight * before[j'].weight == before[j].weight * after[j'].weight
  {
    RatioFromScale(after[j].weight, after[j'].weight, before[j].weight, before[j'].weight, TotalWeight(before));
  }

  lemma RatioFromScale(a: real, b: real, x: real, y: real, t: real)
    requires a * t == x && b * t == y
    ensures a * y == x * b
  {
    calc {
      a * y;
      a * (b * t);
      (a * t) * b;
      x * b;
    }
  }

  /** Raw weights 3 and 1 of one plant become 0.75 and 0.25. */
  lemma RedistributeThreeToOne(p: SddpPlant, u1: string, u2: string)
    ensures Redistribute([(p, [PlantMapEntry(p, 3.0, u1), PlantMapEntry(p, 1.0, u2)])])
         == Success([(p, [PlantMapEntry(p, 0.75, u1), PlantMapEntry(p, 0.25, u2)])])
  {
    var es := [PlantMapEntry(p, 3.0, u1), PlantMapEntry(p, 1.0, u2)];
    assert es[..1] == [es[0]] && es[..1][..0] == [];
    assert TotalWeight(es[..1]) == 3.0;
    assert TotalWeight(es) == 4.0;
    assert Rescale(es, 4.0) == [PlantMapEntry(p, 0.75, u1), PlantMapEntry(p, 0.25, u2)];
    var pm: PlantMap := [(p, es)];
    assert pm[1..] == [];
    assert Redistribute(pm[1..]) == Success([]);
    assert TotalWeight(pm[0].1) == 4.0;
    assert [(p, Rescale(es, 4.0))] + [] == [(p, Rescale(es, 4.0))];
  }
}
