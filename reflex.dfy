/**
 * The shared decision loop of `ReflexCaptureAgent` (myTeam.py): score every
 * legal action by the dot product of its feature dictionary with the weight
 * dictionary, keep the actions reaching the maximum, and pick one of them.
 */
module Reflex {
  import opened Wrappers
  import opened Game

  /** A feature or weight dictionary: feature name to value. */
  type Features = map<string, real>
  type Weights = map<string, real>

  /** The sum of `f[k] * w[k]` over a set of keys, in no particular order. */
  ghost function Dot(keys: set<string>, f: Features, w: Weights): real
    requires keys <= f.Keys && keys <= w.Keys
    decreases keys
  {
    if keys == {} then 0.0
    else
      var k :| k in keys;
      f[k] * w[k] + Dot(keys - {k}, f, w)
  }

  /** Any key may be taken out of the sum first: the order of summation does not matter. */
  lemma {:induction false} DotPick(keys: set<string>, f: Features, w: Weights, k: string)
    requires keys <= f.Keys && keys <= w.Keys && k in keys
    ensures Dot(keys, f, w) == f[k] * w[k] + Dot(keys - {k}, f, w)
    decreases keys
  {
    var j :| j in keys && Dot(keys, f, w) == f[j] * w[j] + Dot(keys - {j}, f, w);
    if j != k {
      DotPick(keys - {j}, f, w, k);
      DotPick(keys - {k}, f, w, j);
      assert keys - {j} - {k} == keys - {k} - {j};
    }
  }

  /** The sum only depends on the values at the summed keys. */
  lemma {:induction false} DotCongruent(keys: set<string>, f1: Features, w1: Weights, f2: Features, w2: Weights)
    requires keys <= f1.Keys && keys <= w1.Keys && keys <= f2.Keys && keys <= w2.Keys
    requires forall k :: k in keys ==> f1[k] == f2[k] && w1[k] == w2[k]
    ensures Dot(keys, f1, w1) == Dot(keys, f2, w2)
    decreases keys
  {
    if keys != {} {
      var k :| k in keys;
      DotPick(keys, f1, w1, k);
      DotPick(keys, f2, w2, k);
      DotCongruent(keys - {k}, f1, w1, f2, w2);
    }
  }

  /**
   * `ReflexCaptureAgent.evaluate`: `sum(features[k] * weights[k] for k in features)`.
   * The sum runs over the feature keys only; a feature key without a weight
   * raises a KeyError.
   */
  ghost function Evaluate(features: Features, weights: Weights): (r: Result<real>)
    ensures r.Ok? <==> features.Keys <= weights.Keys
    ensures r.Err? ==> r.error.KeyError? && r.error.key in features && r.error.key !in weights
  {
    if features.Keys <= weights.Keys then Ok(Dot(features.Keys, features, weights))
    else
      var k :| k in features && k !in weights;
      Err(KeyError(k))
  }

  /** A dot product over two disjoint key sets is the sum of the two. */
  lemma {:induction false} DotSplit(k1: set<string>, k2: set<string>, f: Features, w: Weights)
    requires k1 !! k2
    requires k1 + k2 <= f.Keys && k1 + k2 <= w.Keys
    ensures Dot(k1 + k2, f, w) == Dot(k1, f, w) + Dot(k2, f, w)
    decreases k2
  {
    if k2 != {} {
      var k :| k in k2;
      DotPick(k1 + k2, f, w, k);
      assert (k1 + k2) - {k} == k1 + (k2 - {k});
      DotSplit(k1, k2 - {k}, f, w);
      DotPick(k2, f, w, k);
    } else {
      assert k1 + k2 == k1;
    }
  }

  /** A dictionary with no features scores zero. */
  lemma EvaluateEmpty(w: Weights)
    ensures Evaluate(map[], w) == Ok(0.0)
  {
  }

  /** A single weighted feature scores its value times its weight. */
  lemma EvaluateEntry(k: string, v: real, w: Weights)
    requires k in w
    ensures Evaluate(map[k := v], w) == Ok(v * w[k])
  {
    var f := map[k := v];
    DotPick(f.Keys, f, w, k);
    var rest: set<string> := f.Keys - {k};
    assert rest == {};
    assert Dot(f.Keys, f, w) == v * w[k];
  }

  /**
   * Features with disjoint keys, all weighted, score the sum of their
   * scores: `evaluate` is additive over the dictionary.
   */
  lemma EvaluateUnion(f1: Features, f2: Features, w: Weights)
    requires f1.Keys !! f2.Keys
    requires f1.Keys <= w.Keys && f2.Keys <= w.Keys
    ensures Evaluate(f1 + f2, w) == Ok(Evaluate(f1, w).value + Evaluate(f2, w).value)
  {
    var f := f1 + f2;
    assert f.Keys == f1.Keys + f2.Keys;
    DotSplit(f1.Keys, f2.Keys, f, w);
    DotCongruent(f1.Keys, f, w, f1, w);
    DotCongruent(f2.Keys, f, w, f2, w);
  }

  /** Weights of keys that are not features do not change whether or what `evaluate` returns. */
  lemma EvaluateIgnoresUnusedWeights(f: Features, w1: Weights, w2: Weights)
    requires forall k :: k in f ==> (k in w1 <==> k in w2) && (k in w1 ==> w1[k] == w2[k])
    ensures Evaluate(f, w1).Ok? <==> Evaluate(f, w2).Ok?
    ensures Evaluate(f, w1).Ok? ==> Evaluate(f, w1) == Evaluate(f, w2)
  {
    if f.Keys <= w1.Keys {
      DotCongruent(f.Keys, f, w1, f, w2);
    }
  }

  /** Adding one weighted feature adds its value times its weight to the score. */
  lemma EvaluateInsert(f: Features, w: Weights, k: string, v: real)
    requires f.Keys <= w.Keys && k in w && k !in f
    ensures Evaluate(f[k := v], w).Ok?
    ensures Evaluate(f[k := v], w).value == Evaluate(f, w).value + v * w[k]
  {
    var g := f[k := v];
    DotPick(g.Keys, g, w, k);
    var rest := g.Keys - {k};
    assert rest == f.Keys;
    DotCongruent(rest, g, w, f, w);
    assert Dot(g.Keys, g, w) == v * w[k] + Dot(f.Keys, f, w);
  }

  /** The same, with the weight given as a number (so that a known weight keeps the sum linear). */
  lemma EvaluateInsertAt(f: Features, w: Weights, k: string, v: real, weight: real)
    requires f.Keys <= w.Keys && k in w && k !in f && w[k] == weight
    ensures Evaluate(f[k := v], w).Ok?
    ensures Evaluate(f[k := v], w).value == Evaluate(f, w).value + v * weight
  {
    EvaluateInsert(f, w, k, v);
  }

  /** A feature written only under a condition adds its term only under that condition. */
  lemma EvaluateInsertWhen(c: bool, f: Features, w: Weights, k: string, v: real)
    requires f.Keys <= w.Keys && k in w && k !in f
    ensures Evaluate(if c then f[k := v] else f, w).Ok?
    ensures Evaluate(if c then f[k := v] else f, w).value == Evaluate(f, w).value + (if c then v * w[k] else 0.0)
  {
    if c {
      EvaluateInsert(f, w, k, v);
    }
  }

  /** The scores of the actions, in order. */
  function Scores(actions: seq<Direction>, value: Direction -> Result<real>): (r: seq<Result<real>>)
    ensures |r| == |actions|
    ensures forall i :: 0 <= i < |actions| ==> r[i] == value(actions[i])
  {
    seq(|actions|, i requires 0 <= i < |actions| => value(actions[i]))
  }

  /** The list comprehension `[evaluate(a) for a in actions]`: the first failure propagates. */
  function Collect(values: seq<Result<real>>): (r: Result<seq<real>>)
    ensures r.Ok? <==> forall i :: 0 <= i < |values| ==> values[i].Ok?
    ensures r.Ok? ==> |r.value| == |values| && forall i :: 0 <= i < |values| ==> values[i] == Ok(r.value[i])
    ensures r.Err? ==> exists i :: 0 <= i < |values| && values[i] == Err(r.error) &&
                                   forall j :: 0 <= j < i ==> values[j].Ok?
  {
    if values == [] then Ok([])
    else
      match values[0]
      case Err(e) => Err(e)
      case Ok(v) =>
        match Collect(values[1..])
        case Err(e) =>
          assert forall j :: 1 <= j < |values| ==> values[j] == values[1..][j - 1];
          Err(e)
        case Ok(vs) => Ok([v] + vs)
  }

  /**
   * Python `max` of a non-empty list of scores. It is `Game.MaxOf` over
   * reals: action values are reals, while maze distances are naturals, and
   * Dafny has no ordering over a type parameter that would let one
   * definition serve both.
   */
  function MaxReal(xs: seq<real>): (m: real)
    requires |xs| > 0
    ensures m in xs
    ensures forall i :: 0 <= i < |xs| ==> xs[i] <= m
  {
    if |xs| == 1 then xs[0]
    else
      var rest := MaxReal(xs[1..]);
      if rest <= xs[0] then xs[0] else rest
  }

  /** `[a for a, v in zip(actions, values) if v == m]`. */
  function BestActions(actions: seq<Direction>, values: seq<real>, m: real): (r: seq<Direction>)
    requires |values| == |actions|
    ensures forall a :: a in r ==> exists i :: 0 <= i < |actions| && actions[i] == a && values[i] == m
    ensures forall i :: 0 <= i < |actions| && values[i] == m ==> actions[i] in r
  {
    if actions == [] then []
    else
      var rest := BestActions(actions[1..], values[1..], m);
      assert forall i :: 1 <= i < |actions| ==> actions[i] == actions[1..][i - 1] && values[i] == values[1..][i - 1];
      if values[0] == m then [actions[0]] + rest else rest
  }

  /** `random.choice(bestActions)` where `bestActions` are the actions reaching `max(values)`. */
  function PickBest(actions: seq<Direction>, values: seq<real>, pick: nat): (a: Direction)
    requires |values| == |actions| > 0
    ensures exists i :: 0 <= i < |actions| && actions[i] == a &&
                        forall j :: 0 <= j < |values| ==> values[j] <= values[i]
  {
    var maxValue := MaxReal(values);
    var best := BestActions(actions, values, maxValue);
    assert best != [] by {
      var i :| 0 <= i < |values| && values[i] == maxValue;
      assert actions[i] in best;
    }
    var a := best[pick % |best|];
    assert a in best;
    a
  }

  /** Every action at the maximum is the outcome of some random choice. */
  lemma PickBestReachesEveryBest(actions: seq<Direction>, values: seq<real>, i: nat)
    requires |values| == |actions| && i < |actions|
    requires forall j :: 0 <= j < |values| ==> values[j] <= values[i]
    ensures exists pick: nat :: PickBest(actions, values, pick) == actions[i]
  {
    var maxValue := MaxReal(values);
    assert maxValue == values[i];
    var best := BestActions(actions, values, maxValue);
    assert actions[i] in best;
    var k :| 0 <= k < |best| && best[k] == actions[i];
    assert k % |best| == k;
    assert PickBest(actions, values, k) == actions[i];
  }

  /**
   * `ReflexCaptureAgent.chooseAction`: score every legal action, keep those
   * that reach the maximum score and return the one `random.choice` picks,
   * modelled as the element at `pick` modulo the number of best actions.
   */
  function ChooseAction(actions: seq<Direction>, value: Direction -> Result<real>, pick: nat): (r: Result<Direction>)
    ensures r.Ok? <==> |actions| > 0 && forall i :: 0 <= i < |actions| ==> value(actions[i]).Ok?
    ensures |actions| == 0 ==> r == Err(EmptyMax)
    ensures r.Err? && |actions| > 0 ==>
              exists i :: 0 <= i < |actions| && value(actions[i]) == Err(r.error) &&
                          forall j :: 0 <= j < i ==> value(actions[j]).Ok?
    ensures r.Ok? ==> r.value in actions && value(r.value).Ok? &&
                      forall a :: a in actions ==> value(a).Ok? && value(a).value <= value(r.value).value
  {
    var values := Scores(actions, value);
    match Collect(values)
    case Err(e) => Err(e)
    case Ok(vs) =>
      if |vs| == 0 then Err(EmptyMax)
      else
        var a := PickBest(actions, vs, pick);
        Ok(a)
  }

  /** Every action reaching the maximum score is returned for some outcome of the random choice. */
  lemma ChooseActionReachesEveryBest(actions: seq<Direction>, value: Direction -> Result<real>, a: Direction)
    requires a in actions
    requires forall b :: b in actions ==> value(b).Ok?
    requires value(a).Ok? && forall b :: b in actions ==> value(b).value <= value(a).value
    ensures exists pick: nat :: ChooseAction(actions, value, pick) == Ok(a)
  {
    var values := Scores(actions, value);
    assert forall i :: 0 <= i < |values| ==> values[i].Ok?;
    var vs := Collect(values).value;
    var ia :| 0 <= ia < |actions| && actions[ia] == a;
    forall j | 0 <= j < |vs| ensures vs[j] <= vs[ia] {
      assert values[j] == Ok(vs[j]) && values[ia] == Ok(vs[ia]);
      assert actions[j] in actions;
    }
    PickBestReachesEveryBest(actions, vs, ia);
    var pick: nat :| PickBest(actions, vs, pick) == a;
    assert ChooseAction(actions, value, pick) == Ok(a);
  }

  /** `ReflexCaptureAgent.getFeatures`: the successor's score. */
  function BaseFeatures(next: Successor): (f: Features)
    ensures f.Keys <= BaseWeights().Keys
    ensures "successorScore" in f && f["successorScore"] == next.score as real
  {
    map["successorScore" := next.score as real]
  }

  /** `ReflexCaptureAgent.getWeights`. */
  function BaseWeights(): (w: Weights)
    ensures w.Keys == {"successorScore"} && w["successorScore"] > 0.0
  {
    map["successorScore" := 1.0]
  }

  /** The base agent's value of an action is the score of the successor it leads to. */
  lemma BaseScore(next: Successor)
    ensures Evaluate(BaseFeatures(next), BaseWeights()) == Ok(next.score as real)
  {
    EvaluateEntry("successorScore", next.score as real, BaseWeights());
  }
}
