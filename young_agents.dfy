/**
 * youngAgents.py: a food-seeking offensive agent and a defensive agent, both
 * built on `ReflexCaptureAgent`. The offensive agent's `getFeatures` reads
 * `minDistanceToGhost` and `minDistanceToFood` back out of its dictionary
 * after writing them only conditionally, so it raises a KeyError whenever
 * no ghost is visible or no food is left; the model keeps that behaviour.
 */
module YoungAgents {
  import opened Wrappers
  import opened Game
  import opened Reflex
  import MyTeam

  /** The keys `OffensivePacketAgent.getWeights` lists. */
  const OffensiveKeys: set<string> := {"successorScore", "minDistanceToFood", "maxDistanceToFood",
                                       "avgDistanceToFood", "minDistanceToGhost", "numGhosts",
                                       "foodImmediatelyNear", "stop", "ghostImmediatelyNear"}

  /**
   * The first assignments of `OffensivePacketAgent.getFeatures`: the score,
   * and the nearest, farthest and mean food distance when food is left.
   */
  function FoodFeatures(next: Successor): (f: Features)
    ensures "successorScore" in f && f["successorScore"] == next.score as real
    ensures "minDistanceToFood" in f <==> |next.food| > 0
    ensures "maxDistanceToFood" in f <==> |next.food| > 0
    ensures "avgDistanceToFood" in f <==> |next.food| > 0
    ensures f.Keys <= {"successorScore", "minDistanceToFood", "maxDistanceToFood", "avgDistanceToFood"}
  {
    var f0 := map["successorScore" := next.score as real];
    if |next.food| > 0 then
      var near, far := MinOf(next.food) as real, MaxOf(next.food) as real;
      f0["minDistanceToFood" := near]["maxDistanceToFood" := far]["avgDistanceToFood" := (near + far) / 2.0]
    else f0
  }

  /**
   * When food is left, `minDistanceToFood` is the nearest food's distance,
   * `maxDistanceToFood` the farthest's, and `avgDistanceToFood` their mean.
   */
  lemma FoodFeaturesMeaning(next: Successor)
    requires |next.food| > 0
    ensures var f := FoodFeatures(next);
            IsMinIn(f["minDistanceToFood"], next.food) && IsMaxIn(f["maxDistanceToFood"], next.food) &&
            f["avgDistanceToFood"] == (f["minDistanceToFood"] + f["maxDistanceToFood"]) / 2.0
  {
    var near, far := Closest(next.food), Farthest(next.food);
    assert FoodFeatures(next)["minDistanceToFood"] == near;
    assert FoodFeatures(next)["maxDistanceToFood"] == far;
  }

  /** The average food distance lies between the nearest and the farthest. */
  lemma FoodAverageBetween(next: Successor)
    requires |next.food| > 0
    ensures var f := FoodFeatures(next);
            f["minDistanceToFood"] <= f["avgDistanceToFood"] <= f["maxDistanceToFood"]
  {
    var f := FoodFeatures(next);
    FoodFeaturesMeaning(next);
    assert f["minDistanceToFood"] <= next.food[0] as real <= f["maxDistanceToFood"];
  }

  /**
   * `OffensivePacketAgent.getFeatures` before any feature is read back: the
   * food features, then the nearest ghost and the number of visible ghosts
   * when one is visible.
   */
  function OffensiveDraft(next: Successor): (f: Features)
    ensures forall k :: k in FoodFeatures(next) ==> k in f && f[k] == FoodFeatures(next)[k]
    ensures "minDistanceToGhost" in f <==> |Ghosts(next.opponents)| > 0
    ensures "numGhosts" in f <==> |Ghosts(next.opponents)| > 0
    ensures f.Keys <= FoodFeatures(next).Keys + {"minDistanceToGhost", "numGhosts"}
  {
    var f1 := FoodFeatures(next);
    var ghosts := Ghosts(next.opponents);
    if |ghosts| > 0 then f1["minDistanceToGhost" := MinOf(Distances(ghosts)) as real]["numGhosts" := |ghosts| as real]
    else f1
  }

  /**
   * When a ghost is visible, `minDistanceToGhost` is the nearest visible
   * ghost's distance and `numGhosts` the number of visible ghosts.
   */
  lemma OffensiveDraftMeaning(next: Successor)
    requires |Ghosts(next.opponents)| > 0
    ensures var f := OffensiveDraft(next);
            IsNearest(f["minDistanceToGhost"], Ghosts(next.opponents)) &&
            f["numGhosts"] == |Ghosts(next.opponents)| as real && f["numGhosts"] >= 1.0
  {
    var g := Nearest(Ghosts(next.opponents));
    assert OffensiveDraft(next)["minDistanceToGhost"] == g as real;
  }

  /**
   * The rest of `OffensivePacketAgent.getFeatures`: read `minDistanceToGhost`
   * (a KeyError when it was not written) and flag a ghost one step away,
   * read `minDistanceToFood` (a KeyError when it was not written) and flag
   * food one step away, and flag stopping.
   */
  function OffensiveFinish(draft: Features, action: Direction): (r: Result<Features>)
    requires draft.Keys !! {"ghostImmediatelyNear", "foodImmediatelyNear", "stop"}
    ensures r.Ok? <==> "minDistanceToGhost" in draft && "minDistanceToFood" in draft
    ensures "minDistanceToGhost" !in draft ==> r == Err(KeyError("minDistanceToGhost"))
    ensures "minDistanceToGhost" in draft && "minDistanceToFood" !in draft ==> r == Err(KeyError("minDistanceToFood"))
  {
    if "minDistanceToGhost" !in draft then Err(KeyError("minDistanceToGhost"))
    else
      var f1 := if draft["minDistanceToGhost"] == 1.0 then draft["ghostImmediatelyNear" := 1.0] else draft;
      if "minDistanceToFood" !in f1 then Err(KeyError("minDistanceToFood"))
      else
        var f2 := f1["foodImmediatelyNear" := if f1["minDistanceToFood"] == 1.0 then 1.0 else 0.0];
        Ok(if action == Stop then f2["stop" := 1.0] else f2)
  }

  /**
   * When both lookups succeed, the draft's entries stay, `ghostImmediatelyNear`
   * is written (as 1) exactly when the nearest ghost is one step away,
   * `foodImmediatelyNear` is always written (1 when the nearest food is one
   * step away, 0 otherwise), `stop` is written (as 1) exactly when the action
   * is STOP, and nothing else is added.
   */
  lemma OffensiveFinishFlags(draft: Features, action: Direction)
    requires draft.Keys !! {"ghostImmediatelyNear", "foodImmediatelyNear", "stop"}
    requires "minDistanceToGhost" in draft && "minDistanceToFood" in draft
    ensures OffensiveFinish(draft, action).Ok?
    ensures var f := OffensiveFinish(draft, action).value;
            && (forall k :: k in draft ==> k in f && f[k] == draft[k])
            && ("ghostImmediatelyNear" in f <==> draft["minDistanceToGhost"] == 1.0)
            && ("ghostImmediatelyNear" in f ==> f["ghostImmediatelyNear"] == 1.0)
            && "foodImmediatelyNear" in f
            && f["foodImmediatelyNear"] == (if draft["minDistanceToFood"] == 1.0 then 1.0 else 0.0)
            && ("stop" in f <==> action == Stop)
            && ("stop" in f ==> f["stop"] == 1.0)
            && f.Keys <= draft.Keys + {"ghostImmediatelyNear", "foodImmediatelyNear", "stop"}
  {
  }

  /**
   * `OffensivePacketAgent.getFeatures`: the draft, then the lookups and
   * flags. It fails exactly when no ghost is visible or no food is left, and
   * with the KeyError of the first of the two features it reads that was
   * never written.
   */
  function OffensivePacketFeatures(action: Direction, next: Successor): (r: Result<Features>)
    ensures r.Ok? <==> |Ghosts(next.opponents)| > 0 && |next.food| > 0
    ensures |Ghosts(next.opponents)| == 0 ==> r == Err(KeyError("minDistanceToGhost"))
    ensures |Ghosts(next.opponents)| > 0 && |next.food| == 0 ==> r == Err(KeyError("minDistanceToFood"))
  {
    var d := OffensiveDraft(next);
    assert d.Keys !! {"ghostImmediatelyNear", "foodImmediatelyNear", "stop"};
    OffensiveFinish(d, action)
  }

  /** Every feature `OffensivePacketAgent.getFeatures` returns has a weight. */
  lemma OffensivePacketFeaturesWeighted(action: Direction, next: Successor)
    ensures OffensivePacketFeatures(action, next).Ok? ==>
              OffensivePacketFeatures(action, next).value.Keys <= OffensivePacketWeights().Keys
  {
    var d := OffensiveDraft(next);
    assert d.Keys <= OffensiveKeys;
    if OffensivePacketFeatures(action, next).Ok? {
      OffensiveFinishFlags(d, action);
    }
  }

  /** `OffensivePacketAgent.getFeatures` as the source runs it, one assignment and one lookup at a time. */
  method OffensivePacketGetFeatures(action: Direction, next: Successor) returns (r: Result<Features>)
    ensures r == OffensivePacketFeatures(action, next)
  {
    var features: Features := map[];
    features := features["successorScore" := next.score as real];
    if |next.food| > 0 {
      var minDistance := MinOf(next.food);
      var maxDistance := MaxOf(next.food);
      features := features["minDistanceToFood" := minDistance as real];
      features := features["maxDistanceToFood" := maxDistance as real];
      features := features["avgDistanceToFood" := (minDistance as real + maxDistance as real) / 2.0];
    }
    assert features == FoodFeatures(next);
    var ghosts := Filter(next.opponents, IsVisibleGhost);
    if |ghosts| > 0 {
      var minDistance := MinOf(Distances(ghosts));
      features := features["minDistanceToGhost" := minDistance as real];
      features := features["numGhosts" := |ghosts| as real];
    }
    assert features == OffensiveDraft(next);
    if "minDistanceToGhost" !in features {
      return Err(KeyError("minDistanceToGhost"));
    }
    if features["minDistanceToGhost"] == 1.0 {
      features := features["ghostImmediatelyNear" := 1.0];
    }
    if "minDistanceToFood" !in features {
      return Err(KeyError("minDistanceToFood"));
    }
    if features["minDistanceToFood"] == 1.0 {
      features := features["foodImmediatelyNear" := 1.0];
    } else {
      features := features["foodImmediatelyNear" := 0.0];
    }
    if action == Stop {
      features := features["stop" := 1.0];
    }
    r := Ok(features);
  }

  /**
   * `OffensivePacketAgent.getWeights`: every feature it can write has a
   * weight, and only the score, the nearest food, the nearest ghost and
   * stopping have a non-zero one (score up, food and stopping down, ghost
   * distance up).
   */
  function OffensivePacketWeights(): (w: Weights)
    ensures w.Keys == OffensiveKeys
    ensures w["stop"] < w["minDistanceToFood"] < 0.0 < w["minDistanceToGhost"] < w["successorScore"]
  {
    map["successorScore" := 100.0, "minDistanceToFood" := -1.0, "maxDistanceToFood" := 0.0,
        "avgDistanceToFood" := 0.0, "minDistanceToGhost" := 0.5, "numGhosts" := 0.0,
        "foodImmediatelyNear" := 0.0, "stop" := -100.0, "ghostImmediatelyNear" := 0.0]
  }

  /** Only the score, the nearest food, the nearest ghost and stopping carry a non-zero weight. */
  lemma OffensivePacketWeightsNonZero()
    ensures var w := OffensivePacketWeights();
            forall k :: k in w && w[k] != 0.0 ==>
              k == "successorScore" || k == "minDistanceToFood" || k == "minDistanceToGhost" || k == "stop"
  {
  }

  /** The food features score a hundred times the score minus the food distance. */
  lemma FoodFeaturesScore(next: Successor)
    requires |next.food| > 0
    ensures Evaluate(FoodFeatures(next), OffensivePacketWeights()) == Ok(100.0 * next.score as real - MinOf(next.food) as real)
  {
    var w := OffensivePacketWeights();
    var near, far := MinOf(next.food) as real, MaxOf(next.food) as real;
    var empty: Features := map[];
    EvaluateEmpty(w);
    var f0 := empty["successorScore" := next.score as real];
    EvaluateInsertAt(empty, w, "successorScore", next.score as real, 100.0);
    var f1 := f0["minDistanceToFood" := near];
    EvaluateInsertAt(f0, w, "minDistanceToFood", near, -1.0);
    var f2 := f1["maxDistanceToFood" := far];
    EvaluateInsertAt(f1, w, "maxDistanceToFood", far, 0.0);
    var f3 := f2["avgDistanceToFood" := (near + far) / 2.0];
    EvaluateInsertAt(f2, w, "avgDistanceToFood", (near + far) / 2.0, 0.0);
    assert FoodFeatures(next) == f3;
    assert Evaluate(f3, w).value == 100.0 * next.score as real - near;
  }

  /** The draft adds half the ghost distance; the ghost count has weight zero. */
  lemma OffensiveDraftScore(next: Successor)
    requires |Ghosts(next.opponents)| > 0 && |next.food| > 0
    ensures Evaluate(OffensiveDraft(next), OffensivePacketWeights()) == Ok(
              100.0 * next.score as real - MinOf(next.food) as real + 0.5 * MinOf(Distances(Ghosts(next.opponents))) as real)
  {
    var w := OffensivePacketWeights();
    var ghosts := Ghosts(next.opponents);
    var g := MinOf(Distances(ghosts)) as real;
    var f0 := FoodFeatures(next);
    FoodFeaturesScore(next);
    var f1 := f0["minDistanceToGhost" := g];
    EvaluateInsertAt(f0, w, "minDistanceToGhost", g, 0.5);
    var f2 := f1["numGhosts" := |ghosts| as real];
    EvaluateInsertAt(f1, w, "numGhosts", |ghosts| as real, 0.0);
    assert OffensiveDraft(next) == f2;
    assert Evaluate(f2, w).value == Evaluate(f0, w).value + 0.5 * g;
  }

  /** The flags add nothing but the stop penalty: both proximity flags have weight zero. */
  lemma OffensiveFinishScore(d: Features, action: Direction)
    requires d.Keys !! {"ghostImmediatelyNear", "foodImmediatelyNear", "stop"}
    requires d.Keys <= OffensivePacketWeights().Keys
    requires "minDistanceToGhost" in d && "minDistanceToFood" in d
    ensures OffensiveFinish(d, action).Ok?
    ensures Evaluate(OffensiveFinish(d, action).value, OffensivePacketWeights()).Ok?
    ensures Evaluate(OffensiveFinish(d, action).value, OffensivePacketWeights()).value ==
              Evaluate(d, OffensivePacketWeights()).value - (if action == Stop then 100.0 else 0.0)
  {
    var w := OffensivePacketWeights();
    var f1 := if d["minDistanceToGhost"] == 1.0 then d["ghostImmediatelyNear" := 1.0] else d;
    if d["minDistanceToGhost"] == 1.0 {
      EvaluateInsertAt(d, w, "ghostImmediatelyNear", 1.0, 0.0);
    }
    assert Evaluate(f1, w).value == Evaluate(d, w).value;
    var food := if f1["minDistanceToFood"] == 1.0 then 1.0 else 0.0;
    var f2 := f1["foodImmediatelyNear" := food];
    EvaluateInsertAt(f1, w, "foodImmediatelyNear", food, 0.0);
    assert Evaluate(f2, w).value == Evaluate(d, w).value;
    var f3 := if action == Stop then f2["stop" := 1.0] else f2;
    if action == Stop {
      EvaluateInsertAt(f2, w, "stop", 1.0, -100.0);
    }
    assert OffensiveFinish(d, action) == Ok(f3);
  }

  /**
   * The value `OffensivePacketAgent` gives an action whose successor shows
   * a ghost and has food left: `evaluate` succeeds with a hundred times the
   * score, minus the food distance, plus half the ghost distance, minus a
   * hundred for stopping. Otherwise `getFeatures` has already failed.
   */
  lemma OffensivePacketScore(action: Direction, next: Successor)
    requires |Ghosts(next.opponents)| > 0 && |next.food| > 0
    ensures OffensivePacketFeatures(action, next).Ok?
    ensures Evaluate(OffensivePacketFeatures(action, next).value, OffensivePacketWeights()) == Ok(
              100.0 * next.score as real - MinOf(next.food) as real
              + 0.5 * MinOf(Distances(Ghosts(next.opponents))) as real
              - (if action == Stop then 100.0 else 0.0))
  {
    var w := OffensivePacketWeights();
    var d := OffensiveDraft(next);
    OffensiveDraftScore(next);
    var x := Evaluate(d, w).value;
    assert "minDistanceToFood" in FoodFeatures(next);
    assert "minDistanceToGhost" in d && "minDistanceToFood" in d;
    assert d.Keys <= OffensiveKeys;
    OffensiveFinishScore(d, action);
    assert OffensivePacketFeatures(action, next) == OffensiveFinish(d, action);
    var e := Evaluate(OffensiveFinish(d, action).value, w);
    assert e.value == x - (if action == Stop then 100.0 else 0.0);
    assert e == Ok(e.value);
  }

  /**
   * `DefensivePacketAgent.getWeights`: the same table as
   * `DefensiveReflexAgent.getWeights`. (`DefensivePacketAgent.getFeatures`
   * is the same program as `DefensiveReflexAgent.getFeatures`, so the model
   * uses `MyTeam.DefensiveFeatures` and `MyTeam.DefensiveGetFeatures` for it.)
   */
  function DefensivePacketWeights(): (w: Weights)
    ensures w == MyTeam.DefensiveWeights()
  {
    map["numInvaders" := -1000.0, "onDefense" := 100.0, "invaderDistance" := -10.0,
        "stop" := -100.0, "reverse" := -2.0]
  }

  /**
   * `DefensivePacketAgent.getFeatures` (the defensive assignments on an empty
   * dictionary) only writes keys of `DefensivePacketAgent.getWeights`, so
   * `evaluate` never fails for this agent.
   */
  lemma DefensivePacketFeaturesWeighted(cur: Current, action: Direction, next: Successor)
    ensures MyTeam.DefensiveFeatures(cur, action, next).Keys <= DefensivePacketWeights().Keys
    ensures Evaluate(MyTeam.DefensiveFeatures(cur, action, next), DefensivePacketWeights()).Ok?
  {
  }
}
