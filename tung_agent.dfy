/**
 * tungAgent.py: an offensive agent that extends the framework's reflex
 * features with distances to food, capsules, visible enemies and scared
 * visible enemies, and a defensive agent identical to
 * `DefensiveReflexAgent`. The dictionary the framework's
 * `ReflexCaptureAgent.getFeatures` returns is an input of the model.
 */
module TungAgent {
  import opened Wrappers
  import opened Game
  import opened Reflex
  import MyTeam

  /** The keys the offensive agent adds to the inherited features. */
  const AddedKeys: set<string> := {"distanceToFood", "distanceToCapsule", "distanceToEnemy",
                                   "distanceToScaredEnemy", "stop"}

  /**
   * `createTeam`: an offensive agent then a defensive agent, always; the
   * class names `first` and `second` are accepted and ignored, and so is `isRed`.
   */
  function CreateTeam(firstIndex: int, secondIndex: int, isRed: bool,
                      first: string := "pacai.agents.capture.dummy.DummyAgent",
                      second: string := "pacai.agents.capture.dummy.DummyAgent"): (team: seq<Agent>)
    ensures |team| == 2
    ensures team[0].variant == TungOffensive && team[0].index == firstIndex
    ensures team[1].variant == TungDefensive && team[1].index == secondIndex
  {
    [Agent(TungOffensive, firstIndex), Agent(TungDefensive, secondIndex)]
  }

  /** The team does not depend on the class names passed in. */
  lemma CreateTeamIgnoresNames(firstIndex: int, secondIndex: int, isRed: bool, first: string, second: string)
    ensures CreateTeam(firstIndex, secondIndex, isRed, first, second) == CreateTeam(firstIndex, secondIndex, isRed)
  {
  }

  /** Whether `OffensiveAgent.getFeatures` assigns key `k` for this successor. */
  predicate Writes(k: string, next: Successor)
  {
    k == "stop"
    || (k == "distanceToFood" && |next.food| > 0)
    || (k == "distanceToCapsule" && |next.capsules| > 0)
    || (k == "distanceToEnemy" && |Visible(next.opponents)| > 0)
    || (k == "distanceToScaredEnemy" && |Scared(Visible(next.opponents))| > 0)
  }

  // The assignments of `OffensiveAgent.getFeatures`, one function each, in the order the source makes them.

  function WithFood(f: Features, food: seq<nat>): (r: Features)
  {
    if |food| > 0 then f["distanceToFood" := MinOf(food) as real] else f
  }

  function WithCapsule(f: Features, capsules: seq<nat>): (r: Features)
  {
    if |capsules| > 0 then f["distanceToCapsule" := MinOf(capsules) as real] else f
  }

  function WithEnemy(f: Features, enemies: seq<Opponent>): (r: Features)
  {
    if |enemies| > 0 then f["distanceToEnemy" := MinOf(Distances(enemies)) as real] else f
  }

  function WithScaredEnemy(f: Features, scared: seq<Opponent>): (r: Features)
  {
    if |scared| > 0 then f["distanceToScaredEnemy" := MinOf(Distances(scared)) as real] else f
  }

  function WithStop(f: Features, action: Direction): (r: Features)
    ensures "stop" in r && r["stop"] == (if action == Stop then 1.0 else 0.0)
  {
    if action == Stop then f["stop" := 1.0] else f["stop" := 0.0]
  }

  /** `OffensiveAgent.getFeatures` on top of the inherited dictionary. */
  function OffensiveFeatures(inherited: Features, action: Direction, next: Successor): (f: Features)
    ensures "stop" in f && f["stop"] == (if action == Stop then 1.0 else 0.0)
  {
    var enemies := Visible(next.opponents);
    var f1 := WithFood(inherited, next.food);
    var f2 := WithCapsule(f1, next.capsules);
    var f3 := WithEnemy(f2, enemies);
    WithStop(WithScaredEnemy(f3, Scared(enemies)), action)
  }

  // Each guarded assignment of the method, as its spec function.

  lemma FoodStep(f: Features, food: seq<nat>, g: Features)
    requires |food| > 0 ==> g == f["distanceToFood" := MinOf(food) as real]
    requires |food| == 0 ==> g == f
    ensures g == WithFood(f, food)
  {
  }

  lemma CapsuleStep(f: Features, capsules: seq<nat>, g: Features)
    requires |capsules| > 0 ==> g == f["distanceToCapsule" := MinOf(capsules) as real]
    requires |capsules| == 0 ==> g == f
    ensures g == WithCapsule(f, capsules)
  {
  }

  lemma EnemyStep(f: Features, enemies: seq<Opponent>, g: Features)
    requires |enemies| > 0 ==> g == f["distanceToEnemy" := MinOf(Distances(enemies)) as real]
    requires |enemies| == 0 ==> g == f
    ensures g == WithEnemy(f, enemies)
  {
  }

  lemma ScaredEnemyStep(f: Features, scared: seq<Opponent>, g: Features)
    requires |scared| > 0 ==> g == f["distanceToScaredEnemy" := MinOf(Distances(scared)) as real]
    requires |scared| == 0 ==> g == f
    ensures g == WithScaredEnemy(f, scared)
  {
  }

  // What each assignment writes and keeps.

  lemma WithFoodWrites(f: Features, food: seq<nat>)
    ensures var r := WithFood(f, food);
            && (|food| > 0 ==> "distanceToFood" in r && IsMinIn(r["distanceToFood"], food))
            && (forall k :: k in r <==> k in f || (k == "distanceToFood" && |food| > 0))
            && (forall k :: k in f && !(k == "distanceToFood" && |food| > 0) ==> r[k] == f[k])
  {
  }

  lemma WithCapsuleWrites(f: Features, capsules: seq<nat>)
    ensures var r := WithCapsule(f, capsules);
            && (|capsules| > 0 ==> "distanceToCapsule" in r && IsMinIn(r["distanceToCapsule"], capsules))
            && (forall k :: k in r <==> k in f || (k == "distanceToCapsule" && |capsules| > 0))
            && (forall k :: k in f && !(k == "distanceToCapsule" && |capsules| > 0) ==> r[k] == f[k])
  {
  }

  lemma WithEnemyWrites(f: Features, enemies: seq<Opponent>)
    ensures var r := WithEnemy(f, enemies);
            && (|enemies| > 0 ==> "distanceToEnemy" in r && IsNearest(r["distanceToEnemy"], enemies))
            && (forall k :: k in r <==> k in f || (k == "distanceToEnemy" && |enemies| > 0))
            && (forall k :: k in f && !(k == "distanceToEnemy" && |enemies| > 0) ==> r[k] == f[k])
  {
  }

  lemma WithScaredEnemyWrites(f: Features, scared: seq<Opponent>)
    ensures var r := WithScaredEnemy(f, scared);
            && (|scared| > 0 ==> "distanceToScaredEnemy" in r && IsNearest(r["distanceToScaredEnemy"], scared))
            && (forall k :: k in r <==> k in f || (k == "distanceToScaredEnemy" && |scared| > 0))
            && (forall k :: k in f && !(k == "distanceToScaredEnemy" && |scared| > 0) ==> r[k] == f[k])
  {
  }

  lemma WithStopWrites(f: Features, action: Direction)
    ensures var r := WithStop(f, action);
            && "stop" in r && r["stop"] == (if action == Stop then 1.0 else 0.0)
            && (forall k :: k in r <==> k in f || k == "stop")
            && (forall k :: k in f && k != "stop" ==> r[k] == f[k])
  {
  }

  /**
   * What `OffensiveAgent.getFeatures` computes: the nearest food, capsule,
   * visible enemy and scared visible enemy when there is one, and `stop`
   * always; every inherited entry it does not assign stays, and nothing else
   * is added.
   */
  lemma OffensiveFeaturesMeaning(inherited: Features, action: Direction, next: Successor)
    ensures var f := OffensiveFeatures(inherited, action, next);
            && (|next.food| > 0 ==> "distanceToFood" in f && IsMinIn(f["distanceToFood"], next.food))
            && (|next.capsules| > 0 ==> "distanceToCapsule" in f && IsMinIn(f["distanceToCapsule"], next.capsules))
            && (|Visible(next.opponents)| > 0 ==>
                  "distanceToEnemy" in f && IsNearest(f["distanceToEnemy"], Visible(next.opponents)))
            && (|Scared(Visible(next.opponents))| > 0 ==>
                  "distanceToScaredEnemy" in f
                  && IsNearest(f["distanceToScaredEnemy"], Scared(Visible(next.opponents))))
            && "stop" in f && f["stop"] == (if action == Stop then 1.0 else 0.0)
            && (forall k :: k in inherited && !Writes(k, next) ==> k in f && f[k] == inherited[k])
            && (forall k :: k in f ==> k in inherited || Writes(k, next))
  {
    var enemies := Visible(next.opponents);
    var f1 := WithFood(inherited, next.food);
    var f2 := WithCapsule(f1, next.capsules);
    var f3 := WithEnemy(f2, enemies);
    var f4 := WithScaredEnemy(f3, Scared(enemies));
    WithFoodWrites(inherited, next.food);
    WithCapsuleWrites(f1, next.capsules);
    WithEnemyWrites(f2, enemies);
    WithScaredEnemyWrites(f3, Scared(enemies));
    WithStopWrites(f4, action);
  }

  /** `OffensiveAgent.getFeatures` as the source runs it, one assignment at a time. */
  method OffensiveGetFeatures(inherited: Features, action: Direction, next: Successor) returns (features: Features)
    ensures features == OffensiveFeatures(inherited, action, next)
  {
    features := inherited;
    if |next.food| > 0 {
      var minDistance := MinOf(next.food);
      features := features["distanceToFood" := minDistance as real];
    }
    FoodStep(inherited, next.food, features);
    ghost var f1 := features;
    if |next.capsules| > 0 {
      var minDistance := MinOf(next.capsules);
      features := features["distanceToCapsule" := minDistance as real];
    }
    CapsuleStep(f1, next.capsules, features);
    ghost var f2 := features;
    var enemies := Visible(next.opponents);
    if |enemies| > 0 {
      var minDistance := MinOf(Distances(enemies));
      features := features["distanceToEnemy" := minDistance as real];
    }
    EnemyStep(f2, enemies, features);
    ghost var f3 := features;
    var scaredEnemies := Scared(enemies);
    if |scaredEnemies| > 0 {
      var minDistance := MinOf(Distances(scaredEnemies));
      features := features["distanceToScaredEnemy" := minDistance as real];
    }
    ScaredEnemyStep(f3, scaredEnemies, features);
    ghost var f4 := features;
    if action == Stop {
      features := features["stop" := 1.0];
    } else {
      features := features["stop" := 0.0];
    }
    assert features == WithStop(f4, action);
  }

  /** A scared visible enemy is a visible enemy, so it is never nearer than the nearest visible enemy. */
  lemma ScaredEnemyNoNearer(inherited: Features, action: Direction, next: Successor)
    requires |Scared(Visible(next.opponents))| > 0
    ensures var f := OffensiveFeatures(inherited, action, next);
            "distanceToEnemy" in f && f["distanceToEnemy"] <= f["distanceToScaredEnemy"]
  {
    OffensiveFeaturesMeaning(inherited, action, next);
    var scared := Scared(Visible(next.opponents));
    var o := scared[0];
    assert o in scared;
    assert o in Visible(next.opponents);
  }

  /**
   * `OffensiveAgent.getWeights`: the score up, food, capsules and scared
   * enemies pulling closer (food most), other enemies pushing away, stopping
   * punished most.
   */
  function OffensiveWeights(): (w: Weights)
    ensures w.Keys == AddedKeys + {"successorScore"}
    ensures w["stop"] < w["distanceToScaredEnemy"] < w["distanceToFood"] < w["distanceToCapsule"] < 0.0
    ensures 0.0 < w["distanceToEnemy"] < w["successorScore"]
  {
    map["successorScore" := 100.0, "distanceToFood" := -5.0, "distanceToCapsule" := -2.0,
        "distanceToEnemy" := 2.0, "distanceToScaredEnemy" := -10.0, "stop" := -100.0]
  }

  /**
   * Every key the offensive agent writes itself has a weight, so its features
   * are all weighted whenever the inherited ones are.
   */
  lemma OffensiveFeaturesWeighted(inherited: Features, action: Direction, next: Successor)
    ensures forall k :: Writes(k, next) ==> k in OffensiveWeights()
    ensures inherited.Keys <= OffensiveWeights().Keys ==>
              OffensiveFeatures(inherited, action, next).Keys <= OffensiveWeights().Keys
  {
    OffensiveFeaturesMeaning(inherited, action, next);
  }

  /** The nearest-food term: minus five per step to the nearest food, when there is food. */
  lemma EvaluateWithFood(f: Features, next: Successor)
    requires f.Keys <= OffensiveWeights().Keys && "distanceToFood" !in f
    ensures Evaluate(WithFood(f, next.food), OffensiveWeights()).Ok?
    ensures Evaluate(WithFood(f, next.food), OffensiveWeights()).value ==
              Evaluate(f, OffensiveWeights()).value - (if |next.food| > 0 then 5.0 * Closest(next.food) else 0.0)
  {
    if |next.food| > 0 {
      EvaluateInsertAt(f, OffensiveWeights(), "distanceToFood", Closest(next.food), -5.0);
    }
  }

  /** The nearest-capsule term: minus two per step to the nearest capsule, when there is one. */
  lemma EvaluateWithCapsule(f: Features, next: Successor)
    requires f.Keys <= OffensiveWeights().Keys && "distanceToCapsule" !in f
    ensures Evaluate(WithCapsule(f, next.capsules), OffensiveWeights()).Ok?
    ensures Evaluate(WithCapsule(f, next.capsules), OffensiveWeights()).value ==
              Evaluate(f, OffensiveWeights()).value
              - (if |next.capsules| > 0 then 2.0 * Closest(next.capsules) else 0.0)
  {
    if |next.capsules| > 0 {
      EvaluateInsertAt(f, OffensiveWeights(), "distanceToCapsule", Closest(next.capsules), -2.0);
    }
  }

  /** The nearest-enemy term: plus two per step to the nearest visible enemy, when one is visible. */
  lemma EvaluateWithEnemy(f: Features, next: Successor)
    requires f.Keys <= OffensiveWeights().Keys && "distanceToEnemy" !in f
    ensures Evaluate(WithEnemy(f, Visible(next.opponents)), OffensiveWeights()).Ok?
    ensures var enemies := Visible(next.opponents);
            Evaluate(WithEnemy(f, Visible(next.opponents)), OffensiveWeights()).value ==
              Evaluate(f, OffensiveWeights()).value
              + (if |enemies| > 0 then 2.0 * Nearest(enemies) as real else 0.0)
  {
    var enemies := Visible(next.opponents);
    if |enemies| > 0 {
      EvaluateInsertAt(f, OffensiveWeights(), "distanceToEnemy", Nearest(enemies) as real, 2.0);
    }
  }

  /** The scared-enemy term: minus ten per step to the nearest scared visible enemy, when there is one. */
  lemma EvaluateWithScaredEnemy(f: Features, next: Successor)
    requires f.Keys <= OffensiveWeights().Keys && "distanceToScaredEnemy" !in f
    ensures Evaluate(WithScaredEnemy(f, Scared(Visible(next.opponents))), OffensiveWeights()).Ok?
    ensures var scared := Scared(Visible(next.opponents));
            Evaluate(WithScaredEnemy(f, Scared(Visible(next.opponents))), OffensiveWeights()).value ==
              Evaluate(f, OffensiveWeights()).value
              - (if |scared| > 0 then 10.0 * Nearest(scared) as real else 0.0)
  {
    var scared := Scared(Visible(next.opponents));
    if |scared| > 0 {
      EvaluateInsertAt(f, OffensiveWeights(), "distanceToScaredEnemy", Nearest(scared) as real, -10.0);
    }
  }

  /** The stop term: minus a hundred for stopping, nothing otherwise (the feature is then 0). */
  lemma EvaluateWithStop(f: Features, action: Direction)
    requires f.Keys <= OffensiveWeights().Keys && "stop" !in f
    ensures Evaluate(WithStop(f, action), OffensiveWeights()).Ok?
    ensures Evaluate(WithStop(f, action), OffensiveWeights()).value ==
              Evaluate(f, OffensiveWeights()).value - (if action == Stop then 100.0 else 0.0)
  {
    var s := if action == Stop then 1.0 else 0.0;
    EvaluateInsertAt(f, OffensiveWeights(), "stop", s, -100.0);
    assert s * -100.0 == (if action == Stop then -100.0 else 0.0);
  }

  /**
   * The value `OffensiveAgent` gives an action when the inherited features
   * are weighted and do not collide with the added ones (the framework's
   * dictionary holds only `successorScore`): their value, minus five per
   * step to food, two per step to a capsule, ten per step to a scared
   * enemy and a hundred for stopping, plus two per step to any enemy.
   */
  lemma OffensiveScore(inherited: Features, action: Direction, next: Successor)
    requires inherited.Keys !! AddedKeys && inherited.Keys <= OffensiveWeights().Keys
    ensures Evaluate(OffensiveFeatures(inherited, action, next), OffensiveWeights()).Ok?
    ensures var enemies := Visible(next.opponents);
            var scared := Scared(enemies);
            Evaluate(OffensiveFeatures(inherited, action, next), OffensiveWeights()).value ==
              Evaluate(inherited, OffensiveWeights()).value
              - (if |next.food| > 0 then 5.0 * Closest(next.food) else 0.0)
              - (if |next.capsules| > 0 then 2.0 * Closest(next.capsules) else 0.0)
              + (if |enemies| > 0 then 2.0 * Nearest(enemies) as real else 0.0)
              - (if |scared| > 0 then 10.0 * Nearest(scared) as real else 0.0)
              - (if action == Stop then 100.0 else 0.0)
  {
    var enemies := Visible(next.opponents);
    var f1 := WithFood(inherited, next.food);
    var f2 := WithCapsule(f1, next.capsules);
    var f3 := WithEnemy(f2, enemies);
    var f4 := WithScaredEnemy(f3, Scared(enemies));
    EvaluateWithFood(inherited, next);
    EvaluateWithCapsule(f1, next);
    EvaluateWithEnemy(f2, next);
    EvaluateWithScaredEnemy(f3, next);
    EvaluateWithStop(f4, action);
  }

  /**
   * With the framework's inherited dictionary (the score alone), the value is
   * a hundred times the score plus the terms above.
   */
  lemma OffensiveScoreFromBase(action: Direction, next: Successor)
    ensures Evaluate(OffensiveFeatures(BaseFeatures(next), action, next), OffensiveWeights()).Ok?
    ensures var enemies := Visible(next.opponents);
            var scared := Scared(enemies);
            Evaluate(OffensiveFeatures(BaseFeatures(next), action, next), OffensiveWeights()).value ==
              100.0 * next.score as real
              - (if |next.food| > 0 then 5.0 * Closest(next.food) else 0.0)
              - (if |next.capsules| > 0 then 2.0 * Closest(next.capsules) else 0.0)
              + (if |enemies| > 0 then 2.0 * Nearest(enemies) as real else 0.0)
              - (if |scared| > 0 then 10.0 * Nearest(scared) as real else 0.0)
              - (if action == Stop then 100.0 else 0.0)
  {
    BaseUnderOffensiveWeights(next);
    OffensiveScore(BaseFeatures(next), action, next);
  }

  /** The framework's dictionary alone is worth a hundred times the score under the offensive table. */
  lemma BaseUnderOffensiveWeights(next: Successor)
    ensures Evaluate(BaseFeatures(next), OffensiveWeights()).Ok?
    ensures Evaluate(BaseFeatures(next), OffensiveWeights()).value == 100.0 * next.score as real
  {
    var w := OffensiveWeights();
    var empty: Features := map[];
    EvaluateEmpty(w);
    EvaluateInsertAt(empty, w, "successorScore", next.score as real, 100.0);
    assert BaseFeatures(next) == empty["successorScore" := next.score as real];
  }

  /**
   * `DefensiveAgent.getWeights`: the same table as
   * `DefensiveReflexAgent.getWeights`. (`DefensiveAgent.getFeatures` is the
   * same program as `DefensiveReflexAgent.getFeatures`, so the model uses
   * `MyTeam.DefensiveFeatures` and `MyTeam.DefensiveGetFeatures` for it.)
   */
  function DefensiveWeights(): (w: Weights)
    ensures w == MyTeam.DefensiveWeights()
  {
    map["numInvaders" := -1000.0, "onDefense" := 100.0, "invaderDistance" := -10.0,
        "stop" := -100.0, "reverse" := -2.0]
  }

  /**
   * `DefensiveAgent.getFeatures` (the defensive assignments on an empty
   * dictionary) only writes keys of `DefensiveAgent.getWeights`, so
   * `evaluate` never fails for this agent.
   */
  lemma DefensiveFeaturesWeighted(cur: Current, action: Direction, next: Successor)
    ensures MyTeam.DefensiveFeatures(cur, action, next).Keys <= DefensiveWeights().Keys
    ensures Evaluate(MyTeam.DefensiveFeatures(cur, action, next), DefensiveWeights()).Ok?
  {
  }
}
