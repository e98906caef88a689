/**
 * myTeam.py: the team factory and the two reflex agents built on
 * `ReflexCaptureAgent`, `CombinedReflexAgent` (score or defend, depending on
 * whether invaders are visible) and `DefensiveReflexAgent`.
 */
module MyTeam {
  import opened Wrappers
  import opened Game
  import opened Reflex

  /**
   * `createTeam`: the agent classes named by `first` and `second` (loaded by
   * name in the source, given directly here), built with `firstIndex` and
   * `secondIndex` in that order. `isRed` is not used.
   */
  function CreateTeam(firstIndex: int, secondIndex: int, isRed: bool,
                      first: Variant := Combined, second: Variant := Defensive): (team: seq<Agent>)
    ensures |team| == 2
    ensures team[0].variant == first && team[0].index == firstIndex
    ensures team[1].variant == second && team[1].index == secondIndex
  {
    [Agent(first, firstIndex), Agent(second, secondIndex)]
  }

  /** Without class names the team is a combined agent followed by a defensive one. */
  lemma CreateTeamDefault(firstIndex: int, secondIndex: int, isRed: bool)
    ensures CreateTeam(firstIndex, secondIndex, isRed) ==
            [Agent(Combined, firstIndex), Agent(Defensive, secondIndex)]
  {
  }

  /** The keys the defensive assignments write. */
  const DefensiveKeys: set<string> := {"onDefense", "numInvaders", "invaderDistance", "stop", "reverse"}

  /**
   * The defensive assignments with their values left open: `onDefense` and
   * `numInvaders` always, the other three each under its own condition.
   */
  function Assignments(base: Features, onDefense: real, numInvaders: real,
                       hasInvader: bool, invaderDistance: real, stop: bool, reverse: bool): Features
  {
    var f1 := base["onDefense" := onDefense]["numInvaders" := numInvaders];
    var f2 := if hasInvader then f1["invaderDistance" := invaderDistance] else f1;
    var f3 := if stop then f2["stop" := 1.0] else f2;
    if reverse then f3["reverse" := 1.0] else f3
  }

  /**
   * The defensive assignments of `DefensiveReflexAgent.getFeatures`, applied
   * to a dictionary that holds none of their keys yet (the same assignments
   * end `CombinedReflexAgent.getFeatures`, and appear again as
   * `DefensivePacketAgent.getFeatures` in youngAgents.py and as
   * `DefensiveAgent.getFeatures` in tungAgent.py).
   */
  function DefensiveUpdates(base: Features, cur: Current, action: Direction, next: Successor): (f: Features)
    requires base.Keys !! DefensiveKeys
    ensures f.Keys <= base.Keys + DefensiveKeys
  {
    var invaders := Invaders(next.opponents);
    Assignments(base, if next.isPacman then 0.0 else 1.0, |invaders| as real, |invaders| > 0,
                if |invaders| > 0 then MinOf(Distances(invaders)) as real else 0.0,
                action == Stop, action == Reverse(cur.heading))
  }

  /**
   * What the defensive assignments write: `onDefense` (0 for a Pacman, 1
   * for a ghost) and the number of visible invaders always, the distance to
   * the nearest invader exactly when one is visible, and the stop and
   * reverse flags (as 1) exactly when the action stops or turns back; every
   * entry of the dictionary they start from is kept.
   */
  lemma DefensiveUpdatesMeaning(base: Features, cur: Current, action: Direction, next: Successor)
    requires base.Keys !! DefensiveKeys
    ensures var f := DefensiveUpdates(base, cur, action, next);
            && "onDefense" in f && f["onDefense"] == (if next.isPacman then 0.0 else 1.0)
            && "numInvaders" in f && f["numInvaders"] == |Invaders(next.opponents)| as real
            && ("invaderDistance" in f <==> |Invaders(next.opponents)| > 0)
            && ("invaderDistance" in f ==> IsNearest(f["invaderDistance"], Invaders(next.opponents)))
            && ("stop" in f <==> action == Stop)
            && ("stop" in f ==> f["stop"] == 1.0)
            && ("reverse" in f <==> action == Reverse(cur.heading))
            && ("reverse" in f ==> f["reverse"] == 1.0)
            && (forall k :: k in base ==> k in f && f[k] == base[k])
  {
    var invaders := Invaders(next.opponents);
    if |invaders| > 0 {
      var d := Nearest(invaders);
      assert DefensiveUpdates(base, cur, action, next)["invaderDistance"] == d as real;
    }
  }

  /** The features of `DefensiveReflexAgent.getFeatures`: the defensive assignments on an empty dictionary. */
  function DefensiveFeatures(cur: Current, action: Direction, next: Successor): (f: Features)
    ensures f.Keys <= DefensiveWeights().Keys
  {
    DefensiveUpdates(map[], cur, action, next)
  }

  /**
   * The defensive assignments as the source writes them, one at a time:
   * `onDefense` is set to 1 and then overwritten with 0 for a Pacman.
   */
  method AssignDefensive(base: Features, cur: Current, action: Direction, next: Successor) returns (features: Features)
    requires base.Keys !! DefensiveKeys
    ensures features == DefensiveUpdates(base, cur, action, next)
  {
    features := base;
    features := features["onDefense" := 1.0];
    if next.isPacman {
      features := features["onDefense" := 0.0];
    }
    ghost var onDefense := if next.isPacman then 0.0 else 1.0;
    assert features == base["onDefense" := onDefense];
    var invaders := Filter(next.opponents, IsInvader);
    features := features["numInvaders" := |invaders| as real];
    ghost var d := 0.0;
    if |invaders| > 0 {
      var dists := Distances(invaders);
      features := features["invaderDistance" := MinOf(dists) as real];
      d := MinOf(dists) as real;
    }
    if action == Stop {
      features := features["stop" := 1.0];
    }
    var rev := Reverse(cur.heading);
    if action == rev {
      features := features["reverse" := 1.0];
    }
    assert features == Assignments(base, onDefense, |invaders| as real, |invaders| > 0, d,
                                   action == Stop, action == Reverse(cur.heading));
  }

  /** `DefensiveReflexAgent.getFeatures`: a fresh dictionary and the defensive assignments. */
  method DefensiveGetFeatures(cur: Current, action: Direction, next: Successor) returns (features: Features)
    ensures features == DefensiveFeatures(cur, action, next)
  {
    features := map[];
    features := AssignDefensive(features, cur, action, next);
  }

  /** `DefensiveReflexAgent.getWeights`: invaders cost most, then stopping, then distance and reversing. */
  function DefensiveWeights(): (w: Weights)
    ensures w.Keys == {"numInvaders", "onDefense", "invaderDistance", "stop", "reverse"}
    ensures w["numInvaders"] < w["stop"] < w["invaderDistance"] < w["reverse"] < 0.0 < w["onDefense"]
  {
    map["numInvaders" := -1000.0, "onDefense" := 100.0, "invaderDistance" := -10.0,
        "stop" := -100.0, "reverse" := -2.0]
  }

  /**
   * Each defensive assignment adds its value times its weight: `onDefense`
   * its weight for a ghost and nothing for a Pacman, each flag its weight,
   * and the invader count and distance times the two weights given as numbers.
   */
  lemma EvaluateDefensiveAssignments(base: Features, w: Weights, isPacman: bool, numInvaders: real,
                                     hasInvader: bool, invaderDistance: real, stop: bool, reverse: bool,
                                     numInvadersWeight: real, invaderDistanceWeight: real)
    requires base.Keys !! DefensiveKeys
    requires base.Keys <= w.Keys && DefensiveKeys <= w.Keys
    requires w["numInvaders"] == numInvadersWeight && w["invaderDistance"] == invaderDistanceWeight
    ensures Evaluate(Assignments(base, if isPacman then 0.0 else 1.0, numInvaders, hasInvader,
                                 invaderDistance, stop, reverse), w) == Ok(
              Evaluate(base, w).value
              + (if isPacman then 0.0 else w["onDefense"])
              + numInvaders * numInvadersWeight
              + (if hasInvader then invaderDistance * invaderDistanceWeight else 0.0)
              + (if stop then w["stop"] else 0.0)
              + (if reverse then w["reverse"] else 0.0))
  {
    var onDefense := if isPacman then 0.0 else 1.0;
    var f0 := base["onDefense" := onDefense];
    var t0 := if isPacman then 0.0 else w["onDefense"];
    if isPacman {
      EvaluateInsertAt(base, w, "onDefense", 0.0, w["onDefense"]);
    } else {
      EvaluateInsertAt(base, w, "onDefense", 1.0, w["onDefense"]);
    }
    assert Evaluate(f0, w).value == Evaluate(base, w).value + t0;
    var f1 := f0["numInvaders" := numInvaders];
    EvaluateInsertAt(f0, w, "numInvaders", numInvaders, numInvadersWeight);
    var t1 := numInvaders * numInvadersWeight;
    assert Evaluate(f1, w).value == Evaluate(base, w).value + t0 + t1;
    var f2, t2 := f1, 0.0;
    if hasInvader {
      f2, t2 := f1["invaderDistance" := invaderDistance], invaderDistance * invaderDistanceWeight;
      EvaluateInsertAt(f1, w, "invaderDistance", invaderDistance, invaderDistanceWeight);
    }
    assert Evaluate(f2, w).value == Evaluate(base, w).value + t0 + t1 + t2;
    var f3, t3 := f2, 0.0;
    if stop {
      f3, t3 := f2["stop" := 1.0], w["stop"];
      EvaluateInsertAt(f2, w, "stop", 1.0, w["stop"]);
    }
    assert Evaluate(f3, w).value == Evaluate(base, w).value + t0 + t1 + t2 + t3;
    var f4, t4 := f3, 0.0;
    if reverse {
      f4, t4 := f3["reverse" := 1.0], w["reverse"];
      EvaluateInsertAt(f3, w, "reverse", 1.0, w["reverse"]);
    }
    assert Evaluate(f4, w).value == Evaluate(base, w).value + t0 + t1 + t2 + t3 + t4;
    assert f4 == Assignments(base, onDefense, numInvaders, hasInvader, invaderDistance, stop, reverse);
    var e := Evaluate(f4, w);
    assert e == Ok(e.value);
  }

  /**
   * Under a weight table that weights all the defensive features, with -1000
   * per invader and -10 per step to the nearest one (the tables of
   * `DefensiveReflexAgent` and of both situations of `CombinedReflexAgent`),
   * the defensive assignments add one term per feature they write to the
   * value of the dictionary they start from.
   */
  lemma DefensiveUpdatesScore(base: Features, cur: Current, action: Direction, next: Successor, w: Weights)
    requires base.Keys !! DefensiveKeys
    requires base.Keys <= w.Keys && DefensiveKeys <= w.Keys
    requires w["numInvaders"] == -1000.0 && w["invaderDistance"] == -10.0
    ensures var invaders := Invaders(next.opponents);
            Evaluate(DefensiveUpdates(base, cur, action, next), w) == Ok(
              Evaluate(base, w).value
              + (if next.isPacman then 0.0 else w["onDefense"])
              - 1000.0 * |invaders| as real
              - (if |invaders| > 0 then 10.0 * Nearest(invaders) as real else 0.0)
              + (if action == Stop then w["stop"] else 0.0)
              + (if action == Reverse(cur.heading) then w["reverse"] else 0.0))
  {
    var invaders := Invaders(next.opponents);
    var n := |invaders| as real;
    var stop, reverse := action == Stop, action == Reverse(cur.heading);
    if |invaders| > 0 {
      var d := MinOf(Distances(invaders)) as real;
      assert DefensiveUpdates(base, cur, action, next)
          == Assignments(base, if next.isPacman then 0.0 else 1.0, n, true, d, stop, reverse);
      EvaluateDefensiveAssignments(base, w, next.isPacman, n, true, d, stop, reverse, -1000.0, -10.0);
    } else {
      assert DefensiveUpdates(base, cur, action, next)
          == Assignments(base, if next.isPacman then 0.0 else 1.0, n, false, 0.0, stop, reverse);
      EvaluateDefensiveAssignments(base, w, next.isPacman, n, false, 0.0, stop, reverse, -1000.0, -10.0);
    }
  }

  /** The value `DefensiveReflexAgent` gives an action: `evaluate` never fails and adds up these terms. */
  lemma DefensiveScore(cur: Current, action: Direction, next: Successor)
    ensures Evaluate(DefensiveFeatures(cur, action, next), DefensiveWeights()) == Ok(
              (if next.isPacman then 0.0 else 100.0)
              - 1000.0 * |Invaders(next.opponents)| as real
              - (if |Invaders(next.opponents)| > 0 then 10.0 * Nearest(Invaders(next.opponents)) as real else 0.0)
              - (if action == Stop then 100.0 else 0.0)
              - (if action == Reverse(cur.heading) then 2.0 else 0.0))
  {
    var w := DefensiveWeights();
    EvaluateEmpty(w);
    DefensiveUpdatesScore(map[], cur, action, next, w);
  }

  /** The first two assignments of `CombinedReflexAgent.getFeatures`: the score and the distance to the nearest food. */
  function ScoreAndFood(next: Successor): (f: Features)
    ensures "successorScore" in f && f["successorScore"] == next.score as real
    ensures "distanceToFood" in f <==> |next.food| > 0
    ensures "distanceToFood" in f ==> IsMinIn(f["distanceToFood"], next.food)
    ensures f.Keys <= {"successorScore", "distanceToFood"}
  {
    var f0 := map["successorScore" := next.score as real];
    if |next.food| > 0 then f0["distanceToFood" := Closest(next.food)] else f0
  }

  /**
   * The features of `CombinedReflexAgent.getFeatures`: the score, the
   * nearest food, then the defensive assignments; every key is weighted.
   */
  function CombinedFeatures(cur: Current, action: Direction, next: Successor): (f: Features)
    ensures f.Keys <= CombinedWeights(cur).Keys
  {
    DefensiveUpdates(ScoreAndFood(next), cur, action, next)
  }

  /** The combined features keep the score and the food distance under the defensive assignments. */
  lemma CombinedFeaturesMeaning(cur: Current, action: Direction, next: Successor)
    ensures var f := CombinedFeatures(cur, action, next);
            && "successorScore" in f && f["successorScore"] == next.score as real
            && ("distanceToFood" in f <==> |next.food| > 0)
            && ("distanceToFood" in f ==> IsMinIn(f["distanceToFood"], next.food))
  {
    DefensiveUpdatesMeaning(ScoreAndFood(next), cur, action, next);
  }

  /** `CombinedReflexAgent.getFeatures`, building the dictionary one assignment at a time. */
  method CombinedGetFeatures(cur: Current, action: Direction, next: Successor) returns (features: Features)
    ensures features == CombinedFeatures(cur, action, next)
  {
    features := map[];
    features := features["successorScore" := next.score as real];
    if |next.food| > 0 {
      var minDistance := MinOf(next.food);
      features := features["distanceToFood" := minDistance as real];
    }
    assert features == ScoreAndFood(next);
    features := AssignDefensive(features, cur, action, next);
  }

  /**
   * `CombinedReflexAgent.getWeights`: one table when an invader is visible in
   * the current state, another otherwise; the invader, stop and reverse
   * weights are the same in both.
   */
  function CombinedWeights(cur: Current): (w: Weights)
    ensures w.Keys == {"successorScore", "distanceToFood", "numInvaders", "onDefense",
                       "invaderDistance", "stop", "reverse"}
    ensures |Invaders(cur.opponents)| > 0 ==>
              w["successorScore"] == 1.0 && w["distanceToFood"] == 0.0 && w["onDefense"] == 3.0
    ensures |Invaders(cur.opponents)| == 0 ==>
              w["successorScore"] == 100.0 && w["distanceToFood"] == -1.0 && w["onDefense"] == 0.0
    ensures w["numInvaders"] == -1000.0 && w["invaderDistance"] == -10.0
    ensures w["stop"] == -1000.0 && w["reverse"] == -2.0
  {
    if |Invaders(cur.opponents)| > 0 then
      map["successorScore" := 1.0, "distanceToFood" := 0.0, "numInvaders" := -1000.0,
          "onDefense" := 3.0, "invaderDistance" := -10.0, "stop" := -1000.0, "reverse" := -2.0]
    else
      map["successorScore" := 100.0, "distanceToFood" := -1.0, "numInvaders" := -1000.0,
          "onDefense" := 0.0, "invaderDistance" := -10.0, "stop" := -1000.0, "reverse" := -2.0]
  }

  /**
   * The combined weight table is chosen by whether some opponent in the
   * current state is a visible Pacman.
   */
  lemma CombinedWeightsMode(cur: Current)
    ensures var w := CombinedWeights(cur);
            (exists o :: o in cur.opponents && IsInvader(o)) <==>
              w["successorScore"] == 1.0 && w["distanceToFood"] == 0.0 && w["onDefense"] == 3.0
    ensures var w := CombinedWeights(cur);
            !(exists o :: o in cur.opponents && IsInvader(o)) <==>
              w["successorScore"] == 100.0 && w["distanceToFood"] == -1.0 && w["onDefense"] == 0.0
  {
    FilterNonEmpty(cur.opponents, IsInvader);
  }

  /** The score and the food distance add their values times their weights. */
  lemma EvaluateScoreAndFood(w: Weights, score: real, hasFood: bool, food: real,
                             scoreWeight: real, foodWeight: real)
    requires "successorScore" in w && "distanceToFood" in w
    requires w["successorScore"] == scoreWeight && w["distanceToFood"] == foodWeight
    ensures var f0 := map["successorScore" := score];
            Evaluate(if hasFood then f0["distanceToFood" := food] else f0, w)
            == Ok(score * scoreWeight + (if hasFood then food * foodWeight else 0.0))
  {
    var f0 := map["successorScore" := score];
    EvaluateEntry("successorScore", score, w);
    EvaluateInsertWhen(hasFood, f0, w, "distanceToFood", food);
    assert Evaluate(if hasFood then f0["distanceToFood" := food] else f0, w).value
        == score * scoreWeight + (if hasFood then food * foodWeight else 0.0);
  }

  /** What the defensive features add to a combined agent's value under either of its weight tables. */
  function CombinedDefense(cur: Current, action: Direction, next: Successor): real
  {
    var invaders := Invaders(next.opponents);
    - 1000.0 * |invaders| as real
    - (if |invaders| > 0 then 10.0 * Nearest(invaders) as real else 0.0)
    - (if action == Stop then 1000.0 else 0.0)
    - (if action == Reverse(cur.heading) then 2.0 else 0.0)
  }

  /**
   * The value `CombinedReflexAgent` gives an action while an invader is
   * visible: `evaluate` never fails, the score counts once, the food not at
   * all and being a ghost 3.
   */
  lemma CombinedScoreDefending(cur: Current, action: Direction, next: Successor)
    requires |Invaders(cur.opponents)| > 0
    ensures Evaluate(CombinedFeatures(cur, action, next), CombinedWeights(cur)) == Ok(
              next.score as real + (if next.isPacman then 0.0 else 3.0) + CombinedDefense(cur, action, next))
  {
    var w := CombinedWeights(cur);
    var food := if |next.food| > 0 then Closest(next.food) else 0.0;
    assert ScoreAndFood(next) == (var f0 := map["successorScore" := next.score as real];
                                  if |next.food| > 0 then f0["distanceToFood" := food] else f0);
    EvaluateScoreAndFood(w, next.score as real, |next.food| > 0, food, 1.0, 0.0);
    DefensiveUpdatesScore(ScoreAndFood(next), cur, action, next, w);
  }

  /**
   * The value `CombinedReflexAgent` gives an action while no invader is
   * visible: `evaluate` never fails, the score counts a hundredfold, each
   * step to the nearest food costs 1 and being a ghost counts nothing.
   */
  lemma CombinedScoreAttacking(cur: Current, action: Direction, next: Successor)
    requires |Invaders(cur.opponents)| == 0
    ensures Evaluate(CombinedFeatures(cur, action, next), CombinedWeights(cur)) == Ok(
              100.0 * next.score as real - (if |next.food| > 0 then Closest(next.food) else 0.0)
              + CombinedDefense(cur, action, next))
  {
    var w := CombinedWeights(cur);
    var food := if |next.food| > 0 then Closest(next.food) else 0.0;
    assert ScoreAndFood(next) == (var f0 := map["successorScore" := next.score as real];
                                  if |next.food| > 0 then f0["distanceToFood" := food] else f0);
    EvaluateScoreAndFood(w, next.score as real, |next.food| > 0, food, 100.0, -1.0);
    DefensiveUpdatesScore(ScoreAndFood(next), cur, action, next, w);
  }
}
