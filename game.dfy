/**
 * The facts of a game state that the reflex agents read. The game engine
 * itself (successor generation, agent states, food grids, path finding) is
 * not part of this model: each engine query becomes a field of a record.
 */
module Game {

  /** The engine's action and heading names. */
  datatype Direction = North | South | East | West | Stop

  /** The engine's `Directions.REVERSE` table: the opposite heading; STOP is its own reverse. */
  function Reverse(d: Direction): (r: Direction)
    ensures r == d <==> d == Stop
  {
    match d
    case North => South
    case South => North
    case East => West
    case West => East
    case Stop => Stop
  }

  /** Reversing twice gives back the heading. */
  lemma ReverseInvolution(d: Direction)
    ensures Reverse(Reverse(d)) == d
  {
  }

  /**
   * One opponent's agent state as the agents query it: `isPacman()`, whether
   * `getPosition()` is not None, `_scaredTimer`, and the maze distance from
   * the agent's own position in the same state to the opponent (read only
   * when the opponent is visible).
   */
  datatype Opponent = Opponent(isPacman: bool, visible: bool, scaredTimer: int, distance: nat)

  /**
   * The successor state an action leads to, as the feature functions read it:
   * the team score, whether the agent itself is a Pacman there, the maze
   * distances from the agent to every remaining food and capsule, and the
   * opponents.
   */
  datatype Successor = Successor(
    score: int,
    isPacman: bool,
    food: seq<nat>,
    capsules: seq<nat>,
    opponents: seq<Opponent>)

  /** The current state before the action: the agent's heading and the opponents. */
  datatype Current = Current(heading: Direction, opponents: seq<Opponent>)

  /** The agent classes of the three team files. */
  datatype Variant =
    | BaseReflex        // myTeam.py ReflexCaptureAgent
    | Combined          // myTeam.py CombinedReflexAgent
    | Defensive         // myTeam.py DefensiveReflexAgent
    | OffensivePacket   // youngAgents.py OffensivePacketAgent
    | DefensivePacket   // youngAgents.py DefensivePacketAgent
    | TungOffensive     // tungAgent.py OffensiveAgent
    | TungDefensive     // tungAgent.py DefensiveAgent

  /** An agent instance: its class and its agent index. */
  datatype Agent = Agent(variant: Variant, index: int)

  predicate IsInvader(o: Opponent) { o.isPacman && o.visible }
  predicate IsVisibleGhost(o: Opponent) { !o.isPacman && o.visible }
  predicate IsVisible(o: Opponent) { o.visible }
  predicate IsScared(o: Opponent) { o.scaredTimer > 0 }

  /** The list comprehension `[a for a in ops if p(a)]`: order and multiplicity kept. */
  function Filter(ops: seq<Opponent>, p: Opponent -> bool): (r: seq<Opponent>)
    ensures |r| <= |ops|
  {
    if ops == [] then []
    else
      assert ops == [ops[0]] + ops[1..];
      var rest := Filter(ops[1..], p);
      if p(ops[0]) then [ops[0]] + rest else rest
  }

  /** An opponent is in the filtered list exactly when it is in the input and passes the test. */
  lemma {:induction false} FilterMembers(ops: seq<Opponent>, p: Opponent -> bool)
    ensures forall o :: o in Filter(ops, p) <==> o in ops && p(o)
  {
    if ops != [] {
      FilterMembers(ops[1..], p);
      assert ops == [ops[0]] + ops[1..];
    }
  }

  /**
   * Each opponent that passes the test occurs in the filtered list as often
   * as in the input, and every other opponent not at all; so `len` of the
   * filtered list counts the opponents that pass.
   */
  lemma {:induction false} FilterCount(ops: seq<Opponent>, p: Opponent -> bool)
    ensures forall o :: multiset(Filter(ops, p))[o] == (if p(o) then multiset(ops)[o] else 0)
  {
    if ops != [] {
      FilterCount(ops[1..], p);
      assert ops == [ops[0]] + ops[1..];
      assert multiset(ops) == multiset{ops[0]} + multiset(ops[1..]);
    }
  }

  /** The visible opponents that are Pacmen (the `invaders` of the defensive agents). */
  function Invaders(ops: seq<Opponent>): (r: seq<Opponent>)
    ensures forall o {:trigger o in r} :: o in r <==> o in ops && o.isPacman && o.visible
  {
    FilterMembers(ops, IsInvader);
    Filter(ops, IsInvader)
  }

  /** The visible opponents that are ghosts (the `ghostPos` list of the packet offensive agent). */
  function Ghosts(ops: seq<Opponent>): (r: seq<Opponent>)
    ensures forall o {:trigger o in r} :: o in r <==> o in ops && !o.isPacman && o.visible
  {
    FilterMembers(ops, IsVisibleGhost);
    Filter(ops, IsVisibleGhost)
  }

  /** The visible opponents, Pacman or ghost (the `enemies` list of the tung offensive agent). */
  function Visible(ops: seq<Opponent>): (r: seq<Opponent>)
    ensures forall o {:trigger o in r} :: o in r <==> o in ops && o.visible
  {
    FilterMembers(ops, IsVisible);
    Filter(ops, IsVisible)
  }

  /** The opponents whose scared timer is running. */
  function Scared(ops: seq<Opponent>): (r: seq<Opponent>)
    ensures forall o {:trigger o in r} :: o in r <==> o in ops && o.scaredTimer > 0
  {
    FilterMembers(ops, IsScared);
    Filter(ops, IsScared)
  }

  /** A filtered list is non-empty exactly when some opponent passes the test. */
  lemma {:induction false} FilterNonEmpty(ops: seq<Opponent>, p: Opponent -> bool)
    ensures |Filter(ops, p)| > 0 <==> exists o :: o in ops && p(o)
  {
    if ops != [] {
      FilterNonEmpty(ops[1..], p);
      assert ops == [ops[0]] + ops[1..];
    }
  }

  /** Maze distances to a list of opponents, in order. */
  function Distances(ops: seq<Opponent>): (r: seq<nat>)
    ensures |r| == |ops|
    ensures forall i :: 0 <= i < |ops| ==> r[i] == ops[i].distance
  {
    seq(|ops|, i requires 0 <= i < |ops| => ops[i].distance)
  }

  /** Python `min` of a non-empty list of distances. */
  function MinOf(xs: seq<nat>): (m: nat)
    requires |xs| > 0
    ensures m in xs
    ensures forall i :: 0 <= i < |xs| ==> m <= xs[i]
  {
    if |xs| == 1 then xs[0]
    else
      var rest := MinOf(xs[1..]);
      if xs[0] <= rest then xs[0] else rest
  }

  /** Python `max` of a non-empty list of distances. */
  function MaxOf(xs: seq<nat>): (m: nat)
    requires |xs| > 0
    ensures m in xs
    ensures forall i :: 0 <= i < |xs| ==> xs[i] <= m
  {
    if |xs| == 1 then xs[0]
    else
      var rest := MaxOf(xs[1..]);
      if rest <= xs[0] then xs[0] else rest
  }

  /** `x` is the smallest of the distances in `xs`. */
  predicate IsMinIn(x: real, xs: seq<nat>)
  {
    (exists i :: 0 <= i < |xs| && x == xs[i] as real) &&
    forall i :: 0 <= i < |xs| ==> x <= xs[i] as real
  }

  /** `x` is the largest of the distances in `xs`. */
  predicate IsMaxIn(x: real, xs: seq<nat>)
  {
    (exists i :: 0 <= i < |xs| && x == xs[i] as real) &&
    forall i :: 0 <= i < |xs| ==> xs[i] as real <= x
  }

  /** `x` is the smallest maze distance to any opponent of `ops`. */
  predicate IsNearest(x: real, ops: seq<Opponent>)
  {
    (exists o :: o in ops && x == o.distance as real) &&
    forall o :: o in ops ==> x <= o.distance as real
  }

  /** The distance to the nearest opponent of a non-empty list. */
  function Nearest(ops: seq<Opponent>): (d: nat)
    requires |ops| > 0
    ensures IsNearest(d as real, ops)
  {
    var ds := Distances(ops);
    var m := MinOf(ds);
    assert exists i :: 0 <= i < |ds| && m == ds[i];
    m
  }

  /** Nearest food or capsule, as a real-valued feature. */
  function Closest(xs: seq<nat>): (d: real)
    requires |xs| > 0
    ensures IsMinIn(d, xs)
  {
    MinOf(xs) as real
  }

  /** Farthest food, as a real-valued feature. */
  function Farthest(xs: seq<nat>): (d: real)
    requires |xs| > 0
    ensures IsMaxIn(d, xs)
  {
    MaxOf(xs) as real
  }
}
