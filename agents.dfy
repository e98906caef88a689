/**
 * One turn of any of the seven agent classes: the class's `getFeatures` and
 * `getWeights`, scored by `ReflexCaptureAgent.evaluate` and chosen among by
 * `ReflexCaptureAgent.chooseAction`.
 */
module Agents {
  import opened Wrappers
  import opened Game
  import opened Reflex
  import MyTeam
  import YoungAgents
  import TungAgent

  /**
   * The class's `getFeatures` for one action. `inherited` is what the
   * framework's `ReflexCaptureAgent.getFeatures` returns, which only the
   * tung offensive agent reads.
   */
  function FeaturesOf(v: Variant, cur: Current, action: Direction, next: Successor, inherited: Features)
    : (r: Result<Features>)
    ensures r.Ok? <==> v != OffensivePacket || PacketReady(next)
    ensures r.Ok? && InheritedWeighted(v, inherited) ==> r.value.Keys <= WeightsOf(v, cur).Keys
  {
    match v
    case BaseReflex => Ok(BaseFeatures(next))
    case Combined => Ok(MyTeam.CombinedFeatures(cur, action, next))
    case Defensive => Ok(MyTeam.DefensiveFeatures(cur, action, next))
    case OffensivePacket =>
      YoungAgents.OffensivePacketFeaturesWeighted(action, next);
      YoungAgents.OffensivePacketFeatures(action, next)
    case DefensivePacket => Ok(MyTeam.DefensiveFeatures(cur, action, next))
    case TungOffensive =>
      TungAgent.OffensiveFeaturesWeighted(inherited, action, next);
      Ok(TungAgent.OffensiveFeatures(inherited, action, next))
    case TungDefensive => Ok(MyTeam.DefensiveFeatures(cur, action, next))
  }

  /** The class's `getWeights`; the three defensive classes share one table. */
  function WeightsOf(v: Variant, cur: Current): (w: Weights)
    ensures v == Defensive || v == DefensivePacket || v == TungDefensive ==> w == MyTeam.DefensiveWeights()
    ensures "successorScore" in w <==> !(v == Defensive || v == DefensivePacket || v == TungDefensive)
  {
    match v
    case BaseReflex => BaseWeights()
    case Combined => MyTeam.CombinedWeights(cur)
    case Defensive => MyTeam.DefensiveWeights()
    case OffensivePacket => YoungAgents.OffensivePacketWeights()
    case DefensivePacket => YoungAgents.DefensivePacketWeights()
    case TungOffensive => TungAgent.OffensiveWeights()
    case TungDefensive => TungAgent.DefensiveWeights()
  }

  /** Only the combined agent's weights depend on the current state. */
  lemma WeightsOfIgnoresCurrent(v: Variant, cur1: Current, cur2: Current)
    requires v != Combined
    ensures WeightsOf(v, cur1) == WeightsOf(v, cur2)
  {
  }

  /** `evaluate(gameState, action)`: the features times the weights; a failing `getFeatures` propagates. */
  ghost function ActionValue(v: Variant, cur: Current, action: Direction, next: Successor, inherited: Features)
    : (r: Result<real>)
    ensures FeaturesOf(v, cur, action, next, inherited).Err? ==> r == Err(FeaturesOf(v, cur, action, next, inherited).error)
    ensures FeaturesOf(v, cur, action, next, inherited).Ok? ==>
              (r.Ok? <==> FeaturesOf(v, cur, action, next, inherited).value.Keys <= WeightsOf(v, cur).Keys)
  {
    match FeaturesOf(v, cur, action, next, inherited)
    case Err(e) => Err(e)
    case Ok(f) => Evaluate(f, WeightsOf(v, cur))
  }

  /**
   * The framework's features are only read by the tung offensive agent, and
   * there they must carry weights of its table for `evaluate` to succeed.
   */
  ghost predicate InheritedWeighted(v: Variant, inherited: Features)
  {
    v == TungOffensive ==> inherited.Keys <= TungAgent.OffensiveWeights().Keys
  }

  /**
   * Every class but the packet offensive one always produces features whose
   * keys all have weights, so `evaluate` cannot fail for them; the packet
   * offensive agent fails exactly when its successor shows no ghost or no
   * food, with the `KeyError` of the first key it misses.
   */
  lemma ActionValueOk(v: Variant, cur: Current, action: Direction, next: Successor, inherited: Features)
    requires v != OffensivePacket && InheritedWeighted(v, inherited)
    ensures ActionValue(v, cur, action, next, inherited).Ok?
  {
    match v
    case BaseReflex =>
      assert BaseFeatures(next).Keys <= BaseWeights().Keys;
    case Combined =>
    case Defensive =>
    case DefensivePacket =>
    case TungOffensive =>
      TungAgent.OffensiveFeaturesWeighted(inherited, action, next);
    case TungDefensive =>
  }

  /** A packet offensive action scores exactly when its successor shows a ghost and some food. */
  predicate PacketReady(next: Successor)
  {
    |Ghosts(next.opponents)| > 0 && |next.food| > 0
  }

  /** The lookup that fails first when a packet offensive successor is not ready. */
  function PacketError(next: Successor): Error
  {
    if |Ghosts(next.opponents)| == 0 then KeyError("minDistanceToGhost") else KeyError("minDistanceToFood")
  }

  /**
   * The packet offensive agent scores an action exactly when its successor
   * shows a ghost and some food, and otherwise fails with the `KeyError` of
   * the key it reads first and misses.
   */
  lemma PacketActionValue(cur: Current, action: Direction, next: Successor, inherited: Features)
    ensures ActionValue(OffensivePacket, cur, action, next, inherited).Ok? <==> PacketReady(next)
    ensures !PacketReady(next) ==> ActionValue(OffensivePacket, cur, action, next, inherited) == Err(PacketError(next))
  {
    YoungAgents.OffensivePacketFeaturesWeighted(action, next);
  }

  /** The scoring `chooseAction` applies to each legal action. */
  ghost function ValueOf(agent: Agent, cur: Current, next: Direction -> Successor, inherited: Direction -> Features)
    : (value: Direction -> Result<real>)
    ensures forall a :: value(a) == ActionValue(agent.variant, cur, a, next(a), inherited(a))
  {
    a => ActionValue(agent.variant, cur, a, next(a), inherited(a))
  }

  /**
   * One turn: `chooseAction` over the legal actions, where `next` gives each
   * action's successor, `inherited` each action's framework features, and
   * `pick` stands for the outcome of `random.choice`.
   */
  ghost function Decide(agent: Agent, cur: Current, actions: seq<Direction>,
                        next: Direction -> Successor, inherited: Direction -> Features, pick: nat)
    : (r: Result<Direction>)
    ensures |actions| == 0 ==> r == Err(EmptyMax)
    ensures r.Ok? ==> r.value in actions && ActionValue(agent.variant, cur, r.value, next(r.value), inherited(r.value)).Ok?
  {
    ChooseAction(actions, ValueOf(agent, cur, next, inherited), pick)
  }

  /** The action chosen is legal and no legal action scores higher. */
  lemma DecideIsBest(agent: Agent, cur: Current, actions: seq<Direction>,
                     next: Direction -> Successor, inherited: Direction -> Features, pick: nat)
    ensures var r := Decide(agent, cur, actions, next, inherited, pick);
            r.Ok? ==> r.value in actions &&
                      forall a :: a in actions ==>
                        ActionValue(agent.variant, cur, a, next(a), inherited(a)).Ok? &&
                        ActionValue(agent.variant, cur, a, next(a), inherited(a)).value <=
                        ActionValue(agent.variant, cur, r.value, next(r.value), inherited(r.value)).value
  {
  }

  /**
   * For every class but the packet offensive one (and, for the tung
   * offensive agent, framework features with weights) a turn fails only
   * when there is no legal action, and then with `max` of an empty list.
   */
  lemma DecideSucceeds(agent: Agent, cur: Current, actions: seq<Direction>,
                       next: Direction -> Successor, inherited: Direction -> Features, pick: nat)
    requires agent.variant != OffensivePacket
    requires forall a :: a in actions ==> InheritedWeighted(agent.variant, inherited(a))
    ensures Decide(agent, cur, actions, next, inherited, pick).Ok? <==> |actions| > 0
    ensures |actions| == 0 ==> Decide(agent, cur, actions, next, inherited, pick) == Err(EmptyMax)
  {
    forall i | 0 <= i < |actions|
      ensures ActionValue(agent.variant, cur, actions[i], next(actions[i]), inherited(actions[i])).Ok?
    {
      assert actions[i] in actions;
      ActionValueOk(agent.variant, cur, actions[i], next(actions[i]), inherited(actions[i]));
    }
  }

  /**
   * The packet offensive agent completes a turn exactly when there is a
   * legal action and every legal action's successor shows a ghost and some food.
   */
  lemma DecidePacketOffensive(agent: Agent, cur: Current, actions: seq<Direction>,
                             next: Direction -> Successor, inherited: Direction -> Features, pick: nat)
    requires agent.variant == OffensivePacket
    ensures Decide(agent, cur, actions, next, inherited, pick).Ok? <==>
              |actions| > 0 && forall a :: a in actions ==> PacketReady(next(a))
  {
    var value := ValueOf(agent, cur, next, inherited);
    forall a | a in actions
      ensures value(a).Ok? <==> PacketReady(next(a))
    {
      PacketActionValue(cur, a, next(a), inherited(a));
    }
    assert (forall i :: 0 <= i < |actions| ==> value(actions[i]).Ok?) <==>
           (forall a :: a in actions ==> PacketReady(next(a)));
  }

  /**
   * Otherwise the first legal action (in the engine's order) whose successor
   * lacks a ghost or food raises the `KeyError` of the key it misses first.
   */
  lemma DecidePacketOffensiveError(agent: Agent, cur: Current, actions: seq<Direction>,
                                  next: Direction -> Successor, inherited: Direction -> Features, pick: nat)
    requires agent.variant == OffensivePacket
    requires Decide(agent, cur, actions, next, inherited, pick).Err? && |actions| > 0
    ensures var e := Decide(agent, cur, actions, next, inherited, pick).error;
            exists i :: 0 <= i < |actions| && !PacketReady(next(actions[i])) &&
              (forall j :: 0 <= j < i ==> PacketReady(next(actions[j]))) &&
              e == PacketError(next(actions[i]))
  {
    var value := ValueOf(agent, cur, next, inherited);
    var e := ChooseAction(actions, value, pick).error;
    var i :| 0 <= i < |actions| && value(actions[i]) == Err(e) &&
             forall j :: 0 <= j < i ==> value(actions[j]).Ok?;
    forall j | 0 <= j < i
      ensures PacketReady(next(actions[j]))
    {
      PacketActionValue(cur, actions[j], next(actions[j]), inherited(actions[j]));
    }
    PacketActionValue(cur, actions[i], next(actions[i]), inherited(actions[i]));
  }

  /** Every legal action that reaches the maximum score is chosen for some outcome of the random choice. */
  lemma DecideReachesEveryBest(agent: Agent, cur: Current, actions: seq<Direction>,
                               next: Direction -> Successor, inherited: Direction -> Features, a: Direction)
    requires a in actions
    requires forall b :: b in actions ==> ActionValue(agent.variant, cur, b, next(b), inherited(b)).Ok?
    requires forall b :: b in actions ==>
               ActionValue(agent.variant, cur, b, next(b), inherited(b)).value <=
               ActionValue(agent.variant, cur, a, next(a), inherited(a)).value
    ensures exists pick: nat :: Decide(agent, cur, actions, next, inherited, pick) == Ok(a)
  {
    var value := ValueOf(agent, cur, next, inherited);
    ChooseActionReachesEveryBest(actions, value, a);
    var pick: nat :| ChooseAction(actions, value, pick) == Ok(a);
    assert Decide(agent, cur, actions, next, inherited, pick) == Ok(a);
  }
}
