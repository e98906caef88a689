# Reflex capture agents of pacai: one turn, verified

This project models how the reflex capture agents of the pacai student team
files (`myTeam.py`, `youngAgents.py`, `tungAgent.py`) decide one turn.
`ReflexCaptureAgent.chooseAction` scores every legal action with
`evaluate`, keeps the actions that reach the maximum score, and returns one
of them at random. `evaluate` is the dot product of the class's
`getFeatures` dictionary with its `getWeights` dictionary, summed over the
feature keys. Each agent class builds its feature dictionary from a few facts
about the successor state the action leads to:

- the score;
- the maze distances to the remaining food and capsules;
- for each opponent: whether it is a Pacman, whether it is visible, its
  scared timer and its distance;
- the action and the reverse of the current heading.

Modules:

- `Wrappers`: the `Result`/`Error` datatype. `KeyError(key)` stands for a
  Python `KeyError`. `EmptyMax` stands for the `ValueError` of `max([])`.
- `Game`: the facts of a state that the agents read (`Opponent`,
  `Successor`, `Current`), the `Directions.REVERSE` table, the list
  comprehensions that select opponents, and Python `min`/`max`.
- `Reflex`: `evaluate` (`Evaluate`, with its algebra), the `chooseAction`
  loop (`ChooseAction`), and the base `ReflexCaptureAgent` features and
  weights.
- `MyTeam`: `createTeam`, `CombinedReflexAgent` and `DefensiveReflexAgent`.
- `YoungAgents`: `OffensivePacketAgent` and `DefensivePacketAgent`.
- `TungAgent`: `createTeam`, `OffensiveAgent` and `DefensiveAgent`.
- `Agents`: dispatch over the seven classes and the whole turn (`Decide`).

The `getFeatures` of each of the six agent classes fills a dictionary step
by step, and each is written twice (the base `ReflexCaptureAgent.getFeatures`
returns a dictionary literal and is only the function `Reflex.BaseFeatures`):

- as a method that mirrors those steps;
- as a function on values that the method is proved equal to.

The properties are proved about the function: which keys are present under
which condition, with which values, that every key has a weight, and what
`evaluate` returns. The `getFeatures` bodies of `DefensiveReflexAgent`,
`DefensivePacketAgent` (youngAgents.py:90-118) and `DefensiveAgent`
(tungAgent.py:87-115) are the same program. All three are modelled by
`MyTeam.DefensiveFeatures` and `MyTeam.DefensiveGetFeatures`, and each
agent class has its own weight table.

`OffensivePacketAgent.getFeatures` writes `minDistanceToGhost` only when a
ghost is visible, and `minDistanceToFood` only when food is left. It then
reads both keys unconditionally (youngAgents.py:50 and :54). The model keeps
that behaviour: the function returns `Err(KeyError(...))` for the first of
the two keys it misses, and the error propagates out of `evaluate` and
`chooseAction`.

## Model

| member | source | states |
|---|---|---|
| Game.Reverse | pacai/student/myTeam.py:204 | the reverse heading differs from the heading except for STOP, which is its own reverse |
| Game.ReverseInvolution | pacai/student/myTeam.py:204 | reversing a heading twice gives it back |
| Game.Filter | pacai/student/myTeam.py:194 | a list comprehension with a condition is no longer than its input (membership and multiplicity: `Game.FilterMembers`, `Game.FilterCount`) |
| Game.FilterMembers | pacai/student/myTeam.py:194 | an opponent is in the filtered list exactly when it is in the input and passes the test |
| Game.FilterCount | pacai/student/myTeam.py:194-195 | each passing opponent occurs as often as in the input and every other not at all, so `len` counts the passing opponents |
| Game.Invaders | pacai/student/myTeam.py:194 | `invaders` holds exactly the opponents that are visible Pacmen |
| Game.Ghosts | pacai/student/youngAgents.py:43 | `ghostPos` holds exactly the opponents that are visible ghosts |
| Game.Visible | pacai/student/tungAgent.py:47 | `enemies` holds exactly the visible opponents |
| Game.Scared | pacai/student/tungAgent.py:53 | `scaredEnemies` holds exactly the opponents whose scared timer is running |
| Game.FilterNonEmpty | pacai/student/myTeam.py:148-149 | `len(invaders) > 0` holds exactly when some opponent passes the test |
| Game.Distances | pacai/student/myTeam.py:198 | the distance list has one entry per opponent, in order |
| Game.MinOf | pacai/student/myTeam.py:199 | `min` of a non-empty list is an element of it and no larger than any element |
| Game.MaxOf | pacai/student/youngAgents.py:36 | `max` of a non-empty list is an element of it and no smaller than any element |
| Game.Nearest | pacai/student/myTeam.py:198-199 | `min(dists)` is the distance of some listed opponent and at most the distance of every one |
| Game.Closest | pacai/student/myTeam.py:122 | the nearest food distance is one of the food distances and at most all of them |
| Game.Farthest | pacai/student/youngAgents.py:36 | the farthest food distance is one of the food distances and at least all of them |
| Reflex.Evaluate | pacai/student/myTeam.py:71-75 | `evaluate` succeeds exactly when every feature key has a weight; otherwise it fails with the KeyError of a feature key that has no weight |
| Reflex.EvaluateEmpty | pacai/student/myTeam.py:73 | an empty feature dictionary scores 0 |
| Reflex.EvaluateEntry | pacai/student/myTeam.py:73 | one weighted feature scores its value times its weight |
| Reflex.EvaluateUnion | pacai/student/myTeam.py:73 | the score of two disjoint weighted dictionaries is the sum of their scores |
| Reflex.EvaluateIgnoresUnusedWeights | pacai/student/myTeam.py:73 | weights of keys that are not features change neither whether `evaluate` succeeds nor its value |
| Reflex.EvaluateInsert | pacai/student/myTeam.py:73 | adding one weighted feature adds its value times its weight |
| Reflex.EvaluateInsertWhen | pacai/student/myTeam.py:73 | a feature written under a condition adds its term exactly under that condition |
| Reflex.Scores | pacai/student/myTeam.py:44 | the list of values has one entry per action, in order, each that action's value |
| Reflex.Collect | pacai/student/myTeam.py:44 | the comprehension succeeds exactly when every `evaluate` call does; otherwise it fails with the error of the first call that fails |
| Reflex.MaxReal | pacai/student/myTeam.py:47 | `max(values)` is one of the values and at least all of them |
| Reflex.BestActions | pacai/student/myTeam.py:49 | `bestActions` holds exactly the actions whose value equals the maximum |
| Reflex.PickBest | pacai/student/myTeam.py:47-51 | the action picked from `bestActions` is one of the actions, and its value is at least every action's value |
| Reflex.PickBestReachesEveryBest | pacai/student/myTeam.py:49-51 | every action at the maximum is picked for some outcome of `random.choice` |
| Reflex.ChooseAction | pacai/student/myTeam.py:36-51 | `chooseAction` succeeds exactly when there is a legal action and every action scores; with no legal action it fails as `max([])` does; otherwise it fails with the first failing action's error; on success the action is legal and no legal action scores higher |
| Reflex.ChooseActionReachesEveryBest | pacai/student/myTeam.py:49-51 | every legal action that reaches the maximum score is returned for some outcome of `random.choice` |
| Reflex.BaseFeatures | pacai/student/myTeam.py:77-87 | the base features hold the successor's score, and every key has a base weight |
| Reflex.BaseWeights | pacai/student/myTeam.py:89-97 | the base table weights only `successorScore`, positively |
| Reflex.BaseScore | pacai/student/myTeam.py:77-97 | the base agent's value of an action is the successor's score |
| MyTeam.CreateTeam | pacai/student/myTeam.py:10-26 | two agents, of the classes `first` and `second`, built with `firstIndex` then `secondIndex` |
| MyTeam.CreateTeamDefault | pacai/student/myTeam.py:10-12 | by default the team is a combined agent followed by a defensive agent |
| MyTeam.DefensiveUpdates | pacai/student/myTeam.py:188-206 | the defensive assignments add no keys but their own five |
| MyTeam.DefensiveUpdatesMeaning | pacai/student/myTeam.py:188-206 | `onDefense` is always present: 0 exactly for a Pacman, 1 for a ghost. `numInvaders` is always present and counts the visible Pacmen. `invaderDistance` is present exactly when an invader is visible, and is then the nearest invader's distance. `stop` is present (as 1) exactly when the action is STOP. `reverse` is present (as 1) exactly when the action reverses the current heading. Earlier entries are kept |
| MyTeam.DefensiveFeatures | pacai/student/myTeam.py:180-217 | every key `DefensiveReflexAgent.getFeatures` writes has a weight |
| MyTeam.AssignDefensive | pacai/student/myTeam.py:188-206 | the source's assignment sequence, in which `onDefense` is set to 1 and then overwritten with 0 for a Pacman, equals the defensive assignments |
| MyTeam.DefensiveGetFeatures | pacai/student/myTeam.py:180-208 | `DefensiveReflexAgent.getFeatures` run step by step equals `DefensiveFeatures` |
| MyTeam.DefensiveWeights | pacai/student/myTeam.py:210-217 | the weight table's keys, and its order: invaders below stopping, below invader distance, below reversing, below zero, below `onDefense` |
| MyTeam.EvaluateDefensiveAssignments | pacai/student/myTeam.py:188-206 | each defensive assignment adds its value times its weight to the score |
| MyTeam.DefensiveUpdatesScore | pacai/student/myTeam.py:188-206 | under a table with -1000 per invader and -10 per step to the nearest invader, the defensive assignments add these terms: `onDefense`'s weight for a ghost, -1000 per invader, -10 per step to the nearest invader, the stop weight for STOP, and the reverse weight for turning back |
| MyTeam.DefensiveScore | pacai/student/myTeam.py:180-217 | `DefensiveReflexAgent` never fails to evaluate. The value is 100 for a ghost, minus 1000 per invader, minus 10 per step to the nearest invader, minus 100 for STOP, and minus 2 for turning back |
| MyTeam.ScoreAndFood | pacai/student/myTeam.py:116-123 | `successorScore` is the score; `distanceToFood` is present exactly when food is left, and is then the nearest food distance |
| MyTeam.CombinedFeatures | pacai/student/myTeam.py:109-168 | every key `CombinedReflexAgent.getFeatures` writes has a weight in both of its tables |
| MyTeam.CombinedFeaturesMeaning | pacai/student/myTeam.py:116-123 | the combined features keep the score and the nearest food distance under the defensive assignments |
| MyTeam.CombinedGetFeatures | pacai/student/myTeam.py:109-144 | `CombinedReflexAgent.getFeatures` run step by step equals `CombinedFeatures` |
| MyTeam.CombinedWeights | pacai/student/myTeam.py:146-168 | the table's keys. With an invader visible in the current state: 1 / 0 / 3 for score / food / `onDefense`. Without one: 100 / -1 / 0. Both tables: -1000 / -10 / -1000 / -2 for invaders / invader distance / stop / reverse |
| MyTeam.CombinedWeightsMode | pacai/student/myTeam.py:147-149 | the defending table is used exactly when some opponent in the current state is a visible Pacman, and the attacking table exactly when none is |
| MyTeam.EvaluateScoreAndFood | pacai/student/myTeam.py:116-123 | the score and the food distance add their values times their weights |
| MyTeam.CombinedScoreDefending | pacai/student/myTeam.py:146-158 | with an invader visible, `evaluate` never fails. The value is the score, plus 3 for a ghost, plus the defensive terms; food counts nothing |
| MyTeam.CombinedScoreAttacking | pacai/student/myTeam.py:159-168 | with no invader visible, `evaluate` never fails. The value is 100 times the score, minus the nearest food distance, plus the defensive terms |
| YoungAgents.FoodFeatures | pacai/student/youngAgents.py:26-39 | `successorScore` is the score. The three food features are each present exactly when food is left. Nothing else is written |
| YoungAgents.FoodFeaturesMeaning | pacai/student/youngAgents.py:33-39 | with food left: `minDistanceToFood` is the nearest food distance, `maxDistanceToFood` the farthest, and `avgDistanceToFood` their mean |
| YoungAgents.FoodAverageBetween | pacai/student/youngAgents.py:39 | min ≤ avg ≤ max |
| YoungAgents.OffensiveDraft | pacai/student/youngAgents.py:41-48 | the food features are kept. `minDistanceToGhost` and `numGhosts` are present exactly when a ghost is visible |
| YoungAgents.OffensiveDraftMeaning | pacai/student/youngAgents.py:41-48 | with a ghost visible: `minDistanceToGhost` is the nearest visible ghost's distance, and `numGhosts` counts the visible ghosts and is at least 1 |
| YoungAgents.OffensiveFinish | pacai/student/youngAgents.py:50-61 | the rest of `getFeatures` succeeds exactly when both keys it reads are present. It fails with `KeyError('minDistanceToGhost')` first, otherwise with `KeyError('minDistanceToFood')` |
| YoungAgents.OffensiveFinishFlags | pacai/student/youngAgents.py:50-61 | on success, earlier entries are kept. `ghostImmediatelyNear` is present (as 1) exactly when the nearest ghost is 1 away. `foodImmediatelyNear` is always present: 1 when the nearest food is 1 away, else 0. `stop` is present (as 1) exactly for STOP. Nothing else is added |
| YoungAgents.OffensivePacketFeatures | pacai/student/youngAgents.py:23-63 | `getFeatures` succeeds exactly when a ghost is visible and food is left. With no ghost it raises `KeyError('minDistanceToGhost')`; with a ghost but no food it raises `KeyError('minDistanceToFood')` |
| YoungAgents.OffensivePacketFeaturesWeighted | pacai/student/youngAgents.py:23-76 | on success every feature key has a weight |
| YoungAgents.OffensivePacketGetFeatures | pacai/student/youngAgents.py:23-63 | `getFeatures` run step by step, with both unguarded reads (early return on a missing key), equals `OffensivePacketFeatures` |
| YoungAgents.OffensivePacketWeights | pacai/student/youngAgents.py:65-76 | the table's keys, and its order: stop < nearest food < 0 < nearest ghost < score |
| YoungAgents.OffensivePacketWeightsNonZero | pacai/student/youngAgents.py:65-76 | only score, nearest food, nearest ghost and stop have a non-zero weight |
| YoungAgents.FoodFeaturesScore | pacai/student/youngAgents.py:26-39 | the food features are worth 100 times the score minus the nearest food distance |
| YoungAgents.OffensiveDraftScore | pacai/student/youngAgents.py:41-48 | the ghost features add half the nearest ghost distance |
| YoungAgents.OffensiveFinishScore | pacai/student/youngAgents.py:50-61 | the flags add nothing except -100 for STOP |
| YoungAgents.OffensivePacketScore | pacai/student/youngAgents.py:23-76 | with a ghost visible and food left, `evaluate` succeeds. The value is 100 times the score, minus the nearest food distance, plus half the nearest ghost distance, minus 100 for STOP |
| YoungAgents.DefensivePacketWeights | pacai/student/youngAgents.py:120-127 | the table equals `DefensiveReflexAgent`'s |
| YoungAgents.DefensivePacketFeaturesWeighted | pacai/student/youngAgents.py:90-127 | every key `DefensivePacketAgent.getFeatures` writes has a weight, so `evaluate` never fails |
| TungAgent.CreateTeam | pacai/student/tungAgent.py:4-20 | two agents: an offensive agent with `firstIndex`, then a defensive agent with `secondIndex` |
| TungAgent.CreateTeamIgnoresNames | pacai/student/tungAgent.py:14-20 | the team does not depend on `first` and `second` |
| TungAgent.OffensiveFeatures | pacai/student/tungAgent.py:27-64 | `stop` is always present: 1 for STOP, 0 otherwise (the full contract is `TungAgent.OffensiveFeaturesMeaning`) |
| TungAgent.WithStop | pacai/student/tungAgent.py:59-62 | `stop` is present: 1 for STOP, 0 otherwise |
| TungAgent.WithFoodWrites | pacai/student/tungAgent.py:35-37 | `distanceToFood` is written exactly when food is left, as the nearest food distance; other entries are unchanged |
| TungAgent.WithCapsuleWrites | pacai/student/tungAgent.py:40-43 | `distanceToCapsule` is written exactly when a capsule is left, as the nearest capsule distance; other entries are unchanged |
| TungAgent.WithEnemyWrites | pacai/student/tungAgent.py:46-50 | `distanceToEnemy` is written exactly when an enemy is visible, as the nearest visible enemy's distance; other entries are unchanged |
| TungAgent.WithScaredEnemyWrites | pacai/student/tungAgent.py:53-56 | `distanceToScaredEnemy` is written exactly when a visible enemy is scared, as the nearest such enemy's distance; other entries are unchanged |
| TungAgent.WithStopWrites | pacai/student/tungAgent.py:59-62 | `stop` is always written: 1 for STOP, 0 otherwise; other entries are unchanged |
| TungAgent.OffensiveFeaturesMeaning | pacai/student/tungAgent.py:27-64 | `getFeatures` writes each distance feature under its guard, with the minimum distance, and `stop` always. Inherited entries it does not assign are kept. Every key is inherited or assigned |
| TungAgent.OffensiveGetFeatures | pacai/student/tungAgent.py:27-64 | `getFeatures` run step by step on the inherited dictionary equals `OffensiveFeatures` |
| TungAgent.ScaredEnemyNoNearer | pacai/student/tungAgent.py:46-56 | when `distanceToScaredEnemy` is present, `distanceToEnemy` is present and no larger |
| TungAgent.OffensiveWeights | pacai/student/tungAgent.py:66-74 | the table's keys, and its order: stop < scared enemy < food < capsule < 0 < enemy < score |
| TungAgent.OffensiveFeaturesWeighted | pacai/student/tungAgent.py:27-74 | every key the agent adds has a weight, so the features are all weighted whenever the inherited ones are |
| TungAgent.EvaluateWithFood | pacai/student/tungAgent.py:35-37 | the food feature adds -5 per step to the nearest food, when food is left |
| TungAgent.EvaluateWithCapsule | pacai/student/tungAgent.py:40-43 | the capsule feature adds -2 per step to the nearest capsule, when a capsule is left |
| TungAgent.EvaluateWithEnemy | pacai/student/tungAgent.py:46-50 | the enemy feature adds +2 per step to the nearest visible enemy, when one is visible |
| TungAgent.EvaluateWithScaredEnemy | pacai/student/tungAgent.py:53-56 | the scared-enemy feature adds -10 per step to the nearest scared visible enemy, when there is one |
| TungAgent.EvaluateWithStop | pacai/student/tungAgent.py:59-62 | the stop feature adds -100 for STOP and nothing otherwise |
| TungAgent.OffensiveScore | pacai/student/tungAgent.py:27-74 | with weighted inherited features that do not collide with the added ones, `evaluate` succeeds. The value is the inherited value plus the five terms above |
| TungAgent.OffensiveScoreFromBase | pacai/student/tungAgent.py:27-74 | when the inherited dictionary is the score alone, the value is 100 times the score plus the five terms |
| TungAgent.BaseUnderOffensiveWeights | pacai/student/tungAgent.py:66-74 | the score alone is worth 100 times the score under the offensive table |
| TungAgent.DefensiveWeights | pacai/student/tungAgent.py:117-124 | the table equals `DefensiveReflexAgent`'s |
| TungAgent.DefensiveFeaturesWeighted | pacai/student/tungAgent.py:87-124 | every key `DefensiveAgent.getFeatures` writes has a weight, so `evaluate` never fails |
| Agents.FeaturesOf | pacai/student/myTeam.py:71 | a class's `getFeatures` fails only for the packet offensive agent, exactly when the successor lacks a visible ghost or food; when it succeeds, and framework features are weighted, every key it returns has a weight of the same class |
| Agents.WeightsOf | pacai/student/myTeam.py:72 | the three defensive classes use the `DefensiveReflexAgent` table; exactly the other classes weight `successorScore` |
| Agents.WeightsOfIgnoresCurrent | pacai/student/myTeam.py:72 | every class but the combined one uses the same weights whatever the current state |
| Agents.ActionValue | pacai/student/myTeam.py:66-75 | a failing `getFeatures` propagates its error out of `evaluate`; otherwise `evaluate` succeeds exactly when every feature key has a weight |
| Agents.ActionValueOk | pacai/student/myTeam.py:66-75 | for every class except the packet offensive one, `evaluate` never fails. For the tung offensive agent this needs the inherited features to be weighted |
| Agents.PacketActionValue | pacai/student/youngAgents.py:50-54 | the packet offensive agent's `evaluate` succeeds exactly when a ghost is visible and food is left; otherwise it fails with the KeyError of the key read first |
| Agents.Decide | pacai/student/myTeam.py:36-51 | a whole turn: with no legal action it fails as `max([])` does; when it succeeds the action is legal and its `evaluate` succeeds |
| Agents.DecideIsBest | pacai/student/myTeam.py:41-51 | a turn that succeeds returns a legal action that no legal action outscores |
| Agents.DecideSucceeds | pacai/student/myTeam.py:41-51 | for every class except the packet offensive one, a turn succeeds exactly when there is a legal action; with none it fails as `max([])` does |
| Agents.DecidePacketOffensive | pacai/student/myTeam.py:41-51 | the packet offensive agent completes a turn exactly when there is a legal action and every successor shows a ghost and has food left |
| Agents.DecidePacketOffensiveError | pacai/student/myTeam.py:44 | otherwise the turn fails with the KeyError of the first legal action whose successor lacks a ghost or food |
| Agents.DecideReachesEveryBest | pacai/student/myTeam.py:49-51 | every legal action with the maximum score is chosen for some outcome of `random.choice` |

## Left out

- The game engine is not modelled (`generateSuccessor`, `getAgentState`, `getFood`, `getCapsules`, `getOpponents`, `getScore`). Its answers are the fields of `Successor` and `Current`, and the successor of each action is an input (`next`).
- `getMazeDistance` is not modelled: it is path finding in the maze. Distances are given natural numbers, one per food, capsule and opponent.
- `getSuccessor`'s `util.nearestPoint` check, which may apply the action a second time, is part of how the successor is produced. The model takes the successor as given.
- `random.choice` is modelled as an index `pick` into the best actions, taken modulo their number. Its distribution is not modelled; instead a lemma shows that every best action can be chosen.
- Timing and `logging.debug` in `chooseAction` only produce diagnostics.
- `reflection.qualifiedImport` loads classes by name. `MyTeam.CreateTeam` takes the classes directly.
- The framework `ReflexCaptureAgent` that tungAgent.py imports is not part of this model. Its `getFeatures` result is an input map (`inherited`), and `TungAgent.OffensiveScoreFromBase` treats the case where it is the score alone. Its `chooseAction` and `evaluate` are modelled by the myTeam.py loop.
- youngAgents.py never imports `ReflexCaptureAgent` or `Directions`. Its classes are modelled as if they extended the myTeam.py base class; the import failure is not modelled.
- Feature and weight values are Python ints and floats. They are modelled as exact reals. This assumes every value and partial sum stays below 2^53 in magnitude, where float addition (and the exact halving of the `/ 2` average) is exact and `v == maxValue` behaves as real equality.
- TungAgent.WithFood, TungAgent.WithCapsule, TungAgent.WithEnemy, TungAgent.WithScaredEnemy: these guarded writes carry no contract of their own, to keep the step-by-step proof of `OffensiveGetFeatures` small; what each writes and keeps is stated by its `...Writes` lemma.
- `Reflex.Evaluate`: when several feature keys lack a weight, Python raises the KeyError of the first in dictionary order. The model only states that the key lacks a weight, because dictionary insertion order is not modelled.
