# A verified model of the skirmish, the duel games and the world registry

This project models and proves the deterministic core of three browser games and one engine helper:

- **The four-faction skirmish (`strijd.js`).**
  - A 30 × 30 grid with one horizontal wall.
  - A* path search with 4-neighbour moves, unit step cost and the Manhattan heuristic.
  - The per-tick decision rule of a unit: keep or re-acquire a target, drain it when in range, otherwise follow waypoints.
  - Handing a route to the player's faction.
  - The live-faction table and the end-of-game test.
- **The two stick-figure duel games (`om.js` in Dutch, `en/om.js` in English).**
  - One sprite step under gravity.
  - The attack/cooldown cycle.
  - The attack-box collision test.
  - The computer opponent's pursuit rule.
  - The Dutch game's difficulty curve, and each game's end-of-round score, level and series bookkeeping.
- **The 3D engine wrapper (`JoshGameEngine.js`).** The world registry (its default list, `addWorld` and `getWorld`) and the mouse-look pitch clamp.

## Modules

| file | module | what it holds |
|---|---|---|
| `grid.dfy` | `Grid` | Cells, the map, 4-neighbour adjacency, walks, reachability and shortest-walk bounds. |
| `sorting.dfy` | `Sorting` | The stable sort that `Array.prototype.sort` performs with a key-difference comparator. |
| `pathfinding.dfy` | `Pathfinding` | `solveAStar` and its proof of validity and optimality. |
| `units.dfy` | `Units` | `Vec2` and its comparison-only helpers, the faction table, and the `Unit` class with `update` and `findNearestEnemy`. |
| `battle.dfy` | `Battle` | The game's globals as a `Game` class: map building, click handling, the game-over test and the statistics table. |
| `fighting.dfy` | `Fighting` | The `Sprite` and `Fighter` code, collision, `enemyAI`, the round verdict and scoring, the winning score of a series and the name the series-end message shows. Both duel games have the same code for these, except for two differences. `enemyAI` jumps at −20 in `om.js` and at −15 in `en/om.js`, so the jump velocity is a parameter. The Dutch verdict chain has extra time-up clauses, which `Om.RoundVerdict` shows to be equal to the shared `Judge`. |
| `om.dfy` | `Om` | The Dutch game: `calculateAIStats` and the bookkeeping of `endMatch`. |
| `en_om.dfy` | `EnOm` | The English game: the bookkeeping and series-end test of `endMatch`, and the fixed stats of its computer opponent. |
| `engine.dfy` | `Engine` | The world registry and the pitch clamp. |

### The English game's copy of the fighting code

The table below cites `om.js` for the members of `Fighting`. `en/om.js` has the matching code at these lines (with the differences named above):

| code | `en/om.js` lines |
|---|---|
| `Sprite.update` | 10-20 |
| `Fighter.update` | 102-120 |
| `attack` | 122-127 |
| `rectangularCollision` | 130-137 |
| `enemyAI` | 144-165 |

### How the A* search is proved optimal

`SolveAStar` keeps the source's loop structure:

1. Sort the open list by `f = g + h`.
2. Take its head.
3. Stop when the head is the goal.
4. Otherwise close the head and relax its four neighbours in the source's order.

The proof is in Dijkstra style. Every closed cell carries its least walk length from the start, and the head of the open list has the least `f`. Because the heuristic is consistent, the goal is final once it is taken (`PoppedOptimal`). An exhausted open list means the goal is unreachable (`ExhaustedUnreachable`).

### Notes on the wall

- **The gap.** The wall sits on row 15 and leaves columns 15 and 16 open (`Battle.GapIsOpen`).
- **Routes around the wall.** The wall spans only columns 7 to 21, so routes can pass its ends as well as the gap. A route from (0,0) to (29,29) therefore need not use the gap (`Battle.WallEndsAreOpen`).

### Behaviour the proofs make visible

- **A unit with a live enemy never follows its path.** `Unit.update` re-targets the nearest live enemy whenever its target is dead or missing. So a path given by a click is only followed once no enemy is alive anywhere, and a game with an enemy alive drops it on the next tick (`Units.Unit.Update`).
- **The Dutch solo ladder: on side 1, every win raises the level.** The win count is never reset, while the matches needed and the level both grow by one. So a solo player on side 1, starting from 0 wins at level 1 needing 1, goes up exactly one level per victory (`Om.SoloEveryWinLevelsUp`). Side 1 is the side of a fresh page and of a host.
- **The Dutch solo ladder: on side 2, the level never rises.** Solo play does not reset the side, so a player who last joined a match as side 2 plays solo on side 2. Their wins go to side 2's score, but the level test reads side 1's score, which stays below the matches needed (`Om.SoloOnSideTwoNeverLevelsUp`).
- **The Dutch solo game treats a time-up as a loss unless the player leads on health.** It is scored as a draw, but the run ends (`Om.SoloRestart`).
- **In the Dutch multiplayer game, the loser's client returns to the menu and resets its score.** `restartMatch` stays false for the loser even while the series is undecided. The losing client therefore schedules the main menu, which resets its score to 0-0. It stays in multiplayer mode, and the next match start brings it back with that reset score. The English game has both sides wait for the next match instead (`Om.MultiplayerRestart`, `EnOm.SeriesEndTest`).
- **The series-end message names the loser on side 2's screen.** The message picks the first name slot when side 1 has more wins, and the second otherwise (ties included). But the first slot always shows the client's own name. So on side 1's client an odd series names exactly the side that reached half the matches, rounded up (`Fighting.SeriesWinnerNamed`). On side 2's client it names the player who did not (`Fighting.SeriesLoserNamedOnSideTwo`). For example, with side 2 winning 2-1 out of 3, the joiner is told that the host won. The host may also choose an even number of matches, where neither guarantee holds.

## Model

| member | source | states |
|---|---|---|
| Grid.OffsetsAreNeighbours | strijd.js:310-316 | The four offsets tried by the search reach exactly the 4-neighbours of a cell. |
| Sorting.SortBy | strijd.js:294 | The open-list sort returns a permutation of its input, ordered by non-decreasing key. |
| Sorting.SortedHeadIsMinimal | strijd.js:294-295 | The head taken after sorting has the least key of the list. |
| Pathfinding.HeuristicAdmissible | strijd.js:265-267 | The Manhattan heuristic never exceeds the length of any walk between the two cells. |
| Pathfinding.HeuristicConsistent | strijd.js:265-267 | One step changes the heuristic by at most one, which makes closing a node final. |
| Pathfinding.WalkSpan | strijd.js:265-267 | A walk of n steps covers at most n in Manhattan distance. |
| Pathfinding.PoppedOptimal | strijd.js:293-297 | The cell taken from the head of the sorted open list has its least walk length as its cost. |
| Pathfinding.ExhaustedUnreachable | strijd.js:293-339 | When the open list runs empty without reaching the goal, no walk reaches it. |
| Pathfinding.SortKeepsOpenInv | strijd.js:294 | Re-sorting the open list keeps its cells, their costs and the absence of duplicates. |
| Pathfinding.BeginExpand | strijd.js:295-308 | Shifting the head and closing it keeps the search invariant, with the head's cost final. |
| Pathfinding.SkipNeighbour | strijd.js:318-322 | A neighbour off the grid, an obstacle or a closed cell is rightly skipped. |
| Pathfinding.UpdateNeighbour | strijd.js:324-335 | A neighbour reached more cheaply gets current as parent and cost g + 1, and is appended once. |
| Pathfinding.ExpandNeighbours | strijd.js:308-336 | Relaxing the four neighbours in order restores the search invariant. |
| Pathfinding.ReconstructPath | strijd.js:297-306 | Following parents back, dropping the start and reversing gives a walk from the start of exactly the cell's cost, without the start. |
| Pathfinding.SolveAStar | strijd.js:269-339 | Empty when the start or end is off the grid, the end is an obstacle, or start equals end. Otherwise a walk from start to end over walkable cells, without the start, no longer than any other walk; empty exactly when the end is unreachable. |
| Units.CompareBySquares | strijd.js:76 | Comparing non-negative distances is the same as comparing their squares, so squared distances decide every range test. |
| Units.Normalize | strijd.js:72-75 | normalize gives a unit vector, or the zero vector for the zero vector. |
| Units.ToGrid | strijd.js:77-82 | The cell returned holds the point: 20·i ≤ x < 20·(i+1), and the same for j. |
| Units.CellCenter | strijd.js:141-145 | The waypoint centre lies in its own cell. |
| Units.TeamOf | strijd.js:8-38 | Exactly the player faction Aethel is on the player team. |
| Units.Clamp | strijd.js:168-169 | The clamped coordinate is within [lo, hi], and unchanged when already inside. |
| Units.Unit.constructor | strijd.js:87-106 | A unit starts with its faction's configuration, full health, no target and no path. |
| Units.Unit.FindNearestEnemy | strijd.js:172-186 | null iff no unit of another faction is alive; otherwise a live enemy at least distance, the first such in roster order. |
| Units.Unit.AcquireTarget | strijd.js:113-124 | Keeps a live enemy target, otherwise takes the nearest enemy or none. |
| Units.Unit.Engage | strijd.js:126-138 | In range: stop, drop the path, drain the target by exactly damage. Out of range: seek the target and drop the path. |
| Units.Unit.FollowPath | strijd.js:140-156 | Seeks the current waypoint centre. Within half a cell the index moves on by one, and the path is dropped once past its end. |
| Units.Unit.Move | strijd.js:158-169 | Adds separation, caps the speed, moves, and clamps to the canvas margin. |
| Units.Unit.Update | strijd.js:108-170 | A dead unit changes nothing, and a unit never changes its own health. The target is kept while it is a live enemy, otherwise replaced by the nearest. In range: the target loses exactly damage, no other health changes, and the velocity is the capped separation. Out of range: the unit steers towards the target. Either way the path is cleared. With no enemy: the unit steers towards the waypoint centre, advancing within half a cell, and the index invariant is kept. The new velocity is the capped sum of the old one, the steering and the weighted separation. The position moves by that velocity, clamped to the canvas margin. |
| Units.Unit.KeepOnCanvas | strijd.js:168-169 | The clamped position is within the canvas margin, and unchanged when already inside. |
| Battle.Game.InitMap | strijd.js:342-350 | A 30 × 30 map of walkable cells. |
| Battle.Game.PlaceObstacles | strijd.js:352-363 | Exactly the cells of row 15 with column in [7, 22) other than 15 and 16 become obstacles: 13 cells, listed in obstacles in column order. |
| Battle.Game.constructor | strijd.js:496-503 | A new game has the walled map, the roster, no route and is not over. |
| Battle.GapIsOpen | strijd.js:356-362 | Both gap columns can be crossed from one side of the wall to the other. |
| Battle.WallEndsAreOpen | strijd.js:356-362 | The cells just past both wall ends are walkable, so the halves connect around the wall. |
| Battle.FindLivePlayer | strijd.js:394 | The first live unit of the player faction, or none. |
| Battle.Game.HandlePlayerClick | strijd.js:386-411 | Nothing once the game is over or with no live player unit. A failure leaves orders alone and happens only when a cell is off the grid, the goal is an obstacle or the start, or the goal is unreachable; success only when the goal is reachable from a different start. On success every live player unit gets the same non-empty shortest route, waypoint 0 and no target; other units are unchanged. |
| Battle.Game.AssignRoute | strijd.js:401-406 | Every live player unit gets the route, index 0 and no target; every other unit is unchanged. |
| Battle.Game.CheckGameOver | strijd.js:413-431 | Nothing once over. Otherwise over iff at most one faction has a live unit: the single live faction wins, none left is a draw. |
| Battle.CountLive | strijd.js:455-459 | The live-unit count of a faction is zero exactly when it has no live unit. |
| Battle.Game.CountLiveUnits | strijd.js:450-459 | Every faction is present, counted with its live units. |
| Battle.Game.UpdateStats | strijd.js:449-468 | All four factions, each once with its live count, zero counts included, as a permutation of the census, ordered by non-increasing count. |
| Battle.CensusFacts | strijd.js:464-468 | A reordering of the census still lists every faction once with its count. |
| Fighting.Fall | om.js:17-27 | Move by the velocity; land on the floor (vy = 0, y = floor) or fall faster by gravity. A sprite on or above the floor never ends below it. |
| Fighting.RestingIsStable | om.js:21-23 | A sprite standing on the floor stays there. |
| Fighting.LandingCondition | om.js:21-26 | Landing happens when the look-ahead y + 2·vy reaches the floor; otherwise gravity is added. |
| Fighting.Fighter.SpriteUpdate | om.js:17-27 | Sprite.update performs exactly the Fall step. |
| Fighting.Fighter.constructor | om.js:31-50 | Health, cooldown and damage fall back to 100, 30 and 15 when absent; the fighter starts idle and ready. |
| Fighting.AttackBoxAt | om.js:113-119 | The attack box starts at the body's centre line and reaches towards the arena's middle, 50 below the top. |
| Fighting.Trigger | om.js:129-134 | attack changes state only when the cooldown is 0, then starts a strike with the stats' reload. |
| Fighting.Fighter.Attack | om.js:129-134 | Fighter.attack performs exactly Trigger with stats.attackCooldown. |
| Fighting.Cool | om.js:121-126 | A positive cooldown drops by exactly 1 and never below 0; a live strike ends exactly on the frame the cooldown reaches 0. |
| Fighting.CooledCount | om.js:121-126 | After n frames a non-negative cooldown is max(0, c − n). |
| Fighting.AttackCycle | om.js:121-134 | A strike with reload k > 0 stays live k − 1 frames, ends on the k-th, and the fighter is ready again. |
| Fighting.Fighter.Update | om.js:109-127 | Fighter.update without drawing: the Fall step, the re-anchored attack box and one cooldown tick. |
| Fighting.OverlapWitness | om.js:137-144 | The four edge comparisons hold exactly when the two closed rectangles share a point. |
| Fighting.RectangularCollision | om.js:137-144 | True exactly when some point lies in both the attacker's closed attack box and the target's closed body box. |
| Fighting.ResolveHit | om.js:502-513 | A live strike whose box touches the target costs it the attack damage once and ends the strike; otherwise nothing changes. |
| Fighting.PursuitVelocity | om.js:168-180 | Standing still within 100. Otherwise towards the player, at 0.7·speed up to 250 and full speed beyond, never faster than speed. |
| Fighting.PursuitSlowsWhenCloser | om.js:174-180 | A nearer player never makes the opponent move faster. |
| Fighting.PursuitIsSymmetric | om.js:174-180 | Mirroring the distance mirrors the move. |
| Fighting.EnemyAI | om.js:168-189 | Velocity by the bands; a jump when the roll is under the jump chance and vy = 0; a strike only within 100 with the cooldown at 0. |
| Fighting.Judge | en/om.js:500-513 | A time-up or a double knock-out is a draw; otherwise PlayerDied is a defeat and OpponentDied a victory. |
| Fighting.Award | en/om.js:504-513 | A defeat adds exactly one to the other side's score, a victory one to this side's; anything else changes neither. |
| Fighting.HalfUp | en/om.js:529 | Math.ceil(n / 2) for a whole n: the least h with 2·h ≥ n. |
| Fighting.SeriesWinnerUnique | en/om.js:529-533 | With at most n rounds decided in an odd series of n, the two sides cannot both reach the winning score. |
| Fighting.SeriesWinnerNamed | en/om.js:517-521 | On a side-1 client, an odd series won by reaching ⌈n/2⌉ is credited to exactly the side that reached it. The message takes slot 1 (this client's name) when side 1 leads. |
| Fighting.SeriesLoserNamedOnSideTwo | en/om.js:517-521 | On a side-2 client the same message names the player who did not reach ⌈n/2⌉, because slot 1 is this client's own name while the comparison is by side. |
| Om.Round | om.js:162 | Math.round: the whole number within half of x, halves rounded up. |
| Om.LevelFactor | om.js:152 | min(1, level·0.05) lies in [0, 1], is level/20 up to 20 and 1 from then on. |
| Om.CalculateAIStats | om.js:151-165 | speed in [3.5, 7], jumpChance in [0.005, 0.03], rounded damage in [15, 25], cooldown in [20, 60], health 100. |
| Om.AIStatsClosedForm | om.js:151-165 | Damage is 15 + ⌊(l + 1)/2⌋ and cooldown is 60 − 2·l, where l = min(level, 20). |
| Om.AIStatsMonotone | om.js:151-165 | A higher level never lowers speed, jump chance or damage, and never raises the cooldown. |
| Om.AIStatsSaturate | om.js:151-165 | From level 20 on every stat equals the level-20 stats. |
| Om.RoundVerdict | om.js:564-579 | The Dutch verdict chain, with its unreachable time-up clauses, gives the shared verdict. |
| Om.SettleScores | om.js:564-579 | In every mode the score moves by the verdict alone. |
| Om.SoloEveryWinLevelsUp | om.js:581-595 | For a solo player on side 1 starting from the ladder, each victory raises the level and the matches needed by one, nothing else does, and the ladder is kept. |
| Om.SoloOnSideTwoNeverLevelsUp | om.js:560-595 | For a solo player on side 2 whose side-1 score is below the matches needed, the level and the matches needed never move, and a continued run keeps the side-1 score. |
| Om.SoloRestart | om.js:581-595 | On either side, a solo run continues exactly after a draw or a victory that is not a defeat or a time-up without a health lead. |
| Om.MultiplayerRestart | om.js:597-606 | Outside solo play the level is untouched. A new match follows exactly a draw or a victory, when the opponent has not left and the series is undecided. |
| Om.Game.constructor | om.js:247-260 | The initial game record: no wins, level 1, needing 1, side 1, one match. |
| Om.Game.EndMatch | om.js:554-606 | Stops the round and moves the score, level and restart flag exactly as Settle says. |
| Om.SoloAI | om.js:496-500 | The solo opponent moves by EnemyAI with this game's jump speed of 20. |
| EnOm.SettleScores | en/om.js:500-522 | A time-up or double knock-out leaves both scores. PlayerDied adds one to the opponent's side only, OpponentDied one to the own side only, and a disconnect or series end scores nothing. |
| EnOm.SeriesEndTest | en/om.js:529-537 | Against the computer, back to the menu. In multiplayer, the series is over exactly when the opponent left, the server ended it, or a score reached ⌈total/2⌉. |
| EnOm.Game.constructor | en/om.js:221-231 | The initial game record: no score, side 1, one match. |
| EnOm.Game.EndMatch | en/om.js:492-541 | Stops the round and moves the score and the next step exactly as Settle says. |
| EnOm.SoloAI | en/om.js:439-444 | The computer opponent's stats are forced to speed 2, jump chance 0.005 and reload 60 before it moves, jumping at speed 15. |
| Engine.JoshGameEngine.constructor | JoshGameEngine.js:17-29 | worlds is the five default worlds followed by the configured ones in order, without de-duplication; yaw and pitch start at 0. |
| Engine.Merge | JoshGameEngine.js:103 | The spread { ...defaultWorld, ...world }: present entries override, absent ones come from the template. |
| Engine.MergeComplete | JoshGameEngine.js:103 | A world with every entry is unchanged by the merge. |
| Engine.Lookup | JoshGameEngine.js:109 | The first index whose id matches, or none when no entry matches. |
| Engine.LookupAppend | JoshGameEngine.js:101-109 | Appending keeps every earlier answer, and finds a missing id at the end when the new entry carries it. |
| Engine.JoshGameEngine.AddWorld | JoshGameEngine.js:99-106 | A missing world or missing id fails and leaves the list alone. An id already listed leaves it alone. Otherwise exactly the merged world is appended; the defaults stay first. |
| Engine.JoshGameEngine.GetWorld | JoshGameEngine.js:108-112 | The first world with the id, or the first default world when none has it. |
| Engine.AddedWorldIsFound | JoshGameEngine.js:99-112 | After adding a fresh id, looking it up finds the new entry, and every id found before is found where it was. |
| Engine.ClampPitch | JoshGameEngine.js:68 | The pitch ends within [−1.5, 1.5], and is unchanged when already inside. |
| Engine.ClampIsNearest | JoshGameEngine.js:68 | The clamped pitch is the allowed value nearest to the requested one. |
| Engine.JoshGameEngine.OnMouseMove | JoshGameEngine.js:65-70 | With the pointer locked, yaw turns by 0.003 per pixel and pitch is clamped; otherwise nothing changes. The pitch always stays in range. |

## Left out

**Modelling choices**

- **Integers and reals.** Numbers are exact. In the duel games health, damage and cooldowns are `int`, and positions, speeds and factors are `real`. In the skirmish health and damage are `real` too (damage 0.6, 0.4, 0.5 and 0.7 per tick). Floating-point rounding is not modelled, e.g. `level * 0.05 * 40` is taken as exactly `2 * level`.
- **Square roots.** `length` and `distanceTo` need a square root, which Dafny lacks. Every distance test compares squared distances instead, which `Units.CompareBySquares` justifies.
- **Steering helpers as parameters.** `calculateSeek`, `calculateSeparation` and the speed cap's `normalize().multiply(maxSpeed)` are taken as parameters of `Update`.
- **Sub-methods.** `Unit.update` is split into `AcquireTarget`, `Engage`, `FollowPath` and `Move`, and the neighbour loop of `solveAStar` is in its own method `ExpandNeighbours`. The statements and their order are the source's.
- **Search bookkeeping.** The search's `Node` objects are modelled as maps from cells to cost and to parent. `Infinity` is modelled as "not in the map", and `f` is recomputed from `g` and `h` when the open list is sorted.

**Input, output and the platform**

- **Random, frame and timer inputs.**
  - `Math.random` is the `roll` parameter of `EnemyAI`.
  - The spawn jitter of `initUnits` is left out; units are given to the `Game` constructor with their positions.
  - `requestAnimationFrame`, `setInterval` and `setTimeout`, and the `gameLoop`/`animate` scheduling, are left out.
  - The keyboard handlers (walking speed 8, jump 20) are left out.
- **DOM, drawing and networking.** These are input and output with no behaviour to state, so they are left out:
  - canvas and DOM drawing (`drawMap`, `Unit.draw`, `drawStickman`, `updateHealthBar`);
  - menus and messages, including the text `endMatch` writes;
  - the statistics HTML string;
  - every socket handler and emit, hosting and joining.
- **Socket-driven score changes.** The handlers that rewrite scores before calling `endMatch` are left out. They are `opponentDisconnected` (setting the own score to the number of matches) and `seriesEnded`. `endMatch` takes the score as it finds it.
- **The 3D engine.** Everything in `JoshGameEngine.js` that touches three.js or the browser is left out: scene, camera, renderer, platforms, players, keys, resizing and styles. So are the `debugMode` console messages. Only the six known keys of a world object are kept; other keys of a world are not modelled.
- Engine.World: a missing key and a key set to `undefined` are both `None`. But the spread `{ ...defaultWorld, ...world }` copies an explicit `undefined` over the template's value, whereas `Merge` keeps the template's value.
- Engine.World: ids are whole numbers, though `world.id === undefined` also lets a `null` or string id through; an id of any other type is not modelled.

**Weaker or narrower statements**

- Battle.Game.UpdateStats: the order among factions with equal counts (configuration order, because the sort is stable) is computed but not stated.
- Fighting.Fighter.constructor: an absent entry of the stats object is written as 0, because JavaScript's `||` treats both as falsy. `EnOm.SoloAIStats` uses 0 for its absent damage and health, which are not read after construction.
- Fighting.EnemyAI: the jump velocity is a parameter, which `Om.SoloAI` sets to −20 and `EnOm.SoloAI` to −15. The name and colour of a fighter are not modelled.
- Om.Game.EndMatch: the level ladder of solo play is established by the start of a solo run, which resets the score and level; the matches needed are reset by the main menu. These menu actions are not modelled, and `Om.SoloEveryWinLevelsUp` takes the ladder as its precondition. The side is not reset for solo play; `Om.SoloOnSideTwoNeverLevelsUp` covers a player left on side 2.
