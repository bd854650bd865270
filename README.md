# pang core, modelled in Dafny

This project models the sequential, integer- and list-based core of the
pang game (mrdooz/pang). It proves that model against the properties the
game's code promises.

- **MathUtils** (math_utils.dfy): the Bresenham rasteriser `Line`.
  - The model is a method with the source's two `while (true)` loops and `int` arithmetic.
  - It is proved equal to a closed-form description of the tile path, `LinePoints`.
  - Lemmas about `LinePoints` give the endpoints, the point count, 8-connected steps, the single-point and diagonal cases, and a counterexample to reversal symmetry.
- **Levels** (level.dfy): the row-major tile grid `Level`, a class over a byte buffer.
  - `Idx` and `Get` are pure lookups; `Set` writes one cell in place.
  - `Init` resizes the buffer and stamps blocks at random positions. The `rand()` results are an input sequence.
  - pang.cpp holds a copy of `Level::Init/Idx/Set/Get` (pang.cpp:9-50). It is identical except that `Init` stamps 100 blocks instead of 10, so it shares the model and gets `InitPang` for its `Init`.
- **Pang** (pang.dfy): the action scheduling of `Game`, a class holding the pending action queue, the in-progress list, the entities and the bullets.
  - Modelled: `AddMoveAction`, the bullet enqueueing of the `Space` key handler, `EraseMoveActions` and `HandleActions`.
  - They are proved against the list functions `QueueMove`, `WithoutMoves`, `Transferred`, `BulletsOf`, `Retired` and `Advanced`.
  - The class invariant is: at most one move per player in each list, only moves in progress, and every move 500 ms long.
- **Behavior** (behavior.dfy): the `Coordinator` mailbox singleton, and the bookkeeping of the wander behaviour.
  - The wander part covers lazy initialisation, the tick countdown and the turning direction.
- **Utils** (utils.dfy): `min3`, `max3`, `IntAbs`, `Clamp`, `lerp`, `randf`, `exch_null` and `contains` from utils.hpp.
- **Types** (types.dfy): `Tile` and its equality from types.cpp, which ignores the sub-tile offset.

Modelling choices:
- Integers are unbounded. The source's `int`, `u32`, `u16` and `u8` are subset types, and the model writes out wrap-around where it can happen: the `u32` tick countdown and narrowing an entity id to `EntityId`. The `u32` index product `y*width + x` is required not to wrap: the level must have fewer than 2^32 cells.
- Floats are exact reals.
- `rand()` results (a `RandValue`, from 0 to `RAND_MAX`), the clock reading and the level lookup behind `IsValidPos` are parameters.

## Model

| member | source | states |
|---|---|---|
| Utils.Min3 | utils.hpp:53-57 | the result is at most each argument and equals one of them |
| Utils.Max3 | utils.hpp:59-63 | the result is at least each argument and equals one of them |
| Utils.IntAbs | utils.hpp:65-68 | for an `int` other than `INT_MIN`, the result is non-negative, equals `a` or `-a`, is `a` when `a >= 0`, and is the absolute value of `a` |
| Utils.Clamp | utils.hpp:73-77 | in `[minValue, maxValue]` when the bounds are ordered; `v` itself when already in range; `maxValue` above the range; `minValue` below it |
| Utils.ClampIdempotent | utils.hpp:73-77 | clamping twice is clamping once |
| Utils.Lerp | utils.hpp:24-28 | lies between `a` and `b` for `v` in `[0, 1]`, whichever of the two is smaller, and is `a` at 0 and `b` at 1 |
| Utils.ExchNull | utils.hpp:11-17 | returns the old pointer and leaves the variable null |
| Utils.Find | utils.hpp:40-43 | `find`: the first position holding `key`, or the end when none does |
| Utils.Contains | utils.hpp:40-43 | true exactly when `key` is an element of the container |
| Types.MakeTile | types.hpp:12 | `Tile(x, y)` has the given coordinates and a zero sub-tile offset |
| Types.MakeSubTile | types.hpp:13 | `Tile(x, y, subX, subY)` compares equal to `Tile(x, y)`, yet is a different structure when the sub-tile offset is not zero |
| Types.TileEqIgnoresSub | types.cpp:6-9 | two tiles are equal exactly when x and y agree, whatever their sub-tile offsets |
| Types.TileEqSubOffset | types.cpp:6-9 | `Tile(x, y) == Tile(x, y, sx, sy)` for every offset, even though the structures differ when `sx != 0` |
| Types.TileEqEquivalence | types.cpp:6-9 | tile equality is reflexive, symmetric and transitive |
| MathUtils.Line | math_utils.cpp:5-52 | for any coordinates whose `int` arithmetic does not overflow, the output is exactly the path `LinePoints`, whatever the vector held before |
| MathUtils.WalkXMajor | math_utils.cpp:14-32 | the x-major loop emits `LinePoints` and terminates, because x moves one step toward `x1` per point |
| MathUtils.WalkYMajor | math_utils.cpp:33-51 | the y-major loop (also taken when `dx == dy`) emits `LinePoints` and terminates |
| MathUtils.PointAt | math_utils.cpp:18-30 | while the loop's error term is in its invariant band, the current (x, y) is the closed-form point |
| MathUtils.Step | math_utils.cpp:24-29 | after one loop step `ofs` stays within `2*major*minor`, `threshold` grows by `2*major`, and when `ofs` reaches `threshold` the minor axis still has a step left, so `threshold` stays within the overflow bound |
| MathUtils.StepKeepsBand | math_utils.cpp:24-29 | one loop step keeps the error term in its band, with the minor step taken exactly when `ofs` reaches `threshold` |
| MathUtils.LineStart | math_utils.cpp:14-51 | the path has `max(abs(x1-x0), abs(y1-y0)) + 1` points, and the first is (x0, y0) |
| MathUtils.LineEnd | math_utils.cpp:20-22 | the last point is (x1, y1) |
| MathUtils.LineSteps | math_utils.cpp:24-30 | between consecutive points the major coordinate moves exactly `sx`/`sy` and the minor one moves 0 or one step in its direction, so each step reaches one of the 8 neighbours |
| MathUtils.MinorStepsStep | math_utils.cpp:24-29 | the minor axis advances by 0 or 1 per major step |
| MathUtils.LineSinglePoint | math_utils.cpp:33-41 | identical endpoints give exactly one point |
| MathUtils.LineDiagonal | math_utils.cpp:35-49 | when `dx == dy > 0`, both coordinates change at every step |
| MathUtils.LineForwardExample | math_utils.cpp:14-31 | the path from (0,0) to (2,1) is (0,0), (1,1), (2,1) |
| MathUtils.LineBackwardExample | math_utils.cpp:14-31 | the path from (2,1) to (0,0) is (2,1), (1,0), (0,0) |
| MathUtils.LineNotReversible | math_utils.cpp:14-31 | reversing the endpoints changes the tile set: same length, different middle tile |
| Levels.CellIndex | level.cpp:25-32 | an index exists exactly when `x < width` and `y < height`; it is then `y*width + x` and less than `width*height` |
| Levels.CellIndexRoundTrip | level.cpp:30 | an index decodes back to its position by `% width` and `/ width` |
| Levels.CellIndexInjective | level.cpp:30 | distinct in-range positions have distinct indices |
| Levels.CellIndexDistinct | level.cpp:30 | distinct in-range positions address distinct buffer cells |
| Levels.Resized | level.cpp:11 | `resize(n, 0)` keeps the first `n` old cells and pads with zeros |
| Levels.RollIndex | level.cpp:16-18 | the cell chosen by `rand() % width`, `rand() % height` is inside the grid |
| Levels.Stamped | level.cpp:14-19 | stamping blocks keeps the buffer size |
| Levels.StampedCells | level.cpp:14-19 | after stamping, a cell is 1 if some roll lands on it and keeps its old value otherwise |
| Levels.RollCellsSize | level.cpp:14-19 | the rolls land on at most as many cells as there are rolls |
| Levels.StampedFresh | level.cpp:8-19 | on a zeroed grid every cell ends up 0 or 1, with at most one block per roll |
| Levels.Level.constructor | level.hpp:25 | a new level is 0 by 0 with an empty buffer |
| Levels.Level.Idx | level.cpp:25-32 | an index exists exactly when the position is in range; it is then `y*width + x` and inside the buffer |
| Levels.Level.Get | level.cpp:43-47 | in range, the cell at `y*width + x`; out of range, `0xff` |
| Levels.Level.Set | level.cpp:35-40 | in range, writes that one cell, after which `Get` reads `v` back; out of range, changes nothing; `Get` of every other position is unchanged |
| Levels.Level.Init | level.cpp:6-22 | the buffer is the resized old buffer with 10 rolls stamped; from an empty buffer every cell is 0 or 1 and at most 10 are 1 |
| Levels.Level.InitPang | pang.cpp:9-25 | the same with 100 rolls, as in the copy in pang.cpp |
| Levels.Level.StampBlocks | level.cpp:14-19 | the loop of `Set(rand() % width, rand() % height, 1)` calls yields `Stamped` |
| Pang.Trunc | pang.cpp:137-138 | float-to-int conversion truncates toward zero |
| Pang.SnappedPos | pang.cpp:134-140 | the snapped position lies on the grid: both coordinates are grid lines, whole multiples of the grid size |
| Pang.SnapGridCorner | pang.cpp:134-140 | `SnappedPos` leaves a grid corner with non-negative coordinates where it is |
| Pang.SnappedPosNearest | pang.cpp:134-140 | a non-negative position snaps to a grid corner less than half a cell below it or at most half a cell above it |
| Pang.Millis | pang.cpp:433 | `total_milliseconds` truncates toward zero: for a non-negative duration `1000*ms <= us < 1000*ms + 1000`, for a negative one `1000*ms - 1000 < us <= 1000*ms` |
| Pang.Interpolated | pang.cpp:433-434 | the interpolated position is `from` at the start time and `to` at the end time |
| Pang.MovesOf | pang.cpp:287 | the moves of one player, each from the list |
| Pang.MovesOfMember | pang.cpp:287 | an action is among a player's moves exactly when it is in the list and is a move of that player |
| Pang.MovesOfConcat | pang.cpp:287 | picking a player's moves distributes over concatenation |
| Pang.WithoutMoves | pang.cpp:324-339 | the list `EraseMoveActions(p)` leaves is never longer than the old list |
| Pang.WithoutMovesCount | pang.cpp:324-339 | erasing removes exactly as many actions as `p` has moves: what is kept and what is erased add up to the old list |
| Pang.WithoutMovesMember | pang.cpp:324-339 | `EraseMoveActions(p)` keeps exactly the actions that are not moves of `p` |
| Pang.WithoutMovesConcat | pang.cpp:324-339 | erasing distributes over concatenation, so survivors keep their relative order |
| Pang.MovesOfWithout | pang.cpp:324-339 | erasing `p`'s moves removes all of them and leaves every other player's moves as they were |
| Pang.QueueMove | pang.cpp:298-320 | the queue grows by at most one, contains the new move, and gains nothing else |
| Pang.QueueMoveMoves | pang.cpp:298-320 | the new move takes the place of the player's first queued move, or is its only one; other players' queued moves are unchanged |
| Pang.QueueMoveOthers | pang.cpp:298-320 | everything in the queue other than the player's moves stays in place and in order |
| Pang.QueueMoveUnique | pang.cpp:298-320 | a queue with at most one move per player keeps that property, and the new move is then the player's only queued move |
| Pang.QueueMoveReplace | pang.cpp:299-307 | when the player has a queued move, the first one is overwritten in place |
| Pang.QueueMoveAppend | pang.cpp:310-315 | when the player has none, the new move is appended |
| Pang.Transferred | pang.cpp:386-419 | the transfer keeps the in-progress list to moves only, each 500 ms long |
| Pang.TransferStepMoves | pang.cpp:392-416 | after one queued move is transferred (its player's in-progress moves erased, the move appended), that player has exactly that move in progress, and other players' moves are unchanged |
| Pang.TransferredMoves | pang.cpp:386-419 | after the transfer each player's in-progress moves are its last queued move alone, or its earlier ones if it queued none |
| Pang.TransferredUnique | pang.cpp:386-419 | the transfer keeps at most one in-progress move per player |
| Pang.BulletsOf | pang.cpp:398-407 | each fired bullet comes from a queued bullet action with the same position, direction and player |
| Pang.BulletsOfComplete | pang.cpp:398-407 | every queued bullet action fires a bullet with its position, direction and player |
| Pang.BulletsOfConcat | pang.cpp:386-419 | bullets are fired in queue order |
| Pang.IsDue | pang.cpp:436 | only moves fall due, and a 500 ms move is due exactly when at least 500 ms have passed since its start |
| Pang.IsDueMillis | pang.cpp:433-436 | equivalently, a 500 ms move is due exactly when the whole milliseconds elapsed since its start, as `total_milliseconds` counts them, reach the move's own length in milliseconds |
| Pang.Retired | pang.cpp:423-445 | retiring never grows the in-progress list |
| Pang.RetiredMember | pang.cpp:436-444 | an action stays in progress exactly when it is not a move whose end time has passed |
| Pang.RetiredConcat | pang.cpp:423-445 | retiring distributes over concatenation, so survivors keep their order |
| Pang.MovesOfRetired | pang.cpp:423-445 | a player's remaining moves are its moves minus the due ones |
| Pang.MoveEffect | pang.cpp:428-442 | a due move puts its entity exactly on `to` with `_vel` 0; a move not yet due puts it at the interpolated position; rotation is untouched |
| Pang.Advanced | pang.cpp:423-445 | moves only add entities, never remove them |
| Pang.AdvancedEntity | pang.cpp:423-445 | with at most one move per player, each entity is driven by its own move alone, and left as it was without one |
| Pang.RetireMove | pang.cpp:436-444 | under the class invariant, a due move is removed and its entity ends exactly at `to` with `_vel` 0, while a move not yet due stays |
| Pang.Game.constructor | pang.cpp:73-80 | a new game has empty lists and no entities, and satisfies the class invariant |
| Pang.Game.SetNow | pang.cpp:486 | the clock is set and nothing else changes |
| Pang.Game.AddMoveAction | pang.cpp:275-321 | if `from` or `to` is invalid, only the entity's `_vel` becomes 0. If an in-progress move of the player already heads for the same snapped cell, nothing changes. Otherwise the queue becomes `QueueMove` with start `now` and end `now + 500 ms`. The class invariant is kept |
| Pang.Game.AddBulletAction | pang.cpp:199-210 | a bullet action is queued at the end exactly when its position is valid; the invariant is kept |
| Pang.Game.EraseMoveActions | pang.cpp:324-339 | erasing while iterating leaves exactly `WithoutMoves` of the old list, and nothing else changes |
| Pang.Game.HandleActions | pang.cpp:383-446 | the queue ends empty; bullets gain `BulletsOf` the queue; the in-progress list is the transferred list minus due moves; the entities are advanced by every in-progress move; the invariant is kept |
| Pang.Game.TransferQueue | pang.cpp:385-419 | the first loop yields `Transferred` and `BulletsOf`, then clears the queue |
| Pang.Game.RetireMoves | pang.cpp:422-445 | the second loop yields `Retired` and `Advanced` |
| Behavior.Coordinator.constructor | behavior.cpp:175 | a new coordinator has an empty mailbox |
| Behavior.Coordinator.Create | behavior.cpp:172-177 | requires that no instance exists; afterwards a fresh one with an empty mailbox does |
| Behavior.Coordinator.Destroy | behavior.cpp:180-185 | requires that an instance exists; afterwards none does |
| Behavior.Coordinator.Instance | behavior.cpp:189-192 | returns the existing instance |
| Behavior.Coordinator.SendMessage | behavior.cpp:195-198 | the message is appended behind the earlier ones, which are unchanged |
| Behavior.Coordinator.Update | behavior.cpp:201-213 | the mailbox ends empty and nothing else changes |
| Utils.RandF | utils.hpp:30-35 | `randf(a, b)` lies in `[a, b]` |
| Behavior.RandTicks | behavior.cpp:118 | a new countdown lies in `[500, 1000]` |
| Behavior.RandDir | behavior.cpp:119 | a new turning direction is -1 for an odd draw and +1 for an even one |
| Behavior.Initialise | behavior.cpp:112-120 | a state with offset 0 gets offset and radius 10, ticks in `[500, 1000]`, direction ±1 and an angle in `[-PI, PI]`; any other state is left alone |
| Behavior.Tick | behavior.cpp:126-132 | the countdown goes down by exactly one; at 1 it restarts in `[500, 1000]` with a new direction, and at 0 the `u32` wraps to its largest value. The angle moves by at most the jitter in the turning direction, the circle is unchanged, and an initialised state stays initialised |
| Behavior.WanderStep | behavior.cpp:111-132 | every call leaves a fresh or initialised state initialised |
| Behavior.WanderTable.constructor | behavior.cpp:34 | the table starts empty |
| Behavior.WanderTable.Wander | behavior.cpp:111-132 | only the entry of the entity's id, narrowed to `EntityId`, changes: a new entry is zeroed first. Every entry stays initialised |

## Left out

- Rendering, windowing, fonts and event plumbing are not modelled. This covers `CreateTexture`, `DrawGrid`, `Render`, `UpdateMessages`, the debug renderers, `Game::Init`, `Run` and the `OnKey*` and focus handlers. Only the queueing of a bullet action from the `Space` handler is kept, as `AddBulletAction`; the position and direction it computes with `sinf`/`cosf` are parameters.
- `ReadKeyboard` is not modelled: it polls live keyboard state. `ClampedDestination` is left out with it.
- Floating-point vector maths are not modelled: `BehaviorSeek`, `Arrive`, `Pursuit`, `AvoidWall`, the vector helpers of math_utils.hpp, the force vector `BehaviorWander` returns, and bullet motion and collision in `Game::Update`. All arithmetic that is kept uses exact reals, so rounding is not modelled.
- Pang.Game.AddMoveAction: `IsValidPos` is a function given to the game when it is built. In the source it reads the level tile under the position after a float-to-`u32` conversion, which is not part of this model.
- Pang.WithoutMoves: its own contract only bounds the length, to keep the proofs that use it small. Which actions it keeps, and in what order, is stated by Pang.WithoutMovesMember, Pang.WithoutMovesConcat, Pang.MovesOfWithout and Pang.WithoutMovesCount.
- Pang.SnappedPosNearest: proved for non-negative coordinates only. For negative ones the truncation rounds toward zero, and out-of-range float-to-int conversions are undefined in C++.
- Pang.Interpolated: uses exact reals for the fraction of elapsed milliseconds. It requires the move to last 500 ms, which every move does under the class invariant.
- `rand()` and `RAND_MAX` are not modelled: random draws are parameters, and `RAND_MAX` is fixed at glibc's value. Behavior.WanderTable.Wander takes the draws of one call as a record named by use, so it does not model the order in which they are consumed from the generator.
- Behavior.Coordinator.Update: the loop over the messages is not modelled, since its only branch, for `PlayerSpotted`, is empty. The contents of `AiMessage` beyond its kind come from a header that is not part of this model.
- Levels.Level.Init: requires `width` and `height` to be positive, because `rand() % 0` is undefined. It also requires `width * height` to fit in 32 bits: otherwise the `u32` product wraps and `Idx` can address past the buffer.
- MathUtils.Line: requires that no `int` in the loop overflows: the coordinate differences and `major + 2*major*minor` must fit in an `int`.
- The `Tile()` default constructor leaves its fields uninitialised. It is not modelled.
- The headers come from other snapshots than the sources. action.hpp names the player `entityId`, pang.hpp has no `_bullets` or `_level`, entity.hpp has no `_alive`, and level.hpp stores `Cell`s rather than bytes. The model follows the .cpp files throughout.
- Ownership of the actions is not modelled: the heap-allocated actions and their `delete` become plain values in the lists.
