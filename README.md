# nutshell: a verified model of the falling-sand core

Nutshell is a browser falling-sand toy. The screen is a grid of 16-bit cells, and each cell packs a tile type and a few small fields. Every tick, the cells are swept and each tile's update rule moves or changes it.

This project models the deterministic core of the toy in Dafny and proves properties of it:

- **The five-field cell codec (`client/data-tools.js`).** `pack`, `unpack` and the two bit toggles `flipUpdated` and `flipStatic`.
- **The grid object of `client/grid.js`.** Cell access, `inBounds`, the eight-slot neighbour queries and the two toggles. Also the stack-based `floodFill`, which a callback steers with the verdicts ABORT, SKIP and "anything else continues".
- **The simulation of `client/client.js`.** A second, four-field codec and a second copy of the grid primitives. Also the density rule `canSwap`, the water tile's update rule, one tick of `update` (the brush stroke, then the sweep over the grid), and the brush decision of `processInput`.
- **The keyboard tracker of `client/input/Keyboard.js`.** It tracks which keys are down and which held keys were already reported as "first down".

Files:

- `js.dfy` (module `Js`): the parts of JavaScript value semantics the code relies on.
  - Numbers seen by the bitwise operators are modelled as `bv32`, with the sign-propagating `>> 8` written out.
  - `Uint16Array` cells are `bv16`, and a store truncates modulo 2^16.
  - `Arg` models an argument checked for being an array.
  - `OutArray` models an array passed as an `out` parameter, together with its `packedValue` property.
- `data_tools.dfy` (module `DataTools`): the `TTTT TTTT EEEP PPSU` codec.
- `cells.dfy` (module `Cells`): the grid as a value (rows of `bv16` indexed `[y][x]`, coordinates `(x, y)`), plus the direction table. Both grid classes are stated against this value.
- `flood_fill.dfy` (module `FloodFill`): `floodFill` as a state machine, in two parts.
  - A `Step` function is one iteration of the loop, and `Run` composes steps.
  - The module also holds the state invariant, the termination measure, and the finding and its corrected traversal.
- `grid.dfy` (module `GridStore`): the grid class of `client/grid.js`, with an `array2<bv16>` and a ghost copy of its contents. Each method is proved against the `Cells` and `FloodFill` functions.
- `client.dfy` (module `Client`): the four-field codec (`TTTT TTTT EEEE PPPU`), the client grid class, `canSwap`, the water rule, the sweep, painting, `processInput`, `screenToGridCoords`, and a `Game` class holding the tick, the mouse state, the brush and the grid.
- `keyboard.dfy` (module `KeyboardInput`): the tracker as a pure step function, a class whose methods are proved against it, and lemmas over sequences of events and queries.

Choices the code makes that a reader might not expect:

- The sweep in `update` runs `x` from the last column down to 0 within each row, and `y` from the last row up to row 0 (`client/client.js:351-352`).
- The swap in `client/grid.js` clears the static flag only on the source cell.
- The grid test at `test/client/gridTest.js` describes an API the code does not have (see "Left out"), and its swap test contradicts the code (see "Findings").

## Model

| member | source | states |
|---|---|---|
| DataTools.Pack | client/data-tools.js:8-23 | fails with "not an array" exactly when given a non-array, and with "wrong length" exactly when given an array whose length is not 5; fields in range pack to a value below 2^16 whose unpacked fields are those fields |
| DataTools.Unpacked | client/data-tools.js:25-30 | the fields `unpack` writes: temperature and pressure at most 7, static and updated at most 1 |
| DataTools.Unpack | client/data-tools.js:25-35 | overwrites `out[0..4]` with the five fields, keeps any later elements, sets `packedValue` to the raw input, and returns `out` |
| DataTools.UnpackPack | client/data-tools.js:8-30 | for type < 256, temperature < 8, pressure < 8 and static, updated < 2, unpacking the packed record gives the record back |
| DataTools.UnpackedInRange | client/data-tools.js:21-30 | a value fits a 16-bit cell exactly when its unpacked record is in range |
| DataTools.PackUnpack | client/data-tools.js:8-30 | every 16-bit cell is the packing of its own unpacked fields |
| DataTools.FlipUpdated | client/data-tools.js:37-39 | the unpacked fields are unchanged except `updated`, which is toggled |
| DataTools.FlipStatic | client/data-tools.js:41-43 | the unpacked fields are unchanged except `static`, which is toggled |
| DataTools.FlipUpdatedTwice | client/data-tools.js:37-39 | flipping the updated flag twice restores the value |
| DataTools.FlipStaticTwice | client/data-tools.js:41-43 | flipping the static flag twice restores the value |
| Cells.Empty | client/grid.js:1-8 | a grid of `height` rows of `width` cells, every cell 0 |
| Cells.Put | client/grid.js:24-26 | the written cell holds the value, every other cell is unchanged, and the shape is kept |
| Cells.Swap | client/client.js:138-142 | the two cells are exchanged and every other cell is unchanged |
| Cells.CheckedAdd | client/grid.js:134-139 | throws exactly when either argument is not an array; otherwise returns the componentwise sum |
| Cells.AddThenSubtract | client/grid.js:134-139 | adding two arrays never throws, and adding the negated vector afterwards gives the coordinate back |
| Cells.OppositeDirections | client/grid.js:36-45 | the offsets of direction `i` and direction `(i + 4) % 8` cancel out |
| Cells.NeighborCoordAt | client/grid.js:80-91 | slot `i` is non-null exactly when `c + directions[i]` is in bounds, and is then that coordinate |
| Cells.NeighborSymmetric | client/grid.js:80-91 | when `d` is the neighbour of an in-bounds `c` in direction `i`, `c` is the neighbour of `d` in the opposite direction |
| Cells.NeighborCellAt | client/grid.js:64-78 | slot `i` is non-null exactly when `c + directions[i]` is in bounds, and then holds that cell |
| Cells.NeighborCoordSlots | client/grid.js:80-91 | eight slots in the order NW, N, NE, E, SE, S, SW, W, each as `NeighborCoordAt` |
| Cells.NeighborCellSlots | client/grid.js:64-78 | eight slots in the order NW, N, NE, E, SE, S, SW, W, each as `NeighborCellAt` |
| FloodFill.Outcome | client/grid.js:111-127 | the result is ABORT or END, ABORT exactly when the loop stopped on an ABORT answer |
| FloodFill.Step | client/grid.js:109-124 | pops the last stack entry (LIFO) and records the call; the loop stops exactly on ABORT; on ABORT or SKIP only the pop happens; otherwise the coordinate joins `processed`, the rest of the stack is kept, and every pushed coordinate is unprocessed and in bounds |
| FloodFill.PushedMembers | client/grid.js:118-124 | a coordinate is pushed exactly when it is a non-null neighbour slot not already in `processed` |
| FloodFill.PushedUpToMembers | client/grid.js:119-124 | the same, for the first `k` slots |
| FloodFill.PushedEight | client/grid.js:119-124 | the eight slots are visited in order, each contributing its coordinate or nothing |
| FloodFill.SlotsInside | client/grid.js:80-91 | every non-null neighbour slot is in bounds |
| FloodFill.RunCalls | client/grid.js:109-125 | `Run`, the loop run for `n` iterations: after them the call history extends the old one by exactly `n` calls, or by fewer when the loop has stopped |
| FloodFill.Continued | client/grid.js:117 | the coordinates appended to `processed` are calls (those answered neither ABORT nor SKIP) |
| FloodFill.ContinuedHas | client/grid.js:114-117 | every call answered with a continuing verdict is in `processed` |
| FloodFill.Init | client/grid.js:94-95 | the starting state: only `start` on the stack, nothing processed, no calls; what holds of it is stated by `FloodFill.InitInv` |
| FloodFill.InitInv | client/grid.js:94-95 | the invariant holds for `queue = [start]`, `processed = []` |
| FloodFill.StepBounded | client/grid.js:110-124 | every stack entry and every call stays in bounds or is `start` |
| FloodFill.StepAbortOnlyLast | client/grid.js:111-113 | an ABORT answer is only ever the last call, and it stops the loop |
| FloodFill.StepClosed | client/grid.js:117-124 | every in-bounds neighbour of a processed coordinate is already a call or is on the stack |
| FloodFill.StepInv | client/grid.js:109-125 | one iteration preserves the whole invariant: bounds, `processed` equal to the continued calls, ABORT only last, and closure |
| FloodFill.RunInv | client/grid.js:109-125 | the invariant holds after any number of iterations |
| FloodFill.RunKeeps | client/grid.js:109-125 | any property that one iteration preserves holds after any number of iterations |
| FloodFill.DoneFacts | client/grid.js:109-127 | when the loop stops: the result is ABORT or END; it is ABORT exactly when some call answered ABORT, and that call was the last; on END every in-bounds neighbour of every expanded coordinate was passed to the callback |
| FloodFill.FillOutcome | client/grid.js:93-127 | the guarantee of a finished `floodFill` from `start`: the facts of `DoneFacts`, the first call is `start`, and every call is in bounds or is `start` |
| FloodFill.StepMeasure | client/grid.js:109-125 | every iteration that does not stop the loop shrinks, lexicographically, the unprocessed coordinates, the already-processed stack entries, and the stack length, so the loop terminates |
| FloodFill.UnvisitedAdd | client/grid.js:117 | processing a new coordinate lowers the count of unprocessed coordinates, and reprocessing a processed one keeps it |
| FloodFill.FiveSteps | client/grid.js:109-124 | on a 2 x 2 grid from (0, 0), with a callback that always continues, the state after five iterations is the fixed state `S5` |
| FloodFill.RepeatedExpansion | client/grid.js:109-124 | in that run the fourth and fifth calls are both (1, 0), and both are expanded: `processed` holds (1, 0) twice |
| FloodFill.CheckedStep | client/grid.js:109-124 | the corrected iteration drops a popped coordinate that is already processed, without a call and without changing `processed`; any other coordinate gets the iteration as written |
| FloodFill.CheckedRun | client/grid.js:109-125 | the corrected loop extends the call history by at most one call per iteration |
| FloodFill.CheckedStepInv | client/grid.js:109-124 | the corrected iteration keeps `processed` free of duplicates and repeats only SKIPped calls |
| FloodFill.CheckedRunNoRepeat | client/grid.js:109-124 | in the corrected traversal no coordinate is processed twice, and only SKIPped calls are repeated |
| GridStore.ClearStatic | client/grid.js:17 | `~(1 << 1)` clears bit 1 and keeps every other bit |
| GridStore.ClearStaticFields | client/grid.js:15-17 | clearing bit 1 sets the static field to 0 and leaves the other four fields unchanged |
| GridStore.SwapAsWritten | client/grid.js:10-18 | the source receives the target's old value with its static flag cleared, the target receives the source's old value unchanged, and no other cell changes |
| GridStore.SwapKeepsTargetStatic | client/grid.js:15-17 | swapping a static cell into an empty target leaves the target static |
| GridStore.SwapClearsMovedFlag | test/client/gridTest.js:62-68 | in the test's scenario on its 10 x 10 grid, cell (1, 1) ends up 0, not the 2 the test expects, and (5, 3) ends up 10 |
| GridStore.PlainSwapMeetsTest | test/client/gridTest.js:62-68 | the plain exchange `Cells.Swap` leaves 2 at (1, 1) and 10 at (5, 3), the values the test expects |
| GridStore.SwapClearingBoth | client/grid.js:10-18 | the evidently intended swap: the cells are exchanged, both with their static flag cleared, and no other cell changes |
| GridStore.SwapClearingBothUnflags | client/grid.js:15-17 | after the intended swap neither cell is static |
| GridStore.ClearStaticStored | client/grid.js:17 | `cell &= ~(1 << 1)` on a `Uint16Array` element stores the cell with bit 1 cleared |
| GridStore.AllocatedRows | client/grid.js:1-8 | the allocated array has max(width, height) slots, and slot `y` holds a row exactly when `y < width` |
| GridStore.MissingRow | client/grid.js:6-8 | on a 2 x 3 grid the in-bounds coordinate (0, 2) names a row that was never allocated |
| GridStore.Grid.constructor | client/grid.js:1-8 | a fresh grid of `height` rows of `width` zero cells |
| GridStore.Grid.Peek | client/grid.js:20-22 | returns the cell at `c` |
| GridStore.Grid.Store | client/grid.js:25 | the cell holds `v` and nothing else changes |
| GridStore.Grid.Put | client/grid.js:24-26 | cell `c` holds `value` modulo 2^16 and nothing else changes |
| GridStore.Grid.Clear | client/grid.js:28-30 | cell `c` becomes 0 and nothing else changes |
| GridStore.Grid.Swap | client/grid.js:10-18 | the contents become `SwapAsWritten` of the old contents |
| GridStore.Grid.InBounds | client/grid.js:32-34 | true exactly when 0 <= x < width and 0 <= y < height |
| GridStore.Grid.Add | client/grid.js:134-139 | the result is `CheckedAdd`: a throw exactly for a non-array argument, otherwise the componentwise sum |
| GridStore.Grid.Neighbors | client/grid.js:64-78 | throws exactly when no `out` array is given; otherwise overwrites `out[0..7]` with the eight neighbour slots, keeps later elements and `packedValue`, and returns `out` |
| GridStore.Grid.NeighborCell | client/grid.js:70-76 | slot `i`: the neighbour cell in direction `i`, or null off the grid |
| GridStore.Grid.NeighborCoords | client/grid.js:80-91 | eight slots, slot `i` non-null exactly when `c + directions[i]` is in bounds, and then equal to it |
| GridStore.Grid.FloodFill | client/grid.js:93-132 | the loop ends in the state `Run` reaches, and the result is its outcome: ABORT exactly when some call answered ABORT (the last one), otherwise END with the stack empty and every neighbour of an expanded coordinate offered; the first call is `start`, and every call is in bounds or is `start` |
| GridStore.Grid.FillLoop | client/grid.js:109-125 | the loop stops, and its call history and abort flag are those of the state `Run` reaches from `queue = [start]` after the returned number of iterations |
| GridStore.Grid.FillIteration | client/grid.js:110-124 | one pass takes the state `Run` reaches after `steps` iterations to the one after `steps + 1`, and unless it answers ABORT it shrinks the termination measure |
| GridStore.Grid.FlipUpdated | client/grid.js:141-143 | cell `c` becomes its value xor 1 and nothing else changes |
| GridStore.Grid.FlipStatic | client/grid.js:145-147 | cell `c` becomes its value xor 2 and nothing else changes |
| GridStore.FlipUpdatedStored | client/grid.js:141-143 | the stored cell is `flipUpdated` of the old cell, and survives the 16-bit store |
| GridStore.FlipStaticStored | client/grid.js:145-147 | the stored cell is `flipStatic` of the old cell, and survives the 16-bit store |
| GridStore.PushUnprocessed | client/grid.js:119-124 | the stack extended by exactly the non-null, unprocessed slots, in slot order |
| GridStore.IsProcessed | client/grid.js:100-107 | true exactly when the coordinate is in `processed` |
| Client.Pack | client/client.js:88-100 | fails exactly for a non-array; missing elements read as 0; fields in range (type < 256, temperature < 16, pressure < 8, updated < 2) pack below 2^16 and unpack to themselves |
| Client.Unpacked | client/client.js:102-106 | the four fields: temperature at most 15, pressure at most 7, updated at most 1 |
| Client.PackUnpack | client/client.js:88-110 | every 16-bit cell unpacks to in-range fields that pack back to it |
| Client.Unpack | client/client.js:102-110 | overwrites `out[0..3]` with the four fields, keeps later elements, sets `packedValue` to the input, returns `out` |
| Client.TypeOfHighByte | client/client.js:103 | the type of a 16-bit cell is its high byte |
| Client.DensityOf | client/client.js:249-320 | `tiles[t].density`: Infinity exactly for blocks, and no other tile denser than water |
| Client.Fixed | client/client.js:249-320 | a tile is fixed exactly when its density is Infinity, so only blocks are fixed |
| Client.CanSwapSpec | client/client.js:201-210 | false when either coordinate is off the grid; otherwise true exactly when the target is empty or its density is strictly below the source's |
| Client.BlockNeverDisplaced | client/client.js:209 | nothing can displace a block, whose density is Infinity |
| Client.CanSwapAsymmetric | client/client.js:209 | two tiles never can each displace the other |
| Client.WaterDisplaces | client/client.js:209 | water displaces exactly empty cells and oil |
| Client.Grid.constructor | client/client.js:81-86 | a fresh grid of `height` rows of `width` zero cells |
| Client.Grid.Peek | client/client.js:144-146 | returns the cell at `c` |
| Client.Grid.Store | client/client.js:149 | the cell holds `v` and nothing else changes |
| Client.Grid.Put | client/client.js:148-150 | cell `c` holds `value` modulo 2^16 and nothing else changes |
| Client.Grid.Clear | client/client.js:152-154 | cell `c` becomes 0 and nothing else changes |
| Client.Grid.Swap | client/client.js:138-142 | the contents become the exchange `Cells.Swap` of the old contents |
| Client.Grid.InBounds | client/client.js:156-158 | true exactly when 0 <= x < width and 0 <= y < height |
| Client.Grid.Add | client/client.js:212-217 | the result is `CheckedAdd`: a throw exactly for a non-array argument, otherwise the componentwise sum |
| Client.Grid.Neighbors | client/client.js:188-199 | a new eight-slot sequence, each slot the neighbour cell or null when off the grid |
| Client.Grid.NeighborCell | client/client.js:191-196 | slot `i`: the neighbour cell in direction `i`, or null off the grid |
| Client.Grid.CanSwap | client/client.js:201-210 | returns `CanSwapSpec` of the current contents |
| Client.Grid.FlipUpdated | client/client.js:219-221 | cell `c` becomes its value xor 1 and nothing else changes |
| Client.FlipFields | client/client.js:219-221 | toggling bit 0 toggles the updated field and leaves the others unchanged |
| Client.PackedCell | client/client.js:88-100 | for in-range fields, the stored cell `pack(fields)` unpacks to exactly those fields |
| Client.NextPressure | client/client.js:300 | `Math.min(7, above + 1)`: never above 7 |
| Client.Pressurized | client/client.js:300-301 | the repacked cell has its own fields, with the pressure replaced by the capped pressure of the water above |
| Client.FallOrder | client/client.js:276 | the fall directions for a tick; their order is stated by `Client.FallOrderAlternates` |
| Client.FallOrderAlternates | client/client.js:276 | water tries S first, then SW and SE, with SW first on even ticks and SE first on odd ticks |
| Client.LateralOrder | client/client.js:291-298 | sideways moves are tried west first, then east |
| Client.TargetIsAdd | client/client.js:278 | the water rule calls `add` with two arrays, so it never throws, and the sum is the target coordinate |
| Client.FirstFree | client/client.js:277-285 | the index found is the first direction `canSwap` admits, and every earlier one was refused; when none is found, all were refused |
| Client.WaterStep | client/client.js:275-307 | the grid after the water rule, a grid of the same shape; the lemmas below pin down its effect cell by cell |
| Client.WaterMove | client/client.js:276-298 | a move goes into a direction `canSwap` admits, one of S, SW, SE, W, E |
| Client.Moved | client/client.js:279-281 | `flipUpdated` then `swap` keeps the grid shape; the cells it changes are given by `MovedCells` |
| Client.MovedCells | client/client.js:279-281 | a move puts the mover, with its updated bit toggled, into the target, puts the target's old cell where the mover was, and changes nothing else |
| Client.WaterStepCells | client/client.js:275-307 | a water update makes exactly the one move `WaterMove` names, or writes only its own cell and leaves water or an empty cell there |
| Client.WaterStepWellTyped | client/client.js:275-307 | a water update leaves every cell with a type that has a tile entry or is empty |
| Client.WaterStepKeepsBlocks | client/client.js:275-307 | a water update moves no block |
| Client.WaterStepLocal | client/client.js:275-307 | water never rises: only its own cell and the cells below, diagonally below and beside it can change |
| Client.WaterFalls | client/client.js:276-285 | water moves into the first fall direction `canSwap` admits |
| Client.WaterSlides | client/client.js:287-298 | water that cannot fall and has water above it moves into the first of W and E that `canSwap` admits |
| Client.WaterPressure | client/client.js:287-306 | water that cannot move and has water above it takes pressure min(7, above + 1), keeps its other fields, and no other cell changes; on the bottom row it is cleared instead |
| Client.WaterDrains | client/client.js:304-306 | water that did not move, with a cell above and none below, is cleared, and no other cell changes |
| Client.NoFallOnBottomRow | client/client.js:276-285 | on the bottom row no fall direction is admitted |
| Client.WaterOnTopRow | client/client.js:287 | water with no cell above that cannot fall leaves the grid unchanged |
| Client.WaterFallsIntoEmpty | client/client.js:276-285 | water over an empty cell falls straight down |
| Client.MovedWaterMarked | client/client.js:279-281 | water that moved has its updated bit equal to `tick % 2`, so the rest of the sweep skips it |
| Client.Grid.MoveFirstFree | client/client.js:277-285 | moves exactly when a direction is admitted, into the first one admitted; otherwise changes nothing |
| Client.Grid.WaterUpdate | client/client.js:275-307 | the contents become `WaterStep` of the old contents |
| Client.CellStep | client/client.js:355-361 | one cell of the sweep keeps the grid well typed and moves no block |
| Client.RowSweep | client/client.js:352-363 | sweeping a row keeps the grid well typed and moves no block |
| Client.GridSweep | client/client.js:351-363 | the whole sweep keeps the grid well typed and moves no block |
| Client.BlockSkipped | client/client.js:357 | a block is skipped: it is never moved by its own update |
| Client.MarkedSkipped | client/client.js:357 | a cell whose updated bit already equals `tick % 2` is skipped |
| Client.PaintedCell | client/client.js:344 | the painted cell's fields are the brush's type, 0, 0 and `(tick + 1) % 2` |
| Client.Paint | client/client.js:341-346 | the brush stroke keeps the grid shape; its effect is given by `PaintFacts` |
| Client.PaintFacts | client/client.js:341-346 | a stroke changes only the cell under the pointer, and only when the brush erases or the cell is empty; the painted cell has the brush's fields and an updated bit different from `tick % 2`; the grid stays well typed |
| Client.Updated | client/client.js:340-364 | one `update` keeps the grid shaped and well typed |
| Client.UpdateKeepsBlocks | client/client.js:340-364 | within one tick no block moves except the one under the pointer, and that one only when the brush erases |
| Client.BrushFor | client/client.js:322-334 | no brush unless button 1 is down; with it down, meta erases, else shift paints water, else ctrl paints oil, else blocks |
| Client.ScreenToGrid | client/client.js:131-133 | the grid cell whose 10 x 10 pixel square contains the point (rounding down) |
| Client.Game.constructor | client/client.js:67-80 | tick 0, pointer at (0, 0), no button down, no brush, an empty grid |
| Client.Game.ProcessInput | client/client.js:322-334 | the brush becomes `BrushFor` of the mouse state; nothing else changes |
| Client.Game.PaintStroke | client/client.js:341-346 | the contents become `Paint` of the old contents |
| Client.Game.SweepCell | client/client.js:353-361 | the contents become `CellStep` of the old contents at this cell |
| Client.Game.SweepRow | client/client.js:352-363 | the contents become `RowSweep` of the old contents over the row, from its last column to its first |
| Client.Game.Update | client/client.js:340-364 | the contents become `Updated`: the stroke, then the sweep over rows from last to first |
| Client.Game.Step | client/client.js:58-59 | the tick advances by one, then the grid becomes `Updated` at the new tick |
| KeyboardInput.FirstDown | client/input/Keyboard.js:17-24 | reports true exactly when the key is down and not yet reported; afterwards the key is reported exactly when it was down or reported before, no other key changes, and the down keys are untouched |
| KeyboardInput.Handle | client/input/Keyboard.js:26-36 | afterwards the key is down exactly when the event is `keydown`; a `keyup` clears its reported flag and a `keydown` keeps it; no other key changes; `preventDefault` is called exactly for listed keys |
| KeyboardInput.InitialState | client/input/Keyboard.js:4-8 | initially no key is down or first-checked, and only TAB has its default suppressed |
| KeyboardInput.NotDownNoChange | client/input/Keyboard.js:17-20 | a key that is not down is not first down, and asking changes nothing |
| KeyboardInput.FirstDownThenNot | client/input/Keyboard.js:17-24 | the first query while a key is held reports it, and the next query does not |
| KeyboardInput.FirstDownOncePerPress | client/input/Keyboard.js:17-31 | over any sequence of events and queries without a release of the key, first-down is reported at most once, and not at all once already reported |
| KeyboardInput.DownIffLastKeyDown | client/input/Keyboard.js:26-31 | after any sequence, a key is down exactly when the last event for it was `keydown` (or, with none, when it was down before) |
| KeyboardInput.PressAfterRelease | client/input/Keyboard.js:27-31 | after a `keyup` and a `keydown`, the key is first down again |
| KeyboardInput.PreventDefaultExactly | client/input/Keyboard.js:33-35 | `preventDefault` is requested exactly for key codes in the list, and the list never changes |
| KeyboardInput.Run | client/input/Keyboard.js:26-36 | no sequence of events and queries changes the list of keys whose default is suppressed |
| KeyboardInput.Reports | client/input/Keyboard.js:17-24 | a sequence of actions answers at most one true report per action |
| KeyboardInput.Keyboard.constructor | client/input/Keyboard.js:1-9 | the state is the initial one |
| KeyboardInput.Keyboard.IsKeyDown | client/input/Keyboard.js:13-15 | true exactly when the key's state is truthy |
| KeyboardInput.Keyboard.IsKeyFirstDown | client/input/Keyboard.js:17-24 | its answer and new state are those of `FirstDown` |
| KeyboardInput.Keyboard.HandleInput | client/input/Keyboard.js:26-36 | its new state and `preventDefault` answer are those of `Handle` |
| KeyboardInput.IndexOf | client/input/Keyboard.js:33 | -1 exactly when the element is absent; otherwise the position of its first occurrence |

## Left out

- Rendering and the DOM: the canvas setup, `resizeCanvas`, `drawGrid`, `render`, each tile's `draw` and `colors`, and the FPS display. These are user interface only.
- Browser input capture: `handleMouseInput`, `getMousePos` and the listener registration of the mouse and the keyboard. The mouse state is a field of `Game` and key events are method arguments; pointer positions are integers.
- `gameLoop`'s timing (`Date.now`, `requestAnimationFrame`, the lag cap, the FPS filter, console logging). Only its fixed-length step, `game.tick++` followed by `update()`, is modelled, as `Client.Game.Step`.
- `server/server.js`, an HTTP wrapper that has no part in the simulation.
- The `./keymap` module is not part of this model. TAB is a constructor parameter of `KeyboardInput.Keyboard`.
- Floating-point densities: they are only compared, so water 1.0 and oil 0.8 are exact tenths, and Infinity is a top element.
- Oil's `update` does nothing, so it is the identity in `Client.CellStep` and `Client.Game.SweepCell`.
- JavaScript numbers outside the int32 range, and fractional numbers, as inputs of `pack`: the fields are taken as 32-bit values.
- `unpack` into the scratch arrays `s`, `t`, `above`, `tile` and `scratch` inside the client. These methods read the four fields with `Client.Fields`, the values those arrays hold. `Client.Unpack` models the out-array behaviour itself.
- The two grid allocations are modelled as `height` rows of `width` cells (see "Findings").
- GridStore.Grid.Peek, GridStore.Grid.Put, GridStore.Grid.Clear, GridStore.Grid.Swap, GridStore.Grid.FlipUpdated, GridStore.Grid.FlipStatic and the same methods of Client.Grid require an in-bounds coordinate. In the source, a row index off the grid throws a TypeError, and a column off the grid reads `undefined` and writes nothing.
- Client.CanSwapSpec, Client.Grid.CanSwap and the water rule require an on-grid source cell whose type has a `tiles` entry, and an on-grid target cell that is empty or has one; the source throws a TypeError for a target of any other type, and for a source without an entry it throws whenever the target is not empty (`client/client.js:209` returns true for an empty target without reading `tiles[s]`). Water is the only caller, so its own cell is always a tile. Every modelled operation keeps every cell's type in that set (`Client.WellTyped`).
- Client.Paint and Client.Game.Update require, while drawing, that the pointer be over a row of the grid. The source throws a TypeError for any other row. A column off the grid changes nothing, as in the source.
- GridStore.Grid.FloodFill: the callback is a pure function of the earlier calls and the current coordinate. A callback that changes the grid while it runs is not modelled. `PROCESS` is only a name for "continue".
- `grid.direction`'s reverse mapping from index to name, and the unused `tickDirs` and `target` variables of `update`, have no behaviour to model.
- Test expectations the code does not implement: the constructor-type argument, the `set`/`get` aliases, `peek(null)` and `neighbors` returning coordinates (`test/client/gridTest.js:6-16`, `test/client/gridTest.js:32-51`, `test/client/gridTest.js:93-109`).
- GridStore.Grid.Swap and GridStore.Grid.FloodFill model the code as written. The evidently intended versions in "Findings" stand beside them rather than replacing them.

## Findings

| source | as written | input that shows it | evidently intended | confidence | as-written member | corrected member |
|---|---|---|---|---|---|---|
| client/grid.js:6-8 | the loop allocates `width` rows of `width` cells in an array meant to hold `height` rows | width 2, height 3: the in-bounds coordinate (0, 2) has no row | `height` rows of `width` cells | not executed; high | GridStore.AllocatedRows, GridStore.MissingRow | Cells.Empty, GridStore.Grid.constructor |
| client/client.js:83-86 | the same loop shape: rows `0 .. width - 1` of `gridWidth` cells in an array of `gridHeight` | a window taller than it is wide, e.g. 2 x 3 cells: row 2 is missing | `gridHeight` rows of `gridWidth` cells | not executed; high | GridStore.AllocatedRows, GridStore.MissingRow | Cells.Empty, Client.Grid.constructor |
| client/grid.js:15-17 | the static flag is cleared on the local `tmp`, so the cell moved to the target keeps it | a static cell (10) at (0, 0) swapped with an empty (1, 0): the target stays static | both cells lose the static flag, as the comment says | not executed; medium (the grid test instead expects a plain swap) | GridStore.SwapAsWritten, GridStore.SwapKeepsTargetStatic | GridStore.SwapClearingBoth, GridStore.SwapClearingBothUnflags |
| test/client/gridTest.js:62-68 | the test expects a plain swap, but the code clears the static bit of the cell moved to the source | 10 at (1, 1) and 2 at (5, 3) on the 10 x 10 test grid: the code leaves 0 at (1, 1), not 2 | a plain exchange, as the client's own grid performs (`client/client.js:138-142`); this conflicts with the "clear static flags" comment behind the previous row, so one of the test and the comment is out of date | not executed; medium | GridStore.SwapClearsMovedFlag | Cells.Swap, GridStore.PlainSwapMeetsTest |
| client/grid.js:109-124 | a coordinate pushed twice before it is processed is popped, passed to the callback and expanded twice | a 2 x 2 grid from (0, 0) with a callback that always continues: the fourth and fifth calls are both (1, 0), and both are expanded | each coordinate is expanded at most once | not executed; medium | FloodFill.RepeatedExpansion | FloodFill.CheckedStepInv, FloodFill.CheckedRunNoRepeat |
