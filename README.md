# nimotsu: a verified model of the Sokoban turn engine

nimotsu is a small console Sokoban game on an 8 by 5 grid. A level has two
vectors of elements, each a drawing character (`pic`) and a cell:

- the **stage**: the walls (`#`) and the targets (`.`); it never changes
  during play;
- the **objects**: the boxes (`o`) and the player (`p`); they move in
  place, one keystroke at a time.

The keys `w`, `a`, `s` and `d` step up, left, down and right, and `q` quits.
A step into a wall is blocked. A step into a box pushes that box one cell
on, unless a wall or another box is behind it. After each move that a
wall did not block, the game checks whether every box stands on a target;
if so, the session ends.

This project models the game's engine:

- `change_pos`, the one-cell step;
- `update_game`, turn resolution with its three lookups and its win loop;
- `initialize`, which builds the wall ring and places the fixed targets,
  boxes and player, rejecting any that collide;
- the choice `draw` makes for each cell.

The modules follow the program's parts:

| module | file | what it holds |
|---|---|---|
| `Geometry` | `geometry.dfy` | `Pos`, the grid size, the key bindings, `ChangePos` |
| `Elements` | `elements.dfy` | `Element` (the source's `MyElement`), the `create_*_element` helpers, the first-match search (`find_if`) and the `get_wall`/`get_box`/`get_target` lookups |
| `Turn` | `turn.dfy` | `Resolve`, the value-level specification of `update_game`, with its rules and invariants; `UpdateGame`, which updates an `array<Element>` in place; `AllClear`, the win loop |
| `Level` | `level.dfy` | `CreateWall` (the nested loops of `create_wall`); the placement loops of `initialize` and their specification `Build`; `Initialize`; facts about the fixed level |
| `Draw` | `draw.dfy` | `CellPic`, the per-cell choice of `draw` |
| `Scenarios` | `scenarios.dfy` | whole plays on the fixed level: a blocked push and a win |

Each iterator returned by `find_if` is modelled as an `Option` of the
index of the first match. "Not found" is `None`.

Both `update_game` and `initialize` are modelled in two layers:

- an imperative method that follows the source statement by statement;
- a pure function (`Resolve`, `Build`) that the method's postcondition
  equals.

The lemmas state the game's rules about the pure function.

Three details of the behaviour shape the model:

- `initialize` rejects only three kinds of collision:
  - a target on a wall;
  - a box on a wall;
  - a player on a wall or on a box.
- It does not reject a target on a target, a box on a box, or a box or
  player on a target. `Build` and `Populate` therefore accept those too.
- The turn engine moves the first player it finds in the objects. It does
  not itself require exactly one; that is part of the play-time invariant
  `Consistent`, which every turn preserves.

## Model

| member | source | states |
|---|---|---|
| Geometry.ChangePos | nimotsu/game_main.cpp:35-56 | `s`, `w`, `a` and `d` step to y+1, y-1, x-1 and x+1. A movement key moves exactly one unit along one axis. Any other character leaves the cell unchanged. |
| Geometry.ChangePosUndone | nimotsu/game_main.cpp:35-56 | A step followed by the opposite key returns to the starting cell. |
| Geometry.ChangePosInjective | nimotsu/game_main.cpp:35-56 | Stepping with one key never sends two cells to the same cell. A movement key always leaves its cell. |
| Geometry.StepFromInteriorInGrid | nimotsu/game_main.cpp:35-56 | One step from a cell inside the ring stays on the 8 by 5 grid. |
| Elements.FindFirst | nimotsu/game_main.cpp:96-124 | `find_if` gives the first index whose element matches. No earlier element matches. It is "not found" exactly when no element matches. |
| Elements.GetWall | nimotsu/game_main.cpp:96-104 | `get_wall` finds a wall at a cell exactly when one exists, and the index it returns is a wall at that cell. |
| Elements.GetBox | nimotsu/game_main.cpp:106-114 | `get_box` finds a box at a cell exactly when one exists, and returns the first such box. |
| Elements.GetTarget | nimotsu/game_main.cpp:116-124 | `get_target` finds a target at a cell exactly when one exists. |
| Elements.FindPlayer | nimotsu/game_main.cpp:141-150 | The player lookup returns the first element drawn as the player. It is "not found" exactly when there is none. |
| Elements.HasPicAppend | nimotsu/game_main.cpp:96-124 | An element of a given kind is on a cell of a concatenated vector exactly when it is on that cell in one of the parts. |
| Elements.HasWallAppend | nimotsu/game_main.cpp:96-104 | A wall stands on a cell of a concatenated vector exactly when it does in one of the parts. |
| Elements.HasTargetAppend | nimotsu/game_main.cpp:116-124 | A target lies on a cell of a concatenated vector exactly when it does in one of the parts. |
| Turn.MoveTo | nimotsu/game_main.cpp:178-183 | Moving one element changes only that element's cell. Its kind and every other element stay as they were. |
| Turn.Resolve | nimotsu/game_main.cpp:95-204 | Length and kinds of the objects never change. A turn is consumed exactly for a movement key when a player exists. An unconsumed call changes nothing and quits exactly on `q` or a missing player. A consumed call that quits has every box on a target. |
| Turn.WallBlocksTurn | nimotsu/game_main.cpp:152-160 | A step into a wall returns true, moves nothing and does not quit. |
| Turn.PushRule | nimotsu/game_main.cpp:162-181 | With a box ahead, the first such box and the player each advance one step exactly when the cell beyond holds neither a wall nor a box, and nothing else changes. Otherwise nothing moves. The call returns true either way. |
| Turn.WalkRule | nimotsu/game_main.cpp:182-184 | With neither a wall nor a box ahead, only the player moves, one step. The call returns true. |
| Turn.WinRule | nimotsu/game_main.cpp:186-203 | After a move that a wall did not block, the call quits exactly when every box is on a target. This holds vacuously with no boxes. |
| Turn.TurnFrame | nimotsu/game_main.cpp:152-184 | Every element that changes advances one step in the key's direction. Only the first player and the first box ahead can change. |
| Turn.PushKeepsConsistent | nimotsu/game_main.cpp:162-181 | A successful push keeps boxes apart, the player off boxes, and everything off walls. |
| Turn.WalkKeepsConsistent | nimotsu/game_main.cpp:182-184 | A plain step keeps the world consistent in the same way. |
| Turn.TurnKeepsConsistent | nimotsu/game_main.cpp:95-184 | Every turn preserves consistency: there is exactly one player, no two boxes share a cell, the player is on no box, and neither the player nor a box is on a wall. From a consistent world every movement key is consumed. |
| Turn.PushKeepsApart | nimotsu/game_main.cpp:162-181 | A successful push keeps boxes apart and keeps the boxes and the player off walls, with no assumption about the player. |
| Turn.WalkKeepsApart | nimotsu/game_main.cpp:182-184 | A plain step keeps boxes apart and keeps the boxes and the player off walls. |
| Turn.ApartOffWallsKept | nimotsu/game_main.cpp:152-184 | If no two boxes share a cell and no box or player is on a wall before a turn, the same holds after it. This needs nothing about the player, so it also covers worlds `initialize` accepts with several players. |
| Turn.TurnKeepsInside | nimotsu/game_main.cpp:152-184 | Behind a complete wall ring, the player and the boxes never leave the inside of the grid. |
| Turn.AllClear | nimotsu/game_main.cpp:186-196 | The win loop, with its early `break`, yields true exactly when every box stands on some target. |
| Turn.UpdateGame | nimotsu/game_main.cpp:95-204 | The in-place `update_game` returns the turn's "consumed" flag and sets the quit flag. It leaves the object array holding exactly what `Resolve` specifies. |
| Level.RowWallsCells | nimotsu/game_main.cpp:248-264 | One row of `create_wall` emits only walls, each on a ring cell of that row. |
| Level.RowWallsSorted | nimotsu/game_main.cpp:248-264 | The walls of one row are emitted left to right. |
| Level.RowWallsComplete | nimotsu/game_main.cpp:248-264 | Every ring cell of a row gets a wall. |
| Level.RowWallsCount | nimotsu/game_main.cpp:248-264 | The first and last rows get a wall in every column. Every other row gets walls only in its first and last columns. |
| Level.GridWallsCells | nimotsu/game_main.cpp:247-266 | Every element emitted for the first y rows is a wall on a ring cell of those rows. |
| Level.GridWallsSorted | nimotsu/game_main.cpp:247-266 | The walls are emitted in row-major order. |
| Level.GridWallsComplete | nimotsu/game_main.cpp:247-266 | Every ring cell of the first y rows gets a wall. |
| Level.GridWallsExact | nimotsu/game_main.cpp:247-266 | A wall of the first y rows stands on a cell exactly when the cell is a ring cell of those rows. |
| Level.RowsAreBorder | nimotsu/game_main.cpp:247-266 | When the ring cells of the rows are exactly the border, the emitted walls cover exactly the border. |
| Level.BorderRingSize | nimotsu/game_main.cpp:247-266 | The ring has 22 walls. |
| Level.RingOnBorder | nimotsu/game_main.cpp:247-266 | Every wall of the ring lies on the border of the grid. |
| Level.RingRowMajor | nimotsu/game_main.cpp:247-266 | The ring is in row-major order, so no two of its walls share a cell. |
| Level.RingIsBorder | nimotsu/game_main.cpp:247-266 | A wall of the ring stands on a cell exactly when the cell has y = 0, y = 4, x = 0 or x = 7 within the grid. |
| Level.CreateWall | nimotsu/game_main.cpp:247-266 | The nested loops of `create_wall` produce exactly the ring specification `GridWalls(STAGE_HEIGHT)`. |
| Level.Accepted | nimotsu/game_main.cpp:302-352 | A placement loop inserts at most one element per candidate. Each inserted element has the loop's kind. |
| Level.AcceptedMembers | nimotsu/game_main.cpp:302-352 | A candidate's element is inserted exactly when the candidate is not rejected. |
| Level.AcceptedAll | nimotsu/game_main.cpp:302-352 | Every candidate is inserted exactly when none is rejected. |
| Level.AcceptedStep | nimotsu/game_main.cpp:302-352 | One loop iteration appends the candidate's element exactly when it is not rejected, and raises the failure flag exactly when it is. |
| Level.NoPicAdded | nimotsu/game_main.cpp:302-352 | Appending elements of other kinds adds no element of a given kind to a cell. |
| Level.NoWallAdded | nimotsu/game_main.cpp:302-314 | Appending targets adds no wall. Each target is therefore checked against the walls alone. |
| Level.NoBoxAdded | nimotsu/game_main.cpp:330-352 | Appending players adds no box. Each player is therefore checked against the boxes placed before. |
| Level.BuildOkIffAllPlaced | nimotsu/game_main.cpp:297-356 | `initialize` reports success exactly when every target, box and player was inserted. |
| Level.AppendWalls | nimotsu/game_main.cpp:298-300 | The copy loop appends the walls to the stage in order. |
| Level.PlaceTargets | nimotsu/game_main.cpp:302-314 | The target loop appends exactly the targets not on a wall. It raises the failure flag exactly when one is on a wall. |
| Level.PlaceBoxes | nimotsu/game_main.cpp:316-328 | The box loop appends exactly the boxes not on a wall. It raises the failure flag exactly when one is on a wall. |
| Level.PlacePlayers | nimotsu/game_main.cpp:330-352 | The player loop appends exactly the players on neither a wall nor a placed box. It raises the failure flag otherwise. |
| Level.Populate | nimotsu/game_main.cpp:297-356 | The placement phase, under one failure flag, yields exactly the stage, objects and success value that `Build` specifies. |
| Level.DefaultObjectsPlaced | nimotsu/game_main.cpp:275-285 | The fixed boxes at (2,2) and (3,2), and the player at (5,1), are all accepted against the ring. |
| Level.DefaultStageWalls | nimotsu/game_main.cpp:268-273 | Adding the fixed targets at (2,1) and (3,1) to the ring adds no wall. |
| Level.DefaultOverRing | nimotsu/game_main.cpp:268-356 | The fixed blueprint built over walls that cover exactly the border succeeds and places every element. |
| Level.DefaultConsistent | nimotsu/game_main.cpp:237-295 | The fixed level is a consistent world, enclosed by its ring with the movers inside. |
| Level.DefaultLevel | nimotsu/game_main.cpp:237-356 | Building the fixed level into empty vectors succeeds with the ring plus two targets, and with two boxes plus the player. That world is consistent and enclosed. |
| Level.Initialize | nimotsu/game_main.cpp:237-357 | `initialize` appends what `Build` specifies to the given vectors. Into empty vectors it always succeeds, with the fixed level in a consistent state. |
| Level.TargetOnWallOverRing | nimotsu/game_main.cpp:302-314 | A target on a wall makes the build fail and is not inserted, while the boxes and the player still are. |
| Level.TargetOnWallFails | nimotsu/game_main.cpp:302-314 | The fixed blueprint with a target moved onto the corner wall (0,0) fails. The stage then holds only the ring, and the objects are still placed. |
| Draw.CellPic | nimotsu/game_main.cpp:209-227 | A cell shows the first object on it; failing that, the first stage element on it; failing that, a blank. |
| Draw.BoxOccludesStage | nimotsu/game_main.cpp:209-227 | In a consistent world a box is drawn as a box, also on a target. |
| Draw.PlayerShown | nimotsu/game_main.cpp:209-227 | In a consistent world the player is drawn where it stands. |
| Draw.BareTargetShown | nimotsu/game_main.cpp:218-226 | A target with no object on it and no wall there is drawn as a target. |
| Scenarios.ShapeOverRing | nimotsu/game_main.cpp:268-273 | The fixed targets over walls that cover exactly the border give walls exactly on the border and targets exactly at (2,1) and (3,1). |
| Scenarios.DefaultStageShape | nimotsu/game_main.cpp:247-273 | The stage `initialize` builds has that shape. |
| Scenarios.ReplayKeepsConsistent | nimotsu/game_main.cpp:95-204 | Every world reached by a run of `update_game` calls from a consistent world is consistent and still has its player, so the missing-player exit at 147-150 is never taken. |
| Scenarios.PlayerSteps | nimotsu/game_main.cpp:182-203 | On the fixed stage, a step into a free inside cell moves only the player. Play goes on while a box is still off its target. |
| Scenarios.PushIntoBoxRefused | nimotsu/game_main.cpp:162-181 | Pushing the box at (3,2) left into the box at (2,2) is refused. The turn is consumed and nothing moves. |
| Scenarios.BlockedPushOn | nimotsu/game_main.cpp:95-204 | The keys `saa` from the fixed start leave the player at (4,2) and both boxes where they were. |
| Scenarios.BlockedPush | nimotsu/game_main.cpp:95-204 | The same play, from what `initialize` builds. |
| Scenarios.FirstPush | nimotsu/game_main.cpp:162-203 | Pushing the box at (3,2) up onto the target (3,1) succeeds and does not end the game. |
| Scenarios.WinningPush | nimotsu/game_main.cpp:162-203 | Pushing the box at (2,2) up onto the target (2,1), with the other box already home, ends the game. |
| Scenarios.WinningPlayOn | nimotsu/game_main.cpp:95-204 | The keys `ssaawsaw` from the fixed start put both boxes on the targets and end the session. |
| Scenarios.WinningPlay | nimotsu/game_main.cpp:95-204 | The same play, from what `initialize` builds. |

## Left out

- `get_input`, which reads console input with `scanf`: each key is a parameter of `Resolve`/`UpdateGame` instead.
- All printing is left out:
  - the grid output of `draw`;
  - the congratulation message of `update_game`;
  - the `draw` call at the end of `initialize`.

  Only the per-cell choice is modelled (`CellPic`).
- The `main` read, update and draw loop is I/O driving only. `Replay` chains turns for the scenarios but does not model console input or redrawing.
- Coordinates are unbounded integers, not `int32_t`. The wall ring keeps every reachable position within the 8 by 5 grid (`TurnKeepsInside`), so overflow cannot arise from play.
- Iterators and `std::find_if` are modelled as first-index searches (`FindFirst`). Writing through an iterator is modelled as an index update of the array.
- Geometry.ChangePos: returns the new cell instead of updating a `Pos&` argument in place. Each caller assigns the result to the variable the source passes by reference.
- Level.Initialize: takes the initial contents of the caller's two vectors and returns the extended vectors. Sharing those vectors with the caller is not modelled.
- The `create_*_element` helpers are plain constructors (`CreateWallElement` and the others). They carry no contract of their own.
