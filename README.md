# Puzzle Master engine in Dafny

This project models the puzzle-state engine of the `PuzzleMaster` game in `script.js`. The game is an 8×8 board holding straight bars of length 2 to 4. Each bar can slide to a new anchor. A path of empty cells must connect a start gate on the top row to an end gate on the bottom row.

The model covers:

- the cell records and the grid;
- the gates;
- the bar catalogue and its patterns' block listings;
- `canPlaceShape`, and the grid writes of `placeShapeOnGrid` and `removeShapeFromGrid`;
- random placement by rejection sampling;
- the move commit of `handleMouseDown` and `handleMouseUp`;
- the breadth-first search `checkPathExists` and `checkPathConnection`.

Files:

- `shapes.dfy` (module `Shapes`):
  - patterns, the catalogue (`defineAllShapes`) and the orientation rule;
  - the row-major block listing `Blocks`;
  - the loops `getFirstBlockPatternOffset`, `getBlockPatternOffset`, and the block collection of `placeShapeOnGrid`.
- `board.dfy` (module `Board`):
  - cells, the grid, gates and pieces;
  - `CanPlace`, the specification of `canPlaceShape`;
  - `PlaceCells` and `RemoveCells`, the specifications of the grid writes;
  - the board invariant `Consistent` and the lemmas that each operation keeps it;
  - the move commit as functions of the board;
  - the random anchor, and the first successful attempt `FirstFit`.
- `paths.dfy` (module `Paths`):
  - 4-neighbour walks and reachability;
  - the closure lemma the search relies on;
  - `gates.find` as `FindGate`;
  - the reported connection `Connected`.
- `build.dfy` (module `Builder`):
  - the random draws one board build consumes, as the record `Draws`;
  - the drawn gates, the drawn pattern of each piece and the first accepted anchor of its attempts;
  - the board those draws build, as the function `Build`, and the lemmas about its pieces.
- `engine.dfy` (module `Engine`):
  - the class `PuzzleMaster`. Its fields `grid`, `shapes`, `gates`, `pathConnected`, `isDragging`, `draggedShape` and `originalPosition` are updated in place by methods that follow the source's loops.
  - the constant field `shapeDefinitions`: the catalogue, set by the constructor from `defineAllShapes` and never changed.
  - a ghost field `lifted`, holding the indices of pieces currently picked up off the grid. The class invariant `Valid()` is `Consistent(grid, shapes, lifted)` plus the facts a drag in progress keeps.

How the source's values are represented:

- Random numbers are inputs. Each `Math.floor(Math.random() * n)` is a raw natural-number draw taken `% n` (`RandomBelow`), and a whole board build takes a `Draws` record.
- The catalogue object of `defineAllShapes` is the sequence of its entries' pattern lists, in the order of its keys. `Object.keys` indexing becomes a position in that sequence.
- Shape ids `shape_<i>` are the natural number `i`.
- The dragged shape is referred to by its index in `shapes`.
- The candidate anchor of a drop is a parameter. The source derives it from pixels.

## Model

| member | source | states |
|---|---|---|
| Shapes.CatalogueIsBars | script.js:83-89 | each catalogue entry has two patterns. Each is a straight bar of length 2 to 4. The one-row pattern is horizontal and its blocks run along row 0. The other is vertical and its blocks run down column 0. |
| Shapes.BlocksSpec | script.js:162-169 | the row-major listing of a pattern holds exactly its 1-cells, in strictly increasing row-major order |
| Shapes.BlocksIsRowMajorListing | script.js:162-169 | any strictly row-major listing of exactly the 1-cells is that listing, so the i-th element is the i-th block |
| Shapes.FirstBlockIsLeast | script.js:398-408 | when a pattern has a 1-cell, the first block offset is a 1-cell and precedes every other 1-cell in row-major order |
| Shapes.CollectBlocks | script.js:162-169 | the block collection loop of placeShapeOnGrid returns the row-major listing of the pattern's 1-cells |
| Shapes.GetFirstBlockPatternOffset | script.js:398-408 | returns the first 1-cell in row-major order, or (0,0) when there is none. This equals what GetBlockPatternOffset returns for index 0. |
| Shapes.GetBlockPatternOffset | script.js:410-424 | returns the elementIndex-th 1-cell in row-major order, or (0,0) when the index is out of range |
| Board.GateKeepsVacant | script.js:99-105 | placing a gate on a vacant grid marks its cell, which stays empty and names no piece |
| Board.CanPlaceCovered | script.js:139-155 | an anchor is acceptable iff every cell the piece would cover is on the grid and empty |
| Board.CanPlaceInBounds | script.js:139-155 | an accepted anchor keeps the whole piece on the grid |
| Board.PlaceThenRemove | script.js:171-213 | removing a piece right after placing it restores a grid whose covered cells were free |
| Board.RemoveThenPlace | script.js:171-213 | placing a piece right after removing it restores the grid |
| Board.FindShape | script.js:226-227 | `shapes.find` by id: the first index holding the id, or none when no piece has it |
| Board.VacantConsistent | script.js:63-81 | an empty board with no pieces satisfies the board invariant |
| Board.NoOverlap | script.js:139-175 | under the invariant, a non-empty cell is covered by exactly one piece on the grid, and it names that piece |
| Board.RemovePreserves | script.js:231-246 | lifting a piece keeps the invariant, and the piece could go straight back to its own anchor |
| Board.PlacePreserves | script.js:321-329 | putting a lifted piece down where canPlaceShape accepts it keeps the invariant |
| Board.ReanchorLifted | script.js:321-326 | re-anchoring a lifted piece inside the grid keeps the invariant |
| Board.AppendLifted | script.js:131 | pushing a new piece with a fresh id, before it is on the grid, keeps the invariant |
| Board.AddPreserves | script.js:122-133 | placing a fresh-id piece where canPlaceShape accepts it keeps the invariant |
| Board.MoveCommit | script.js:321-330 | a lift followed by a drop at any candidate anchor keeps the invariant. The piece lands at the candidate if accepted on the lifted board, else at its original anchor. |
| Board.MoveRejectedRestores | script.js:321-329 | a rejected candidate leaves the piece and the grid exactly as before the lift |
| Board.MoveKeepsOtherCells | script.js:321-330 | a move changes no cell outside the moved piece's old and new cells, and no other piece's cells |
| Board.CatalogueFits | script.js:83-89 | every catalogue pattern is rectangular and fits on the grid |
| Board.RandomBelow | script.js:120-121 | a scaled draw lies in 0..n-1 |
| Board.RandomAnchorInBounds | script.js:120-121 | a drawn anchor always keeps the pattern on the grid |
| Board.FirstFitIsFirst | script.js:117-137 | the attempt FirstFit picks is one whose drawn anchor canPlaceShape accepts, and every earlier attempt is refused. When it picks none, all 100 attempts are refused. |
| Board.RemoveLiftedIsNoop | script.js:204-213 | removing a piece that is already off the grid, at an anchor canPlaceShape accepts, leaves the grid unchanged. A repeated mouse-down handler is therefore harmless. |
| Paths.StepsAreNeighbours | script.js:444 | the four direction steps reach exactly the 4-neighbours |
| Paths.ClosedHoldsWalkEnd | script.js:437-452 | a set closed under open neighbours that holds a walk's start holds its end |
| Paths.ClosedBlocksReach | script.js:437-453 | nothing outside a closed set holding the start is reachable from it |
| Paths.ExtendWalk | script.js:445-450 | extending a walk by an open neighbour of its end gives a walk |
| Paths.WitnessNeighbour | script.js:445-450 | visiting an open neighbour of a visited cell, reached by one more step, keeps every visited cell reachable from the start |
| Paths.DequeueKeepsClosed | script.js:439-451 | after a cell is dequeued and its open neighbours visited, every visited cell no longer queued has all its open neighbours visited |
| Paths.BoxCardinality | script.js:437-452 | a set of cells inside a rows×cols box has at most rows·cols members |
| Paths.FindGate | script.js:427-428 | `gates.find` by kind: the first gate of that kind, or none when there is none |
| Builder.DefineAllShapesDrawable | script.js:83-89 | the catalogue has entries, each with patterns, and every pattern is a catalogue bar that fits the grid |
| Builder.DrawnPattern | script.js:109-112 | the pattern drawn for piece i is a catalogue bar that fits the grid |
| Builder.PlaceDrawnPushesAtMostOne | script.js:117-137 | one placeRandomShape call leaves the board as it is iff all 100 attempts are refused. Otherwise it pushes exactly one piece at an accepted drawn anchor and places it on the grid. |
| Builder.PlaceDrawnNumbered | script.js:117-137 | one placeRandomShape call with the next id keeps the pieces catalogue bars with increasing ids below the next id |
| Builder.BuildKeepsPrefix | script.js:108-114 | later pieces never remove or change a piece already placed |
| Builder.BuildFromPieces | script.js:108-114 | from any step on, the build keeps the pieces catalogue bars with increasing ids below 10, horizontal iff one row |
| Builder.BuildPieces | script.js:107-115 | a freshly built board has at most 10 pieces, all catalogue bars, with increasing ids below 10, horizontal iff one row |
| Builder.VacantFirstFit | script.js:117-137 | on a board with every cell free, the first attempt of a piece that fits the grid is accepted |
| Builder.FirstPieceAlwaysPlaced | script.js:107-137 | piece shape_0 is always on a freshly built board, with its drawn pattern, at the anchor of its first attempt |
| Engine.PuzzleMaster.constructor | script.js:3-39 | the catalogue becomes defineAllShapes. The board is exactly the one Build gives for the draws and that catalogue: the drawn gates, the grid and pieces of Build, and pathConnected tells whether the gates are connected. The invariant holds and no drag is in progress. |
| Engine.PuzzleMaster.RestartGame | script.js:49-61 | resets the state and builds exactly the board Build gives for the new draws, as the constructor does |
| Engine.PuzzleMaster.Init | script.js:33-39 | from an empty state, creates the grid, the gates and the pieces Build gives, then records the connection |
| Engine.PuzzleMaster.CreateGrid | script.js:63-81 | the grid becomes 8×8 fresh cells: empty, no piece, no gate |
| Engine.PuzzleMaster.CreateGates | script.js:91-97 | the gates become the drawn start gate on the top row and end gate on the bottom row. Both cells are marked and the grid stays vacant. |
| Engine.PuzzleMaster.PlaceGate | script.js:99-105 | the gate's cell gets hasGate and isEmpty set, and nothing else changes |
| Engine.PuzzleMaster.CreateRandomShapes | script.js:107-115 | tries pieces 0..9 with their drawn catalogue patterns. The grid and the pieces become exactly those BuildFrom gives, and the invariant holds. |
| Engine.PuzzleMaster.DrawAndPlace | script.js:109-113 | one turn of the loop: draws piece i's entry and pattern and places it. The rest of the build is unchanged by taking this step, and the pieces stay well numbered. |
| Engine.PuzzleMaster.PlaceRandomShape | script.js:117-137 | the grid and pieces become those PlaceDrawn gives: the piece is pushed and placed at the first drawn anchor canPlaceShape accepts, or nothing changes when all 100 attempts fail. The invariant holds. |
| Engine.PuzzleMaster.AddShape | script.js:131-132 | the accepted piece is pushed and placed on the grid, keeping the invariant |
| Engine.PuzzleMaster.CanPlaceShape | script.js:139-155 | returns true iff every 1-cell shifted by the anchor is in 0..7 in both coordinates and empty |
| Engine.PuzzleMaster.PlaceShapeOnGrid | script.js:157-175 | exactly the covered cells become non-empty and name the piece; all other cells are unchanged |
| Engine.PuzzleMaster.RemoveShapeFromGrid | script.js:204-213 | exactly the covered cells become empty and name no piece; all other cells are unchanged |
| Engine.PuzzleMaster.HandleMouseDown | script.js:221-254 | a click on a piece starts a drag: it remembers the original anchor and lifts the piece off the grid, keeping the invariant. A click off any piece changes nothing. |
| Engine.PuzzleMaster.HandleMouseUp | script.js:310-333 | ends a drag and keeps the invariant. The piece takes the candidate anchor if accepted on the lifted board, else its original anchor. It is placed again and pathConnected is recomputed. With no drag in progress nothing changes. |
| Engine.PuzzleMaster.Drag | script.js:221-333 | a mouse-down on a piece followed by a mouse-up gives exactly the move commit of MoveCommit: the piece at MovedShape and the grid AfterMove |
| Engine.PuzzleMaster.CheckPathExists | script.js:426-455 | returns true iff the end cell is reachable from the start cell through 4-adjacent empty grid cells, with the start cell exempt. pathConnected is set to the result when both gates exist. With gates on the grid it dequeues at most 64 times. |
| Engine.VisitNeighbours | script.js:443-451 | every open 4-neighbour of the dequeued cell ends up visited. Only unvisited grid cells are added, and each is both marked visited and enqueued. |
| Engine.DequeueBound | script.js:437-452 | with both gates on the grid, the number of dequeues is at most 64 |
| Engine.PuzzleMaster.CheckPathConnection | script.js:457-465 | pathConnected becomes whether the gates are connected |

## Left out

- DOM work and presentation are not modelled. This covers element creation, CSS classes, styles, the overlay, `updateUI`, `showCongratulations`, `setupButtons` and `setupDragAndDrop`, and the `element`/`elements` fields.
- `handleMouseMove`, `pixelToGridPosition`, `updateShapePixelPosition`, `updateShapePreview` and `clearShapePreview` are not modelled. They are float pixel geometry. The drop's candidate anchor is a parameter instead.
- Colour choice and `Math.random` are not modelled: random numbers are inputs. `hasShape`, `moveCount` and `previewElements` are not modelled either, because the core never reads them.
- `GetFirstBlockPatternOffset`, `GetBlockPatternOffset`: the `null` result for a missing shape or pattern is not modelled. A Dafny pattern always exists.
- `HandleMouseDown`: it requires that a click on a piece already off the grid is a click on the dragged piece. In the source a lifted piece's blocks get `pointer-events: none` (script.js:252), so another lifted piece cannot be the target. A second run of the handler on the dragged piece is allowed. Each `restartGame` adds another set of listeners (script.js:37, 216-218), and such a run removes the piece again, which leaves the grid as it is.
- `HandleMouseUp`, `Drag`: the drop takes any candidate anchor. The slide of `handleMouseMove` (script.js:269-304) is not modelled. It moves the piece only along its own axis, in quarter-cell steps, and stops before the first collision. So the model admits candidates that the pointer could not reach.
- `PlaceRandomShape`: it requires a fresh id, a catalogue-like pattern (`Fits`) and no drag in progress. These are the only ways `createRandomShapes` calls it.
- `PlaceGate`: it requires the gate's column to be in 0..7. The source would fail on a missing row cell otherwise, and `createGates` only draws columns in range.
- `Engine.PuzzleMaster.RestartGame`: it requires the catalogue to be the one `defineAllShapes` returns. The constructor sets it, and nothing changes it afterwards.
- `Engine.PuzzleMaster.RestartGame`: it does not reset `originalPosition`, matching the source.
- The program has no solvability search and no whole-board retry loop. A board may come out with its gates disconnected.
- The program refuses no move after a win.
- A start gate covered by a piece does not block a path, because the start cell is enqueued without being checked (script.js:434-435). The model follows the program.
