/** The puzzle-state engine of the PuzzleMaster class: the grid, the pieces,
    the gates, building a board, dragging a piece and checking the path
    between the gates. Drawing and event wiring are not part of it. */
module Engine {
  import opened Shapes
  import opened Board
  import opened Paths
  import opened Builder

  class PuzzleMaster {
    var grid: Grid
    var shapes: seq<Shape>
    var gates: seq<Gate>
    var pathConnected: bool
    var isDragging: bool
    /** The dragged piece, by its index in `shapes`. */
    var draggedShape: Option<nat>
    var originalPosition: Pos
    /** The catalogue, fixed by the constructor: per key, its patterns. */
    const shapeDefinitions: seq<seq<Pattern>>
    /** Indices of the pieces that are currently off the grid. */
    ghost var lifted: set<nat>

    /** The board invariant holds, and while a drag is in progress the
        dragged piece is off the grid, still at its original anchor, and
        could be put back there. */
    ghost predicate Valid()
      reads this`grid, this`shapes, this`lifted, this`isDragging, this`draggedShape, this`originalPosition
    {
      Consistent(grid, shapes, lifted)
      && (isDragging ==>
            draggedShape.Some? && draggedShape.value < |shapes| && draggedShape.value in lifted
            && originalPosition == (shapes[draggedShape.value].startRow, shapes[draggedShape.value].startCol)
            && CanPlace(grid, shapes[draggedShape.value].pattern, originalPosition.0, originalPosition.1))
    }

    /** The state right after a board is built from the given draws: the
        gates are the drawn ones, the grid and the pieces are those Build
        gives, and pathConnected records the connection. */
    ghost predicate Built(d: Draws)
      reads this
    {
      Valid() && !isDragging && lifted == {}
      && BuiltBoard(d, shapeDefinitions, grid, shapes, gates, pathConnected)
    }

    /** The fields that building a board's pieces leaves alone. */
    twostate predicate Kept()
      reads this
    {
      gates == old(gates) && lifted == old(lifted) && isDragging == old(isDragging) && draggedShape == old(draggedShape)
    }

    /** constructor and init: build a board from the draws. */
    constructor (draws: Draws)
      requires EnoughDraws(draws)
      ensures Built(draws) && draggedShape == None
      ensures shapeDefinitions == DefineAllShapes()
    {
      grid := [];
      shapes := [];
      gates := [];
      pathConnected := false;
      isDragging := false;
      draggedShape := None;
      originalPosition := (0, 0);
      lifted := {};
      shapeDefinitions := DefineAllShapes();
      DefineAllShapesDrawable();
      new;
      assert shapeDefinitions == DefineAllShapes();
      Init(draws);
    }

    /** restartGame: clear the state and build a new board. */
    method RestartGame(draws: Draws)
      requires EnoughDraws(draws) && shapeDefinitions == DefineAllShapes()
      modifies this
      ensures Built(draws) && draggedShape == None
    {
      DefineAllShapesDrawable();
      grid := [];
      shapes := [];
      gates := [];
      isDragging := false;
      draggedShape := None;
      pathConnected := false;
      lifted := {};
      Init(draws);
    }

    method Init(draws: Draws)
      requires EnoughDraws(draws)
      requires grid == [] && shapes == [] && !isDragging && lifted == {}
      requires Drawable(shapeDefinitions)
      modifies this`grid, this`shapes, this`gates, this`pathConnected
      ensures Built(draws)
      ensures draggedShape == old(draggedShape)
    {
      CreateGrid();
      CreateGates(draws);
      VacantConsistent(grid);
      CreateRandomShapes(draws);
      CheckPathConnection();
    }

    /** createGrid: append gridSize rows of gridSize fresh cells. */
    method CreateGrid()
      requires grid == []
      modifies this`grid
      ensures grid == EmptyGrid() && draggedShape == old(draggedShape)
    {
      for row := 0 to Size
        invariant |grid| == row
        invariant forall r :: 0 <= r < row ==> grid[r] == seq(Size, _ => FreshCell)
      {
        var cells: seq<Cell> := [];
        for col := 0 to Size
          invariant cells == seq(col, _ => FreshCell)
        {
          cells := cells + [FreshCell];
        }
        grid := grid + [cells];
      }
    }

    /** createGates: a start gate on the top row and an end gate on the
        bottom row, each at a drawn column. */
    method CreateGates(draws: Draws)
      requires Vacant(grid)
      modifies this`grid, this`gates
      ensures gates == DrawnGates(draws)
      ensures grid == WithGate(WithGate(old(grid), gates[0]), gates[1])
      ensures Vacant(grid)
      ensures grid[0][gates[0].position].hasGate && grid[Size - 1][gates[1].position].hasGate
      ensures draggedShape == old(draggedShape)
    {
      var gate1 := Gate(Top, RandomBelow(draws.startGate, Size), Start);
      var gate2 := Gate(Bottom, RandomBelow(draws.endGate, Size), End);
      gates := [gate1, gate2];
      PlaceGate(gate1);
      GateKeepsVacant(old(grid), gate1);
      PlaceGate(gate2);
      GateKeepsVacant(WithGate(old(grid), gate1), gate2);
    }

    /** placeGate: mark the gate's cell; it stays empty. */
    method PlaceGate(gate: Gate)
      requires WellFormed(grid) && 0 <= gate.position < Size
      modifies this`grid
      ensures grid == WithGate(old(grid), gate)
    {
      var gateRow := if gate.edge == Top then 0 else Size - 1;
      var cell := grid[gateRow][gate.position];
      grid := grid[gateRow := grid[gateRow][gate.position := cell.(hasGate := true, isEmpty := true)]];
    }

    /** createRandomShapes: for each of numShapes pieces draw a catalogue
        entry and one of its patterns, then try to place it. The grid and
        the pieces become those BuildFrom gives. */
    method CreateRandomShapes(draws: Draws)
      requires Valid() && !isDragging && shapes == [] && EnoughDraws(draws) && Drawable(shapeDefinitions)
      modifies this`grid, this`shapes
      ensures Valid()
      ensures (grid, shapes) == BuildFrom(old(grid), [], draws, shapeDefinitions, 0)
      ensures Kept()
    {
      for i := 0 to NumShapes
        invariant Valid()
        invariant BuildFrom(grid, shapes, draws, shapeDefinitions, i) == BuildFrom(old(grid), [], draws, shapeDefinitions, 0)
        invariant WellNumbered(shapes, i)
        invariant Kept()
      {
        DrawAndPlace(draws, i);
      }
      assert BuildFrom(grid, shapes, draws, shapeDefinitions, NumShapes) == (grid, shapes);
    }

    /** One turn of createRandomShapes: draw piece i's catalogue entry and
        pattern, then place it. The build from piece i on is unchanged by
        taking this step. */
    method DrawAndPlace(draws: Draws, i: nat)
      requires Valid() && !isDragging && EnoughDraws(draws) && Drawable(shapeDefinitions) && i < NumShapes
      requires WellNumbered(shapes, i)
      modifies this`grid, this`shapes
      ensures Valid()
      ensures BuildFrom(grid, shapes, draws, shapeDefinitions, i + 1) == BuildFrom(old(grid), old(shapes), draws, shapeDefinitions, i)
      ensures WellNumbered(shapes, i + 1)
      ensures Kept()
    {
      var shapeType := RandomBelow(draws.shapeTypes[i], |shapeDefinitions|);
      var shapeDef := shapeDefinitions[shapeType];
      var pattern := shapeDef[RandomBelow(draws.patterns[i], |shapeDef|)];
      assert pattern == DrawnPattern(draws, shapeDefinitions, i);
      PlaceDrawnNumbered(grid, shapes, pattern, i, draws.anchors[i]);
      BuildFromStep(grid, shapes, draws, shapeDefinitions, i);
      PlaceRandomShape(pattern, i, draws.anchors[i]);
    }

    /** placeRandomShape: up to 100 attempts at a drawn anchor; the first
        anchor canPlaceShape accepts gets the piece, and if none does the
        piece is dropped. */
    method PlaceRandomShape(pattern: Pattern, shapeId: ShapeId, draws: seq<(nat, nat)>)
      requires Valid() && !isDragging && Fits(pattern) && |draws| >= MaxAttempts
      requires forall k :: 0 <= k < |shapes| ==> shapes[k].id != shapeId
      modifies this`grid, this`shapes
      ensures Valid()
      ensures (grid, shapes) == PlaceDrawn(old(grid), old(shapes), pattern, shapeId, draws)
      ensures Kept()
    {
      var attempts := 0;
      while attempts < MaxAttempts
        invariant 0 <= attempts <= MaxAttempts
        invariant shapes == old(shapes) && grid == old(grid)
        invariant FirstFit(grid, pattern, draws, 0) == FirstFit(grid, pattern, draws, attempts)
      {
        var anchor := RandomAnchor(pattern, draws[attempts]);
        var ok := CanPlaceShape(pattern, anchor.0, anchor.1);
        if ok {
          assert FirstFit(grid, pattern, draws, 0) == Some(attempts);
          AddShape(Shape(shapeId, pattern, OrientationOf(pattern), anchor.0, anchor.1));
          return;
        }
        assert FirstFit(grid, pattern, draws, attempts) == FirstFit(grid, pattern, draws, attempts + 1);
        attempts := attempts + 1;
      }
    }

    /** The accepting branch of placeRandomShape: push the piece and place
        it on the grid. */
    method AddShape(shape: Shape)
      requires Valid() && !isDragging
      requires CanPlace(grid, shape.pattern, shape.startRow, shape.startCol)
      requires forall k :: 0 <= k < |shapes| ==> shapes[k].id != shape.id
      modifies this`shapes, this`grid
      ensures Valid()
      ensures shapes == old(shapes) + [shape] && grid == PlaceCells(old(grid), shape)
      ensures Kept()
    {
      CanPlaceInBounds(grid, shape);
      AddPreserves(grid, shapes, lifted, shape);
      shapes := shapes + [shape];
      PlaceShapeOnGrid(shape);
    }

    /** canPlaceShape: false as soon as a block of the pattern, shifted by
        the anchor, falls off the grid or on a non-empty cell. */
    method CanPlaceShape(pattern: Pattern, startRow: int, startCol: int) returns (ok: bool)
      requires WellFormed(grid)
      ensures ok == CanPlace(grid, pattern, startRow, startCol)
    {
      for r := 0 to |pattern|
        invariant forall i, j :: 0 <= i < r && IsBlock(pattern, i, j) ==>
          InGrid(startRow + i, startCol + j) && grid[startRow + i][startCol + j].isEmpty
      {
        for c := 0 to |pattern[r]|
          invariant forall i, j :: (0 <= i < r || (i == r && j < c)) && IsBlock(pattern, i, j) ==>
            InGrid(startRow + i, startCol + j) && grid[startRow + i][startCol + j].isEmpty
        {
          if pattern[r][c] == 1 {
            var gridRow := startRow + r;
            var gridCol := startCol + c;
            assert IsBlock(pattern, r, c);
            if gridRow < 0 || gridRow >= Size || gridCol < 0 || gridCol >= Size {
              return false;
            }
            if !grid[gridRow][gridCol].isEmpty {
              return false;
            }
          }
        }
      }
      return true;
    }

    /** The grid writes of placeShapeOnGrid: collect the blocks, then mark
        each covered cell non-empty and naming the piece. */
    method PlaceShapeOnGrid(shape: Shape)
      requires WellFormed(grid) && InBounds(shape)
      modifies this`grid
      ensures grid == PlaceCells(old(grid), shape)
    {
      var shapeBlocks := CollectBlocks(shape.pattern);
      BlocksSpec(shape.pattern);
      var g := grid;
      for i := 0 to |shapeBlocks|
        invariant WellFormed(g) && MarkedCells(old(grid), g, shape, shapeBlocks[..i])
      {
        var gridRow := shape.startRow + shapeBlocks[i].0;
        var gridCol := shape.startCol + shapeBlocks[i].1;
        assert Covers(shape, gridRow, gridCol);
        MarkOne(old(grid), g, shape, shapeBlocks[..i], shapeBlocks[i]);
        g := g[gridRow := g[gridRow][gridCol := g[gridRow][gridCol].(isEmpty := false, shapeId := Some(shape.id))]];
        assert shapeBlocks[..i + 1] == shapeBlocks[..i] + [shapeBlocks[i]];
      }
      assert shapeBlocks[..|shapeBlocks|] == shapeBlocks;
      MarkedAllBlocks(old(grid), g, shape);
      grid := g;
    }

    /** removeShapeFromGrid: mark every cell the piece covers empty and
        naming no piece. */
    method RemoveShapeFromGrid(shape: Shape)
      requires WellFormed(grid) && InBounds(shape)
      modifies this`grid
      ensures grid == RemoveCells(old(grid), shape)
    {
      for r := 0 to |shape.pattern|
        invariant WellFormed(grid)
        invariant forall gr, gc :: InGrid(gr, gc) ==>
          grid[gr][gc] == if Covers(shape, gr, gc) && gr - shape.startRow < r
                          then Vacated(old(grid)[gr][gc]) else old(grid)[gr][gc]
      {
        for c := 0 to |shape.pattern[r]|
          invariant WellFormed(grid)
          invariant forall gr, gc :: InGrid(gr, gc) ==>
            grid[gr][gc] == if Covers(shape, gr, gc)
                               && (gr - shape.startRow < r || (gr - shape.startRow == r && gc - shape.startCol < c))
                            then Vacated(old(grid)[gr][gc]) else old(grid)[gr][gc]
        {
          if shape.pattern[r][c] == 1 {
            var gridRow := shape.startRow + r;
            var gridCol := shape.startCol + c;
            assert Covers(shape, gridRow, gridCol);
            grid := grid[gridRow := grid[gridRow][gridCol := grid[gridRow][gridCol].(isEmpty := true, shapeId := None)]];
          }
        }
      }
      GridExt(grid, RemoveCells(old(grid), shape));
    }

    /** The move-commit part of handleMouseDown: find the clicked piece,
        remember its anchor and lift it off the grid. A click that is not on
        a piece changes nothing. The clicked piece is on the grid, or it is
        the piece being dragged: once restartGame has registered the
        listeners again, one click runs this handler more than once on the
        same piece, and the repeats change nothing. */
    method HandleMouseDown(target: Option<ShapeId>)
      requires Valid()
      requires (target.Some? && FindShape(shapes, target.value).Some?
                && FindShape(shapes, target.value).value in lifted) ==>
        isDragging && draggedShape == FindShape(shapes, target.value)
      modifies this
      ensures Valid()
      ensures shapes == old(shapes) && gates == old(gates) && pathConnected == old(pathConnected)
      ensures match (if target.Some? then FindShape(old(shapes), target.value) else None)
        case None =>
          grid == old(grid) && isDragging == old(isDragging) && draggedShape == old(draggedShape)
          && originalPosition == old(originalPosition) && lifted == old(lifted)
        case Some(k) =>
          isDragging && draggedShape == Some(k)
          && originalPosition == (old(shapes)[k].startRow, old(shapes)[k].startCol)
          && grid == RemoveCells(old(grid), old(shapes)[k]) && lifted == old(lifted) + {k}
    {
      if target.None? {
        return;
      }
      var found := FindShape(shapes, target.value);
      if found.None? {
        return;
      }
      var k := found.value;
      var shape := shapes[k];
      if k in lifted {
        RemoveLiftedIsNoop(grid, shapes, lifted, k);
        assert lifted + {k} == lifted;
      } else {
        RemovePreserves(grid, shapes, lifted, k);
      }
      isDragging := true;
      draggedShape := Some(k);
      originalPosition := (shape.startRow, shape.startCol);
      RemoveShapeFromGrid(shape);
      lifted := lifted + {k};
    }

    /** The move-commit part of handleMouseUp: the dragged piece takes the
        candidate anchor if canPlaceShape accepts it, otherwise its original
        anchor; it is put back on the grid and the path is checked again. */
    method HandleMouseUp(candidate: Pos)
      requires Valid()
      modifies this
      ensures Valid() && !isDragging
      ensures gates == old(gates) && originalPosition == old(originalPosition)
      ensures !old(isDragging) ==>
        grid == old(grid) && shapes == old(shapes) && pathConnected == old(pathConnected)
        && draggedShape == old(draggedShape) && lifted == old(lifted)
      ensures old(isDragging) ==>
        var k := old(draggedShape).value;
        var s := old(shapes)[k];
        var moved := Anchored(s, DropAnchor(old(grid), s.pattern, candidate, old(originalPosition)));
        shapes == old(shapes)[k := moved] && grid == PlaceCells(old(grid), moved)
        && draggedShape == None && lifted == old(lifted) - {k}
        && pathConnected == Connected(grid, gates)
    {
      if !isDragging {
        return;
      }
      isDragging := false;
      var k := draggedShape.value;
      var shape := shapes[k];
      var ok := CanPlaceShape(shape.pattern, candidate.0, candidate.1);
      if ok {
        shape := shape.(startRow := candidate.0, startCol := candidate.1);
      } else {
        shape := shape.(startRow := originalPosition.0, startCol := originalPosition.1);
      }
      CanPlaceInBounds(grid, shape);
      ReanchorLifted(grid, shapes, lifted, k, (shape.startRow, shape.startCol));
      shapes := shapes[k := shape];
      PlacePreserves(grid, shapes, lifted, k);
      PlaceShapeOnGrid(shape);
      lifted := lifted - {k};
      CheckPathConnection();
      draggedShape := None;
    }

    /** A whole drag: mouse-down on a piece that is on the grid, then
        mouse-up with a candidate anchor. The result is the move commit of
        the board module: the piece ends where MovedShape says and the grid
        is AfterMove of the grid before the drag. */
    method Drag(target: ShapeId, candidate: Pos)
      requires Valid() && !isDragging
      requires FindShape(shapes, target).Some? && FindShape(shapes, target).value !in lifted
      modifies this
      ensures Valid() && !isDragging && lifted == old(lifted)
      ensures var k := FindShape(old(shapes), target).value;
        shapes == old(shapes)[k := MovedShape(old(grid), old(shapes)[k], candidate)]
        && grid == AfterMove(old(grid), old(shapes)[k], candidate)
        && pathConnected == Connected(grid, gates)
    {
      HandleMouseDown(Some(target));
      HandleMouseUp(candidate);
      assert lifted == old(lifted) + {FindShape(old(shapes), target).value} - {FindShape(old(shapes), target).value};
    }

    /** checkPathExists: breadth-first search from the start gate's cell on
        row 0 over empty 4-neighbours, succeeding when the end gate's cell on
        the last row is dequeued. The start cell is enqueued without looking
        at it. Without both gates it answers false and leaves pathConnected
        alone. */
    method CheckPathExists() returns (found: bool, ghost dequeues: nat)
      requires WellFormed(grid)
      modifies this`pathConnected
      ensures found == Connected(grid, gates)
      ensures GatesOnGrid(gates) ==> dequeues <= Size * Size
      ensures FindGate(gates, Start).Some? && FindGate(gates, End).Some? ==> pathConnected == found
      ensures FindGate(gates, Start).None? || FindGate(gates, End).None? ==> pathConnected == old(pathConnected)
    {
      var startGate := FindGate(gates, Start);
      var endGate := FindGate(gates, End);
      if startGate.None? || endGate.None? {
        return false, 0;
      }
      var startNode := (0, startGate.value.position);
      var endNode := (Size - 1, endGate.value.position);
      var g := grid;
      var queue := [startNode];
      var visited := {startNode};
      ghost var walks := map[startNode := [startNode]];
      ghost var bound := Cells() + {startNode};
      dequeues := 0;
      while |queue| > 0
        invariant startNode in visited && visited <= bound
        invariant dequeues + |queue| == |visited|
        invariant forall v :: v in queue ==> v in visited
        invariant Witnessed(g, startNode, visited, walks)
        invariant ClosedOutside(g, visited, queue)
        invariant endNode in visited ==> endNode in queue
        decreases bound - visited, |queue|
      {
        var node := queue[0];
        ghost var visitedBefore := visited;
        var queueBefore := queue[1..];
        assert queue == [node] + queueBefore;
        dequeues := dequeues + 1;
        if node == endNode {
          pathConnected := true;
          assert IsWalk(g, walks[endNode]);
          DequeueBound(gates, startGate.value, startNode, visited, dequeues);
          return true, dequeues;
        }
        queue, visited, walks := VisitNeighbours(g, startNode, node, queueBefore, visited, walks);
        DequeueKeepsClosed(g, node, queueBefore, visitedBefore, queue, visited);
        if visited != visitedBefore {
          GrowShrinksRest(bound, visitedBefore, visited);
        }
      }
      ClosedBlocksReach(g, visited, startNode, endNode);
      pathConnected := false;
      DequeueBound(gates, startGate.value, startNode, visited, dequeues);
      return false, dequeues;
    }

    /** checkPathConnection: record whether the gates are connected. */
    method CheckPathConnection()
      requires WellFormed(grid)
      modifies this`pathConnected
      ensures pathConnected == Connected(grid, gates)
      ensures old(Valid()) ==> Valid()
      ensures grid == old(grid) && shapes == old(shapes) && gates == old(gates) && lifted == old(lifted)
      ensures isDragging == old(isDragging) && draggedShape == old(draggedShape) && originalPosition == old(originalPosition)
    {
      var connected;
      ghost var dequeues;
      connected, dequeues := CheckPathExists();
      if connected {
        pathConnected := true;
      } else {
        pathConnected := false;
      }
    }
  }

  /** The inner loop of checkPathExists: every open neighbour of node that
      is not yet visited is marked visited and enqueued, in the order of
      Dirs. The ghost walks witness how each visited cell is reached. */
  method VisitNeighbours(g: Grid, ghost source: Pos, node: Pos, queue: seq<Pos>, visited: set<Pos>, ghost walks: map<Pos, seq<Pos>>)
    returns (queue': seq<Pos>, visited': set<Pos>, ghost walks': map<Pos, seq<Pos>>)
    requires WellFormed(g) && node in visited
    requires Witnessed(g, source, visited, walks)
    ensures visited <= visited' && visited' - visited <= Cells()
    ensures |queue| <= |queue'| && queue'[..|queue|] == queue
    ensures forall v :: v in queue' <==> v in queue || v in visited' - visited
    ensures |queue'| - |queue| == |visited'| - |visited|
    ensures visited' == visited ==> queue' == queue
    ensures forall w :: Adjacent(node, w) && Open(g, w) ==> w in visited'
    ensures Witnessed(g, source, visited', walks')
  {
    var added: seq<Pos> := [];
    visited', walks' := visited, walks;
    for d := 0 to |Dirs|
      invariant visited <= visited' && visited' - visited <= Cells()
      invariant forall v :: v in added <==> v in visited' - visited
      invariant |added| == |visited'| - |visited|
      invariant StepsVisited(g, node, visited', d)
      invariant Witnessed(g, source, visited', walks')
    {
      var next := Step(node, d);
      ghost var visitedBefore := visited';
      if Open(g, next) && next !in visited' {
        StepsAreNeighbours(node, next);
        assert next in Cells();
        WitnessNeighbour(g, source, visited', walks', node, next);
        visited' := visited' + {next};
        added := added + [next];
        walks' := walks'[next := walks'[node] + [next]];
      }
      StepVisited(g, node, visitedBefore, visited', d);
    }
    queue' := queue + added;
    assert queue'[..|queue|] == queue;
    forall w | Adjacent(node, w) && Open(g, w) ensures w in visited' {
      StepsAreNeighbours(node, w);
      assert StepsVisited(g, node, visited', |Dirs|);
    }
  }

  /** Each dequeue of the search takes a distinct visited cell, and with
      the start gate on the grid every visited cell is a grid cell. */
  lemma DequeueBound(gates: seq<Gate>, start: Gate, startNode: Pos, visited: set<Pos>, dequeues: nat)
    requires FindGate(gates, Start) == Some(start) && startNode == (0, start.position)
    requires visited <= Cells() + {startNode} && dequeues <= |visited|
    ensures GatesOnGrid(gates) ==> dequeues <= Size * Size
  {
    if GatesOnGrid(gates) {
      assert startNode in Cells();
      BoxCardinality(visited, Size, Size);
    }
  }
}
