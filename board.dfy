/** The board: an 8x8 grid of cell records, the pieces placed on it, the
    placement check, and the invariant that no cell is covered twice. */
module Board {
  import opened Shapes

  datatype Option<T> = None | Some(value: T)

  /** gridSize */
  const Size: int := 8
  /** numShapes: pieces attempted when a board is built */
  const NumShapes: int := 10
  /** attempts placeRandomShape makes for one piece */
  const MaxAttempts: int := 100

  /** The game names piece i `shape_i`; the model keeps the index i. */
  type ShapeId = nat

  /** A (row, column) cell position. */
  type Pos = (int, int)

  /** A grid cell record. createGrid also sets `hasShape: false`, which the
      game never updates or reads afterwards; it is not modelled. */
  datatype Cell = Cell(isEmpty: bool, shapeId: Option<ShapeId>, hasGate: bool)

  type Grid = seq<seq<Cell>>

  /** A piece: its pattern is fixed, its anchor (startRow, startCol) moves. */
  datatype Shape = Shape(id: ShapeId, pattern: Pattern, orientation: Orientation, startRow: int, startCol: int)

  datatype Edge = Top | Bottom
  datatype GateKind = Start | End
  datatype Gate = Gate(edge: Edge, position: int, kind: GateKind)

  predicate InGrid(r: int, c: int) {
    0 <= r < Size && 0 <= c < Size
  }

  predicate WellFormed(g: Grid) {
    |g| == Size && forall r :: 0 <= r < Size ==> |g[r]| == Size
  }

  /** The record createGrid puts in every cell. */
  const FreshCell: Cell := Cell(true, None, false)

  function EmptyGrid(): (g: Grid)
    ensures WellFormed(g)
  {
    seq(Size, _ => seq(Size, _ => FreshCell))
  }

  /** Every cell is free and names no piece. */
  ghost predicate Vacant(g: Grid) {
    WellFormed(g) && forall r, c :: InGrid(r, c) ==> g[r][c].isEmpty && g[r][c].shapeId == None
  }

  /** The row of the grid a gate sits on. */
  function GateRow(gate: Gate): int {
    if gate.edge == Top then 0 else Size - 1
  }

  /** The grid after placeGate: the gate's cell is marked and left empty. */
  function WithGate(g: Grid, gate: Gate): (g': Grid)
    requires WellFormed(g) && 0 <= gate.position < Size
    ensures WellFormed(g')
  {
    var row := GateRow(gate);
    g[row := g[row][gate.position := g[row][gate.position].(hasGate := true, isEmpty := true)]]
  }

  /** Marking a gate on a vacant grid keeps it vacant, and the gate's cell is
      marked and empty. */
  lemma GateKeepsVacant(g: Grid, gate: Gate)
    requires Vacant(g) && 0 <= gate.position < Size
    ensures Vacant(WithGate(g, gate))
    ensures WithGate(g, gate)[GateRow(gate)][gate.position].hasGate
  {
  }

  /** Piece s covers cell (r, c). */
  predicate Covers(s: Shape, r: int, c: int) {
    IsBlock(s.pattern, r - s.startRow, c - s.startCol)
  }

  /** Every cell piece s covers is on the grid. */
  ghost predicate InBounds(s: Shape) {
    forall r, c :: Covers(s, r, c) ==> InGrid(r, c)
  }

  /** canPlaceShape: every block of p, shifted by the anchor, lies on the
      grid and is empty. */
  ghost predicate CanPlace(g: Grid, p: Pattern, startRow: int, startCol: int)
    requires WellFormed(g)
  {
    forall r, c :: IsBlock(p, r, c) ==>
      InGrid(startRow + r, startCol + c) && g[startRow + r][startCol + c].isEmpty
  }

  function Anchored(s: Shape, anchor: Pos): Shape {
    s.(startRow := anchor.0, startCol := anchor.1)
  }

  /** CanPlace for the anchor of s, read cell by cell over the cells s covers. */
  lemma CanPlaceCovered(g: Grid, s: Shape)
    requires WellFormed(g)
    ensures CanPlace(g, s.pattern, s.startRow, s.startCol) <==>
      forall r, c :: Covers(s, r, c) ==> InGrid(r, c) && g[r][c].isEmpty
  {
    if CanPlace(g, s.pattern, s.startRow, s.startCol) {
      forall r, c | Covers(s, r, c) ensures InGrid(r, c) && g[r][c].isEmpty {
        assert IsBlock(s.pattern, r - s.startRow, c - s.startCol);
      }
    }
    if forall r, c :: Covers(s, r, c) ==> InGrid(r, c) && g[r][c].isEmpty {
      forall r, c | IsBlock(s.pattern, r, c)
        ensures InGrid(s.startRow + r, s.startCol + c) && g[s.startRow + r][s.startCol + c].isEmpty
      {
        assert Covers(s, s.startRow + r, s.startCol + c);
      }
    }
  }

  /** An anchor accepted by canPlaceShape keeps the piece on the grid. */
  lemma CanPlaceInBounds(g: Grid, s: Shape)
    requires WellFormed(g) && CanPlace(g, s.pattern, s.startRow, s.startCol)
    ensures InBounds(s)
  {
    CanPlaceCovered(g, s);
  }

  function Occupied(cell: Cell, id: ShapeId): Cell {
    cell.(isEmpty := false, shapeId := Some(id))
  }

  function Vacated(cell: Cell): Cell {
    cell.(isEmpty := true, shapeId := None)
  }

  /** The grid writes of placeShapeOnGrid: the cells s covers become
      non-empty and name s. */
  function PlaceCells(g: Grid, s: Shape): (g': Grid)
    requires WellFormed(g)
    ensures WellFormed(g')
  {
    seq(Size, r requires 0 <= r < Size =>
      seq(Size, c requires 0 <= c < Size =>
        if Covers(s, r, c) then Occupied(g[r][c], s.id) else g[r][c]))
  }

  /** The grid writes of removeShapeFromGrid: the cells s covers become empty
      and name no piece. */
  function RemoveCells(g: Grid, s: Shape): (g': Grid)
    requires WellFormed(g)
    ensures WellFormed(g')
  {
    seq(Size, r requires 0 <= r < Size =>
      seq(Size, c requires 0 <= c < Size =>
        if Covers(s, r, c) then Vacated(g[r][c]) else g[r][c]))
  }

  /** Two grids that agree on every cell are equal. */
  lemma GridExt(a: Grid, b: Grid)
    requires WellFormed(a) && WellFormed(b)
    requires forall r, c :: InGrid(r, c) ==> a[r][c] == b[r][c]
    ensures a == b
  {
    forall r | 0 <= r < Size ensures a[r] == b[r] {
      assert forall c :: 0 <= c < Size ==> a[r][c] == b[r][c];
    }
  }

  /** g is g0 with every cell at an offset in marked, shifted by s's anchor,
      made non-empty and naming s. */
  ghost predicate MarkedCells(g0: Grid, g: Grid, s: Shape, marked: seq<Offset>)
    requires WellFormed(g0) && WellFormed(g)
  {
    forall r, c :: InGrid(r, c) ==>
      g[r][c] == if (r - s.startRow, c - s.startCol) in marked
                 then Occupied(g0[r][c], s.id) else g0[r][c]
  }

  /** Marking one more on-grid cell extends the marked offsets by its
      offset. */
  lemma MarkOne(g0: Grid, g: Grid, s: Shape, marked: seq<Offset>, b: Offset)
    requires WellFormed(g0) && WellFormed(g) && MarkedCells(g0, g, s, marked)
    requires InGrid(s.startRow + b.0, s.startCol + b.1)
    ensures var r := s.startRow + b.0;
      var c := s.startCol + b.1;
      var g' := g[r := g[r][c := Occupied(g[r][c], s.id)]];
      WellFormed(g') && MarkedCells(g0, g', s, marked + [b])
  {
  }

  /** Marking the cells at every block offset of s's pattern gives the grid
      writes of placeShapeOnGrid. */
  lemma MarkedAllBlocks(g0: Grid, g: Grid, s: Shape)
    requires WellFormed(g0) && WellFormed(g) && MarkedCells(g0, g, s, Blocks(s.pattern))
    ensures g == PlaceCells(g0, s)
  {
    BlocksSpec(s.pattern);
    GridExt(g, PlaceCells(g0, s));
  }

  /** Removing a piece after placing it where every covered cell was free
      restores the grid. */
  lemma PlaceThenRemove(g: Grid, s: Shape)
    requires WellFormed(g)
    requires forall r, c :: InGrid(r, c) && Covers(s, r, c) ==> g[r][c].isEmpty && g[r][c].shapeId == None
    ensures RemoveCells(PlaceCells(g, s), s) == g
  {
    GridExt(RemoveCells(PlaceCells(g, s), s), g);
  }

  /** Placing a piece again right after lifting it restores the grid. */
  lemma RemoveThenPlace(g: Grid, s: Shape)
    requires WellFormed(g)
    requires forall r, c :: InGrid(r, c) && Covers(s, r, c) ==> !g[r][c].isEmpty && g[r][c].shapeId == Some(s.id)
    ensures PlaceCells(RemoveCells(g, s), s) == g
  {
    GridExt(PlaceCells(RemoveCells(g, s), s), g);
  }

  /** The first piece with the given id (shapes.find), by index. */
  function FindShape(shapes: seq<Shape>, id: ShapeId): (k: Option<nat>)
    ensures k.Some? ==>
      k.value < |shapes| && shapes[k.value].id == id
      && forall j :: 0 <= j < k.value ==> shapes[j].id != id
    ensures k.None? ==> forall j :: 0 <= j < |shapes| ==> shapes[j].id != id
  {
    if shapes == [] then None
    else if shapes[0].id == id then Some(0)
    else match FindShape(shapes[1..], id)
      case None => None
      case Some(k) => Some(k + 1)
  }

  /** The board invariant. Pieces whose index is in `lifted` are off the grid
      (picked up by a drag); every other piece is on it. Each cell is empty
      exactly when it names no piece, each piece on the grid has its cells
      naming it, every non-empty cell is covered by a piece on the grid,
      and piece ids are distinct. */
  ghost predicate Consistent(g: Grid, shapes: seq<Shape>, lifted: set<nat>) {
    WellFormed(g)
    && (forall k :: 0 <= k < |shapes| ==> InBounds(shapes[k]))
    && (forall i, j :: 0 <= i < j < |shapes| ==> shapes[i].id != shapes[j].id)
    && (forall k :: k in lifted ==> k < |shapes|)
    && (forall r, c :: InGrid(r, c) ==> (g[r][c].isEmpty <==> g[r][c].shapeId == None))
    && (forall k, r, c :: 0 <= k < |shapes| && k !in lifted && Covers(shapes[k], r, c) ==>
          InGrid(r, c) && g[r][c].shapeId == Some(shapes[k].id))
    && (forall r, c :: InGrid(r, c) && !g[r][c].isEmpty ==>
          exists k :: 0 <= k < |shapes| && k !in lifted && Covers(shapes[k], r, c))
  }

  /** A vacant grid with no pieces is consistent. */
  lemma VacantConsistent(g: Grid)
    requires Vacant(g)
    ensures Consistent(g, [], {})
  {
  }

  /** No overlap: under the invariant no cell is covered by two pieces on the
      grid, and every non-empty cell names the one piece covering it. */
  lemma NoOverlap(g: Grid, shapes: seq<Shape>, lifted: set<nat>, r: int, c: int)
    requires Consistent(g, shapes, lifted) && InGrid(r, c) && !g[r][c].isEmpty
    ensures exists k :: 0 <= k < |shapes| && k !in lifted && Covers(shapes[k], r, c)
    ensures forall k :: 0 <= k < |shapes| && k !in lifted && Covers(shapes[k], r, c) ==>
      g[r][c].shapeId == Some(shapes[k].id) &&
      forall j :: 0 <= j < |shapes| && j != k && j !in lifted ==> !Covers(shapes[j], r, c)
  {
    forall k, j | 0 <= k < |shapes| && k !in lifted && Covers(shapes[k], r, c)
                 && 0 <= j < |shapes| && j != k && j !in lifted
      ensures !Covers(shapes[j], r, c)
    {
      assert j < k ==> shapes[j].id != shapes[k].id;
      assert k < j ==> shapes[k].id != shapes[j].id;
    }
  }

  /** Lifting a piece off the grid keeps the invariant, and the piece could
      be put straight back where it was. */
  lemma RemovePreserves(g: Grid, shapes: seq<Shape>, lifted: set<nat>, k: int)
    requires Consistent(g, shapes, lifted) && 0 <= k < |shapes| && k !in lifted
    ensures Consistent(RemoveCells(g, shapes[k]), shapes, lifted + {k})
    ensures CanPlace(RemoveCells(g, shapes[k]), shapes[k].pattern, shapes[k].startRow, shapes[k].startCol)
  {
    var s := shapes[k];
    var g': Grid := RemoveCells(g, s);
    forall j, r, c | 0 <= j < |shapes| && j !in lifted + {k} && Covers(shapes[j], r, c)
      ensures InGrid(r, c) && g'[r][c].shapeId == Some(shapes[j].id)
    {
      NoOverlap(g, shapes, lifted, r, c);
    }
    forall r, c | InGrid(r, c) && !g'[r][c].isEmpty
      ensures exists j :: 0 <= j < |shapes| && j !in lifted + {k} && Covers(shapes[j], r, c)
    {
      var j :| 0 <= j < |shapes| && j !in lifted && Covers(shapes[j], r, c);
      assert j != k;
    }
    CanPlaceCovered(g', s);
  }

  /** Lifting a piece that is already off the grid, and whose own cells are
      free, changes nothing. */
  lemma RemoveLiftedIsNoop(g: Grid, shapes: seq<Shape>, lifted: set<nat>, k: int)
    requires Consistent(g, shapes, lifted) && 0 <= k < |shapes| && k in lifted
    requires CanPlace(g, shapes[k].pattern, shapes[k].startRow, shapes[k].startCol)
    ensures RemoveCells(g, shapes[k]) == g
  {
    CanPlaceCovered(g, shapes[k]);
    GridExt(RemoveCells(g, shapes[k]), g);
  }

  /** Putting a lifted piece down where canPlaceShape accepts it keeps the
      invariant. */
  lemma PlacePreserves(g: Grid, shapes: seq<Shape>, lifted: set<nat>, k: int)
    requires Consistent(g, shapes, lifted) && 0 <= k < |shapes| && k in lifted
    requires CanPlace(g, shapes[k].pattern, shapes[k].startRow, shapes[k].startCol)
    ensures Consistent(PlaceCells(g, shapes[k]), shapes, lifted - {k})
  {
    var s := shapes[k];
    var g': Grid := PlaceCells(g, s);
    CanPlaceCovered(g, s);
    forall j, r, c | 0 <= j < |shapes| && j !in lifted - {k} && Covers(shapes[j], r, c)
      ensures InGrid(r, c) && g'[r][c].shapeId == Some(shapes[j].id)
    {
      if j != k {
        assert !g[r][c].isEmpty;
      }
    }
    forall r, c | InGrid(r, c) && !g'[r][c].isEmpty
      ensures exists j :: 0 <= j < |shapes| && j !in lifted - {k} && Covers(shapes[j], r, c)
    {
      if !Covers(s, r, c) {
        var j :| 0 <= j < |shapes| && j !in lifted && Covers(shapes[j], r, c);
      }
    }
  }

  /** Moving the anchor of a lifted piece keeps the invariant, as long as the
      new anchor keeps it on the grid. */
  lemma ReanchorLifted(g: Grid, shapes: seq<Shape>, lifted: set<nat>, k: int, anchor: Pos)
    requires Consistent(g, shapes, lifted) && 0 <= k < |shapes| && k in lifted
    requires InBounds(Anchored(shapes[k], anchor))
    ensures Consistent(g, shapes[k := Anchored(shapes[k], anchor)], lifted)
  {
    var shapes' := shapes[k := Anchored(shapes[k], anchor)];
    forall r, c | InGrid(r, c) && !g[r][c].isEmpty
      ensures exists j :: 0 <= j < |shapes'| && j !in lifted && Covers(shapes'[j], r, c)
    {
      var j :| 0 <= j < |shapes| && j !in lifted && Covers(shapes[j], r, c);
      assert shapes'[j] == shapes[j];
    }
  }

  /** A new piece with a fresh id, entered lifted, keeps the invariant. */
  lemma AppendLifted(g: Grid, shapes: seq<Shape>, lifted: set<nat>, s: Shape)
    requires Consistent(g, shapes, lifted) && InBounds(s)
    requires forall k :: 0 <= k < |shapes| ==> shapes[k].id != s.id
    ensures Consistent(g, shapes + [s], lifted + {|shapes|})
  {
    var shapes' := shapes + [s];
    forall r, c | InGrid(r, c) && !g[r][c].isEmpty
      ensures exists j :: 0 <= j < |shapes'| && j !in lifted + {|shapes|} && Covers(shapes'[j], r, c)
    {
      var j :| 0 <= j < |shapes| && j !in lifted && Covers(shapes[j], r, c);
      assert shapes'[j] == shapes[j];
    }
  }

  /** Adding a piece with a fresh id where canPlaceShape accepts it keeps the
      invariant. */
  lemma AddPreserves(g: Grid, shapes: seq<Shape>, lifted: set<nat>, s: Shape)
    requires Consistent(g, shapes, lifted)
    requires CanPlace(g, s.pattern, s.startRow, s.startCol)
    requires forall k :: 0 <= k < |shapes| ==> shapes[k].id != s.id
    ensures Consistent(PlaceCells(g, s), shapes + [s], lifted)
  {
    CanPlaceInBounds(g, s);
    AppendLifted(g, shapes, lifted, s);
    PlacePreserves(g, shapes + [s], lifted + {|shapes|}, |shapes|);
    assert lifted + {|shapes|} - {|shapes|} == lifted;
  }

  /** The anchor a drop settles on: the candidate if canPlaceShape accepts it
      on the board without the dragged piece, otherwise the original one. */
  ghost function DropAnchor(g: Grid, p: Pattern, candidate: Pos, original: Pos): Pos
    requires WellFormed(g)
  {
    if CanPlace(g, p, candidate.0, candidate.1) then candidate else original
  }

  /** The piece after a drop: anchored where DropAnchor settles. */
  ghost function MovedShape(g: Grid, s: Shape, candidate: Pos): Shape
    requires WellFormed(g)
  {
    Anchored(s, DropAnchor(RemoveCells(g, s), s.pattern, candidate, (s.startRow, s.startCol)))
  }

  /** The grid after lifting s and dropping it at the candidate anchor. */
  ghost function AfterMove(g: Grid, s: Shape, candidate: Pos): Grid
    requires WellFormed(g)
  {
    PlaceCells(RemoveCells(g, s), MovedShape(g, s, candidate))
  }

  /** Move commit keeps the board invariant: lifting piece k and dropping it
      at any candidate anchor leaves no cell covered twice and every cell
      naming the piece that covers it. */
  lemma MoveCommit(g: Grid, shapes: seq<Shape>, lifted: set<nat>, k: int, candidate: Pos)
    requires Consistent(g, shapes, lifted) && 0 <= k < |shapes| && k !in lifted
    ensures Consistent(AfterMove(g, shapes[k], candidate), shapes[k := MovedShape(g, shapes[k], candidate)], lifted)
  {
    var s := shapes[k];
    var liftedGrid := RemoveCells(g, s);
    var moved := MovedShape(g, s, candidate);
    RemovePreserves(g, shapes, lifted, k);
    assert CanPlace(liftedGrid, moved.pattern, moved.startRow, moved.startCol);
    CanPlaceInBounds(liftedGrid, moved);
    ReanchorLifted(liftedGrid, shapes, lifted + {k}, k, (moved.startRow, moved.startCol));
    var shapes' := shapes[k := moved];
    assert shapes' == shapes[k := Anchored(s, (moved.startRow, moved.startCol))];
    PlacePreserves(liftedGrid, shapes', lifted + {k}, k);
    assert lifted + {k} - {k} == lifted;
  }

  /** A rejected move leaves the grid exactly as it was before the lift. */
  lemma MoveRejectedRestores(g: Grid, shapes: seq<Shape>, lifted: set<nat>, k: int, candidate: Pos)
    requires Consistent(g, shapes, lifted) && 0 <= k < |shapes| && k !in lifted
    requires !CanPlace(RemoveCells(g, shapes[k]), shapes[k].pattern, candidate.0, candidate.1)
    ensures MovedShape(g, shapes[k], candidate) == shapes[k]
    ensures AfterMove(g, shapes[k], candidate) == g
  {
    RemoveThenPlace(g, shapes[k]);
  }

  /** A move changes no cell outside the moved piece's old and new cells, so
      no other piece's cells change. */
  lemma MoveKeepsOtherCells(g: Grid, shapes: seq<Shape>, lifted: set<nat>, k: int, candidate: Pos)
    requires Consistent(g, shapes, lifted) && 0 <= k < |shapes| && k !in lifted
    ensures forall r, c ::
      InGrid(r, c) && !Covers(shapes[k], r, c) && !Covers(MovedShape(g, shapes[k], candidate), r, c) ==>
        AfterMove(g, shapes[k], candidate)[r][c] == g[r][c]
    ensures forall j, r, c ::
      0 <= j < |shapes| && j != k && j !in lifted && Covers(shapes[j], r, c) ==>
        InGrid(r, c) && AfterMove(g, shapes[k], candidate)[r][c] == g[r][c]
  {
    var moved := MovedShape(g, shapes[k], candidate);
    MoveCommit(g, shapes, lifted, k, candidate);
    forall j, r, c | 0 <= j < |shapes| && j != k && j !in lifted && Covers(shapes[j], r, c)
      ensures InGrid(r, c) && AfterMove(g, shapes[k], candidate)[r][c] == g[r][c]
    {
      NoOverlap(g, shapes, lifted, r, c);
      var shapes' := shapes[k := moved];
      assert shapes'[j] == shapes[j];
      NoOverlap(AfterMove(g, shapes[k], candidate), shapes', lifted, r, c);
    }
  }

  /** The patterns createRandomShapes hands to placeRandomShape: one to eight
      rows, all as long as the first, which has one to eight entries. */
  predicate Fits(p: Pattern) {
    1 <= |p| <= Size && 1 <= |p[0]| <= Size && forall r :: 0 <= r < |p| ==> |p[r]| == |p[0]|
  }

  lemma CatalogueFits(t: ShapeType, j: int)
    requires 0 <= j < |Patterns(t)|
    ensures Fits(Patterns(t)[j])
  {
  }

  /** Math.floor(Math.random() * n) for n >= 1, with the random number given
      as a raw draw. */
  function RandomBelow(draw: nat, n: int): (v: int)
    requires n >= 1
    ensures 0 <= v < n
  {
    draw % n
  }

  /** The anchor placeRandomShape draws: a row in 0..gridSize-rows and a
      column in 0..gridSize-(length of the first row). */
  function RandomAnchor(p: Pattern, draw: (nat, nat)): Pos
    requires Fits(p)
  {
    (RandomBelow(draw.0, Size - |p| + 1), RandomBelow(draw.1, Size - |p[0]| + 1))
  }

  /** A drawn anchor always keeps the pattern on the grid. */
  lemma RandomAnchorInBounds(p: Pattern, draw: (nat, nat), id: ShapeId)
    requires Fits(p)
    ensures var a := RandomAnchor(p, draw);
      0 <= a.0 <= Size - |p| && 0 <= a.1 <= Size - |p[0]|
      && InBounds(Shape(id, p, OrientationOf(p), a.0, a.1))
  {
  }

  /** The attempt at `draw` succeeds. */
  ghost predicate Fit(g: Grid, p: Pattern, draw: (nat, nat))
    requires WellFormed(g) && Fits(p)
  {
    var a := RandomAnchor(p, draw);
    CanPlace(g, p, a.0, a.1)
  }

  /** The first attempt, from attempt `from` on and below the attempt limit,
      whose drawn anchor canPlaceShape accepts; None when every one fails. */
  ghost function FirstFit(g: Grid, p: Pattern, draws: seq<(nat, nat)>, from: nat): (k: Option<nat>)
    requires WellFormed(g) && Fits(p) && from <= MaxAttempts <= |draws|
    ensures k.Some? ==> from <= k.value < MaxAttempts
    decreases MaxAttempts - from
  {
    if from == MaxAttempts then None
    else if Fit(g, p, draws[from]) then Some(from)
    else FirstFit(g, p, draws, from + 1)
  }

  /** The attempt FirstFit picks is accepted and every earlier one is
      refused; when it picks none, every attempt up to the limit is refused. */
  lemma {:induction false} FirstFitIsFirst(g: Grid, p: Pattern, draws: seq<(nat, nat)>, from: nat)
    requires WellFormed(g) && Fits(p) && from <= MaxAttempts <= |draws|
    ensures var k := FirstFit(g, p, draws, from);
      (k.Some? ==> Fit(g, p, draws[k.value]) && forall j :: from <= j < k.value ==> !Fit(g, p, draws[j]))
      && (k.None? ==> forall j :: from <= j < MaxAttempts ==> !Fit(g, p, draws[j]))
    decreases MaxAttempts - from
  {
    if from < MaxAttempts && !Fit(g, p, draws[from]) {
      FirstFitIsFirst(g, p, draws, from + 1);
      var k := FirstFit(g, p, draws, from + 1);
      assert FirstFit(g, p, draws, from) == k;
      var hi := if k.Some? then k.value else MaxAttempts;
      forall j | from <= j < hi
        ensures !Fit(g, p, draws[j])
      {
        if j == from {
        } else {
          assert from + 1 <= j < hi;
        }
      }
    }
  }
}
