/** Building a board as a function of the random draws: the gates, the
    pattern drawn for each piece and the anchor its placement attempts find.
    This is what createGates, createRandomShapes and placeRandomShape do,
    stated without the object that holds the result. */
module Builder {
  import opened Shapes
  import opened Board
  import opened Paths

  /** The random numbers one board build consumes, as raw draws: the two
      gate columns, per piece its catalogue entry and pattern, and per piece
      the (row, column) draws of its placement attempts. */
  datatype Draws = Draws(
    startGate: nat, endGate: nat,
    shapeTypes: seq<nat>, patterns: seq<nat>, anchors: seq<seq<(nat, nat)>>)

  predicate EnoughDraws(d: Draws) {
    |d.shapeTypes| >= NumShapes && |d.patterns| >= NumShapes && |d.anchors| >= NumShapes
    && forall i :: 0 <= i < NumShapes ==> |d.anchors[i]| >= MaxAttempts
  }

  /** Every gate sits in a column of the grid, as createGates makes them. */
  predicate GatesOnGrid(gates: seq<Gate>) {
    forall i :: 0 <= i < |gates| ==> 0 <= gates[i].position < Size
  }

  /** The two gates createGates makes from its draws. */
  function DrawnGates(d: Draws): seq<Gate> {
    [Gate(Top, RandomBelow(d.startGate, Size), Start), Gate(Bottom, RandomBelow(d.endGate, Size), End)]
  }

  /** A catalogue createRandomShapes can draw from: at least one entry,
      each with at least one pattern, and every pattern one of the game's
      bars, fitting the grid. */
  predicate Drawable(defs: seq<seq<Pattern>>) {
    |defs| >= 1
    && forall k :: 0 <= k < |defs| ==>
         |defs[k]| >= 1 && forall j :: 0 <= j < |defs[k]| ==> InCatalogue(defs[k][j]) && Fits(defs[k][j])
  }

  /** The catalogue defineAllShapes returns can be drawn from. */
  lemma DefineAllShapesDrawable()
    ensures Drawable(DefineAllShapes())
  {
    forall k, j | 0 <= k < |DefineAllShapes()| && 0 <= j < |DefineAllShapes()[k]|
      ensures InCatalogue(DefineAllShapes()[k][j]) && Fits(DefineAllShapes()[k][j])
    {
      var t := ShapeTypes()[k];
      assert DefineAllShapes()[k] == Patterns(t);
      CatalogueFits(t, j);
      assert Patterns(t)[j] in Patterns(t);
    }
  }

  /** The pattern createRandomShapes draws for piece i from the catalogue
      defs: an entry by its position among the keys, then one of its
      patterns. */
  function DrawnPattern(d: Draws, defs: seq<seq<Pattern>>, i: nat): (p: Pattern)
    requires Drawable(defs) && i < |d.shapeTypes| && i < |d.patterns|
    ensures InCatalogue(p) && Fits(p)
  {
    var entry := defs[RandomBelow(d.shapeTypes[i], |defs|)];
    entry[RandomBelow(d.patterns[i], |entry|)]
  }

  /** The grid createGrid and createGates leave: 8x8 fresh cells with the
      two drawn gates marked. */
  function GatedGrid(d: Draws): (g: Grid)
    ensures WellFormed(g)
  {
    var gates := DrawnGates(d);
    WithGate(WithGate(EmptyGrid(), gates[0]), gates[1])
  }

  /** placeRandomShape as a function of the board: the piece gets the
      anchor of the first attempt canPlaceShape accepts and is pushed and
      placed, or the board is left as it is when all 100 attempts fail. */
  ghost function PlaceDrawn(g: Grid, shapes: seq<Shape>, p: Pattern, id: ShapeId, draws: seq<(nat, nat)>): (r: (Grid, seq<Shape>))
    requires WellFormed(g) && Fits(p) && |draws| >= MaxAttempts
    ensures WellFormed(r.0)
  {
    match FirstFit(g, p, draws, 0)
    case None => (g, shapes)
    case Some(k) =>
      var a := RandomAnchor(p, draws[k]);
      var s := Shape(id, p, OrientationOf(p), a.0, a.1);
      (PlaceCells(g, s), shapes + [s])
  }

  /** The board createRandomShapes builds from piece i on: piece i is
      placed from its drawn pattern and attempts, then the pieces after it
      follow. */
  ghost function BuildFrom(g: Grid, shapes: seq<Shape>, d: Draws, defs: seq<seq<Pattern>>, i: nat): (r: (Grid, seq<Shape>))
    requires WellFormed(g) && EnoughDraws(d) && Drawable(defs) && i <= NumShapes
    ensures WellFormed(r.0)
    decreases NumShapes - i
  {
    if i == NumShapes then (g, shapes)
    else
      var next := PlaceDrawn(g, shapes, DrawnPattern(d, defs, i), i, d.anchors[i]);
      BuildFrom(next.0, next.1, d, defs, i + 1)
  }

  /** One step of the build: piece i is placed, then the rest follow. */
  lemma BuildFromStep(g: Grid, shapes: seq<Shape>, d: Draws, defs: seq<seq<Pattern>>, i: nat)
    requires WellFormed(g) && EnoughDraws(d) && Drawable(defs) && i < NumShapes
    ensures var next := PlaceDrawn(g, shapes, DrawnPattern(d, defs, i), i, d.anchors[i]);
      BuildFrom(g, shapes, d, defs, i) == BuildFrom(next.0, next.1, d, defs, i + 1)
  {
  }

  /** The grid and the pieces of the board the draws build from the
      catalogue defs. */
  ghost function Build(d: Draws, defs: seq<seq<Pattern>>): (Grid, seq<Shape>)
    requires EnoughDraws(d) && Drawable(defs)
  {
    BuildFrom(GatedGrid(d), [], d, defs, 0)
  }

  /** Building only appends pieces. */
  lemma {:induction false} BuildKeepsPrefix(g: Grid, shapes: seq<Shape>, d: Draws, defs: seq<seq<Pattern>>, i: nat)
    requires WellFormed(g) && EnoughDraws(d) && Drawable(defs) && i <= NumShapes
    ensures shapes <= BuildFrom(g, shapes, d, defs, i).1
    decreases NumShapes - i
  {
    if i < NumShapes {
      var next := PlaceDrawn(g, shapes, DrawnPattern(d, defs, i), i, d.anchors[i]);
      assert shapes <= next.1;
      BuildKeepsPrefix(next.0, next.1, d, defs, i + 1);
    }
  }

  /** placeRandomShape pushes at most one piece: nothing when every attempt
      fails, otherwise the piece at an attempt's anchor that canPlaceShape
      accepts, placed on the grid. */
  lemma PlaceDrawnPushesAtMostOne(g: Grid, shapes: seq<Shape>, p: Pattern, id: ShapeId, draws: seq<(nat, nat)>)
    requires WellFormed(g) && Fits(p) && |draws| >= MaxAttempts
    ensures var r := PlaceDrawn(g, shapes, p, id, draws);
      (r.1 == shapes <==> forall k :: 0 <= k < MaxAttempts ==> !Fit(g, p, draws[k]))
      && (r.1 == shapes ==> r.0 == g)
      && (r.1 != shapes ==>
            exists k :: 0 <= k < MaxAttempts && Fit(g, p, draws[k])
              && var a := RandomAnchor(p, draws[k]);
                 var s := Shape(id, p, OrientationOf(p), a.0, a.1);
                 r.1 == shapes + [s] && r.0 == PlaceCells(g, s))
  {
    FirstFitIsFirst(g, p, draws, 0);
    match FirstFit(g, p, draws, 0)
    case None =>
    case Some(k) =>
      var r := PlaceDrawn(g, shapes, p, id, draws);
      assert |r.1| == |shapes| + 1;
  }

  /** Pieces numbered below `bound`: at most `bound` of them, each a
      catalogue pattern with the orientation it gives, ids increasing. */
  ghost predicate WellNumbered(shapes: seq<Shape>, bound: nat)
  {
    |shapes| <= bound
    && (forall k :: 0 <= k < |shapes| ==>
          InCatalogue(shapes[k].pattern) && shapes[k].id < bound
          && shapes[k].orientation == OrientationOf(shapes[k].pattern))
    && (forall a, b :: 0 <= a < b < |shapes| ==> shapes[a].id < shapes[b].id)
  }

  /** One placeRandomShape call with the next id keeps the pieces well
      numbered. */
  lemma PlaceDrawnNumbered(g: Grid, shapes: seq<Shape>, p: Pattern, id: ShapeId, draws: seq<(nat, nat)>)
    requires WellFormed(g) && Fits(p) && InCatalogue(p) && |draws| >= MaxAttempts
    requires WellNumbered(shapes, id)
    ensures WellNumbered(PlaceDrawn(g, shapes, p, id, draws).1, id + 1)
  {
    match FirstFit(g, p, draws, 0)
    case None =>
    case Some(k) =>
      var r := PlaceDrawn(g, shapes, p, id, draws).1;
      assert r == shapes + [r[|shapes|]] && r[|shapes|].id == id;
  }

  /** The pieces of a build stay well numbered up to numShapes. */
  lemma {:induction false} BuildFromPieces(g: Grid, shapes: seq<Shape>, d: Draws, defs: seq<seq<Pattern>>, i: nat)
    requires WellFormed(g) && EnoughDraws(d) && Drawable(defs) && i <= NumShapes
    requires WellNumbered(shapes, i)
    ensures WellNumbered(BuildFrom(g, shapes, d, defs, i).1, NumShapes)
    decreases NumShapes - i
  {
    if i < NumShapes {
      var next := PlaceDrawn(g, shapes, DrawnPattern(d, defs, i), i, d.anchors[i]);
      PlaceDrawnNumbered(g, shapes, DrawnPattern(d, defs, i), i, d.anchors[i]);
      BuildFromPieces(next.0, next.1, d, defs, i + 1);
    }
  }

  /** The pieces of a freshly built board: at most numShapes catalogue
      pieces with increasing ids below numShapes, horizontal iff one row. */
  lemma BuildPieces(d: Draws, defs: seq<seq<Pattern>>)
    requires EnoughDraws(d) && Drawable(defs)
    ensures WellNumbered(Build(d, defs).1, NumShapes)
  {
    BuildFromPieces(GatedGrid(d), [], d, defs, 0);
  }

  /** On a grid with every cell free, the first attempt of a piece that fits
      the grid always succeeds. */
  lemma VacantFirstFit(g: Grid, p: Pattern, draws: seq<(nat, nat)>)
    requires Vacant(g) && Fits(p) && |draws| >= MaxAttempts
    ensures FirstFit(g, p, draws, 0) == Some(0)
  {
    var a := RandomAnchor(p, draws[0]);
    RandomAnchorInBounds(p, draws[0], 0);
    var s := Shape(0, p, OrientationOf(p), a.0, a.1);
    forall r, c | IsBlock(p, r, c) ensures InGrid(a.0 + r, a.1 + c) && g[a.0 + r][a.1 + c].isEmpty {
      assert Covers(s, a.0 + r, a.1 + c);
    }
  }

  /** Piece shape_0 is always on a freshly built board, at the anchor of its
      first attempt: the board is still empty when it is placed. */
  lemma FirstPieceAlwaysPlaced(d: Draws, defs: seq<seq<Pattern>>)
    requires EnoughDraws(d) && Drawable(defs)
    ensures var built := Build(d, defs).1;
      var p := DrawnPattern(d, defs, 0);
      var a := RandomAnchor(p, d.anchors[0][0]);
      |built| >= 1 && built[0] == Shape(0, p, OrientationOf(p), a.0, a.1)
  {
    var gates := DrawnGates(d);
    assert Vacant(EmptyGrid());
    GateKeepsVacant(EmptyGrid(), gates[0]);
    GateKeepsVacant(WithGate(EmptyGrid(), gates[0]), gates[1]);
    var g := GatedGrid(d);
    var p := DrawnPattern(d, defs, 0);
    VacantFirstFit(g, p, d.anchors[0]);
    var a := RandomAnchor(p, d.anchors[0][0]);
    var first := Shape(0, p, OrientationOf(p), a.0, a.1);
    var next := PlaceDrawn(g, [], p, 0, d.anchors[0]);
    assert next.1 == [first];
    BuildFromStep(g, [], d, defs, 0);
    BuildKeepsPrefix(next.0, next.1, d, defs, 1);
    assert [first] <= Build(d, defs).1;
  }

  /** The board createGates, createRandomShapes and checkPathConnection
      leave: the drawn gates, the grid and the pieces the build gives, and
      whether the gates are connected on that grid. */
  ghost predicate BuiltBoard(d: Draws, defs: seq<seq<Pattern>>, grid: Grid, shapes: seq<Shape>, gates: seq<Gate>, pathConnected: bool) {
    EnoughDraws(d) && Drawable(defs) && gates == DrawnGates(d)
    && (grid, shapes) == Build(d, defs)
    && pathConnected == Connected(grid, gates)
  }

}
