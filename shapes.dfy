/** Bar patterns of the puzzle: the shape catalogue and the row-major
    enumeration of a pattern's blocks (the cells holding a 1). */
module Shapes {

  /** A pattern as the game writes it: rows of 0/1 entries. An entry equal
      to 1 is a block; any other entry is skipped. Rows may differ in length. */
  type Pattern = seq<seq<int>>

  /** A (row, column) offset inside a pattern. */
  type Offset = (int, int)

  datatype Orientation = Horizontal | Vertical

  /** The keys of the shape catalogue, in declaration order. */
  datatype ShapeType = Long2 | Long3 | Long4

  function ShapeTypes(): seq<ShapeType> {
    [Long2, Long3, Long4]
  }

  /** The two patterns of each catalogue entry: one row, then one column. */
  function Patterns(t: ShapeType): seq<Pattern> {
    match t
    case Long2 => [[[1, 1]], [[1], [1]]]
    case Long3 => [[[1, 1, 1]], [[1], [1], [1]]]
    case Long4 => [[[1, 1, 1, 1]], [[1], [1], [1], [1]]]
  }

  /** defineAllShapes: the patterns of each catalogue entry, in the order
      of the catalogue's keys. */
  function DefineAllShapes(): seq<seq<Pattern>> {
    [Patterns(Long2), Patterns(Long3), Patterns(Long4)]
  }

  /** The number of blocks the name of a catalogue entry promises. */
  function BarLength(t: ShapeType): nat {
    match t
    case Long2 => 2
    case Long3 => 3
    case Long4 => 4
  }

  predicate InCatalogue(p: Pattern) {
    exists t: ShapeType :: p in Patterns(t)
  }

  /** The orientation a new piece gets: horizontal iff its pattern has one row. */
  function OrientationOf(p: Pattern): Orientation {
    if |p| == 1 then Horizontal else Vertical
  }

  predicate IsBlock(p: Pattern, r: int, c: int) {
    0 <= r < |p| && 0 <= c < |p[r]| && p[r][c] == 1
  }

  /** Blocks of row r from column c on, left to right. */
  function RowBlocks(p: Pattern, r: nat, c: nat): seq<Offset>
    requires r < |p| && c <= |p[r]|
    decreases |p[r]| - c
  {
    if c == |p[r]| then []
    else (if p[r][c] == 1 then [(r, c)] else []) + RowBlocks(p, r, c + 1)
  }

  /** Blocks of rows r.. in row-major order. */
  function BlocksFrom(p: Pattern, r: nat): seq<Offset>
    requires r <= |p|
    decreases |p| - r
  {
    if r == |p| then [] else RowBlocks(p, r, 0) + BlocksFrom(p, r + 1)
  }

  /** All blocks of a pattern in row-major order: the order in which the
      game's nested loops meet them. */
  function Blocks(p: Pattern): seq<Offset> {
    BlocksFrom(p, 0)
  }

  /** The offset of the i-th block, with (0, 0) as the fallback when there
      is no i-th block. */
  function BlockOffset(p: Pattern, i: int): Offset {
    if 0 <= i < |Blocks(p)| then Blocks(p)[i] else (0, 0)
  }

  predicate RowMajorBefore(a: Offset, b: Offset) {
    a.0 < b.0 || (a.0 == b.0 && a.1 < b.1)
  }

  predicate Sorted(s: seq<Offset>) {
    forall i, j :: 0 <= i < j < |s| ==> RowMajorBefore(s[i], s[j])
  }

  /** The straight bar of n blocks starting at offset (0, 0). */
  function Bar(n: nat, o: Orientation): seq<Offset> {
    if o == Horizontal then seq(n, i => (0, i)) else seq(n, i => (i, 0))
  }

  lemma {:induction false} RowBlocksSpec(p: Pattern, r: nat, c: nat)
    requires r < |p| && c <= |p[r]|
    ensures forall x :: x in RowBlocks(p, r, c) <==> x.0 == r && c <= x.1 && IsBlock(p, x.0, x.1)
    ensures Sorted(RowBlocks(p, r, c))
    decreases |p[r]| - c
  {
    if c < |p[r]| {
      RowBlocksSpec(p, r, c + 1);
      var head: seq<Offset> := if p[r][c] == 1 then [(r, c)] else [];
      var rest := RowBlocks(p, r, c + 1);
      assert RowBlocks(p, r, c) == head + rest;
      forall i, j | 0 <= i < j < |head + rest|
        ensures RowMajorBefore((head + rest)[i], (head + rest)[j])
      {
        if i >= |head| {
          assert (head + rest)[i] == rest[i - |head|];
          assert (head + rest)[j] == rest[j - |head|];
        } else {
          assert (head + rest)[j] == rest[j - |head|];
          assert rest[j - |head|] in rest;
        }
      }
    }
  }

  lemma {:induction false} BlocksFromSpec(p: Pattern, r: nat)
    requires r <= |p|
    ensures forall x :: x in BlocksFrom(p, r) <==> r <= x.0 && IsBlock(p, x.0, x.1)
    ensures Sorted(BlocksFrom(p, r))
    decreases |p| - r
  {
    if r < |p| {
      RowBlocksSpec(p, r, 0);
      BlocksFromSpec(p, r + 1);
      var head := RowBlocks(p, r, 0);
      var rest := BlocksFrom(p, r + 1);
      assert BlocksFrom(p, r) == head + rest;
      forall i, j | 0 <= i < j < |head + rest|
        ensures RowMajorBefore((head + rest)[i], (head + rest)[j])
      {
        if i >= |head| {
          assert (head + rest)[i] == rest[i - |head|];
          assert (head + rest)[j] == rest[j - |head|];
        } else if j < |head| {
          assert (head + rest)[i] == head[i];
          assert (head + rest)[j] == head[j];
        } else {
          assert head[i] in head;
          assert (head + rest)[j] == rest[j - |head|];
          assert rest[j - |head|] in rest;
        }
      }
    }
  }

  /** Blocks(p) lists exactly the blocks of p, strictly increasing in
      row-major order. */
  lemma BlocksSpec(p: Pattern)
    ensures forall x :: x in Blocks(p) <==> IsBlock(p, x.0, x.1)
    ensures Sorted(Blocks(p))
  {
    BlocksFromSpec(p, 0);
  }

  /** In a sorted sequence the head precedes every other element. */
  lemma HeadIsLeast(s: seq<Offset>, x: Offset)
    requires Sorted(s) && x in s
    ensures x == s[0] || RowMajorBefore(s[0], x)
  {
    var i :| 0 <= i < |s| && s[i] == x;
  }

  /** Two strictly row-major sorted sequences with the same elements are equal. */
  lemma {:induction false} SortedUnique(a: seq<Offset>, b: seq<Offset>)
    requires Sorted(a) && Sorted(b)
    requires forall x :: x in a <==> x in b
    ensures a == b
    decreases |a|
  {
    if a != [] {
      assert a[0] in a;
    }
    if b != [] {
      assert b[0] in b;
    }
    if a != [] && b != [] {
      HeadIsLeast(a, b[0]);
      HeadIsLeast(b, a[0]);
      assert a[0] == b[0];
      forall x ensures x in a[1..] <==> x in b[1..] {
        if x in a[1..] {
          var i :| 1 <= i < |a| && a[i] == x;
          assert RowMajorBefore(a[0], x);
          HeadIsLeast(b, x);
        }
        if x in b[1..] {
          var j :| 1 <= j < |b| && b[j] == x;
          assert RowMajorBefore(b[0], x);
          HeadIsLeast(a, x);
        }
      }
      SortedUnique(a[1..], b[1..]);
      assert a == [a[0]] + a[1..];
      assert b == [b[0]] + b[1..];
    }
  }

  /** The row-major enumeration is the only one: any strictly sorted listing
      of exactly the blocks of p is Blocks(p), so BlockOffset(p, i) is the
      i-th block in row-major order. */
  lemma BlocksIsRowMajorListing(p: Pattern, s: seq<Offset>)
    requires Sorted(s)
    requires forall x :: x in s <==> IsBlock(p, x.0, x.1)
    ensures s == Blocks(p)
  {
    BlocksSpec(p);
    SortedUnique(s, Blocks(p));
  }

  /** The first block offset is a block and precedes, in row-major order,
      every other block. */
  lemma FirstBlockIsLeast(p: Pattern, r: int, c: int)
    requires IsBlock(p, r, c)
    ensures IsBlock(p, BlockOffset(p, 0).0, BlockOffset(p, 0).1)
    ensures BlockOffset(p, 0) == (r, c) || RowMajorBefore(BlockOffset(p, 0), (r, c))
  {
    BlocksSpec(p);
    var bs := Blocks(p);
    assert (r, c) in bs;
    var j :| 0 <= j < |bs| && bs[j] == (r, c);
    assert bs[0] in bs;
  }

  lemma {:induction false} RowOfOnesBlocks(p: Pattern, r: nat, c: nat)
    requires r < |p| && c <= |p[r]|
    requires forall k :: 0 <= k < |p[r]| ==> p[r][k] == 1
    ensures RowBlocks(p, r, c) == seq(|p[r]| - c, i => (r, c + i))
    decreases |p[r]| - c
  {
    if c < |p[r]| {
      RowOfOnesBlocks(p, r, c + 1);
      var row := seq(|p[r]| - c, i => (r, c + i));
      assert row == [(r, c)] + seq(|p[r]| - (c + 1), i => (r, c + 1 + i));
      assert RowBlocks(p, r, c) == [(r, c)] + RowBlocks(p, r, c + 1);
    }
  }

  /** A one-cell row holding a 1 lists that one block. */
  lemma SingleBlockRow(p: Pattern, r: nat)
    requires r < |p| && p[r] == [1]
    ensures RowBlocks(p, r, 0) == [(r, 0)]
  {
    assert RowBlocks(p, r, 1) == [];
  }

  lemma {:induction false} ColumnOfOnesBlocks(p: Pattern, r: nat)
    requires r <= |p|
    requires forall k :: 0 <= k < |p| ==> p[k] == [1]
    ensures BlocksFrom(p, r) == seq(|p| - r, i => (r + i, 0))
    decreases |p| - r
  {
    if r < |p| {
      ColumnOfOnesBlocks(p, r + 1);
      SingleBlockRow(p, r);
      var column := seq(|p| - r, i => (r + i, 0));
      assert column == [(r, 0)] + seq(|p| - (r + 1), i => (r + 1 + i, 0));
    }
  }

  /** Every catalogue pattern is a straight bar of its entry's length (2 to
      4): the one-row pattern is labelled horizontal and its blocks run along
      row 0, the other is labelled vertical and its blocks run down column 0. */
  lemma CatalogueIsBars(t: ShapeType, j: int)
    requires 0 <= j < |Patterns(t)|
    ensures |Patterns(t)| == 2
    ensures 2 <= BarLength(t) <= 4
    ensures OrientationOf(Patterns(t)[j]) == (if j == 0 then Horizontal else Vertical)
    ensures Blocks(Patterns(t)[j]) == Bar(BarLength(t), OrientationOf(Patterns(t)[j]))
  {
    var p := Patterns(t)[j];
    var n := BarLength(t);
    if j == 0 {
      assert |p| == 1 && |p[0]| == n;
      RowOfOnesBlocks(p, 0, 0);
      assert BlocksFrom(p, 1) == [];
      assert Blocks(p) == RowBlocks(p, 0, 0);
    } else {
      assert |p| == n && forall k :: 0 <= k < |p| ==> p[k] == [1];
      ColumnOfOnesBlocks(p, 0);
    }
  }

  lemma AppendAssoc(a: seq<Offset>, b: seq<Offset>, c: seq<Offset>)
    ensures a + (b + c) == a + b + c
  {
  }

  /** Row-major scan, the start of row r: its blocks come before those of
      the rows after it. */
  lemma ScanRowStart(p: Pattern, r: nat, seen: seq<Offset>)
    requires r < |p| && seen + BlocksFrom(p, r) == Blocks(p)
    ensures seen + RowBlocks(p, r, 0) + BlocksFrom(p, r + 1) == Blocks(p)
  {
    assert BlocksFrom(p, r) == RowBlocks(p, r, 0) + BlocksFrom(p, r + 1);
    AppendAssoc(seen, RowBlocks(p, r, 0), BlocksFrom(p, r + 1));
  }

  /** Row-major scan, a 1-cell at (r, c): it is the next block in the
      listing, at index |seen|. */
  lemma ScanBlock(p: Pattern, r: nat, c: nat, seen: seq<Offset>)
    requires r < |p| && c < |p[r]| && p[r][c] == 1
    requires seen + RowBlocks(p, r, c) + BlocksFrom(p, r + 1) == Blocks(p)
    ensures (seen + [(r, c)]) + RowBlocks(p, r, c + 1) + BlocksFrom(p, r + 1) == Blocks(p)
    ensures |seen| < |Blocks(p)| && Blocks(p)[|seen|] == (r, c)
  {
    var rest := RowBlocks(p, r, c + 1);
    assert RowBlocks(p, r, c) == [(r, c)] + rest;
    AppendAssoc(seen, [(r, c)], rest);
    var front := seen + [(r, c)];
    assert front[|seen|] == (r, c);
    assert (front + rest + BlocksFrom(p, r + 1))[|seen|] == (r, c);
  }

  /** Row-major scan, a 0-cell at (r, c): the listing still to come is the
      same. */
  lemma ScanGap(p: Pattern, r: nat, c: nat)
    requires r < |p| && c < |p[r]| && p[r][c] != 1
    ensures RowBlocks(p, r, c) == RowBlocks(p, r, c + 1)
  {
  }

  /** Row-major scan, the end of row r. */
  lemma ScanRowEnd(p: Pattern, r: nat, seen: seq<Offset>)
    requires r < |p| && seen + RowBlocks(p, r, |p[r]|) + BlocksFrom(p, r + 1) == Blocks(p)
    ensures seen + BlocksFrom(p, r + 1) == Blocks(p)
  {
    assert RowBlocks(p, r, |p[r]|) == [];
    assert seen + [] == seen;
  }

  /** getFirstBlockPatternOffset: the first block in row-major order, or
      (0, 0) when the pattern has none. */
  method GetFirstBlockPatternOffset(pattern: Pattern) returns (offset: Offset)
    ensures offset == BlockOffset(pattern, 0)
  {
    for r := 0 to |pattern|
      invariant Blocks(pattern) == BlocksFrom(pattern, r)
    {
      for c := 0 to |pattern[r]|
        invariant Blocks(pattern) == RowBlocks(pattern, r, c) + BlocksFrom(pattern, r + 1)
      {
        if pattern[r][c] == 1 {
          return (r, c);
        }
        assert RowBlocks(pattern, r, c) == RowBlocks(pattern, r, c + 1);
      }
      assert RowBlocks(pattern, r, |pattern[r]|) == [];
    }
    return (0, 0);
  }

  /** getBlockPatternOffset: the elementIndex-th block in row-major order,
      or (0, 0) when there is no such block. */
  method GetBlockPatternOffset(pattern: Pattern, elementIndex: int) returns (offset: Offset)
    ensures offset == BlockOffset(pattern, elementIndex)
  {
    var currentIndex := 0;
    ghost var seen: seq<Offset> := [];
    for r := 0 to |pattern|
      invariant seen + BlocksFrom(pattern, r) == Blocks(pattern)
      invariant currentIndex == |seen|
      invariant !(0 <= elementIndex < currentIndex)
    {
      ScanRowStart(pattern, r, seen);
      for c := 0 to |pattern[r]|
        invariant seen + RowBlocks(pattern, r, c) + BlocksFrom(pattern, r + 1) == Blocks(pattern)
        invariant currentIndex == |seen|
        invariant !(0 <= elementIndex < currentIndex)
      {
        if pattern[r][c] == 1 {
          ScanBlock(pattern, r, c, seen);
          if currentIndex == elementIndex {
            return (r, c);
          }
          currentIndex := currentIndex + 1;
          seen := seen + [(r, c)];
        } else {
          ScanGap(pattern, r, c);
        }
      }
      ScanRowEnd(pattern, r, seen);
    }
    assert seen + [] == seen;
    return (0, 0);
  }

  /** The collection of a shape's blocks that placeShapeOnGrid makes before
      writing the grid. */
  method CollectBlocks(pattern: Pattern) returns (blocks: seq<Offset>)
    ensures blocks == Blocks(pattern)
  {
    blocks := [];
    for r := 0 to |pattern|
      invariant blocks + BlocksFrom(pattern, r) == Blocks(pattern)
    {
      ScanRowStart(pattern, r, blocks);
      for c := 0 to |pattern[r]|
        invariant blocks + RowBlocks(pattern, r, c) + BlocksFrom(pattern, r + 1) == Blocks(pattern)
      {
        if pattern[r][c] == 1 {
          ScanBlock(pattern, r, c, blocks);
          blocks := blocks + [(r, c)];
        } else {
          ScanGap(pattern, r, c);
        }
      }
      ScanRowEnd(pattern, r, blocks);
    }
    assert blocks + [] == blocks;
  }
}
