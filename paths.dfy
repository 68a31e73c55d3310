/** Connectivity between the gates: 4-neighbour walks over empty cells, and
    the facts the breadth-first search of the game relies on. */
module Paths {
  import opened Board

  /** The four neighbour steps, in the order the search tries them. */
  const Dirs: seq<Pos> := [(0, 1), (0, -1), (1, 0), (-1, 0)]

  function Step(p: Pos, d: int): Pos
    requires 0 <= d < |Dirs|
  {
    (p.0 + Dirs[d].0, p.1 + Dirs[d].1)
  }

  /** a and b are 4-neighbours. */
  predicate Adjacent(a: Pos, b: Pos) {
    (a.0 == b.0 && (a.1 == b.1 + 1 || a.1 + 1 == b.1))
    || (a.1 == b.1 && (a.0 == b.0 + 1 || a.0 + 1 == b.0))
  }

  /** The test the search makes on a neighbour: it is on the grid and empty. */
  predicate Open(g: Grid, p: Pos)
    requires WellFormed(g)
  {
    InGrid(p.0, p.1) && g[p.0][p.1].isEmpty
  }

  /** A walk: consecutive positions are neighbours, and every position but
      the first is an open cell. The first position is exempt, as the search
      enqueues its start without looking at it. */
  predicate IsWalk(g: Grid, w: seq<Pos>)
    requires WellFormed(g)
  {
    |w| >= 1 && forall i :: 0 < i < |w| ==> Adjacent(w[i - 1], w[i]) && Open(g, w[i])
  }

  ghost predicate Reachable(g: Grid, source: Pos, target: Pos)
    requires WellFormed(g)
  {
    exists w :: IsWalk(g, w) && w[0] == source && w[|w| - 1] == target
  }

  /** Every open neighbour of a member is a member. */
  ghost predicate Closed(g: Grid, s: set<Pos>)
    requires WellFormed(g)
  {
    forall v, w :: v in s && Adjacent(v, w) && Open(g, w) ==> w in s
  }

  /** Every member of visited is the end of a recorded walk from source. */
  ghost predicate Witnessed(g: Grid, source: Pos, visited: set<Pos>, walks: map<Pos, seq<Pos>>)
    requires WellFormed(g)
  {
    forall v :: v in visited ==>
      v in walks && IsWalk(g, walks[v]) && walks[v][0] == source && walks[v][|walks[v]| - 1] == v
  }

  /** Every open neighbour of a visited position that has left the queue is
      visited. */
  ghost predicate ClosedOutside(g: Grid, visited: set<Pos>, queue: seq<Pos>)
    requires WellFormed(g)
  {
    forall v, w :: v in visited && v !in queue && Adjacent(v, w) && Open(g, w) ==> w in visited
  }

  /** The steps reach exactly the 4-neighbours. */
  lemma StepsAreNeighbours(p: Pos, q: Pos)
    ensures forall d :: 0 <= d < |Dirs| ==> Adjacent(p, Step(p, d))
    ensures Adjacent(p, q) ==> exists d :: 0 <= d < |Dirs| && q == Step(p, d)
  {
    if Adjacent(p, q) {
      if q.0 == p.0 && q.1 == p.1 + 1 {
        assert q == Step(p, 0);
      } else if q.0 == p.0 && q.1 == p.1 - 1 {
        assert q == Step(p, 1);
      } else if q.0 == p.0 + 1 {
        assert q == Step(p, 2);
      } else {
        assert q == Step(p, 3);
      }
    }
  }

  /** A set that holds the source and is closed under open neighbours holds
      the end of every walk from the source. */
  lemma {:induction false} ClosedHoldsWalkEnd(g: Grid, s: set<Pos>, w: seq<Pos>)
    requires WellFormed(g) && Closed(g, s)
    requires IsWalk(g, w) && w[0] in s
    ensures w[|w| - 1] in s
    decreases |w|
  {
    if |w| > 1 {
      var prefix := w[..|w| - 1];
      assert IsWalk(g, prefix) by {
        forall i | 0 < i < |prefix| ensures Adjacent(prefix[i - 1], prefix[i]) && Open(g, prefix[i]) {
          assert prefix[i - 1] == w[i - 1] && prefix[i] == w[i];
        }
      }
      ClosedHoldsWalkEnd(g, s, prefix);
      assert Adjacent(w[|w| - 2], w[|w| - 1]);
    }
  }

  /** No walk leaves a closed set that holds the source: its complement is
      unreachable. */
  lemma ClosedBlocksReach(g: Grid, s: set<Pos>, source: Pos, target: Pos)
    requires WellFormed(g) && Closed(g, s) && source in s && target !in s
    ensures !Reachable(g, source, target)
  {
    if Reachable(g, source, target) {
      var w :| IsWalk(g, w) && w[0] == source && w[|w| - 1] == target;
      ClosedHoldsWalkEnd(g, s, w);
    }
  }

  /** Extending a walk by an open neighbour of its end gives a walk. */
  lemma ExtendWalk(g: Grid, w: seq<Pos>, q: Pos)
    requires WellFormed(g) && IsWalk(g, w) && Adjacent(w[|w| - 1], q) && Open(g, q)
    ensures IsWalk(g, w + [q]) && (w + [q])[0] == w[0]
  {
    var w' := w + [q];
    forall i | 0 < i < |w'| ensures Adjacent(w'[i - 1], w'[i]) && Open(g, w'[i]) {
      if i < |w| {
        assert w'[i - 1] == w[i - 1] && w'[i] == w[i];
      }
    }
  }

  /** Visiting an open neighbour of a visited position, with the walk to it
      extended by one step, keeps every visited position witnessed. */
  lemma WitnessNeighbour(g: Grid, source: Pos, visited: set<Pos>, walks: map<Pos, seq<Pos>>, node: Pos, next: Pos)
    requires WellFormed(g) && Witnessed(g, source, visited, walks) && node in visited
    requires Adjacent(node, next) && Open(g, next)
    ensures Witnessed(g, source, visited + {next}, walks[next := walks[node] + [next]])
  {
    ExtendWalk(g, walks[node], next);
  }

  /** One step of the search keeps the closure invariant: after node is
      dequeued and its open neighbours are visited, every visited position
      that has left the queue has all its open neighbours visited. */
  lemma DequeueKeepsClosed(g: Grid, node: Pos, rest: seq<Pos>, visited: set<Pos>,
                           queue': seq<Pos>, visited': set<Pos>)
    requires WellFormed(g) && ClosedOutside(g, visited, [node] + rest)
    requires visited <= visited'
    requires forall v :: v in queue' <==> v in rest || v in visited' - visited
    requires forall w :: Adjacent(node, w) && Open(g, w) ==> w in visited'
    ensures ClosedOutside(g, visited', queue')
  {
    forall v, w | v in visited' && v !in queue' && Adjacent(v, w) && Open(g, w)
      ensures w in visited'
    {
      if v != node {
        assert v in visited && v !in [node] + rest;
      }
    }
  }

  /** Growing a set inside a bound shrinks what is left of the bound; the
      search terminates by this. */
  lemma GrowShrinksRest(bound: set<Pos>, before: set<Pos>, after: set<Pos>)
    requires before <= after <= bound && after != before
    ensures bound - after < bound - before
  {
    var x :| x in after && x !in before;
    assert x in bound - before && x !in bound - after;
  }

  /** The open cells among the first d steps from node all lie in visited. */
  ghost predicate StepsVisited(g: Grid, node: Pos, visited: set<Pos>, d: nat)
    requires WellFormed(g) && d <= |Dirs|
  {
    forall e :: 0 <= e < d && Open(g, Step(node, e)) ==> Step(node, e) in visited
  }

  /** Handling step d keeps the earlier steps' cells visited and adds its
      own. */
  lemma StepVisited(g: Grid, node: Pos, visited: set<Pos>, visited': set<Pos>, d: nat)
    requires WellFormed(g) && d < |Dirs| && StepsVisited(g, node, visited, d) && visited <= visited'
    requires Open(g, Step(node, d)) ==> Step(node, d) in visited'
    ensures StepsVisited(g, node, visited', d + 1)
  {
  }

  /** All cells of the grid. */
  function Cells(): set<Pos> {
    set r, c | 0 <= r < Size && 0 <= c < Size :: (r, c)
  }

  /** The positions in column range [0, cols) of one row number at most cols. */
  lemma {:induction false} RowCardinality(s: set<Pos>, row: int, cols: nat)
    requires forall v :: v in s ==> v.0 == row && 0 <= v.1 < cols
    ensures |s| <= cols
    decreases cols
  {
    if cols > 0 {
      var s' := s - {(row, cols - 1)};
      RowCardinality(s', row, cols - 1);
    } else {
      assert forall v :: v !in s;
      assert s == {};
    }
  }

  /** A set of positions inside a rows x cols box has at most rows * cols
      members. */
  lemma {:induction false} BoxCardinality(s: set<Pos>, rows: nat, cols: nat)
    requires forall v :: v in s ==> 0 <= v.0 < rows && 0 <= v.1 < cols
    ensures |s| <= rows * cols
    decreases rows
  {
    if rows == 0 {
      assert forall v :: v !in s;
      assert s == {};
    } else {
      var top := set v | v in s && v.0 == rows - 1;
      var rest := s - top;
      RowCardinality(top, rows - 1, cols);
      BoxCardinality(rest, rows - 1, cols);
      assert s == top + rest;
      assert (rows - 1) * cols + cols == rows * cols;
    }
  }

  /** The first gate of a kind in the gate list (gates.find). */
  function FindGate(gates: seq<Gate>, kind: GateKind): (r: Option<Gate>)
    ensures r.Some? ==>
      r.value.kind == kind
      && exists i :: 0 <= i < |gates| && gates[i] == r.value
           && forall j :: 0 <= j < i ==> gates[j].kind != kind
    ensures r.None? ==> forall i :: 0 <= i < |gates| ==> gates[i].kind != kind
  {
    if gates == [] then None
    else if gates[0].kind == kind then Some(gates[0])
    else FindGate(gates[1..], kind)
  }

  /** The connection the game reports: both gates exist and the end gate's
      cell on the last row is reachable from the start gate's cell on row 0. */
  ghost predicate Connected(g: Grid, gates: seq<Gate>)
    requires WellFormed(g)
  {
    match (FindGate(gates, Start), FindGate(gates, End))
    case (Some(s), Some(e)) => Reachable(g, (0, s.position), (Size - 1, e.position))
    case _ => false
  }
}
