/**
 * The wavefront search on grids where every move is allowed, which covers
 * the repository's own unit tests on uniform grids (src/lee.rs:82-194): the
 * labels are Manhattan distances from the corner and the backtrace goes down
 * the first column before it goes right along the destination's row.
 */
module LeeExamples {
  import opened Wrappers
  import opened Types
  import opened Lee

  /** Every node's used amount fits into every node, so no move is ever refused. */
  ghost predicate Open(g: Grid)
    requires WellFormed(g)
  {
    forall a, b :: InBounds(g, a) && InBounds(g, b) ==> At(g, b).used <= At(g, a).size
  }

  /** Every position of the grid labelled with its Manhattan distance from the corner. */
  ghost function CornerLabels(g: Grid): map<Coords, nat>
    requires WellFormed(g)
  {
    map k | k in Cells(g) :: k.0 + k.1
  }

  lemma InCells(g: Grid, k: Coords)
    requires WellFormed(g)
    ensures k in Cells(g) <==> InBounds(g, k)
  {
    if InBounds(g, k) {
      assert k == (k.0, k.1);
    }
  }

  /** On an open grid the Manhattan distances from the corner are the labelling. */
  lemma CornerLabelling(g: Grid)
    requires WellFormed(g) && Open(g)
    ensures IsLabelling(g, (0, 0), CornerLabels(g))
  {
    var m := CornerLabels(g);
    var max := Bounds(g);
    InCells(g, (0, 0));
    forall k | k in m ensures InBounds(g, k) {
      InCells(g, k);
    }
    forall k | k in m ensures Closed(g, m, k) {
      InCells(g, k);
      CandidatesSound(k, max);
      forall c | c in Candidates(k, max) && CanStep(g, k, c) ensures c in m && m[c] <= m[k] + 1 {
        InCells(g, c);
      }
    }
    forall k | k in m && k != (0, 0) ensures HasPredecessor(g, m, k) {
      InCells(g, k);
      var p := if k.0 > 0 then (k.0 - 1, k.1) else (k.0, k.1 - 1);
      InCells(g, p);
      CandidatesComplete(k, max, p);
      assert p in Candidates(k, max) && p in m && m[p] + 1 == m[k] && CanStep(g, p, k);
    }
  }

  /** Down the first column to the destination's row, then right along it. */
  function CornerPath(to: Coords): (r: seq<Coords>)
    ensures |r| == to.0 + to.1 + 1
    ensures forall i :: 0 <= i <= to.1 ==> r[i] == (0, i)
    ensures forall i :: to.1 < i < |r| ==> r[i] == (i - to.1, to.1)
  {
    seq(to.1 + 1, i => (0, i)) + seq(to.0, i => (i + 1, to.1))
  }

  /** One step of the backtrace on an open grid: back along the row, then up the column. */
  lemma CornerStep(g: Grid, to: Coords, i: nat)
    requires WellFormed(g) && Open(g) && InBounds(g, to) && i < to.0 + to.1
    ensures FirstBack(g, CornerLabels(g), CornerPath(to)[i + 1], CornerPath(to)[i])
  {
    var m := CornerLabels(g);
    var max := Bounds(g);
    var path := CornerPath(to);
    var k := path[i + 1];
    InCells(g, k);
    InCells(g, path[i]);
    var cands := Candidates(k, max);
    if k.0 > 0 {
      assert cands[0] == path[i];
      assert LabelledWith(m, cands[0], m[k] - 1);
    } else {
      assert k == (0, i + 1) && path[i] == (0, i);
      var east := (1, i + 1);
      if 0 < max.0 {
        assert cands[0] == east && cands[1] == path[i];
        InCells(g, east);
        assert !LabelledWith(m, cands[0], m[k] - 1);
        assert cands[1..][0] == path[i];
        assert LabelledWith(m, cands[1..][0], m[k] - 1);
      } else {
        assert cands[0] == path[i];
        assert LabelledWith(m, cands[0], m[k] - 1);
      }
    }
  }

  /** A backtrace on an open grid has the corner path's length and ends where it ends. */
  lemma CornerEnd(g: Grid, to: Coords, path: seq<Coords>)
    requires WellFormed(g) && Open(g) && InBounds(g, to)
    requires IsBacktrace(g, (0, 0), to, CornerLabels(g), path)
    ensures |path| == to.0 + to.1 + 1 && path[|path| - 1] == CornerPath(to)[|path| - 1]
  {
    InCells(g, to);
    assert LabelledWith(CornerLabels(g), path[|path| - 1], |path| - 1);
  }

  /** Where a backtrace on an open grid agrees with the corner path, it agrees one position earlier too. */
  lemma CornerAgree(g: Grid, to: Coords, path: seq<Coords>, i: nat)
    requires WellFormed(g) && Open(g) && InBounds(g, to)
    requires IsBacktrace(g, (0, 0), to, CornerLabels(g), path)
    requires i + 1 < |path| == to.0 + to.1 + 1 && path[i + 1] == CornerPath(to)[i + 1]
    ensures path[i] == CornerPath(to)[i]
  {
    assert FirstBack(g, CornerLabels(g), path[i + 1], path[i]);
    CornerStep(g, to, i);
  }

  /** On an open grid the backtrace from the corner is the corner path. */
  lemma {:induction false} CornerBacktrace(g: Grid, to: Coords, path: seq<Coords>, i: nat)
    requires WellFormed(g) && Open(g) && InBounds(g, to)
    requires IsBacktrace(g, (0, 0), to, CornerLabels(g), path)
    requires i < |path|
    ensures |path| == to.0 + to.1 + 1 && path[i] == CornerPath(to)[i]
    decreases |path| - i
  {
    CornerEnd(g, to, path);
    if i + 1 < |path| {
      CornerBacktrace(g, to, path, i + 1);
      CornerAgree(g, to, path, i);
    }
  }

  /** On an open grid, a labelling from the corner backtraced to `to` gives the corner path. */
  lemma CornerSearch(g: Grid, to: Coords, m: map<Coords, nat>, path: seq<Coords>)
    requires WellFormed(g) && Open(g) && InBounds(g, to)
    requires IsLabelling(g, (0, 0), m) && IsBacktrace(g, (0, 0), to, m, path)
    ensures path == CornerPath(to)
  {
    CornerLabelling(g);
    LabellingUnique(g, (0, 0), m, CornerLabels(g));
    CornerBacktrace(g, to, path, 0);
    forall i | 0 <= i < |path| ensures path[i] == CornerPath(to)[i] {
      CornerBacktrace(g, to, path, i);
    }
  }

  /** `height` rows of `width` copies of `c`. */
  function Uniform(width: nat, height: nat, c: Cell): (g: Grid)
    requires width > 0 && height > 0
    ensures WellFormed(g) && Bounds(g) == (width - 1, height - 1)
    ensures forall k :: InBounds(g, k) ==> At(g, k) == c
  {
    seq(height, _ => seq(width, _ => c))
  }

  /** The source's 2x2 test: on a grid of empty size-12 nodes the search goes down before it goes right. */
  method Lee2x2() returns (path: Option<seq<Coords>>)
    ensures path == Some([(0, 0), (0, 1), (1, 1)])
  {
    var grid := Uniform(2, 2, Cell(12, 0, 12));
    ghost var lengths;
    path, lengths := Lee.Lee(grid, (0, 0), (1, 1));
    InCells(grid, (1, 1));
    CornerLabelling(grid);
    LabellingUnique(grid, (0, 0), lengths, CornerLabels(grid));
    LabelIsDistance(grid, (0, 0), lengths, (1, 1));
    CornerSearch(grid, (1, 1), lengths, path.value);
    assert CornerPath((1, 1)) == [(0, 0), (0, 1), (1, 1)];
  }

  /**
   * A search from a node to itself returns that node alone, on any grid; the
   * source's 1x1 test is one instance.
   */
  method LeeSelf(grid: Grid, p: Coords) returns (path: Option<seq<Coords>>)
    requires WellFormed(grid) && InBounds(grid, p)
    ensures path == Some([p])
  {
    ghost var lengths;
    path, lengths := Lee.Lee(grid, p, p);
    assert IsWalk(grid, [p], p, p);
    ghost var route := path.value;
    assert LabelledWith(lengths, route[|route| - 1], |route| - 1);
    assert route == [p];
  }

  /** The source's simple 3x3 test: down the first column, then along the bottom row. */
  method Lee3x3() returns (path: Option<seq<Coords>>)
    ensures path == Some([(0, 0), (0, 1), (0, 2), (1, 2), (2, 2)])
  {
    var grid := Uniform(3, 3, Cell(12, 0, 12));
    ghost var lengths;
    path, lengths := Lee.Lee(grid, (0, 0), (2, 2));
    InCells(grid, (2, 2));
    CornerLabelling(grid);
    LabellingUnique(grid, (0, 0), lengths, CornerLabels(grid));
    LabelIsDistance(grid, (0, 0), lengths, (2, 2));
    CornerSearch(grid, (2, 2), lengths, path.value);
    assert CornerPath((2, 2)) == [(0, 0), (0, 1), (0, 2), (1, 2), (2, 2)];
  }

  /**
   * A 2x2 grid whose bottom-left node is too small for the bottom-right node's
   * data: the hole can reach the bottom-right corner only through the top-right one.
   */
  function Squeeze(): (g: Grid)
    ensures WellFormed(g) && Bounds(g) == (1, 1)
  {
    [[Cell(10, 0, 10), Cell(10, 0, 10)], [Cell(1, 0, 1), Cell(10, 5, 5)]]
  }

  /** The labels of `Squeeze` from the top-left corner. */
  function SqueezeLabels(): map<Coords, nat> {
    map[(0, 0) := 0, (1, 0) := 1, (0, 1) := 1, (1, 1) := 2]
  }

  /** The neighbours of each position of a 2x2 grid, in candidate order. */
  lemma Candidates2x2()
    ensures Candidates((0, 0), (1, 1)) == [(1, 0), (0, 1)]
    ensures Candidates((1, 0), (1, 1)) == [(0, 0), (1, 1)]
    ensures Candidates((0, 1), (1, 1)) == [(1, 1), (0, 0)]
    ensures Candidates((1, 1), (1, 1)) == [(0, 1), (1, 0)]
  {
  }

  lemma SqueezeClosed(k: Coords)
    requires k in SqueezeLabels()
    ensures Closed(Squeeze(), SqueezeLabels(), k)
  {
    Candidates2x2();
    assert k == (0, 0) || k == (1, 0) || k == (0, 1) || k == (1, 1);
  }

  lemma SqueezePredecessors(k: Coords)
    requires k in SqueezeLabels() && k != (0, 0)
    ensures HasPredecessor(Squeeze(), SqueezeLabels(), k)
  {
    var g, m := Squeeze(), SqueezeLabels();
    Candidates2x2();
    var p := if k == (1, 1) then (1, 0) else (0, 0);
    assert p in Candidates(k, (1, 1)) && p in m && m[p] + 1 == m[k] && CanStep(g, p, k);
  }

  lemma SqueezeLabelling()
    ensures IsLabelling(Squeeze(), (0, 0), SqueezeLabels())
  {
    forall k | k in SqueezeLabels() ensures Closed(Squeeze(), SqueezeLabels(), k) {
      SqueezeClosed(k);
    }
    forall k | k in SqueezeLabels() && k != (0, 0) ensures HasPredecessor(Squeeze(), SqueezeLabels(), k) {
      SqueezePredecessors(k);
    }
  }

  /**
   * The backtrace does not check capacities: on `Squeeze` it returns a path
   * whose last step moves the hole into the bottom-right node through the
   * bottom-left one, a move the wavefront itself refuses.
   */
  method SqueezeBacktrace() returns (path: Option<seq<Coords>>)
    ensures path == Some([(0, 0), (0, 1), (1, 1)])
    ensures !CanStep(Squeeze(), (0, 1), (1, 1))
  {
    var grid := Squeeze();
    ghost var lengths;
    path, lengths := Lee.Lee(grid, (0, 0), (1, 1));
    SqueezeLabelling();
    LabellingUnique(grid, (0, 0), lengths, SqueezeLabels());
    LabelIsDistance(grid, (0, 0), lengths, (1, 1));
    SqueezeRoute(path.value);
  }

  /** The only backtrace of `Squeeze`'s labels to the bottom-right corner. */
  lemma SqueezeRoute(p: seq<Coords>)
    requires IsBacktrace(Squeeze(), (0, 0), (1, 1), SqueezeLabels(), p)
    ensures p == [(0, 0), (0, 1), (1, 1)]
  {
    var g, m := Squeeze(), SqueezeLabels();
    assert LabelledWith(m, p[|p| - 1], |p| - 1);
    assert FirstBack(g, m, p[2], p[1]);
    Candidates2x2();
    assert LabelledWith(m, (0, 1), 1);
  }

  /**
   * The source's 3x3 test with two refusing nodes: the middle row's first two
   * nodes hold more than any neighbour can take, so the hole goes round them.
   */
  function Blocked(): (g: Grid)
    ensures WellFormed(g) && Bounds(g) == (2, 2)
  {
    [ [Cell(20, 0, 12), Cell(20, 19, 12), Cell(20, 15, 12)],
      [Cell(99, 50, 12), Cell(99, 50, 12), Cell(20, 19, 12)],
      [Cell(20, 20, 12), Cell(20, 19, 12), Cell(20, 20, 12)] ]
  }

  /** The route round the blocked nodes: position `i` is the only one labelled `i`. */
  function BlockedRoute(): seq<Coords> {
    [(0, 0), (1, 0), (2, 0), (2, 1), (2, 2), (1, 2), (0, 2)]
  }

  function BlockedLabels(): map<Coords, nat> {
    map[(0, 0) := 0, (1, 0) := 1, (2, 0) := 2, (2, 1) := 3, (2, 2) := 4, (1, 2) := 5, (0, 2) := 6]
  }

  /** The neighbours of the labelled positions of a 3x3 grid, in candidate order. */
  lemma Candidates3x3()
    ensures Candidates((0, 0), (2, 2)) == [(1, 0), (0, 1)]
    ensures Candidates((1, 0), (2, 2)) == [(0, 0), (2, 0), (1, 1)]
    ensures Candidates((2, 0), (2, 2)) == [(1, 0), (2, 1)]
    ensures Candidates((2, 1), (2, 2)) == [(1, 1), (2, 0), (2, 2)]
    ensures Candidates((2, 2), (2, 2)) == [(1, 2), (2, 1)]
    ensures Candidates((1, 2), (2, 2)) == [(0, 2), (2, 2), (1, 1)]
    ensures Candidates((0, 2), (2, 2)) == [(1, 2), (0, 1)]
  {
  }

  /** Closedness checked against a known candidate list. */
  lemma ClosedByList(g: Grid, m: map<Coords, nat>, k: Coords, cands: seq<Coords>)
    requires WellFormed(g) && k in m && Candidates(k, Bounds(g)) == cands
    requires forall c :: c in cands && CanStep(g, k, c) ==> c in m && m[c] <= m[k] + 1
    ensures Closed(g, m, k)
  {
  }

  lemma BlockedClosed(k: Coords)
    requires k in BlockedLabels()
    ensures Closed(Blocked(), BlockedLabels(), k)
  {
    var g, m := Blocked(), BlockedLabels();
    Candidates3x3();
    if k == (0, 0) {
      ClosedByList(g, m, k, [(1, 0), (0, 1)]);
    } else if k == (1, 0) {
      ClosedByList(g, m, k, [(0, 0), (2, 0), (1, 1)]);
    } else if k == (2, 0) {
      ClosedByList(g, m, k, [(1, 0), (2, 1)]);
    } else if k == (2, 1) {
      ClosedByList(g, m, k, [(1, 1), (2, 0), (2, 2)]);
    } else if k == (2, 2) {
      ClosedByList(g, m, k, [(1, 2), (2, 1)]);
    } else if k == (1, 2) {
      ClosedByList(g, m, k, [(0, 2), (2, 2), (1, 1)]);
    } else {
      ClosedByList(g, m, k, [(1, 2), (0, 1)]);
    }
  }

  lemma BlockedPredecessors(k: Coords)
    requires k in BlockedLabels() && k != (0, 0)
    ensures HasPredecessor(Blocked(), BlockedLabels(), k)
  {
    var g, m := Blocked(), BlockedLabels();
    Candidates3x3();
    var p :=
      if k == (1, 0) then (0, 0)
      else if k == (2, 0) then (1, 0)
      else if k == (2, 1) then (2, 0)
      else if k == (2, 2) then (2, 1)
      else if k == (1, 2) then (2, 2)
      else (1, 2);
    assert p in Candidates(k, (2, 2)) && p in m && m[p] + 1 == m[k] && CanStep(g, p, k);
  }

  lemma BlockedLabelling()
    ensures IsLabelling(Blocked(), (0, 0), BlockedLabels())
  {
    forall k | k in BlockedLabels() ensures Closed(Blocked(), BlockedLabels(), k) {
      BlockedClosed(k);
    }
    forall k | k in BlockedLabels() && k != (0, 0) ensures HasPredecessor(Blocked(), BlockedLabels(), k) {
      BlockedPredecessors(k);
    }
  }

  /** Each label of the blocked grid is carried by exactly one position. */
  lemma BlockedLabelOwner(c: Coords, i: int)
    requires 0 <= i < 7 && LabelledWith(BlockedLabels(), c, i)
    ensures c == BlockedRoute()[i]
  {
  }

  /** The source's blocked 3x3 test: along the top row, down the right column, back along the bottom. */
  method LeeBlocked() returns (path: Option<seq<Coords>>)
    ensures path == Some([(0, 0), (1, 0), (2, 0), (2, 1), (2, 2), (1, 2), (0, 2)])
  {
    var grid := Blocked();
    ghost var lengths;
    path, lengths := Lee.Lee(grid, (0, 0), (0, 2));
    BlockedLabelling();
    LabellingUnique(grid, (0, 0), lengths, BlockedLabels());
    LabelIsDistance(grid, (0, 0), lengths, (0, 2));
    ghost var p := path.value;
    assert LabelledWith(lengths, p[|p| - 1], |p| - 1);
    forall i | 0 <= i < |p| ensures p[i] == BlockedRoute()[i] {
      BlockedLabelOwner(p[i], i);
    }
    assert p == BlockedRoute();
  }
}
