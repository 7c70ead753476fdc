/**
 * The wavefront ("Lee") shortest-path finder over a grid of storage nodes and
 * the generator of orthogonal neighbours that both searches share.
 *
 * A move from `cell` into an adjacent `candidate` is allowed when the
 * candidate's used amount fits into the size of `cell`. `Lee` labels every
 * position reachable from the source by breadth-first expansion and then
 * walks the labels back from the destination.
 */
module Lee {
  import opened Wrappers
  import opened Types

  /** Rows of nodes, indexed `grid[y][x]`. */
  type Grid = seq<seq<Cell>>

  /** A non-empty rectangular grid: the only kind the searches accept. */
  predicate WellFormed(g: Grid) {
    |g| > 0 && |g[0]| > 0 && forall y :: 0 <= y < |g| ==> |g[y]| == |g[0]|
  }

  /** The last valid index on each axis (the source's `max`). */
  function Bounds(g: Grid): Coords
    requires WellFormed(g)
  {
    (|g[0]| - 1, |g| - 1)
  }

  predicate InBounds(g: Grid, c: Coords) {
    c.1 < |g| && c.0 < |g[c.1]|
  }

  function At(g: Grid, c: Coords): Cell
    requires InBounds(g, c)
  {
    g[c.1][c.0]
  }

  /** The capacity rule: the candidate's used amount must fit into the size of the node moved from. */
  predicate CanStep(g: Grid, cell: Coords, candidate: Coords) {
    InBounds(g, cell) && InBounds(g, candidate) && At(g, candidate).used <= At(g, cell).size
  }

  /** Orthogonal neighbours: the coordinates differ by one on exactly one axis. */
  predicate Adjacent(a: Coords, b: Coords) {
    || (a.1 == b.1 && (a.0 + 1 == b.0 || b.0 + 1 == a.0))
    || (a.0 == b.0 && (a.1 + 1 == b.1 || b.1 + 1 == a.1))
  }

  /** Position of neighbour `c` in the fixed order west, east, north, south around `current`. */
  function Direction(current: Coords, c: Coords): nat {
    if c.0 + 1 == current.0 then 0
    else if c.0 == current.0 + 1 then 1
    else if c.1 + 1 == current.1 then 2
    else 3
  }

  /**
   * The neighbours of `current` inside `[0, max.0] x [0, max.1]`, in the order
   * x - 1, x + 1, y - 1, y + 1.
   */
  function Candidates(current: Coords, max: Coords): (r: seq<Coords>)
    ensures |r| <= 4 && current !in r
  {
    var west := if current.0 > 0 then [(current.0 - 1, current.1)] else [];
    var east := if current.0 < max.0 then [(current.0 + 1, current.1)] else [];
    var north := if current.1 > 0 then [(current.0, current.1 - 1)] else [];
    var south := if current.1 < max.1 then [(current.0, current.1 + 1)] else [];
    west + east + north + south
  }

  /**
   * At most four candidates, all orthogonal neighbours of `current`, inside the
   * bounds when `current` is, and listed west, east, north, south.
   */
  lemma CandidatesSound(current: Coords, max: Coords)
    ensures |Candidates(current, max)| <= 4
    ensures forall c :: c in Candidates(current, max) ==> Adjacent(current, c)
    ensures current.0 <= max.0 && current.1 <= max.1 ==>
      forall c :: c in Candidates(current, max) ==> c.0 <= max.0 && c.1 <= max.1
    ensures var r := Candidates(current, max);
      forall i, j :: 0 <= i < j < |r| ==> Direction(current, r[i]) < Direction(current, r[j])
  {
  }

  /** Every neighbour inside the bounds is listed. */
  lemma CandidatesComplete(current: Coords, max: Coords, c: Coords)
    requires Adjacent(current, c) && c.0 <= max.0 && c.1 <= max.1
    ensures c in Candidates(current, max)
  {
  }

  /** Adjacency is symmetric, so inside the grid each neighbour lists the other. */
  lemma CandidatesSymmetric(g: Grid, a: Coords, b: Coords)
    requires WellFormed(g) && InBounds(g, a) && InBounds(g, b)
    ensures b in Candidates(a, Bounds(g)) <==> a in Candidates(b, Bounds(g))
  {
    if b in Candidates(a, Bounds(g)) {
      CandidatesComplete(b, Bounds(g), a);
    }
    if a in Candidates(b, Bounds(g)) {
      CandidatesComplete(a, Bounds(g), b);
    }
  }

  // ---------------------------------------------------------------------------
  // Walks and distances: the reference definitions the search is proved against.

  /** `w` is a sequence of allowed moves leading from `a` to `b`. */
  ghost predicate IsWalk(g: Grid, w: seq<Coords>, a: Coords, b: Coords)
    requires WellFormed(g)
  {
    && |w| > 0 && w[0] == a && w[|w| - 1] == b && InBounds(g, a)
    && forall i :: 0 <= i < |w| - 1 ==>
         w[i + 1] in Candidates(w[i], Bounds(g)) && CanStep(g, w[i], w[i + 1])
  }

  ghost predicate Reachable(g: Grid, a: Coords, b: Coords)
    requires WellFormed(g)
  {
    exists w :: IsWalk(g, w, a, b)
  }

  /** `n` moves suffice to get from `a` to `b`, and no walk uses fewer. */
  ghost predicate IsDistance(g: Grid, a: Coords, b: Coords, n: nat)
    requires WellFormed(g)
  {
    && (exists w :: IsWalk(g, w, a, b) && |w| == n + 1)
    && (forall w :: IsWalk(g, w, a, b) ==> n + 1 <= |w|)
  }

  /** One more allowed move extends a walk. */
  lemma ExtendWalk(g: Grid, w: seq<Coords>, a: Coords, b: Coords, c: Coords)
    requires WellFormed(g) && IsWalk(g, w, a, b)
    requires c in Candidates(b, Bounds(g)) && CanStep(g, b, c)
    ensures IsWalk(g, w + [c], a, c)
  {
    var w' := w + [c];
    forall i | 0 <= i < |w'| - 1
      ensures w'[i + 1] in Candidates(w'[i], Bounds(g)) && CanStep(g, w'[i], w'[i + 1])
    {
      if i < |w| - 1 {
        assert w'[i] == w[i] && w'[i + 1] == w[i + 1];
      }
    }
  }

  /** Dropping the last move of a walk leaves a walk to the node before it. */
  lemma ShortenWalk(g: Grid, w: seq<Coords>, a: Coords, b: Coords)
    requires WellFormed(g) && IsWalk(g, w, a, b) && |w| > 1
    ensures IsWalk(g, w[..|w| - 1], a, w[|w| - 2])
    ensures b in Candidates(w[|w| - 2], Bounds(g)) && CanStep(g, w[|w| - 2], b)
  {
    var prefix := w[..|w| - 1];
    forall i | 0 <= i < |prefix| - 1
      ensures prefix[i + 1] in Candidates(prefix[i], Bounds(g)) && CanStep(g, prefix[i], prefix[i + 1])
    {
      assert prefix[i] == w[i] && prefix[i + 1] == w[i + 1];
    }
  }

  lemma DistanceUnique(g: Grid, a: Coords, b: Coords, n: nat, m: nat)
    requires WellFormed(g) && IsDistance(g, a, b, n) && IsDistance(g, a, b, m)
    ensures n == m
  {
    var v :| IsWalk(g, v, a, b) && |v| == n + 1;
    var w :| IsWalk(g, w, a, b) && |w| == m + 1;
  }

  // ---------------------------------------------------------------------------
  // Labellings: what the breadth-first expansion leaves in its length map.

  /** Every allowed move out of labelled `k` reaches a labelled node at most one further. */
  ghost predicate Closed(g: Grid, m: map<Coords, nat>, k: Coords)
    requires WellFormed(g) && k in m
  {
    forall c :: c in Candidates(k, Bounds(g)) && CanStep(g, k, c) ==> c in m && m[c] <= m[k] + 1
  }

  /** Labelled `k` was reached by an allowed move from a neighbour labelled one less. */
  ghost predicate HasPredecessor(g: Grid, m: map<Coords, nat>, k: Coords)
    requires WellFormed(g) && k in m
  {
    exists p :: p in Candidates(k, Bounds(g)) && p in m && m[p] + 1 == m[k] && CanStep(g, p, k)
  }

  /** The complete wavefront from `from`: closed under allowed moves, every label justified. */
  ghost predicate IsLabelling(g: Grid, from: Coords, m: map<Coords, nat>)
    requires WellFormed(g)
  {
    && from in m && m[from] == 0
    && (forall k :: k in m ==> InBounds(g, k))
    && (forall k {:trigger Closed(g, m, k)} :: k in m ==> Closed(g, m, k))
    && (forall k {:trigger HasPredecessor(g, m, k)} :: k in m && k != from ==> HasPredecessor(g, m, k))
  }

  /** Along any walk from the source, the node after `i` moves is labelled at most `i`. */
  lemma {:induction false} LabelBoundsWalk(g: Grid, from: Coords, m: map<Coords, nat>, w: seq<Coords>, b: Coords)
    requires WellFormed(g) && IsLabelling(g, from, m) && IsWalk(g, w, from, b)
    ensures b in m && m[b] <= |w| - 1
    decreases |w|
  {
    if |w| > 1 {
      var p := w[|w| - 2];
      var prefix := w[..|w| - 1];
      ShortenWalk(g, w, from, b);
      LabelBoundsWalk(g, from, m, prefix, p);
      assert Closed(g, m, p);
    }
  }

  /** Following predecessors from labelled `k` back to the source gives a walk of `m[k]` moves. */
  lemma {:induction false} PredecessorWalk(g: Grid, from: Coords, m: map<Coords, nat>, k: Coords)
    returns (w: seq<Coords>)
    requires WellFormed(g) && IsLabelling(g, from, m) && k in m
    ensures IsWalk(g, w, from, k) && |w| == m[k] + 1
    decreases m[k]
  {
    if k == from {
      w := [from];
    } else {
      assert HasPredecessor(g, m, k);
      var p :| p in Candidates(k, Bounds(g)) && p in m && m[p] + 1 == m[k] && CanStep(g, p, k);
      var prefix := PredecessorWalk(g, from, m, p);
      CandidatesSymmetric(g, p, k);
      w := prefix + [k];
      ExtendWalk(g, prefix, from, p, k);
    }
  }

  /** Walks from the source reach exactly the labelled nodes. */
  lemma ReachableIsLabelled(g: Grid, from: Coords, m: map<Coords, nat>, b: Coords)
    requires WellFormed(g) && IsLabelling(g, from, m) && Reachable(g, from, b)
    ensures b in m
  {
    var w :| IsWalk(g, w, from, b);
    LabelBoundsWalk(g, from, m, w, b);
  }

  /** A labelling holds the true distances: a label is the length of a shortest walk. */
  lemma LabelIsDistance(g: Grid, from: Coords, m: map<Coords, nat>, b: Coords)
    requires WellFormed(g) && IsLabelling(g, from, m)
    ensures b in m <==> Reachable(g, from, b)
    ensures b in m ==> IsDistance(g, from, b, m[b])
  {
    if b in m {
      var w := PredecessorWalk(g, from, m, b);
      forall v | IsWalk(g, v, from, b) ensures m[b] + 1 <= |v| {
        LabelBoundsWalk(g, from, m, v, b);
      }
    }
    if Reachable(g, from, b) {
      ReachableIsLabelled(g, from, m, b);
    }
  }

  /** The grid and the source determine the labelling completely. */
  lemma LabellingUnique(g: Grid, from: Coords, m1: map<Coords, nat>, m2: map<Coords, nat>)
    requires WellFormed(g) && IsLabelling(g, from, m1) && IsLabelling(g, from, m2)
    ensures m1 == m2
  {
    forall k | k in m1 ensures k in m2 && m2[k] == m1[k] {
      LabelIsDistance(g, from, m1, k);
      LabelIsDistance(g, from, m2, k);
      DistanceUnique(g, from, k, m1[k], m2[k]);
    }
    forall k | k in m2 ensures k in m1 {
      LabelIsDistance(g, from, m1, k);
      LabelIsDistance(g, from, m2, k);
    }
    assert m1.Keys == m2.Keys;
  }

  // ---------------------------------------------------------------------------
  // The breadth-first expansion (src/lee.rs:12-31).

  /** All positions of the grid. */
  ghost function Cells(g: Grid): set<Coords>
    requires WellFormed(g)
  {
    set x: nat, y: nat | x < |g[0]| && y < |g| :: (x, y)
  }

  /** No more positions can be labelled than the grid has. */
  lemma LabelsWithinGrid(g: Grid, m: map<Coords, nat>)
    requires WellFormed(g) && forall k :: k in m ==> InBounds(g, k)
    ensures |m| <= |Cells(g)|
  {
    forall k | k in m.Keys ensures k in Cells(g) {
      assert k == (k.0, k.1);
    }
    assert (Cells(g) - m.Keys) + m.Keys == Cells(g);
  }

  /** `m'` keeps every label of `m`. */
  ghost predicate Extends(m: map<Coords, nat>, m': map<Coords, nat>) {
    forall k :: k in m ==> k in m' && m'[k] == m[k]
  }

  /** Adding labels keeps a closed position closed. */
  lemma ClosedExtends(g: Grid, m: map<Coords, nat>, m': map<Coords, nat>, k: Coords)
    requires WellFormed(g) && k in m && Extends(m, m') && Closed(g, m, k)
    ensures Closed(g, m', k)
  {
  }

  /** Every one of the first `i` positions of `cands` that `cell` may move into is labelled in `m`. */
  ghost predicate Covered(g: Grid, cell: Coords, cands: seq<Coords>, i: nat, m: map<Coords, nat>)
    requires i <= |cands|
  {
    forall j :: 0 <= j < i && CanStep(g, cell, cands[j]) ==> cands[j] in m
  }

  lemma CoveredStep(g: Grid, cell: Coords, cands: seq<Coords>, i: nat, m: map<Coords, nat>, m': map<Coords, nat>)
    requires i < |cands| && Covered(g, cell, cands, i, m) && Extends(m, m')
    requires CanStep(g, cell, cands[i]) ==> cands[i] in m'
    ensures Covered(g, cell, cands, i + 1, m')
  {
  }

  /**
   * The positions of `cands` that the loop over the neighbours of `cell`
   * labels and queues, in candidate order: each one `cell` may move into that
   * has no label in `m` and was not admitted earlier in the list.
   */
  function Admitted(g: Grid, cell: Coords, cands: seq<Coords>, m: map<Coords, nat>): (r: seq<Coords>)
    ensures forall c :: c in r ==> c in cands && c !in m && CanStep(g, cell, c)
  {
    if |cands| == 0 then []
    else
      var earlier := Admitted(g, cell, cands[..|cands| - 1], m);
      var c := cands[|cands| - 1];
      earlier + (if c !in m && c !in earlier && CanStep(g, cell, c) then [c] else [])
  }

  /** The invariant of the loop over the neighbours of `cell`, after `i` of them. */
  ghost predicate Visiting(g: Grid, cell: Coords, cands: seq<Coords>, i: nat,
                           m: map<Coords, nat>, q: seq<Coords>, m': map<Coords, nat>, q': seq<Coords>)
    requires WellFormed(g) && cell in m && i <= |cands|
  {
    && Extends(m, m')
    && (forall k :: k in m' ==> InBounds(g, k))
    && (forall k :: k in m' && k !in m ==> k in cands && CanStep(g, cell, k) && m'[k] == m[cell] + 1)
    && Covered(g, cell, cands, i, m')
    && |q'| >= |q| && q'[..|q|] == q
    && (forall j :: |q| <= j < |q'| ==> q'[j] in m' && q'[j] !in m)
    && (forall k :: k in m' && k !in m ==> k in q')
    && |m'| - |m| == |q'| - |q|
  }

  /** The new part of the queue is the admitted candidates among the first `i`, and so are the new labels. */
  ghost predicate InOrder(g: Grid, cell: Coords, cands: seq<Coords>, i: nat,
                          m: map<Coords, nat>, q: seq<Coords>, m': map<Coords, nat>, q': seq<Coords>)
    requires i <= |cands|
  {
    && |q'| >= |q| && q'[|q|..] == Admitted(g, cell, cands[..i], m)
    && (forall k :: k in m' && k !in m ==> k in Admitted(g, cell, cands[..i], m))
  }

  /** One neighbour visited keeps the queue's new part in candidate order. */
  lemma AdmittedStep(g: Grid, cell: Coords, cands: seq<Coords>, i: nat, m: map<Coords, nat>, q: seq<Coords>,
                     m1: map<Coords, nat>, q1: seq<Coords>, m2: map<Coords, nat>, q2: seq<Coords>)
    requires i < |cands| && cell in m && Extends(m, m1)
    requires InOrder(g, cell, cands, i, m, q, m1, q1)
    requires forall j :: |q| <= j < |q1| ==> q1[j] in m1
    requires if cands[i] !in m1 && CanStep(g, cell, cands[i])
             then q2 == q1 + [cands[i]] && m2 == m1[cands[i] := m[cell] + 1]
             else q2 == q1 && m2 == m1
    ensures InOrder(g, cell, cands, i + 1, m, q, m2, q2)
  {
    var c := cands[i];
    var earlier := Admitted(g, cell, cands[..i], m);
    assert cands[..i + 1][..i] == cands[..i];
    if c in earlier {
      var j :| 0 <= j < |earlier| && earlier[j] == c;
      assert q1[|q| + j] == c;
    }
    if c !in m1 && CanStep(g, cell, c) {
      assert q2[|q|..] == q1[|q|..] + [c];
    }
  }

  /** One neighbour visited: labelled and queued when it is allowed and still unlabelled. */
  lemma VisitStep(g: Grid, cell: Coords, cands: seq<Coords>, i: nat, m: map<Coords, nat>, q: seq<Coords>,
                  m1: map<Coords, nat>, q1: seq<Coords>, m2: map<Coords, nat>, q2: seq<Coords>)
    requires WellFormed(g) && cell in m && i < |cands|
    requires forall c :: c in cands ==> InBounds(g, c)
    requires Visiting(g, cell, cands, i, m, q, m1, q1)
    requires if cands[i] !in m1 && CanStep(g, cell, cands[i])
             then q2 == q1 + [cands[i]] && m2 == m1[cands[i] := m[cell] + 1]
             else q2 == q1 && m2 == m1
    ensures Visiting(g, cell, cands, i + 1, m, q, m2, q2)
  {
    var c := cands[i];
    if c !in m1 && CanStep(g, cell, c) {
      assert q2[..|q|] == q1[..|q|];
      forall j | |q| <= j < |q2| ensures q2[j] in m2 && q2[j] !in m {
        if j < |q1| {
          assert q2[j] == q1[j];
        }
      }
    }
    CoveredStep(g, cell, cands, i, m1, m2);
  }

  /**
   * The body of the expansion for one dequeued `cell` (the `for_each` over its
   * neighbours, `candidates`): every neighbour that `cell` may move into and that has no
   * label yet gets `cell`'s label plus one and joins the back of the queue, in
   * candidate order (`Admitted`).
   */
  method VisitNeighbours(grid: Grid, cell: Coords, candidates: seq<Coords>,
                         lengths: map<Coords, nat>, queue: seq<Coords>)
    returns (lengths': map<Coords, nat>, queue': seq<Coords>)
    requires WellFormed(grid) && cell in lengths
    requires forall c :: c in candidates ==> InBounds(grid, c)
    requires forall k :: k in lengths ==> InBounds(grid, k)
    ensures Visiting(grid, cell, candidates, |candidates|, lengths, queue, lengths', queue')
    ensures |queue'| >= |queue| && queue'[|queue|..] == Admitted(grid, cell, candidates, lengths)
  {
    var cellLength := lengths[cell];
    lengths', queue' := lengths, queue;
    var i := 0;
    while i < |candidates|
      invariant i <= |candidates|
      invariant Visiting(grid, cell, candidates, i, lengths, queue, lengths', queue')
      invariant InOrder(grid, cell, candidates, i, lengths, queue, lengths', queue')
    {
      var candidate := candidates[i];
      var availableMove := CanStep(grid, cell, candidate);
      var neverVisited := candidate !in lengths';
      ghost var before, queueBefore := lengths', queue';
      if neverVisited && availableMove {
        queue' := queue' + [candidate];
        lengths' := lengths'[candidate := cellLength + 1];
      }
      VisitStep(grid, cell, candidates, i, lengths, queue, before, queueBefore, lengths', queue');
      AdmittedStep(grid, cell, candidates, i, lengths, queue, before, queueBefore, lengths', queue');
      i := i + 1;
    }
    assert candidates[..|candidates|] == candidates;
  }

  /** Every labelled position taken off the queue is closed. */
  ghost predicate ProcessedClosed(g: Grid, lengths: map<Coords, nat>, queue: seq<Coords>, level: nat)
    requires WellFormed(g)
  {
    forall k :: k in lengths && k !in queue ==> lengths[k] <= level && Closed(g, lengths, k)
  }

  /** Each labelled position other than the source remembers the neighbour that labelled it. */
  ghost predicate Parented(g: Grid, from: Coords, lengths: map<Coords, nat>, parent: map<Coords, Coords>)
    requires WellFormed(g)
  {
    forall k :: k in lengths && k != from ==>
      && k in parent && parent[k] in lengths
      && parent[k] in Candidates(k, Bounds(g)) && CanStep(g, parent[k], k)
      && lengths[parent[k]] + 1 == lengths[k]
  }

  /** The queue holds labelled positions whose labels run from `level` to `level + 1` in order. */
  ghost predicate QueueOrdered(lengths: map<Coords, nat>, queue: seq<Coords>, level: nat)
  {
    && (forall i :: 0 <= i < |queue| ==> queue[i] in lengths && level <= lengths[queue[i]] <= level + 1)
    && (forall i, j :: 0 <= i < j < |queue| ==> lengths[queue[i]] <= lengths[queue[j]])
  }

  /** The invariant of the expansion loop. */
  ghost predicate Expanding(g: Grid, from: Coords, lengths: map<Coords, nat>, parent: map<Coords, Coords>,
                            queue: seq<Coords>, level: nat)
    requires WellFormed(g)
  {
    && (forall k :: k in lengths ==> InBounds(g, k) && lengths[k] <= level + 1)
    && from in lengths && lengths[from] == 0
    && Parented(g, from, lengths, parent)
    && QueueOrdered(lengths, queue, level)
    && ProcessedClosed(g, lengths, queue, level)
  }

  /** Taking the head off the queue and raising the level to its label keeps the queue's order. */
  lemma PopPreserves(g: Grid, from: Coords, lengths: map<Coords, nat>, parent: map<Coords, Coords>,
                     queue: seq<Coords>, level: nat)
    requires WellFormed(g) && |queue| > 0 && Expanding(g, from, lengths, parent, queue, level)
    ensures level <= lengths[queue[0]]
    ensures QueueOrdered(lengths, queue[1..], lengths[queue[0]])
    ensures ProcessedClosed(g, lengths, [queue[0]] + queue[1..], lengths[queue[0]])
  {
    assert [queue[0]] + queue[1..] == queue;
    var rest := queue[1..];
    forall i | 0 <= i < |rest|
      ensures rest[i] in lengths && lengths[queue[0]] <= lengths[rest[i]] <= lengths[queue[0]] + 1
    {
      assert rest[i] == queue[i + 1];
    }
    forall i, j | 0 <= i < j < |rest| ensures lengths[rest[i]] <= lengths[rest[j]] {
      assert rest[i] == queue[i + 1] && rest[j] == queue[j + 1];
    }
  }

  /** The positions labelled by the expansion of `cell` remember `cell` as their parent. */
  lemma VisitParented(g: Grid, from: Coords, lengths: map<Coords, nat>, lengths': map<Coords, nat>,
                      parent: map<Coords, Coords>, parent': map<Coords, Coords>, cell: Coords)
    requires WellFormed(g) && cell in lengths && from in lengths
    requires Parented(g, from, lengths, parent) && Extends(lengths, lengths')
    requires forall k :: k in lengths' && k !in lengths ==>
      k in Candidates(cell, Bounds(g)) && CanStep(g, cell, k) && lengths'[k] == lengths[cell] + 1
    requires parent' == parent + map k | k in lengths'.Keys - lengths.Keys :: cell
    ensures Parented(g, from, lengths', parent')
  {
    forall k | k in lengths' && k != from
      ensures k in parent' && parent'[k] in lengths'
      ensures parent'[k] in Candidates(k, Bounds(g)) && CanStep(g, parent'[k], k)
      ensures lengths'[parent'[k]] + 1 == lengths'[k]
    {
      if k !in lengths {
        CandidatesSymmetric(g, cell, k);
      }
    }
  }

  /** Appending positions labelled `level + 1` keeps the queue ordered. */
  lemma VisitQueueOrdered(lengths: map<Coords, nat>, lengths': map<Coords, nat>,
                          queue: seq<Coords>, queue': seq<Coords>, level: nat)
    requires QueueOrdered(lengths, queue, level) && Extends(lengths, lengths')
    requires |queue'| >= |queue| && queue'[..|queue|] == queue
    requires forall j :: |queue| <= j < |queue'| ==> queue'[j] in lengths' && lengths'[queue'[j]] == level + 1
    ensures QueueOrdered(lengths', queue', level)
  {
    forall i | 0 <= i < |queue'| ensures queue'[i] in lengths' && level <= lengths'[queue'[i]] <= level + 1 {
      if i < |queue| {
        assert queue'[i] == queue[i];
      }
    }
    forall i, j | 0 <= i < j < |queue'| ensures lengths'[queue'[i]] <= lengths'[queue'[j]] {
      if j < |queue| {
        assert queue'[i] == queue[i] && queue'[j] == queue[j];
      } else if i < |queue| {
        assert queue'[i] == queue[i];
      }
    }
  }

  /** Once every allowed neighbour of `cell` is labelled, `cell` is closed. */
  lemma VisitCellClosed(g: Grid, lengths: map<Coords, nat>, lengths': map<Coords, nat>, cell: Coords)
    requires WellFormed(g) && cell in lengths && Extends(lengths, lengths')
    requires forall k :: k in lengths ==> lengths[k] <= lengths[cell] + 1
    requires forall k :: k in lengths' && k !in lengths ==> lengths'[k] == lengths[cell] + 1
    requires Covered(g, cell, Candidates(cell, Bounds(g)), |Candidates(cell, Bounds(g))|, lengths')
    ensures Closed(g, lengths', cell)
  {
    var cands := Candidates(cell, Bounds(g));
    forall c | c in cands && CanStep(g, cell, c) ensures c in lengths' && lengths'[c] <= lengths'[cell] + 1 {
      var j :| 0 <= j < |cands| && cands[j] == c;
    }
  }

  /** Every position off the queue after the expansion of `cell` is closed. */
  lemma VisitProcessed(g: Grid, lengths: map<Coords, nat>, lengths': map<Coords, nat>,
                       queue: seq<Coords>, queue': seq<Coords>, level: nat, cell: Coords)
    requires WellFormed(g) && cell in lengths && lengths[cell] == level
    requires ProcessedClosed(g, lengths, [cell] + queue, level) && Extends(lengths, lengths')
    requires Closed(g, lengths', cell)
    requires |queue'| >= |queue| && queue'[..|queue|] == queue
    requires forall k :: k in lengths' && k !in lengths ==> k in queue'
    ensures ProcessedClosed(g, lengths', queue', level)
  {
    forall k | k in lengths' && k !in queue' ensures lengths'[k] <= level && Closed(g, lengths', k) {
      assert k in lengths;
      assert k !in queue;
      if k != cell {
        assert k !in [cell] + queue;
        ClosedExtends(g, lengths, lengths', k);
      }
    }
  }

  /** Expanding the dequeued `cell` at its own level re-establishes the loop invariant. */
  lemma VisitPreserves(g: Grid, from: Coords, lengths: map<Coords, nat>, lengths': map<Coords, nat>,
                       parent: map<Coords, Coords>, parent': map<Coords, Coords>,
                       queue: seq<Coords>, queue': seq<Coords>, level: nat, cell: Coords)
    requires WellFormed(g) && InBounds(g, cell)
    requires forall k :: k in lengths ==> InBounds(g, k) && lengths[k] <= level + 1
    requires from in lengths && lengths[from] == 0
    requires Parented(g, from, lengths, parent)
    requires cell in lengths && lengths[cell] == level
    requires QueueOrdered(lengths, queue, level)
    requires ProcessedClosed(g, lengths, [cell] + queue, level)
    requires Visiting(g, cell, Candidates(cell, Bounds(g)), |Candidates(cell, Bounds(g))|, lengths, queue, lengths', queue')
    requires parent' == parent + map k | k in lengths'.Keys - lengths.Keys :: cell
    ensures Expanding(g, from, lengths', parent', queue', level)
  {
    VisitParented(g, from, lengths, lengths', parent, parent', cell);
    VisitQueueOrdered(lengths, lengths', queue, queue', level);
    VisitCellClosed(g, lengths, lengths', cell);
    VisitProcessed(g, lengths, lengths', queue, queue', level, cell);
  }

  /** An exhausted expansion has produced a labelling. */
  lemma ExpansionDone(g: Grid, from: Coords, lengths: map<Coords, nat>, parent: map<Coords, Coords>, level: nat)
    requires WellFormed(g) && Expanding(g, from, lengths, parent, [], level)
    ensures IsLabelling(g, from, lengths)
  {
    forall k | k in lengths && k != from ensures HasPredecessor(g, lengths, k) {
      var p := parent[k];
      assert p in Candidates(k, Bounds(g)) && p in lengths && lengths[p] + 1 == lengths[k] && CanStep(g, p, k);
    }
  }

  /** A sequence that starts with `q` and continues with `a` is `q + a`. */
  lemma Appended<T>(q: seq<T>, q': seq<T>, a: seq<T>)
    requires |q'| >= |q| && q'[..|q|] == q && q'[|q|..] == a
    ensures q' == q + a
  {
    assert q' == q'[..|q|] + q'[|q|..];
  }

  /**
   * One round of the expansion loop (src/lee.rs:18-30): take the head off the
   * queue and visit its neighbours. The wavefront invariant is kept, at the
   * head's level, and the queue grows by exactly the new labels less the head.
   */
  method ExpandHead(grid: Grid, from: Coords, lengths: map<Coords, nat>, ghost parent: map<Coords, Coords>,
                    queue: seq<Coords>, ghost level: nat)
    returns (lengths': map<Coords, nat>, queue': seq<Coords>, ghost parent': map<Coords, Coords>, ghost level': nat)
    requires WellFormed(grid) && |queue| > 0 && Expanding(grid, from, lengths, parent, queue, level)
    ensures Expanding(grid, from, lengths', parent', queue', level')
    ensures |lengths'| - |lengths| == |queue'| - (|queue| - 1)
    ensures Extends(lengths, lengths')
    ensures forall k :: k in lengths' && k !in lengths ==> lengths'[k] == lengths[queue[0]] + 1
    ensures queue' == queue[1..] + Admitted(grid, queue[0], Candidates(queue[0], Bounds(grid)), lengths)
  {
    PopPreserves(grid, from, lengths, parent, queue, level);
    var cell := queue[0];
    var rest := queue[1..];
    level' := lengths[cell];
    CandidatesSound(cell, Bounds(grid));
    lengths', queue' := VisitNeighbours(grid, cell, Candidates(cell, Bounds(grid)), lengths, rest);
    parent' := parent + map k | k in lengths'.Keys - lengths.Keys :: cell;
    VisitPreserves(grid, from, lengths, lengths', parent, parent', rest, queue', level', cell);
    Appended(rest, queue', Admitted(grid, cell, Candidates(cell, Bounds(grid)), lengths));
  }

  /**
   * Labels, breadth first, every position reachable from `from` by allowed
   * moves; runs until the queue is empty (it does not stop at any destination).
   */
  method Wavefront(grid: Grid, from: Coords) returns (lengths: map<Coords, nat>)
    requires WellFormed(grid) && InBounds(grid, from)
    ensures IsLabelling(grid, from, lengths)
  {
    var queue := [from];
    lengths := map[from := 0];
    ghost var level: nat := 0;
    ghost var parent: map<Coords, Coords> := map[];
    while |queue| > 0
      invariant Expanding(grid, from, lengths, parent, queue, level)
      decreases |Cells(grid)| - |lengths| + |queue|
    {
      LabelsWithinGrid(grid, lengths);
      lengths, queue, parent, level := ExpandHead(grid, from, lengths, parent, queue, level);
      LabelsWithinGrid(grid, lengths);
    }
    ExpansionDone(grid, from, lengths, parent, level);
  }

  // ---------------------------------------------------------------------------
  // Walking the labels back (src/lee.rs:33-56).

  /** `c` carries label `d` (an unlabelled position never matches). */
  predicate LabelledWith(m: map<Coords, nat>, c: Coords, d: int) {
    c in m && m[c] == d
  }

  /** The first element of `cands` labelled `d`: the `find` of the backtrace. */
  function FirstLabelled(cands: seq<Coords>, m: map<Coords, nat>, d: int): (r: Option<Coords>)
    ensures r.Some? ==> r.value in cands && LabelledWith(m, r.value, d)
  {
    if |cands| == 0 then None
    else if LabelledWith(m, cands[0], d) then Some(cands[0])
    else FirstLabelled(cands[1..], m, d)
  }

  /** `find` succeeds whenever some element is labelled `d`. */
  lemma {:induction false} FirstLabelledFinds(cands: seq<Coords>, m: map<Coords, nat>, d: int, c: Coords)
    requires c in cands && LabelledWith(m, c, d)
    ensures FirstLabelled(cands, m, d).Some?
  {
    if cands[0] != c {
      FirstLabelledFinds(cands[1..], m, d, c);
    }
  }

  /** `find` fails only when no element is labelled `d`, and otherwise every earlier element is not. */
  lemma {:induction false} FirstLabelledIsFirst(cands: seq<Coords>, m: map<Coords, nat>, d: int)
    ensures FirstLabelled(cands, m, d).None? <==> forall c :: c in cands ==> !LabelledWith(m, c, d)
    ensures FirstLabelled(cands, m, d).Some? ==>
      exists i :: 0 <= i < |cands| && cands[i] == FirstLabelled(cands, m, d).value
        && forall j :: 0 <= j < i ==> !LabelledWith(m, cands[j], d)
  {
    if |cands| > 0 && !LabelledWith(m, cands[0], d) {
      var rest := cands[1..];
      FirstLabelledIsFirst(rest, m, d);
      assert cands == [cands[0]] + rest;
      var r := FirstLabelled(rest, m, d);
      if r.Some? {
        var i :| 0 <= i < |rest| && rest[i] == r.value && forall j :: 0 <= j < i ==> !LabelledWith(m, rest[j], d);
        assert cands[i + 1] == r.value;
        forall j | 0 <= j < i + 1 ensures !LabelledWith(m, cands[j], d) {
          if j > 0 {
            assert cands[j] == rest[j - 1];
          }
        }
      }
    } else if |cands| > 0 {
      assert cands[0] == FirstLabelled(cands, m, d).value;
    }
  }

  /** The elements of `s` in the opposite order. */
  function Reverse<T>(s: seq<T>): (r: seq<T>)
    ensures |r| == |s|
    ensures forall i :: 0 <= i < |s| ==> r[i] == s[|s| - 1 - i]
  {
    if |s| == 0 then [] else Reverse(s[1..]) + [s[0]]
  }

  /** What the backtrace needs of a labelling: the source labelled 0 and every other label justified. */
  ghost predicate Traceable(g: Grid, from: Coords, m: map<Coords, nat>)
    requires WellFormed(g)
  {
    && from in m && m[from] == 0
    && (forall k {:trigger HasPredecessor(g, m, k)} :: k in m && k != from ==> HasPredecessor(g, m, k))
  }

  /** Every labelled position other than the source has a neighbour labelled one less; the backtrace finds the first. */
  lemma PredecessorFound(g: Grid, from: Coords, m: map<Coords, nat>, k: Coords) returns (p: Coords)
    requires WellFormed(g) && Traceable(g, from, m) && k in m && k != from
    ensures m[k] >= 1 && FirstLabelled(Candidates(k, Bounds(g)), m, m[k] - 1) == Some(p)
    ensures p in m && m[p] + 1 == m[k] && FirstBack(g, m, k, p)
  {
    assert HasPredecessor(g, m, k);
    var cands := Candidates(k, Bounds(g));
    var q :| q in cands && q in m && m[q] + 1 == m[k] && CanStep(g, q, k);
    FirstLabelledFinds(cands, m, m[k] - 1, q);
    p := FirstLabelled(cands, m, m[k] - 1).value;
  }

  /** `p` is the first neighbour of labelled `k`, in candidate order, whose label is one less. */
  predicate FirstBack(g: Grid, m: map<Coords, nat>, k: Coords, p: Coords)
    requires WellFormed(g)
  {
    k in m && FirstLabelled(Candidates(k, Bounds(g)), m, m[k] as int - 1) == Some(p)
  }

  /**
   * A backtrace of labelling `m` from `from` to `to`: position `i` carries label
   * `i`, and each position is the first neighbour, in candidate order, of the
   * next one that carries the label one less.
   */
  ghost predicate IsBacktrace(g: Grid, from: Coords, to: Coords, m: map<Coords, nat>, path: seq<Coords>)
    requires WellFormed(g)
  {
    && |path| > 0 && path[0] == from && path[|path| - 1] == to
    && (forall i :: 0 <= i < |path| ==> LabelledWith(m, path[i], i))
    && (forall i, j {:trigger FirstBack(g, m, path[j], path[i])} ::
          0 <= i && j == i + 1 && j < |path| ==> FirstBack(g, m, path[j], path[i]))
  }

  /**
   * A backtrace is a chain of orthogonal neighbours whose labels go up by one
   * at each position, ending at the label of `to`.
   */
  lemma BacktraceShape(g: Grid, from: Coords, to: Coords, m: map<Coords, nat>, path: seq<Coords>)
    requires WellFormed(g) && IsBacktrace(g, from, to, m, path)
    ensures to in m && |path| == m[to] + 1
    ensures forall i, j :: 0 <= i && j == i + 1 && j < |path| ==>
      Adjacent(path[i], path[j]) && path[j] in m && m[path[j]] == m[path[i]] + 1
  {
    assert LabelledWith(m, path[|path| - 1], |path| - 1);
    forall i, j | 0 <= i && j == i + 1 && j < |path|
      ensures Adjacent(path[i], path[j]) && path[j] in m && m[path[j]] == m[path[i]] + 1
    {
      assert FirstBack(g, m, path[j], path[i]);
      CandidatesSound(path[j], Bounds(g));
      assert LabelledWith(m, path[i], i) && LabelledWith(m, path[j], j);
    }
  }

  /**
   * The positions collected so far by the backtrace, newest last: each one is
   * labelled one less than the one before and is that one's first such neighbour.
   */
  ghost predicate Descending(g: Grid, to: Coords, m: map<Coords, nat>, fullPath: seq<Coords>)
    requires WellFormed(g)
  {
    && |fullPath| > 0 && fullPath[0] == to && to in m
    && (forall i :: 0 <= i < |fullPath| ==> LabelledWith(m, fullPath[i], m[to] - i))
    && (forall i, j {:trigger FirstBack(g, m, fullPath[i], fullPath[j])} ::
          0 <= i && j == i + 1 && j < |fullPath| ==> FirstBack(g, m, fullPath[i], fullPath[j]))
  }

  /** Appending the first neighbour labelled one less keeps the collected positions descending. */
  lemma DescendingStep(g: Grid, to: Coords, m: map<Coords, nat>, fullPath: seq<Coords>, next: Coords)
    requires WellFormed(g) && Descending(g, to, m, fullPath)
    requires FirstBack(g, m, fullPath[|fullPath| - 1], next)
    ensures next in m && m[next] + 1 == m[fullPath[|fullPath| - 1]]
    ensures Descending(g, to, m, fullPath + [next])
  {
    var last := fullPath[|fullPath| - 1];
    assert LabelledWith(m, last, m[to] - (|fullPath| - 1));
    assert LabelledWith(m, next, m[last] - 1);
    var fp := fullPath + [next];
    forall i | 0 <= i < |fp| ensures LabelledWith(m, fp[i], m[to] - i) {
      if i < |fullPath| {
        assert fp[i] == fullPath[i];
      }
    }
    forall i, j | 0 <= i && j == i + 1 && j < |fp| ensures FirstBack(g, m, fp[i], fp[j]) {
      assert fp[i] == fullPath[i];
      if j < |fullPath| {
        assert fp[j] == fullPath[j];
        assert FirstBack(g, m, fullPath[i], fullPath[j]);
      }
    }
  }

  /** Collected positions that have reached `from`, reversed, are a backtrace of the labelling. */
  lemma DescendingReversed(g: Grid, from: Coords, to: Coords, m: map<Coords, nat>, fullPath: seq<Coords>)
    requires WellFormed(g) && from in m && m[from] == 0 && Descending(g, to, m, fullPath)
    requires fullPath[|fullPath| - 1] == from
    ensures IsBacktrace(g, from, to, m, Reverse(fullPath)) && |fullPath| == m[to] + 1
  {
    var path := Reverse(fullPath);
    assert LabelledWith(m, fullPath[|fullPath| - 1], m[to] - (|fullPath| - 1));
    forall i | 0 <= i < |path| ensures LabelledWith(m, path[i], i) {
      assert path[i] == fullPath[|fullPath| - 1 - i];
    }
    forall i, j | 0 <= i && j == i + 1 && j < |path| ensures FirstBack(g, m, path[j], path[i]) {
      var k := |fullPath| - 1 - j;
      assert path[j] == fullPath[k] && path[i] == fullPath[k + 1];
      assert FirstBack(g, m, fullPath[k], fullPath[k + 1]);
    }
  }

  /**
   * Starting at `to`, repeatedly steps to the first neighbour labelled one less
   * until `from` is reached, then reverses the collected positions.
   */
  method TraceBack(grid: Grid, from: Coords, to: Coords, lengths: map<Coords, nat>) returns (path: seq<Coords>)
    requires WellFormed(grid) && Traceable(grid, from, lengths) && to in lengths
    ensures IsBacktrace(grid, from, to, lengths, path)
    ensures |path| == lengths[to] + 1
  {
    var max := Bounds(grid);
    var fullPath := [to];
    while fullPath[|fullPath| - 1] != from
      invariant Descending(grid, to, lengths, fullPath)
      decreases lengths[fullPath[|fullPath| - 1]]
    {
      var lastCell := fullPath[|fullPath| - 1];
      var lastCellLength := lengths[lastCell];
      ghost var predecessor := PredecessorFound(grid, from, lengths, lastCell);
      var nextCell := FirstLabelled(Candidates(lastCell, max), lengths, lastCellLength - 1).value;
      DescendingStep(grid, to, lengths, fullPath, predecessor);
      fullPath := fullPath + [nextCell];
    }
    DescendingReversed(grid, from, to, lengths, fullPath);
    path := Reverse(fullPath);
  }

  /**
   * The wavefront search: `None` when `to` cannot be reached from `from`, and
   * otherwise the backtrace of the labelling, which is a shortest walk's length.
   */
  method Lee(grid: Grid, from: Coords, to: Coords) returns (path: Option<seq<Coords>>, ghost lengths: map<Coords, nat>)
    requires WellFormed(grid) && InBounds(grid, from)
    ensures IsLabelling(grid, from, lengths)
    ensures path.None? <==> !Reachable(grid, from, to)
    ensures path.Some? ==> IsBacktrace(grid, from, to, lengths, path.value)
    ensures path.Some? ==> IsDistance(grid, from, to, |path.value| - 1)
  {
    var labels := Wavefront(grid, from);
    lengths := labels;
    LabelIsDistance(grid, from, labels, to);
    if to !in labels {
      return None, lengths;
    }
    var fullPath := TraceBack(grid, from, to, labels);
    path := Some(fullPath);
  }
}
