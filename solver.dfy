/**
 * The puzzle driver of src/main.rs: assembling the grid from the parsed
 * lines, and the outer search that moves the wanted data from node to node,
 * each move paid for by a wavefront search that brings the hole alongside.
 */
module Solver {
  import opened Wrappers
  import opened Types
  import opened Lee

  // ---------------------------------------------------------------------------
  // Grid assembly (src/main.rs:20-52).

  function Max(a: nat, b: nat): nat {
    if a < b then b else a
  }

  /** The fold over the parsed lines: the largest `x` and the largest `y` seen, from `(0, 0)`. */
  function MaxCoords(raw: seq<Entry>): Coords
  {
    if |raw| == 0 then (0, 0)
    else
      var m := MaxCoords(raw[..|raw| - 1]);
      var e := raw[|raw| - 1];
      (Max(e.0, m.0), Max(e.1, m.1))
  }

  /** The position an input line describes. */
  function Position(e: Entry): Coords {
    (e.0, e.1)
  }

  /**
   * The fold's result bounds every line's coordinates and is the least such
   * bound: each component is 0 or taken from some line.
   */
  lemma {:induction false} MaxCoordsBounds(raw: seq<Entry>)
    ensures forall i :: 0 <= i < |raw| ==> raw[i].0 <= MaxCoords(raw).0 && raw[i].1 <= MaxCoords(raw).1
    ensures MaxCoords(raw).0 == 0 || exists i :: 0 <= i < |raw| && raw[i].0 == MaxCoords(raw).0
    ensures MaxCoords(raw).1 == 0 || exists i :: 0 <= i < |raw| && raw[i].1 == MaxCoords(raw).1
  {
    if |raw| > 0 {
      var init := raw[..|raw| - 1];
      MaxCoordsBounds(init);
      assert forall i :: 0 <= i < |init| ==> init[i] == raw[i];
    }
  }

  /** The figures of the last line at position `k`, if any line names it. */
  function LastAt(raw: seq<Entry>, k: Coords): Option<Cell>
  {
    if |raw| == 0 then None
    else if Position(raw[|raw| - 1]) == k then Some(raw[|raw| - 1].2)
    else LastAt(raw[..|raw| - 1], k)
  }

  /** Line `i` is the last one naming its position. */
  ghost predicate LastOfPosition(raw: seq<Entry>, i: int)
    requires 0 <= i < |raw|
  {
    forall j :: i < j < |raw| ==> Position(raw[j]) != Position(raw[i])
  }

  /**
   * `LastAt` finds the figures of the last line naming `k`, and nothing when
   * no line does.
   */
  lemma {:induction false} LastAtIsLast(raw: seq<Entry>, k: Coords)
    ensures LastAt(raw, k).None? <==> forall i :: 0 <= i < |raw| ==> Position(raw[i]) != k
    ensures LastAt(raw, k).Some? ==>
      exists i :: 0 <= i < |raw| && Position(raw[i]) == k && raw[i].2 == LastAt(raw, k).value && LastOfPosition(raw, i)
  {
    if |raw| > 0 && Position(raw[|raw| - 1]) != k {
      var init := raw[..|raw| - 1];
      LastAtIsLast(init, k);
      assert forall i :: 0 <= i < |init| ==> init[i] == raw[i];
      if LastAt(init, k).Some? {
        var i :| 0 <= i < |init| && Position(init[i]) == k && init[i].2 == LastAt(init, k).value && LastOfPosition(init, i);
        assert LastOfPosition(raw, i);
      }
    } else if |raw| > 0 {
      assert LastOfPosition(raw, |raw| - 1);
    }
  }

  /** The position of the last line whose node holds no data, or `(0, 0)` when none does. */
  function LastEmpty(raw: seq<Entry>): Coords
  {
    if |raw| == 0 then (0, 0)
    else if raw[|raw| - 1].2.used == 0 then Position(raw[|raw| - 1])
    else LastEmpty(raw[..|raw| - 1])
  }

  /** `LastEmpty` names the last empty node, and falls back to `(0, 0)` only when there is none. */
  lemma {:induction false} LastEmptyIsLast(raw: seq<Entry>)
    ensures (forall i :: 0 <= i < |raw| ==> raw[i].2.used != 0) ==> LastEmpty(raw) == (0, 0)
    ensures (exists i :: 0 <= i < |raw| && raw[i].2.used == 0) ==>
      exists i :: 0 <= i < |raw| && raw[i].2.used == 0 && Position(raw[i]) == LastEmpty(raw)
        && forall j :: i < j < |raw| ==> raw[j].2.used != 0
  {
    if |raw| > 0 && raw[|raw| - 1].2.used != 0 {
      var init := raw[..|raw| - 1];
      LastEmptyIsLast(init);
      assert forall i :: 0 <= i < |init| ==> init[i] == raw[i];
      if exists i :: 0 <= i < |raw| && raw[i].2.used == 0 {
        var i :| 0 <= i < |raw| && raw[i].2.used == 0;
        assert init[i].2.used == 0;
      }
    }
  }

  /**
   * Builds a grid of (largest y + 1) rows of (largest x + 1) nodes, fills it
   * line by line so that a later line for the same position wins, leaves the
   * positions no line names vacant, and remembers the last empty node.
   */
  method TransformToGrid(raw: seq<Entry>) returns (grid: Grid, empty: Coords)
    ensures WellFormed(grid) && Bounds(grid) == MaxCoords(raw)
    ensures forall i :: 0 <= i < |raw| ==> InBounds(grid, Position(raw[i]))
    ensures forall k :: InBounds(grid, k) ==> At(grid, k) == LastAt(raw, k).GetOr(Vacant)
    ensures empty == LastEmpty(raw)
  {
    var max := MaxCoords(raw);
    MaxCoordsBounds(raw);
    grid := seq(max.1 + 1, _ => seq(max.0 + 1, _ => Vacant));
    empty := (0, 0);
    for i := 0 to |raw|
      invariant WellFormed(grid) && Bounds(grid) == max
      invariant forall k :: InBounds(grid, k) ==> At(grid, k) == LastAt(raw[..i], k).GetOr(Vacant)
      invariant empty == LastEmpty(raw[..i])
    {
      var (x, y, rawCell) := raw[i];
      assert raw[..i + 1][..i] == raw[..i];
      if rawCell.used == 0 {
        empty := (x, y);
      }
      grid := grid[y := grid[y][x := rawCell]];
    }
    assert raw[..|raw|] == raw;
  }

  // ---------------------------------------------------------------------------
  // The outer search (src/main.rs:54-104).

  /**
   * The grid the wavefront runs on when the data leaves `cell`: a copy of the
   * caller's grid in which only that node is vacated.
   */
  function Vacate(grid: Grid, cell: Coords): (r: Grid)
    requires WellFormed(grid) && InBounds(grid, cell)
    ensures WellFormed(r) && Bounds(r) == Bounds(grid)
    ensures forall k :: InBounds(r, k) <==> InBounds(grid, k)
    ensures forall k :: InBounds(grid, k) ==> At(r, k) == if k == cell then Vacant else At(grid, k)
  {
    grid[cell.1 := grid[cell.1][cell.0 := Vacant]]
  }

  /**
   * Moving the data from `cell` into `c` with the hole at `hole` is written as
   * `v` into a table holding `table`: the move passes the capacity rule, the
   * guard `minPath + 1 < old` (a missing entry counts as infinite), the hole can
   * reach `c` on the grid with `cell` vacated, `v` is `minPath` plus that
   * shortest walk's number of positions, and any old entry is below `v`.
   */
  ghost predicate Writes(grid: Grid, cell: Coords, hole: Coords, minPath: nat,
                         table: map<Coords, nat>, c: Coords, v: nat)
    requires WellFormed(grid) && InBounds(grid, cell)
  {
    && CanStep(grid, cell, c)
    && (c in table ==> minPath + 1 < table[c])
    && (exists n :: IsDistance(Vacate(grid, cell), hole, c, n) && v == minPath + n + 1)
    && (c in table ==> table[c] < v)
  }

  /** A written value is fixed by the hole's distance. */
  lemma WrittenValue(grid: Grid, cell: Coords, hole: Coords, minPath: nat,
                     table: map<Coords, nat>, c: Coords, n: nat, v: nat)
    requires WellFormed(grid) && InBounds(grid, cell)
    requires IsDistance(Vacate(grid, cell), hole, c, n) && Writes(grid, cell, hole, minPath, table, c, v)
    ensures v == minPath + n + 1
  {
    var g := Vacate(grid, cell);
    var n' :| IsDistance(g, hole, c, n') && v == minPath + n' + 1;
    DistanceUnique(g, hole, c, n, n');
  }

  /** `k` has the same entry, or the same absence of one, in both tables. */
  predicate SameEntry(t: map<Coords, nat>, t': map<Coords, nat>, k: Coords) {
    (k in t <==> k in t') && (k in t ==> t[k] == t'[k])
  }

  /**
   * What the table says about candidate `c` after its turn: the value written
   * when the move is written, and otherwise the entry as it was.
   */
  ghost predicate Decided(grid: Grid, cell: Coords, hole: Coords, minPath: nat,
                          table: map<Coords, nat>, c: Coords, table': map<Coords, nat>)
    requires WellFormed(grid) && InBounds(grid, cell)
  {
    if exists v :: Writes(grid, cell, hole, minPath, table, c, v)
    then c in table' && Writes(grid, cell, hole, minPath, table, c, table'[c])
    else SameEntry(table, table', c)
  }

  /**
   * One turn of the per-candidate closure (src/main.rs:73-98) for a candidate
   * that passed the capacity filter: run the wavefront from the hole on the
   * vacated copy and, when it succeeds and the old entry is smaller, write the
   * new cost and push the state with the vacated node as the new hole.
   */
  method ConsiderCandidate(grid: Grid, cell: Coords, hole: Coords, minPath: nat, c: Coords,
                           table: map<Coords, nat>, queue: seq<(Coords, Coords)>)
    returns (table': map<Coords, nat>, queue': seq<(Coords, Coords)>)
    requires WellFormed(grid) && InBounds(grid, cell) && InBounds(grid, hole)
    requires CanStep(grid, cell, c)
    ensures Decided(grid, cell, hole, minPath, table, c, table')
    ensures forall k :: k != c ==> SameEntry(table, table', k)
    ensures queue' == if SameEntry(table, table', c) then queue else [(c, cell)] + queue
  {
    table', queue' := table, queue;
    if c !in table || minPath + 1 < table[c] {
      var vacated := Vacate(grid, cell);
      var path;
      ghost var lengths;
      path, lengths := Lee.Lee(vacated, hole, c);
      if path.Some? {
        var v := minPath + |path.value|;
        forall v' | Writes(grid, cell, hole, minPath, table, c, v') ensures v' == v {
          WrittenValue(grid, cell, hole, minPath, table, c, |path.value| - 1, v');
        }
        if c !in table || table[c] < v {
          assert Writes(grid, cell, hole, minPath, table, c, v);
          table', queue' := table[c := v], [(c, cell)] + queue;
        }
      } else {
        assert forall v :: !Writes(grid, cell, hole, minPath, table, c, v);
      }
    }
  }

  /** Which candidate's entry `t'` leaves as `t` had it does not depend on the other entries. */
  lemma DecidedFrame(grid: Grid, cell: Coords, hole: Coords, minPath: nat, c: Coords,
                     t1: map<Coords, nat>, t2: map<Coords, nat>, t': map<Coords, nat>)
    requires WellFormed(grid) && InBounds(grid, cell) && SameEntry(t1, t2, c)
    ensures Decided(grid, cell, hole, minPath, t1, c, t') <==> Decided(grid, cell, hole, minPath, t2, c, t')
  {
    forall v ensures Writes(grid, cell, hole, minPath, t1, c, v) <==> Writes(grid, cell, hole, minPath, t2, c, v) {
    }
  }

  /** The states pushed for the candidates in `cands`, newest first: one per candidate whose entry changed. */
  ghost function Pushed(cands: seq<Coords>, cell: Coords, t: map<Coords, nat>, t': map<Coords, nat>): seq<(Coords, Coords)>
  {
    if |cands| == 0 then []
    else
      var c := cands[|cands| - 1];
      (if SameEntry(t, t', c) then [] else [(c, cell)]) + Pushed(cands[..|cands| - 1], cell, t, t')
  }

  lemma {:induction false} PushedFrame(cands: seq<Coords>, cell: Coords, t: map<Coords, nat>,
                                       t1: map<Coords, nat>, t2: map<Coords, nat>)
    requires forall c :: c in cands ==> (SameEntry(t, t1, c) <==> SameEntry(t, t2, c))
    ensures Pushed(cands, cell, t, t1) == Pushed(cands, cell, t, t2)
  {
    if |cands| > 0 {
      PushedFrame(cands[..|cands| - 1], cell, t, t1, t2);
    }
  }

  /** Each pushed state is a changed candidate with `cell` as its hole, and every changed candidate is pushed. */
  lemma {:induction false} PushedStates(cands: seq<Coords>, cell: Coords, t: map<Coords, nat>, t': map<Coords, nat>)
    ensures forall q :: q in Pushed(cands, cell, t, t') ==> q.1 == cell && q.0 in cands && !SameEntry(t, t', q.0)
    ensures forall c :: c in cands && !SameEntry(t, t', c) ==> (c, cell) in Pushed(cands, cell, t, t')
  {
    if |cands| > 0 {
      var init := cands[..|cands| - 1];
      PushedStates(init, cell, t, t');
      assert cands == init + [cands[|cands| - 1]];
    }
  }

  /**
   * The first `i` candidates have had their turn: each one's entry ends as
   * `Decided` says, no other entry changed, and the queue gained one state per
   * changed entry at its front.
   */
  ghost predicate ExpandedUpTo(grid: Grid, cell: Coords, hole: Coords, minPath: nat, candidates: seq<Coords>, i: nat,
                               table: map<Coords, nat>, queue: seq<(Coords, Coords)>,
                               table': map<Coords, nat>, queue': seq<(Coords, Coords)>)
    requires WellFormed(grid) && InBounds(grid, cell) && i <= |candidates|
  {
    && (forall c :: c in candidates[..i] ==> Decided(grid, cell, hole, minPath, table, c, table'))
    && (forall k :: k !in candidates[..i] ==> SameEntry(table, table', k))
    && queue' == Pushed(candidates[..i], cell, table, table') + queue
  }

  /** After the turn of `c`, the candidates before it and `c` itself are decided. */
  lemma TurnDecided(grid: Grid, cell: Coords, hole: Coords, minPath: nat, done: seq<Coords>, c: Coords,
                    table: map<Coords, nat>, table': map<Coords, nat>, table'': map<Coords, nat>)
    requires WellFormed(grid) && InBounds(grid, cell) && c !in done
    requires forall c' :: c' in done ==> Decided(grid, cell, hole, minPath, table, c', table')
    requires SameEntry(table, table', c) && Decided(grid, cell, hole, minPath, table', c, table'')
    requires forall k :: k != c ==> SameEntry(table', table'', k)
    ensures forall c' :: c' in done + [c] ==> Decided(grid, cell, hole, minPath, table, c', table'')
  {
    DecidedFrame(grid, cell, hole, minPath, c, table, table', table'');
    forall c' | c' in done ensures Decided(grid, cell, hole, minPath, table, c', table'') {
      assert Decided(grid, cell, hole, minPath, table, c', table');
      assert SameEntry(table', table'', c');
    }
  }

  /** After the turn of `c`, the queue holds one pushed state per changed entry among the candidates so far. */
  lemma TurnQueue(cell: Coords, done: seq<Coords>, c: Coords,
                  table: map<Coords, nat>, queue: seq<(Coords, Coords)>,
                  table': map<Coords, nat>, queue': seq<(Coords, Coords)>,
                  table'': map<Coords, nat>, queue'': seq<(Coords, Coords)>)
    requires c !in done && SameEntry(table, table', c)
    requires forall k :: k != c ==> SameEntry(table', table'', k)
    requires queue' == Pushed(done, cell, table, table') + queue
    requires queue'' == if SameEntry(table', table'', c) then queue' else [(c, cell)] + queue'
    ensures queue'' == Pushed(done + [c], cell, table, table'') + queue
  {
    var cs := done + [c];
    assert cs[|cs| - 1] == c && cs[..|cs| - 1] == done;
    forall c' | c' in done ensures SameEntry(table, table', c') <==> SameEntry(table, table'', c') {
      assert SameEntry(table', table'', c');
    }
    PushedFrame(done, cell, table, table', table'');
    assert SameEntry(table, table'', c) <==> SameEntry(table', table'', c);
  }

  /** A turn that decides candidate `i` and leaves every other entry extends the expansion by one candidate. */
  lemma TurnPreserves(grid: Grid, cell: Coords, hole: Coords, minPath: nat, candidates: seq<Coords>, i: nat,
                      table: map<Coords, nat>, queue: seq<(Coords, Coords)>,
                      table': map<Coords, nat>, queue': seq<(Coords, Coords)>,
                      table'': map<Coords, nat>, queue'': seq<(Coords, Coords)>)
    requires WellFormed(grid) && InBounds(grid, cell)
    requires i < |candidates| && candidates[i] !in candidates[..i]
    requires ExpandedUpTo(grid, cell, hole, minPath, candidates, i, table, queue, table', queue')
    requires Decided(grid, cell, hole, minPath, table', candidates[i], table'')
    requires forall k :: k != candidates[i] ==> SameEntry(table', table'', k)
    requires queue'' == if SameEntry(table', table'', candidates[i]) then queue' else [(candidates[i], cell)] + queue'
    ensures ExpandedUpTo(grid, cell, hole, minPath, candidates, i + 1, table, queue, table'', queue'')
  {
    var done, c := candidates[..i], candidates[i];
    assert candidates[..i + 1] == done + [c];
    assert SameEntry(table, table', c);
    TurnDecided(grid, cell, hole, minPath, done, c, table, table', table'');
    TurnQueue(cell, done, c, table, queue, table', queue', table'', queue'');
    forall k | k !in done + [c] ensures SameEntry(table, table'', k) {
      assert SameEntry(table, table', k) && SameEntry(table', table'', k);
    }
  }

  /** The turn of candidate `i`: the capacity filter, then the closure when it passes. */
  method TakeTurn(grid: Grid, cell: Coords, hole: Coords, minPath: nat, candidates: seq<Coords>, i: nat,
                  ghost table: map<Coords, nat>, ghost queue: seq<(Coords, Coords)>,
                  table': map<Coords, nat>, queue': seq<(Coords, Coords)>)
    returns (table'': map<Coords, nat>, queue'': seq<(Coords, Coords)>)
    requires WellFormed(grid) && InBounds(grid, cell) && InBounds(grid, hole)
    requires i < |candidates| && InBounds(grid, candidates[i]) && candidates[i] !in candidates[..i]
    requires ExpandedUpTo(grid, cell, hole, minPath, candidates, i, table, queue, table', queue')
    ensures ExpandedUpTo(grid, cell, hole, minPath, candidates, i + 1, table, queue, table'', queue'')
  {
    var c := candidates[i];
    if grid[c.1][c.0].used <= grid[cell.1][cell.0].size {
      table'', queue'' := ConsiderCandidate(grid, cell, hole, minPath, c, table', queue');
    } else {
      table'', queue'' := table', queue';
      assert forall v :: !Writes(grid, cell, hole, minPath, table', c, v);
    }
    TurnPreserves(grid, cell, hole, minPath, candidates, i, table, queue, table', queue', table'', queue'');
  }

  /**
   * The expansion of one popped state (src/main.rs:71-99): every candidate that
   * passes the capacity filter gets its turn, in candidate order. Each
   * candidate's entry ends as `Decided` says, no other entry changes, and the
   * queue gains one state per changed entry at its front.
   */
  method ExpandState(grid: Grid, cell: Coords, hole: Coords, minPath: nat, candidates: seq<Coords>,
                     table: map<Coords, nat>, queue: seq<(Coords, Coords)>)
    returns (table': map<Coords, nat>, queue': seq<(Coords, Coords)>)
    requires WellFormed(grid) && InBounds(grid, cell) && InBounds(grid, hole)
    requires forall c :: c in candidates ==> InBounds(grid, c)
    requires forall i, j :: 0 <= i < j < |candidates| ==> candidates[i] != candidates[j]
    ensures forall c :: c in candidates ==> Decided(grid, cell, hole, minPath, table, c, table')
    ensures forall k :: k !in candidates ==> SameEntry(table, table', k)
    ensures queue' == Pushed(candidates, cell, table, table') + queue
  {
    table', queue' := table, queue;
    for i := 0 to |candidates|
      invariant ExpandedUpTo(grid, cell, hole, minPath, candidates, i, table, queue, table', queue')
    {
      assert candidates[i] in candidates;
      table', queue' := TakeTurn(grid, cell, hole, minPath, candidates, i, table, queue, table', queue');
    }
    assert candidates[..|candidates|] == candidates;
  }

  function Gap(a: nat, b: nat): nat {
    if a < b then b - a else a - b
  }

  /** The number of orthogonal moves between `a` and `b` on an empty plane. */
  function Manhattan(a: Coords, b: Coords): nat {
    Gap(a.0, b.0) + Gap(a.1, b.1)
  }

  /** One orthogonal move changes the distance from any fixed position by at most one. */
  lemma ManhattanStep(s: Coords, a: Coords, b: Coords)
    requires Adjacent(a, b)
    ensures Manhattan(s, b) <= Manhattan(s, a) + 1
  {
  }

  /**
   * What the outer loop keeps: the start is entered with cost 0; every entered
   * position is inside the grid and costs at least its Manhattan distance from
   * the start; every queued state's data position is entered, its hole is
   * inside the grid, and apart from the initial state the hole is next to the data.
   */
  ghost predicate Explored(grid: Grid, start: Coords, empty: Coords, dp: map<Coords, nat>, queue: seq<(Coords, Coords)>)
  {
    && start in dp && dp[start] == 0
    && (forall k :: k in dp ==> InBounds(grid, k) && Manhattan(start, k) <= dp[k])
    && (forall q :: q in queue ==> q.0 in dp && InBounds(grid, q.1) && (q == (start, empty) || Adjacent(q.0, q.1)))
  }

  /** Every entry an expansion writes costs more than the popped state's entry. */
  lemma WrittenAbove(grid: Grid, cell: Coords, hole: Coords, minPath: nat,
                     dp: map<Coords, nat>, c: Coords, dp': map<Coords, nat>)
    requires WellFormed(grid) && InBounds(grid, cell)
    requires Decided(grid, cell, hole, minPath, dp, c, dp') && !SameEntry(dp, dp', c)
    ensures c in dp' && minPath < dp'[c]
    ensures c in dp ==> dp[c] < dp'[c]
  {
  }

  /**
   * An expansion removes no entry, leaves the start at 0, and every entry it
   * writes is inside the grid and at least its Manhattan distance from the start.
   */
  lemma ExpandTable(grid: Grid, start: Coords, cell: Coords, hole: Coords,
                    dp: map<Coords, nat>, dp': map<Coords, nat>)
    requires WellFormed(grid) && InBounds(grid, cell) && cell in dp
    requires start in dp && dp[start] == 0
    requires forall k :: k in dp ==> InBounds(grid, k) && Manhattan(start, k) <= dp[k]
    requires var cands := Candidates(cell, Bounds(grid));
      && (forall c :: c in cands ==> Decided(grid, cell, hole, dp[cell], dp, c, dp'))
      && (forall k :: k !in cands ==> SameEntry(dp, dp', k))
    ensures start in dp' && dp'[start] == 0
    ensures forall k :: k in dp' ==> InBounds(grid, k) && Manhattan(start, k) <= dp'[k]
    ensures forall k :: k in dp ==> k in dp'
  {
    var cands := Candidates(cell, Bounds(grid));
    CandidatesSound(cell, Bounds(grid));
    if start in cands {
      assert forall v :: !Writes(grid, cell, hole, dp[cell], dp, start, v);
    }
    forall k | k in dp' ensures InBounds(grid, k) && Manhattan(start, k) <= dp'[k] {
      if !SameEntry(dp, dp', k) {
        assert k in cands;
        WrittenAbove(grid, cell, hole, dp[cell], dp, k, dp');
        ManhattanStep(start, cell, k);
      }
    }
    forall k | k in dp ensures k in dp' {
      if !SameEntry(dp, dp', k) {
        assert k in cands;
        WrittenAbove(grid, cell, hole, dp[cell], dp, k, dp');
      }
    }
  }

  /** The states an expansion pushes have entered data positions and the vacated node, next to them, as hole. */
  lemma ExpandQueue(grid: Grid, start: Coords, empty: Coords, cell: Coords, hole: Coords,
                    dp: map<Coords, nat>, rest: seq<(Coords, Coords)>,
                    dp': map<Coords, nat>, queue': seq<(Coords, Coords)>)
    requires WellFormed(grid) && InBounds(grid, cell) && cell in dp
    requires forall q :: q in rest ==> q.0 in dp && InBounds(grid, q.1) && (q == (start, empty) || Adjacent(q.0, q.1))
    requires forall k :: k in dp ==> k in dp'
    requires var cands := Candidates(cell, Bounds(grid));
      && (forall c :: c in cands ==> Decided(grid, cell, hole, dp[cell], dp, c, dp'))
      && queue' == Pushed(cands, cell, dp, dp') + rest
    ensures forall q :: q in queue' ==> q.0 in dp' && InBounds(grid, q.1) && (q == (start, empty) || Adjacent(q.0, q.1))
  {
    var cands := Candidates(cell, Bounds(grid));
    CandidatesSound(cell, Bounds(grid));
    PushedStates(cands, cell, dp, dp');
    forall q | q in queue' ensures q.0 in dp' && InBounds(grid, q.1) && (q == (start, empty) || Adjacent(q.0, q.1)) {
      if q in Pushed(cands, cell, dp, dp') {
        WrittenAbove(grid, cell, hole, dp[cell], dp, q.0, dp');
      } else {
        assert q in rest;
      }
    }
  }

  /** The expansion of a popped state keeps what the outer loop keeps. */
  lemma ExpandPreserves(grid: Grid, start: Coords, empty: Coords, cell: Coords, hole: Coords,
                        dp: map<Coords, nat>, rest: seq<(Coords, Coords)>,
                        dp': map<Coords, nat>, queue': seq<(Coords, Coords)>)
    requires WellFormed(grid) && Explored(grid, start, empty, dp, rest)
    requires cell in dp && InBounds(grid, hole)
    requires var cands := Candidates(cell, Bounds(grid));
      && (forall c :: c in cands ==> Decided(grid, cell, hole, dp[cell], dp, c, dp'))
      && (forall k :: k !in cands ==> SameEntry(dp, dp', k))
      && queue' == Pushed(cands, cell, dp, dp') + rest
    ensures Explored(grid, start, empty, dp', queue')
  {
    ExpandTable(grid, start, cell, hole, dp, dp');
    ExpandQueue(grid, start, empty, cell, hole, dp, rest, dp', queue');
  }

  /** The table of costs and the queue of (data position, hole position) states. */
  type Search = (map<Coords, nat>, seq<(Coords, Coords)>)

  /**
   * One iteration of the outer loop (src/main.rs:65-101): the state at the
   * back of the queue is popped; every candidate of its data position ends as
   * `Decided` says against the table as it was, at the popped position's
   * cost; no other entry changes; and the states pushed for the changed
   * entries go in front of what is left of the queue.
   */
  ghost predicate Step(grid: Grid, s: Search, s': Search)
    requires WellFormed(grid)
  {
    && |s.1| > 0
    && var top := s.1[|s.1| - 1];
    && top.0 in s.0 && InBounds(grid, top.0)
    && var cands := Candidates(top.0, Bounds(grid));
    && (forall c :: c in cands ==> Decided(grid, top.0, top.1, s.0[top.0], s.0, c, s'.0))
    && (forall k :: k !in cands ==> SameEntry(s.0, s'.0, k))
    && s'.1 == Pushed(cands, top.0, s.0, s'.0) + s.1[..|s.1| - 1]
  }

  /** A trace of the outer loop: it starts from `{start: 0}` and the queue `[(start, empty)]`, and each state is a `Step` from the one before. */
  ghost predicate Run(grid: Grid, start: Coords, empty: Coords, trace: seq<Search>)
    requires WellFormed(grid)
  {
    && |trace| > 0
    && trace[0] == (map[start := 0], [(start, empty)])
    && forall i, j :: 0 <= i && j == i + 1 && j < |trace| ==> Step(grid, trace[i], trace[j])
  }

  /** A step appended to a run gives a run. */
  lemma RunExtend(grid: Grid, start: Coords, empty: Coords, trace: seq<Search>, s: Search)
    requires WellFormed(grid) && Run(grid, start, empty, trace) && Step(grid, trace[|trace| - 1], s)
    ensures Run(grid, start, empty, trace + [s])
  {
    var t := trace + [s];
    forall i, j | 0 <= i && j == i + 1 && j < |t| ensures Step(grid, t[i], t[j]) {
      if j < |trace| {
        assert Step(grid, trace[i], trace[j]);
      }
    }
  }

  /** The state after a step is fixed by the state before it: the table by `WrittenValue`, the queue by the table. */
  lemma StepDeterministic(grid: Grid, s: Search, s1: Search, s2: Search)
    requires WellFormed(grid) && Step(grid, s, s1) && Step(grid, s, s2)
    ensures s1 == s2
  {
    var top := s.1[|s.1| - 1];
    var cell, hole := top.0, top.1;
    var cands := Candidates(cell, Bounds(grid));
    var minPath := s.0[cell];
    forall k ensures SameEntry(s1.0, s2.0, k) {
      if k in cands {
        assert Decided(grid, cell, hole, minPath, s.0, k, s1.0);
        assert Decided(grid, cell, hole, minPath, s.0, k, s2.0);
        if exists v :: Writes(grid, cell, hole, minPath, s.0, k, v) {
          var n :| IsDistance(Vacate(grid, cell), hole, k, n) && s1.0[k] == minPath + n + 1;
          WrittenValue(grid, cell, hole, minPath, s.0, k, n, s2.0[k]);
        }
      } else {
        assert SameEntry(s.0, s1.0, k) && SameEntry(s.0, s2.0, k);
      }
    }
    forall k ensures (k in s1.0 <==> k in s2.0) && (k in s1.0 ==> s1.0[k] == s2.0[k]) {
      assert SameEntry(s1.0, s2.0, k);
    }
    assert s1.0 == s2.0;
  }

  /** Two runs from the same start agree state by state, so a run is fixed by its length. */
  lemma {:induction false} RunsAgree(grid: Grid, start: Coords, empty: Coords, t1: seq<Search>, t2: seq<Search>, i: nat)
    requires WellFormed(grid) && Run(grid, start, empty, t1) && Run(grid, start, empty, t2)
    requires i < |t1| && i < |t2|
    ensures t1[i] == t2[i]
  {
    if i > 0 {
      RunsAgree(grid, start, empty, t1, t2, i - 1);
      assert Step(grid, t1[i - 1], t1[i]) && Step(grid, t2[i - 1], t2[i]);
      StepDeterministic(grid, t1[i - 1], t1[i], t2[i]);
    }
  }

  /**
   * One iteration of the outer loop (src/main.rs:65-101): pop the state at the
   * back of the queue and expand it against its data position's cost.
   */
  method NextState(grid: Grid, start: Coords, empty: Coords, dp: map<Coords, nat>, queue: seq<(Coords, Coords)>)
    returns (dp': map<Coords, nat>, queue': seq<(Coords, Coords)>)
    requires WellFormed(grid) && |queue| > 0 && Explored(grid, start, empty, dp, queue)
    ensures Step(grid, (dp, queue), (dp', queue'))
    ensures Explored(grid, start, empty, dp', queue')
  {
    var max := Bounds(grid);
    var (cell, hole) := queue[|queue| - 1];
    assert queue[|queue| - 1] in queue;
    var rest := queue[..|queue| - 1];
    var minPath := dp[cell];
    CandidatesSound(cell, max);
    dp', queue' := ExpandState(grid, cell, hole, minPath, Candidates(cell, max), dp, rest);
    ExpandPreserves(grid, start, empty, cell, hole, dp, rest, dp', queue');
  }

  /** How the outer search ends. */
  datatype Outcome =
    | Moves(count: nat)   // the queue ran dry and the target has an entry
    | Unreached           // the queue ran dry without an entry for the target: the source panics here
    | OutOfFuel           // the step budget ran out with states still queued

  /**
   * The outer search: a FIFO of (data position, hole position) states, fed at
   * the front and drained from the back, and a table of costs per data
   * position, started at `{start: 0}`; at most `fuel` states are expanded.
   * The final table and queue end a `Run` of the loop; the search stops early
   * only when the queue is empty, and it reports running out of fuel exactly
   * when states are still queued.
   */
  method Dp(grid: Grid, empty: Coords, start: Coords, target: Coords, fuel: nat)
    returns (r: Outcome, ghost table: map<Coords, nat>, ghost pending: seq<(Coords, Coords)>, ghost trace: seq<Search>)
    requires WellFormed(grid) && InBounds(grid, empty) && InBounds(grid, start)
    ensures Run(grid, start, empty, trace) && trace[|trace| - 1] == (table, pending)
    ensures |trace| <= fuel + 1 && (|trace| == fuel + 1 || |pending| == 0)
    ensures r.OutOfFuel? <==> |pending| > 0
    ensures r.Moves? <==> |pending| == 0 && target in table
    ensures r.Moves? ==> r.count == table[target]
    ensures start in table && table[start] == 0
    ensures forall k :: k in table ==> InBounds(grid, k) && Manhattan(start, k) <= table[k]
    ensures r.Moves? ==> Manhattan(start, target) <= r.count
    ensures r.Moves? && target == start ==> r.count == 0
    ensures r != Unreached || target != start
  {
    var dp := map[start := 0];
    var queue := [(start, empty)];
    trace := [(dp, queue)];
    var steps := fuel;
    while |queue| > 0 && steps > 0
      invariant Explored(grid, start, empty, dp, queue)
      invariant Run(grid, start, empty, trace) && trace[|trace| - 1] == (dp, queue)
      invariant |trace| + steps == fuel + 1
      decreases steps
    {
      dp, queue := NextState(grid, start, empty, dp, queue);
      RunExtend(grid, start, empty, trace, (dp, queue));
      trace := trace + [(dp, queue)];
      steps := steps - 1;
    }
    table, pending := dp, queue;
    if |queue| > 0 {
      r := OutOfFuel;
    } else if target !in dp {
      r := Unreached;
    } else {
      r := Moves(dp[target]);
    }
  }
}

