# Grid data relocation (Advent of Code 2016, day 22) in Dafny

A model of the puzzle solver for "move the data across a grid of storage
nodes", with proofs about it. The solver has three parts:

- **The wavefront search** (`lee` and `get_candidates`, src/lee.rs), in
  `lee.dfy`. It labels every node the hole can reach from a source node,
  breadth first. A move from `cell` into `candidate` is allowed when
  `candidate.used <= cell.size`. It then walks the labels back from the
  destination and returns the path, or nothing when the destination is not
  labelled. The model keeps the source's two loops: `Wavefront` is the
  queue-driven labelling and `TraceBack` is the backtrace. Both are proved
  against reference definitions: walks of allowed moves, shortest distances,
  and a "labelling" predicate shown to be unique and equal to the distance
  map. `lee_examples.dfy` proves the source's unit tests and a few more
  concrete grids.
- **The outer search and the grid assembly** (`dp` and `transform_to_grid`,
  src/main.rs), in `solver.dfy`.
  - `TransformToGrid` models all of `transform_to_grid`: the fold for the
    largest coordinates, the allocation of a grid of all-zero nodes, and the
    `for_each` that places the parsed nodes into it. It is proved against a fold for the bounds and against
    "the last line for that position" for each node.
  - `Dp` is the state search over (data position, hole position). Each step
    pops from the back of the queue and pushes at the front. For every
    candidate that passes the capacity filter and the `min_path + 1 < old`
    guard, it runs the wavefront search on a copy of the grid with the popped
    node vacated. It writes `min_path + path.len()` when the old entry is
    smaller than that value, exactly as the code compares. `Dp` returns
    a ghost trace of its iterations, each a `Step` (pop the back state,
    decide every candidate, push the changed ones at the front), and
    `StepDeterministic` shows that each step's result is fixed, so the trace
    fixes the table.
- **The listing parser** (src/parser.rs), in `parser.dfy`. It models each nom
  combinator the source uses by what it consumes and when it fails. Inputs
  are `string`s and results are `Option<(rest, value)>`. Each parser is
  proved to read back what a formatter writes, for any run of white space
  between the columns, under these conditions:
  - every figure fits its type: coordinates below 256 (`u8`), sizes below
    2^64 (`u64`);
  - a bare number is read back only when no digit follows it
    (`ParseIntDecimal`);
  - a node name is read back when no digit follows it;
  - a line is read back when it is followed by nothing or by a newline, and
    its last column is non-empty, does not start with white space and holds
    no newline;
  - a listing is read back when nothing, or a single newline, follows its
    last line.

  `parser_examples.dfy` proves the source's parser tests and two malformed
  inputs.

`wrappers.dfy` holds `Option`. `types.dfy` holds `Cell` (src/types.rs), the
coordinate pair and the parsed triple.

Two behaviours of the code are worth knowing:

- The backtrace compares labels only, so a step of a returned path may break
  the capacity rule. `LeeExamples.SqueezeBacktrace` exhibits such a grid.
- An existing entry of the outer search's table is overwritten only when it
  is smaller than the new cost (src/main.rs:91). `Solver.Decided` and
  `Solver.WrittenAbove` state this.

## Model

| member | source | states |
|---|---|---|
| Lee.Candidates | src/lee.rs:59-74 | at most four candidates, never `current` itself; `CandidatesSound` and `CandidatesComplete` characterise the list fully |
| Lee.CandidatesSound | src/lee.rs:59-74 | at most four candidates, each an orthogonal neighbour of `current`, inside the bounds whenever `current` is, listed strictly in the order x-1, x+1, y-1, y+1 |
| Lee.CandidatesComplete | src/lee.rs:59-74 | every orthogonal neighbour inside the bounds is among the candidates |
| Lee.CandidatesSymmetric | src/lee.rs:59-74 | inside a grid, `b` is a candidate of `a` exactly when `a` is a candidate of `b` |
| Lee.ExtendWalk | src/lee.rs:22-27 | a candidate that passes the capacity rule (`used` of the candidate at most `size` of the cell) extends a walk of allowed moves |
| Lee.DistanceUnique | src/lee.rs:7-57 | the shortest walk's length between two nodes is unique, so the search's distance is well defined |
| Lee.LabelBoundsWalk | src/lee.rs:17-31 | under a complete labelling, the end of any walk of allowed moves from the source is labelled, with a label no larger than the walk's moves |
| Lee.PredecessorWalk | src/lee.rs:21-28 | every labelled node is reached from the source by a walk of allowed moves with exactly its label's number of moves |
| Lee.ReachableIsLabelled | src/lee.rs:17-31 | every node reachable from the source gets a label, since the search runs to exhaustion |
| Lee.LabelIsDistance | src/lee.rs:17-35 | a node is labelled exactly when it is reachable, and its label is the length of a shortest walk |
| Lee.LabellingUnique | src/lee.rs:12-31 | two complete labellings from the same source are equal, so the labels depend only on the grid and the source |
| Lee.LabelsWithinGrid | src/lee.rs:25-28 | the label map has at most rows x columns entries, which bounds the loop's measure |
| Lee.Admitted | src/lee.rs:22-29 | the candidates the neighbour loop labels, in candidate order: each one is a candidate, unlabelled beforehand and allowed by the capacity rule |
| Lee.AdmittedStep | src/lee.rs:22-29 | one candidate visited keeps the queue's new part equal to the admitted candidates so far, and every new label among them |
| Lee.VisitStep | src/lee.rs:22-29 | one candidate visited: labelled `cell + 1` and queued exactly when unlabelled and allowed, otherwise nothing changes |
| Lee.VisitNeighbours | src/lee.rs:22-30 | after the candidates of a popped node: old labels are kept, new ones are allowed unlabelled candidates labelled one more, each queued once at the back, and every allowed candidate is labelled; the queue's new part is exactly `Admitted`, in candidate order |
| Lee.PopPreserves | src/lee.rs:17-21 | popping the queue head keeps the queue sorted by label within one level |
| Lee.VisitParented | src/lee.rs:25-28 | every newly labelled node has an allowed neighbour labelled one less |
| Lee.VisitQueueOrdered | src/lee.rs:27 | pushing nodes labelled one above the current level at the back keeps the queue ordered |
| Lee.VisitCellClosed | src/lee.rs:22-30 | once its candidates are visited, the popped node's allowed neighbours are labelled at most one more than it |
| Lee.VisitProcessed | src/lee.rs:17-30 | every labelled node no longer queued is closed under allowed moves |
| Lee.VisitPreserves | src/lee.rs:17-30 | one round of the loop keeps the wavefront invariant |
| Lee.ExpansionDone | src/lee.rs:17-31 | when the queue is empty, the labels are a complete labelling: source 0, closed under allowed moves, every label justified by a neighbour |
| Lee.ExpandHead | src/lee.rs:18-30 | one round of the loop: old labels are kept, each new label is the head's label plus one, and the new queue is the old one without its head followed by the head's admitted candidates in candidate order (`Admitted`); the wavefront invariant is kept |
| Lee.Wavefront | src/lee.rs:12-31 | the labelling loop ends with a complete labelling from the source |
| Lee.FirstLabelled | src/lee.rs:50-52 | the `find`: a found node is a candidate carrying the wanted label |
| Lee.FirstLabelledFinds | src/lee.rs:50-52 | the `find` succeeds whenever some candidate carries the wanted label |
| Lee.FirstLabelledIsFirst | src/lee.rs:50-52 | the `find` fails exactly when no candidate carries the label, and otherwise returns the first one in candidate order |
| Lee.PredecessorFound | src/lee.rs:47-52 | for every labelled node other than the source, the `find` returns a neighbour labelled one less, so the `expect` never fails |
| Lee.Reverse | src/lee.rs:56 | the reversed path has the same length with positions mirrored |
| Lee.DescendingStep | src/lee.rs:39-53 | appending the found neighbour keeps the collected path descending by one label per step |
| Lee.DescendingReversed | src/lee.rs:43-56 | once the source is reached, the reversed path is a backtrace with label(`to`) + 1 positions |
| Lee.TraceBack | src/lee.rs:37-56 | the backtrace loop ends and returns a path from `from` to `to` where position i has label i and each position is the first candidate of the next one labelled one less |
| Lee.BacktraceShape | src/lee.rs:37-56 | along a backtrace, consecutive positions are orthogonal neighbours with labels rising by one, and the length is label(`to`) + 1 |
| Lee.Lee | src/lee.rs:7-57 | `None` exactly when `to` is unreachable; otherwise a backtrace of the complete labelling whose number of moves is the shortest distance from `from` to `to` |
| LeeExamples.CornerLabelling | src/lee.rs:17-31 | on a grid where every move is allowed, the labels from the corner (0, 0) are the Manhattan distances |
| LeeExamples.CornerEnd | src/lee.rs:37-56 | on a grid where every move is allowed, a backtrace from the corner has the length of the corner path and ends where it does |
| LeeExamples.CornerAgree | src/lee.rs:47-52 | on such a grid, where a backtrace agrees with the corner path at one position it agrees at the one before |
| LeeExamples.CornerBacktrace | src/lee.rs:37-56 | on such a grid, every backtrace from the corner equals the corner path position by position |
| LeeExamples.CornerSearch | src/lee.rs:37-56 | on such a grid, the backtrace to any node runs down the first column and then along the row, as the candidate order dictates |
| LeeExamples.Lee2x2 | src/lee.rs:98-131 | the 2x2 test: `[(0,0),(0,1),(1,1)]` |
| LeeExamples.LeeSelf | src/lee.rs:43-45 | a search from any node to itself returns that node alone, on any grid; the 1x1 test (src/lee.rs:83-95) is an instance |
| LeeExamples.Lee3x3 | src/lee.rs:134-194 | the uniform 3x3 test: `[(0,0),(0,1),(0,2),(1,2),(2,2)]` |
| LeeExamples.SqueezeLabelling | src/lee.rs:17-31 | the labels of a 2x2 grid with one undersized node, proved to be its complete labelling |
| LeeExamples.SqueezeRoute | src/lee.rs:50-52 | on that grid, the only backtrace to (1, 1) passes through (0, 1) |
| LeeExamples.SqueezeBacktrace | src/lee.rs:50-52 | the search returns `[(0,0),(0,1),(1,1)]` although the step from (0, 1) to (1, 1) breaks the capacity rule: the backtrace does not check capacities |
| LeeExamples.BlockedLabelling | src/lee.rs:197-260 | the labels of the blocked 3x3 test grid are its complete labelling |
| LeeExamples.BlockedLabelOwner | src/lee.rs:197-260 | in that grid, label i belongs only to the i-th node of the route round the blocked nodes |
| LeeExamples.LeeBlocked | src/lee.rs:197-260 | the blocked 3x3 test: `[(0,0),(1,0),(2,0),(2,1),(2,2),(1,2),(0,2)]` |
| Solver.MaxCoords | src/main.rs:21-26 | the fold of the largest `x` and `y`; `MaxCoordsBounds` states that the result bounds every input position and is 0 or attained on each axis |
| Solver.MaxCoordsBounds | src/main.rs:21-26 | the folded maxima bound every input position, and each is 0 or attained by some input line |
| Solver.LastAtIsLast | src/main.rs:41-49 | a position has no node exactly when no line names it; otherwise its node is the one on the last line naming it |
| Solver.LastEmptyIsLast | src/main.rs:39-47 | the empty node is (0, 0) when no line has `used == 0`, and otherwise the position of the last such line |
| Solver.TransformToGrid | src/main.rs:20-52 | a rectangular grid of (max x + 1) x (max y + 1) nodes holding every input position; each node is the last line for it, or the all-zero cell; `empty` is the last empty line's position |
| Solver.Vacate | src/main.rs:76-81 | the copy has the same shape and differs from the grid only at the popped node, which becomes the all-zero cell |
| Solver.WrittenValue | src/main.rs:82-92 | a written cost is `min_path` plus the shortest hole walk's number of positions |
| Solver.ConsiderCandidate | src/main.rs:73-98 | for a candidate that passed the capacity filter: the entry is rewritten exactly when the guard holds, the search succeeds and the old entry is smaller than the new cost; no other entry changes; `(candidate, cell)` is pushed at the front exactly when the entry changed |
| Solver.DecidedFrame | src/main.rs:71-99 | whether a candidate's entry is rewritten depends only on that candidate's old entry |
| Solver.PushedFrame | src/main.rs:88 | the states pushed depend only on which entries changed |
| Solver.PushedStates | src/main.rs:88-93 | each pushed state is `(candidate, cell)` for a candidate whose entry changed, and each changed candidate is pushed |
| Solver.TurnDecided | src/main.rs:71-99 | one more candidate processed: every candidate so far is decided against the table at the start of the expansion |
| Solver.TurnQueue | src/main.rs:88-93 | one more candidate processed: the queue is the states pushed so far, newest first, in front of the old queue |
| Solver.TurnPreserves | src/main.rs:71-99 | one candidate's turn keeps the expansion invariant |
| Solver.TakeTurn | src/main.rs:71-99 | one turn of the filtered `for_each`: a candidate failing the capacity filter changes nothing; one passing it is considered |
| Solver.ExpandState | src/main.rs:71-99 | expanding a popped state decides every candidate against the table as it was before the expansion, leaves non-candidates alone, and pushes the changed candidates' states at the front in candidate order |
| Solver.ManhattanStep | src/main.rs:71-73 | one move to a neighbour changes the Manhattan distance from the start by at most one |
| Solver.WrittenAbove | src/main.rs:74-94 | a written entry is above the popped state's cost and, when the entry existed, above its old value |
| Solver.ExpandTable | src/main.rs:71-99 | an expansion keeps the start at 0, keeps every entry, and keeps every cost at least the Manhattan distance from the start |
| Solver.ExpandQueue | src/main.rs:71-99 | after an expansion, every queued state's data position has an entry and its hole is the neighbouring node it came from, or the state is the initial one |
| Solver.ExpandPreserves | src/main.rs:64-99 | one round of the outer loop keeps the search invariant |
| Solver.RunExtend | src/main.rs:64-101 | a step appended to a trace of the outer loop gives a trace |
| Solver.StepDeterministic | src/main.rs:65-101 | the table and queue after an iteration are fixed by those before it |
| Solver.RunsAgree | src/main.rs:54-101 | two traces from the same start agree state by state, so the table after n iterations is unique |
| Solver.NextState | src/main.rs:65-101 | one iteration: pop the back state and expand it; the result is a `Step` and keeps the search invariant |
| Solver.Dp | src/main.rs:54-104 | the final table and queue end a trace of at most `fuel` steps from `{start: 0}` and `[(start, empty)]`; the loop stops early only on an empty queue; `OutOfFuel` exactly when states are still queued; `Moves` exactly when the queue is empty and the target has an entry, with that entry as count; the table keeps the start at 0, holds positions inside the grid, and costs at least the Manhattan distance |
| Parser.IsDigit | src/parser.rs:16-18 | an ASCII decimal digit, as `is_digit(10)` tests |
| Parser.Value | src/parser.rs:12-14 | the number a run of digits denotes; `ValueDecimal` states that it reads back every decimal numeral |
| Parser.Span | src/parser.rs:16-21 | `take_while`: the longest prefix whose characters all satisfy the predicate |
| Parser.SpanOf | src/parser.rs:16-21 | the run stops exactly where the first character failing the predicate is |
| Parser.ParseInt | src/parser.rs:20-22 | a result is below the integer type's limit and has consumed at least one character |
| Parser.ParseIntSplit | src/parser.rs:12-22 | `parse_int` reads exactly the leading digits and fails when there are none or their value does not fit the type |
| Parser.Tag | src/parser.rs:26 | `tag` consumes exactly its text when the input starts with it |
| Parser.TagPrefix | src/parser.rs:26 | `tag` always succeeds on its own text followed by anything |
| Parser.Multispace1 | src/parser.rs:42 | `multispace1` consumes at least one character when it succeeds |
| Parser.Multispace1Gap | src/parser.rs:42-48 | `multispace1` consumes a whole run of spaces, tabs, carriage returns and newlines, up to the next other character |
| Parser.SkipTill | src/parser.rs:49 | `take_till` never fails and never lengthens the input |
| Parser.SkipTillLine | src/parser.rs:49 | `take_till` stops at the first newline, or at the end of the input |
| Parser.Take1 | src/parser.rs:56 | `take(1)` consumes exactly one character and fails at the end of the input |
| Parser.SkipHeader | src/parser.rs:55-56 | a header line and its newline are skipped, whatever the line holds |
| Parser.ValueDecimal | src/parser.rs:12-14 | the numeric value of a decimal numeral is its number |
| Parser.ParseIntDecimal | src/parser.rs:20-22 | `parse_int` reads back any numeral below the limit that no digit follows |
| Parser.ParseSize | src/parser.rs:24-29 | a size is a 64-bit number |
| Parser.ParseSizeRoundTrip | src/parser.rs:24-29 | `parse_size` reads back `<n>T` for every 64-bit `n`, leaving the rest |
| Parser.ParseGridName | src/parser.rs:31-38 | both coordinates are 8-bit numbers |
| Parser.ParseGridNameRoundTrip | src/parser.rs:31-38 | `parse_grid_name` reads back `/dev/grid/node-x<x>-y<y>` for every 8-bit `x` and `y` that no digit follows |
| Parser.SpacedSize | src/parser.rs:42-47 | a size after white space is a 64-bit number |
| Parser.SpacedSizeRoundTrip | src/parser.rs:42-47 | a run of white space and a size are read back |
| Parser.ParseGridLine | src/parser.rs:40-52 | a line's coordinates are 8-bit numbers and its three sizes 64-bit numbers |
| Parser.ParseGridLineSteps | src/parser.rs:40-52 | `parse_grid_line` succeeds when its steps succeed in turn; the result holds size, used and avail as read |
| Parser.ParseGridLineRoundTrip | src/parser.rs:40-52 | `parse_grid_line` reads back a line with fitting figures and any white space between columns, when its last column is non-empty, does not start with white space and holds no newline, and the line is followed by nothing or by a newline, which it leaves unread |
| Parser.MoreLines | src/parser.rs:59 | the repetition of `separated_list1` after its first line never lengthens the input; `MoreLinesStep` and `MoreLinesRoundTrip` state what it reads |
| Parser.ParseLines | src/parser.rs:59 | `separated_list1` returns at least one entry when it succeeds |
| Parser.ParseInput | src/parser.rs:54-60 | `parse_input` returns at least one entry when it succeeds; `ParseInputHeaders` and `ParseInputRoundTrip` state what it reads |
| Parser.MoreLinesStep | src/parser.rs:59 | one more round of `separated_list1`: a newline and a line are consumed and the line's entry is added in front |
| Parser.MoreLinesRoundTrip | src/parser.rs:59 | the repetition reads every newline-led line in order, and leaves a final newline unread |
| Parser.ParseLinesStep | src/parser.rs:59 | `separated_list1` starts with one line, then repeats |
| Parser.ParseLinesRoundTrip | src/parser.rs:59 | `separated_list1` reads back one or more such lines separated by single newlines, in order, when nothing or a single newline follows the last line |
| Parser.ParseInputHeaders | src/parser.rs:54-58 | `parse_input` skips two header lines of any content, each with its newline |
| Parser.ParseInputRoundTrip | src/parser.rs:54-60 | `parse_input` returns the entries of all node lines after the two headers, in input order, when nothing or a single newline follows the last line |
| ParserExamples.SizeExample | src/parser.rs:70-76 | `"123T"` is read as 123 |
| ParserExamples.NameExample | src/parser.rs:79-85 | `"/dev/grid/node-x0-y0"` is read as (0, 0) |
| ParserExamples.LineExample | src/parser.rs:88-105 | the sample line is read as (0, 0) with size 89, used 65, avail 24 |
| ParserExamples.InputExample | src/parser.rs:108-141 | the sample listing gives the two entries of its node lines, in order |
| ParserExamples.WideCoordinate | src/parser.rs:33 | a coordinate of 256 does not fit `u8`, so the name is rejected |
| ParserExamples.MissingLastColumn | src/parser.rs:48-49 | on a line without its last column, the final `multispace1` consumes the newline, so the next line is skipped as that column |

## Left out

- `print_dp`, `print_grid` and `main` (src/main.rs:106-155): console output and reading the puzzle input from a file. The fixed start (33, 0) and target (0, 0) are parameters of `Solver.Dp`.
- The commented-out viable-pair count (src/main.rs:13-18, 141-154): it is dead code.
- Solver.Dp: expands at most `fuel` states and then returns `OutOfFuel`. The source's loop runs until the queue is empty, and the code does not show that this always happens.
- Solver.Dp: the cost table, the final queue and the trace of iterations are ghost out-parameters. Its contract relates the result to them. It makes no optimality claim, because the table is keyed by data position only and overwrites upward.
- Solver.Dp: the source panics when the target has no entry (src/main.rs:103). The model returns `Unreached` instead.
- Lee.Lee: does not claim that each step of the returned path obeys the capacity rule, because the backtrace checks labels only (see `LeeExamples.SqueezeBacktrace`).
- Machine integers: labels (`i32`), costs (`usize`) and their sums are unbounded here. The `i32::MAX` and `usize::MAX` sentinels (src/lee.rs:51, src/main.rs:74) become "no entry". The `u8` and `u64` limits of the parser are modelled.
- `HashMap` and `VecDeque` are Dafny maps and sequences. Their hashing, capacity and iteration order are not modelled, and the model never iterates over a map.
- nom's error values (`Error` and `Failure`, the error kind, the position) become `None`. Only what each combinator consumes and when it fails is modelled.
- Solver.Dp: requires `start` and `empty` inside the grid. The source indexes the grid at the popped data position, so `start` must be inside it. The hole is used only inside `lee`, which runs only for a candidate that passes the capacity filter, so an outside `empty` does not always panic. It is required here because the only caller passes the hole `transform_to_grid` found, which is inside the grid.
- The wavefront search requires a non-empty rectangular grid and an in-bounds source, which the source assumes through `unwrap` and indexing.
