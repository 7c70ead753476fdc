/**
 * The reader of the puzzle's `df -h` listing (src/parser.rs): two header
 * lines, then one line per node such as
 * `/dev/grid/node-x0-y0     89T   65T    24T   73%`.
 *
 * Each parser takes the remaining input and either fails (`None`) or returns
 * the input left after it together with what it read, as the parser
 * combinators of the source do.
 */
module Parser {
  import opened Wrappers
  import opened Types

  /** A parse result: the input left over and the value read. */
  type Parsed<T> = Option<(string, T)>

  /** Coordinates are read as 8-bit unsigned numbers. */
  const U8Limit: nat := 0x100

  /** Sizes are read as 64-bit unsigned numbers. */
  const U64Limit: nat := 0x1_0000_0000_0000_0000

  // ---------------------------------------------------------------------------
  // Character classes and runs.

  /** A decimal digit (ASCII only). */
  predicate IsDigit(c: char) {
    '0' <= c <= '9'
  }

  /** The characters a run of "multispace" consists of. */
  predicate IsSpace(c: char) {
    c == ' ' || c == '\t' || c == '\r' || c == '\n'
  }

  /** The length of the longest prefix of `s` whose characters all satisfy `p`. */
  function Span(p: char -> bool, s: string): (n: nat)
    ensures n <= |s|
    ensures forall i :: 0 <= i < n ==> p(s[i])
    ensures n < |s| ==> !p(s[n])
  {
    if |s| == 0 || !p(s[0]) then 0 else 1 + Span(p, s[1..])
  }

  /** The run is the whole of any prefix all of whose characters satisfy `p` when the rest does not start with one. */
  lemma SpanOf(p: char -> bool, a: string, b: string)
    requires forall i :: 0 <= i < |a| ==> p(a[i])
    requires |b| == 0 || !p(b[0])
    ensures Span(p, a + b) == |a|
  {
    var n := Span(p, a + b);
    assert n <= |a| by {
      if |b| > 0 {
        assert (a + b)[|a|] == b[0];
      }
    }
  }

  function DigitValue(c: char): nat
    requires IsDigit(c)
  {
    c as nat - '0' as nat
  }

  /** The number a string of decimal digits denotes, most significant first. */
  function Value(digits: string): nat
    requires forall i :: 0 <= i < |digits| ==> IsDigit(digits[i])
  {
    if |digits| == 0 then 0
    else Value(digits[..|digits| - 1]) * 10 + DigitValue(digits[|digits| - 1])
  }

  // ---------------------------------------------------------------------------
  // The combinators, as the source uses them.

  /**
   * `parse_int`: the maximal run of digits, read as a number; fails when the
   * run is empty or the number does not fit below `limit`.
   */
  function ParseInt(s: string, limit: nat): (r: Parsed<nat>)
    ensures r.Some? ==> r.value.1 < limit && |r.value.0| < |s|
  {
    var n := Span(IsDigit, s);
    if n == 0 || Value(s[..n]) >= limit then None
    else Some((s[n..], Value(s[..n])))
  }

  /** `tag(t)`: the input must start with `t`, which is consumed. */
  function Tag(t: string, s: string): (r: Option<string>)
    ensures r.Some? ==> s == t + r.value
  {
    if t <= s then Some(s[|t|..]) else None
  }

  /** `multispace1`: a non-empty run of spaces, tabs, carriage returns and newlines. */
  function Multispace1(s: string): (r: Option<string>)
    ensures r.Some? ==> |r.value| < |s|
  {
    var n := Span(IsSpace, s);
    if n == 0 then None else Some(s[n..])
  }

  /** `take_till(c == stop)`: everything up to the first `stop`, or to the end; never fails. */
  function SkipTill(stop: char, s: string): (r: string)
    ensures |r| <= |s|
  {
    s[Span(c => c != stop, s)..]
  }

  /** `take(1)`: one character of any kind; fails at the end of the input. */
  function Take1(s: string): (r: Option<string>)
    ensures r.Some? ==> |r.value| + 1 == |s|
  {
    if |s| == 0 then None else Some(s[1..])
  }

  // ---------------------------------------------------------------------------
  // The line format.

  /** `parse_size`: a 64-bit number followed by `T`. */
  function ParseSize(s: string): (r: Parsed<nat>)
    ensures r.Some? ==> r.value.1 < U64Limit && |r.value.0| < |s|
  {
    var n := ParseInt(s, U64Limit);
    if n.None? then None
    else
      var t := Tag("T", n.value.0);
      if t.None? then None else Some((t.value, n.value.1))
  }

  /** `parse_grid_name`: `/dev/grid/node-x`, an 8-bit `x`, `-y`, an 8-bit `y`. */
  function ParseGridName(s: string): (r: Parsed<Coords>)
    ensures r.Some? ==> r.value.1.0 < U8Limit && r.value.1.1 < U8Limit && |r.value.0| < |s|
  {
    var a := Tag("/dev/grid/node-x", s);
    if a.None? then None
    else
      var x := ParseInt(a.value, U8Limit);
      if x.None? then None
      else
        var b := Tag("-y", x.value.0);
        if b.None? then None
        else
          var y := ParseInt(b.value, U8Limit);
          if y.None? then None else Some((y.value.0, (x.value.1, y.value.1)))
  }

  /** The pair `multispace1` then `parse_size` that reads each of the three sizes of a line. */
  function SpacedSize(s: string): (r: Parsed<nat>)
    ensures r.Some? ==> r.value.1 < U64Limit && |r.value.0| < |s|
  {
    var s' := Multispace1(s);
    if s'.None? then None else ParseSize(s'.value)
  }

  /**
   * `parse_grid_line`: the name, then size, used and avail each after a run of
   * white space, then a last run of white space and the rest of the line up to
   * a newline, which is skipped. `avail` is kept as read.
   */
  function ParseGridLine(s: string): (r: Parsed<Entry>)
    ensures r.Some? ==> |r.value.0| < |s|
    ensures r.Some? ==> r.value.1.0 < U8Limit && r.value.1.1 < U8Limit
    ensures r.Some? ==> r.value.1.2.size < U64Limit && r.value.1.2.used < U64Limit && r.value.1.2.avail < U64Limit
  {
    var name := ParseGridName(s);
    if name.None? then None
    else
      var size := SpacedSize(name.value.0);
      if size.None? then None
      else
        var used := SpacedSize(size.value.0);
        if used.None? then None
        else
          var avail := SpacedSize(used.value.0);
          if avail.None? then None
          else
            var last := Multispace1(avail.value.0);
            if last.None? then None
            else
              var (x, y) := name.value.1;
              Some((SkipTill('\n', last.value), (x, y, Cell(size.value.1, used.value.1, avail.value.1))))
  }

  /**
   * The repetition of `separated_list1` after its first element: while a
   * newline follows and a line can be read after it, read it; otherwise stop
   * in front of that newline.
   */
  function MoreLines(s: string): (r: (string, seq<Entry>))
    ensures |r.0| <= |s|
    decreases |s|
  {
    var sep := Tag("\n", s);
    if sep.None? then (s, [])
    else
      var line := ParseGridLine(sep.value);
      if line.None? then (s, [])
      else
        var more := MoreLines(line.value.0);
        (more.0, [line.value.1] + more.1)
  }

  /** `separated_list1(tag("\n"), parse_grid_line)`: one line or more, separated by single newlines. */
  function ParseLines(s: string): (r: Parsed<seq<Entry>>)
    ensures r.Some? ==> |r.value.1| >= 1
  {
    var first := ParseGridLine(s);
    if first.None? then None
    else
      var more := MoreLines(first.value.0);
      Some((more.0, [first.value.1] + more.1))
  }

  /** `parse_input`: skip two header lines, each with its newline, then read the node lines. */
  function ParseInput(s: string): (r: Parsed<seq<Entry>>)
    ensures r.Some? ==> |r.value.1| >= 1
  {
    var h1 := Take1(SkipTill('\n', s));
    if h1.None? then None
    else
      var h2 := Take1(SkipTill('\n', h1.value));
      if h2.None? then None else ParseLines(h2.value)
  }

  // ---------------------------------------------------------------------------
  // What the parsers accept: laws over every decomposition of the input.

  /**
   * `parse_int` reads exactly the leading digits, whatever follows them, and
   * fails when there are none or their number is at least `limit`.
   */
  lemma ParseIntSplit(digits: string, rest: string, limit: nat)
    requires forall i :: 0 <= i < |digits| ==> IsDigit(digits[i])
    requires |rest| == 0 || !IsDigit(rest[0])
    ensures ParseInt(digits + rest, limit) ==
      if |digits| == 0 || Value(digits) >= limit then None else Some((rest, Value(digits)))
  {
    var s := digits + rest;
    SpanOf(IsDigit, digits, rest);
    assert s[..|digits|] == digits && s[|digits|..] == rest;
  }

  /** `tag` consumes exactly its text. */
  lemma TagPrefix(t: string, rest: string)
    ensures Tag(t, t + rest) == Some(rest)
  {
    assert t <= t + rest;
    assert (t + rest)[|t|..] == rest;
  }

  /** A run of white space is consumed up to the first other character. */
  lemma Multispace1Gap(gap: string, rest: string)
    requires |gap| > 0 && forall i :: 0 <= i < |gap| ==> IsSpace(gap[i])
    requires |rest| == 0 || !IsSpace(rest[0])
    ensures Multispace1(gap + rest) == Some(rest)
  {
    SpanOf(IsSpace, gap, rest);
    assert (gap + rest)[|gap|..] == rest;
  }

  /** Skipping to the end of the line stops at the newline that ends it, or at the end of the input. */
  lemma SkipTillLine(tail: string, rest: string)
    requires forall i :: 0 <= i < |tail| ==> tail[i] != '\n'
    requires |rest| == 0 || rest[0] == '\n'
    ensures SkipTill('\n', tail + rest) == rest
  {
    SpanOf(c => c != '\n', tail, rest);
    assert (tail + rest)[|tail|..] == rest;
  }

  // ---------------------------------------------------------------------------
  // Writing the format back: the reference the parsers are proved against.

  function Digit(d: nat): (c: char)
    requires d < 10
    ensures IsDigit(c) && DigitValue(c) == d
  {
    (d + '0' as int) as char
  }

  /** The decimal numeral of `n`, without leading zeros. */
  function Decimal(n: nat): (r: string)
    ensures |r| > 0 && forall i :: 0 <= i < |r| ==> IsDigit(r[i])
  {
    if n < 10 then [Digit(n)] else Decimal(n / 10) + [Digit(n % 10)]
  }

  /** Reading a numeral gives back its number. */
  lemma {:induction false} ValueDecimal(n: nat)
    ensures Value(Decimal(n)) == n
  {
    var r := Decimal(n);
    if n >= 10 {
      ValueDecimal(n / 10);
      assert r[..|r| - 1] == Decimal(n / 10);
    } else {
      assert r[..0] == [];
    }
  }

  /** `parse_int` reads back any numeral below its limit that no further digit follows. */
  lemma ParseIntDecimal(n: nat, rest: string, limit: nat)
    requires n < limit && (|rest| == 0 || !IsDigit(rest[0]))
    ensures ParseInt(Decimal(n) + rest, limit) == Some((rest, n))
  {
    ValueDecimal(n);
    ParseIntSplit(Decimal(n), rest, limit);
  }

  /** `parse_size` reads back a size written as a numeral and `T`, whatever follows. */
  lemma ParseSizeRoundTrip(n: nat, rest: string)
    requires n < U64Limit
    ensures ParseSize(Decimal(n) + "T" + rest) == Some((rest, n))
  {
    assert Decimal(n) + "T" + rest == Decimal(n) + ("T" + rest);
    ParseIntDecimal(n, "T" + rest, U64Limit);
    TagPrefix("T", rest);
  }

  /** The node name of position `(x, y)`. */
  function FormatName(x: nat, y: nat): string {
    "/dev/grid/node-x" + Decimal(x) + "-y" + Decimal(y)
  }

  /** The name followed by more input, grouped the way the parser takes it apart. */
  lemma FormatNameThen(x: nat, y: nat, rest: string)
    ensures FormatName(x, y) + rest == "/dev/grid/node-x" + (Decimal(x) + ("-y" + (Decimal(y) + rest)))
  {
  }

  /** `parse_grid_name` reads back any name with 8-bit coordinates that no further digit follows. */
  lemma ParseGridNameRoundTrip(x: nat, y: nat, rest: string)
    requires x < U8Limit && y < U8Limit && (|rest| == 0 || !IsDigit(rest[0]))
    ensures ParseGridName(FormatName(x, y) + rest) == Some((rest, (x, y)))
  {
    var afterX := "-y" + (Decimal(y) + rest);
    FormatNameThen(x, y, rest);
    TagPrefix("/dev/grid/node-x", Decimal(x) + afterX);
    ParseIntDecimal(x, afterX, U8Limit);
    TagPrefix("-y", Decimal(y) + rest);
    ParseIntDecimal(y, rest, U8Limit);
  }

  /** A non-empty run of white space. */
  predicate IsGap(gap: string) {
    |gap| > 0 && forall i :: 0 <= i < |gap| ==> IsSpace(gap[i])
  }

  /**
   * How a node line may be laid out: four runs of white space in front of the
   * three sizes and of the last column, and a last column that starts with
   * something other than white space and has no newline.
   */
  predicate IsLayout(gaps: seq<string>, tail: string) {
    && |gaps| == 4 && (forall i :: 0 <= i < 4 ==> IsGap(gaps[i]))
    && |tail| > 0 && !IsSpace(tail[0]) && (forall i :: 0 <= i < |tail| ==> tail[i] != '\n')
  }

  /** The figures of a line fit the widths the parser reads them with. */
  predicate Fits(e: Entry) {
    e.0 < U8Limit && e.1 < U8Limit && e.2.size < U64Limit && e.2.used < U64Limit && e.2.avail < U64Limit
  }

  /** The text of a node line from its figures and its layout. */
  function FormatLine(e: Entry, gaps: seq<string>, tail: string): string
    requires |gaps| == 4
  {
    FormatName(e.0, e.1)
      + gaps[0] + Decimal(e.2.size) + "T"
      + gaps[1] + Decimal(e.2.used) + "T"
      + gaps[2] + Decimal(e.2.avail) + "T"
      + gaps[3] + tail
  }

  /** The text of a line followed by more input, grouped the way the parser takes it apart. */
  lemma FormatLineThen(e: Entry, gaps: seq<string>, tail: string, rest: string)
    requires |gaps| == 4
    ensures FormatLine(e, gaps, tail) + rest ==
      FormatName(e.0, e.1) + (gaps[0] + (Decimal(e.2.size) + "T" + (gaps[1] + (Decimal(e.2.used) + "T"
        + (gaps[2] + (Decimal(e.2.avail) + "T" + (gaps[3] + (tail + rest))))))))
  {
  }

  /** A run of white space, a size and whatever follows are read back. */
  lemma SpacedSizeRoundTrip(gap: string, n: nat, rest: string)
    requires IsGap(gap) && n < U64Limit
    ensures SpacedSize(gap + (Decimal(n) + "T" + rest)) == Some((rest, n))
  {
    Multispace1Gap(gap, Decimal(n) + "T" + rest);
    ParseSizeRoundTrip(n, rest);
  }

  /** `parse_grid_line` succeeds when its steps succeed in turn. */
  lemma ParseGridLineSteps(s: string, a: string, x: nat, y: nat, b: string, size: nat, c: string, used: nat,
                           d: string, avail: nat, t: string)
    requires ParseGridName(s) == Some((a, (x, y)))
    requires SpacedSize(a) == Some((b, size)) && SpacedSize(b) == Some((c, used)) && SpacedSize(c) == Some((d, avail))
    requires Multispace1(d) == Some(t)
    ensures ParseGridLine(s) == Some((SkipTill('\n', t), (x, y, Cell(size, used, avail))))
  {
  }

  /**
   * `parse_grid_line` reads back any line with fitting figures and a proper
   * layout, up to the newline that follows it or the end of the input.
   */
  lemma ParseGridLineRoundTrip(e: Entry, gaps: seq<string>, tail: string, rest: string)
    requires Fits(e) && IsLayout(gaps, tail) && (|rest| == 0 || rest[0] == '\n')
    ensures ParseGridLine(FormatLine(e, gaps, tail) + rest) == Some((rest, e))
  {
    var r4 := tail + rest;
    assert r4[0] == tail[0];
    var r3 := gaps[3] + r4;
    var r2 := gaps[2] + (Decimal(e.2.avail) + "T" + r3);
    var r1 := gaps[1] + (Decimal(e.2.used) + "T" + r2);
    FormatLineThen(e, gaps, tail, rest);
    ParseGridNameRoundTrip(e.0, e.1, gaps[0] + (Decimal(e.2.size) + "T" + r1));
    SpacedSizeRoundTrip(gaps[0], e.2.size, r1);
    SpacedSizeRoundTrip(gaps[1], e.2.used, r2);
    SpacedSizeRoundTrip(gaps[2], e.2.avail, r3);
    Multispace1Gap(gaps[3], r4);
    ParseGridLineSteps(FormatLine(e, gaps, tail) + rest, gaps[0] + (Decimal(e.2.size) + "T" + r1), e.0, e.1,
                       r1, e.2.size, r2, e.2.used, r3, e.2.avail, r4);
    SkipTillLine(tail, rest);
  }

  lemma Regroup(a: string, b: string, c: string)
    ensures (a + b) + c == a + (b + c)
  {
  }

  /** One node line as written: its figures and its layout. */
  datatype Line = Line(entry: Entry, gaps: seq<string>, tail: string)

  predicate WellLaid(l: Line) {
    Fits(l.entry) && IsLayout(l.gaps, l.tail)
  }

  function Text(l: Line): string
    requires WellLaid(l)
  {
    FormatLine(l.entry, l.gaps, l.tail)
  }

  /** Each line preceded by a newline. */
  function Following(ls: seq<Line>): string
    requires forall i :: 0 <= i < |ls| ==> WellLaid(ls[i])
  {
    if |ls| == 0 then "" else "\n" + Text(ls[0]) + Following(ls[1..])
  }

  /** The lines separated by single newlines. */
  function Join(ls: seq<Line>): string
    requires |ls| > 0 && forall i :: 0 <= i < |ls| ==> WellLaid(ls[i])
  {
    Text(ls[0]) + Following(ls[1..])
  }

  /** The figures of the lines, in order. */
  function Entries(ls: seq<Line>): (r: seq<Entry>)
    ensures |r| == |ls| && forall i :: 0 <= i < |ls| ==> r[i] == ls[i].entry
  {
    if |ls| == 0 then [] else [ls[0].entry] + Entries(ls[1..])
  }

  /** One more round of the repetition: a newline, then a line. */
  lemma MoreLinesStep(s: string, a: string, rest: string, e: Entry)
    requires Tag("\n", s) == Some(a) && ParseGridLine(a) == Some((rest, e))
    ensures MoreLines(s) == (MoreLines(rest).0, [e] + MoreLines(rest).1)
  {
  }

  /**
   * The repetition reads every line that follows a newline, and stops in front
   * of a final newline that no line follows.
   */
  lemma {:induction false} MoreLinesRoundTrip(ls: seq<Line>, end: string)
    requires forall i :: 0 <= i < |ls| ==> WellLaid(ls[i])
    requires end == "" || end == "\n"
    ensures MoreLines(Following(ls) + end) == (end, Entries(ls))
  {
    if |ls| == 0 {
      assert Following(ls) + end == end;
      if end == "\n" {
        TagPrefix("\n", "");
      }
    } else {
      var after := Following(ls[1..]) + end;
      Regroup("\n" + Text(ls[0]), Following(ls[1..]), end);
      Regroup("\n", Text(ls[0]), after);
      TagPrefix("\n", Text(ls[0]) + after);
      ParseGridLineRoundTrip(ls[0].entry, ls[0].gaps, ls[0].tail, after);
      MoreLinesStep(Following(ls) + end, Text(ls[0]) + after, after, ls[0].entry);
      MoreLinesRoundTrip(ls[1..], end);
    }
  }

  lemma ParseLinesStep(s: string, rest: string, e: Entry)
    requires ParseGridLine(s) == Some((rest, e))
    ensures ParseLines(s) == Some((MoreLines(rest).0, [e] + MoreLines(rest).1))
  {
  }

  /**
   * `separated_list1` reads back one or more lines separated by single
   * newlines, in order, and leaves a final newline unread.
   */
  lemma ParseLinesRoundTrip(ls: seq<Line>, end: string)
    requires |ls| > 0 && forall i :: 0 <= i < |ls| ==> WellLaid(ls[i])
    requires end == "" || end == "\n"
    ensures ParseLines(Join(ls) + end) == Some((end, Entries(ls)))
  {
    var after := Following(ls[1..]) + end;
    Regroup(Text(ls[0]), Following(ls[1..]), end);
    ParseGridLineRoundTrip(ls[0].entry, ls[0].gaps, ls[0].tail, after);
    ParseLinesStep(Join(ls) + end, after, ls[0].entry);
    MoreLinesRoundTrip(ls[1..], end);
  }

  /** Everything up to the first newline and that newline are skipped. */
  lemma SkipHeader(h: string, rest: string)
    requires forall i :: 0 <= i < |h| ==> h[i] != '\n'
    ensures Take1(SkipTill('\n', h + "\n" + rest)) == Some(rest)
  {
    assert h + "\n" + rest == h + ("\n" + rest);
    SkipTillLine(h, "\n" + rest);
  }

  /** Two header lines of any content are skipped, each with its newline. */
  lemma ParseInputHeaders(h1: string, h2: string, body: string)
    requires forall i :: 0 <= i < |h1| ==> h1[i] != '\n'
    requires forall i :: 0 <= i < |h2| ==> h2[i] != '\n'
    ensures ParseInput(h1 + "\n" + h2 + "\n" + body) == ParseLines(body)
  {
    assert h1 + "\n" + h2 + "\n" + body == h1 + "\n" + (h2 + "\n" + body);
    SkipHeader(h1, h2 + "\n" + body);
    SkipHeader(h2, body);
  }

  /**
   * `parse_input` skips two header lines of any content and reads back every
   * node line that follows, in order.
   */
  lemma ParseInputRoundTrip(h1: string, h2: string, ls: seq<Line>, end: string)
    requires forall i :: 0 <= i < |h1| ==> h1[i] != '\n'
    requires forall i :: 0 <= i < |h2| ==> h2[i] != '\n'
    requires |ls| > 0 && forall i :: 0 <= i < |ls| ==> WellLaid(ls[i])
    requires end == "" || end == "\n"
    ensures ParseInput(h1 + "\n" + h2 + "\n" + (Join(ls) + end)) == Some((end, Entries(ls)))
  {
    ParseInputHeaders(h1, h2, Join(ls) + end);
    ParseLinesRoundTrip(ls, end);
  }
}

