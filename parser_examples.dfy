/**
 * The parser on the repository's own test inputs (src/parser.rs:69-141),
 * and two inputs that show how the combinators treat malformed lines.
 */
module ParserExamples {
  import opened Wrappers
  import opened Types
  import opened Parser

  lemma DecimalTwo(n: nat)
    requires 10 <= n < 100
    ensures Decimal(n) == [Digit(n / 10), Digit(n % 10)]
  {
    assert Decimal(n / 10) == [Digit(n / 10)];
  }

  /** `"123T"` is the size 123. */
  lemma SizeExample()
    ensures ParseSize("123T") == Some(("", 123))
  {
    DecimalTwo(12);
    assert Decimal(123) == Decimal(12) + [Digit(3)];
    assert Decimal(123) + "T" + "" == "123T";
    ParseSizeRoundTrip(123, "");
  }

  /** `"/dev/grid/node-x0-y0"` names position `(0, 0)`. */
  lemma NameExample()
    ensures ParseGridName("/dev/grid/node-x0-y0") == Some(("", (0, 0)))
  {
    assert Decimal(0) == "0";
    assert FormatName(0, 0) + "" == "/dev/grid/node-x0-y0";
    ParseGridNameRoundTrip(0, 0, "");
  }

  /** The layout of the first sample line. */
  function SampleLine0(): Line {
    Line((0, 0, Cell(89, 65, 24)), ["     ", "   ", "    ", "   "], "73%")
  }

  /** The layout of the second sample line. */
  function SampleLine1(): Line {
    Line((0, 1, Cell(92, 65, 27)), ["     ", "   ", "    ", "   "], "70%")
  }

  /** The first sample line, column by column. */
  function SampleText0(): string {
    "/dev/grid/node-x0-y0" + "     " + "89" + "T" + "   " + "65" + "T" + "    " + "24" + "T" + "   " + "73%"
  }

  /** The second sample line, column by column. */
  function SampleText1(): string {
    "/dev/grid/node-x0-y1" + "     " + "92" + "T" + "   " + "65" + "T" + "    " + "27" + "T" + "   " + "70%"
  }

  /** The first sample line is the text of its layout. */
  lemma SampleTextOf0()
    ensures WellLaid(SampleLine0()) && Text(SampleLine0()) == SampleText0()
  {
    assert Decimal(0) == "0";
    assert FormatName(0, 0) == "/dev/grid/node-x0-y0";
    DecimalTwo(89);
    DecimalTwo(65);
    DecimalTwo(24);
  }

  /** The second sample line is the text of its layout. */
  lemma SampleTextOf1()
    ensures WellLaid(SampleLine1()) && Text(SampleLine1()) == SampleText1()
  {
    assert Decimal(0) == "0" && Decimal(1) == "1";
    assert FormatName(0, 1) == "/dev/grid/node-x0-y1";
    DecimalTwo(92);
    DecimalTwo(65);
    DecimalTwo(27);
  }

  /** The sample line gives position `(0, 0)` with size 89, used 65 and avail 24, and is read to its end. */
  lemma LineExample()
    ensures ParseGridLine(SampleText0()) == Some(("", (0, 0, Cell(89, 65, 24))))
  {
    var l := SampleLine0();
    SampleTextOf0();
    assert Text(l) + "" == Text(l);
    ParseGridLineRoundTrip(l.entry, l.gaps, l.tail, "");
  }

  /** The first header line of the sample listing. */
  function Prompt(): string {
    "root@ebhq-gridcenter" + "# df -h"
  }

  /** The second header line of the sample listing. */
  function ColumnHeads(): string {
    "Filesystem              " + "Size  Used  Avail  Use%"
  }

  lemma SingleLine(a: string, b: string)
    requires forall i :: 0 <= i < |a| ==> a[i] != '\n'
    requires forall i :: 0 <= i < |b| ==> b[i] != '\n'
    ensures forall i :: 0 <= i < |a + b| ==> (a + b)[i] != '\n'
  {
  }

  /** The sample listing's node lines, joined. */
  lemma SampleJoin()
    ensures WellLaid(SampleLine0()) && WellLaid(SampleLine1())
    ensures Join([SampleLine0(), SampleLine1()]) + "" == SampleText0() + ("\n" + SampleText1())
  {
    var ls := [SampleLine0(), SampleLine1()];
    SampleTextOf0();
    SampleTextOf1();
    assert ls[1..] == [SampleLine1()];
    assert ls[1..][1..] == [];
    assert Following(ls[1..]) == "\n" + SampleText1() + "";
  }

  /** The sample listing: two header lines, then two node lines read in order. */
  lemma InputExample()
    ensures ParseInput(Prompt() + "\n" + ColumnHeads() + "\n" + (SampleText0() + ("\n" + SampleText1())))
      == Some(("", [(0, 0, Cell(89, 65, 24)), (0, 1, Cell(92, 65, 27))]))
  {
    var ls := [SampleLine0(), SampleLine1()];
    SingleLine("root@ebhq-gridcenter", "# df -h");
    SingleLine("Filesystem              ", "Size  Used  Avail  Use%");
    SampleJoin();
    assert Entries(ls) == [(0, 0, Cell(89, 65, 24)), (0, 1, Cell(92, 65, 27))];
    ParseInputRoundTrip(Prompt(), ColumnHeads(), ls, "");
  }

  /** A coordinate that does not fit into 8 bits makes the name unreadable. */
  lemma WideCoordinate()
    ensures ParseGridName("/dev/grid/node-x256-y0") == None
  {
    var rest := "-y0";
    assert "/dev/grid/node-x256-y0" == "/dev/grid/node-x" + ("256" + rest);
    TagPrefix("/dev/grid/node-x", "256" + rest);
    var d := "256";
    DecimalTwo(25);
    assert Decimal(256) == d;
    ValueDecimal(256);
    ParseIntSplit("256", rest, U8Limit);
  }

  /**
   * A line without its last column: the white space in front of that column
   * may be the newline that ends the line, so the next line is taken for the
   * last column and skipped, whatever it holds.
   */
  lemma MissingLastColumn(e: Entry, gaps: seq<string>, next: string, rest: string)
    requires Fits(e) && |gaps| == 4 && IsGap(gaps[0]) && IsGap(gaps[1]) && IsGap(gaps[2]) && gaps[3] == "\n"
    requires |next| > 0 && !IsSpace(next[0]) && forall i :: 0 <= i < |next| ==> next[i] != '\n'
    requires |rest| == 0 || rest[0] == '\n'
    ensures ParseGridLine(FormatLine(e, gaps, next) + rest) == Some((rest, e))
  {
    assert IsGap(gaps[3]);
    ParseGridLineRoundTrip(e, gaps, next, rest);
  }
}
