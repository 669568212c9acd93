/** The parser reads images of any layout, not only those the program has printed; and how the program lays out what
    it prints. */
module PgmLayouts {
  import opened CText
  import opened PgmModel
  import opened PgmTheorems
  import opened Sequences

  // ---------- Numbers between blanks ----------

  /** A number with what stands in front of it. */
  datatype Spot = Spot(gap: string, value: int)

  /** A line of numbers, with what stands behind the last one. */
  datatype Row = Row(spots: seq<Spot>, end: string)

  ghost predicate Blank(s: string) { forall c :: c in s ==> c in " \t\r" }

  function LineText(spots: seq<Spot>, end: string): string {
    if spots == [] then end
    else spots[0].gap + (SignedDecimal(spots[0].value) + LineText(spots[1..], end))
  }

  /** There is nothing but blanks around the numbers, and some blank between any two. */
  ghost predicate Spaced(spots: seq<Spot>, end: string) {
    && Blank(end)
    && (forall i :: 0 <= i < |spots| ==> Blank(spots[i].gap) && (i > 0 ==> spots[i].gap != ""))
  }

  /** The cells for these numbers: what remains of them in an unsigned char. */
  function CellsOf(spots: seq<Spot>): seq<nat> {
    seq(|spots|, i requires 0 <= i < |spots| => spots[i].value % 256)
  }

  lemma {:induction false} SkipDelims(gap: string, s: string, delims: string)
    requires forall c :: c in gap ==> c in delims
    ensures NextToken(gap + s, delims) == NextToken(s, delims)
  {
    if gap == "" {
      assert gap + s == s;
    } else {
      assert (gap + s)[0] in gap && (gap + s)[1..] == gap[1..] + s;
      SkipDelims(gap[1..], s, delims);
    }
  }

  /** A number, with something blank or nothing behind it, is the first token; the others are those behind it. */
  lemma FirstNumber(gap: string, v: int, tail: string)
    requires Blank(gap) && (tail != "" ==> tail[0] in BLANKS)
    ensures Tokens(gap + (SignedDecimal(v) + tail), BLANKS) == [SignedDecimal(v)] + Tokens(tail, BLANKS)
  {
    var x := SignedDecimal(v);
    SkipDelims(gap, x + tail, BLANKS);
    DigitsAreNotBlank(x);
    if tail == "" {
      assert x + tail == x;
      TokenAtEnd(x, BLANKS);
    } else {
      assert x + tail == x + [tail[0]] + tail[1..];
      TokenAt(x, tail[0], tail[1..], BLANKS);
      assert NextToken(tail, BLANKS) == NextToken(tail[1..], BLANKS);
    }
  }

  lemma NothingLeft(s: string)
    requires forall c :: c in s ==> c in BLANKS
    ensures Tokens(s, BLANKS) == []
  {
    SkipDelims(s, "", BLANKS);
    assert s + "" == s;
  }

  lemma ValueRead(v: int)
    ensures CellValue(SignedDecimal(v)) == v % 256
  {
    StrtolDecimal(v, "");
    assert SignedDecimal(v) + "" == SignedDecimal(v);
  }

  lemma ValueInFront(toks: seq<string>, v: int)
    ensures Values([SignedDecimal(v)] + toks) == [v % 256] + Values(toks)
  {
    ValueRead(v);
  }

  lemma CellInFront(spots: seq<Spot>)
    requires spots != []
    ensures CellsOf(spots) == [spots[0].value % 256] + CellsOf(spots[1..])
  {
  }

  lemma BlankBehind(rest: seq<Spot>, end: string, newline: string)
    requires Spaced(rest, end) && (rest != [] ==> rest[0].gap != "") && newline in {"", "\n"}
    ensures var tail := LineText(rest, end) + newline;
            tail != "" ==> tail[0] in BLANKS
  {
    if rest != [] {
      assert rest[0].gap[0] in rest[0].gap;
    } else if end != "" {
      assert end[0] in end;
    }
  }

  /** A line is read as its numbers, with or without its newline, whatever the blanks. */
  lemma {:induction false} LineRead(spots: seq<Spot>, end: string, newline: string)
    requires Spaced(spots, end) && newline in {"", "\n"}
    ensures Values(Tokens(LineText(spots, end) + newline, BLANKS)) == CellsOf(spots)
  {
    if spots == [] {
      NothingLeft(end + newline);
    } else {
      var rest := spots[1..];
      var tail := LineText(rest, end) + newline;
      var v := spots[0].value;
      BlankBehind(rest, end, newline);
      assert LineText(spots, end) + newline == spots[0].gap + (SignedDecimal(v) + tail);
      FirstNumber(spots[0].gap, v, tail);
      LineRead(rest, end, newline);
      ValueInFront(Tokens(tail, BLANKS), v);
      CellInFront(spots);
    }
  }

  lemma {:induction false} NoNewline(spots: seq<Spot>, end: string)
    requires Spaced(spots, end)
    ensures '\n' !in LineText(spots, end)
  {
    if spots != [] {
      DigitsAreNotBlank(SignedDecimal(spots[0].value));
      NoNewline(spots[1..], end);
    }
  }

  // ---------- Bodies and headers of any layout ----------

  function BodyLines(rows: seq<Row>): string {
    if rows == [] then "" else LineText(rows[0].spots, rows[0].end) + "\n" + BodyLines(rows[1..])
  }

  function AllCells(rows: seq<Row>): seq<nat> {
    if rows == [] then [] else CellsOf(rows[0].spots) + AllCells(rows[1..])
  }

  /** A line fits the parser's buffer with its newline: fewer than 3840 * 4 - 1 characters. */
  ghost predicate Fits(row: Row) {
    Spaced(row.spots, row.end) && |LineText(row.spots, row.end)| < 15359
  }

  lemma LastLineRead(last: Row)
    requires Fits(last)
    ensures ParseCells(LineText(last.spots, last.end)) == CellsOf(last.spots)
  {
    var s := LineText(last.spots, last.end);
    LineRead(last.spots, last.end, "");
    NoNewline(last.spots, last.end);
    assert s + "" == s;
    if s == "" {
      assert Tokens(s, BLANKS) == [];
    } else {
      FgetsLast(s, MAX_LINE_LEN);
    }
  }

  lemma FirstLineRead(row: Row, rest: string)
    requires Fits(row)
    ensures ParseCells(LineText(row.spots, row.end) + "\n" + rest) == CellsOf(row.spots) + ParseCells(rest)
  {
    LineRead(row.spots, row.end, "\n");
    NoNewline(row.spots, row.end);
    FgetsLine(LineText(row.spots, row.end), rest, MAX_LINE_LEN);
  }

  /** The cells come back in order, however they are distributed over lines and padded, and whether or not the last
      line ends in a newline. */
  lemma {:induction false} AnyBodyParses(rows: seq<Row>, last: Row)
    requires (forall i :: 0 <= i < |rows| ==> Fits(rows[i])) && Fits(last)
    ensures ParseCells(BodyLines(rows) + LineText(last.spots, last.end)) == AllCells(rows) + CellsOf(last.spots)
  {
    var end := LineText(last.spots, last.end);
    if rows == [] {
      assert BodyLines(rows) + end == end;
      LastLineRead(last);
    } else {
      AnyBodyParses(rows[1..], last);
      var line := LineText(rows[0].spots, rows[0].end) + "\n";
      FirstLineRead(rows[0], BodyLines(rows[1..]) + end);
      Regroup(line, BodyLines(rows[1..]), end);
      Regroup(CellsOf(rows[0].spots), AllCells(rows[1..]), CellsOf(last.spots));
    }
  }

  /** The sizes, with at least one blank between them. */
  function SizeLine(before: string, width: int, between: string, height: int): string {
    before + (SignedDecimal(width) + (between + SignedDecimal(height)))
  }

  lemma SizesRead(before: string, width: int, between: string, height: int)
    requires (forall c :: c in before ==> c == ' ') && (forall c :: c in between ==> c == ' ') && between != ""
    ensures var (first, more) := NextToken(SizeLine(before, width, between, height) + "\n", " ");
            var (second, _) := NextToken(more, " ");
            && first != "" && second != "" && Strtol(first) == width && Strtol(second) == height
    ensures '\n' !in SizeLine(before, width, between, height)
  {
    var w, h := SignedDecimal(width), SignedDecimal(height);
    var behind := between[1..] + (h + "\n");
    DigitsAreNotBlank(w);
    DigitsAreNotBlank(h);
    assert between[0] in between && between == [' '] + between[1..];
    assert forall c :: c in between[1..] ==> c in between;
    assert w + (between + h) + "\n" == w + [' '] + behind;
    Regroup(before, w + (between + h), "\n");
    SkipDelims(before, w + [' '] + behind, " ");
    TokenAt(w, ' ', behind, " ");
    SkipDelims(between[1..], h + "\n", " ");
    TokenAtEnd(h + "\n", " ");
    StrtolDecimal(width, "");
    assert w + "" == w;
    StrtolDecimal(height, "\n");
  }

  /** Any plain PGM file within the buffers is read as its parts: a first line of fewer than 69 characters, the two
      sizes and the maximum on a line each, and the cells on any lines whatever. */
  lemma AnyLayoutParses(kind: string, before: string, width: int, between: string, height: int, pixelMax: int,
                        rows: seq<Row>, last: Row)
    requires '\n' !in kind && |kind| < 69 && IsInt(pixelMax)
    requires (forall c :: c in before ==> c == ' ') && (forall c :: c in between ==> c == ' ') && between != ""
    requires |SizeLine(before, width, between, height)| < 15359
    requires (forall i :: 0 <= i < |rows| ==> Fits(rows[i])) && Fits(last)
    ensures Parse(kind + "\n" + (SizeLine(before, width, between, height) + "\n"
                                 + (SignedDecimal(pixelMax) + "\n"
                                    + (BodyLines(rows) + LineText(last.spots, last.end))))) ==
            Some(Pgm(kind + "\n", width, height, pixelMax, AllCells(rows) + CellsOf(last.spots)))
  {
    var body := BodyLines(rows) + LineText(last.spots, last.end);
    var s3 := SignedDecimal(pixelMax) + "\n" + body;
    var sizes := SizeLine(before, width, between, height);
    FgetsLine(kind, sizes + "\n" + s3, LINE_LEN);
    SizesRead(before, width, between, height);
    FgetsLine(sizes, s3, MAX_LINE_LEN);
    IntLength(pixelMax);
    DigitsAreNotBlank(SignedDecimal(pixelMax));
    FgetsLine(SignedDecimal(pixelMax), body, MAX_LINE_LEN);
    StrtolDecimal(pixelMax, "\n");
    AnyBodyParses(rows, last);
  }

  // ---------- The layout of what is printed ----------

  /** Cells are right-aligned in three characters, with a blank behind them. */
  lemma CellsAligned(c: nat)
    requires c <= 255
    ensures Aligned(CellText(c), Decimal(c))
  {
    ByteLength(c);
    CellIsPadded(c);
    PaddedIsAligned(Decimal(c));
  }

  lemma CellIsPadded(c: nat)
    requires c <= 255
    ensures CellText(c) == Padded(Decimal(c))
  {
    assert c % 256 == c;
  }

  ghost predicate Aligned(t: string, d: string) {
    && |t| == 4 && |d| <= 3 && t[3 - |d|..] == d + " "
    && forall i :: 0 <= i < 3 - |d| ==> t[i] == ' '
  }

  lemma PaddedIsAligned(d: string)
    requires |d| <= 3
    ensures Aligned(Padded(d), d)
  {
    var gap := Blanks(Padding(d));
    AllBlanks(Padding(d));
    assert Padded(d) == gap + (d + " ");
    assert (gap + (d + " "))[|gap|..] == d + " ";
  }

  lemma {:induction false} AllBlanks(n: nat)
    ensures |Blanks(n)| == n && forall i :: 0 <= i < n ==> Blanks(n)[i] == ' '
  {
    if n > 0 {
      AllBlanks(n - 1);
    }
  }

  /** Lines are as long as 70 characters allow: they hold 17 cells as long as there are as many, and an eighteenth
      would not fit. */
  lemma LinesAreFull(cells: seq<nat>)
    requires forall i :: 0 <= i < |cells| ==> cells[i] <= 255
    ensures |cells| >= 17 ==> BodyText(cells) == RowText(cells[..17]) + "\n" + BodyText(cells[17..])
    ensures |cells| >= 18 ==> |RowText(cells[..17])| + 1 <= 70 < |RowText(cells[..18])| + 1
    ensures |cells| < 17 ==> BodyText(cells) == RowText(cells)
  {
    if |cells| >= 18 {
      RowLength(cells[..17]);
      RowLength(cells[..18]);
    }
  }
}
