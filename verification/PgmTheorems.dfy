/** Parsing undoes printing. */
module PgmTheorems {
  import opened CText
  import opened PgmModel

  predicate IsInt(n: int) { -0x8000_0000 <= n < 0x8000_0000 }

  /** The images the program can print and mean: a two-character kind within a line, int-sized numbers, cells
      that fit an unsigned char. */
  ghost predicate Printable(img: Pgm) {
    && |img.kind| >= 2 && img.kind[0] != '\n' && img.kind[1] != '\n'
    && IsInt(img.width) && IsInt(img.height) && IsInt(img.pixelMax)
    && |img.cells| == img.width * img.height
    && forall i :: 0 <= i < |img.cells| ==> img.cells[i] <= 255
  }

  // ---------- Decimal lengths ----------

  function PowerOfTen(k: nat): nat { if k == 0 then 1 else 10 * PowerOfTen(k - 1) }

  lemma {:induction false} DecimalLength(n: nat, k: nat)
    requires k >= 1 && n < PowerOfTen(k)
    ensures |Decimal(n)| <= k
  {
    if n >= 10 {
      assert k >= 2 by {
        assert PowerOfTen(1) == 10 * PowerOfTen(0);
      }
      DecimalLength(n / 10, k - 1);
    }
  }

  lemma IntLength(n: int)
    requires IsInt(n)
    ensures |SignedDecimal(n)| <= 11
  {
    assert PowerOfTen(5) == 10 * 10 * 10 * 10 * 10;
    assert PowerOfTen(10) == 10 * 10 * 10 * 10 * 10 * PowerOfTen(5);
    DecimalLength(if n < 0 then -n else n, 10);
  }

  lemma ByteLength(n: nat)
    requires n <= 255
    ensures |Decimal(n)| <= 3
  {
    assert PowerOfTen(3) == 1000;
    DecimalLength(n, 3);
  }

  // ---------- Reading lines ----------

  lemma {:induction false} FgetsLine(x: string, rest: string, n: nat)
    requires '\n' !in x && |x| + 1 < n
    ensures Fgets(x + "\n" + rest, n) == (x + "\n", rest)
  {
    var s := x + "\n" + rest;
    if x == "" {
      assert s[1..] == rest;
    } else {
      assert s[1..] == x[1..] + "\n" + rest;
      FgetsLine(x[1..], rest, n - 1);
      assert x + "\n" == [x[0]] + (x[1..] + "\n");
    }
  }

  lemma {:induction false} FgetsLast(x: string, n: nat)
    requires '\n' !in x && |x| < n
    ensures Fgets(x, n) == (x, "")
  {
    if x != "" {
      FgetsLast(x[1..], n - 1);
      assert x == [x[0]] + x[1..];
    }
  }

  // ---------- Tokens ----------

  /** A token is what stands before the next delimiter. */
  lemma {:induction false} TokenAt(x: string, d: char, rest: string, delims: string)
    requires x != "" && d in delims && forall i :: 0 <= i < |x| ==> x[i] !in delims
    ensures NextToken(x + [d] + rest, delims) == (x, rest)
  {
    var s := x + [d] + rest;
    if |x| == 1 {
      assert s[2..] == rest && x == [s[0]];
    } else {
      assert s[1..] == x[1..] + [d] + rest;
      TokenAt(x[1..], d, rest, delims);
      assert x == [x[0]] + x[1..];
    }
  }

  lemma {:induction false} TokenAtEnd(x: string, delims: string)
    requires x != "" && forall i :: 0 <= i < |x| ==> x[i] !in delims
    ensures NextToken(x, delims) == (x, "")
  {
    if |x| > 1 {
      TokenAtEnd(x[1..], delims);
      assert x == [x[0]] + x[1..];
    }
  }

  lemma {:induction false} SkipBlanks(n: nat, s: string)
    ensures NextToken(Blanks(n) + s, BLANKS) == NextToken(s, BLANKS)
  {
    var t := Blanks(n) + s;
    if n == 0 {
      assert t == s;
    } else {
      assert t[1..] == Blanks(n - 1) + s;
      SkipBlanks(n - 1, s);
    }
  }

  lemma DigitsAreNotBlank(s: string)
    requires forall i :: 0 <= i < |s| ==> IsDigit(s[i]) || s[i] == '-'
    ensures forall i :: 0 <= i < |s| ==> s[i] !in BLANKS && s[i] != '\n'
  {
  }

  lemma CellRead(c: nat)
    requires c <= 255
    ensures CellValue(Decimal(c)) == c
  {
    StrtolDecimal(c, "");
    assert SignedDecimal(c) + "" == Decimal(c);
  }

  lemma PaddedShape(s: string, rest: string)
    ensures Padded(s) + rest == Blanks(Padding(s)) + (s + [' '] + rest)
  {
  }

  /** The token of a printed cell. */
  lemma CellToken(c: nat, rest: string)
    requires c <= 255
    ensures NextToken(CellText(c) + rest, BLANKS) == (Decimal(c), rest)
  {
    assert c % 256 == c;
    PaddedShape(Decimal(c), rest);
    SkipBlanks(Padding(Decimal(c)), Decimal(c) + [' '] + rest);
    DigitsAreNotBlank(Decimal(c));
    TokenAt(Decimal(c), ' ', rest, BLANKS);
  }

  lemma FirstCellRead(c: nat, text: string, rest: string)
    requires c <= 255 && text == CellText(c) + rest
    ensures Values(Tokens(text, BLANKS)) == [c] + Values(Tokens(rest, BLANKS))
  {
    CellToken(c, rest);
    CellRead(c);
    assert Tokens(text, BLANKS) == [Decimal(c)] + Tokens(rest, BLANKS);
  }

  /** Reading a line of cells, with or without its newline, gives the cells back. */
  lemma {:induction false} RowValues(cells: seq<nat>, end: string)
    requires forall i :: 0 <= i < |cells| ==> cells[i] <= 255
    requires end == "" || end == "\n"
    ensures Values(Tokens(RowText(cells) + end, BLANKS)) == cells
  {
    if cells == [] {
      assert RowText(cells) + end == end;
      assert end != "" ==> end[1..] == "";
    } else {
      var rest := RowText(cells[1..]) + end;
      assert RowText(cells) + end == CellText(cells[0]) + rest;
      FirstCellRead(cells[0], RowText(cells) + end, rest);
      RowValues(cells[1..], end);
    }
  }

  lemma {:induction false} BlanksLength(n: nat)
    ensures |Blanks(n)| == n && '\n' !in Blanks(n)
  {
    if n > 0 {
      BlanksLength(n - 1);
    }
  }

  /** Printed cells take four characters each, none of them a newline. */
  lemma {:induction false} RowLength(cells: seq<nat>)
    requires forall i :: 0 <= i < |cells| ==> cells[i] <= 255
    ensures |RowText(cells)| == 4 * |cells| && '\n' !in RowText(cells)
  {
    if cells != [] {
      ByteLength(cells[0]);
      BlanksLength(Padding(Decimal(cells[0])));
      DigitsAreNotBlank(Decimal(cells[0]));
      RowLength(cells[1..]);
    }
  }

  /** The first full line is read as its cells, and the rest is left for later. */
  lemma LineParses(row: seq<nat>, rest: string)
    requires |row| == CELLS_IN_LINE && forall i :: 0 <= i < |row| ==> row[i] <= 255
    ensures ParseCells(RowText(row) + "\n" + rest) == row + ParseCells(rest)
  {
    RowLength(row);
    FgetsLine(RowText(row), rest, MAX_LINE_LEN);
    RowValues(row, "\n");
  }

  lemma LastLineParses(cells: seq<nat>)
    requires |cells| < CELLS_IN_LINE && forall i :: 0 <= i < |cells| ==> cells[i] <= 255
    ensures ParseCells(RowText(cells)) == cells
  {
    RowLength(cells);
    if cells != [] {
      FgetsLast(RowText(cells), MAX_LINE_LEN);
      RowValues(cells, "");
      assert RowText(cells) + "" == RowText(cells);
    }
  }

  lemma {:induction false} BodyParses(cells: seq<nat>)
    requires forall i :: 0 <= i < |cells| ==> cells[i] <= 255
    ensures ParseCells(BodyText(cells)) == cells
    decreases |cells|
  {
    if |cells| < CELLS_IN_LINE {
      LastLineParses(cells);
    } else {
      BodyParses(cells[CELLS_IN_LINE..]);
      LineParses(cells[..CELLS_IN_LINE], BodyText(cells[CELLS_IN_LINE..]));
      Rejoin(cells);
    }
  }

  lemma Rejoin(cells: seq<nat>)
    requires |cells| >= CELLS_IN_LINE
    ensures cells[..CELLS_IN_LINE] + cells[CELLS_IN_LINE..] == cells
  {
  }

  /** The header is read back as the first line, the two sizes and the maximum. */
  lemma HeaderParses(img: Pgm, body: string)
    requires Printable(img)
    ensures Parse(HeaderText(img) + body) ==
            Some(Pgm([img.kind[0], img.kind[1]] + "\n", img.width, img.height, img.pixelMax, ParseCells(body)))
  {
    var w, h, m := SignedDecimal(img.width), SignedDecimal(img.height), SignedDecimal(img.pixelMax);
    var kind := [img.kind[0], img.kind[1]];
    IntLength(img.width);
    IntLength(img.height);
    IntLength(img.pixelMax);
    DigitsAreNotBlank(w);
    DigitsAreNotBlank(h);
    DigitsAreNotBlank(m);
    var s2 := m + "\n" + body;
    var s1 := (w + " " + h) + "\n" + s2;
    assert HeaderText(img) + body == kind + "\n" + s1;
    FgetsLine(kind, s1, LINE_LEN);
    FgetsLine(w + " " + h, s2, MAX_LINE_LEN);
    FgetsLine(m, body, MAX_LINE_LEN);
    assert (w + " " + h) + "\n" == w + [' '] + (h + "\n");
    TokenAt(w, ' ', h + "\n", " ");
    TokenAtEnd(h + "\n", " ");
    StrtolDecimal(img.width, "");
    assert w + "" == w;
    StrtolDecimal(img.height, "\n");
    StrtolDecimal(img.pixelMax, "\n");
  }

  /** The printer and the parser undo each other: the type characters, the sizes, the maximum and all cells
      come back, and printing what was read gives the same text. */
  lemma PrintThenParse(img: Pgm)
    requires Printable(img)
    ensures Parse(Print(img)) == Some(img.(kind := [img.kind[0], img.kind[1]] + "\n"))
    ensures Print(Parse(Print(img)).value) == Print(img)
  {
    HeaderParses(img, BodyText(img.cells));
    BodyParses(img.cells);
  }

  /** Every line of `s`, with its newline, has at most n characters. */
  predicate LinesWithin(s: string, n: nat)
    decreases |s|
  {
    s == "" || (var (line, rest) := Fgets(s, |s| + 2); |line| <= n && LinesWithin(rest, n))
  }

  lemma FullLineFits(row: seq<nat>, rest: string)
    requires |row| == CELLS_IN_LINE && (forall i :: 0 <= i < |row| ==> row[i] <= 255) && LinesWithin(rest, LINE_LEN)
    ensures LinesWithin(RowText(row) + "\n" + rest, LINE_LEN)
  {
    RowLength(row);
    FgetsLine(RowText(row), rest, |RowText(row) + "\n" + rest| + 2);
  }

  /** No line of cells is longer than plain PGM allows. */
  lemma {:induction false} CellLinesFit(cells: seq<nat>)
    requires forall i :: 0 <= i < |cells| ==> cells[i] <= 255
    ensures LinesWithin(BodyText(cells), 70)
    decreases |cells|
  {
    if |cells| < CELLS_IN_LINE {
      RowLength(cells);
      FgetsLast(RowText(cells), |RowText(cells)| + 2);
    } else {
      CellLinesFit(cells[CELLS_IN_LINE..]);
      FullLineFits(cells[..CELLS_IN_LINE], BodyText(cells[CELLS_IN_LINE..]));
    }
  }
}
