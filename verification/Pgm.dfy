/** The loops that print and parse images. */
module Pgm {
  import opened CText
  import opened PgmModel
  import opened Sequences

  lemma {:induction false} RowTextNext(cells: seq<nat>, c: nat)
    ensures RowText(cells + [c]) == RowText(cells) + CellText(c)
  {
    if cells == [] {
      assert [c][1..] == [];
    } else {
      assert (cells + [c])[1..] == cells[1..] + [c];
      RowTextNext(cells[1..], c);
    }
  }

  function LineEnd(n: nat): string {
    if n % CELLS_IN_LINE == 0 then "\n" else ""
  }

  lemma LastInLine(cells: seq<nat>, c: nat)
    requires |cells| < CELLS_IN_LINE
    ensures BodyText(cells + [c]) ==
            BodyText(cells) + CellText(c) + (if |cells| + 1 == CELLS_IN_LINE then "\n" else "")
  {
    RowTextNext(cells, c);
    if |cells| + 1 == CELLS_IN_LINE {
      LineOfItsOwn(cells + [c]);
    } else {
      NoEnd(RowText(cells) + CellText(c));
    }
  }

  lemma NoEnd(s: string)
    ensures s + "" == s
  {
  }

  lemma LineOfItsOwn(row: seq<nat>)
    requires |row| == CELLS_IN_LINE
    ensures BodyText(row) == RowText(row) + "\n"
  {
    assert row + [] == row;
    FullLine(row, []);
    NoEnd(RowText(row) + "\n");
  }

  lemma LineEndRepeats(n: nat)
    ensures LineEnd(n + CELLS_IN_LINE) == LineEnd(n)
    ensures n <= CELLS_IN_LINE && n > 0 ==> LineEnd(n) == if n == CELLS_IN_LINE then "\n" else ""
  {
  }

  /** A full line in front changes nothing. */
  lemma AfterLine(cells: seq<nat>, row: seq<nat>, rest: seq<nat>, c: nat, end: string)
    requires |row| == CELLS_IN_LINE && cells == row + rest
    requires BodyText(rest + [c]) == BodyText(rest) + CellText(c) + end
    ensures BodyText(cells + [c]) == BodyText(cells) + CellText(c) + end
  {
    assert cells + [c] == row + (rest + [c]);
    FullLine(row, rest);
    FullLine(row, rest + [c]);
    Regroup(RowText(row) + "\n", BodyText(rest) + CellText(c), end);
    Regroup(RowText(row) + "\n", BodyText(rest), CellText(c));
  }

  /** One more cell, and a newline when that fills the line. */
  lemma {:induction false} BodyTextNext(cells: seq<nat>, c: nat, end: string)
    requires end == LineEnd(|cells| + 1)
    ensures BodyText(cells + [c]) == BodyText(cells) + CellText(c) + end
    decreases |cells|
  {
    if |cells| < CELLS_IN_LINE {
      LineEndRepeats(|cells| + 1);
      LastInLine(cells, c);
    } else {
      var row, rest := cells[..CELLS_IN_LINE], cells[CELLS_IN_LINE..];
      LineEndRepeats(|rest| + 1);
      BodyTextNext(rest, c, end);
      AfterLine(cells, row, rest, c, end);
    }
  }

  lemma FullLine(row: seq<nat>, rest: seq<nat>)
    requires |row| == CELLS_IN_LINE
    ensures BodyText(row + rest) == RowText(row) + "\n" + BodyText(rest)
  {
    assert (row + rest)[..CELLS_IN_LINE] == row && (row + rest)[CELLS_IN_LINE..] == rest;
  }

  /** The loop of save_image over the cells. */
  method PrintCells(cells: seq<nat>) returns (text: string)
    ensures text == BodyText(cells)
  {
    text := "";
    var maxInLine := LINE_LEN / 4;
    var i := 0;
    while i < |cells|
      invariant 0 <= i <= |cells|
      invariant text == BodyText(cells[..i])
    {
      BodyTextNext(cells[..i], cells[i], LineEnd(i + 1));
      assert cells[..i + 1] == cells[..i] + [cells[i]];
      text := text + CellText(cells[i]);
      if (i + 1) % maxInLine == 0 {
        text := text + "\n";
      } else {
        assert text + "" == text;
      }
      i := i + 1;
    }
    assert cells[..|cells|] == cells;
  }

  /** save_image */
  method SaveImage(img: Pgm) returns (file: string)
    requires |img.kind| >= 2 && |img.cells| == img.width * img.height
    ensures file == Print(img)
  {
    file := [img.kind[0], img.kind[1]] + "\n";
    file := file + (SignedDecimal(img.width) + " " + SignedDecimal(img.height) + "\n");
    file := file + (SignedDecimal(img.pixelMax) + "\n");
    var body := PrintCells(img.cells);
    file := file + body;
  }

  /** The token in hand and those still in the buffer. */
  function FromToken(tok: string, buf: string): seq<string> {
    if tok == "" then [] else [tok] + Tokens(buf, BLANKS)
  }

  lemma ValuesNext(tok: string, toks: seq<string>)
    ensures Values([tok] + toks) == [CellValue(tok)] + Values(toks)
  {
  }

  /** The tokens of one line, stored behind the cells read so far. */
  method ReadLine(line: string, cells: seq<nat>) returns (r: seq<nat>)
    ensures r == cells + Values(Tokens(line, BLANKS))
  {
    r := cells;
    var (tok, buf) := NextToken(line, BLANKS);
    while tok != ""
      invariant cells + Values(Tokens(line, BLANKS)) == r + Values(FromToken(tok, buf))
      decreases tok != "", |buf|
    {
      ValuesNext(tok, Tokens(buf, BLANKS));
      Regroup(r, [CellValue(tok)], Values(Tokens(buf, BLANKS)));
      r := r + [CellValue(tok)];
      var next := NextToken(buf, BLANKS);
      tok, buf := next.0, next.1;
    }
  }

  /** load_image */
  method LoadImage(file: string) returns (r: Option<Pgm>)
    ensures r == Parse(file)
  {
    if file == "" {
      return None;
    }
    var (kind, s1) := Fgets(file, LINE_LEN);
    if s1 == "" {
      return None;
    }
    var (sizes, s2) := Fgets(s1, MAX_LINE_LEN);
    var (first, more) := NextToken(sizes, " ");
    var (second, _) := NextToken(more, " ");
    if first == "" || second == "" || s2 == "" {
      return None;
    }
    var (maximum, s3) := Fgets(s2, MAX_LINE_LEN);
    var cells := [];
    var rest := s3;
    while rest != ""
      invariant cells + ParseCells(rest) == ParseCells(s3)
      decreases |rest|
    {
      var (line, after) := Fgets(rest, MAX_LINE_LEN);
      assert |line| > 0 && |line| + |after| == |rest|;
      assert cells + ParseCells(rest) == cells + Values(Tokens(line, BLANKS)) + ParseCells(after);
      cells := ReadLine(line, cells);
      rest := after;
    }
    assert cells + [] == cells;
    return Some(Pgm(kind, Strtol(first), Strtol(second), Strtol(maximum), cells));
  }
}
