/** The plain PGM text that lab08 prints and parses. */
module PgmModel {
  import opened CText

  const LINE_LEN := 70
  const MAX_LINE_LEN := 3840 * 4
  const CELLS_IN_LINE := LINE_LEN / 4

  /** `kind` is the first line of the file; only its first two characters are printed. */
  datatype Pgm = Pgm(kind: string, width: int, height: int, pixelMax: int, cells: seq<nat>)

  datatype Option<T> = None | Some(value: T)

  // ---------- Printing ----------

  function Blanks(n: nat): string { if n == 0 then "" else [' '] + Blanks(n - 1) }

  /** How many blanks bring a number to three characters. */
  function Padding(s: string): nat { if |s| < 3 then 3 - |s| else 0 }

  function Padded(s: string): string { Blanks(Padding(s)) + s + " " }

  /** %3hhu followed by a blank, for a cell from 0 to 255 */
  function CellText(c: nat): string { Padded(Decimal(c % 256)) }

  function RowText(cells: seq<nat>): string {
    if cells == [] then "" else CellText(cells[0]) + RowText(cells[1..])
  }

  /** Full lines of cells, and a last line that is not terminated. */
  function BodyText(cells: seq<nat>): string {
    if |cells| < CELLS_IN_LINE then RowText(cells)
    else RowText(cells[..CELLS_IN_LINE]) + "\n" + BodyText(cells[CELLS_IN_LINE..])
  }

  function HeaderText(img: Pgm): string
    requires |img.kind| >= 2
  {
    [img.kind[0], img.kind[1]] + "\n"
    + (SignedDecimal(img.width) + " " + SignedDecimal(img.height) + "\n")
    + (SignedDecimal(img.pixelMax) + "\n")
  }

  function Print(img: Pgm): string
    requires |img.kind| >= 2
  {
    HeaderText(img) + BodyText(img.cells)
  }

  // ---------- Parsing ----------

  /** fgets with a buffer of n characters: what it stores, and what is left. Nothing is stored only at the
      end of the file. */
  function Fgets(s: string, n: nat): (r: (string, string))
    ensures s == r.0 + r.1
    ensures n >= 2 && s != "" ==> r.0 != ""
  {
    if s == "" || n <= 1 then ("", s)
    else if s[0] == '\n' then ("\n", s[1..])
    else
      var r := Fgets(s[1..], n - 1);
      ([s[0]] + r.0, r.1)
  }

  /** One call of strtok on the rest of its buffer: the token (empty for NULL) and the new rest. */
  function NextToken(s: string, delims: string): (r: (string, string))
    ensures r.0 != "" ==> |r.1| < |s|
    decreases |s|
  {
    if s == "" then ("", "")
    else if s[0] in delims then NextToken(s[1..], delims)
    else if |s| == 1 then (s, "")
    else if s[1] in delims then ([s[0]], s[2..])
    else
      var r := NextToken(s[1..], delims);
      ([s[0]] + r.0, r.1)
  }

  function Tokens(s: string, delims: string): seq<string>
    decreases |s|
  {
    var (tok, rest) := NextToken(s, delims);
    if tok == "" then [] else [tok] + Tokens(rest, delims)
  }

  const BLANKS := " \t\r\n"

  /** The cell stored for a token. */
  function CellValue(tok: string): nat { Strtol(tok) % 256 }

  function Values(toks: seq<string>): seq<nat> {
    seq(|toks|, i requires 0 <= i < |toks| => CellValue(toks[i]))
  }

  /** The cells in the lines of the rest of the file. */
  function ParseCells(s: string): seq<nat>
    decreases |s|
  {
    if s == "" then []
    else
      var (line, rest) := Fgets(s, MAX_LINE_LEN);
      Values(Tokens(line, BLANKS)) + ParseCells(rest)
  }

  /** The image in a file, or none where the file ends too early. Sizes are signed, as in the program. */
  function Parse(s: string): Option<Pgm> {
    if s == "" then None
    else
      var (kind, s1) := Fgets(s, LINE_LEN);
      if s1 == "" then None
      else
        var (sizes, s2) := Fgets(s1, MAX_LINE_LEN);
        var (first, more) := NextToken(sizes, " ");
        var (second, _) := NextToken(more, " ");
        if first == "" || second == "" || s2 == "" then None
        else
          var (maximum, s3) := Fgets(s2, MAX_LINE_LEN);
          Some(Pgm(kind, Strtol(first), Strtol(second), Strtol(maximum), ParseCells(s3)))
  }
}
