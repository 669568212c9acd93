/** The row-addressed file of lab05, seen as a sequence of rows, and the frames that producers send.

    Row numbers start at 1. The file holds, for each row in turn, a newline and the row's text; the text
    before the first newline is always empty. */
module RowFileModel {
  import opened CText

  // ---------- Rows and their flat file ----------

  function Flatten(rows: seq<string>): string {
    if rows == [] then "" else Flatten(rows[..|rows| - 1]) + "\n" + rows[|rows| - 1]
  }

  /** The index the consumer keeps: the length of row k at position k - 1, and a final 0. */
  function Lengths(rows: seq<string>): seq<int> {
    seq(|rows|, k requires 0 <= k < |rows| => |rows[k]|) + [0]
  }

  /** The rows, with empty ones added so that row `r` exists. */
  function Extend(rows: seq<string>, r: nat): (e: seq<string>)
    ensures |e| == (if |rows| < r then r else |rows|)
    ensures forall k :: 0 <= k < |e| ==> e[k] == (if k < |rows| then rows[k] else "")
  {
    rows + seq(if |rows| < r then r - |rows| else 0, _ => "")
  }

  function RowAt(rows: seq<string>, r: nat): string
    requires r >= 1
  {
    if r <= |rows| then rows[r - 1] else ""
  }

  /** What one message means: append `text` to row `r`. */
  function AppendText(rows: seq<string>, r: nat, text: string): (e: seq<string>)
    requires r >= 1
    ensures |e| == (if |rows| < r then r else |rows|)
  {
    var e := Extend(rows, r);
    e[r - 1 := e[r - 1] + text]
  }

  // ---------- Frames ----------

  const SEPARATOR := '\\'

  /** The characters up to the first separator, and what follows it. */
  function ReadToSep(s: string): (r: (string, string))
    ensures s != "" ==> |r.1| < |s|
    ensures SEPARATOR !in r.0
    ensures s == r.0 + r.1 || s == r.0 + [SEPARATOR] + r.1
  {
    if s == "" then ("", "")
    else if s[0] == SEPARATOR then ("", s[1..])
    else
      var r := ReadToSep(s[1..]);
      ([s[0]] + r.0, r.1)
  }

  /** A message: the row number as sent, and the text. */
  datatype Frame = Frame(row: string, text: string)

  /** The messages a consumer reads from the pipe; one without text is the last. */
  function Frames(s: string): seq<Frame>
    decreases |s|
  {
    if s == "" then []
    else
      var (row, s1) := ReadToSep(s);
      var (text, s2) := ReadToSep(s1);
      [Frame(row, text)] + (if text == "" then [] else Frames(s2))
  }

  function EncodeOne(f: Frame): string {
    f.row + [SEPARATOR] + f.text + [SEPARATOR]
  }

  function Encode(fs: seq<Frame>): string {
    if fs == [] then "" else EncodeOne(fs[0]) + Encode(fs[1..])
  }

  ghost predicate Addressed(fs: seq<Frame>) {
    forall f :: f in fs ==> Strtol(f.row) >= 1
  }

  /** The rows after one message. */
  function Received(rows: seq<string>, f: Frame): seq<string>
    requires Strtol(f.row) >= 1
  {
    AppendText(rows, Strtol(f.row), CString(f.text))
  }

  /** The rows after a sequence of messages. */
  function Deliver(rows: seq<string>, fs: seq<Frame>): seq<string>
    requires Addressed(fs)
    decreases |fs|
  {
    if fs == [] then rows
    else Deliver(Received(rows, fs[0]), fs[1..])
  }

  // ---------- Producers ----------

  /** The pieces a producer reads from its file. */
  function Chunks(file: string, n: nat): seq<string>
    requires n >= 1
    decreases |file|
  {
    if file == "" then []
    else if |file| <= n then [file]
    else [file[..n]] + Chunks(file[n..], n)
  }

  function FramesFor(row: string, texts: seq<string>): seq<Frame> {
    seq(|texts|, i requires 0 <= i < |texts| => Frame(row, texts[i]))
  }

  datatype Producer = Producer(row: string, file: string, n: nat)

  /** A message in the pipe, with the producer that wrote it. */
  datatype Message = Message(from: nat, text: string)

  function Texts(msgs: seq<Message>, p: nat): seq<string> {
    if msgs == [] then []
    else (if msgs[0].from == p then [msgs[0].text] else []) + Texts(msgs[1..], p)
  }

  /** `msgs` interleaves the whole frames of the producers: each one's pieces, in its own order. */
  ghost predicate Interleaves(ps: seq<Producer>, msgs: seq<Message>)
    requires forall p :: 0 <= p < |ps| ==> ps[p].n >= 1
  {
    && (forall m :: m in msgs ==> m.from < |ps|)
    && (forall p :: 0 <= p < |ps| ==> Texts(msgs, p) == Chunks(ps[p].file, ps[p].n))
  }

  function MessageFrames(ps: seq<Producer>, msgs: seq<Message>): seq<Frame>
    requires forall m :: m in msgs ==> m.from < |ps|
  {
    seq(|msgs|, i requires 0 <= i < |msgs| => Frame(ps[msgs[i].from].row, msgs[i].text))
  }

  function Join(texts: seq<string>): string {
    if texts == [] then "" else texts[0] + Join(texts[1..])
  }
}
