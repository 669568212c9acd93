/** From the producers' files to the consumer's rows. */
module RowFileTheorems {
  import opened CText
  import opened RowFileModel
  import opened Sequences

  // ---------- The flat file ----------

  lemma {:induction false} FlattenAppend(xs: seq<string>, ys: seq<string>)
    ensures Flatten(xs + ys) == Flatten(xs) + Flatten(ys)
    decreases |ys|
  {
    if ys == [] {
      assert xs + ys == xs;
    } else {
      var k := |ys| - 1;
      assert (xs + ys)[..|xs + ys| - 1] == xs + ys[..k];
      FlattenAppend(xs, ys[..k]);
    }
  }

  /** Appending to the last row appends to the flat file. */
  lemma AppendToLast(rows: seq<string>, text: string)
    requires rows != []
    ensures Flatten(rows[|rows| - 1 := rows[|rows| - 1] + text]) == Flatten(rows) + text
  {
    var k := |rows| - 1;
    var more := rows[k := rows[k] + text];
    assert more[..k] == rows[..k];
    Regroup(Flatten(rows[..k]) + "\n", rows[k], text);
  }

  /** Text inserted at the end of row `r` turns the flat file of the rows into the flat file of the new rows. */
  lemma SpliceIsAppend(rows: seq<string>, r: nat, text: string)
    requires 1 <= r <= |rows|
    ensures |Flatten(rows[..r])| <= |Flatten(rows)|
    ensures var pos := |Flatten(rows[..r])|;
            Flatten(rows)[..pos] + text + Flatten(rows)[pos..] == Flatten(AppendText(rows, r, text))
  {
    var front, back := rows[..r], rows[r..];
    var more := front[r - 1 := front[r - 1] + text];
    assert rows == front + back && AppendText(rows, r, text) == more + back;
    FlattenAppend(front, back);
    FlattenAppend(more, back);
    AppendToLast(front, text);
    InsertBetween(Flatten(front), text, Flatten(back));
  }

  lemma InsertBetween(a: string, t: string, b: string)
    ensures (a + b)[..|a|] + t + (a + b)[|a|..] == a + t + b
  {
    assert (a + b)[..|a|] == a && (a + b)[|a|..] == b;
  }

  function Sum(s: seq<int>): int {
    if s == [] then 0 else Sum(s[..|s| - 1]) + s[|s| - 1]
  }

  /** The position the consumer computes from its index is the end of row `r`. */
  lemma {:induction false} PositionFromIndex(rows: seq<string>, r: nat)
    requires r <= |rows|
    ensures Sum(Lengths(rows)[..r]) + r == |Flatten(rows[..r])|
  {
    if r > 0 {
      PositionFromIndex(rows, r - 1);
      assert Lengths(rows)[..r][..r - 1] == Lengths(rows)[..r - 1];
      assert rows[..r][..r - 1] == rows[..r - 1];
    }
  }

  // ---------- Framing ----------

  lemma {:induction false} ReadToSepAt(x: string, rest: string)
    requires SEPARATOR !in x
    ensures ReadToSep(x + [SEPARATOR] + rest) == (x, rest)
  {
    var s := x + [SEPARATOR] + rest;
    if x == "" {
      assert s[1..] == rest;
    } else {
      assert s[1..] == x[1..] + [SEPARATOR] + rest;
      ReadToSepAt(x[1..], rest);
      assert x == [x[0]] + x[1..];
    }
  }

  /** Reading frames undoes writing them, when no part contains the separator and no text is empty. */
  lemma {:induction false} FramesEncode(fs: seq<Frame>)
    requires forall f :: f in fs ==> '\\' !in f.row && '\\' !in f.text && f.text != ""
    ensures Frames(Encode(fs)) == fs
  {
    if fs != [] {
      var f, rest := fs[0], Encode(fs[1..]);
      var tail := f.text + [SEPARATOR] + rest;
      assert Encode(fs) == f.row + [SEPARATOR] + tail;
      ReadToSepAt(f.row, tail);
      ReadToSepAt(f.text, rest);
      FramesEncode(fs[1..]);
    }
  }

  /** A message without text is the last one that is read, whatever follows it. */
  lemma EmptyTextEnds(row: string, rest: string)
    requires '\\' !in row
    ensures Frames(EncodeOne(Frame(row, "")) + rest) == [Frame(row, "")]
  {
    var tail := [SEPARATOR] + rest;
    assert EncodeOne(Frame(row, "")) + rest == row + [SEPARATOR] + tail;
    ReadToSepAt(row, tail);
  }

  lemma {:induction false} EncodeAppend(xs: seq<Frame>, ys: seq<Frame>)
    ensures Encode(xs + ys) == Encode(xs) + Encode(ys)
  {
    if xs == [] {
      assert xs + ys == ys;
    } else {
      assert (xs + ys)[1..] == xs[1..] + ys;
      EncodeAppend(xs[1..], ys);
    }
  }

  // ---------- Rows after messages ----------

  /** The texts addressed to row `r`, in order of arrival. */
  function Arrived(fs: seq<Frame>, r: nat): string {
    if fs == [] then ""
    else (if Strtol(fs[0].row) == r then CString(fs[0].text) else "") + Arrived(fs[1..], r)
  }

  lemma RowAppended(rows: seq<string>, to: nat, text: string, r: nat)
    requires to >= 1 && r >= 1
    ensures RowAt(AppendText(rows, to, text), r) == RowAt(rows, r) + (if r == to then text else "")
  {
    if r != to {
      assert RowAt(rows, r) + "" == RowAt(rows, r);
    }
  }

  /** Row `r` is the concatenation, in arrival order, of what was sent to it; and it exists if anything was. */
  lemma {:induction false} RowAfter(rows: seq<string>, fs: seq<Frame>, r: nat)
    requires Addressed(fs) && r >= 1
    ensures RowAt(Deliver(rows, fs), r) == RowAt(rows, r) + Arrived(fs, r)
    ensures |Deliver(rows, fs)| >= |rows|
    ensures (exists f :: f in fs && Strtol(f.row) == r) ==> |Deliver(rows, fs)| >= r
    decreases |fs|
  {
    if fs != [] {
      var next := AppendText(rows, Strtol(fs[0].row), CString(fs[0].text));
      RowAppended(rows, Strtol(fs[0].row), CString(fs[0].text), r);
      RowAfter(next, fs[1..], r);
      Regroup(RowAt(rows, r), if Strtol(fs[0].row) == r then CString(fs[0].text) else "", Arrived(fs[1..], r));
    }
  }

  lemma {:induction false} JoinChunks(file: string, n: nat)
    requires n >= 1
    ensures Join(Chunks(file, n)) == file
    ensures forall t :: t in Chunks(file, n) ==> t != "" && |t| <= n && forall c :: c in t ==> c in file
    ensures forall i :: 0 <= i < |Chunks(file, n)| - 1 ==> |Chunks(file, n)[i]| == n
    decreases |file|
  {
    if |file| > n {
      JoinChunks(file[n..], n);
      assert file == file[..n] + file[n..];
      assert Chunks(file, n)[1..] == Chunks(file[n..], n);
    }
  }

  // ---------- Producers and interleavings ----------

  /** The premises on the producers: numbered rows, all different, and text the framing can carry. */
  ghost predicate GoodProducers(ps: seq<Producer>) {
    && (forall p :: 0 <= p < |ps| ==>
          ps[p].n >= 1 && Strtol(ps[p].row) >= 1 && '\\' !in ps[p].row
          && '\\' !in ps[p].file && '\0' !in ps[p].file)
    && (forall p, q :: 0 <= p < q < |ps| ==> Strtol(ps[p].row) != Strtol(ps[q].row))
  }

  lemma {:induction false} TextsFrom(msgs: seq<Message>, k: nat)
    requires k < |msgs|
    ensures msgs[k].text in Texts(msgs, msgs[k].from)
  {
    if k > 0 {
      TextsFrom(msgs[1..], k - 1);
    }
  }

  lemma FramesCarried(ps: seq<Producer>, msgs: seq<Message>, f: Frame)
    requires GoodProducers(ps) && Interleaves(ps, msgs) && f in MessageFrames(ps, msgs)
    ensures SEPARATOR !in f.row && SEPARATOR !in f.text && '\0' !in f.text && f.text != "" && Strtol(f.row) >= 1
    ensures exists p :: 0 <= p < |ps| && f.row == ps[p].row
  {
    var k :| 0 <= k < |msgs| && f == MessageFrames(ps, msgs)[k];
    var p := msgs[k].from;
    TextsFrom(msgs, k);
    JoinChunks(ps[p].file, ps[p].n);
  }

  /** With distinct rows, what arrives for a producer's row is what that producer sent. */
  lemma {:induction false} ArrivedFrom(ps: seq<Producer>, msgs: seq<Message>, p: nat)
    requires GoodProducers(ps) && p < |ps|
    requires forall m :: m in msgs ==> m.from < |ps| && '\0' !in m.text
    ensures Arrived(MessageFrames(ps, msgs), Strtol(ps[p].row)) == Join(Texts(msgs, p))
  {
    if msgs != [] {
      ArrivedFrom(ps, msgs[1..], p);
      assert MessageFrames(ps, msgs)[1..] == MessageFrames(ps, msgs[1..]);
      CStringWhole(msgs[0].text);
      var q := msgs[0].from;
      assert msgs[0] in msgs;
      if q == p {
        assert Texts(msgs, p)[1..] == Texts(msgs[1..], p);
      } else {
        assert Strtol(ps[q].row) != Strtol(ps[p].row);
        assert Texts(msgs, p) == Texts(msgs[1..], p);
      }
    }
  }

  lemma {:induction false} NothingArrived(fs: seq<Frame>, r: nat)
    requires forall f :: f in fs ==> Strtol(f.row) != r
    ensures Arrived(fs, r) == ""
  {
    if fs != [] {
      NothingArrived(fs[1..], r);
    }
  }

  /** Interleaving independence, end to end: whatever the order in which the frames reach the pipe and
      whatever the chunk sizes, the consumer's row of each producer is that producer's whole file, and
      every other row is empty. */
  lemma EndToEnd(ps: seq<Producer>, msgs: seq<Message>)
    requires GoodProducers(ps) && Interleaves(ps, msgs)
    ensures var fs := Frames(Encode(MessageFrames(ps, msgs)));
            && Addressed(fs)
            && (forall p :: 0 <= p < |ps| ==> RowAt(Deliver([], fs), Strtol(ps[p].row)) == ps[p].file)
            && (forall r :: r >= 1 && (forall p :: 0 <= p < |ps| ==> Strtol(ps[p].row) != r) ==>
                  RowAt(Deliver([], fs), r) == "")
  {
    var fs := MessageFrames(ps, msgs);
    forall f | f in fs
      ensures SEPARATOR !in f.row && SEPARATOR !in f.text && f.text != "" && Strtol(f.row) >= 1
      ensures exists p :: 0 <= p < |ps| && f.row == ps[p].row
    {
      FramesCarried(ps, msgs, f);
    }
    FramesEncode(fs);
    forall m | m in msgs
      ensures '\0' !in m.text
    {
      var k :| 0 <= k < |msgs| && m == msgs[k];
      FramesCarried(ps, msgs, fs[k]);
    }
    forall p | 0 <= p < |ps|
      ensures RowAt(Deliver([], fs), Strtol(ps[p].row)) == ps[p].file
    {
      RowAfter([], fs, Strtol(ps[p].row));
      ArrivedFrom(ps, msgs, p);
      JoinChunks(ps[p].file, ps[p].n);
    }
    forall r | r >= 1 && (forall p :: 0 <= p < |ps| ==> Strtol(ps[p].row) != r)
      ensures RowAt(Deliver([], fs), r) == ""
    {
      NothingArrived(fs, r);
      RowAfter([], fs, r);
    }
  }

  // ---------- Reading the file by lines ----------

  /** The lines of a file: what stands between newlines. */
  function Lines(s: string): (ls: seq<string>)
    ensures ls != []
  {
    if s == "" then [""]
    else
      var ls := Lines(s[..|s| - 1]);
      if s[|s| - 1] == '\n' then ls + [""]
      else ls[..|ls| - 1] + [ls[|ls| - 1] + [s[|s| - 1]]]
  }

  lemma {:induction false} LinesAfter(s: string, t: string)
    requires '\n' !in t
    ensures var ls := Lines(s + "\n");
            Lines(s + "\n" + t) == ls[..|ls| - 1] + [t]
    decreases |t|
  {
    var u := s + "\n" + t;
    if t == "" {
      assert u == s + "\n";
      assert (s + "\n")[..|s + "\n"| - 1] == s;
    } else {
      var k := |t| - 1;
      assert u[..|u| - 1] == s + "\n" + t[..k];
      LinesAfter(s, t[..k]);
      assert t == t[..k] + [t[k]];
    }
  }

  /** Where no text contains a newline, line k of the file (counting from 0) is row k. */
  lemma {:induction false} LinesAreRows(rows: seq<string>)
    requires forall k :: 0 <= k < |rows| ==> '\n' !in rows[k]
    ensures Lines(Flatten(rows)) == [""] + rows
  {
    if rows != [] {
      var k := |rows| - 1;
      var s := Flatten(rows[..k]);
      LinesAreRows(rows[..k]);
      LinesAfter(s, rows[k]);
      assert (s + "\n")[..|s + "\n"| - 1] == s;
      assert rows == rows[..k] + [rows[k]];
    }
  }

  lemma RowsWithoutNewlines(ps: seq<Producer>, rows: seq<string>)
    requires forall p :: 0 <= p < |ps| ==> Strtol(ps[p].row) >= 1 && '\n' !in ps[p].file
    requires forall p :: 0 <= p < |ps| ==> RowAt(rows, Strtol(ps[p].row)) == ps[p].file
    requires forall r :: r >= 1 && (forall p :: 0 <= p < |ps| ==> Strtol(ps[p].row) != r) ==> RowAt(rows, r) == ""
    ensures forall k :: 0 <= k < |rows| ==> '\n' !in rows[k]
  {
    forall k | 0 <= k < |rows|
      ensures '\n' !in rows[k]
    {
      assert RowAt(rows, k + 1) == rows[k];
    }
  }

  /** What a reader of the finished file sees, when no producer's file contains a newline: line r, counting
      from 0, is row r, so that a producer's row number names the line that is its file. */
  lemma FinalLines(ps: seq<Producer>, msgs: seq<Message>)
    requires GoodProducers(ps) && Interleaves(ps, msgs)
    requires forall p :: 0 <= p < |ps| ==> '\n' !in ps[p].file
    ensures Addressed(Frames(Encode(MessageFrames(ps, msgs))))
    ensures var rows := Deliver([], Frames(Encode(MessageFrames(ps, msgs))));
            && Lines(Flatten(rows)) == [""] + rows
            && forall p :: 0 <= p < |ps| ==> RowAt(rows, Strtol(ps[p].row)) == ps[p].file
  {
    EndToEnd(ps, msgs);
    var rows := Deliver([], Frames(Encode(MessageFrames(ps, msgs))));
    RowsWithoutNewlines(ps, rows);
    LinesAreRows(rows);
  }
}
