/** The consumer and the producer of lab05: byte-wise copying between unbuffered streams, the index of row
    lengths, and the loops around the pipe. */
module RowFile {
  import opened CText
  import opened RowFileModel
  import opened RowFileTheorems
  import opened Sequences

  /** Writing `t` over `s` from position `p` on. */
  function WriteAt(s: string, p: nat, t: string): string
    requires p <= |s|
  {
    s[..p] + t + (if p + |t| < |s| then s[p + |t|..] else "")
  }

  /** An unbuffered FILE: contents, position and end-of-file flag. */
  class Stream {
    var content: string
    var pos: nat
    var atEof: bool

    constructor (content: string)
      ensures this.content == content && pos == 0 && !atEof
    {
      this.content := content;
      pos, atEof := 0, false;
    }

    /** fseek */
    method Seek(p: nat)
      modifies this`pos, this`atEof
      ensures pos == p && !atEof
    {
      pos, atEof := p, false;
    }

    /** fread of one character: at the end the flag is set and the buffer keeps its old value. */
    method ReadChar(buf: char) returns (c: char)
      modifies this`pos, this`atEof
      ensures old(pos) < |content| ==> c == content[old(pos)] && pos == old(pos) + 1 && atEof == old(atEof)
      ensures old(pos) >= |content| ==> c == buf && pos == old(pos) && atEof
    {
      if pos < |content| {
        c := content[pos];
        pos := pos + 1;
      } else {
        c := buf;
        atEof := true;
      }
    }

    /** fwrite at a position inside the contents or at their end */
    method Write(text: string)
      requires pos <= |content|
      modifies this`pos, this`content
      ensures content == WriteAt(old(content), old(pos), text) && pos == old(pos) + |text|
    {
      content := WriteAt(content, pos, text);
      pos := pos + |text|;
    }
  }

  /** Two writes in a row are one. */
  lemma WriteTwice(s: string, p: nat, t: string, u: string)
    requires p <= |s|
    ensures p + |t| <= |WriteAt(s, p, t)|
    ensures WriteAt(WriteAt(s, p, t), p + |t|, u) == WriteAt(s, p, t + u)
  {
  }

  /** Written over from the start, a text replaces what was there exactly when that was not longer. */
  lemma WriteOver(s: string, t: string)
    ensures |WriteAt(s, 0, t)| == if |s| <= |t| then |t| else |s|
    ensures WriteAt(s, 0, t) == t <==> |s| <= |t|
  {
  }

  /** The characters `from` to `to` of a file. Past the end the last character read comes once more, which is
      what was in the buffer if none has been read. */
  function Copied(s: string, from: nat, to: int, buffer: char): string {
    if to <= from then ""
    else if to <= |s| then s[from..to]
    else if from < |s| then s[from..] + [s[|s| - 1]]
    else [buffer]
  }

  lemma CopiedHead(s: string, pos: nat, buffer: char)
    requires pos <= |s|
    ensures Copied(s, 0, pos, buffer) == s[..pos]
    ensures Copied(s, pos, |s|, buffer) == s[pos..]
  {
  }

  /** What the loop of fcpn has copied after `i` iterations. */
  ghost predicate CopiedSoFar(s: string, from: nat, to: int, buffer: char, i: nat, buf: char, atEof: bool, t: string) {
    if atEof then i > 0 && t == Copied(s, from, to, buffer)
    else
      && (i == 0 || from + i <= |s|)
      && buf == (if i == 0 then buffer else s[from + i - 1])
      && t == (if i == 0 then "" else s[from..from + i])
  }

  /** One iteration: a character is read, or the last one is used again. */
  lemma CopyNext(s: string, from: nat, to: int, buffer: char, i: nat, buf: char, t: string)
    requires i < to - from && CopiedSoFar(s, from, to, buffer, i, buf, false, t)
    ensures if from + i < |s| then CopiedSoFar(s, from, to, buffer, i + 1, s[from + i], false, t + [s[from + i]])
            else CopiedSoFar(s, from, to, buffer, i + 1, buf, true, t + [buf])
  {
  }

  /** fcpn: copy the characters `from` to `to` of `src` to where `dest` stands. `buffer` is what the byte it
      allocates happens to hold. */
  method CopyRange(dest: Stream, src: Stream, from: nat, to: int, buffer: char)
    requires dest != src && dest.pos <= |dest.content|
    modifies dest`pos, dest`content, src`pos, src`atEof
    ensures dest.content == WriteAt(old(dest.content), old(dest.pos), Copied(src.content, from, to, buffer))
    ensures dest.pos == old(dest.pos) + |Copied(src.content, from, to, buffer)|
  {
    src.Seek(from);
    var buf := buffer;
    var i, n: int := 0, to - from;
    ghost var text := "";
    assert WriteAt(dest.content, dest.pos, "") == dest.content;
    while !src.atEof && i < n
      invariant 0 <= i && (i > 0 ==> i <= n) && (src.atEof || src.pos == from + i)
      invariant CopiedSoFar(src.content, from, to, buffer, i, buf, src.atEof, text)
      invariant dest.pos == old(dest.pos) + |text| <= |dest.content|
      invariant dest.content == WriteAt(old(dest.content), old(dest.pos), text)
      decreases n - i
    {
      CopyNext(src.content, from, to, buffer, i, buf, text);
      buf := src.ReadChar(buf);
      WriteTwice(old(dest.content), old(dest.pos), text, [buf]);
      text := text + [buf];
      dest.Write([buf]);
      i := i + 1;
    }
  }

  /** What is left of the pipe's contents; reading consumes it. */
  class Pipe {
    var content: string

    constructor ()
      ensures content == ""
    {
      content := "";
    }

    method Send(data: string)
      modifies this
      ensures content == old(content) + data
    {
      content := content + data;
    }

    /** readtosep */
    method ReadToSeparator() returns (data: string)
      modifies this
      ensures (data, content) == ReadToSep(old(content))
    {
      data := "";
      assert data + ReadToSep(content).0 == ReadToSep(content).0;
      while content != "" && content[0] != SEPARATOR
        invariant ReadToSep(old(content)) == (data + ReadToSep(content).0, ReadToSep(content).1)
        decreases |content|
      {
        ghost var r := ReadToSep(content[1..]);
        assert data + ([content[0]] + r.0) == (data + [content[0]]) + r.0;
        data := data + [content[0]];
        content := content[1..];
      }
      assert data + "" == data;
      if content != "" {
        content := content[1..];
      }
    }
  }

  /** The next piece read from position `at` on. */
  lemma NextChunk(file: string, at: nat, n: nat)
    requires n >= 1 && at < |file|
    ensures var k := if |file| - at < n then |file| - at else n;
            Chunks(file[at..], n) == [file[at..at + k]] + Chunks(file[at + k..], n)
  {
    var rest := file[at..];
    if |rest| <= n {
      assert file[at..|file|] == rest && file[|file|..] == "";
    } else {
      assert rest[..n] == file[at..at + n] && rest[n..] == file[at + n..];
    }
  }

  lemma EncodeNext(row: string, sent: seq<string>, buf: string)
    ensures Encode(FramesFor(row, sent + [buf])) ==
            Encode(FramesFor(row, sent)) + EncodeOne(Frame(row, buf))
  {
    var f := Frame(row, buf);
    assert FramesFor(row, sent + [buf]) == FramesFor(row, sent) + [f];
    EncodeAppend(FramesFor(row, sent), [f]);
    assert [f][1..] == [];
  }

  /** The producer's loop: read at most n characters at a time, and send each piece as one frame. */
  method Produce(pipe: Pipe, row: string, file: string, n: nat)
    requires n >= 1
    modifies pipe
    ensures pipe.content == old(pipe.content) + Encode(FramesFor(row, Chunks(file, n)))
  {
    var at := 0;
    ghost var sent: seq<string> := [];
    ghost var before := pipe.content;
    assert file[0..] == file;
    while at < |file|
      invariant at <= |file|
      invariant Chunks(file, n) == sent + Chunks(file[at..], n)
      invariant pipe.content == before + Encode(FramesFor(row, sent))
    {
      var reader := if |file| - at < n then |file| - at else n;
      var buf := file[at..at + reader];
      ghost var encoded := Encode(FramesFor(row, sent));
      NextChunk(file, at, n);
      Regroup(sent, [buf], Chunks(file[at + reader..], n));
      EncodeNext(row, sent, buf);
      Regroup(before, encoded, EncodeOne(Frame(row, buf)));
      pipe.Send(EncodeOne(Frame(row, buf)));
      sent := sent + [buf];
      at := at + reader;
    }
    NoMoreChunks(sent);
  }

  lemma NoMoreChunks(sent: seq<string>)
    ensures sent + [] == sent
  {
  }

  lemma FlattenNext(rows: seq<string>)
    ensures Flatten(rows + [""]) == Flatten(rows) + "\n"
    ensures Lengths(rows + [""]) == Lengths(rows) + [0]
  {
    var next := rows + [""];
    assert next[..|next| - 1] == rows;
  }

  /** What one message does to the extended rows' index. */
  lemma AppendLengths(rows: seq<string>, r: nat, text: string)
    requires r >= 1
    ensures var e := Extend(rows, r);
            Lengths(e)[r - 1 := Lengths(e)[r - 1] + |text|] == Lengths(AppendText(rows, r, text))
  {
  }

  /** What one message does to the extended rows' flat file, at the position computed from the index. */
  lemma AppendSplices(rows: seq<string>, r: nat, text: string)
    requires r >= 1
    ensures var e := Extend(rows, r);
            var pos := Sum(Lengths(e)[..r]) + r;
            && 0 <= pos <= |Flatten(e)|
            && Flatten(e)[..pos] + text + Flatten(e)[pos..] == Flatten(AppendText(rows, r, text))
  {
    var e := Extend(rows, r);
    ExtendTwice(rows, r, text);
    PositionFromIndex(e, r);
    SpliceIsAppend(e, r, text);
  }

  lemma ExtendTwice(rows: seq<string>, r: nat, text: string)
    requires r >= 1
    ensures AppendText(Extend(rows, r), r, text) == AppendText(rows, r, text)
  {
    assert Extend(Extend(rows, r), r) == Extend(rows, r);
  }

  /** The same in a file that is too long. */
  lemma ExcessSplices(rows: seq<string>, r: nat, text: string, content: string, excess: nat)
    requires r >= 1 && |content| == |Flatten(Extend(rows, r))| + excess
    requires excess == 0 ==> content == Flatten(Extend(rows, r))
    ensures var pos := Sum(Lengths(Extend(rows, r))[..r]) + r;
            var next := Flatten(AppendText(rows, r, text));
            && 0 <= pos <= |content|
            && |content[..pos] + text + content[pos..]| == |next| + excess
            && (excess == 0 ==> content[..pos] + text + content[pos..] == next)
  {
    AppendSplices(rows, r, text);
  }

  /** How much longer the first length is. */
  function Surplus(a: nat, b: nat): nat { if a > b then a - b else 0 }

  /** What is written over the temporary file is what was to be written, or too long. */
  lemma ExcessStays(stale: string, spliced: string, next: string, excess: nat)
    requires |spliced| == |next| + excess && (excess == 0 ==> spliced == next)
    ensures var w, more := WriteAt(stale, 0, spliced), excess + Surplus(|stale|, |next| + excess);
            |w| == |next| + more && (more == 0 ==> w == next)
  {
    WriteOver(stale, spliced);
  }

  class Consumer {
    const file: Stream
    const copy: Stream
    var len: seq<int>
    var lines: nat

    ghost predicate Valid()
      reads this
    {
      file != copy && lines == |len|
    }

    /** The file and its index stand for these rows. */
    ghost predicate Holds(rows: seq<string>)
      reads this, file
    {
      Valid() && file.content == Flatten(rows) && len == Lengths(rows)
    }

    /** The index stands for these rows, and the file does too unless it is too long by `excess` characters. */
    ghost predicate Indexes(rows: seq<string>, excess: nat)
      reads this, file
    {
      && Valid() && len == Lengths(rows)
      && |file.content| == |Flatten(rows)| + excess
      && (excess == 0 ==> file.content == Flatten(rows))
    }

    /** The data file is opened for writing, and so emptied; the temporary file is as it was left. */
    constructor (leftover: string)
      ensures Holds([]) && copy.content == leftover && fresh(file) && fresh(copy)
    {
      file := new Stream("");
      copy := new Stream(leftover);
      len, lines := [0], 1;
    }

    /** One more empty row. */
    method AddLine(ghost rows: seq<string>, ghost excess: nat)
      requires Indexes(rows, excess) && file.pos == |file.content|
      modifies this, file
      ensures Indexes(rows + [""], excess) && file.pos == |file.content|
      ensures lines == old(lines) + 1
    {
      FlattenNext(rows);
      file.Write("\n");
      len := len + [0];
      lines := lines + 1;
    }

    /** Add newlines and index entries until row `rowno` exists. */
    method AddLines(rowno: nat, ghost rows: seq<string>, ghost excess: nat)
      requires Indexes(rows, excess)
      modifies this, file
      ensures Indexes(Extend(rows, rowno), excess)
      ensures lines == |Extend(rows, rowno)| + 1
    {
      file.Seek(|file.content|);
      ghost var now := rows;
      var i := lines;
      while i <= rowno
        invariant Indexes(now, excess) && |rows| <= |now|
        invariant forall k :: 0 <= k < |now| ==> now[k] == if k < |rows| then rows[k] else ""
        invariant i == lines == |now| + 1 && |now| <= (if |rows| < rowno then rowno else |rows|)
        invariant file.pos == |file.content|
      {
        AddLine(now, excess);
        now := now + [""];
        i := i + 1;
      }
      assert now == Extend(rows, rowno);
      file.Seek(0);
    }

    /** The end of row `rowno`, from the index alone. */
    method Position(rowno: nat) returns (pos: int)
      requires Valid() && rowno <= |len|
      ensures pos == Sum(len[..rowno]) + rowno
    {
      pos := 0;
      for i := 0 to rowno
        invariant pos == Sum(len[..i])
      {
        assert len[..i + 1][..i] == len[..i];
        pos := pos + len[i];
      }
      pos := pos + rowno;
    }

    /** Insert `text` at `pos` by way of the temporary file, which is opened without being truncated. The
        splice is exact if and only if the temporary file was not longer than the result; afterwards the
        two files are equal, so that the next splice is exact. */
    method Splice(pos: nat, text: string, buffer: char)
      requires Valid() && pos <= |file.content|
      modifies file, copy
      ensures var spliced := old(file.content)[..pos] + text + old(file.content)[pos..];
              copy.content == WriteAt(old(copy.content), 0, spliced)
      ensures file.content == copy.content
      ensures file.content == old(file.content)[..pos] + text + old(file.content)[pos..] <==>
              |old(copy.content)| <= |old(file.content)| + |text|
    {
      ghost var before := file.content;
      ghost var stale := copy.content;
      ghost var head, tail := before[..pos], before[pos..];
      copy.Seek(0);
      CopiedHead(before, pos, buffer);
      CopyRange(copy, file, 0, pos, buffer);
      WriteTwice(stale, 0, head, text);
      copy.Write(text);
      WriteTwice(stale, 0, head + text, tail);
      CopyRange(copy, file, pos, |file.content|, buffer);
      WriteOver(stale, head + text + tail);
      file.Seek(0);
      WriteOver(before, copy.content);
      CopiedHead(copy.content, |copy.content|, buffer);
      CopyRange(file, copy, 0, |copy.content|, buffer);
    }

    /** All of writeaddline but the last update of the index. */
    method InsertText(text: string, rowno: nat, buffer: char, ghost rows: seq<string>, ghost excess: nat)
      returns (ghost spliced: string)
      requires Indexes(rows, excess) && rowno >= 1
      modifies this, file, copy
      ensures Valid() && len == Lengths(Extend(rows, rowno))
      ensures |spliced| == |Flatten(AppendText(rows, rowno, text))| + excess
      ensures excess == 0 ==> spliced == Flatten(AppendText(rows, rowno, text))
      ensures file.content == copy.content == WriteAt(old(copy.content), 0, spliced)
    {
      AddLines(rowno, rows, excess);
      var pos := Position(rowno);
      ExcessSplices(rows, rowno, text, file.content, excess);
      spliced := file.content[..pos] + text + file.content[pos..];
      Splice(pos, text, buffer);
    }

    /** writeaddline: one message refines "append text to row rowno" in the index. The file becomes longer by as
        much, or as long as the temporary file was, whose tail then stays behind the rows in both files. */
    method WriteAddLine(text: string, rowno: nat, buffer: char, ghost rows: seq<string>, ghost excess: nat)
      requires Indexes(rows, excess) && rowno >= 1
      modifies this, file, copy
      ensures var next := AppendText(rows, rowno, text);
              && Indexes(next, excess + Surplus(|old(copy.content)|, |Flatten(next)| + excess))
              && (excess == 0 ==> file.content == WriteAt(old(copy.content), 0, Flatten(next)))
      ensures copy.content == file.content
    {
      ghost var next := AppendText(rows, rowno, text);
      ghost var spliced := InsertText(text, rowno, buffer, rows, excess);
      ExcessStays(old(copy.content), spliced, Flatten(next), excess);
      AppendLengths(rows, rowno, text);
      len := len[rowno - 1 := len[rowno - 1] + |text|];
    }

    /** One round of the loop of main: read a message and write it to the file. */
    method ReceiveOne(pipe: Pipe, buffer: char, ghost rows: seq<string>, ghost excess: nat)
      returns (more: bool, ghost next: seq<string>)
      requires Indexes(rows, excess) && pipe.content != "" && Strtol(Frames(pipe.content)[0].row) >= 1
      modifies this, file, copy, pipe
      ensures next == Received(rows, old(Frames(pipe.content))[0])
      ensures Indexes(next, excess + Surplus(|old(copy.content)|, |Flatten(next)| + excess))
      ensures copy.content == file.content
      ensures old(Frames(pipe.content))[1..] == if more then Frames(pipe.content) else []
      ensures |pipe.content| < |old(pipe.content)|
    {
      var data := pipe.ReadToSeparator();
      var rowno := Strtol(data);
      var text := pipe.ReadToSeparator();
      next := AppendText(rows, rowno, CString(text));
      WriteAddLine(CString(text), rowno, buffer, rows, excess);
      more := text != "";
    }

    /** The loop of main, up to the point where the pipe is exhausted. The rows come out as sent exactly when the
        temporary file left over from before is not longer than the file after the first message; otherwise its
        tail stays in the file for good. */
    method Consume(pipe: Pipe, buffer: char, ghost rows: seq<string>)
      requires Holds(rows) && Addressed(Frames(pipe.content))
      modifies this, file, copy, pipe
      ensures var fs := old(Frames(pipe.content));
              && len == Lengths(Deliver(rows, fs))
              && (Holds(Deliver(rows, fs)) <==>
                    fs == [] || |old(copy.content)| <= |Flatten(Received(rows, fs[0]))|)
    {
      ghost var all := Frames(pipe.content);
      ghost var now, excess: nat := rows, 0;
      var more := true;
      if pipe.content != "" {
        excess := Surplus(|copy.content|, |Flatten(Received(rows, all[0]))|);
        more, now := ReceiveOne(pipe, buffer, rows, 0);
      }
      while more && pipe.content != ""
        invariant var rest := if more then Frames(pipe.content) else [];
                  Addressed(rest) && Deliver(rows, all) == Deliver(now, rest)
        invariant Indexes(now, excess)
        invariant pipe.content != "" && more ==> copy.content == file.content
        decreases |pipe.content|
      {
        LongerFile(now, Frames(pipe.content)[0]);
        more, now := ReceiveOne(pipe, buffer, now, excess);
      }
    }
  }

  /** Messages only make the file longer. */
  lemma LongerFile(rows: seq<string>, f: Frame)
    requires Strtol(f.row) >= 1
    ensures |Flatten(rows)| <= |Flatten(Received(rows, f))|
  {
    var r := Strtol(f.row);
    var e := Extend(rows, r);
    assert e[..|rows|] == rows && e == rows + e[|rows|..];
    FlattenAppend(rows, e[|rows|..]);
    SpliceIsAppend(e, r, CString(f.text));
    assert Extend(e, r) == e;
  }
}
