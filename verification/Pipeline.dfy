/** The interpreter of lab05/ex1: splitting an argument list into commands, and wiring the commands of a
    pipeline with pipes. */
module Pipeline {
  import opened Sequences

  // ---------- Splitting on '|' ----------

  /** An argument that starts with a bar separates two commands. */
  predicate IsBar(arg: string) { arg != "" && arg[0] == '|' }

  /** The number of arguments in front of the first separator. */
  function FirstBar(args: seq<string>): (k: nat)
    ensures k <= |args|
    ensures forall i :: 0 <= i < k ==> !IsBar(args[i])
    ensures k < |args| ==> IsBar(args[k])
  {
    if args == [] || IsBar(args[0]) then 0 else 1 + FirstBar(args[1..])
  }

  /** The commands of an argument list. A separator at the very end starts no further command. */
  function Segments(args: seq<string>): seq<seq<string>>
    decreases |args|
  {
    if args == [] then []
    else
      var k := FirstBar(args);
      if k == |args| then [args] else [args[..k]] + Segments(args[k + 1..])
  }

  /** The commands written out, each followed by the next separator as long as there are any. */
  function WithBars(commands: seq<seq<string>>, bars: seq<string>): seq<string>
    decreases |commands|
  {
    if commands == [] then []
    else if bars == [] then commands[0] + WithBars(commands[1..], [])
    else commands[0] + ([bars[0]] + WithBars(commands[1..], bars[1..]))
  }

  /** There is a separator between any two commands, and perhaps one at the end. */
  ghost predicate Separated(commands: seq<seq<string>>, bars: seq<string>) {
    && |bars| <= |commands| <= |bars| + 1
    && (forall k :: 0 <= k < |bars| ==> bars[k] != "" && bars[k][0] == '|')
    && (forall k, i :: 0 <= k < |commands| && 0 <= i < |commands[k]| ==>
          commands[k][i] == "" || commands[k][i][0] != '|')
  }

  lemma {:induction false} FirstBarAt(c: seq<string>, rest: seq<string>)
    requires forall i :: 0 <= i < |c| ==> !IsBar(c[i])
    requires rest == [] || IsBar(rest[0])
    ensures FirstBar(c + rest) == |c|
  {
    if c == [] {
      assert c + rest == rest;
    } else {
      assert (c + rest)[1..] == c[1..] + rest;
      FirstBarAt(c[1..], rest);
    }
  }

  /** Splitting undoes writing out, exactly when the last command is not empty or has a separator after it. A
      separator is any argument that begins with a bar, and no other. */
  lemma {:induction false} SegmentsUndoBars(commands: seq<seq<string>>, bars: seq<string>)
    requires Separated(commands, bars)
    ensures Segments(WithBars(commands, bars)) == commands <==>
            commands == [] || |bars| == |commands| || commands[|commands| - 1] != []
    decreases |commands|
  {
    if commands != [] {
      NotBars(commands, bars);
      if bars == [] {
        OneSegment(commands[0]);
        assert commands[0] + WithBars([], []) == commands[0] && commands == [commands[0]];
      } else {
        SegmentsUndoBars(commands[1..], bars[1..]);
        UndoFirst(commands, bars[0], WithBars(commands[1..], bars[1..]));
      }
    }
  }

  lemma UndoFirst(commands: seq<seq<string>>, bar: string, rest: seq<string>)
    requires commands != [] && (forall i :: 0 <= i < |commands[0]| ==> !IsBar(commands[0][i])) && IsBar(bar)
    ensures Segments(commands[0] + ([bar] + rest)) == commands <==> Segments(rest) == commands[1..]
  {
    FirstSegment(commands[0], bar, rest);
    SameTail(commands[0], Segments(rest), commands);
  }

  lemma NotBars(commands: seq<seq<string>>, bars: seq<string>)
    requires Separated(commands, bars) && commands != []
    ensures forall i :: 0 <= i < |commands[0]| ==> !IsBar(commands[0][i])
    ensures bars != [] ==> IsBar(bars[0]) && Separated(commands[1..], bars[1..])
  {
  }

  lemma OneSegment(c: seq<string>)
    requires forall i :: 0 <= i < |c| ==> !IsBar(c[i])
    ensures Segments(c) == if c == [] then [] else [c]
  {
    FirstBarAt(c, []);
    assert c + [] == c && c[..|c|] == c;
  }

  /** Every argument list is written out like that: from its commands, with some separators. */
  lemma SegmentsRejoin(args: seq<string>) returns (bars: seq<string>)
    ensures Separated(Segments(args), bars) && WithBars(Segments(args), bars) == args
  {
    var commands;
    commands, bars := TakeApart(args);
    SegmentsUndoBars(commands, bars);
  }

  lemma {:induction false} TakeApart(args: seq<string>) returns (commands: seq<seq<string>>, bars: seq<string>)
    ensures Separated(commands, bars) && WithBars(commands, bars) == args
    ensures commands == [] || |bars| == |commands| || commands[|commands| - 1] != []
    decreases |args|
  {
    if args == [] {
      return [], [];
    }
    var k := FirstBar(args);
    if k == |args| {
      assert args + WithBars([], []) == args;
      return [args], [];
    }
    commands, bars := TakeApart(args[k + 1..]);
    RejoinFirst(args, k, commands, bars);
    commands, bars := [args[..k]] + commands, [args[k]] + bars;
  }

  lemma RejoinFirst(args: seq<string>, k: nat, commands: seq<seq<string>>, bars: seq<string>)
    requires k < |args| && IsBar(args[k]) && forall i :: 0 <= i < k ==> !IsBar(args[i])
    requires Separated(commands, bars) && WithBars(commands, bars) == args[k + 1..]
    ensures Separated([args[..k]] + commands, [args[k]] + bars)
    ensures WithBars([args[..k]] + commands, [args[k]] + bars) == args
  {
    InFront(args[..k], commands, args[k], bars);
    assert args == args[..k] + ([args[k]] + args[k + 1..]);
  }

  lemma InFront(c: seq<string>, commands: seq<seq<string>>, bar: string, bars: seq<string>)
    requires Separated(commands, bars) && IsBar(bar) && forall i :: 0 <= i < |c| ==> !IsBar(c[i])
    ensures Separated([c] + commands, [bar] + bars)
    ensures WithBars([c] + commands, [bar] + bars) == c + ([bar] + WithBars(commands, bars))
  {
    assert ([c] + commands)[1..] == commands && ([bar] + bars)[1..] == bars;
  }

  lemma FirstSegment(c: seq<string>, bar: string, rest: seq<string>)
    requires (forall i :: 0 <= i < |c| ==> !IsBar(c[i])) && IsBar(bar)
    ensures Segments(c + ([bar] + rest)) == [c] + Segments(rest)
  {
    var tail := [bar] + rest;
    FirstBarAt(c, tail);
    assert (c + tail)[..|c|] == c && (c + tail)[|c| + 1..] == rest;
  }

  lemma SameTail(c: seq<string>, rest: seq<seq<string>>, commands: seq<seq<string>>)
    requires commands != [] && commands[0] == c
    ensures [c] + rest == commands <==> rest == commands[1..]
  {
    assert commands == [c] + commands[1..];
    assert ([c] + rest)[1..] == rest;
  }

  /** The next command, when the arguments from i to j are not separators and j is the end or a separator. */
  lemma NextSegment(args: seq<string>, i: nat, j: nat)
    requires i <= j <= |args| && i < |args|
    requires forall k :: i <= k < j ==> !IsBar(args[k])
    requires j < |args| ==> IsBar(args[j])
    ensures Segments(args[i..]) == [args[i..j]] + Segments(args[(if j < |args| then j + 1 else j)..])
  {
    var rest := args[i..];
    assert rest == args[i..j] + args[j..];
    FirstBarAt(args[i..j], args[j..]);
    assert rest[..j - i] == args[i..j];
    if j < |args| {
      assert rest[j - i + 1..] == args[j + 1..];
    } else {
      assert args[i..j] == rest && args[j..] == [];
    }
  }

  /** The first separator from position i on. */
  method FindBar(args: seq<string>, i: nat) returns (j: nat)
    requires i <= |args|
    ensures i <= j <= |args|
    ensures forall k :: i <= k < j ==> !IsBar(args[k])
    ensures j < |args| ==> IsBar(args[j])
  {
    j := i;
    while j < |args| && !IsBar(args[j])
      invariant i <= j <= |args|
      invariant forall k :: i <= k < j ==> !IsBar(args[k])
    {
      j := j + 1;
    }
  }

  method CopyCommand(args: seq<string>, i: nat, j: nat) returns (copied: seq<string>)
    requires i <= j <= |args|
    ensures copied == args[i..j]
  {
    copied := [];
    for k := i to j
      invariant copied == args[i..k]
    {
      copied := copied + [args[k]];
    }
  }

  /** appendargs */
  method AppendArgs(command: seq<seq<string>>, args: seq<string>) returns (r: seq<seq<string>>)
    ensures r == command + Segments(args)
  {
    r := command;
    var i := 0;
    assert args[0..] == args;
    while i < |args|
      invariant 0 <= i <= |args|
      invariant command + Segments(args) == r + Segments(args[i..])
      decreases |args| - i
    {
      var j := FindBar(args, i);
      var copied := CopyCommand(args, i, j);
      NextSegment(args, i, j);
      var next := if j < |args| then j + 1 else j;
      Regroup(r, [copied], Segments(args[next..]));
      r := r + [copied];
      i := next;
    }
    assert args[i..] == [] && r + [] == r;
  }

  // ---------- Wiring ----------

  /** One end of the k-th pipe. */
  datatype End = End(pipe: nat, write: bool)

  datatype Stream = Inherited | FromPipe(end: End)

  /** A child at its exec: standard input and output, and the pipe ends it still has open besides. */
  datatype Child = Child(input: Stream, output: Stream, open: set<End>)

  /** The child that a pipeline of n commands needs in place i. */
  function WiredChild(n: nat, i: nat): Child {
    Child(if i > 0 then FromPipe(End(i - 1, false)) else Inherited,
          if i + 1 < n then FromPipe(End(i, true)) else Inherited,
          {})
  }

  ghost predicate Holds(c: Child, e: End) {
    c.input == FromPipe(e) || c.output == FromPipe(e) || e in c.open
  }

  /** One child's output goes into a pipe that is the other one's input. */
  ghost predicate Feeds(a: Child, b: Child) {
    a.output.FromPipe? && b.input.FromPipe? && a.output.end.write && !b.input.end.write
    && a.output.end.pipe == b.input.end.pipe
  }

  function BothEnds(k: nat): set<End> { {End(k, false), End(k, true)} }

  class Shell {
    var open: set<End>
    var children: seq<Child>

    constructor ()
      ensures open == {} && children == []
    {
      open, children := {}, [];
    }

    /** The k-th call of pipe: both ends are open in the parent. */
    method OpenPipe(k: nat)
      modifies this`open
      ensures open == old(open) + BothEnds(k)
    {
      open := open + BothEnds(k);
    }

    /** fork, and what the i-th child does before its exec. It starts with everything the parent has open. */
    method Spawn(n: nat, i: nat)
      modifies this`children
      ensures |children| == |old(children)| + 1 && children[..|old(children)|] == old(children)
      ensures var c := children[|old(children)|];
              && c.input == (if i > 0 then FromPipe(End(i - 1, false)) else Inherited)
              && c.output == (if i + 1 < n then FromPipe(End(i, true)) else Inherited)
              && c.open == open - (if i > 0 then BothEnds(i - 1) else {}) - (if i + 1 < n then BothEnds(i) else {})
    {
      var input, output := Inherited, Inherited;
      var mine := open;
      if i > 0 {
        input := FromPipe(End(i - 1, false));
        mine := mine - {End(i - 1, false)};
        mine := mine - {End(i - 1, true)};
      }
      if i + 1 < n {
        output := FromPipe(End(i, true));
        mine := mine - {End(i, false)};
        mine := mine - {End(i, true)};
      }
      children := children + [Child(input, output, mine)];
    }

    /** The loop of exec: afterwards every child is wired to its neighbours and holds no other pipe end, and
        the parent has closed every end. So each pipe has one writer and one reader, which are neighbours, and
        a reader sees the end of its input as soon as its one writer has gone. What a child writes arrives at the
        next one, and nowhere else; the first and the last one keep the shell's own input and output. */
    method Exec(n: nat)
      requires open == {} && children == []
      modifies this
      ensures open == {}
      ensures |children| == n && forall i :: 0 <= i < n ==> children[i] == WiredChild(n, i)
      ensures forall k, i :: 0 <= k < n - 1 && 0 <= i < n ==>
                && (Holds(children[i], End(k, true)) <==> i == k)
                && (Holds(children[i], End(k, false)) <==> i == k + 1)
      ensures forall i, j :: 0 <= i < n && 0 <= j < n ==> (Feeds(children[i], children[j]) <==> j == i + 1)
      ensures forall i :: 0 <= i < n ==>
                (children[i].input == Inherited <==> i == 0) && (children[i].output == Inherited <==> i == n - 1)
    {
      var i := 0;
      while i < n
        invariant 0 <= i <= n && |children| == i
        invariant open == if 0 < i < n then BothEnds(i - 1) else {}
        invariant forall k :: 0 <= k < i ==> children[k] == WiredChild(n, k)
      {
        if i + 1 < n {
          OpenPipe(i);
        }
        ghost var before := children;
        Spawn(n, i);
        assert children[i].open == {};
        assert forall k :: 0 <= k < i ==> children[k] == children[..i][k] == before[k];
        if i > 0 {
          open := open - {End(i - 1, false)};
          open := open - {End(i - 1, true)};
        }
        i := i + 1;
      }
    }
  }
}
