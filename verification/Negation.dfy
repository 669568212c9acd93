/** The thread routines as loops that overwrite the image in place, and the two methods as runs of such threads
    over one image, under any schedule. */
module Negation {
  import opened NegateModel
  import opened NegateNumbers
  import opened NegateBlocks
  import opened NegatePasses

  class Image {
    const cells: array<int>
    const width: nat
    const height: nat
    const pixelMax: int

    ghost predicate Valid()
      reads this, cells
    {
      ValidCells(pixelMax, cells[..]) && cells.Length == width * height
    }

    constructor (cells: array<int>, width: nat, height: nat, pixelMax: int)
      requires ValidCells(pixelMax, cells[..]) && cells.Length == width * height
      ensures this.cells == cells && this.width == width && this.height == height && this.pixelMax == pixelMax
      ensures Valid()
    {
      this.cells, this.width, this.height, this.pixelMax := cells, width, height, pixelMax;
    }

    /** start_routine_numbers */
    method NumbersThread(threads: nat, index: nat)
      requires Valid() && threads >= 1
      modifies cells
      ensures cells[..] == NumbersPass(threads, index, pixelMax, old(cells[..]))
      ensures forall k :: 0 <= k < cells.Length ==>
                cells[k] == if Smaller(pixelMax, old(cells[k])) % threads == index then pixelMax - old(cells[k])
                            else old(cells[k])
      ensures Valid()
    {
      ghost var before := cells[..];
      forall k | 0 <= k < |before|
        ensures NumbersPass(threads, index, pixelMax, before)[k] ==
                if Smaller(pixelMax, before[k]) % threads == index then pixelMax - before[k] else before[k]
      {
        NumbersPassAt(threads, index, pixelMax, before, k);
      }
      var i := 0;
      while i < width * height
        invariant 0 <= i <= width * height
        invariant forall k :: 0 <= k < |before| ==>
                    cells[k] == if k < i then NumbersPass(threads, index, pixelMax, before)[k] else before[k]
      {
        var val := if cells[i] > pixelMax / 2 then pixelMax - cells[i] else cells[i];
        if val % threads == index {
          cells[i] := Flip(pixelMax, cells[i]);
        }
        i := i + 1;
      }
    }

    /** One step of thread `t` among the threads of the method "numbers". */
    method NumbersStep(ghost c: Numbers, ghost s: State, threads: nat, secondLoad: bool, t: nat, pcs: seq<Pc>)
      returns (r: seq<Pc>)
      requires c.threads == threads && c.pixelMax == pixelMax && c.secondLoad == secondLoad
      requires WellFormed(c, s) && CanStep(c, s, t) && cells[..] == s.cells && pcs == s.pcs
      modifies cells
      ensures cells[..] == Next(c, s, t).cells && r == Next(c, s, t).pcs
    {
      match pcs[t]
      case Test(i) =>
        if secondLoad {
          return pcs[t := Reload(i, cells[i] > pixelMax / 2)];
        }
        var val := if cells[i] > pixelMax / 2 then pixelMax - cells[i] else cells[i];
        return pcs[t := if val % threads == t then Store(i) else Test(i + 1)];
      case Reload(i, high) =>
        var val := if high then pixelMax - cells[i] else cells[i];
        return pcs[t := if val % threads == t then Store(i) else Test(i + 1)];
      case Store(i) =>
        cells[i] := Flip(pixelMax, cells[i]);
        return pcs[t := Test(i + 1)];
    }

    /** The threads of the method "numbers" on the shared image. The schedule names the thread that moves, step
        by step. */
    method NegateNumbers(threads: nat, secondLoad: bool, schedule: seq<nat>)
      requires Valid() && threads >= 1
      requires var c := Numbers(threads, pixelMax, cells[..], secondLoad); Legal(c, InitNumbers(c), schedule)
      modifies cells
      ensures var c := Numbers(threads, pixelMax, old(cells[..]), secondLoad);
              var s := Run(c, InitNumbers(c), schedule);
              && cells[..] == s.cells
              && (Decisive(c) && Done(s) ==> cells[..] == Negated(pixelMax, old(cells[..])))
    {
      ghost var c := Numbers(threads, pixelMax, cells[..], secondLoad);
      ghost var s := InitNumbers(c);
      var pcs := seq(threads, _ => Test(0));
      for n := 0 to |schedule|
        invariant WellFormed(c, s) && cells[..] == s.cells && pcs == s.pcs
        invariant Legal(c, s, schedule[n..])
        invariant Run(c, s, schedule[n..]) == Run(c, InitNumbers(c), schedule)
      {
        var t := schedule[n];
        assert schedule[n..][0] == t && schedule[n..][1..] == schedule[n + 1..];
        pcs := NumbersStep(c, s, threads, secondLoad, t, pcs);
        s := Next(c, s, t);
      }
      if Decisive(c) {
        RacingIsCorrect(c, schedule);
      }
    }

    /** The inner loop of start_routine_blocks: one column. */
    method NegateColumn(threads: nat, index: nat, i: nat, ghost before: seq<int>)
      requires threads >= 1 && i < width && OwnsColumn(width, threads, index, i)
      requires cells.Length == |before| == width * height
      requires forall k :: 0 <= k < |before| ==> cells[k] == PassedValue(threads, index, i, i, before, k)
      modifies cells
      ensures forall k :: 0 <= k < |before| ==> cells[k] == PassedValue(threads, index, i + 1, i + 1, before, k)
    {
      ModBelow(i, width);
      var j := i;
      while j < width * height
        invariant i <= j && j % width == i
        invariant forall k :: 0 <= k < |before| ==> cells[k] == PassedValue(threads, index, i, j, before, k)
        decreases width * height - j
      {
        FlipNext(threads, index, i, j, before);
        cells[j] := Flip(pixelMax, cells[j]);
        ModStep(j, width);
        j := j + width;
      }
      NextColumn(threads, index, i, j, before);
    }

    /** Behind the last cell of a column stands the head of the next one. */
    lemma NextColumn(threads: nat, index: nat, i: nat, j: nat, before: seq<int>)
      requires threads >= 1 && width > 0 && j >= |before|
      ensures forall k :: 0 <= k < |before| ==>
                PassedValue(threads, index, i + 1, i + 1, before, k) == PassedValue(threads, index, i, j, before, k)
    {
      forall k | 0 <= k < |before|
        ensures PassedValue(threads, index, i + 1, i + 1, before, k) == PassedValue(threads, index, i, j, before, k)
      {
        ModBelow(k, width);
      }
    }

    /** start_routine_blocks */
    method BlocksThread(threads: nat, index: nat)
      requires Valid() && threads >= 1
      modifies cells
      ensures cells.Length > 0 ==> width > 0
      ensures cells[..] == BlocksPass(threads, index, width, pixelMax, old(cells[..]))
      ensures Valid()
    {
      ghost var before := cells[..];
      assert |before| > 0 ==> width > 0;
      var coeff := Coefficient(width, threads);
      var i := index * coeff;
      assert (index + 1) * coeff == i + coeff;
      forall k: nat | width > 0
        ensures k % width <= k && k % width < width
      {
        ModBelow(k, width);
      }
      while i < (index + 1) * coeff && i < width
        invariant index * coeff <= i
        invariant forall k :: 0 <= k < |before| ==> cells[k] == PassedValue(threads, index, i, i, before, k)
        decreases width - i
      {
        NegateColumn(threads, index, i, before);
        i := i + 1;
      }
      assert forall k :: 0 <= k < |before| ==> cells[..][k] == BlocksPass(threads, index, width, pixelMax, before)[k];
    }

    /** The value of cell k when the thread stands at column i and cell j. */
    ghost function PassedValue(threads: nat, index: nat, i: nat, j: nat, before: seq<int>, k: nat): int
      requires threads >= 1 && width > 0 && k < |before|
    {
      if OwnsColumn(width, threads, index, k % width) && Before(width, i, j, k) then Flip(pixelMax, before[k])
      else before[k]
    }

    /** A stride within a column passes the cell it starts from, and no other. */
    lemma FlipNext(threads: nat, index: nat, i: nat, j: nat, before: seq<int>)
      requires threads >= 1 && width > 0 && j < |before| && j % width == i
      requires OwnsColumn(width, threads, index, i)
      ensures forall k :: 0 <= k < |before| ==>
                PassedValue(threads, index, i, j + width, before, k) ==
                if k == j then Flip(pixelMax, before[j]) else PassedValue(threads, index, i, j, before, k)
      ensures PassedValue(threads, index, i, j, before, j) == before[j]
    {
      forall k | 0 <= k < |before|
        ensures PassedValue(threads, index, i, j + width, before, k) ==
                if k == j then Flip(pixelMax, before[j]) else PassedValue(threads, index, i, j, before, k)
      {
        if j <= k < j + width && k % width == i {
          OnePerStride(j, k, width);
        }
      }
    }

    /** The threads of the method "block" on the shared image, under any schedule. */
    method NegateBlocks(threads: nat, schedule: seq<nat>)
      requires Valid() && threads >= 1
      requires var c := Blocks(threads, pixelMax, width, height, cells[..]); BlockLegal(c, InitBlocks(c), schedule)
      modifies cells
      ensures var c := Blocks(threads, pixelMax, width, height, old(cells[..]));
              var s := BlockRun(c, InitBlocks(c), schedule);
              && cells[..] == s.cells
              && (BlocksDone(s) ==> cells[..] == Negated(pixelMax, old(cells[..])))
    {
      var c := Blocks(threads, pixelMax, width, height, cells[..]);
      ghost var s := InitBlocks(c);
      var pcs := seq(threads, t requires 0 <= t => StartAt(c, t));
      for n := 0 to |schedule|
        invariant BlocksWellFormed(c, s) && cells[..] == s.cells && pcs == s.pcs
        invariant BlockLegal(c, s, schedule[n..])
        invariant BlockRun(c, s, schedule[n..]) == BlockRun(c, InitBlocks(c), schedule)
      {
        var t := schedule[n];
        assert schedule[n..][0] == t && schedule[n..][1..] == schedule[n + 1..];
        var At(i, j) := pcs[t];
        s := BlockNext(c, s, t);
        cells[j] := Flip(pixelMax, cells[j]);
        pcs := pcs[t := Settle(c, t, i, j + width)];
      }
      BlocksAreCorrect(c, schedule);
    }
  }
}
