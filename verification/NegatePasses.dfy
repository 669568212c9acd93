/** What one undisturbed thread makes of an image, and the threads one after another. */
module NegatePasses {
  import opened NegateModel
  import opened NegateNumbers
  import opened NegateBlocks

  /** What one thread of the method "numbers" does to an image nobody else touches. */
  function NumbersPass(threads: nat, index: nat, m: int, cells: seq<int>): seq<int>
    requires threads >= 1
  {
    seq(|cells|, i requires 0 <= i < |cells| =>
      if Number(m, cells[i]) % threads == index then Flip(m, cells[i]) else cells[i])
  }

  /** What one thread of the method "block" does. */
  ghost function BlocksPass(threads: nat, index: nat, width: nat, m: int, cells: seq<int>): seq<int>
    requires threads >= 1 && (|cells| > 0 ==> width > 0)
  {
    seq(|cells|, k requires 0 <= k < |cells| =>
      if OwnsColumn(width, threads, index, k % width) then Flip(m, cells[k]) else cells[k])
  }

  /** A thread changes a cell to its complement exactly if its index is the remainder of the smaller one of the two
      modulo the number of threads. */
  lemma NumbersPassAt(threads: nat, index: nat, m: int, cells: seq<int>, k: nat)
    requires threads >= 1 && ValidCells(m, cells) && k < |cells|
    ensures |NumbersPass(threads, index, m, cells)| == |cells| && ValidCells(m, NumbersPass(threads, index, m, cells))
    ensures NumbersPass(threads, index, m, cells)[k] ==
            if Smaller(m, cells[k]) % threads == index then m - cells[k] else cells[k]
  {
    assert Number(m, cells[k]) == Smaller(m, cells[k]);
  }

  /** Each thread has its turn once. */
  ghost predicate EachOnce(order: seq<nat>, threads: nat) {
    && (forall t: nat :: t < threads ==> t in order)
    && (forall i, j :: 0 <= i < j < |order| ==> order[i] != order[j])
  }

  function NumbersPasses(threads: nat, order: seq<nat>, m: int, cells: seq<int>): (r: seq<int>)
    requires threads >= 1
    ensures |r| == |cells|
    decreases |order|
  {
    if order == [] then cells
    else NumbersPasses(threads, order[1..], m, NumbersPass(threads, order[0], m, cells))
  }

  lemma {:induction false} NumbersPassesAt(threads: nat, order: seq<nat>, m: int, cells: seq<int>, k: nat)
    requires threads >= 1 && ValidCells(m, cells) && k < |cells|
    requires forall i, j :: 0 <= i < j < |order| ==> order[i] != order[j]
    ensures NumbersPasses(threads, order, m, cells)[k] ==
            if Smaller(m, cells[k]) % threads in order then m - cells[k] else cells[k]
    decreases |order|
  {
    if order != [] {
      NumbersPassAt(threads, order[0], m, cells, k);
      NumbersPassesAt(threads, order[1..], m, NumbersPass(threads, order[0], m, cells), k);
      assert order == [order[0]] + order[1..];
    }
  }

  /** One after another, in any order, the threads negate the image. */
  lemma NumbersInTurn(threads: nat, order: seq<nat>, m: int, cells: seq<int>)
    requires threads >= 1 && ValidCells(m, cells) && EachOnce(order, threads)
    ensures NumbersPasses(threads, order, m, cells) == Negated(m, cells)
  {
    forall k | 0 <= k < |cells|
      ensures NumbersPasses(threads, order, m, cells)[k] == Negated(m, cells)[k]
    {
      NumbersPassesAt(threads, order, m, cells, k);
      assert 0 <= Smaller(m, cells[k]) % threads < threads;
    }
  }

  ghost function BlocksPasses(threads: nat, order: seq<nat>, width: nat, m: int, cells: seq<int>): (r: seq<int>)
    requires threads >= 1 && (|cells| > 0 ==> width > 0)
    ensures |r| == |cells|
    decreases |order|
  {
    if order == [] then cells
    else BlocksPasses(threads, order[1..], width, m, BlocksPass(threads, order[0], width, m, cells))
  }

  /** The cells of columns whose thread has had its turn are negated. */
  lemma {:induction false} BlocksPassesAt(threads: nat, order: seq<nat>, width: nat, m: int, cells: seq<int>,
                                          k: nat, t: nat)
    requires threads >= 1 && width > 0 && ValidCells(m, cells) && k < |cells|
    requires OwnsColumn(width, threads, t, k % width)
    requires forall i, j :: 0 <= i < j < |order| ==> order[i] != order[j]
    ensures BlocksPasses(threads, order, width, m, cells)[k] == if t in order then m - cells[k] else cells[k]
    decreases |order|
  {
    if order != [] {
      if OwnsColumn(width, threads, order[0], k % width) {
        OwnerUnique(Coefficient(width, threads), t, order[0], k % width);
      }
      BlocksPassesAt(threads, order[1..], width, m, BlocksPass(threads, order[0], width, m, cells), k, t);
      assert order == [order[0]] + order[1..];
    }
  }

  lemma BlocksInTurn(threads: nat, order: seq<nat>, width: nat, m: int, cells: seq<int>)
    requires threads >= 1 && ValidCells(m, cells) && EachOnce(order, threads) && (|cells| > 0 ==> width > 0)
    ensures BlocksPasses(threads, order, width, m, cells) == Negated(m, cells)
  {
    forall k | 0 <= k < |cells|
      ensures BlocksPasses(threads, order, width, m, cells)[k] == Negated(m, cells)[k]
    {
      BlocksInTurnAt(threads, order, width, m, cells, k);
    }
  }

  lemma BlocksInTurnAt(threads: nat, order: seq<nat>, width: nat, m: int, cells: seq<int>, k: nat)
    requires threads >= 1 && ValidCells(m, cells) && EachOnce(order, threads) && width > 0 && k < |cells|
    ensures BlocksPasses(threads, order, width, m, cells)[k] == m - cells[k]
  {
    ModBelow(k, width);
    var t := ColumnsPartitioned(width, threads, k % width);
    BlocksPassesAt(threads, order, width, m, cells, k, t);
  }

  // ---------- A pass is what an undisturbed thread does ----------

  lemma {:induction false} SoloFrom(c: Numbers, s: State, t: nat) returns (schedule: seq<nat>, r: State)
    requires ValidNumbers(c) && Settled(c, s) && t < |s.pcs| && s.pcs[t].Test?
    ensures Leads(c, s, schedule, r) && Settled(c, r) && r.pcs == s.pcs[t := Test(|s.cells|)]
    ensures forall k :: 0 <= k < |s.cells| ==>
              r.cells[k] == if k >= s.pcs[t].i && Owner(c, s.cells[k]) == t then c.pixelMax - s.cells[k] else s.cells[k]
    decreases |s.cells| - s.pcs[t].i
  {
    if s.pcs[t].i == |s.cells| {
      assert s.pcs[t := Test(|s.cells|)] == s.pcs;
      return [], s;
    }
    schedule, r := SoloCell(c, s, t);
    OwnerOfComplement(c, s.cells[s.pcs[t].i]);
    var more, u := SoloFrom(c, r, t);
    LeadsOn(c, s, schedule, r, more, u);
    assert r.pcs[t := Test(|s.cells|)] == s.pcs[t := Test(|s.cells|)];
    schedule, r := schedule + more, u;
  }

  /** Left alone from the start of its loop to the end, a thread of the method "numbers" makes its pass. */
  lemma SoloIsPass(c: Numbers, s: State, t: nat) returns (schedule: seq<nat>, r: State)
    requires ValidNumbers(c) && Settled(c, s) && t < |s.pcs| && s.pcs[t] == Test(0)
    ensures Leads(c, s, schedule, r) && r.pcs == s.pcs[t := Test(|s.cells|)]
    ensures r.cells == NumbersPass(c.threads, t, c.pixelMax, s.cells)
  {
    schedule, r := SoloFrom(c, s, t);
    forall k | 0 <= k < |s.cells|
      ensures r.cells[k] == NumbersPass(c.threads, t, c.pixelMax, s.cells)[k]
    {
      OwnerOfComplement(c, s.cells[k]);
    }
  }
}
