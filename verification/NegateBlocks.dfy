/** The partitioning method: each thread negates the cells of a range of columns, column by column. */
module NegateBlocks {
  import opened NegateModel

  datatype Blocks = Blocks(threads: nat, pixelMax: int, width: nat, height: nat, cells: seq<int>)

  ghost predicate ValidBlocks(c: Blocks) {
    c.threads >= 1 && ValidCells(c.pixelMax, c.cells) && |c.cells| == c.width * c.height
  }

  /** The number of columns of a thread: the width over the thread count, rounded up. */
  function Coefficient(width: nat, threads: nat): nat
    requires threads >= 1
  {
    (width + threads - 1) / threads
  }

  /** In front of cell j of column i, or done. */
  datatype BlockPc = At(i: nat, j: nat) | Finished

  datatype BlockState = BlockState(cells: seq<int>, pcs: seq<BlockPc>, writers: seq<seq<nat>>)

  /** The loop heads of thread t, standing at column i and cell j. */
  function Settle(c: Blocks, t: nat, i: nat, j: nat): (pc: BlockPc)
    requires c.threads >= 1
    ensures pc.At? ==> pc.j < |c.cells|
    decreases c.width - i
  {
    if i < (t + 1) * Coefficient(c.width, c.threads) && i < c.width then
      if j < |c.cells| then At(i, j) else Settle(c, t, i + 1, i + 1)
    else
      Finished
  }

  function StartAt(c: Blocks, t: nat): (pc: BlockPc)
    requires c.threads >= 1
    ensures pc.At? ==> pc.j < |c.cells|
  {
    var i := t * Coefficient(c.width, c.threads);
    Settle(c, t, i, i)
  }

  function InitBlocks(c: Blocks): BlockState
    requires c.threads >= 1
  {
    BlockState(c.cells, seq(c.threads, t requires 0 <= t => StartAt(c, t)), seq(|c.cells|, _ => []))
  }

  ghost predicate BlocksWellFormed(c: Blocks, s: BlockState) {
    && c.threads >= 1
    && |s.cells| == |s.writers| == |c.cells|
    && |s.pcs| == c.threads
    && forall t :: 0 <= t < |s.pcs| && s.pcs[t].At? ==> s.pcs[t].j < |c.cells|
  }

  ghost predicate BlockCanStep(c: Blocks, s: BlockState, t: nat) {
    t < |s.pcs| && s.pcs[t].At?
  }

  function BlockNext(c: Blocks, s: BlockState, t: nat): (r: BlockState)
    requires BlocksWellFormed(c, s) && BlockCanStep(c, s, t)
    ensures BlocksWellFormed(c, r)
  {
    var At(i, j) := s.pcs[t];
    BlockState(s.cells[j := Flip(c.pixelMax, s.cells[j])], s.pcs[t := Settle(c, t, i, j + c.width)],
               s.writers[j := s.writers[j] + [t]])
  }

  ghost predicate BlockLegal(c: Blocks, s: BlockState, schedule: seq<nat>)
    requires BlocksWellFormed(c, s)
    decreases |schedule|
  {
    schedule == []
    || (BlockCanStep(c, s, schedule[0]) && BlockLegal(c, BlockNext(c, s, schedule[0]), schedule[1..]))
  }

  ghost function BlockRun(c: Blocks, s: BlockState, schedule: seq<nat>): (r: BlockState)
    requires BlocksWellFormed(c, s) && BlockLegal(c, s, schedule)
    ensures BlocksWellFormed(c, r)
    decreases |schedule|
  {
    if schedule == [] then s else BlockRun(c, BlockNext(c, s, schedule[0]), schedule[1..])
  }

  ghost predicate BlocksDone(s: BlockState) {
    forall t :: 0 <= t < |s.pcs| ==> s.pcs[t] == Finished
  }

  // ---------- Columns ----------

  /** Column `col` lies in the range of thread `t`. */
  ghost predicate OwnsColumn(width: nat, threads: nat, t: nat, col: nat)
    requires threads >= 1
  {
    t * Coefficient(width, threads) <= col < (t + 1) * Coefficient(width, threads)
  }

  lemma {:induction false} CoefficientCovers(width: nat, threads: nat)
    requires threads >= 1
    ensures width <= Coefficient(width, threads) * threads
    ensures width > 0 ==> Coefficient(width, threads) > 0
  {
    var n := width + threads - 1;
    assert n == n / threads * threads + n % threads;
  }

  lemma {:induction false} MultipleAbove(p: nat, d: nat, w: nat)
    ensures (p + 1 + d) * w >= p * w + w
  {
    assert (p + 1 + d) * w == p * w + w + d * w;
    assert d * w >= 0;
  }

  /** Different multiples of w are at least w apart. */
  lemma MultiplesApart(p: nat, q: nat, w: nat)
    ensures p < q ==> p * w + w <= q * w
    ensures q < p ==> q * w + w <= p * w
  {
    if p < q {
      MultipleAbove(p, q - p - 1, w);
    } else if q < p {
      MultipleAbove(q, p - q - 1, w);
    }
  }

  lemma QuotientBelow(a: nat, b: nat, k: nat)
    requires k > 0 && a < b * k
    ensures a / k < b
  {
    assert a == a / k * k + a % k;
    MultiplesApart(a / k, b, k);
  }

  /** Every column belongs to exactly one thread. */
  lemma ColumnsPartitioned(width: nat, threads: nat, col: nat) returns (t: nat)
    requires threads >= 1 && col < width
    ensures t < threads && OwnsColumn(width, threads, t, col)
    ensures forall u: nat :: OwnsColumn(width, threads, u, col) ==> u == t
  {
    CoefficientCovers(width, threads);
    var k := Coefficient(width, threads);
    t := col / k;
    assert col == t * k + col % k;
    assert threads * k == k * threads;
    QuotientBelow(col, threads, k);
    assert (t + 1) * k == t * k + k;
    forall u: nat | OwnsColumn(width, threads, u, col)
      ensures u == t
    {
      OwnerUnique(k, t, u, col);
    }
  }

  /** The ranges are as narrow as can be: no smaller number of columns for each thread would cover the image. */
  lemma CoefficientIsLeast(width: nat, threads: nat, q: nat)
    requires threads >= 1
    ensures width <= q * threads <==> Coefficient(width, threads) <= q
  {
    CoefficientCovers(width, threads);
    var k := Coefficient(width, threads);
    if width <= q * threads {
      assert (q + 1) * threads == q * threads + threads;
      QuotientBelow(width + threads - 1, q + 1, threads);
    } else if k <= q {
      MultiplesApart(k, q, threads);
    }
  }

  lemma OwnerUnique(k: nat, t: nat, u: nat, col: nat)
    requires t * k <= col < (t + 1) * k && u * k <= col < (u + 1) * k
    ensures t == u
  {
    assert (t + 1) * k == t * k + k && (u + 1) * k == u * k + k;
    MultiplesApart(t, u, k);
  }

  // ---------- Remainders ----------

  lemma ModStep(j: nat, w: nat)
    requires w > 0
    ensures (j + w) % w == j % w
  {
    var q := j / w;
    assert j == q * w + j % w;
    assert j + w == (q + 1) * w + j % w;
    ModUnique(j + w, q + 1, j % w, w);
  }

  lemma ModUnique(a: nat, q: nat, r: nat, w: nat)
    requires r < w && a == q * w + r
    ensures a % w == r
  {
    assert a == a / w * w + a % w;
    MultiplesApart(a / w, q, w);
  }

  /** Within one stride there is one cell of a column. */
  lemma OnePerStride(j: nat, k: nat, w: nat)
    requires w > 0 && j <= k < j + w && k % w == j % w
    ensures k == j
  {
    assert j == j / w * w + j % w && k == k / w * w + k % w;
    MultiplesApart(j / w, k / w, w);
  }

  lemma ModBelow(k: nat, w: nat)
    requires w > 0
    ensures k % w <= k && k % w < w
    ensures k < w ==> k % w == k
  {
    assert k == k / w * w + k % w;
    assert k / w * w >= 0;
    if k < w {
      ModUnique(k, 0, k, w);
    }
  }

  // ---------- The invariant ----------

  /** In a pass that stands at column i and cell j, cell k comes before. */
  ghost predicate Before(w: nat, i: nat, j: nat, k: nat)
    requires w > 0
  {
    k % w < i || (k % w == i && k < j)
  }

  ghost predicate HasPassed(w: nat, pc: BlockPc, k: nat)
    requires w > 0
  {
    pc.Finished? || Before(w, pc.i, pc.j, k)
  }

  ghost predicate PcAgrees(c: Blocks, t: nat, pc: BlockPc)
    requires c.threads >= 1 && c.width > 0
  {
    pc.At? ==> pc.i < c.width && OwnsColumn(c.width, c.threads, t, pc.i) && pc.j % c.width == pc.i
  }

  ghost predicate Owns(c: Blocks, t: nat, k: nat)
    requires c.threads >= 1 && c.width > 0
  {
    OwnsColumn(c.width, c.threads, t, k % c.width)
  }

  /** A cell is untouched until the thread of its column has passed it, and then negated and written once. */
  ghost predicate BlockCellAgrees(c: Blocks, s: BlockState, t: nat, k: nat)
    requires BlocksWellFormed(c, s) && c.width > 0 && t < c.threads && k < |c.cells|
  {
    if HasPassed(c.width, s.pcs[t], k) then s.cells[k] == Flip(c.pixelMax, c.cells[k]) && s.writers[k] == [t]
    else s.cells[k] == c.cells[k] && s.writers[k] == []
  }

  ghost predicate BlockInv(c: Blocks, s: BlockState)
    requires c.width > 0
  {
    && BlocksWellFormed(c, s)
    && (forall t :: 0 <= t < c.threads ==> PcAgrees(c, t, s.pcs[t]))
    && (forall t, k :: 0 <= t < c.threads && 0 <= k < |c.cells| && Owns(c, t, k) ==> BlockCellAgrees(c, s, t, k))
  }

  /** Moving on to the next column, or stopping, passes no cell of the thread. */
  lemma {:induction false} SettleAgrees(c: Blocks, t: nat, i: nat, j: nat)
    requires c.threads >= 1 && c.width > 0 && t * Coefficient(c.width, c.threads) <= i
    requires i < c.width ==> j % c.width == i
    ensures PcAgrees(c, t, Settle(c, t, i, j))
    ensures forall k :: 0 <= k < |c.cells| && Owns(c, t, k) ==>
              (HasPassed(c.width, Settle(c, t, i, j), k) <==> Before(c.width, i, j, k))
    decreases c.width - i
  {
    forall k: nat
      ensures k % c.width <= k && k % c.width < c.width
    {
      ModBelow(k, c.width);
    }
    if i < (t + 1) * Coefficient(c.width, c.threads) && i < c.width && j >= |c.cells| {
      ModBelow(i + 1, c.width);
      SettleAgrees(c, t, i + 1, i + 1);
    }
  }

  lemma BlockStepKeeps(c: Blocks, s: BlockState, t: nat)
    requires ValidBlocks(c) && c.width > 0 && BlockInv(c, s) && BlockCanStep(c, s, t)
    ensures BlockInv(c, BlockNext(c, s, t))
  {
    var At(i, j) := s.pcs[t];
    var r := BlockNext(c, s, t);
    assert PcAgrees(c, t, s.pcs[t]);
    ModStep(j, c.width);
    SettleAgrees(c, t, i, j + c.width);
    forall u, k | 0 <= u < c.threads && 0 <= k < |c.cells| && Owns(c, u, k)
      ensures BlockCellAgrees(c, r, u, k)
    {
      assert BlockCellAgrees(c, s, u, k);
      if u == t {
        if j <= k < j + c.width && k % c.width == i {
          OnePerStride(j, k, c.width);
        }
      } else {
        if k == j {
          OwnerUnique(Coefficient(c.width, c.threads), t, u, i);
        }
      }
    }
  }

  lemma BlockInitInv(c: Blocks)
    requires ValidBlocks(c) && c.width > 0
    ensures BlockInv(c, InitBlocks(c))
  {
    var s := InitBlocks(c);
    forall t | 0 <= t < c.threads
      ensures PcAgrees(c, t, s.pcs[t])
      ensures forall k :: 0 <= k < |c.cells| && Owns(c, t, k) ==> BlockCellAgrees(c, s, t, k)
    {
      var i := t * Coefficient(c.width, c.threads);
      ModBelow(i, c.width);
      SettleAgrees(c, t, i, i);
      forall k | 0 <= k < |c.cells| && Owns(c, t, k)
        ensures BlockCellAgrees(c, s, t, k)
      {
        ModBelow(k, c.width);
      }
    }
  }

  lemma {:induction false} BlockRunKeeps(c: Blocks, s: BlockState, schedule: seq<nat>)
    requires ValidBlocks(c) && c.width > 0 && BlockInv(c, s) && BlockLegal(c, s, schedule)
    ensures BlockInv(c, BlockRun(c, s, schedule))
    decreases |schedule|
  {
    if schedule != [] {
      BlockStepKeeps(c, s, schedule[0]);
      BlockRunKeeps(c, BlockNext(c, s, schedule[0]), schedule[1..]);
    }
  }

  /** For every width, height and thread count, and in every interleaving: each cell is written at most once,
      exactly once when all threads are done, and the final image is the sequential negation. */
  lemma BlocksAreCorrect(c: Blocks, schedule: seq<nat>)
    requires ValidBlocks(c) && BlockLegal(c, InitBlocks(c), schedule)
    ensures var s := BlockRun(c, InitBlocks(c), schedule);
            && (forall k :: 0 <= k < |c.cells| ==> |s.writers[k]| <= 1)
            && (BlocksDone(s) ==>
                  && s.cells == Negated(c.pixelMax, c.cells)
                  && forall k :: 0 <= k < |c.cells| ==> |s.writers[k]| == 1)
  {
    if c.width > 0 {
      BlockInitInv(c);
      BlockRunKeeps(c, InitBlocks(c), schedule);
      var s := BlockRun(c, InitBlocks(c), schedule);
      forall k | 0 <= k < |c.cells|
        ensures |s.writers[k]| <= 1
        ensures BlocksDone(s) ==> s.cells[k] == Flip(c.pixelMax, c.cells[k]) && |s.writers[k]| == 1
      {
        ModBelow(k, c.width);
        var t := ColumnsPartitioned(c.width, c.threads, k % c.width);
        assert BlockCellAgrees(c, s, t, k);
      }
    } else {
      assert |c.cells| == 0;
    }
  }

  // ---------- Every run comes to an end ----------

  function Writes(writers: seq<nat>): nat { |writers| }

  lemma {:induction false} BlockRunWrites(c: Blocks, s: BlockState, schedule: seq<nat>)
    requires BlocksWellFormed(c, s) && BlockLegal(c, s, schedule)
    ensures Sum(BlockRun(c, s, schedule).writers, Writes) == Sum(s.writers, Writes) + |schedule|
    decreases |schedule|
  {
    if schedule != [] {
      var r := BlockNext(c, s, schedule[0]);
      var j := s.pcs[schedule[0]].j;
      SumUpdate(s.writers, j, r.writers[j], Writes);
      BlockRunWrites(c, r, schedule[1..]);
    }
  }

  /** Every run ends within one step for each cell, and one that cannot go on is completed. */
  lemma BlocksEnd(c: Blocks, schedule: seq<nat>)
    requires ValidBlocks(c) && BlockLegal(c, InitBlocks(c), schedule)
    ensures |schedule| <= |c.cells|
    ensures var s := BlockRun(c, InitBlocks(c), schedule);
            && ((forall t :: !BlockCanStep(c, s, t)) <==> BlocksDone(s))
            && ((forall t :: !BlockCanStep(c, s, t)) ==> s.cells == Negated(c.pixelMax, c.cells))
  {
    var s := BlockRun(c, InitBlocks(c), schedule);
    BlockRunWrites(c, InitBlocks(c), schedule);
    SumAtMost(InitBlocks(c).writers, 0, Writes);
    BlocksAreCorrect(c, schedule);
    forall w | w in s.writers
      ensures Writes(w) <= 1
    {
    }
    SumAtMost(s.writers, 1, Writes);
    if forall t :: !BlockCanStep(c, s, t) {
      forall t | 0 <= t < |s.pcs|
        ensures s.pcs[t] == Finished
      {
        assert !BlockCanStep(c, s, t);
      }
    }
  }
}
