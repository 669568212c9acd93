/** The two methods agree, and negating twice gives back the image. */
module NegateTheorems {
  import opened NegateModel
  import opened NegateNumbers
  import opened NegateBlocks

  lemma NegatedTwiceIsIdentity(m: int, cells: seq<int>)
    requires ValidCells(m, cells)
    ensures ValidCells(m, Negated(m, cells)) && |Negated(m, cells)| == |cells|
    ensures Negated(m, Negated(m, cells)) == cells
    ensures forall k :: 0 <= k < |cells| ==> Negated(m, cells)[k] == m - cells[k]
  {
  }

  /** `output` is what some completed run of one of the methods, with some number of threads, makes of `input`. */
  ghost predicate NegatesTo(m: int, width: nat, height: nat, input: seq<int>, output: seq<int>) {
    || (exists c: Numbers, schedule: seq<nat> ::
          c.threads >= 1 && c.pixelMax == m && c.cells == input && !c.secondLoad
          && Legal(c, InitNumbers(c), schedule) && Done(Run(c, InitNumbers(c), schedule))
          && Run(c, InitNumbers(c), schedule).cells == output)
    || (exists c: Blocks, schedule: seq<nat> ::
          c.threads >= 1 && c.pixelMax == m && c.cells == input && c.width == width && c.height == height
          && BlockLegal(c, InitBlocks(c), schedule) && BlocksDone(BlockRun(c, InitBlocks(c), schedule))
          && BlockRun(c, InitBlocks(c), schedule).cells == output)
  }

  /** Both methods compute the sequential negation, whatever the thread counts and the interleaving. */
  lemma MethodsAgree(m: int, width: nat, height: nat, input: seq<int>, output: seq<int>)
    requires ValidCells(m, input) && |input| == width * height && NegatesTo(m, width, height, input, output)
    ensures output == Negated(m, input)
  {
    if c: Numbers, schedule: seq<nat> :|
         c.threads >= 1 && c.pixelMax == m && c.cells == input && !c.secondLoad
         && Legal(c, InitNumbers(c), schedule) && Done(Run(c, InitNumbers(c), schedule))
         && Run(c, InitNumbers(c), schedule).cells == output {
      RacingIsCorrect(c, schedule);
    } else {
      var c: Blocks, schedule: seq<nat> :|
        c.threads >= 1 && c.pixelMax == m && c.cells == input && c.width == width && c.height == height
        && BlockLegal(c, InitBlocks(c), schedule) && BlocksDone(BlockRun(c, InitBlocks(c), schedule))
        && BlockRun(c, InitBlocks(c), schedule).cells == output;
      BlocksAreCorrect(c, schedule);
    }
  }

  /** Any method with any thread count takes every cell to its complement, and any two methods with any two thread
      counts, one after the other, restore the image. */
  lemma TwiceRestores(m: int, width: nat, height: nat, a: seq<int>, b: seq<int>, d: seq<int>)
    requires ValidCells(m, a) && |a| == width * height
    requires NegatesTo(m, width, height, a, b) && NegatesTo(m, width, height, b, d)
    ensures |b| == |a| && (forall k :: 0 <= k < |a| ==> b[k] == m - a[k]) && d == a
  {
    MethodsAgree(m, width, height, a, b);
    NegatedTwiceIsIdentity(m, a);
    MethodsAgree(m, width, height, b, d);
  }
}
