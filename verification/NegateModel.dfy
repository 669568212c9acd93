/** Image negation in lab08: the sequential meaning, and the two parallel methods as step relations. */
module NegateModel {

  /** Conversion to unsigned char. */
  function ToByte(v: int): int { v % 256 }

  function Flip(m: int, c: int): int { ToByte(m - c) }

  ghost predicate ValidCells(m: int, cells: seq<int>) {
    0 <= m <= 255 && forall i :: 0 <= i < |cells| ==> 0 <= cells[i] <= m
  }

  /** Sequential negation. */
  function Negated(m: int, cells: seq<int>): seq<int> {
    seq(|cells|, i requires 0 <= i < |cells| => Flip(m, cells[i]))
  }

  // ---------- Sums ----------

  /** What `f` makes of the elements, added up. */
  function Sum<T>(s: seq<T>, f: T -> nat): nat {
    if s == [] then 0 else Sum(s[..|s| - 1], f) + f(s[|s| - 1])
  }

  lemma {:induction false} SumUpdate<T>(s: seq<T>, i: nat, x: T, f: T -> nat)
    requires i < |s|
    ensures Sum(s[i := x], f) + f(s[i]) == Sum(s, f) + f(x)
  {
    var k := |s| - 1;
    if i == k {
      assert s[i := x][..k] == s[..k];
    } else {
      assert s[i := x][..k] == s[..k][i := x];
      SumUpdate(s[..k], i, x, f);
    }
  }

  lemma {:induction false} SumAtMost<T>(s: seq<T>, b: nat, f: T -> nat)
    requires forall x :: x in s ==> f(x) <= b
    ensures Sum(s, f) <= |s| * b
  {
    if s != [] {
      SumAtMost(s[..|s| - 1], b, f);
      assert |s| * b == (|s| - 1) * b + b;
    }
  }

  // ---------- The method "numbers" ----------

  /** `secondLoad` is false when line 169 reads the cell once, and true when it reads it again for the value,
      as the expression is written. */
  datatype Numbers = Numbers(threads: nat, pixelMax: int, cells: seq<int>, secondLoad: bool)

  ghost predicate ValidNumbers(c: Numbers) {
    c.threads >= 1 && ValidCells(c.pixelMax, c.cells)
  }

  /** Thread positions: before the first load of cell i, before the second one (having found the cell above
      the middle or not), and before the write. Past the last cell the thread is done. */
  datatype Pc = Test(i: nat) | Reload(i: nat, high: bool) | Store(i: nat)

  /** The cells, the threads, and for every cell the threads that have written it. */
  datatype State = State(cells: seq<int>, pcs: seq<Pc>, writers: seq<seq<nat>>)

  function InitNumbers(c: Numbers): State {
    State(c.cells, seq(c.threads, _ => Test(0)), seq(|c.cells|, _ => []))
  }

  ghost predicate WellFormed(c: Numbers, s: State) {
    && c.threads >= 1
    && |s.cells| == |s.writers| == |c.cells|
    && |s.pcs| == c.threads
    && forall t :: 0 <= t < |s.pcs| ==> s.pcs[t].i <= |c.cells| && (!s.pcs[t].Test? ==> s.pcs[t].i < |c.cells|)
  }

  ghost predicate CanStep(c: Numbers, s: State, t: nat) {
    t < |s.pcs| && s.pcs[t].i < |s.cells|
  }

  /** The complementary values c and max - c have the same number. */
  function Number(m: int, c: int): int {
    if c > m / 2 then m - c else c
  }

  /** Where thread `t` goes from cell i with the number it has computed. */
  function Decide(threads: nat, t: nat, i: nat, val: int): Pc
    requires threads >= 1
  {
    if val % threads == t then Store(i) else Test(i + 1)
  }

  function Next(c: Numbers, s: State, t: nat): (r: State)
    requires WellFormed(c, s) && CanStep(c, s, t)
    ensures WellFormed(c, r)
  {
    match s.pcs[t]
    case Test(i) =>
      if c.secondLoad then s.(pcs := s.pcs[t := Reload(i, s.cells[i] > c.pixelMax / 2)])
      else s.(pcs := s.pcs[t := Decide(c.threads, t, i, Number(c.pixelMax, s.cells[i]))])
    case Reload(i, high) =>
      s.(pcs := s.pcs[t := Decide(c.threads, t, i, if high then c.pixelMax - s.cells[i] else s.cells[i])])
    case Store(i) =>
      State(s.cells[i := Flip(c.pixelMax, s.cells[i])], s.pcs[t := Test(i + 1)],
            s.writers[i := s.writers[i] + [t]])
  }

  ghost predicate Done(s: State) {
    forall t :: 0 <= t < |s.pcs| ==> s.pcs[t] == Test(|s.cells|)
  }

  /** A schedule names, step by step, the thread that moves. */
  ghost predicate Legal(c: Numbers, s: State, schedule: seq<nat>)
    requires WellFormed(c, s)
    decreases |schedule|
  {
    schedule == [] || (CanStep(c, s, schedule[0]) && Legal(c, Next(c, s, schedule[0]), schedule[1..]))
  }

  ghost function Run(c: Numbers, s: State, schedule: seq<nat>): (r: State)
    requires WellFormed(c, s) && Legal(c, s, schedule)
    ensures WellFormed(c, r)
    decreases |schedule|
  {
    if schedule == [] then s else Run(c, Next(c, s, schedule[0]), schedule[1..])
  }
}
