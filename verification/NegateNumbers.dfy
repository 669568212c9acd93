/** The racing method: every thread reads every cell, and each cell is meant to be written by one thread. */
module NegateNumbers {
  import opened NegateModel

  /** The smaller one of a value and its complement. */
  function Smaller(m: int, v: int): int { if v <= m - v then v else m - v }

  /** The thread that negates a cell with value `v`. */
  function Owner(c: Numbers, v: int): int
    requires c.threads >= 1
  {
    Number(c.pixelMax, v) % c.threads
  }

  /** A value and its complement belong to the same thread even without taking their common number. */
  ghost predicate Congruent(c: Numbers, v: int)
    requires c.threads >= 1
  {
    v % c.threads == (c.pixelMax - v) % c.threads
  }

  /** Line 169 reads each cell once, or reading it twice makes no difference. */
  ghost predicate Decisive(c: Numbers)
    requires c.threads >= 1
  {
    !c.secondLoad || forall i :: 0 <= i < |c.cells| ==> Congruent(c, c.cells[i])
  }

  /** Complementary values have the same owner, for odd and for even maxima. */
  lemma OwnerOfComplement(c: Numbers, v: int)
    requires c.threads >= 1 && 0 <= v <= c.pixelMax <= 255
    ensures Flip(c.pixelMax, v) == c.pixelMax - v
    ensures Number(c.pixelMax, c.pixelMax - v) == Number(c.pixelMax, v)
    ensures Owner(c, c.pixelMax - v) == Owner(c, v)
  {
  }

  /** The owner has passed cell i. */
  ghost predicate Passed(s: State, t: int, i: nat) {
    0 <= t < |s.pcs| && s.pcs[t].i > i
  }

  /** Cell i is untouched until its owner has passed it, and then negated and written by the owner only. */
  ghost predicate CellAgrees(c: Numbers, s: State, i: nat)
    requires WellFormed(c, s) && i < |c.cells|
  {
    var o := Owner(c, c.cells[i]);
    if Passed(s, o, i) then s.cells[i] == Flip(c.pixelMax, c.cells[i]) && s.writers[i] == [o]
    else s.cells[i] == c.cells[i] && s.writers[i] == []
  }

  ghost predicate Inv(c: Numbers, s: State) {
    && WellFormed(c, s)
    && (forall i :: 0 <= i < |c.cells| ==> CellAgrees(c, s, i))
    && (forall t :: 0 <= t < |s.pcs| && s.pcs[t].Store? ==> t == Owner(c, c.cells[s.pcs[t].i]))
    && (forall t :: 0 <= t < |s.pcs| && s.pcs[t].Reload? ==> c.secondLoad)
  }

  /** Whatever mixture of loads the number comes from, it names the owner. */
  lemma NumberNamesOwner(c: Numbers, i: nat, first: int, second: int)
    requires ValidNumbers(c) && Decisive(c) && i < |c.cells|
    requires first in {c.cells[i], Flip(c.pixelMax, c.cells[i])}
    requires second in {c.cells[i], Flip(c.pixelMax, c.cells[i])}
    requires !c.secondLoad ==> first == second
    ensures (if first > c.pixelMax / 2 then c.pixelMax - second else second) % c.threads == Owner(c, c.cells[i])
  {
    OwnerOfComplement(c, c.cells[i]);
    if c.secondLoad {
      assert Congruent(c, c.cells[i]);
    }
  }

  /** The owner decides to write, and nobody else does. */
  lemma DecisionRight(c: Numbers, s: State, t: nat)
    requires ValidNumbers(c) && Decisive(c) && Inv(c, s) && CanStep(c, s, t) && !s.pcs[t].Store?
    ensures var i := s.pcs[t].i;
            var pc := Next(c, s, t).pcs[t];
            (c.secondLoad && s.pcs[t].Test?) || pc == (if t == Owner(c, c.cells[i]) then Store(i) else Test(i + 1))
  {
    var i := s.pcs[t].i;
    var v, m := c.cells[i], c.pixelMax;
    assert CellAgrees(c, s, i);
    OwnerOfComplement(c, v);
    match s.pcs[t]
    case Test(_) =>
      if !c.secondLoad {
        NumberNamesOwner(c, i, s.cells[i], s.cells[i]);
      }
    case Reload(_, high) =>
      if v == m - v {
        // Both loads see the middle value, which is its own complement.
        NumberNamesOwner(c, i, v, v);
      } else {
        NumberNamesOwner(c, i, if high == (v > m / 2) then v else Flip(m, v), s.cells[i]);
      }
  }

  lemma DecideKeeps(c: Numbers, s: State, t: nat)
    requires ValidNumbers(c) && Decisive(c) && Inv(c, s) && CanStep(c, s, t) && !s.pcs[t].Store?
    ensures Inv(c, Next(c, s, t))
  {
    DecisionRight(c, s, t);
    var r := Next(c, s, t);
    assert r.cells == s.cells && r.writers == s.writers;
    forall k | 0 <= k < |c.cells|
      ensures CellAgrees(c, r, k)
    {
      assert CellAgrees(c, s, k);
    }
  }

  lemma StoreKeeps(c: Numbers, s: State, t: nat)
    requires ValidNumbers(c) && Inv(c, s) && CanStep(c, s, t) && s.pcs[t].Store?
    ensures Inv(c, Next(c, s, t))
  {
    var r := Next(c, s, t);
    forall k | 0 <= k < |c.cells|
      ensures CellAgrees(c, r, k)
    {
      assert CellAgrees(c, s, k);
      OwnerOfComplement(c, c.cells[k]);
    }
  }

  lemma {:induction false} RunInv(c: Numbers, s: State, schedule: seq<nat>)
    requires ValidNumbers(c) && Decisive(c) && Inv(c, s) && Legal(c, s, schedule)
    ensures Inv(c, Run(c, s, schedule))
    decreases |schedule|
  {
    if schedule != [] {
      if s.pcs[schedule[0]].Store? {
        StoreKeeps(c, s, schedule[0]);
      } else {
        DecideKeeps(c, s, schedule[0]);
      }
      RunInv(c, Next(c, s, schedule[0]), schedule[1..]);
    }
  }

  // ---------- What completed runs produce ----------

  /** Every completed run of the method ends with the negated image. */
  ghost predicate AlwaysNegates(c: Numbers)
    requires c.threads >= 1
  {
    forall schedule :: Legal(c, InitNumbers(c), schedule) && Done(Run(c, InitNumbers(c), schedule)) ==>
      Run(c, InitNumbers(c), schedule).cells == Negated(c.pixelMax, c.cells)
  }

  /** Under every interleaving each cell is written exactly once, by the thread its value belongs to, and the
      final image is the sequential negation. */
  lemma RacingIsCorrect(c: Numbers, schedule: seq<nat>)
    requires ValidNumbers(c) && Decisive(c) && Legal(c, InitNumbers(c), schedule)
    ensures var s := Run(c, InitNumbers(c), schedule);
            && (forall i :: 0 <= i < |c.cells| ==> s.writers[i] in {[], [Owner(c, c.cells[i])]})
            && (Done(s) ==>
                  && s.cells == Negated(c.pixelMax, c.cells)
                  && forall i :: 0 <= i < |c.cells| ==> s.writers[i] == [Owner(c, c.cells[i])])
    ensures forall i :: 0 <= i < |c.cells| ==>
              Owner(c, c.cells[i]) == Smaller(c.pixelMax, c.cells[i]) % c.threads
  {
    RunInv(c, InitNumbers(c), schedule);
    var s := Run(c, InitNumbers(c), schedule);
    forall i | 0 <= i < |c.cells|
      ensures CellAgrees(c, s, i)
      ensures Done(s) ==> Passed(s, Owner(c, c.cells[i]), i)
    {
    }
  }

  // ---------- Every run comes to an end ----------

  /** The most steps a thread can still take: at most three for each cell. */
  function Left(n: nat, pc: Pc): nat {
    if pc.i >= n then 0
    else
      match pc
      case Test(i) => 3 * (n - i)
      case Reload(i, _) => 3 * (n - i) - 1
      case Store(i) => 3 * (n - i) - 2
  }

  function LeftIn(n: nat): Pc -> nat { pc => Left(n, pc) }

  lemma StepUses(c: Numbers, s: State, t: nat)
    requires WellFormed(c, s) && CanStep(c, s, t)
    ensures Sum(Next(c, s, t).pcs, LeftIn(|c.cells|)) < Sum(s.pcs, LeftIn(|c.cells|))
  {
    SumUpdate(s.pcs, t, Next(c, s, t).pcs[t], LeftIn(|c.cells|));
  }

  lemma {:induction false} RunUses(c: Numbers, s: State, schedule: seq<nat>)
    requires WellFormed(c, s) && Legal(c, s, schedule)
    ensures |schedule| + Sum(Run(c, s, schedule).pcs, LeftIn(|c.cells|)) <= Sum(s.pcs, LeftIn(|c.cells|))
    decreases |schedule|
  {
    if schedule != [] {
      StepUses(c, s, schedule[0]);
      RunUses(c, Next(c, s, schedule[0]), schedule[1..]);
    }
  }

  /** Every run ends within three steps for each thread and cell, and one that cannot go on is completed. So
      with one load the threads negate the image whatever they do, as long as somebody steps who can. */
  lemma NumbersEnd(c: Numbers, schedule: seq<nat>)
    requires ValidNumbers(c) && Legal(c, InitNumbers(c), schedule)
    ensures |schedule| <= c.threads * (3 * |c.cells|)
    ensures var s := Run(c, InitNumbers(c), schedule);
            && ((forall t :: !CanStep(c, s, t)) <==> Done(s))
            && (Decisive(c) && (forall t :: !CanStep(c, s, t)) ==> s.cells == Negated(c.pixelMax, c.cells))
  {
    RunUses(c, InitNumbers(c), schedule);
    SumAtMost(InitNumbers(c).pcs, 3 * |c.cells|, LeftIn(|c.cells|));
    var s := Run(c, InitNumbers(c), schedule);
    if Decisive(c) {
      RacingIsCorrect(c, schedule);
    }
    if forall t :: !CanStep(c, s, t) {
      forall t | 0 <= t < |s.pcs|
        ensures s.pcs[t] == Test(|s.cells|)
      {
        assert !CanStep(c, s, t);
      }
    }
  }

  // ---------- Reading the cell twice ----------

  /** All values are in range. */
  ghost predicate Settled(c: Numbers, s: State) {
    WellFormed(c, s) && ValidCells(c.pixelMax, s.cells)
  }

  ghost predicate Leads(c: Numbers, s: State, schedule: seq<nat>, r: State)
    requires WellFormed(c, s)
  {
    Legal(c, s, schedule) && Run(c, s, schedule) == r
  }

  lemma {:induction false} LeadsOn(c: Numbers, s: State, xs: seq<nat>, t: State, ys: seq<nat>, u: State)
    requires WellFormed(c, s) && WellFormed(c, t) && Leads(c, s, xs, t) && Leads(c, t, ys, u)
    ensures Leads(c, s, xs + ys, u)
    decreases |xs|
  {
    if xs == [] {
      assert xs + ys == ys;
    } else {
      assert (xs + ys)[0] == xs[0] && (xs + ys)[1..] == xs[1..] + ys;
      LeadsOn(c, Next(c, s, xs[0]), xs[1..], t, ys, u);
    }
  }

  lemma LeadsOne(c: Numbers, s: State, t: nat)
    requires WellFormed(c, s) && CanStep(c, s, t)
    ensures Leads(c, s, [t], Next(c, s, t))
  {
    assert [t][1..] == [];
  }

  /** A thread left alone decides by the common number of the value it sees. */
  lemma SoloDecide(c: Numbers, s: State, t: nat) returns (schedule: seq<nat>, r: State)
    requires ValidNumbers(c) && Settled(c, s) && CanStep(c, s, t) && s.pcs[t].Test?
    ensures Leads(c, s, schedule, r)
    ensures var i := s.pcs[t].i;
            r == s.(pcs := s.pcs[t := if Owner(c, s.cells[i]) == t then Store(i) else Test(i + 1)])
  {
    LeadsOne(c, s, t);
    r := Next(c, s, t);
    schedule := [t];
    if c.secondLoad {
      LeadsOne(c, r, t);
      LeadsOn(c, s, schedule, r, [t], Next(c, r, t));
      schedule, r := schedule + [t], Next(c, r, t);
      var reload := Reload(s.pcs[t].i, s.cells[s.pcs[t].i] > c.pixelMax / 2);
      assert s.pcs[t := reload][t := r.pcs[t]] == s.pcs[t := r.pcs[t]];
    }
  }

  lemma SoloStore(c: Numbers, s: State, t: nat) returns (schedule: seq<nat>, r: State)
    requires ValidNumbers(c) && WellFormed(c, s) && CanStep(c, s, t) && s.pcs[t].Store?
    ensures Leads(c, s, schedule, r)
    ensures var i := s.pcs[t].i;
            && r.pcs == s.pcs[t := Test(i + 1)] && r.cells == s.cells[i := Flip(c.pixelMax, s.cells[i])]
  {
    LeadsOne(c, s, t);
    return [t], Next(c, s, t);
  }

  /** A thread left alone deals with its current cell as it should. */
  lemma SoloCell(c: Numbers, s: State, t: nat) returns (schedule: seq<nat>, r: State)
    requires ValidNumbers(c) && Settled(c, s) && CanStep(c, s, t) && s.pcs[t].Test?
    ensures Leads(c, s, schedule, r) && Settled(c, r)
    ensures var i := s.pcs[t].i;
            && r.pcs == s.pcs[t := Test(i + 1)]
            && r.cells == s.cells[i := if Owner(c, s.cells[i]) == t then Flip(c.pixelMax, s.cells[i]) else s.cells[i]]
  {
    schedule, r := SoloDecide(c, s, t);
    var i := s.pcs[t].i;
    OwnerOfComplement(c, s.cells[i]);
    if Owner(c, s.cells[i]) == t {
      var more, u := SoloStore(c, r, t);
      LeadsOn(c, s, schedule, r, more, u);
      schedule, r := schedule + more, u;
      assert r.pcs == s.pcs[t := Test(i + 1)];
    }
  }

  /** Cell k is not the business of thread t: it belongs to another one. */
  ghost predicate Foreign(c: Numbers, s: State, t: nat, k: nat)
    requires c.threads >= 1
  {
    k < |s.cells| && Owner(c, s.cells[k]) != t
  }

  /** A thread left alone gets to cell `upto`, and leaves the cells from there on, and foreign ones, alone. */
  lemma {:induction false} SoloUpTo(c: Numbers, s: State, t: nat, upto: nat, k: nat)
    returns (schedule: seq<nat>, r: State)
    requires ValidNumbers(c) && Settled(c, s) && t < |s.pcs| && s.pcs[t].Test? && s.pcs[t].i <= upto <= |s.cells|
    requires k < |s.cells| && (k >= upto || k < s.pcs[t].i || Foreign(c, s, t, k))
    ensures Leads(c, s, schedule, r) && Settled(c, r)
    ensures r.pcs == s.pcs[t := Test(upto)] && r.cells[k] == s.cells[k]
    decreases upto - s.pcs[t].i
  {
    if s.pcs[t].i == upto {
      assert s.pcs[t := Test(upto)] == s.pcs;
      return [], s;
    }
    schedule, r := SoloCell(c, s, t);
    var more, u := SoloUpTo(c, r, t, upto, k);
    LeadsOn(c, s, schedule, r, more, u);
    schedule, r := schedule + more, u;
  }

  /** The remaining threads run to the end one after another; cell k stays as it is when its owner has passed. */
  lemma {:induction false} FinishFrom(c: Numbers, s: State, t: nat, k: nat) returns (schedule: seq<nat>, r: State)
    requires ValidNumbers(c) && Settled(c, s) && t <= |s.pcs| && k < |s.cells|
    requires forall u :: 0 <= u < t ==> s.pcs[u] == Test(|s.cells|)
    requires forall u :: t <= u < |s.pcs| ==> s.pcs[u].Test?
    requires forall u :: t <= u < |s.pcs| ==> s.pcs[u].i > k || Foreign(c, s, u, k)
    ensures Leads(c, s, schedule, r) && Done(r) && r.cells[k] == s.cells[k]
    decreases |s.pcs| - t
  {
    if t == |s.pcs| {
      return [], s;
    }
    schedule, r := SoloUpTo(c, s, t, |s.cells|, k);
    var more, u := FinishFrom(c, r, t + 1, k);
    LeadsOn(c, s, schedule, r, more, u);
    schedule, r := schedule + more, u;
  }

  /** The owner of cell k, left alone, gets past it and negates it. */
  lemma OwnerPasses(c: Numbers, s: State, o: nat, k: nat) returns (schedule: seq<nat>, r: State)
    requires ValidNumbers(c) && Settled(c, s) && k < |s.cells|
    requires o < |s.pcs| && s.pcs[o] == Test(0) && Owner(c, s.cells[k]) == o
    ensures Leads(c, s, schedule, r) && Settled(c, r)
    ensures r.pcs == s.pcs[o := Test(k + 1)] && r.cells[k] == Flip(c.pixelMax, s.cells[k])
  {
    var xs, s1 := SoloUpTo(c, s, o, k, k);
    var ys, s2 := SoloCell(c, s1, o);
    LeadsOn(c, s, xs, s1, ys, s2);
    schedule, r := xs + ys, s2;
  }

  /** Up to cell k a thread that does not own it runs alone, and then compares the cell with the middle. */
  lemma CompareForeign(c: Numbers, w: nat, k: nat) returns (schedule: seq<nat>, s: State)
    requires ValidNumbers(c) && c.secondLoad && k < |c.cells| && w < c.threads
    ensures Leads(c, InitNumbers(c), schedule, s) && Settled(c, s)
    ensures s.pcs == InitNumbers(c).pcs[w := Reload(k, c.cells[k] > c.pixelMax / 2)] && s.cells[k] == c.cells[k]
  {
    var s0 := InitNumbers(c);
    var xs, s1 := SoloUpTo(c, s0, w, k, k);
    LeadsOne(c, s1, w);
    s := Next(c, s1, w);
    LeadsOn(c, s0, xs, s1, [w], s);
    schedule := xs + [w];
  }

  /** A thread that has compared the value v and now reads its complement takes the cell for its own. */
  lemma NegateBack(c: Numbers, s: State, w: nat, k: nat, v: int) returns (schedule: seq<nat>, r: State)
    requires ValidNumbers(c) && Settled(c, s) && k < |s.cells| && w < |s.pcs| && 0 <= v <= c.pixelMax
    requires s.pcs[w] == Reload(k, v > c.pixelMax / 2) && s.cells[k] == c.pixelMax - v
    requires w == (c.pixelMax - Number(c.pixelMax, v)) % c.threads
    ensures Leads(c, s, schedule, r) && Settled(c, r)
    ensures r.pcs == s.pcs[w := Test(k + 1)] && r.cells[k] == v
  {
    LeadsOne(c, s, w);
    var s1 := Next(c, s, w);
    assert s1.pcs[w] == Store(k);
    OwnerOfComplement(c, c.pixelMax - v);
    var ys, s2 := SoloStore(c, s1, w);
    LeadsOn(c, s, [w], s1, ys, s2);
    schedule, r := [w] + ys, s2;
    assert r.pcs == s.pcs[w := Test(k + 1)];
  }

  /** The run that goes wrong at cell k: a thread compares the old value, the owner negates the cell, the
      first thread reads the new value, takes the cell for its own and negates it back. */
  lemma NegatedTwice(c: Numbers, k: nat) returns (schedule: seq<nat>, s: State)
    requires ValidNumbers(c) && c.secondLoad && k < |c.cells| && !Congruent(c, c.cells[k])
    ensures Leads(c, InitNumbers(c), schedule, s) && Settled(c, s)
    ensures s.cells[k] == c.cells[k]
    ensures forall u :: 0 <= u < |s.pcs| ==> s.pcs[u].Test?
    ensures forall u :: 0 <= u < |s.pcs| ==> s.pcs[u].i > k || Foreign(c, s, u, k)
  {
    var v, m := c.cells[k], c.pixelMax;
    OwnerOfComplement(c, v);
    var o, w := Owner(c, v), (m - Number(m, v)) % c.threads;
    var s0 := InitNumbers(c);
    var xs, s1 := CompareForeign(c, w, k);
    var ys, s2 := OwnerPasses(c, s1, o, k);
    LeadsOn(c, s0, xs, s1, ys, s2);
    assert s2.pcs[w] == s1.pcs[w];
    var zs, s3 := NegateBack(c, s2, w, k, v);
    LeadsOn(c, s0, xs + ys, s2, zs, s3);
    schedule, s := xs + ys + zs, s3;
  }

  /** The method is right in every interleaving exactly when the cell is read once at line 169, or every value
      of the image leaves the same remainder as its complement. */
  lemma AlwaysNegatesIff(c: Numbers)
    requires ValidNumbers(c)
    ensures AlwaysNegates(c) <==> Decisive(c)
  {
    if Decisive(c) {
      forall schedule | Legal(c, InitNumbers(c), schedule) && Done(Run(c, InitNumbers(c), schedule))
        ensures Run(c, InitNumbers(c), schedule).cells == Negated(c.pixelMax, c.cells)
      {
        RacingIsCorrect(c, schedule);
      }
    } else {
      var k :| 0 <= k < |c.cells| && !Congruent(c, c.cells[k]);
      var xs, s1 := NegatedTwice(c, k);
      var ys, s2 := FinishFrom(c, s1, 0, k);
      LeadsOn(c, InitNumbers(c), xs, s1, ys, s2);
      OwnerOfComplement(c, c.cells[k]);
      assert s2.cells[k] != Negated(c.pixelMax, c.cells)[k];
      assert s2 == Run(c, InitNumbers(c), xs + ys);
    }
  }
}
