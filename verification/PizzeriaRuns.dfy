/** Particular runs of the pizzeria: a pizza that is made and put on the table while nothing else happens, and a
    delivery that nobody disturbs. */
module PizzeriaRuns {
  import opened PizzeriaModel

  /** `acts` leads from `s` to `t`. */
  ghost predicate Leads(c: Config, s: State, acts: seq<Action>, t: State)
    requires WellFormed(c, s)
  {
    Legal(c, s, acts) && Run(c, s, acts) == t
  }

  lemma {:induction false} LeadsOn(c: Config, s: State, xs: seq<Action>, t: State, ys: seq<Action>, u: State)
    requires WellFormed(c, s) && WellFormed(c, t) && Leads(c, s, xs, t) && Leads(c, t, ys, u)
    ensures Leads(c, s, xs + ys, u)
    decreases |xs|
  {
    if xs == [] {
      assert xs + ys == ys;
    } else {
      assert (xs + ys)[0] == xs[0] && (xs + ys)[1..] == xs[1..] + ys;
      LeadsOn(c, Next(c, s, xs[0]), xs[1..], t, ys, u);
    }
  }

  lemma LeadsStep(c: Config, s: State, xs: seq<Action>, t: State, a: Action)
    requires WellFormed(c, s) && WellFormed(c, t) && Leads(c, s, xs, t) && CanStep(c, t, a)
    ensures Leads(c, s, xs + [a], Next(c, t, a))
  {
    LeadsOne(c, t, a, Next(c, t, a));
    LeadsOn(c, s, xs, t, [a], Next(c, t, a));
  }

  lemma LeadsOne(c: Config, s: State, a: Action, t: State)
    requires WellFormed(c, s) && CanStep(c, s, a) && t == Next(c, s, a)
    ensures Leads(c, s, [a], t)
  {
    assert [a][1..] == [];
    assert Legal(c, t, []) && Run(c, t, []) == t;
  }

  ghost predicate CooksOnly(acts: seq<Action>) { forall a :: a in acts ==> a.Cook? }

  ghost predicate SuppliersOnly(acts: seq<Action>) { forall a :: a in acts ==> a.Supplier? }

  // ---------- Cooks ----------

  /** No oven is in use and nobody is in a section; every supplier is in front of its semaphore operation. */
  ghost predicate Calm(c: Config, s: State) {
    && WellFormed(c, s)
    && s.ovenPlace == 1 && s.ovenIn == OVEN_CAP && s.tablePlace == 1
    && s.oven == FreeSlots(OVEN_CAP) && s.ovensTaken == 0
    && (c.atomicDelivery ==> forall k :: 0 <= k < |s.suppliers| ==> s.suppliers[k].Idle?)
  }

  /** Cook `i` has pizza `n` ready for the table. */
  function Ready(s: State, i: nat, n: nat): State
    requires i < |s.cooks|
  {
    s.(cooks := s.cooks[i := Carrying(n)], made := s.made + multiset{n})
  }

  /** Pizza `n` has been made and put on the table. */
  function Served(s: State, n: nat): State
    requires FirstFree(s.table) < |s.table|
  {
    s.(table := s.table[FirstFree(s.table) := n + 1], tablesTaken := s.tablesTaken + 1,
       tableOn := s.tableOn - 1, tableReady := s.tableReady + 1, made := s.made + multiset{n})
  }

  lemma MakePizza(c: Config, s: State, i: nat, n: nat) returns (acts: seq<Action>)
    requires Calm(c, s) && i < |s.cooks| && s.cooks[i] == Starting && n < PIZZA_KINDS
    ensures Calm(c, Ready(s, i, n)) && Leads(c, s, acts, Ready(s, i, n)) && CooksOnly(acts)
  {
    var a := Cook(i, n);
    var s1 := Next(c, s, a);
    LeadsStep(c, s, [], s, a);
    var s2 := Next(c, s1, a);
    LeadsStep(c, s, [] + [a], s1, a);
    var s3 := Next(c, s2, a);
    LeadsStep(c, s, [] + [a] + [a], s2, a);
    var s4 := Next(c, s3, a);
    LeadsStep(c, s, [] + [a] + [a] + [a], s3, a);
    LeadsStep(c, s, [] + [a] + [a] + [a] + [a], s4, a);
    assert s2.oven == s.oven[0 := 1] && s4.oven == s.oven;
    assert Next(c, s4, a) == Ready(s, i, n);
    return [] + [a] + [a] + [a] + [a] + [a];
  }

  /** Cook `i` has put its pizza on the table and loaded the counter. */
  function Loaded(s: State, i: nat, n: nat): State
    requires i < |s.cooks| && FirstFree(s.table) < |s.table|
  {
    s.(tablePlace := s.tablePlace - 1, tableOn := s.tableOn - 1, table := s.table[FirstFree(s.table) := n + 1],
       cooks := s.cooks[i := Storing(n, s.tablesTaken)])
  }

  /** Cook `i` has stored the counter and announced its pizza. */
  function Announced(s: State, i: nat): State
    requires i < |s.cooks| && s.cooks[i].Storing?
  {
    s.(tablesTaken := s.cooks[i].taken + 1, tablePlace := s.tablePlace + 1, tableReady := s.tableReady + 1,
       cooks := s.cooks[i := Starting])
  }

  lemma FillAndLoad(c: Config, s: State, i: nat, n: nat) returns (acts: seq<Action>)
    requires Calm(c, s) && i < |s.cooks| && s.cooks[i] == Carrying(n)
    requires s.tableOn >= 1 && FirstFree(s.table) < TABLE_CAP
    ensures WellFormed(c, Loaded(s, i, n)) && Leads(c, s, acts, Loaded(s, i, n)) && CooksOnly(acts)
  {
    var a := Cook(i, n);
    var s1 := Next(c, s, a);
    LeadsStep(c, s, [], s, a);
    LeadsStep(c, s, [] + [a], s1, a);
    assert Next(c, s1, a).cooks == s.cooks[i := Storing(n, s.tablesTaken)];
    return [] + [a] + [a];
  }

  lemma StoreAndAnnounce(c: Config, s: State, i: nat) returns (acts: seq<Action>)
    requires WellFormed(c, s) && i < |s.cooks| && s.cooks[i].Storing?
    requires c.atomicDelivery ==> forall k :: 0 <= k < |s.suppliers| ==> s.suppliers[k].Idle?
    ensures WellFormed(c, Announced(s, i)) && Leads(c, s, acts, Announced(s, i)) && CooksOnly(acts)
  {
    var a := Cook(i, 0);
    var s1 := Next(c, s, a);
    LeadsStep(c, s, [], s, a);
    LeadsStep(c, s, [] + [a], s1, a);
    assert Next(c, s1, a).cooks == s.cooks[i := Starting];
    return [] + [a] + [a];
  }

  /** Cook `i` makes a pizza and serves it. */
  lemma Serve(c: Config, s: State, i: nat, n: nat) returns (acts: seq<Action>)
    requires Calm(c, s) && i < |s.cooks| && s.cooks[i] == Starting && n < PIZZA_KINDS
    requires s.tableOn >= 1 && FirstFree(s.table) < TABLE_CAP
    ensures Calm(c, Served(s, n)) && Leads(c, s, acts, Served(s, n)) && CooksOnly(acts)
  {
    var xs := MakePizza(c, s, i, n);
    var s1 := Ready(s, i, n);
    var ys := FillAndLoad(c, s1, i, n);
    var s2 := Loaded(s1, i, n);
    LeadsOn(c, s, xs, s1, ys, s2);
    var zs := StoreAndAnnounce(c, s2, i);
    assert Announced(s2, i).cooks == s.cooks;
    LeadsOn(c, s, xs + ys, s2, zs, Served(s, n));
    return xs + ys + zs;
  }

  // ---------- A supplier ----------

  /** No other supplier is in the middle of a delivery where that would keep supplier `k` from stepping. */
  ghost predicate MayGoOn(c: Config, s: State, k: nat) {
    && WellFormed(c, s) && k < |s.suppliers|
    && (c.atomicDelivery ==> forall m :: 0 <= m < |s.suppliers| && m != k ==> s.suppliers[m].Idle?)
  }

  /** The undisturbed scan stops at the first occupied slot from the queue start on, if there is any. */
  lemma {:induction false} Scan(c: Config, s: State, k: nat, i: nat) returns (acts: seq<Action>)
    requires MayGoOn(c, s, k) && s.suppliers[k] == Looking(i) && i <= TABLE_CAP
    requires FirstTaken(s.table, s.tableQueueStart, i) < TABLE_CAP
    ensures var d := FirstTaken(s.table, s.tableQueueStart, i);
            Leads(c, s, acts, s.(suppliers := s.suppliers[k := Found(ScanSlot(s.tableQueueStart, d))]))
    ensures |acts| <= TABLE_CAP - i && SuppliersOnly(acts)
    decreases TABLE_CAP - i
  {
    var a := Supplier(k);
    LeadsStep(c, s, [], s, a);
    acts := [] + [a];
    if s.table[ScanSlot(s.tableQueueStart, i)] == 0 {
      var s1 := Next(c, s, a);
      var ys := Scan(c, s1, k, i + 1);
      var d := FirstTaken(s.table, s.tableQueueStart, i + 1);
      var t := s.(suppliers := s.suppliers[k := Found(ScanSlot(s.tableQueueStart, d))]);
      assert s1.suppliers[k := t.suppliers[k]] == t.suppliers;
      LeadsOn(c, s, acts, s1, ys, t);
      acts := acts + ys;
    }
  }

  /** What a delivery amounts to that nobody disturbs: supplier `k`, which has not begun its scan, takes the
      first pizza from the queue start on. */
  function Collected(s: State, k: nat): State
    requires k < |s.suppliers| && |s.table| == TABLE_CAP
    requires FirstTaken(s.table, s.tableQueueStart, 0) < TABLE_CAP
  {
    var j := ScanSlot(s.tableQueueStart, FirstTaken(s.table, s.tableQueueStart, 0));
    s.(tableQueueStart := (s.tableQueueStart + 1) % TABLE_CAP, tablesTaken := s.tablesTaken - 1,
       table := s.table[j := 0], suppliers := s.suppliers[k := Idle],
       delivered := s.delivered + multiset{PizzaIn(s.table[j])})
  }

  /** The steps that follow an undisturbed scan. */
  lemma TakeFound(s: State, k: nat)
    requires k < |s.suppliers| && |s.table| == TABLE_CAP
    requires FirstTaken(s.table, s.tableQueueStart, 0) < TABLE_CAP
    ensures var j := ScanSlot(s.tableQueueStart, FirstTaken(s.table, s.tableQueueStart, 0));
            var s1 := s.(suppliers := s.suppliers[k := Found(j)]);
            SupplierStep(SupplierStep(SupplierStep(s1, k), k), k) == Collected(s, k)
  {
    var j := ScanSlot(s.tableQueueStart, FirstTaken(s.table, s.tableQueueStart, 0));
    var s2 := SupplierStep(s.(suppliers := s.suppliers[k := Found(j)]), k);
    var s3 := SupplierStep(s2, k);
    assert s3.suppliers[k := Idle] == s.suppliers[k := Idle];
  }

  lemma Collect(c: Config, s: State, k: nat) returns (acts: seq<Action>)
    requires MayGoOn(c, s, k) && s.suppliers[k] == Looking(0)
    requires FirstTaken(s.table, s.tableQueueStart, 0) < TABLE_CAP
    ensures WellFormed(c, Collected(s, k)) && Leads(c, s, acts, Collected(s, k)) && SuppliersOnly(acts)
    ensures |acts| <= TABLE_CAP + 3
  {
    var a := Supplier(k);
    var xs := Scan(c, s, k, 0);
    var j := ScanSlot(s.tableQueueStart, FirstTaken(s.table, s.tableQueueStart, 0));
    var s1 := s.(suppliers := s.suppliers[k := Found(j)]);
    var s2 := Next(c, s1, a);
    LeadsStep(c, s, xs, s1, a);
    var s3 := Next(c, s2, a);
    LeadsStep(c, s, xs + [a], s2, a);
    LeadsStep(c, s, xs + [a] + [a], s3, a);
    TakeFound(s, k);
    return xs + [a] + [a] + [a];
  }

  /** Supplier `k` makes a whole delivery. */
  function Delivered(s: State, k: nat): State
    requires k < |s.suppliers| && |s.table| == TABLE_CAP
    requires FirstTaken(s.table, s.tableQueueStart, 0) < TABLE_CAP
  {
    Collected(s, k).(tableOn := s.tableOn + 1, tableReady := s.tableReady - 1)
  }

  lemma Deliver(c: Config, s: State, k: nat) returns (acts: seq<Action>)
    requires MayGoOn(c, s, k) && s.suppliers[k] == Idle && s.tableReady >= 1
    requires FirstTaken(s.table, s.tableQueueStart, 0) < TABLE_CAP
    ensures WellFormed(c, Delivered(s, k)) && Leads(c, s, acts, Delivered(s, k)) && SuppliersOnly(acts)
    ensures Delivered(s, k).suppliers == s.suppliers
  {
    var s1 := Next(c, s, Supplier(k));
    LeadsStep(c, s, [], s, Supplier(k));
    var xs := Collect(c, s1, k);
    assert s1.suppliers[k := Idle] == s.suppliers[k := Idle] == s.suppliers;
    assert Collected(s1, k) == Delivered(s, k);
    LeadsOn(c, s, [] + [Supplier(k)], s1, xs, Delivered(s, k));
    return [] + [Supplier(k)] + xs;
  }
}
