/** Statements about every run of the pizzeria, for any numbers of cooks and suppliers. */
module PizzeriaTheorems {
  import opened PizzeriaModel
  import opened PizzeriaSafety
  import opened PizzeriaRuns

  // ---------- Safety in every run ----------

  /** Oven safety: capacity, exclusive slots, and an oven scan that never leaves the array. */
  lemma OvenSafe(c: Config, acts: seq<Action>)
    requires Legal(c, Init(c), acts)
    ensures var s := Run(c, Init(c), acts);
            && s.ovenIn + Count(s.cooks, HoldsPlace) == OVEN_CAP
            && s.ovensTaken == Count(s.oven, Occupied) <= OVEN_CAP
            && SlotsAgree(s.oven, s.cooks)
            && Count(s.cooks, InOven) <= 1 && Count(s.cooks, AtTable) <= 1
            && (s.ovenIn >= 1 ==> FirstFree(s.oven) < OVEN_CAP)
  {
    InitInv(c);
    RunKeeps(c, Init(c), acts);
    var s := Run(c, Init(c), acts);
    if s.ovenIn >= 1 {
      OvenScanInBounds(c, s);
    }
    CountBounds(s.oven, Occupied);
  }

  /** The permits for free and for filled places and the cook in the table section make up the capacity, and
      there are no fewer pizzas on the table than announced, placed but not yet announced, and claimed but not
      yet taken. So at any moment of a delivery some slot is occupied; a scan that is disturbed may miss it all
      the same. All this holds however the deliveries interleave. */
  lemma TablePermits(c: Config, acts: seq<Action>)
    requires Legal(c, Init(c), acts)
    ensures var s := Run(c, Init(c), acts);
            && s.tableOn + s.tableReady + Count(s.cooks, AtTable) == TABLE_CAP
            && s.tableReady + Count(s.cooks, HasPlaced) + Count(s.suppliers, HasClaimed) <= Count(s.table, Occupied)
            && (forall k :: 0 <= k < |s.suppliers| && !s.suppliers[k].Idle? ==>
                  FirstTaken(s.table, s.tableQueueStart, 0) < TABLE_CAP)
  {
    InitInv(c);
    RunKeeps(c, Init(c), acts);
    var s := Run(c, Init(c), acts);
    forall k | 0 <= k < |s.suppliers| && !s.suppliers[k].Idle?
      ensures FirstTaken(s.table, s.tableQueueStart, 0) < TABLE_CAP
    {
      CountBounds(s.suppliers, HasClaimed);
      SupplierScanStops(c, s);
    }
  }

  // ---------- When is every pizza accounted for? ----------

  /** In every run the pizzas made are those in hands and ovens, on the table, and delivered. */
  ghost predicate AlwaysConserves(c: Config) {
    forall acts :: Legal(c, Init(c), acts) ==> PizzasConserved(Run(c, Init(c), acts))
  }

  /** In every run the occupied slots are those announced, placed but not yet announced, and claimed but not yet
      taken. */
  ghost predicate NeverStray(c: Config) {
    forall acts :: Legal(c, Init(c), acts) ==> Stray(Run(c, Init(c), acts)) == 0
  }

  /** Both suppliers look at slot 0, then both read it, then both clear it. */
  lemma TakeBoth(c: Config, s: State) returns (acts: seq<Action>, t: State)
    requires WellFormed(c, s) && !c.atomicDelivery && c.suppliers >= 2 && s.tableReady >= 2
    requires s.suppliers[0].Idle? && s.suppliers[1].Idle? && s.tableQueueStart == 0 && s.table[0] != 0
    ensures Leads(c, s, acts, t)
    ensures t.table == s.table[0 := 0] && t.tableReady == s.tableReady - 2 && t.tableOn == s.tableOn + 2
    ensures t.made == s.made && t.cooks == s.cooks && t.suppliers == s.suppliers
    ensures t.delivered == s.delivered + multiset{PizzaIn(s.table[0])} + multiset{PizzaIn(s.table[0])}
  {
    var a, b := Supplier(0), Supplier(1);
    var xs, s1 := BothRead(c, s);
    var s2 := Next(c, s1, a);
    LeadsStep(c, s, xs, s1, a);
    var s3 := Next(c, s2, b);
    LeadsStep(c, s, xs + [a], s2, b);
    var s4 := Next(c, s3, a);
    LeadsStep(c, s, xs + [a] + [b], s3, a);
    LeadsStep(c, s, xs + [a] + [b] + [a], s4, b);
    acts := xs + [a] + [b] + [a] + [b];
    t := Next(c, s4, b);
    assert t.suppliers == s.suppliers;
  }

  lemma BothRead(c: Config, s: State) returns (acts: seq<Action>, t: State)
    requires WellFormed(c, s) && !c.atomicDelivery && c.suppliers >= 2 && s.tableReady >= 2
    requires s.suppliers[0].Idle? && s.suppliers[1].Idle? && s.tableQueueStart == 0 && s.table[0] != 0
    ensures WellFormed(c, t) && Leads(c, s, acts, t)
    ensures var p := PizzaIn(s.table[0]);
            t == s.(tableReady := s.tableReady - 2, tableOn := s.tableOn + 2, tableQueueStart := 2,
                    suppliers := s.suppliers[0 := Holding(0, p)][1 := Holding(0, p)])
  {
    var a, b := Supplier(0), Supplier(1);
    var s1 := Next(c, s, a);
    LeadsStep(c, s, [], s, a);
    var s2 := Next(c, s1, b);
    LeadsStep(c, s, [] + [a], s1, b);
    var s3 := Next(c, s2, a);
    LeadsStep(c, s, [] + [a] + [b], s2, a);
    assert s3.suppliers[0] == Found(0);
    var s4 := Next(c, s3, b);
    LeadsStep(c, s, [] + [a] + [b] + [a], s3, b);
    assert s4.suppliers[0] == Found(0) && s4.suppliers[1] == Found(0);
    var s5 := Next(c, s4, a);
    LeadsStep(c, s, [] + [a] + [b] + [a] + [b], s4, a);
    LeadsStep(c, s, [] + [a] + [b] + [a] + [b] + [a], s5, b);
    acts, t := [] + [a] + [b] + [a] + [b] + [a] + [b], Next(c, s5, b);
    var p := PizzaIn(s.table[0]);
    assert t.suppliers == s.suppliers[0 := Holding(0, p)][1 := Holding(0, p)];
  }

  /** Two suppliers that find the same slot occupied both deliver its pizza; the other pizza stays on the table
      although every permit says that the table is empty. */
  lemma TakenTwice(c: Config) returns (acts: seq<Action>, t: State)
    requires !Orderly(c)
    ensures Leads(c, Init(c), acts, t)
    ensures t.made == multiset{0, 1} && t.delivered == multiset{0, 0} && t.table == [0, 2, 0, 0, 0]
    ensures t.cooks == Init(c).cooks && t.suppliers == Init(c).suppliers && t.tableReady == 0 && t.tableOn == TABLE_CAP
  {
    var xs, s := ServeTwo(c);
    var ys;
    ys, t := TakeBoth(c, s);
    LeadsOn(c, Init(c), xs, s, ys, t);
    acts := xs + ys;
  }

  /** A second one, of kind 1, is there as well. */
  lemma ServeTwo(c: Config) returns (acts: seq<Action>, t: State)
    requires c.cooks >= 1
    ensures WellFormed(c, t) && Leads(c, Init(c), acts, t)
    ensures t == Init(c).(table := [1, 2, 0, 0, 0], tablesTaken := 2, tableOn := 3, tableReady := 2,
                          made := multiset{0, 1})
  {
    var xs, s := ServeFirst(c);
    var ys := Serve(c, s, 0, 1);
    t := Served(s, 1);
    assert t.table == [1, 2, 0, 0, 0];
    LeadsOn(c, Init(c), xs, s, ys, t);
    acts := xs + ys;
  }

  /** A first pizza, of kind 0, is on the table. */
  lemma ServeFirst(c: Config) returns (acts: seq<Action>, t: State)
    requires c.cooks >= 1
    ensures Calm(c, t) && Leads(c, Init(c), acts, t)
    ensures t == Init(c).(table := [1, 0, 0, 0, 0], tablesTaken := 1, tableOn := 4, tableReady := 1,
                          made := multiset{0})
  {
    var s := Init(c);
    assert Calm(c, s);
    acts := Serve(c, s, 0, 0);
    t := Served(s, 0);
    assert t.table == [1, 0, 0, 0, 0];
  }

  lemma TwicePizzas(c: Config, t: State)
    requires t.made == multiset{0, 1} && t.delivered == multiset{0, 0} && t.table == [0, 2, 0, 0, 0]
    requires t.cooks == Init(c).cooks && t.suppliers == Init(c).suppliers && t.tableReady == 0
    ensures !PizzasConserved(t) && Stray(t) == 1
  {
    assert t.delivered[0] == 2 && t.made[0] == 1;
    CountBounds(t.cooks, HasPlaced);
    CountBounds(t.suppliers, HasClaimed);
    assert t.table == FreeSlots(TABLE_CAP)[1 := 2];
    CountUpdate<nat>(FreeSlots(TABLE_CAP), 1, 2, Occupied);
    CountBounds(FreeSlots(TABLE_CAP), Occupied);
  }

  /** Pizzas are neither lost nor duplicated in any run, and none ever goes astray, exactly when nobody steps
      during a delivery, or there is at most one supplier, or nobody bakes. */
  lemma AccountedIff(c: Config)
    ensures AlwaysConserves(c) <==> Orderly(c)
    ensures NeverStray(c) <==> Orderly(c)
  {
    if Orderly(c) {
      InitInv(c);
      forall acts | Legal(c, Init(c), acts)
        ensures Accounted(Run(c, Init(c), acts))
      {
        RunKeepsOrder(c, Init(c), acts);
      }
    } else {
      var acts, t := TakenTwice(c);
      TwicePizzas(c, t);
    }
  }

  // ---------- When is the counter of the table right? ----------

  predicate HasFilled(pc: CookPc) { pc.Filled? || pc.Storing? }

  /** Unless a cook is about to count its pizza, the counter is the number of occupied slots. */
  ghost predicate CounterRight(s: State) {
    Count(s.cooks, HasFilled) == 0 ==> s.tablesTaken == Count(s.table, Occupied)
  }

  ghost predicate CounterAlwaysRight(c: Config) {
    forall acts :: Legal(c, Init(c), acts) ==> CounterRight(Run(c, Init(c), acts))
  }

  /** Where nobody delivers, the counter lags behind by the pizza of the cook in the table section. */
  ghost predicate CounterInv(c: Config, s: State) {
    && Inv(c, s)
    && s.tablesTaken + Count(s.cooks, HasFilled) == Count(s.table, Occupied)
    && (forall i :: 0 <= i < |s.cooks| && s.cooks[i].Storing? ==> s.cooks[i].taken == s.tablesTaken)
  }

  /** The cooks' section keeps one from storing between the load and the store of another. */
  lemma StoresAlone(c: Config, s: State, i: nat)
    requires Inv(c, s) && i < |s.cooks| && AtTable(s.cooks[i])
    ensures forall j :: 0 <= j < |s.cooks| && j != i ==> !AtTable(s.cooks[j])
  {
    OnlyOne(s.cooks, i, AtTable);
  }

  lemma CookKeepsCounter(c: Config, s: State, i: nat, n: nat)
    requires CounterInv(c, s) && CanStep(c, s, Cook(i, n))
    ensures CounterInv(c, CookStep(s, i, n))
  {
    Keeps(c, s, Cook(i, n));
    CookAtTable(s, i, n);
    CookMoves(c, s, i, n);
    CountUpdate(s.cooks, i, Target(s, i, n), HasFilled);
    if s.cooks[i].Carrying? && FirstFree(s.table) < TABLE_CAP {
      CountUpdate<nat>(s.table, FirstFree(s.table), s.cooks[i].n + 1, Occupied);
    }
    if AtTable(s.cooks[i]) {
      StoresAlone(c, s, i);
    }
  }

  lemma {:induction false} RunKeepsCounter(c: Config, s: State, acts: seq<Action>)
    requires CounterInv(c, s) && Legal(c, s, acts) && c.suppliers == 0
    ensures CounterInv(c, Run(c, s, acts))
    decreases |acts|
  {
    if acts != [] {
      CookKeepsCounter(c, s, acts[0].i, acts[0].n);
      RunKeepsCounter(c, Next(c, s, acts[0]), acts[1..]);
    }
  }

  /** Two pizzas are on the table, one of them announced, and the cook has loaded the counter for the other. */
  lemma LoadCounter(c: Config) returns (acts: seq<Action>, t: State)
    requires c.cooks >= 1
    ensures WellFormed(c, t) && Leads(c, Init(c), acts, t)
    ensures t.cooks == Init(c).cooks[0 := Storing(0, 1)] && t.suppliers == Init(c).suppliers
    ensures t.table == [1, 1, 0, 0, 0] && t.tableReady == 1 && t.tableQueueStart == 0
  {
    var s := Init(c);
    var xs, s1 := ServeFirst(c);
    var ys := MakePizza(c, s1, 0, 0);
    var s2 := Ready(s1, 0, 0);
    LeadsOn(c, s, xs, s1, ys, s2);
    var zs := FillAndLoad(c, s2, 0, 0);
    t := Loaded(s2, 0, 0);
    LeadsOn(c, s, xs + ys, s2, zs, t);
    acts := xs + ys + zs;
    assert t.cooks == s.cooks[0 := Storing(0, 1)];
  }

  /** A whole delivery, uninterrupted, falls between the load and the store of a cook: afterwards nobody is near
      the table, one pizza lies on it, and the counter says two. */
  lemma CountLost(c: Config) returns (acts: seq<Action>, t: State)
    requires c.cooks >= 1 && c.suppliers >= 1
    ensures Leads(c, Init(c), acts, t) && t.cooks == Init(c).cooks && t.suppliers == Init(c).suppliers
    ensures t.table == [0, 1, 0, 0, 0] && t.tablesTaken == 2
  {
    var s := Init(c);
    var xs, s1 := LoadCounter(c);
    var ys, s2 := DeliverFirst(c, s1);
    LeadsOn(c, s, xs, s1, ys, s2);
    var zs := StoreAndAnnounce(c, s2, 0);
    t := Announced(s2, 0);
    LeadsOn(c, s, xs + ys, s2, zs, t);
    acts := xs + ys + zs;
    assert t.cooks == s.cooks;
  }

  lemma DeliverFirst(c: Config, s: State) returns (acts: seq<Action>, t: State)
    requires WellFormed(c, s) && c.suppliers >= 1 && s.suppliers == Init(c).suppliers
    requires s.table == [1, 1, 0, 0, 0] && s.tableReady == 1 && s.tableQueueStart == 0
    ensures WellFormed(c, t) && Leads(c, s, acts, t)
    ensures t.cooks == s.cooks && t.suppliers == s.suppliers && t.table == [0, 1, 0, 0, 0]
  {
    assert FirstTaken(s.table, 0, 0) == 0;
    acts := Deliver(c, s, 0);
    t := Delivered(s, 0);
  }

  /** The load and the store of `tables_taken++` and `tables_taken--` are not protected from each other. The
      counter is right in every run exactly when nobody bakes or nobody delivers; that deliveries are not
      interrupted does not help. */
  lemma CounterAlwaysRightIff(c: Config)
    ensures CounterAlwaysRight(c) <==> c.cooks == 0 || c.suppliers == 0
  {
    InitInv(c);
    var s := Init(c);
    CountBounds(s.cooks, HasFilled);
    CountBounds(s.table, Occupied);
    if c.suppliers == 0 {
      forall acts | Legal(c, s, acts)
        ensures CounterRight(Run(c, s, acts))
      {
        RunKeepsCounter(c, s, acts);
      }
    } else if c.cooks == 0 {
      forall acts | Legal(c, s, acts)
        ensures CounterRight(Run(c, s, acts))
      {
        assert acts == [];
      }
    } else {
      var acts, t := CountLost(c);
      LostCounter(c, t);
      assert !CounterRight(Run(c, s, acts));
    }
  }

  lemma LostCounter(c: Config, t: State)
    requires t.cooks == Init(c).cooks && t.table == [0, 1, 0, 0, 0] && t.tablesTaken == 2
    ensures !CounterRight(t)
  {
    CountBounds(t.cooks, HasFilled);
    assert t.table == FreeSlots(TABLE_CAP)[1 := 1];
    CountUpdate<nat>(FreeSlots(TABLE_CAP), 1, 1, Occupied);
    CountBounds(FreeSlots(TABLE_CAP), Occupied);
  }

  // ---------- When does the table scan stay in bounds? ----------

  /** No run makes a cook's scan leave its array. */
  ghost predicate ScansSafe(c: Config) {
    forall acts :: Legal(c, Init(c), acts) ==> NoOverrun(Run(c, Init(c), acts))
  }

  /** Cook 0 fills the table. */
  lemma {:induction false} FillTable(c: Config, s: State) returns (acts: seq<Action>, t: State)
    requires Calm(c, s) && |s.cooks| >= 1 && s.cooks[0] == Starting
    requires s.tableOn >= 0 && s.tableOn + Count(s.table, Occupied) == TABLE_CAP == s.tableOn + s.tableReady
    ensures Leads(c, s, acts, t) && Calm(c, t) && t.cooks == s.cooks && t.suppliers == s.suppliers
    ensures t.tableOn == 0 && t.tableReady == TABLE_CAP && Count(t.table, Occupied) == TABLE_CAP
    decreases s.tableOn
  {
    if s.tableOn == 0 {
      return [], s;
    }
    CountBounds(s.table, Occupied);
    var xs := Serve(c, s, 0, 0);
    var s1 := Served(s, 0);
    CountUpdate<nat>(s.table, FirstFree(s.table), 1, Occupied);
    var ys;
    ys, t := FillTable(c, s1);
    LeadsOn(c, s, xs, s1, ys, t);
    acts := xs + ys;
  }

  /** A supplier announces a free place before it has cleared one; a cook that comes in between finds the
      table full. */
  lemma Overrun(c: Config) returns (acts: seq<Action>, t: State)
    requires c.cooks >= 1 && c.suppliers >= 1 && !c.atomicDelivery
    ensures Leads(c, Init(c), acts, t) && t.cooks[0].TableOverrun?
  {
    InitInv(c);
    CountBounds(Init(c).table, Occupied);
    var xs, s1 := FillTable(c, Init(c));
    var ys := MakePizza(c, s1, 0, 0);
    var s2 := Ready(s1, 0, 0);
    LeadsOn(c, Init(c), xs, s1, ys, s2);
    LeadsStep(c, Init(c), xs + ys, s2, Supplier(0));
    var s3 := Next(c, s2, Supplier(0));
    RunKeeps(c, Init(c), xs + ys + [Supplier(0)]);
    CountUpdate(s2.suppliers, 0, Looking(0), HasClaimed);
    TableScanInBounds(c, s3);
    LeadsStep(c, Init(c), xs + ys + [Supplier(0)], s3, Cook(0, 0));
    acts, t := xs + ys + [Supplier(0)] + [Cook(0, 0)], Next(c, s3, Cook(0, 0));
  }

  /** The scans stay in bounds in every run exactly when deliveries are not interrupted, or nobody bakes, or
      nobody delivers. */
  lemma ScansSafeIff(c: Config)
    ensures ScansSafe(c) <==> c.atomicDelivery || c.cooks == 0 || c.suppliers == 0
  {
    InitInv(c);
    if c.atomicDelivery || c.suppliers == 0 {
      forall acts | Legal(c, Init(c), acts)
        ensures NoOverrun(Run(c, Init(c), acts))
      {
        RunKeepsInBounds(c, Init(c), acts);
      }
    } else if c.cooks != 0 {
      var acts, t := Overrun(c);
      assert !NoOverrun(Run(c, Init(c), acts));
    }
  }

  // ---------- Deadlock freedom ----------

  /** In every state a run can reach, some cook or supplier can step, unless a scan has left its array. */
  ghost predicate NeverStuck(c: Config) {
    forall acts :: Legal(c, Init(c), acts) && NoOverrun(Run(c, Init(c), acts)) ==>
                     exists a :: CanStep(c, Run(c, Init(c), acts), a)
  }

  /** No cook holds an oven place while it waits for the table, and a table without free permits and without
      a cook in its section is full of announced pizzas; so someone can always step, however the deliveries
      interleave and whatever the numbers of cooks and suppliers, exactly as long as there are any of both. */
  lemma NeverStuckIff(c: Config)
    ensures NeverStuck(c) <==> c.cooks >= 1 && c.suppliers >= 1
  {
    InitInv(c);
    if c.cooks >= 1 && c.suppliers >= 1 {
      forall acts | Legal(c, Init(c), acts) && NoOverrun(Run(c, Init(c), acts))
        ensures exists a :: CanStep(c, Run(c, Init(c), acts), a)
      {
        RunKeeps(c, Init(c), acts);
        if c.atomicDelivery {
          RunKeepsOrder(c, Init(c), acts);
        }
        var a := SomeoneCanStep(c, Run(c, Init(c), acts));
      }
    } else if c.cooks == 0 {
      assert Run(c, Init(c), []) == Init(c) && NoOverrun(Init(c));
      assert forall a :: !CanStep(c, Init(c), a);
    } else {
      var acts, t := EveryoneWaits(c);
      assert NoOverrun(t);
    }
  }

  /** Without suppliers the cooks fill the table and end up waiting for it. */
  lemma EveryoneWaits(c: Config) returns (acts: seq<Action>, t: State)
    requires c.cooks >= 1 && c.suppliers == 0
    ensures Leads(c, Init(c), acts, t) && (forall a :: !CanStep(c, t, a))
    ensures forall j :: 0 <= j < |t.cooks| ==> t.cooks[j].Carrying?
  {
    CountBounds(Init(c).table, Occupied);
    var xs, s1 := FillTable(c, Init(c));
    var ys, s2 := AllCarry(c, s1, 0);
    LeadsOn(c, Init(c), xs, s1, ys, s2);
    acts, t := xs + ys, s2;
  }

  lemma {:induction false} AllCarry(c: Config, s: State, i: nat) returns (acts: seq<Action>, t: State)
    requires Calm(c, s) && s.tableOn == 0 && c.suppliers == 0 && i <= |s.cooks|
    requires forall j :: 0 <= j < i ==> s.cooks[j].Carrying?
    requires forall j :: i <= j < |s.cooks| ==> s.cooks[j] == Starting
    ensures Leads(c, s, acts, t) && t.tableOn == 0
    ensures WellFormed(c, t) && forall j :: 0 <= j < |t.cooks| ==> t.cooks[j].Carrying?
    decreases |s.cooks| - i
  {
    if i == |s.cooks| {
      return [], s;
    }
    var xs := MakePizza(c, s, i, 0);
    var s1 := Ready(s, i, 0);
    var ys, s2 := AllCarry(c, s1, i + 1);
    LeadsOn(c, s, xs, s1, ys, s2);
    acts, t := xs + ys, s2;
  }

  lemma SomeoneCanStep(c: Config, s: State) returns (a: Action)
    requires c.cooks >= 1 && c.suppliers >= 1
    requires Inv(c, s) && NoOverrun(s) && (c.atomicDelivery ==> OneDelivery(c, s))
    ensures CanStep(c, s, a)
  {
    if k :| 0 <= k < |s.suppliers| && !s.suppliers[k].Idle? {
      if c.atomicDelivery {
        OnlyOne(s.suppliers, k, HasClaimed);
      }
      return Supplier(k);
    }
    if i :| 0 <= i < |s.cooks| && CookCanStep(s, s.cooks[i], 0) {
      return Cook(i, 0);
    }
    AllCooksWait(c, s);
    assert s.suppliers[0] == Idle;
    return Supplier(0);
  }

  lemma AllCooksWait(c: Config, s: State)
    requires c.cooks >= 1 && Inv(c, s) && NoOverrun(s)
    requires forall i :: 0 <= i < |s.cooks| ==> !CookCanStep(s, s.cooks[i], 0)
    ensures s.tableReady == TABLE_CAP
  {
    CountBounds(s.cooks, InOven);
    CountBounds(s.cooks, HoldsPlace);
    CountBounds(s.cooks, AtTable);
    assert forall i :: 0 <= i < |s.cooks| ==> !InOven(s.cooks[i]) && !AtTable(s.cooks[i]);
    assert s.ovenPlace == 1 && s.tablePlace == 1;
    assert forall i :: 0 <= i < |s.cooks| ==> !s.cooks[i].Baking?;
    assert forall i :: 0 <= i < |s.cooks| ==> !HoldsPlace(s.cooks[i]);
    assert s.cooks[0].Carrying? && s.tableOn == 0;
  }
}
