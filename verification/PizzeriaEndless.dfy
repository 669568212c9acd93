/** Two suppliers that interrupt each other can go on for ever: one that never finds a pizza, and a pizza that is
    never found. */
module PizzeriaEndless {
  import opened PizzeriaModel
  import opened PizzeriaSafety
  import opened PizzeriaRuns
  import opened PizzeriaOvertaking

  // ---------- Exchanges behind the back of supplier 0 ----------

  /** The cooks are all at the start, and so are the suppliers but the first one; the table looks like this. */
  ghost predicate At(c: Config, s: State, table: seq<nat>, start: nat, ready: nat, pc: SupplierPc) {
    && Calm(c, s) && !Orderly(c)
    && s.cooks == Init(c).cooks && s.suppliers == Init(c).suppliers[0 := pc]
    && s.table == table && s.tableQueueStart == start
    && s.tableReady == ready && s.tableOn == TABLE_CAP - ready
  }

  /** A run during which slot 0 stays occupied if it is so at both ends, with this many deliveries. */
  ghost predicate Goes(c: Config, s: State, acts: seq<Action>, t: State, deliveries: nat)
    requires WellFormed(c, s) && WellFormed(c, t)
  {
    && Leads(c, s, acts, t)
    && (s.table[0] != 0 && t.table[0] != 0 ==> !Emptied(c, s, acts, 0))
    && |t.delivered| == |s.delivered| + deliveries
  }

  lemma GoesOn(c: Config, s: State, xs: seq<Action>, t: State, ys: seq<Action>, u: State, n: nat, m: nat)
    requires WellFormed(c, s) && WellFormed(c, t) && WellFormed(c, u)
    requires Goes(c, s, xs, t, n) && Goes(c, t, ys, u, m) && t.table[0] != 0
    ensures Goes(c, s, xs + ys, u, n + m)
  {
    LeadsOn(c, s, xs, t, ys, u);
    if s.table[0] != 0 && u.table[0] != 0 {
      EmptiedOn(c, s, xs, t, ys, 0);
    }
  }

  lemma ServeAt(c: Config, s: State, table: seq<nat>, start: nat, ready: nat, pc: SupplierPc)
    returns (acts: seq<Action>, t: State)
    requires At(c, s, table, start, ready, pc) && ready < TABLE_CAP && FirstFree(table) < TABLE_CAP
    ensures At(c, t, table[FirstFree(table) := 1], start, ready + 1, pc) && Goes(c, s, acts, t, 0)
  {
    acts := Serve(c, s, 0, 0);
    t := Served(s, 0);
    if s.table[0] != 0 {
      FillsOnly(c, s, acts, 0);
    }
  }

  lemma DeliverAt(c: Config, s: State, table: seq<nat>, start: nat, ready: nat, pc: SupplierPc, j: nat)
    returns (acts: seq<Action>, t: State)
    requires At(c, s, table, start, ready, pc) && ready >= 1 && |table| == TABLE_CAP
    requires FirstTaken(table, start, 0) < TABLE_CAP && j == ScanSlot(start, FirstTaken(table, start, 0))
    ensures At(c, t, table[j := 0], (start + 1) % TABLE_CAP, ready - 1, pc) && Goes(c, s, acts, t, 1)
  {
    assert s.suppliers[1] == Idle;
    acts := Deliver(c, s, 1);
    t := Delivered(s, 1);
    if t.table[0] != 0 {
      ClearsOnly(c, s, acts, 0);
    }
  }

  // ---------- A search that never ends ----------

  lemma LookAt(c: Config, s: State, table: seq<nat>, start: nat, i: nat) returns (acts: seq<Action>, t: State)
    requires At(c, s, table, start, 0, Looking(i)) && table[ScanSlot(start, i)] == 0
    ensures At(c, t, table, start, 0, Looking(i + 1)) && Leads(c, s, acts, t)
  {
    var a := Supplier(0);
    LeadsStep(c, s, [], s, a);
    acts, t := [] + [a], Next(c, s, a);
  }

  /** A pizza is served and another one, or the same, is delivered. */
  lemma Exchange(c: Config, s: State, table: seq<nat>, start: nat, i: nat) returns (acts: seq<Action>, t: State)
    requires At(c, s, table, start, 0, Looking(i)) && table in {[1, 0, 0, 0, 0], [0, 1, 0, 0, 0]}
    ensures At(c, t, if start == 1 then [1, 0, 0, 0, 0] else [0, 1, 0, 0, 0], (start + 1) % TABLE_CAP, 0, Looking(i))
    ensures Leads(c, s, acts, t)
  {
    var both := [1, 1, 0, 0, 0];
    FillsGap(table);
    var xs, s1 := ServeAt(c, s, table, start, 0, Looking(i));
    var j := if start == 1 then 1 else 0;
    FirstOfTwo(both, start);
    var ys;
    ys, t := DeliverAt(c, s1, both, start, 1, Looking(i), j);
    assert both[1 := 0] == [1, 0, 0, 0, 0] && both[0 := 0] == [0, 1, 0, 0, 0];
    LeadsOn(c, s, xs, s1, ys, t);
    acts := xs + ys;
  }

  lemma FillsGap(table: seq<nat>)
    requires table == [1, 0, 0, 0, 0] || table == [0, 1, 0, 0, 0]
    ensures FirstFree(table) < TABLE_CAP && table[FirstFree(table) := 1] == [1, 1, 0, 0, 0]
  {
    var k := FirstFree(table);
    if table[0] == 0 {
      assert k == 0;
    } else {
      assert table[1] == 0;
      assert k == 1;
    }
  }

  lemma FirstOfTwo(table: seq<nat>, start: nat)
    requires table == [1, 1, 0, 0, 0] && start < TABLE_CAP
    ensures FirstTaken(table, start, 0) < TABLE_CAP
    ensures ScanSlot(start, FirstTaken(table, start, 0)) == if start == 1 then 1 else 0
  {
    var d := FirstTaken(table, start, 0);
    assert table[ScanSlot(start, Distance(start, 0))] != 0;
    assert table[ScanSlot(start, Distance(start, 1))] != 0;
  }

  lemma {:induction false} LookOn(c: Config, s: State, i: nat, n: nat) returns (acts: seq<Action>, t: State)
    requires At(c, s, [0, 1, 0, 0, 0], 1, 0, Looking(i)) && i % TABLE_CAP == 1 && n <= 4
    ensures At(c, t, [0, 1, 0, 0, 0], 1, 0, Looking(i + n)) && Leads(c, s, acts, t)
  {
    if n == 0 {
      return [], s;
    }
    var xs, s1 := LookOn(c, s, i, n - 1);
    var ys;
    ys, t := LookAt(c, s1, [0, 1, 0, 0, 0], 1, i + n - 1);
    LeadsOn(c, s, xs, s1, ys, t);
    acts := xs + ys;
  }

  /** Three more exchanges take the queue start from 3 to 1, always with one pizza in slot 1. */
  lemma {:induction false} ExchangeOn(c: Config, s: State, i: nat, start: nat) returns (acts: seq<Action>, t: State)
    requires At(c, s, [0, 1, 0, 0, 0], start, 0, Looking(i)) && start in {3, 4, 0, 1}
    ensures At(c, t, [0, 1, 0, 0, 0], 1, 0, Looking(i)) && Leads(c, s, acts, t)
    decreases (1 + TABLE_CAP - start) % TABLE_CAP
  {
    if start == 1 {
      return [], s;
    }
    var xs, s1 := Exchange(c, s, [0, 1, 0, 0, 0], start, i);
    var ys;
    ys, t := ExchangeOn(c, s1, i, (start + 1) % TABLE_CAP);
    LeadsOn(c, s, xs, s1, ys, t);
    acts := xs + ys;
  }

  lemma LookAndExchange(c: Config, s: State, i: nat) returns (acts: seq<Action>, t: State)
    requires At(c, s, [1, 0, 0, 0, 0], 2, 0, Looking(i)) && i % TABLE_CAP == 0
    ensures At(c, t, [0, 1, 0, 0, 0], 1, 0, Looking(i + 1)) && Leads(c, s, acts, t)
  {
    var xs, s1 := LookAt(c, s, [1, 0, 0, 0, 0], 2, i);
    var ys, s2 := Exchange(c, s1, [1, 0, 0, 0, 0], 2, i + 1);
    LeadsOn(c, s, xs, s1, ys, s2);
    var zs;
    zs, t := ExchangeOn(c, s2, i + 1, 3);
    LeadsOn(c, s, xs + ys, s2, zs, t);
    acts := xs + ys + zs;
  }

  /** In a round of five looks and five exchanges, supplier 0 always looks where the pizza is not. */
  lemma SearchRound(c: Config, s: State, i: nat) returns (acts: seq<Action>, t: State)
    requires At(c, s, [1, 0, 0, 0, 0], 2, 0, Looking(i)) && i % TABLE_CAP == 0
    ensures At(c, t, [1, 0, 0, 0, 0], 2, 0, Looking(i + 5)) && Leads(c, s, acts, t)
  {
    var xs, s1 := LookAndExchange(c, s, i);
    var ys, s2 := LookOn(c, s1, i + 1, 4);
    LeadsOn(c, s, xs, s1, ys, s2);
    var zs;
    zs, t := Exchange(c, s2, [0, 1, 0, 0, 0], 1, i + 5);
    LeadsOn(c, s, xs + ys, s2, zs, t);
    acts := xs + ys + zs;
  }

  /** For every n there is a run in which a supplier has looked at n slots in vain, though there was a pizza on
      the table all the time. */
  lemma {:induction false} SearchesLong(c: Config, n: nat) returns (acts: seq<Action>, s: State)
    requires !Orderly(c)
    ensures At(c, s, [1, 0, 0, 0, 0], 2, 0, Looking(5 * n)) && Leads(c, Init(c), acts, s)
  {
    if n == 0 {
      acts, s := StartSearch(c);
      return;
    }
    var xs, s1 := SearchesLong(c, n - 1);
    var ys;
    ys, s := SearchRound(c, s1, 5 * (n - 1));
    LeadsOn(c, Init(c), xs, s1, ys, s);
    acts := xs + ys;
  }

  lemma StartSearch(c: Config) returns (acts: seq<Action>, s: State)
    requires !Orderly(c)
    ensures At(c, s, [1, 0, 0, 0, 0], 2, 0, Looking(0)) && Leads(c, Init(c), acts, s)
  {
    var a := Supplier(0);
    var xs, s1 := ServeAgain(c);
    LeadsStep(c, Init(c), xs, s1, a);
    var s2 := Next(c, s1, a);
    var ys;
    ys, s := Exchange(c, s2, [1, 0, 0, 0, 0], 1, 0);
    LeadsOn(c, Init(c), xs + [a], s2, ys, s);
    acts := xs + [a] + ys;
  }

  // ---------- When does every scan end? ----------

  /** In every run every supplier's scan ends within `b` looks. */
  ghost predicate ScansEndWithin(c: Config, b: nat) {
    forall acts, k :: Legal(c, Init(c), acts) && 0 <= k < c.suppliers && Run(c, Init(c), acts).suppliers[k].Looking? ==>
                        Run(c, Init(c), acts).suppliers[k].i < b
  }

  /** A scan under way has a pizza in front of it. */
  ghost predicate ScansFind(s: State)
    requires |s.table| == TABLE_CAP
  {
    forall k :: 0 <= k < |s.suppliers| && s.suppliers[k].Looking? ==>
                  s.suppliers[k].i <= TABLE_CAP && FirstTaken(s.table, s.tableQueueStart, s.suppliers[k].i) < TABLE_CAP
  }

  lemma CookKeepsScans(c: Config, s: State, i: nat, n: nat)
    requires OrderlyInv(c, s) && ScansFind(s) && CanStep(c, s, Cook(i, n))
    ensures ScansFind(CookStep(s, i, n))
  {
    CookAtTable(s, i, n);
    var t := CookStep(s, i, n);
    forall k | 0 <= k < |t.suppliers| && t.suppliers[k].Looking?
      ensures FirstTaken(t.table, t.tableQueueStart, t.suppliers[k].i) < TABLE_CAP
    {
      var e := FirstTaken(s.table, s.tableQueueStart, s.suppliers[k].i);
      assert t.table[ScanSlot(t.tableQueueStart, e)] != 0;
    }
  }

  /** The supplier that steps is the only one in the middle of a delivery. */
  lemma OthersAreIdle(c: Config, s: State, k: nat)
    requires OrderlyInv(c, s) && CanStep(c, s, Supplier(k)) && Orderly(c)
    ensures forall m :: 0 <= m < |s.suppliers| && m != k ==> s.suppliers[m].Idle?
  {
    CountBounds(s.suppliers, HasClaimed);
    if s.suppliers[k].Idle? {
      OthersIdle(c, s, k);
    } else {
      OnlyOne(s.suppliers, k, HasClaimed);
    }
  }

  /** After its semaphore operation a supplier has a whole round, with a pizza in it, in front of it. */
  lemma ClaimFinds(c: Config, s: State, k: nat)
    requires Inv(c, s) && CanStep(c, s, Supplier(k)) && s.suppliers[k].Idle?
    ensures FirstTaken(s.table, s.tableQueueStart, 0) < TABLE_CAP
  {
    var t := SupplierStep(s, k);
    Keeps(c, s, Supplier(k));
    assert !t.suppliers[k].Idle?;
    CountBounds(t.suppliers, HasClaimed);
    SupplierScanStops(c, t);
  }

  lemma SupplierKeepsScans(c: Config, s: State, k: nat)
    requires OrderlyInv(c, s) && ScansFind(s) && CanStep(c, s, Supplier(k)) && Orderly(c)
    ensures ScansFind(SupplierStep(s, k))
  {
    OthersAreIdle(c, s, k);
    if s.suppliers[k].Idle? {
      ClaimFinds(c, s, k);
    }
    StepFinds(s, k);
  }

  lemma StepFinds(s: State, k: nat)
    requires k < |s.suppliers| && |s.table| == TABLE_CAP && SlotInRange(s.suppliers[k]) && ScansFind(s)
    requires forall m :: 0 <= m < |s.suppliers| && m != k ==> s.suppliers[m].Idle?
    requires s.suppliers[k].Idle? ==> FirstTaken(s.table, s.tableQueueStart, 0) < TABLE_CAP
    ensures ScansFind(SupplierStep(s, k))
  {
    var t := SupplierStep(s, k);
    assert t.suppliers == s.suppliers[k := t.suppliers[k]];
  }

  lemma {:induction false} RunKeepsScans(c: Config, s: State, acts: seq<Action>)
    requires OrderlyInv(c, s) && ScansFind(s) && Legal(c, s, acts) && Orderly(c)
    ensures WellFormed(c, Run(c, s, acts)) && ScansFind(Run(c, s, acts))
    decreases |acts|
  {
    if acts != [] {
      KeepsOrder(c, s, acts[0]);
      match acts[0] {
        case Cook(i, n) => CookKeepsScans(c, s, i, n);
        case Supplier(k) => SupplierKeepsScans(c, s, k);
      }
      RunKeepsScans(c, Next(c, s, acts[0]), acts[1..]);
    }
  }

  /** Every scan ends within one round, and indeed within any bound whatever, exactly when deliveries cannot
      disturb each other. */
  lemma ScansEndIff(c: Config, b: nat)
    requires b >= TABLE_CAP
    ensures ScansEndWithin(c, b) <==> Orderly(c)
  {
    if Orderly(c) {
      InitInv(c);
      forall acts, k | Legal(c, Init(c), acts) && 0 <= k < c.suppliers && Run(c, Init(c), acts).suppliers[k].Looking?
        ensures Run(c, Init(c), acts).suppliers[k].i < b
      {
        RunKeepsScans(c, Init(c), acts);
      }
    } else {
      var acts, s := SearchesLong(c, b);
      assert s.suppliers[0] == Looking(5 * b);
    }
  }

  // ---------- A pizza that is never found ----------

  /** Supplier 0 keeps slot 1 in view while supplier 1 delivers everything from slot 1 on, and so it moves the
      queue start past slot 0 at the right moment. */
  lemma OvertakeRound(c: Config, s: State) returns (acts: seq<Action>, t: State)
    requires At(c, s, [1, 0, 0, 0, 0], 1, 1, Idle)
    ensures At(c, t, [1, 0, 0, 0, 0], 1, 1, Idle) && Goes(c, s, acts, t, 5)
  {
    var s1, s2, s3, xs;
    assert FirstSlots(1) == [1, 0, 0, 0, 0];
    acts, s1 := FillUp(c, s, 1);
    xs, s2 := KeepInView(c, s1);
    GoesOn(c, s, acts, s1, xs, s2, 0, 0);
    acts := acts + xs;
    xs, s3 := DeliverRest(c, s2);
    GoesOn(c, s, acts, s2, xs, s3, 0, 4);
    acts := acts + xs;
    xs, t := TakeLate(c, s3);
    GoesOn(c, s, acts, s3, xs, t, 4, 1);
    acts := acts + xs;
  }

  /** The table with the first `n` slots occupied. */
  function FirstSlots(n: nat): seq<nat> { seq(TABLE_CAP, i => if i < n then 1 else 0) }

  lemma {:induction false} FillUp(c: Config, s: State, n: nat) returns (acts: seq<Action>, t: State)
    requires 1 <= n <= TABLE_CAP && At(c, s, FirstSlots(n), 1, n, Idle)
    ensures At(c, t, FirstSlots(TABLE_CAP), 1, TABLE_CAP, Idle) && Goes(c, s, acts, t, 0)
    decreases TABLE_CAP - n
  {
    if n == TABLE_CAP {
      return [], s;
    }
    assert FirstFree(FirstSlots(n)) == n by {
      assert FirstSlots(n)[n] == 0;
    }
    assert FirstSlots(n)[n := 1] == FirstSlots(n + 1);
    var xs, s1 := ServeAt(c, s, FirstSlots(n), 1, n, Idle);
    var ys;
    ys, t := FillUp(c, s1, n + 1);
    GoesOn(c, s, xs, s1, ys, t, 0, 0);
    acts := xs + ys;
  }

  lemma KeepInView(c: Config, s: State) returns (acts: seq<Action>, t: State)
    requires At(c, s, FirstSlots(TABLE_CAP), 1, TABLE_CAP, Idle)
    ensures At(c, t, FirstSlots(TABLE_CAP), 1, TABLE_CAP - 1, Found(1)) && Goes(c, s, acts, t, 0)
  {
    var a := Supplier(0);
    var s1 := Next(c, s, a);
    LeadsStep(c, s, [], s, a);
    LeadsStep(c, s, [] + [a], s1, a);
    acts, t := [] + [a] + [a], Next(c, s1, a);
    ClearsOnly(c, s, acts, 0);
  }

  /** The table with slots 0 and 1 occupied, and those from slot `start` on. */
  function SlotsFrom(start: nat): seq<nat> { seq(TABLE_CAP, i => if i <= 1 || i >= start then 1 else 0) }

  lemma DeliverRest(c: Config, s: State) returns (acts: seq<Action>, t: State)
    requires At(c, s, FirstSlots(TABLE_CAP), 1, 4, Found(1))
    ensures At(c, t, [1, 1, 0, 0, 0], 0, 1, Found(1)) && Goes(c, s, acts, t, 4)
  {
    var xs, s1 := DeliverAndServe(c, s);
    assert SlotsFrom(TABLE_CAP) == [1, 1, 0, 0, 0];
    var ys;
    ys, t := DeliverFrom(c, s1, 2);
    GoesOn(c, s, xs, s1, ys, t, 1, 3);
    acts := xs + ys;
  }

  lemma DeliverAndServe(c: Config, s: State) returns (acts: seq<Action>, t: State)
    requires At(c, s, FirstSlots(TABLE_CAP), 1, 4, Found(1))
    ensures At(c, t, SlotsFrom(2), 2, 4, Found(1)) && Goes(c, s, acts, t, 1)
  {
    var full := FirstSlots(TABLE_CAP);
    var gap := full[1 := 0];
    var xs, s1 := DeliverAt(c, s, full, 1, 4, Found(1), 1);
    assert FirstFree(gap) == 1 && gap[1 := 1] == SlotsFrom(2);
    var ys;
    ys, t := ServeAt(c, s1, gap, 2, 3, Found(1));
    GoesOn(c, s, xs, s1, ys, t, 1, 0);
    acts := xs + ys;
  }

  lemma {:induction false} DeliverFrom(c: Config, s: State, start: nat) returns (acts: seq<Action>, t: State)
    requires 2 <= start <= TABLE_CAP && At(c, s, SlotsFrom(start), start % TABLE_CAP, 6 - start, Found(1))
    ensures At(c, t, SlotsFrom(TABLE_CAP), 0, 1, Found(1)) && Goes(c, s, acts, t, TABLE_CAP - start)
    decreases TABLE_CAP - start
  {
    if start == TABLE_CAP {
      return [], s;
    }
    assert SlotsFrom(start)[start := 0] == SlotsFrom(start + 1);
    var xs, s1 := DeliverAt(c, s, SlotsFrom(start), start, 6 - start, Found(1), start);
    var ys;
    ys, t := DeliverFrom(c, s1, start + 1);
    GoesOn(c, s, xs, s1, ys, t, 1, TABLE_CAP - start - 1);
    acts := xs + ys;
  }

  lemma TakeLate(c: Config, s: State) returns (acts: seq<Action>, t: State)
    requires At(c, s, [1, 1, 0, 0, 0], 0, 1, Found(1))
    ensures At(c, t, [1, 0, 0, 0, 0], 1, 1, Idle) && Goes(c, s, acts, t, 1)
  {
    var a := Supplier(0);
    var s1 := Next(c, s, a);
    LeadsStep(c, s, [], s, a);
    var s2 := Next(c, s1, a);
    LeadsStep(c, s, [] + [a], s1, a);
    LeadsStep(c, s, [] + [a] + [a], s2, a);
    acts, t := [] + [a] + [a] + [a], Next(c, s2, a);
    assert t.suppliers == Init(c).suppliers[0 := Idle];
    assert t.table == [1, 0, 0, 0, 0];
    ClearsOnly(c, s, acts, 0);
  }

  lemma {:induction false} OvertakeLong(c: Config, s: State, n: nat) returns (acts: seq<Action>, t: State)
    requires At(c, s, [1, 0, 0, 0, 0], 1, 1, Idle)
    ensures At(c, t, [1, 0, 0, 0, 0], 1, 1, Idle) && Goes(c, s, acts, t, 5 * n)
  {
    if n == 0 {
      return [], s;
    }
    var xs, s1 := OvertakeLong(c, s, n - 1);
    var ys;
    ys, t := OvertakeRound(c, s1);
    GoesOn(c, s, xs, s1, ys, t, 5 * (n - 1), 5);
    acts := xs + ys;
  }

  /** A cook is about to put a pizza into slot 0, with the queue start behind it. */
  lemma BeforePlacing(c: Config) returns (acts: seq<Action>, s: State)
    requires !Orderly(c)
    ensures Leads(c, Init(c), acts, s) && CanPlace(c, s, 0) && Calm(c, s)
    ensures s.cooks == Init(c).cooks[0 := Carrying(0)] && s.suppliers == Init(c).suppliers
    ensures s.table == FreeSlots(TABLE_CAP) && s.tableQueueStart == 1 && s.tableReady == 0 && s.tableOn == TABLE_CAP
  {
    var xs, s1 := ServeOnce(c);
    var ys := MakePizza(c, s1, 0, 0);
    s := Ready(s1, 0, 0);
    LeadsOn(c, Init(c), xs, s1, ys, s);
    acts := xs + ys;
  }

  /** The cook finishes what it does at the table. */
  lemma FinishPlacing(c: Config, s: State) returns (acts: seq<Action>, t: State)
    requires !Orderly(c) && CanPlace(c, s, 0) && Calm(c, s)
    requires s.cooks == Init(c).cooks[0 := Carrying(0)] && s.suppliers == Init(c).suppliers
    requires s.table == FreeSlots(TABLE_CAP) && s.tableQueueStart == 1 && s.tableReady == 0 && s.tableOn == TABLE_CAP
    ensures At(c, t, [1, 0, 0, 0, 0], 1, 1, Idle) && Goes(c, Next(c, s, Cook(0, 0)), acts, t, 0)
  {
    var a := Cook(0, 0);
    var s1 := Next(c, s, a);
    assert s1.table == [1, 0, 0, 0, 0];
    var s2 := Next(c, s1, a);
    LeadsStep(c, s1, [], s1, a);
    var xs := StoreAndAnnounce(c, s2, 0);
    t := Announced(s2, 0);
    assert t.cooks == Init(c).cooks;
    LeadsOn(c, s1, [] + [a], s2, xs, t);
    acts := [] + [a] + xs;
    FillsOnly(c, s1, acts, 0);
  }

  /** For every n there is a run in which a pizza outstays n deliveries. */
  lemma NeverTaken(c: Config, n: nat) returns (acts: seq<Action>, s: State)
    requires !Orderly(c)
    ensures Leads(c, Init(c), acts, s) && CanPlace(c, s, 0) && !Outstays(c, s, 0, n)
  {
    acts, s := BeforePlacing(c);
    var t := Next(c, s, Cook(0, 0));
    var xs, s1 := FinishPlacing(c, s);
    var ys, s2 := OvertakeLong(c, s1, n + 1);
    GoesOn(c, t, xs, s1, ys, s2, 0, 5 * (n + 1));
    DeliveriesCount(c, t, xs + ys);
    assert Deliveries(c, t, xs + ys) > n && !Emptied(c, t, xs + ys, 0);
  }

  // ---------- When is there any bound on overtaking? ----------

  /** In every run every pizza put on the table outstays at most `b` deliveries. */
  ghost predicate OvertakenAtMost(c: Config, b: nat) {
    forall acts, i :: Legal(c, Init(c), acts) && CanPlace(c, Run(c, Init(c), acts), i) ==>
                        Outstays(c, Run(c, Init(c), acts), i, b)
  }

  lemma OneAfterPlacing(c: Config, s: State, i: nat)
    requires OrderlyInv(c, s) && Orderly(c) && CanPlace(c, s, i)
    ensures OneAtATime(c, Next(c, s, Cook(i, 0)))
  {
    CookAtTable(s, i, 0);
    var t := Next(c, s, Cook(i, 0));
    if k :| 0 <= k < |s.suppliers| && HasClaimed(s.suppliers[k]) {
      OnlyOne(s.suppliers, k, HasClaimed);
      assert Alone(t, k);
    } else {
      assert Alone(t, 0);
    }
  }

  /** A table's capacity of deliveries, or any larger bound whatever, is enough for every pizza in every run,
      exactly when deliveries cannot disturb each other. */
  lemma OvertakenAtMostIff(c: Config, b: nat)
    requires b >= TABLE_CAP
    ensures OvertakenAtMost(c, b) <==> Orderly(c)
  {
    if Orderly(c) {
      InitInv(c);
      forall acts, i | Legal(c, Init(c), acts) && CanPlace(c, Run(c, Init(c), acts), i)
        ensures Outstays(c, Run(c, Init(c), acts), i, b)
      {
        RunKeepsOrder(c, Init(c), acts);
        TakenSoon(c, Run(c, Init(c), acts), i, b);
      }
    } else {
      var acts, s := NeverTaken(c, b);
    }
  }

  lemma TakenSoon(c: Config, s: State, i: nat, b: nat)
    requires OrderlyInv(c, s) && Orderly(c) && CanPlace(c, s, i) && b >= TABLE_CAP
    ensures Outstays(c, s, i, b)
  {
    OneAfterPlacing(c, s, i);
    var t := Next(c, s, Cook(i, 0));
    forall acts | Legal(c, t, acts) && Deliveries(c, t, acts) > b
      ensures Emptied(c, t, acts, FirstFree(s.table))
    {
      OneDeliveryLate(c, t, acts, FirstFree(s.table));
    }
  }
}
