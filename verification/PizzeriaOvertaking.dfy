/** The table of the pizzeria is not a FIFO queue. How long can a pizza be overtaken by others? */
module PizzeriaOvertaking {
  import opened PizzeriaModel
  import opened PizzeriaSafety
  import opened PizzeriaRuns

  /** How far slot `j` lies behind the queue start. */
  function Distance(start: nat, j: nat): (d: nat)
    requires start < TABLE_CAP && j < TABLE_CAP
    ensures d < TABLE_CAP && (d == 0 ==> start == j)
  {
    if start <= j then j - start else j + TABLE_CAP - start
  }

  /** The scan looks at the slots in the order of their distances. */
  lemma ScanOrder(start: nat, d: nat)
    requires start < TABLE_CAP && d < TABLE_CAP
    ensures Distance(start, ScanSlot(start, d)) == d
  {
  }

  /** Moving the start on by one brings every other slot one nearer. */
  lemma StartMoves(start: nat, j: nat)
    requires start < TABLE_CAP && j < TABLE_CAP && j != start
    ensures Distance((start + 1) % TABLE_CAP, j) == Distance(start, j) - 1
  {
  }

  predicate IsDelivery(s: State, a: Action) {
    a.Supplier? && a.k < |s.suppliers| && s.suppliers[a.k].Dropping?
  }

  /** The number of pizzas taken from the table during `acts`. */
  ghost function Deliveries(c: Config, s: State, acts: seq<Action>): nat
    requires WellFormed(c, s) && Legal(c, s, acts)
    decreases |acts|
  {
    if acts == [] then 0
    else (if IsDelivery(s, acts[0]) then 1 else 0) + Deliveries(c, Next(c, s, acts[0]), acts[1..])
  }

  /** At some point of the run slot `j` is free. */
  ghost predicate Emptied(c: Config, s: State, acts: seq<Action>, j: nat)
    requires WellFormed(c, s) && Legal(c, s, acts) && j < TABLE_CAP
    decreases |acts|
  {
    s.table[j] == 0 || (acts != [] && Emptied(c, Next(c, s, acts[0]), acts[1..], j))
  }

  ghost predicate AllIdle(s: State) {
    forall k :: 0 <= k < |s.suppliers| ==> s.suppliers[k].Idle?
  }

  /** At most supplier `k` is in the middle of a delivery. */
  ghost predicate Alone(s: State, k: nat) {
    forall m :: 0 <= m < |s.suppliers| && m != k ==> s.suppliers[m].Idle?
  }

  /** The delivery under way, if there is one, has not passed slot `j`, and after `owed` more deliveries at most
      comes the one that takes the pizza in that slot. */
  ghost predicate OnTime(s: State, j: nat, owed: nat)
    requires j < TABLE_CAP && s.tableQueueStart < TABLE_CAP
  {
    var d := Distance(s.tableQueueStart, j);
    && (AllIdle(s) ==> d <= owed)
    && (forall k :: 0 <= k < |s.suppliers| && s.suppliers[k].Looking? ==> s.suppliers[k].i <= d <= owed)
    && (forall k :: 0 <= k < |s.suppliers| && s.suppliers[k].Found? ==>
          s.suppliers[k].index < TABLE_CAP && Distance(s.tableQueueStart, s.suppliers[k].index) <= d <= owed)
    && (forall k :: 0 <= k < |s.suppliers| && (s.suppliers[k].Holding? || s.suppliers[k].Dropping?) ==>
          s.suppliers[k].index == j || d < owed)
  }

  /** A step of the only delivery under way. */
  lemma DeliveryStep(c: Config, s: State, k: nat, j: nat, owed: nat)
    requires WellFormed(c, s) && CanStep(c, s, Supplier(k)) && Alone(s, k)
    requires j < TABLE_CAP && s.table[j] != 0 && SupplierStep(s, k).table[j] != 0 && OnTime(s, j, owed)
    ensures IsDelivery(s, Supplier(k)) ==> owed > 0
    ensures OnTime(SupplierStep(s, k), j, if IsDelivery(s, Supplier(k)) then owed - 1 else owed)
    ensures Alone(SupplierStep(s, k), k)
  {
    var t := SupplierStep(s, k);
    assert t.suppliers == s.suppliers[k := t.suppliers[k]];
    assert !s.suppliers[k].Idle? ==> !AllIdle(s);
    match s.suppliers[k]
    case Idle =>
      assert AllIdle(s);
    case Looking(i) =>
      LookStep(s, i, j);
    case Found(x) =>
      if x != j {
        assert Distance(s.tableQueueStart, x) != Distance(s.tableQueueStart, j);
        StartMoves(s.tableQueueStart, j);
      }
    case Holding(_, _) =>
    case Dropping(_, _, _) =>
      assert AllIdle(t);
  }

  /** The scan does not pass an occupied slot. */
  lemma LookStep(s: State, i: nat, j: nat)
    requires |s.table| == TABLE_CAP && s.tableQueueStart < TABLE_CAP && j < TABLE_CAP && s.table[j] != 0
    requires i <= Distance(s.tableQueueStart, j)
    ensures var x := ScanSlot(s.tableQueueStart, i);
            if s.table[x] != 0 then Distance(s.tableQueueStart, x) <= Distance(s.tableQueueStart, j)
            else i + 1 <= Distance(s.tableQueueStart, j)
  {
    ScanOrder(s.tableQueueStart, i);
    if i == Distance(s.tableQueueStart, j) {
      assert ScanSlot(s.tableQueueStart, i) == j;
    }
  }

  /** At most one supplier is in the middle of a delivery, and that stays so. */
  ghost predicate OneAtATime(c: Config, s: State) {
    (c.atomicDelivery || c.suppliers <= 1) && exists k :: Alone(s, k)
  }

  /** In every interleaving with one delivery at a time, a pizza in slot `j` is gone from it after as many
      further deliveries as it is owed, plus one. */
  lemma {:induction false} TakenInTime(c: Config, s: State, acts: seq<Action>, j: nat, owed: nat)
    requires WellFormed(c, s) && Legal(c, s, acts) && OneAtATime(c, s)
    requires j < TABLE_CAP && OnTime(s, j, owed) && Deliveries(c, s, acts) > owed
    ensures Emptied(c, s, acts, j)
    decreases |acts|
  {
    if s.table[j] != 0 {
      var t := Next(c, s, acts[0]);
      if t.table[j] != 0 {
        var owed' := StillOnTime(c, s, acts[0], j, owed);
        TakenInTime(c, t, acts[1..], j, owed');
      }
    }
  }

  lemma StillOnTime(c: Config, s: State, a: Action, j: nat, owed: nat) returns (owed': nat)
    requires WellFormed(c, s) && CanStep(c, s, a) && OneAtATime(c, s)
    requires j < TABLE_CAP && s.table[j] != 0 && Next(c, s, a).table[j] != 0 && OnTime(s, j, owed)
    ensures owed' == owed - (if IsDelivery(s, a) then 1 else 0)
    ensures OneAtATime(c, Next(c, s, a)) && OnTime(Next(c, s, a), j, owed')
  {
    match a
    case Cook(i, n) =>
      CookAtTable(s, i, n);
      var k :| Alone(s, k);
      assert Alone(Next(c, s, a), k);
      owed' := owed;
    case Supplier(k) =>
      StepsAlone(c, s, k);
      DeliveryStep(c, s, k, j, owed);
      owed' := if IsDelivery(s, a) then owed - 1 else owed;
  }

  /** The supplier that steps is the only one in the middle of a delivery. */
  lemma StepsAlone(c: Config, s: State, k: nat)
    requires WellFormed(c, s) && CanStep(c, s, Supplier(k)) && OneAtATime(c, s)
    ensures Alone(s, k)
  {
  }

  /** From a state without a delivery under way, a pizza in slot `j` is gone after as many deliveries as the slot
      lies behind the queue start, plus one; never later than after TABLE_CAP deliveries. */
  lemma BoundedOvertaking(c: Config, s: State, acts: seq<Action>, j: nat)
    requires WellFormed(c, s) && Legal(c, s, acts) && AllIdle(s) && j < TABLE_CAP
    requires c.atomicDelivery || c.suppliers <= 1
    requires Deliveries(c, s, acts) > Distance(s.tableQueueStart, j)
    ensures Emptied(c, s, acts, j)
  {
    assert Alone(s, 0);
    TakenInTime(c, s, acts, j, Distance(s.tableQueueStart, j));
  }

  /** From any state of a single supplier it takes one delivery more at most. */
  lemma {:induction false} OneDeliveryLate(c: Config, s: State, acts: seq<Action>, j: nat)
    requires WellFormed(c, s) && Legal(c, s, acts) && OneAtATime(c, s) && j < TABLE_CAP
    requires Deliveries(c, s, acts) > TABLE_CAP
    ensures Emptied(c, s, acts, j)
    decreases |acts|
  {
    if s.table[j] != 0 {
      var t := Next(c, s, acts[0]);
      match acts[0]
      case Cook(i, n) =>
        CookAtTable(s, i, n);
        var k :| Alone(s, k);
        assert Alone(t, k);
        OneDeliveryLate(c, t, acts[1..], j);
      case Supplier(k) =>
        StepsAlone(c, s, k);
        assert Alone(t, k);
        if IsDelivery(s, acts[0]) {
          assert AllIdle(t);
          BoundedOvertaking(c, t, acts[1..], j);
        } else {
          OneDeliveryLate(c, t, acts[1..], j);
        }
    }
  }

  // ---------- Runs in which a slot stays occupied ----------

  /** What is delivered counts the deliveries. */
  lemma {:induction false} DeliveriesCount(c: Config, s: State, acts: seq<Action>)
    requires WellFormed(c, s) && Legal(c, s, acts)
    ensures Deliveries(c, s, acts) == |Run(c, s, acts).delivered| - |s.delivered|
    decreases |acts|
  {
    if acts != [] {
      DeliveriesCount(c, Next(c, s, acts[0]), acts[1..]);
    }
  }

  /** Cooks empty no slot. */
  lemma {:induction false} FillsOnly(c: Config, s: State, acts: seq<Action>, j: nat)
    requires WellFormed(c, s) && Legal(c, s, acts) && CooksOnly(acts) && j < TABLE_CAP && s.table[j] != 0
    ensures !Emptied(c, s, acts, j)
    decreases |acts|
  {
    if acts != [] {
      CookAtTable(s, acts[0].i, acts[0].n);
      FillsOnly(c, Next(c, s, acts[0]), acts[1..], j);
    }
  }

  /** Suppliers fill no slot: one that is occupied in the end has been so all the time. */
  lemma {:induction false} ClearsOnly(c: Config, s: State, acts: seq<Action>, j: nat)
    requires WellFormed(c, s) && Legal(c, s, acts) && SuppliersOnly(acts)
    requires j < TABLE_CAP && Run(c, s, acts).table[j] != 0
    ensures !Emptied(c, s, acts, j) && s.table[j] != 0
    decreases |acts|
  {
    if acts != [] {
      assert acts[0] in acts;
      ClearsOnly(c, Next(c, s, acts[0]), acts[1..], j);
      assert s.table[j] != 0;
    }
  }

  lemma {:induction false} EmptiedOn(c: Config, s: State, xs: seq<Action>, t: State, ys: seq<Action>, j: nat)
    requires WellFormed(c, s) && WellFormed(c, t) && Leads(c, s, xs, t) && Legal(c, t, ys) && j < TABLE_CAP
    requires !Emptied(c, s, xs, j) && !Emptied(c, t, ys, j)
    ensures Legal(c, s, xs + ys) && !Emptied(c, s, xs + ys, j)
    decreases |xs|
  {
    if xs == [] {
      assert xs + ys == ys;
    } else {
      assert (xs + ys)[0] == xs[0] && (xs + ys)[1..] == xs[1..] + ys;
      var s1 := Next(c, s, xs[0]);
      EmptiedOn(c, s1, xs[1..], t, ys, j);
      assert Legal(c, s1, (xs + ys)[1..]) && !Emptied(c, s1, (xs + ys)[1..], j);
    }
  }

  // ---------- When is overtaking bounded? ----------

  /** Cook `i` can now put its pizza on the table. */
  ghost predicate CanPlace(c: Config, s: State, i: nat) {
    && WellFormed(c, s) && CanStep(c, s, Cook(i, 0))
    && s.cooks[i].Carrying? && FirstFree(s.table) < TABLE_CAP
  }

  /** The pizza that cook `i` puts on the table in state `s` outstays at most `b` deliveries. */
  ghost predicate Outstays(c: Config, s: State, i: nat, b: nat)
    requires CanPlace(c, s, i)
  {
    var t := Next(c, s, Cook(i, 0));
    forall acts :: Legal(c, t, acts) && Deliveries(c, t, acts) > b ==> Emptied(c, t, acts, FirstFree(s.table))
  }

  /** It is taken within its distance from the queue start, plus one, further deliveries. */
  ghost predicate TakenWithinDistance(c: Config, s: State, i: nat)
    requires CanPlace(c, s, i)
  {
    Outstays(c, s, i, Distance(s.tableQueueStart, FirstFree(s.table)))
  }

  /** In every run that is so for every pizza put on the table. */
  ghost predicate OvertakingBounded(c: Config) {
    forall acts, i :: Legal(c, Init(c), acts) && CanPlace(c, Run(c, Init(c), acts), i) ==>
                        TakenWithinDistance(c, Run(c, Init(c), acts), i)
  }

  /** One pizza has been delivered. */
  lemma ServeOnce(c: Config) returns (acts: seq<Action>, s: State)
    requires c.cooks >= 1 && c.suppliers >= 1
    ensures Calm(c, s) && Leads(c, Init(c), acts, s)
    ensures s.table == FreeSlots(TABLE_CAP) && s.tableQueueStart == 1 && s.tableReady == 0 && s.tableOn == TABLE_CAP
    ensures s.cooks == Init(c).cooks && s.suppliers == Init(c).suppliers
  {
    var s0 := Init(c);
    assert Calm(c, s0);
    var xs := Serve(c, s0, 0, 0);
    var s1 := Served(s0, 0);
    assert s1.table == [1, 0, 0, 0, 0];
    assert FirstTaken(s1.table, 0, 0) == 0;
    var ys := Deliver(c, s1, 0);
    s := Delivered(s1, 0);
    assert s.table == FreeSlots(TABLE_CAP);
    LeadsOn(c, s0, xs, s1, ys, s);
    acts := xs + ys;
  }

  /** One pizza has been delivered, and one lies on the table, right behind the queue start. */
  lemma ServeAgain(c: Config) returns (acts: seq<Action>, s: State)
    requires c.cooks >= 1 && c.suppliers >= 1
    ensures Calm(c, s) && Leads(c, Init(c), acts, s)
    ensures s.table == [1, 0, 0, 0, 0] && s.tableQueueStart == 1 && s.tableReady == 1 && s.tableOn == 4
    ensures s.cooks == Init(c).cooks && s.suppliers == Init(c).suppliers
  {
    var xs, s1 := ServeOnce(c);
    var ys := Serve(c, s1, 0, 0);
    s := Served(s1, 0);
    LeadsOn(c, Init(c), xs, s1, ys, s);
    acts := xs + ys;
  }

  /** A delivery that is under way when the pizza is placed moves the queue start past it. */
  lemma PassedOver(c: Config) returns (acts: seq<Action>, s: State)
    requires c.cooks >= 1 && c.suppliers >= 1 && !c.atomicDelivery
    ensures Leads(c, Init(c), acts, s) && CanPlace(c, s, 0)
    ensures s.table == [1, 0, 0, 0, 0] && s.tableQueueStart == 1 && s.suppliers[0] == Found(0)
  {
    var a := Supplier(0);
    var s0 := Init(c);
    var s4;
    acts, s4 := ServeAgain(c);
    LeadsStep(c, s0, acts, s4, a);
    acts := acts + [a];
    var s5 := Next(c, s4, a);
    assert FirstTaken(s5.table, 1, 0) == 4;
    var zs := Scan(c, s5, 0, 0);
    var s6 := s5.(suppliers := s5.suppliers[0 := Found(0)]);
    LeadsOn(c, s0, acts, s5, zs, s6);
    acts := acts + zs;
    var us := MakePizza(c, s6, 0, 0);
    LeadsOn(c, s0, acts, s6, us, Ready(s6, 0, 0));
    acts, s := acts + us, Ready(s6, 0, 0);
  }

  lemma NotTakenInTime(c: Config, s: State)
    requires c.suppliers >= 1 && !c.atomicDelivery && CanPlace(c, s, 0)
    requires s.table == [1, 0, 0, 0, 0] && s.tableQueueStart == 1 && s.suppliers[0] == Found(0)
    ensures !TakenWithinDistance(c, s, 0)
  {
    var a := Supplier(0);
    var t := Next(c, s, Cook(0, 0));
    assert t.table[1] != 0 && FirstFree(s.table) == 1;
    var t1 := Next(c, t, a);
    var t2 := Next(c, t1, a);
    var t3 := Next(c, t2, a);
    LeadsStep(c, t, [], t, a);
    LeadsStep(c, t, [] + [a], t1, a);
    LeadsStep(c, t, [] + [a] + [a], t2, a);
    var acts := [] + [a] + [a] + [a];
    assert t3.table[1] != 0;
    ClearsOnly(c, t, acts, 1);
    DeliveriesCount(c, t, acts);
    assert |t3.delivered| == |t.delivered| + 1;
  }

  /** Overtaking is bounded in this way in every run exactly when deliveries are not interrupted, or nobody
      bakes, or nobody delivers; one supplier alone is not enough. */
  lemma OvertakingBoundedIff(c: Config)
    ensures OvertakingBounded(c) <==> c.atomicDelivery || c.cooks == 0 || c.suppliers == 0
  {
    if c.atomicDelivery || c.cooks == 0 || c.suppliers == 0 {
      forall acts, i | Legal(c, Init(c), acts) && CanPlace(c, Run(c, Init(c), acts), i)
        ensures TakenWithinDistance(c, Run(c, Init(c), acts), i)
      {
        PlacedInTime(c, Run(c, Init(c), acts), i);
      }
    } else {
      var acts, s := PassedOver(c);
      NotTakenInTime(c, s);
    }
  }

  lemma PlacedInTime(c: Config, s: State, i: nat)
    requires CanPlace(c, s, i) && (c.atomicDelivery || c.suppliers == 0)
    ensures TakenWithinDistance(c, s, i)
  {
    var t := Next(c, s, Cook(i, 0));
    var j := FirstFree(s.table);
    CookAtTable(s, i, 0);
    assert AllIdle(t);
    forall acts | Legal(c, t, acts) && Deliveries(c, t, acts) > Distance(t.tableQueueStart, j)
      ensures Emptied(c, t, acts, j)
    {
      BoundedOvertaking(c, t, acts, j);
    }
  }
}
