/** What every step of the pizzeria keeps. */
module PizzeriaSafety {
  import opened PizzeriaModel

  // ---------- Counting ----------

  function Count<T>(s: seq<T>, p: T -> bool): nat {
    if s == [] then 0 else Count(s[..|s| - 1], p) + (if p(s[|s| - 1]) then 1 else 0)
  }

  lemma {:induction false} CountUpdate<T>(s: seq<T>, i: nat, x: T, p: T -> bool)
    requires i < |s|
    ensures Count(s[i := x], p) == Count(s, p) - (if p(s[i]) then 1 else 0) + (if p(x) then 1 else 0)
  {
    var k := |s| - 1;
    if i == k {
      assert s[i := x][..k] == s[..k];
    } else {
      assert s[i := x][..k] == s[..k][i := x];
      CountUpdate(s[..k], i, x, p);
    }
  }

  lemma {:induction false} CountBounds<T>(s: seq<T>, p: T -> bool)
    ensures Count(s, p) <= |s|
    ensures Count(s, p) == |s| <==> forall i :: 0 <= i < |s| ==> p(s[i])
    ensures Count(s, p) == 0 <==> forall i :: 0 <= i < |s| ==> !p(s[i])
  {
    if s != [] {
      CountBounds(s[..|s| - 1], p);
      assert forall i :: 0 <= i < |s| - 1 ==> s[..|s| - 1][i] == s[i];
    }
  }

  lemma {:induction false} CountMonotone<T>(s: seq<T>, p: T -> bool, q: T -> bool)
    requires forall x :: x in s && p(x) ==> q(x)
    ensures Count(s, p) <= Count(s, q)
  {
    if s != [] {
      CountMonotone(s[..|s| - 1], p, q);
    }
  }

  predicate Occupied(x: nat) { x != 0 }

  /** Inside the oven section. */
  predicate InOven(pc: CookPc) { pc.PutIn? || pc.TakenOut? || pc.OvenOverrun? }

  /** Between taking and posting an oven place. */
  predicate HoldsPlace(pc: CookPc) { pc.PutIn? || pc.Baking? || pc.TakenOut? || pc.OvenOverrun? }

  /** Between filling and clearing an oven slot. */
  predicate HoldsSlot(pc: CookPc) { pc.PutIn? || pc.Baking? }

  /** Inside the table section. */
  predicate AtTable(pc: CookPc) { HasPlaced(pc) || pc.TableOverrun? }

  /** Between putting the pizza on the table and announcing it. */
  predicate HasPlaced(pc: CookPc) { pc.Filled? || pc.Storing? || pc.Placed? }

  /** Between the semaphore operation and clearing the slot. */
  predicate HasClaimed(pc: SupplierPc) { !pc.Idle? }

  // ---------- Pizzas ----------

  /** The pizza a cook has in hand or in the oven. */
  function InHand(pc: CookPc): multiset<int> {
    match pc
    case Starting => multiset{}
    case Filled(_) => multiset{}
    case Storing(_, _) => multiset{}
    case Placed(_) => multiset{}
    case _ => multiset{pc.n}
  }

  function InSlot(x: nat): multiset<int> {
    if x == 0 then multiset{} else multiset{x - 1}
  }

  /** The pizzas found by looking at each element of `s` with `f`. */
  function Pizzas<T>(s: seq<T>, f: T -> multiset<int>): multiset<int> {
    if s == [] then multiset{} else Pizzas(s[..|s| - 1], f) + f(s[|s| - 1])
  }

  function Hands(cooks: seq<CookPc>): multiset<int> { Pizzas(cooks, InHand) }

  function OnTable(table: seq<nat>): multiset<int> { Pizzas(table, InSlot) }

  lemma AddBoth(a: multiset<int>, x: multiset<int>, b: multiset<int>, y: multiset<int>, e: multiset<int>)
    requires a + x == b + y
    ensures (a + e) + x == (b + e) + y
  {
    assert (a + e) + x == (a + x) + e;
    assert (b + e) + y == (b + y) + e;
  }

  lemma Cancel(a: multiset<int>, b: multiset<int>, x: multiset<int>)
    requires a + x == b + x
    ensures a == b
  {
    assert (a + x) - x == a && (b + x) - x == b;
  }

  lemma {:induction false} PizzasUpdate<T>(s: seq<T>, i: nat, x: T, f: T -> multiset<int>)
    requires i < |s|
    ensures Pizzas(s[i := x], f) + f(s[i]) == Pizzas(s, f) + f(x)
  {
    var k := |s| - 1;
    if i == k {
      assert s[i := x][..k] == s[..k];
      AddBoth(f(x), f(s[i]), f(s[i]), f(x), Pizzas(s[..k], f));
    } else {
      assert s[i := x][..k] == s[..k][i := x];
      PizzasUpdate(s[..k], i, x, f);
      AddBoth(Pizzas(s[..k][i := x], f), f(s[i]), Pizzas(s[..k], f), f(x), f(s[k]));
    }
  }

  lemma {:induction false} NoPizzas<T>(s: seq<T>, f: T -> multiset<int>)
    requires forall x :: x in s ==> f(x) == multiset{}
    ensures Pizzas(s, f) == multiset{}
  {
    if s != [] {
      NoPizzas(s[..|s| - 1], f);
    }
  }

  // ---------- The invariant ----------

  /** Mutual exclusion and capacity accounting of the semaphores. */
  ghost predicate SemaphoresAgree(s: State) {
    && 0 <= s.ovenPlace && s.ovenPlace + Count(s.cooks, InOven) == 1
    && 0 <= s.ovenIn && s.ovenIn + Count(s.cooks, HoldsPlace) == OVEN_CAP
    && 0 <= s.tablePlace && s.tablePlace + Count(s.cooks, AtTable) == 1
    && 0 <= s.tableOn && 0 <= s.tableReady
    && s.tableOn + s.tableReady + Count(s.cooks, AtTable) == TABLE_CAP
  }

  /** Each remembered oven slot is taken, by one cook only. */
  ghost predicate SlotsAgree(oven: seq<nat>, cooks: seq<CookPc>) {
    && (forall i :: 0 <= i < |cooks| && HoldsSlot(cooks[i]) ==>
          cooks[i].index < |oven| && oven[cooks[i].index] == 1)
    && (forall i, j :: 0 <= i < j < |cooks| && HoldsSlot(cooks[i]) && HoldsSlot(cooks[j]) ==>
          cooks[i].index != cooks[j].index)
  }

  ghost predicate OvenAgrees(s: State) {
    && SlotsAgree(s.oven, s.cooks)
    && s.ovensTaken == Count(s.oven, Occupied) == Count(s.cooks, HoldsSlot)
    && (forall i :: 0 <= i < |s.cooks| ==> !s.cooks[i].OvenOverrun?)
  }

  /** The pizzas on the table by the permits: announced, placed but not yet announced, and claimed but not yet
      taken. */
  function OnTableByPermits(s: State): int {
    s.tableReady + Count(s.cooks, HasPlaced) + Count(s.suppliers, HasClaimed)
  }

  /** The pizzas gone astray: on the table, with no permit to show for it. */
  function Stray(s: State): int {
    Count(s.table, Occupied) - OnTableByPermits(s)
  }

  ghost predicate Inv(c: Config, s: State) {
    && WellFormed(c, s)
    && SemaphoresAgree(s)
    && OvenAgrees(s)
    && Stray(s) >= 0
  }

  /** Every pizza made is in a cook's hands or oven, on the table, or delivered. */
  ghost predicate PizzasConserved(s: State) {
    s.made == Hands(s.cooks) + OnTable(s.table) + s.delivered
  }

  /** What a supplier has seen or read is still there. */
  predicate ClaimAgrees(table: seq<nat>, pc: SupplierPc) {
    match pc
    case Found(j) => j < |table| && table[j] != 0
    case Holding(j, pizza) => j < |table| && table[j] == pizza + 1 != 0
    case Dropping(j, pizza, _) => j < |table| && table[j] == pizza + 1 != 0
    case _ => true
  }

  /** Every pizza is accounted for, and the permits count the occupied slots. */
  ghost predicate Accounted(s: State) {
    && Stray(s) == 0
    && PizzasConserved(s)
  }

  /** At most one supplier is in the middle of a delivery, and nothing happens to the slot it is at. */
  ghost predicate OneDelivery(c: Config, s: State) {
    && Count(s.suppliers, HasClaimed) <= 1
    && (forall k :: 0 <= k < |s.suppliers| ==> ClaimAgrees(s.table, s.suppliers[k]))
    && (c.cooks == 0 ==> s.tableReady == 0 && Count(s.suppliers, HasClaimed) == 0)
  }

  /** There is nobody, or nothing, that could come between the steps of a delivery and touch its slot. */
  predicate Orderly(c: Config) {
    c.atomicDelivery || c.suppliers <= 1 || c.cooks == 0
  }

  /** The invariant of orderly configurations. */
  ghost predicate OrderlyInv(c: Config, s: State) {
    Inv(c, s) && Accounted(s) && OneDelivery(c, s)
  }

  /** No cook's scan has left its array. */
  ghost predicate NoOverrun(s: State) {
    forall i :: 0 <= i < |s.cooks| ==> !s.cooks[i].TableOverrun? && !s.cooks[i].OvenOverrun?
  }

  // ---------- Consequences of the invariant ----------

  /** A permit for the oven means that the scan finds a free slot. */
  lemma OvenScanInBounds(c: Config, s: State)
    requires Inv(c, s) && s.ovenIn >= 1
    ensures FirstFree(s.oven) < OVEN_CAP
  {
    CountMonotone(s.cooks, HoldsSlot, HoldsPlace);
    CountBounds(s.oven, Occupied);
  }

  /** A permit for the table means the same exactly when there are more permits than deliveries under way and
      pizzas gone astray. */
  lemma TableScanInBounds(c: Config, s: State)
    requires Inv(c, s) && s.tablePlace >= 1
    ensures FirstFree(s.table) < TABLE_CAP <==>
            s.tableOn > Count(s.suppliers, HasClaimed) + Stray(s)
  {
    CountMonotone(s.cooks, HasPlaced, AtTable);
    CountBounds(s.table, Occupied);
  }

  /** A supplier that has claimed a pizza finds one within one round of the table. */
  lemma SupplierScanStops(c: Config, s: State)
    requires Inv(c, s) && Count(s.suppliers, HasClaimed) >= 1
    ensures FirstTaken(s.table, s.tableQueueStart, 0) < TABLE_CAP
  {
    CountBounds(s.table, Occupied);
    var i :| 0 <= i < |s.table| && Occupied(s.table[i]);
    var d := (i + TABLE_CAP - s.tableQueueStart) % TABLE_CAP;
    assert ScanSlot(s.tableQueueStart, d) == i;
  }

  // ---------- Preservation ----------

  lemma InitCounts(c: Config)
    ensures Inv(c, Init(c)) && Stray(Init(c)) == 0
    ensures OneDelivery(c, Init(c))
  {
    var s := Init(c);
    CountBounds(s.cooks, InOven);
    CountBounds(s.cooks, HoldsPlace);
    CountBounds(s.cooks, HoldsSlot);
    CountBounds(s.cooks, AtTable);
    CountBounds(s.cooks, HasPlaced);
    CountBounds(s.suppliers, HasClaimed);
    CountBounds(s.oven, Occupied);
    CountBounds(s.table, Occupied);
  }

  lemma InitInv(c: Config)
    ensures Inv(c, Init(c)) && OrderlyInv(c, Init(c))
  {
    InitCounts(c);
    NoPizzas(Init(c).cooks, InHand);
    NoPizzas(Init(c).table, InSlot);
  }

  function Bit(b: bool): int { if b then 1 else 0 }

  /** The effect of a move of cook `i` on all counts. */
  lemma CookCounts(cooks: seq<CookPc>, i: nat, pc: CookPc)
    requires i < |cooks|
    ensures var r := cooks[i := pc];
            && Count(r, InOven) == Count(cooks, InOven) - Bit(InOven(cooks[i])) + Bit(InOven(pc))
            && Count(r, HoldsPlace) == Count(cooks, HoldsPlace) - Bit(HoldsPlace(cooks[i])) + Bit(HoldsPlace(pc))
            && Count(r, HoldsSlot) == Count(cooks, HoldsSlot) - Bit(HoldsSlot(cooks[i])) + Bit(HoldsSlot(pc))
            && Count(r, AtTable) == Count(cooks, AtTable) - Bit(AtTable(cooks[i])) + Bit(AtTable(pc))
            && Count(r, HasPlaced) == Count(cooks, HasPlaced) - Bit(HasPlaced(cooks[i])) + Bit(HasPlaced(pc))
  {
    CountUpdate(cooks, i, pc, InOven);
    CountUpdate(cooks, i, pc, HoldsPlace);
    CountUpdate(cooks, i, pc, HoldsSlot);
    CountUpdate(cooks, i, pc, AtTable);
    CountUpdate(cooks, i, pc, HasPlaced);
  }

  /** The position cook `i` moves to. */
  function Target(s: State, i: nat, n: nat): CookPc
    requires i < |s.cooks| && |s.oven| == OVEN_CAP && |s.table| == TABLE_CAP
    requires s.cooks[i].PutIn? || s.cooks[i].Baking? ==> s.cooks[i].index < OVEN_CAP
  {
    CookStep(s, i, n).cooks[i]
  }

  /** A step of cook `i` changes the semaphores by what it takes and gives. */
  lemma CookMoves(c: Config, s: State, i: nat, n: nat)
    requires WellFormed(c, s) && i < |s.cooks| && CookCanStep(s, s.cooks[i], n)
    ensures var r := CookStep(s, i, n);
            var pc, pc' := s.cooks[i], Target(s, i, n);
            && r.cooks == s.cooks[i := pc']
            && r.ovenPlace == s.ovenPlace + Bit(InOven(pc)) - Bit(InOven(pc'))
            && r.ovenIn == s.ovenIn + Bit(HoldsPlace(pc)) - Bit(HoldsPlace(pc'))
            && r.tablePlace == s.tablePlace + Bit(AtTable(pc)) - Bit(AtTable(pc'))
            && r.tableOn == s.tableOn - Bit(pc.Carrying?) && r.tableReady == s.tableReady + Bit(pc.Placed?)
            && Bit(AtTable(pc')) - Bit(AtTable(pc)) == Bit(pc.Carrying?) - Bit(pc.Placed?)
  {
  }

  lemma CookKeepsSemaphores(c: Config, s: State, i: nat, n: nat)
    requires Inv(c, s) && CanStep(c, s, Cook(i, n))
    ensures SemaphoresAgree(CookStep(s, i, n))
    ensures CookStep(s, i, n).cooks == s.cooks[i := Target(s, i, n)]
  {
    CookMoves(c, s, i, n);
    CookCounts(s.cooks, i, Target(s, i, n));
    CountBounds(s.cooks, InOven);
    CountBounds(s.cooks, AtTable);
  }

  lemma CookKeepsTable(c: Config, s: State, i: nat, n: nat)
    requires Inv(c, s) && CanStep(c, s, Cook(i, n))
    ensures Stray(CookStep(s, i, n)) == Stray(s)
  {
    CookCounts(s.cooks, i, Target(s, i, n));
    if s.cooks[i].Carrying? && FirstFree(s.table) < TABLE_CAP {
      CountUpdate<nat>(s.table, FirstFree(s.table), s.cooks[i].n + 1, Occupied);
    }
  }

  lemma PutInKeepsOven(c: Config, s: State, i: nat, n: nat)
    requires Inv(c, s) && CanStep(c, s, Cook(i, n)) && s.cooks[i].Prepared?
    ensures OvenAgrees(CookStep(s, i, n))
  {
    OvenScanInBounds(c, s);
    var k := FirstFree(s.oven);
    CookCounts(s.cooks, i, PutIn(s.cooks[i].n, k));
    CountUpdate(s.oven, k, 1, Occupied);
  }

  lemma TakeOutKeepsOven(c: Config, s: State, i: nat, n: nat)
    requires Inv(c, s) && CanStep(c, s, Cook(i, n)) && s.cooks[i].Baking?
    ensures OvenAgrees(CookStep(s, i, n))
  {
    CookCounts(s.cooks, i, TakenOut(s.cooks[i].n));
    CountUpdate(s.oven, s.cooks[i].index, 0, Occupied);
  }

  /** Taking a free slot, and giving up one's own, keep the slots exclusive. */
  lemma CookKeepsOven(c: Config, s: State, i: nat, n: nat)
    requires Inv(c, s) && CanStep(c, s, Cook(i, n))
    ensures OvenAgrees(CookStep(s, i, n))
  {
    if s.cooks[i].Prepared? {
      PutInKeepsOven(c, s, i, n);
    } else if s.cooks[i].Baking? {
      TakeOutKeepsOven(c, s, i, n);
    } else {
      CookCounts(s.cooks, i, Target(s, i, n));
    }
  }

  lemma MadeOne(h: multiset<int>, t: multiset<int>, d: multiset<int>, p: multiset<int>)
    ensures (h + t + d) + p == (h + p) + t + d
  {
  }

  lemma PlacedOne(made: multiset<int>, h: multiset<int>, t: multiset<int>, d: multiset<int>,
                  h': multiset<int>, t': multiset<int>, p: multiset<int>)
    requires made == h + t + d && h' + p == h && t' == t + p
    ensures made == h' + t' + d
  {
    assert (h' + p) + t + d == h' + (t + p) + d;
  }

  lemma DeliveredOne(h: multiset<int>, t: multiset<int>, d: multiset<int>, p: multiset<int>)
    ensures h + (t + p) + d == h + t + (d + p)
  {
  }

  lemma PrepareKeepsPizzas(c: Config, s: State, i: nat, n: nat)
    requires PizzasConserved(s) && WellFormed(c, s) && CanStep(c, s, Cook(i, n)) && s.cooks[i].Starting?
    ensures PizzasConserved(CookStep(s, i, n))
  {
    PizzasUpdate(s.cooks, i, Prepared(n), InHand);
    assert InHand(Prepared(n)) == multiset{n};
    assert Hands(s.cooks[i := Prepared(n)]) == Hands(s.cooks) + multiset{n};
    MadeOne(Hands(s.cooks), OnTable(s.table), s.delivered, multiset{n});
  }

  lemma LeaveHand(cooks: seq<CookPc>, i: nat)
    requires i < |cooks| && cooks[i].Carrying?
    ensures Hands(cooks[i := Filled(cooks[i].n)]) + multiset{cooks[i].n} == Hands(cooks)
  {
    PizzasUpdate(cooks, i, Filled(cooks[i].n), InHand);
    assert InHand(cooks[i]) == multiset{cooks[i].n} && InHand(Filled(cooks[i].n)) == multiset{};
  }

  lemma FillSlot(table: seq<nat>, k: nat, m: nat)
    requires k < |table| && table[k] == 0
    ensures OnTable(table[k := m + 1]) == OnTable(table) + multiset{m}
  {
    PizzasUpdate<nat>(table, k, m + 1, InSlot);
    assert InSlot(0) == multiset{} && InSlot(m + 1) == multiset{m};
  }

  lemma PlacePizza(cooks: seq<CookPc>, table: seq<nat>, i: nat, k: nat, made: multiset<int>, d: multiset<int>)
    requires i < |cooks| && cooks[i].Carrying? && k < |table| && table[k] == 0
    requires made == Hands(cooks) + OnTable(table) + d
    ensures made == Hands(cooks[i := Filled(cooks[i].n)]) + OnTable(table[k := cooks[i].n + 1]) + d
  {
    LeaveHand(cooks, i);
    FillSlot(table, k, cooks[i].n);
    PlacedOne(made, Hands(cooks), OnTable(table), d,
              Hands(cooks[i := Filled(cooks[i].n)]), OnTable(table[k := cooks[i].n + 1]), multiset{cooks[i].n});
  }

  lemma PlaceKeepsPizzas(s: State, i: nat, n: nat)
    requires i < |s.cooks| && |s.oven| == OVEN_CAP && |s.table| == TABLE_CAP && PizzasConserved(s)
    requires s.cooks[i].Carrying? && FirstFree(s.table) < TABLE_CAP
    ensures PizzasConserved(CookStep(s, i, n))
  {
    var k := FirstFree(s.table);
    PlaceMoves(s, i, n);
    PlacePizza(s.cooks, s.table, i, k, s.made, s.delivered);
  }

  lemma PlaceMoves(s: State, i: nat, n: nat)
    requires i < |s.cooks| && |s.oven| == OVEN_CAP && |s.table| == TABLE_CAP
    requires s.cooks[i].Carrying? && FirstFree(s.table) < TABLE_CAP
    ensures var r := CookStep(s, i, n);
            && r.cooks == s.cooks[i := Filled(s.cooks[i].n)]
            && r.table == s.table[FirstFree(s.table) := s.cooks[i].n + 1]
            && r.made == s.made && r.delivered == s.delivered
  {
  }

  lemma CookKeepsPizzas(c: Config, s: State, i: nat, n: nat)
    requires PizzasConserved(s) && WellFormed(c, s) && CanStep(c, s, Cook(i, n))
    ensures PizzasConserved(CookStep(s, i, n))
  {
    if s.cooks[i].Starting? {
      PrepareKeepsPizzas(c, s, i, n);
    } else if s.cooks[i].Carrying? && FirstFree(s.table) < TABLE_CAP {
      PlaceKeepsPizzas(s, i, n);
    } else {
      KeepHandKeepsPizzas(s, i, n);
    }
  }

  lemma KeepHandKeepsPizzas(s: State, i: nat, n: nat)
    requires i < |s.cooks| && |s.oven| == OVEN_CAP && |s.table| == TABLE_CAP && PizzasConserved(s)
    requires s.cooks[i].PutIn? || s.cooks[i].Baking? ==> s.cooks[i].index < OVEN_CAP
    requires !s.cooks[i].Starting? && !(s.cooks[i].Carrying? && FirstFree(s.table) < TABLE_CAP)
    ensures PizzasConserved(CookStep(s, i, n))
  {
    var pc := Target(s, i, n);
    SameInHand(s, i, n);
    PizzasUpdate(s.cooks, i, pc, InHand);
    Cancel(Hands(s.cooks[i := pc]), Hands(s.cooks), InHand(pc));
  }

  /** Apart from making and placing, a cook keeps the pizza it has. */
  lemma SameInHand(s: State, i: nat, n: nat)
    requires i < |s.cooks| && |s.oven| == OVEN_CAP && |s.table| == TABLE_CAP
    requires s.cooks[i].PutIn? || s.cooks[i].Baking? ==> s.cooks[i].index < OVEN_CAP
    requires !s.cooks[i].Starting? && !(s.cooks[i].Carrying? && FirstFree(s.table) < TABLE_CAP)
    ensures InHand(Target(s, i, n)) == InHand(s.cooks[i])
    ensures CookStep(s, i, n).table == s.table && CookStep(s, i, n).delivered == s.delivered
    ensures CookStep(s, i, n).made == s.made
    ensures CookStep(s, i, n).cooks == s.cooks[i := Target(s, i, n)]
  {
  }

  /** A pizza goes astray when a supplier clears a slot that is free by then. */
  lemma SupplierKeepsTable(c: Config, s: State, k: nat)
    requires Inv(c, s) && CanStep(c, s, Supplier(k))
    ensures SemaphoresAgree(SupplierStep(s, k))
    ensures var pc := s.suppliers[k];
            Stray(SupplierStep(s, k)) == Stray(s) + (if pc.Dropping? && s.table[pc.index] == 0 then 1 else 0)
  {
    CountUpdate(s.suppliers, k, SupplierStep(s, k).suppliers[k], HasClaimed);
    if s.suppliers[k].Dropping? {
      CountUpdate<nat>(s.table, s.suppliers[k].index, 0, Occupied);
    }
  }

  lemma Keeps(c: Config, s: State, a: Action)
    requires Inv(c, s) && CanStep(c, s, a)
    ensures Inv(c, Next(c, s, a))
  {
    match a
    case Cook(i, n) =>
      CookKeepsSemaphores(c, s, i, n);
      CookKeepsOven(c, s, i, n);
      CookKeepsTable(c, s, i, n);
    case Supplier(k) =>
      SupplierKeepsTable(c, s, k);
  }

  // ---------- Preservation where deliveries are orderly ----------

  /** What a cook's step does to the table and leaves alone. */
  lemma CookAtTable(s: State, i: nat, n: nat)
    requires i < |s.cooks| && |s.oven| == OVEN_CAP && |s.table| == TABLE_CAP
    requires s.cooks[i].PutIn? || s.cooks[i].Baking? ==> s.cooks[i].index < OVEN_CAP
    ensures var t := CookStep(s, i, n);
            && |t.cooks| == |s.cooks| && t.suppliers == s.suppliers && t.tableQueueStart == s.tableQueueStart
            && t.table == if s.cooks[i].Carrying? && FirstFree(s.table) < TABLE_CAP
                          then s.table[FirstFree(s.table) := s.cooks[i].n + 1] else s.table
  {
  }

  /** A pizza goes into a free slot, which no supplier has its eye on. */
  lemma FillKeepsClaims(table: seq<nat>, k: nat, x: nat, pcs: seq<SupplierPc>)
    requires k < |table| && table[k] == 0 && x != 0
    requires forall m :: 0 <= m < |pcs| ==> ClaimAgrees(table, pcs[m])
    ensures Count(table[k := x], Occupied) == Count(table, Occupied) + 1
    ensures forall m :: 0 <= m < |pcs| ==> ClaimAgrees(table[k := x], pcs[m])
  {
    CountUpdate(table, k, x, Occupied);
  }

  lemma CookKeepsAccount(c: Config, s: State, i: nat, n: nat)
    requires OrderlyInv(c, s) && CanStep(c, s, Cook(i, n))
    ensures Accounted(CookStep(s, i, n)) && OneDelivery(c, CookStep(s, i, n))
  {
    CookKeepsPizzas(c, s, i, n);
    CookKeepsTable(c, s, i, n);
    CookAtTable(s, i, n);
    if s.cooks[i].Carrying? && FirstFree(s.table) < TABLE_CAP {
      FillKeepsClaims(s.table, FirstFree(s.table), s.cooks[i].n + 1, s.suppliers);
    }
  }

  lemma EmptySlot(table: seq<nat>, j: nat, pizza: int)
    requires j < |table| && table[j] == pizza + 1 != 0
    ensures OnTable(table) == OnTable(table[j := 0]) + multiset{pizza}
  {
    PizzasUpdate<nat>(table, j, 0, InSlot);
  }

  /** Clearing the slot it has read, a supplier takes exactly that pizza. */
  lemma ClearKeepsPizzas(c: Config, s: State, k: nat)
    requires WellFormed(c, s) && CanStep(c, s, Supplier(k)) && s.suppliers[k].Dropping?
    requires PizzasConserved(s) && ClaimAgrees(s.table, s.suppliers[k])
    ensures PizzasConserved(SupplierStep(s, k))
  {
    var j, pizza := s.suppliers[k].index, s.suppliers[k].pizza;
    EmptySlot(s.table, j, pizza);
    DeliveredOne(Hands(s.cooks), OnTable(s.table[j := 0]), s.delivered, multiset{pizza});
  }

  lemma SupplierKeepsAlone(c: Config, s: State, k: nat)
    requires OrderlyInv(c, s) && CanStep(c, s, Supplier(k)) && Orderly(c)
    ensures OneDelivery(c, SupplierStep(s, k))
  {
    CountUpdate(s.suppliers, k, SupplierStep(s, k).suppliers[k], HasClaimed);
    CountBounds(s.suppliers, HasClaimed);
    CountBounds(SupplierStep(s, k).suppliers, HasClaimed);
    if s.suppliers[k].Idle? {
      OthersIdle(c, s, k);
    } else {
      OnlyOne(s.suppliers, k, HasClaimed);
    }
  }

  /** A supplier that starts a delivery is the only one. */
  lemma OthersIdle(c: Config, s: State, k: nat)
    requires OrderlyInv(c, s) && CanStep(c, s, Supplier(k)) && Orderly(c) && s.suppliers[k].Idle?
    ensures Count(s.suppliers, HasClaimed) == 0
  {
    CountBounds(s.suppliers, HasClaimed);
  }

  /** Where at most one element satisfies `p`, no other one does. */
  lemma {:induction false} OnlyOne<T>(s: seq<T>, k: nat, p: T -> bool)
    requires k < |s| && p(s[k]) && Count(s, p) <= 1
    ensures forall j :: 0 <= j < |s| && j != k ==> !p(s[j])
  {
    var n := |s| - 1;
    CountBounds(s[..n], p);
    if k == n {
      assert forall j :: 0 <= j < n ==> s[..n][j] == s[j];
    } else {
      assert p(s[..n][k]);
      OnlyOne(s[..n], k, p);
      assert forall j :: 0 <= j < n && j != k ==> !p(s[..n][j]) && s[..n][j] == s[j];
    }
  }

  lemma KeepsOrder(c: Config, s: State, a: Action)
    requires OrderlyInv(c, s) && CanStep(c, s, a) && Orderly(c)
    ensures OrderlyInv(c, Next(c, s, a))
  {
    Keeps(c, s, a);
    match a
    case Cook(i, n) =>
      CookKeepsAccount(c, s, i, n);
    case Supplier(k) =>
      SupplierKeepsAlone(c, s, k);
      SupplierKeepsTable(c, s, k);
      if s.suppliers[k].Dropping? {
        ClearKeepsPizzas(c, s, k);
      }
  }

  /** Where nobody steps during a delivery, or nobody delivers, a table scan stays in bounds too. */
  lemma KeepsInBounds(c: Config, s: State, a: Action)
    requires OrderlyInv(c, s) && NoOverrun(s) && CanStep(c, s, a)
    requires c.atomicDelivery || c.suppliers == 0
    ensures NoOverrun(Next(c, s, a))
  {
    match a
    case Cook(i, n) =>
      CookKeepsOven(c, s, i, n);
      if s.cooks[i].Carrying? {
        CountBounds(s.suppliers, HasClaimed);
        TableScanInBounds(c, s);
      }
      CookStaysInBounds(s, i, n);
    case Supplier(k) =>
  }

  /** A cook's scan leaves its array only where it finds no free slot. */
  lemma CookStaysInBounds(s: State, i: nat, n: nat)
    requires i < |s.cooks| && |s.oven| == OVEN_CAP && |s.table| == TABLE_CAP && NoOverrun(s)
    requires s.cooks[i].PutIn? || s.cooks[i].Baking? ==> s.cooks[i].index < OVEN_CAP
    requires s.cooks[i].Carrying? ==> FirstFree(s.table) < TABLE_CAP
    requires OvenAgrees(CookStep(s, i, n))
    ensures NoOverrun(CookStep(s, i, n))
  {
  }

  // ---------- Runs ----------

  lemma {:induction false} RunKeeps(c: Config, s: State, acts: seq<Action>)
    requires Inv(c, s) && Legal(c, s, acts)
    ensures Inv(c, Run(c, s, acts))
    decreases |acts|
  {
    if acts != [] {
      Keeps(c, s, acts[0]);
      RunKeeps(c, Next(c, s, acts[0]), acts[1..]);
    }
  }

  lemma {:induction false} RunKeepsOrder(c: Config, s: State, acts: seq<Action>)
    requires OrderlyInv(c, s) && Legal(c, s, acts) && Orderly(c)
    ensures OrderlyInv(c, Run(c, s, acts))
    decreases |acts|
  {
    if acts != [] {
      KeepsOrder(c, s, acts[0]);
      RunKeepsOrder(c, Next(c, s, acts[0]), acts[1..]);
    }
  }

  lemma {:induction false} RunKeepsInBounds(c: Config, s: State, acts: seq<Action>)
    requires OrderlyInv(c, s) && NoOverrun(s) && Legal(c, s, acts)
    requires c.atomicDelivery || c.suppliers == 0
    ensures NoOverrun(Run(c, s, acts))
    decreases |acts|
  {
    if acts != [] {
      KeepsOrder(c, s, acts[0]);
      KeepsInBounds(c, s, acts[0]);
      RunKeepsInBounds(c, Next(c, s, acts[0]), acts[1..]);
    }
  }
}
