/** The pizzeria of lab07 (System V semaphores) as a state machine.

    One step of a cook is one semaphore operation together with the shared-memory code up to the next one, except
    that `tables_taken++` takes two steps, a load and a store, since suppliers change that counter too. A supplier
    holds no semaphore while it takes a pizza, so its code is cut finer: its semaphore operation, each iteration of
    its scan that looks at a slot, moving the queue start and reading the slot, loading the counter, and storing it
    and clearing the slot are steps of their own. */
module PizzeriaModel {
  const OVEN_CAP := 5
  const TABLE_CAP := 5
  const PIZZA_KINDS := 10

  /** `atomicDelivery` restricts the schedule: from a supplier's semaphore operation until it has cleared the
      slot nobody else steps. The program itself does nothing to ensure this. */
  datatype Config = Config(cooks: nat, suppliers: nat, atomicDelivery: bool)

  /** Where a cook stands, with its pizza number and its oven slot. Prepared, Baking and Carrying are
      blocked in front of a semaphore operation that can wait; PutIn, TakenOut, Filled, Storing and Placed are
      inside a section. A cook that is Filled has put its pizza on the table and is about to load the counter of
      the table; one that is Storing has loaded it. The two overruns stand for a scan that has left the array. */
  datatype CookPc =
    | Starting
    | Prepared(n: nat)
    | PutIn(n: nat, index: nat)
    | Baking(n: nat, index: nat)
    | TakenOut(n: nat)
    | Carrying(n: nat)
    | Filled(n: nat)
    | Storing(n: nat, taken: int)
    | Placed(n: nat)
    | OvenOverrun(n: nat)
    | TableOverrun(n: nat)

  /** Where a supplier stands: in front of its semaphore operation, in iteration `i` of its scan, in front of
      taking the pizza from the slot it has seen occupied, in front of loading the counter with the pizza read, or in
      front of storing the counter and clearing the slot. */
  datatype SupplierPc =
    | Idle
    | Looking(i: nat)
    | Found(index: nat)
    | Holding(index: nat, pizza: int)
    | Dropping(index: nat, pizza: int, taken: int)

  /** A slot holds 0 when free; an occupied oven slot holds 1, an occupied table slot the pizza number plus 1.
      `made` and `delivered` are history variables. A supplier that reads a free slot delivers pizza -1. */
  datatype State = State(
    ovenPlace: int,
    ovenIn: int,
    tablePlace: int,
    tableOn: int,
    tableReady: int,
    oven: seq<nat>,
    ovensTaken: int,
    table: seq<nat>,
    tablesTaken: int,
    tableQueueStart: nat,
    cooks: seq<CookPc>,
    suppliers: seq<SupplierPc>,
    made: multiset<int>,
    delivered: multiset<int>)

  /** A step of cook `i` (which, when it starts, makes pizza `n`), or of supplier `k`. */
  datatype Action = Cook(i: nat, n: nat) | Supplier(k: nat)

  function FreeSlots(n: nat): seq<nat> { seq(n, _ => 0) }

  function Init(c: Config): State {
    State(1, OVEN_CAP, 1, TABLE_CAP, 0, FreeSlots(OVEN_CAP), 0, FreeSlots(TABLE_CAP), 0, 0,
          seq(c.cooks, _ => Starting), seq(c.suppliers, _ => Idle), multiset{}, multiset{})
  }

  predicate SlotInRange(pc: SupplierPc) {
    pc.Found? || pc.Holding? || pc.Dropping? ==> pc.index < TABLE_CAP
  }

  ghost predicate WellFormed(c: Config, s: State) {
    && |s.oven| == OVEN_CAP
    && |s.table| == TABLE_CAP
    && |s.cooks| == c.cooks
    && |s.suppliers| == c.suppliers
    && s.tableQueueStart < TABLE_CAP
    && (forall i :: 0 <= i < |s.cooks| ==>
          (s.cooks[i].PutIn? || s.cooks[i].Baking? ==> s.cooks[i].index < OVEN_CAP))
    && (forall k :: 0 <= k < |s.suppliers| ==> SlotInRange(s.suppliers[k]))
  }

  // ---------- Scans ----------

  /** The first free slot, or the length if there is none. */
  function FirstFree(slots: seq<nat>): (k: nat)
    ensures k <= |slots|
    ensures k < |slots| ==> slots[k] == 0
    ensures forall i :: 0 <= i < k ==> slots[i] != 0
  {
    if slots == [] then 0
    else if slots[0] == 0 then 0
    else 1 + FirstFree(slots[1..])
  }

  /** The slot the supplier looks at in iteration `d` of its scan. */
  function ScanSlot(start: nat, d: nat): (k: nat)
    ensures k < TABLE_CAP
  {
    (d + start) % TABLE_CAP
  }

  /** The first iteration, from `d` on, in which the supplier's scan finds an occupied slot. */
  function FirstTaken(table: seq<nat>, start: nat, d: nat): (r: nat)
    requires |table| == TABLE_CAP && d <= TABLE_CAP
    ensures d <= r <= TABLE_CAP
    ensures r < TABLE_CAP ==> table[ScanSlot(start, r)] != 0
    ensures forall e :: d <= e < r ==> table[ScanSlot(start, e)] == 0
    decreases TABLE_CAP - d
  {
    if d == TABLE_CAP then d
    else if table[ScanSlot(start, d)] != 0 then d
    else FirstTaken(table, start, d + 1)
  }

  // ---------- Steps ----------

  /** The semaphore operation a cook stands in front of does not block. */
  predicate CookCanStep(s: State, pc: CookPc, n: nat) {
    match pc
    case Starting => n < PIZZA_KINDS
    case Prepared(_) => s.ovenPlace >= 1 && s.ovenIn >= 1
    case PutIn(_, _) => true
    case Baking(_, _) => s.ovenPlace >= 1
    case TakenOut(_) => true
    case Carrying(_) => s.tablePlace >= 1 && s.tableOn >= 1
    case Filled(_) => true
    case Storing(_, _) => true
    case Placed(_) => true
    case OvenOverrun(_) => false
    case TableOverrun(_) => false
  }

  /** Only the semaphore operation can block a supplier. */
  predicate SupplierCanStep(s: State, pc: SupplierPc) {
    pc.Idle? ==> s.tableReady >= 1
  }

  ghost predicate CanStep(c: Config, s: State, a: Action) {
    && (match a
        case Cook(i, n) => i < |s.cooks| && CookCanStep(s, s.cooks[i], n)
        case Supplier(k) => k < |s.suppliers| && SupplierCanStep(s, s.suppliers[k]))
    && (c.atomicDelivery ==> forall k :: 0 <= k < |s.suppliers| && !s.suppliers[k].Idle? ==> a == Supplier(k))
  }

  function CookStep(s: State, i: nat, n: nat): State
    requires i < |s.cooks| && |s.oven| == OVEN_CAP && |s.table| == TABLE_CAP
    requires s.cooks[i].PutIn? || s.cooks[i].Baking? ==> s.cooks[i].index < OVEN_CAP
  {
    match s.cooks[i]
    case Starting =>
      s.(cooks := s.cooks[i := Prepared(n)], made := s.made + multiset{n})
    case Prepared(m) =>
      var k := FirstFree(s.oven);
      var s1 := s.(ovenPlace := s.ovenPlace - 1, ovenIn := s.ovenIn - 1, ovensTaken := s.ovensTaken + 1);
      if k < OVEN_CAP then s1.(oven := s.oven[k := 1], cooks := s.cooks[i := PutIn(m, k)])
      else s1.(cooks := s.cooks[i := OvenOverrun(m)])
    case PutIn(m, k) =>
      s.(ovenPlace := s.ovenPlace + 1, cooks := s.cooks[i := Baking(m, k)])
    case Baking(m, k) =>
      s.(ovenPlace := s.ovenPlace - 1, ovensTaken := s.ovensTaken - 1, oven := s.oven[k := 0],
         cooks := s.cooks[i := TakenOut(m)])
    case TakenOut(m) =>
      s.(ovenPlace := s.ovenPlace + 1, ovenIn := s.ovenIn + 1, cooks := s.cooks[i := Carrying(m)])
    case Carrying(m) =>
      var k := FirstFree(s.table);
      var s1 := s.(tablePlace := s.tablePlace - 1, tableOn := s.tableOn - 1);
      if k < TABLE_CAP then s1.(table := s.table[k := m + 1], cooks := s.cooks[i := Filled(m)])
      else s1.(cooks := s.cooks[i := TableOverrun(m)])
    case Filled(m) =>
      s.(cooks := s.cooks[i := Storing(m, s.tablesTaken)])
    case Storing(m, taken) =>
      s.(tablesTaken := taken + 1, cooks := s.cooks[i := Placed(m)])
    case Placed(m) =>
      s.(tablePlace := s.tablePlace + 1, tableReady := s.tableReady + 1, cooks := s.cooks[i := Starting])
    case OvenOverrun(_) => s
    case TableOverrun(_) => s
  }

  /** The number of the pizza in a slot. */
  function PizzaIn(slot: nat): int { slot - 1 }

  /** The queue start advances by one, whichever slot was found. The slot is read again after that, and
      cleared later, whatever it holds by then. */
  function SupplierStep(s: State, k: nat): State
    requires k < |s.suppliers| && |s.table| == TABLE_CAP && SlotInRange(s.suppliers[k])
  {
    match s.suppliers[k]
    case Idle =>
      s.(tableOn := s.tableOn + 1, tableReady := s.tableReady - 1, suppliers := s.suppliers[k := Looking(0)])
    case Looking(i) =>
      var j := ScanSlot(s.tableQueueStart, i);
      s.(suppliers := s.suppliers[k := if s.table[j] != 0 then Found(j) else Looking(i + 1)])
    case Found(j) =>
      s.(tableQueueStart := (s.tableQueueStart + 1) % TABLE_CAP,
         suppliers := s.suppliers[k := Holding(j, PizzaIn(s.table[j]))])
    case Holding(j, pizza) =>
      s.(suppliers := s.suppliers[k := Dropping(j, pizza, s.tablesTaken)])
    case Dropping(j, pizza, taken) =>
      s.(tablesTaken := taken - 1, table := s.table[j := 0], suppliers := s.suppliers[k := Idle],
         delivered := s.delivered + multiset{pizza})
  }

  ghost function Next(c: Config, s: State, a: Action): (r: State)
    requires WellFormed(c, s) && CanStep(c, s, a)
    ensures WellFormed(c, r)
  {
    match a
    case Cook(i, n) => CookStep(s, i, n)
    case Supplier(k) => SupplierStep(s, k)
  }

  // ---------- Runs ----------

  ghost predicate Legal(c: Config, s: State, acts: seq<Action>)
    requires WellFormed(c, s)
    decreases |acts|
  {
    acts == [] || (CanStep(c, s, acts[0]) && Legal(c, Next(c, s, acts[0]), acts[1..]))
  }

  ghost function Run(c: Config, s: State, acts: seq<Action>): (r: State)
    requires WellFormed(c, s) && Legal(c, s, acts)
    ensures WellFormed(c, r)
    decreases |acts|
  {
    if acts == [] then s else Run(c, Next(c, s, acts[0]), acts[1..])
  }
}
