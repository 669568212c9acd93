/** The semaphores and the shared memory of the pizzeria, and the steps of `make_pizza` and `deliver` as methods
    that update them, with the scans as loops over the arrays. */
module PizzeriaMemory {
  import opened PizzeriaModel
  import opened PizzeriaRuns

  class Pizzeria {
    ghost const c: Config
    var ovenPlace: int
    var ovenIn: int
    var tablePlace: int
    var tableOn: int
    var tableReady: int
    const oven: array<nat>
    var ovensTaken: int
    const table: array<nat>
    var tablesTaken: int
    var tableQueueStart: nat
    var cooks: seq<CookPc>
    var suppliers: seq<SupplierPc>
    ghost var made: multiset<int>
    ghost var delivered: multiset<int>

    ghost function Abs(): State
      reads this, oven, table
    {
      State(ovenPlace, ovenIn, tablePlace, tableOn, tableReady, oven[..], ovensTaken, table[..], tablesTaken,
            tableQueueStart, cooks, suppliers, made, delivered)
    }

    ghost predicate Valid()
      reads this, oven, table
    {
      WellFormed(c, Abs()) && oven != table
    }

    constructor (c: Config)
      ensures this.c == c && Valid() && Abs() == Init(c) && fresh(oven) && fresh(table)
    {
      this.c := c;
      ovenPlace, ovenIn, tablePlace, tableOn, tableReady := 1, OVEN_CAP, 1, TABLE_CAP, 0;
      oven := new nat[OVEN_CAP](_ => 0);
      table := new nat[TABLE_CAP](_ => 0);
      ovensTaken, tablesTaken, tableQueueStart := 0, 0, 0;
      cooks := seq(c.cooks, _ => Starting);
      suppliers := seq(c.suppliers, _ => Idle);
      made, delivered := multiset{}, multiset{};
      new;
      assert oven[..] == FreeSlots(OVEN_CAP) && table[..] == FreeSlots(TABLE_CAP);
    }

    /** The scan for a free slot. Where there is none, the program goes on past the end of the array; the scan
        here stops at the end, and its caller is in an overrun. */
    method FindFree(slots: array<nat>) returns (k: nat)
      ensures k == FirstFree(slots[..])
    {
      k := 0;
      while k < slots.Length && slots[k] != 0
        invariant k <= FirstFree(slots[..])
      {
        assert slots[..][k] != 0;
        k := k + 1;
      }
      assert k < slots.Length ==> slots[..][k] == 0;
    }

    /** The scan, and what it does to the slot it finds. */
    method Fill(slots: array<nat>, x: nat) returns (k: nat)
      modifies slots
      ensures k == FirstFree(old(slots[..]))
      ensures slots[..] == if k < slots.Length then old(slots[..])[k := x] else old(slots[..])
    {
      ghost var before := slots[..];
      k := FindFree(slots);
      if k < slots.Length {
        slots[k] := x;
        assert slots[..] == before[k := x];
      }
    }

    method PreparePizza(i: nat, n: nat)
      requires Valid() && i < |cooks| && cooks[i].Starting? && CanStep(c, Abs(), Cook(i, n))
      modifies this
      ensures Valid() && Abs() == Next(c, old(Abs()), Cook(i, n))
    {
      cooks := cooks[i := Prepared(n)];
      made := made + multiset{n};
    }

    /** Take the oven section and an oven place, and fill the first free slot. */
    method PutInOven(i: nat, ghost n: nat)
      requires Valid() && i < |cooks| && cooks[i].Prepared? && CanStep(c, Abs(), Cook(i, n))
      modifies this, oven
      ensures Valid() && Abs() == Next(c, old(Abs()), Cook(i, n))
    {
      ovenPlace, ovenIn := ovenPlace - 1, ovenIn - 1;
      ovensTaken := ovensTaken + 1;
      var index := Fill(oven, 1);
      if index < OVEN_CAP {
        cooks := cooks[i := PutIn(cooks[i].n, index)];
      } else {
        cooks := cooks[i := OvenOverrun(cooks[i].n)];
      }
    }

    method LeaveToBake(i: nat, ghost n: nat)
      requires Valid() && i < |cooks| && cooks[i].PutIn? && CanStep(c, Abs(), Cook(i, n))
      modifies this
      ensures Valid() && Abs() == Next(c, old(Abs()), Cook(i, n))
    {
      ovenPlace := ovenPlace + 1;
      cooks := cooks[i := Baking(cooks[i].n, cooks[i].index)];
    }

    method TakeOutOfOven(i: nat, ghost n: nat)
      requires Valid() && i < |cooks| && cooks[i].Baking? && CanStep(c, Abs(), Cook(i, n))
      modifies this, oven
      ensures Valid() && Abs() == Next(c, old(Abs()), Cook(i, n))
    {
      ovenPlace := ovenPlace - 1;
      ovensTaken := ovensTaken - 1;
      ghost var before := oven[..];
      oven[cooks[i].index] := 0;
      assert oven[..] == before[cooks[i].index := 0];
      cooks := cooks[i := TakenOut(cooks[i].n)];
    }

    method LeaveOven(i: nat, ghost n: nat)
      requires Valid() && i < |cooks| && cooks[i].TakenOut? && CanStep(c, Abs(), Cook(i, n))
      modifies this
      ensures Valid() && Abs() == Next(c, old(Abs()), Cook(i, n))
    {
      ovenPlace, ovenIn := ovenPlace + 1, ovenIn + 1;
      cooks := cooks[i := Carrying(cooks[i].n)];
    }

    /** Take the table section and a permit, and fill the first free slot. */
    method PlaceOnTable(i: nat, ghost n: nat)
      requires Valid() && i < |cooks| && cooks[i].Carrying? && CanStep(c, Abs(), Cook(i, n))
      modifies this, table
      ensures Valid() && Abs() == Next(c, old(Abs()), Cook(i, n))
    {
      tablePlace, tableOn := tablePlace - 1, tableOn - 1;
      var index := Fill(table, cooks[i].n + 1);
      if index < TABLE_CAP {
        cooks := cooks[i := Filled(cooks[i].n)];
      } else {
        cooks := cooks[i := TableOverrun(cooks[i].n)];
      }
    }

    /** The load of `tables_taken++`. */
    method LoadCounter(i: nat, ghost n: nat)
      requires Valid() && i < |cooks| && cooks[i].Filled? && CanStep(c, Abs(), Cook(i, n))
      modifies this`cooks
      ensures Valid() && Abs() == Next(c, old(Abs()), Cook(i, n))
    {
      cooks := cooks[i := Storing(cooks[i].n, tablesTaken)];
    }

    /** The store of `tables_taken++`, whatever the counter is by now. */
    method StoreCounter(i: nat, ghost n: nat)
      requires Valid() && i < |cooks| && cooks[i].Storing? && CanStep(c, Abs(), Cook(i, n))
      modifies this`cooks, this`tablesTaken
      ensures Valid() && Abs() == Next(c, old(Abs()), Cook(i, n))
    {
      tablesTaken := cooks[i].taken + 1;
      cooks := cooks[i := Placed(cooks[i].n)];
    }

    method AnnouncePizza(i: nat, ghost n: nat)
      requires Valid() && i < |cooks| && cooks[i].Placed? && CanStep(c, Abs(), Cook(i, n))
      modifies this
      ensures Valid() && Abs() == Next(c, old(Abs()), Cook(i, n))
    {
      tablePlace, tableReady := tablePlace + 1, tableReady + 1;
      cooks := cooks[i := Starting];
    }

    /** A supplier exchanges an announced pizza for a free place, before it has touched the table. */
    method ClaimPizza(k: nat)
      requires Valid() && k < |suppliers| && suppliers[k].Idle? && CanStep(c, Abs(), Supplier(k))
      modifies this
      ensures Valid() && Abs() == Next(c, old(Abs()), Supplier(k))
    {
      tableOn, tableReady := tableOn + 1, tableReady - 1;
      suppliers := suppliers[k := Looking(0)];
    }

    /** One iteration of the scan. */
    method LookAtSlot(k: nat)
      requires Valid() && k < |suppliers| && suppliers[k].Looking? && CanStep(c, Abs(), Supplier(k))
      modifies this`suppliers
      ensures Valid() && Abs() == Next(c, old(Abs()), Supplier(k))
    {
      var i := suppliers[k].i;
      var index := (i + tableQueueStart) % TABLE_CAP;
      suppliers := suppliers[k := if table[index] != 0 then Found(index) else Looking(i + 1)];
    }

    method ReadSlot(k: nat)
      requires Valid() && k < |suppliers| && suppliers[k].Found? && CanStep(c, Abs(), Supplier(k))
      modifies this`suppliers, this`tableQueueStart
      ensures Valid() && Abs() == Next(c, old(Abs()), Supplier(k))
    {
      tableQueueStart := tableQueueStart + 1;
      tableQueueStart := tableQueueStart % TABLE_CAP;
      var pizza: int := PizzaIn(table[suppliers[k].index]);
      suppliers := suppliers[k := Holding(suppliers[k].index, pizza)];
    }

    /** The load of `tables_taken--`. */
    method LoadForDelivery(k: nat)
      requires Valid() && k < |suppliers| && suppliers[k].Holding? && CanStep(c, Abs(), Supplier(k))
      modifies this`suppliers
      ensures Valid() && Abs() == Next(c, old(Abs()), Supplier(k))
    {
      suppliers := suppliers[k := Dropping(suppliers[k].index, suppliers[k].pizza, tablesTaken)];
    }

    /** The store of `tables_taken--`, and the end of the delivery. */
    method ClearSlot(k: nat) returns (pizza: int)
      requires Valid() && k < |suppliers| && suppliers[k].Dropping? && CanStep(c, Abs(), Supplier(k))
      modifies this, table
      ensures Valid() && Abs() == Next(c, old(Abs()), Supplier(k))
      ensures delivered == old(delivered) + multiset{pizza}
    {
      ghost var before := table[..];
      var index := suppliers[k].index;
      pizza := suppliers[k].pizza;
      tablesTaken := suppliers[k].taken - 1;
      table[index] := 0;
      assert table[..] == before[index := 0];
      suppliers := suppliers[k := Idle];
      delivered := delivered + multiset{pizza};
    }

    /** The circular scan, while nobody else steps: it stops at the first pizza from the queue start on. */
    method ScanTable(k: nat)
      requires Valid() && MayGoOn(c, Abs(), k) && suppliers[k] == Looking(0)
      requires FirstTaken(table[..], tableQueueStart, 0) < TABLE_CAP
      modifies this`suppliers
      ensures Valid()
      ensures var d := FirstTaken(table[..], tableQueueStart, 0);
              suppliers == old(suppliers)[k := Found(ScanSlot(tableQueueStart, d))]
    {
      ghost var was := suppliers;
      ghost var found := FirstTaken(table[..], tableQueueStart, 0);
      while suppliers[k].Looking?
        invariant k < |suppliers| && Valid() && suppliers == was[k := suppliers[k]]
        invariant match suppliers[k]
                  case Looking(i) => i <= found
                  case Found(j) => j == ScanSlot(tableQueueStart, found)
                  case _ => false
        decreases if suppliers[k].Looking? then 1 + found - suppliers[k].i else 0
      {
        ghost var i := suppliers[k].i;
        assert i < found <==> table[..][ScanSlot(tableQueueStart, i)] == 0;
        LookAtSlot(k);
      }
    }

    /** What `deliver` does after its semaphore operation while nobody else steps: it takes the first pizza from
        the queue start on. */
    method CollectPizza(k: nat) returns (pizza: int)
      requires Valid() && MayGoOn(c, Abs(), k) && suppliers[k] == Looking(0)
      requires FirstTaken(table[..], tableQueueStart, 0) < TABLE_CAP
      modifies this, table
      ensures Valid() && Abs() == Collected(old(Abs()), k)
      ensures delivered == old(delivered) + multiset{pizza}
    {
      ghost var was := Abs();
      ScanTable(k);
      assert Abs() == was.(suppliers := suppliers);
      TakeFound(was, k);
      ReadSlot(k);
      LoadForDelivery(k);
      pizza := ClearSlot(k);
    }
  }
}
