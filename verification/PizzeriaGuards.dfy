/** When cooks and suppliers get past their semaphores, in terms of who is where; and that the oven and the table
    can be used to the full. */
module PizzeriaGuards {
  import opened PizzeriaModel
  import opened PizzeriaSafety
  import opened PizzeriaRuns

  // ---------- Who can step ----------

  /** No uninterrupted delivery is under way that keeps all others from stepping. */
  ghost predicate NobodyHeldUp(c: Config, s: State) {
    c.atomicDelivery ==> forall k :: 0 <= k < |s.suppliers| ==> s.suppliers[k].Idle?
  }

  lemma OvenGuards(c: Config, s: State)
    requires Inv(c, s)
    ensures s.ovenPlace >= 1 <==> Count(s.cooks, InOven) == 0
    ensures s.ovenIn >= 1 <==> Count(s.cooks, HoldsPlace) < 5
  {
  }

  lemma TableGuards(c: Config, s: State)
    requires Inv(c, s)
    ensures s.tablePlace >= 1 <==> Count(s.cooks, AtTable) == 0
    ensures Count(s.cooks, AtTable) == 0 ==>
              (s.tableOn >= 1 <==> Count(s.table, Occupied) < 5 + Count(s.suppliers, HasClaimed) + Stray(s))
  {
    CountMonotone(s.cooks, HasPlaced, AtTable);
  }

  /** In every run a cook can enter the oven with a new pizza exactly if nobody is in the oven section and fewer than
      five places are held, with one to take out exactly if nobody is in the section, and the table exactly if nobody
      is in that section and the table is not full, but for deliveries under way and pizzas gone astray. */
  lemma CookEntersIff(c: Config, acts: seq<Action>, i: nat, n: nat)
    requires Legal(c, Init(c), acts) && i < c.cooks && n < 10 && NobodyHeldUp(c, Run(c, Init(c), acts))
    ensures var s := Run(c, Init(c), acts);
            match s.cooks[i]
            case Prepared(_) =>
              CanStep(c, s, Cook(i, n)) <==> Count(s.cooks, InOven) == 0 && Count(s.cooks, HoldsPlace) < 5
            case Baking(_, _) =>
              CanStep(c, s, Cook(i, n)) <==> Count(s.cooks, InOven) == 0
            case Carrying(_) =>
              CanStep(c, s, Cook(i, n)) <==>
                && Count(s.cooks, AtTable) == 0
                && Count(s.table, Occupied) < 5 + Count(s.suppliers, HasClaimed) + Stray(s)
            case _ =>
              CanStep(c, s, Cook(i, n)) <==> !s.cooks[i].OvenOverrun? && !s.cooks[i].TableOverrun?
    ensures Orderly(c) ==> Stray(Run(c, Init(c), acts)) == 0
  {
    InitInv(c);
    RunKeeps(c, Init(c), acts);
    if Orderly(c) {
      RunKeepsOrder(c, Init(c), acts);
    }
    OvenGuards(c, Run(c, Init(c), acts));
    TableGuards(c, Run(c, Init(c), acts));
  }

  /** In every run a supplier can claim a pizza exactly if there is one on the table that has been announced and not
      been claimed. Once it has claimed one nothing keeps it from going on. */
  lemma SupplierGoesOnIff(c: Config, acts: seq<Action>, k: nat)
    requires Legal(c, Init(c), acts) && k < c.suppliers && MayGoOn(c, Run(c, Init(c), acts), k)
    ensures var s := Run(c, Init(c), acts);
            CanStep(c, s, Supplier(k)) <==>
              || !s.suppliers[k].Idle?
              || Count(s.table, Occupied) > Count(s.cooks, HasPlaced) + Count(s.suppliers, HasClaimed) + Stray(s)
    ensures Orderly(c) ==> Stray(Run(c, Init(c), acts)) == 0
  {
    InitInv(c);
    if Orderly(c) {
      RunKeepsOrder(c, Init(c), acts);
    }
  }

  // ---------- The oven can be full ----------

  function FirstSlots(k: nat, n: nat): seq<nat> { seq(n, j => if j < k then 1 else 0) }

  function FirstCooks(k: nat, n: nat): seq<CookPc> {
    seq(n, j requires 0 <= j => if j < k then Baking(0, j) else Starting)
  }

  /** The first `k` cooks bake, and nothing else has happened. */
  ghost predicate FirstBake(c: Config, s: State, k: nat) {
    && WellFormed(c, s) && k <= c.cooks && k <= 5
    && s.ovenPlace == 1 && s.ovenIn == 5 - k
    && s.oven == FirstSlots(k, 5)
    && s.suppliers == Init(c).suppliers
    && s.cooks == FirstCooks(k, c.cooks)
  }

  lemma OneMoreBakes(c: Config, s: State, k: nat) returns (acts: seq<Action>, t: State)
    requires FirstBake(c, s, k) && k < c.cooks && k < 5
    ensures FirstBake(c, t, k + 1) && Leads(c, s, acts, t)
  {
    var a := Cook(k, 0);
    var s1 := Next(c, s, a);
    LeadsStep(c, s, [], s, a);
    assert FirstFree(s.oven) == k by {
      assert s.oven[k] == 0;
    }
    var s2 := Next(c, s1, a);
    LeadsStep(c, s, [] + [a], s1, a);
    LeadsStep(c, s, [] + [a] + [a], s2, a);
    acts, t := [] + [a] + [a] + [a], Next(c, s2, a);
    assert t.oven == FirstSlots(k + 1, 5);
    assert t.cooks == FirstCooks(k + 1, c.cooks);
  }

  lemma {:induction false} CountFirst(k: nat, n: nat)
    requires k <= n
    ensures Count(FirstSlots(k, n), Occupied) == k
  {
    if n > 0 {
      var s := FirstSlots(k, n);
      if k == n {
        CountFirst(n - 1, n - 1);
        assert s[..n - 1] == FirstSlots(n - 1, n - 1);
      } else {
        CountFirst(k, n - 1);
        assert s[..n - 1] == FirstSlots(k, n - 1);
      }
    }
  }

  /** As many pizzas as there are cooks, up to five, can be in the oven at once. */
  lemma {:induction false} OvenReaches(c: Config, k: nat) returns (acts: seq<Action>, t: State)
    requires k <= c.cooks && k <= 5
    ensures FirstBake(c, t, k) && Leads(c, Init(c), acts, t) && Count(t.oven, Occupied) == k
  {
    CountFirst(k, 5);
    if k == 0 {
      acts, t := [], Init(c);
      assert t.oven == FirstSlots(0, 5);
      assert t.cooks == FirstCooks(0, c.cooks);
      return;
    }
    var xs, s := OvenReaches(c, k - 1);
    var ys;
    ys, t := OneMoreBakes(c, s, k - 1);
    LeadsOn(c, Init(c), xs, s, ys, t);
    acts := xs + ys;
  }

  // ---------- The table can be full ----------

  /** Up to five pizzas can be on the table, announced, even if there is only one cook. */
  lemma {:induction false} TableReaches(c: Config, k: nat) returns (acts: seq<Action>, t: State)
    requires c.cooks >= 1 && k <= 5
    ensures Calm(c, t) && Leads(c, Init(c), acts, t) && t.cooks == Init(c).cooks
    ensures Count(t.table, Occupied) == k == t.tableReady && t.tableOn == 5 - k
  {
    if k == 0 {
      CountBounds(Init(c).table, Occupied);
      return [], Init(c);
    }
    var xs, s := TableReaches(c, k - 1);
    CountBounds(s.table, Occupied);
    var ys := Serve(c, s, 0, 0);
    t := Served(s, 0);
    CountUpdate<nat>(s.table, FirstFree(s.table), 1, Occupied);
    LeadsOn(c, Init(c), xs, s, ys, t);
    acts := xs + ys;
  }

  /** Each of the ten kinds of pizza can be made and delivered. */
  lemma AnyKindDelivered(c: Config, n: nat) returns (acts: seq<Action>, t: State)
    requires c.cooks >= 1 && c.suppliers >= 1 && n < 10
    ensures Leads(c, Init(c), acts, t) && t.made == t.delivered == multiset{n}
  {
    var s := Init(c);
    assert Calm(c, s);
    var xs := Serve(c, s, 0, n);
    var s1 := Served(s, n);
    assert s1.table[0] == n + 1;
    assert FirstTaken(s1.table, 0, 0) == 0;
    var ys := Deliver(c, s1, 0);
    t := Delivered(s1, 0);
    LeadsOn(c, s, xs, s1, ys, t);
    acts := xs + ys;
  }
}
