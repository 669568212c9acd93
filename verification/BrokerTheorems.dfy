/** Exclusive connections, and the registry as an insertion-ordered map. */
module BrokerTheorems {
  import opened BrokerModel

  // ---------- Exclusivity ----------

  /** The client is registered and not free. */
  predicate Busy(clients: seq<Client>, id: int) {
    var k := IndexOf(clients, id);
    k < |clients| && !clients[k].active
  }

  predicate Involves(o: Outcome, id: int) {
    o.Connected? && (o.target == id || o.sender == id)
  }

  predicate Frees(m: Message, id: int) {
    (m.Disconnect? || m.Stop?) && m.sender == id
  }

  lemma {:induction false} IndexOfIs(clients: seq<Client>, id: int, k: nat)
    requires k <= |clients| && (k < |clients| ==> clients[k].id == id)
    requires forall i :: 0 <= i < k ==> clients[i].id != id
    ensures IndexOf(clients, id) == k
  {
    if k > 0 {
      IndexOfIs(clients[1..], id, k - 1);
    }
  }

  /** A client's first entry keeps its place when entries are added at the end. */
  lemma IndexOfAppended(clients: seq<Client>, c: Client, id: int)
    ensures IndexOf(clients, id) < |clients| ==> IndexOf(clients + [c], id) == IndexOf(clients, id)
    ensures IndexOf(clients, id) == |clients| ==>
              IndexOf(clients + [c], id) == |clients| + (if c.id == id then 0 else 1)
  {
    var k := IndexOf(clients, id);
    IndexOfIs(clients + [c], id, if k < |clients| || c.id == id then k else k + 1);
  }

  /** Removing another client's entry keeps the first entry of this one, at most one place further on. */
  lemma IndexOfRemoved(clients: seq<Client>, gone: int, id: int)
    requires gone != id && IndexOf(clients, id) < |clients|
    ensures var r := RemoveClient(clients, gone);
            IndexOf(r, id) < |r| && r[IndexOf(r, id)] == clients[IndexOf(clients, id)]
  {
    var r := RemoveClient(clients, gone);
    var j, k := IndexOf(clients, gone), IndexOf(clients, id);
    IndexOfIs(r, id, if j < k then k - 1 else k);
  }

  lemma SetActiveIndex(clients: seq<Client>, who: int, active: bool, id: int)
    ensures IndexOf(SetActive(clients, who, active), id) == IndexOf(clients, id)
  {
    IndexOfIs(SetActive(clients, who, active), id, IndexOf(clients, id));
  }

  lemma ConnectStays(s: State, sender: int, target: int, id: int)
    requires Busy(s.clients, id)
    ensures Busy(HandleConnect(s, sender, target).0.clients, id)
    ensures !Involves(HandleConnect(s, sender, target).1, id)
  {
    SetActiveIndex(s.clients, target, false, id);
    SetActiveIndex(SetActive(s.clients, target, false), sender, false, id);
    assert Find(s.clients, id) == -1;
  }

  /** A busy client stays busy, and no connection involves it, until it disconnects or stops. */
  lemma BusyStays(s: State, m: Message, id: int)
    requires Busy(s.clients, id) && !Frees(m, id)
    ensures Busy(Handle(s, m).0.clients, id)
    ensures !Involves(Handle(s, m).1, id)
  {
    match m
    case Init(sender, pqd) =>
      IndexOfAppended(s.clients, Client(pqd, sender, true), id);
    case Connect(sender, target) =>
      ConnectStays(s, sender, target, id);
    case ListClients(_) =>
    case Disconnect(sender) =>
      SetActiveIndex(s.clients, sender, true, id);
    case Stop(sender) =>
      IndexOfRemoved(s.clients, sender, id);
  }

  /** A successful connection leaves both clients busy. */
  lemma ConnectedIsBusy(s: State, m: Message, id: int)
    requires Involves(Handle(s, m).1, id)
    ensures Busy(Handle(s, m).0.clients, id)
  {
    var t, f := m.target, m.sender;
    SetActiveIndex(s.clients, t, false, id);
    SetActiveIndex(SetActive(s.clients, t, false), f, false, id);
    SetActiveIndex(s.clients, t, false, f);
    var k := IndexOf(s.clients, id);
    assert k < |s.clients|;
  }

  lemma {:induction false} NoConnectionWhileBusy(s: State, ms: seq<Message>, id: int, j: nat)
    requires Busy(s.clients, id) && j < |ms|
    requires forall i :: 0 <= i < j ==> !Frees(ms[i], id)
    ensures !Involves(Outcomes(s, ms)[j], id)
    decreases |ms|
  {
    if !s.running {
      if j > 0 {
        NoConnectionWhileBusy(s, ms[1..], id, j - 1);
      }
    } else if j == 0 {
      if !Frees(ms[0], id) {
        BusyStays(s, ms[0], id);
      }
    } else {
      BusyStays(s, ms[0], id);
      NoConnectionWhileBusy(Handle(s, ms[0]).0, ms[1..], id, j - 1);
    }
  }

  /** Between two successful connections that involve the same client there is a DISCONNECT or STOP from that
      client. This needs no assumption on identifiers: it holds even when one is registered twice. */
  lemma {:induction false} Exclusive(s: State, ms: seq<Message>, id: int, i: nat, j: nat)
    requires i < j < |ms|
    requires Involves(Outcomes(s, ms)[i], id) && Involves(Outcomes(s, ms)[j], id)
    ensures exists k :: i < k < j && Frees(ms[k], id)
    decreases |ms|
  {
    if !s.running {
      if i > 0 {
        Exclusive(s, ms[1..], id, i - 1, j - 1);
        var k :| i - 1 < k < j - 1 && Frees(ms[1..][k], id);
        assert Frees(ms[k + 1], id);
      }
    } else if i > 0 {
      Exclusive(Handle(s, ms[0]).0, ms[1..], id, i - 1, j - 1);
      var k :| i - 1 < k < j - 1 && Frees(ms[1..][k], id);
      assert Frees(ms[k + 1], id);
    } else {
      ConnectedIsBusy(s, ms[0], id);
      if forall k :: 0 < k < j ==> !Frees(ms[k], id) {
        NoConnectionWhileBusy(Handle(s, ms[0]).0, ms[1..], id, j - 1);
      }
    }
  }

  // ---------- Who can end the server ----------

  ghost predicate QueuesUsable(s: State) {
    s.running ==> forall i :: 0 <= i < |s.clients| ==> s.clients[i].pqd != -1
  }

  lemma {:induction false} QueuesStayUsable(s: State, ms: seq<Message>)
    requires QueuesUsable(s)
    ensures QueuesUsable(After(s, ms))
    decreases |ms|
  {
    if ms != [] && s.running {
      QueuesStayUsable(Handle(s, ms[0]).0, ms[1..]);
    }
  }

  predicate BusyOrUnknown(clients: seq<Client>, id: int) {
    Busy(clients, id) || IndexOf(clients, id) == |clients|
  }

  /** A running server exits exactly when a client registers without a queue, or when a client that is busy or
      not registered asks for a connection or for the list. */
  lemma ExitsIff(ms: seq<Message>, m: Message)
    ensures var s := After(State([], true), ms);
            s.running ==>
              (!Handle(s, m).0.running <==>
                 (m.Init? && m.pqd == -1)
                 || ((m.Connect? || m.ListClients?) && BusyOrUnknown(s.clients, m.sender)))
  {
    QueuesStayUsable(State([], true), ms);
  }

  // ---------- The registry as an insertion-ordered map ----------

  datatype Entry = Entry(pqd: int, active: bool)

  /** An insertion-ordered map from identifiers to entries. */
  datatype Registry = Registry(order: seq<int>, entries: map<int, Entry>)

  function Ids(clients: seq<Client>): seq<int> {
    seq(|clients|, i requires 0 <= i < |clients| => clients[i].id)
  }

  /** The array of clients stands for this map. */
  ghost predicate Represents(clients: seq<Client>, r: Registry) {
    && (forall i, j :: 0 <= i < j < |clients| ==> clients[i].id != clients[j].id)
    && r.order == Ids(clients)
    && (forall i :: 0 <= i < |clients| ==>
          clients[i].id in r.entries && r.entries[clients[i].id] == Entry(clients[i].pqd, clients[i].active))
    && (forall id :: id in r.entries ==> IndexOf(clients, id) < |clients|)
  }

  /** The order without one identifier. */
  function Without(order: seq<int>, id: int): seq<int> {
    if order == [] then []
    else (if order[0] == id then [] else [order[0]]) + Without(order[1..], id)
  }

  function MarkEntry(r: Registry, id: int, active: bool): Registry {
    if id in r.entries then r.(entries := r.entries[id := r.entries[id].(active := active)]) else r
  }

  predicate Free(r: Registry, id: int) {
    id in r.entries && r.entries[id].active && r.entries[id].pqd != -1
  }

  /** What each message means for the map. */
  function HandleRegistry(r: Registry, m: Message): Registry {
    match m
    case Init(sender, pqd) => Registry(r.order + [sender], r.entries[sender := Entry(pqd, true)])
    case Connect(sender, target) =>
      if Free(r, sender) && Free(r, target) then MarkEntry(MarkEntry(r, target, false), sender, false) else r
    case ListClients(_) => r
    case Disconnect(sender) => MarkEntry(r, sender, true)
    case Stop(sender) => Registry(Without(r.order, sender), r.entries - {sender})
  }

  lemma FindRefines(clients: seq<Client>, r: Registry, id: int)
    requires Represents(clients, r)
    ensures id in r.entries <==> IndexOf(clients, id) < |clients|
    ensures Find(clients, id) == if Free(r, id) then r.entries[id].pqd else -1
  {
  }

  lemma SetActiveRefines(clients: seq<Client>, r: Registry, id: int, active: bool)
    requires Represents(clients, r)
    ensures Represents(SetActive(clients, id, active), MarkEntry(r, id, active))
  {
    FindRefines(clients, r, id);
    var b := SetActive(clients, id, active);
    assert Ids(b) == Ids(clients);
    forall x | x in r.entries
      ensures IndexOf(b, x) < |b|
    {
      SetActiveIndex(clients, id, active, x);
    }
  }

  lemma {:induction false} WithoutAt(order: seq<int>, k: nat, id: int)
    requires k <= |order| && (forall i :: 0 <= i < |order| ==> (order[i] == id <==> i == k))
    ensures Without(order, id) == if k < |order| then order[..k] + order[k + 1..] else order
    decreases |order|
  {
    if order != [] {
      if k == 0 {
        WithoutAt(order[1..], |order| - 1, id);
      } else {
        WithoutAt(order[1..], k - 1, id);
        assert order == [order[0]] + order[1..];
      }
    }
  }

  lemma IdsAppend(a: seq<Client>, b: seq<Client>)
    ensures Ids(a + b) == Ids(a) + Ids(b)
  {
  }

  lemma RemoveOrder(clients: seq<Client>, id: int)
    requires forall i, j :: 0 <= i < j < |clients| ==> clients[i].id != clients[j].id
    ensures Ids(RemoveClient(clients, id)) == Without(Ids(clients), id)
  {
    var k := IndexOf(clients, id);
    WithoutAt(Ids(clients), k, id);
    if k < |clients| {
      IdsAppend(clients[..k], clients[k + 1..]);
      assert Ids(clients[..k]) == Ids(clients)[..k];
      assert Ids(clients[k + 1..]) == Ids(clients)[k + 1..];
    }
  }

  lemma RemoveRefines(clients: seq<Client>, r: Registry, id: int)
    requires Represents(clients, r)
    ensures Represents(RemoveClient(clients, id), Registry(Without(r.order, id), r.entries - {id}))
  {
    var b := RemoveClient(clients, id);
    var k := IndexOf(clients, id);
    RemoveOrder(clients, id);
    assert forall i :: 0 <= i < |b| ==> b[i] == clients[if i < k then i else i + 1];
    forall x | x in r.entries - {id}
      ensures IndexOf(b, x) < |b|
    {
      IndexOfRemoved(clients, id, x);
    }
  }

  lemma AppendRefines(clients: seq<Client>, r: Registry, c: Client)
    requires Represents(clients, r) && c.id !in r.order
    ensures Represents(clients + [c], Registry(r.order + [c.id], r.entries[c.id := Entry(c.pqd, c.active)]))
  {
    var b := clients + [c];
    forall i | 0 <= i < |clients|
      ensures clients[i].id != c.id
    {
      assert Ids(clients)[i] == clients[i].id;
    }
    forall x | x in r.entries[c.id := Entry(c.pqd, c.active)]
      ensures IndexOf(b, x) < |b|
    {
      IndexOfAppended(clients, c, x);
    }
  }

  /** What the sender of a message gets to know, as far as the map tells. */
  function Answer(r: Registry, m: Message): Outcome {
    match m
    case Init(_, pqd) => if pqd == -1 then Exited else Done
    case Connect(sender, target) =>
      if !Free(r, sender) then Exited
      else if !Free(r, target) then Refused
      else Connected(target, sender, r.entries[target].pqd, r.entries[sender].pqd)
    case ListClients(sender) => if Free(r, sender) then Done else Exited
    case Disconnect(_) => Done
    case Stop(_) => Done
  }

  /** A message registers an identifier that is in use. */
  predicate Reuses(r: Registry, m: Message) {
    m.Init? && m.sender in r.order
  }

  /** The array with its shifts refines the insertion-ordered map, and every outcome is the one the map gives,
      exactly as long as no identifier is registered a second time while it is in use. */
  lemma HandleRefines(s: State, r: Registry, m: Message)
    requires Represents(s.clients, r)
    ensures Represents(Handle(s, m).0.clients, HandleRegistry(r, m)) <==> !Reuses(r, m)
    ensures Handle(s, m).1 == Answer(r, m)
  {
    match m
    case Init(sender, pqd) =>
      if sender in r.order {
        RegisteredTwice(s.clients, r, Client(pqd, sender, true));
      } else {
        AppendRefines(s.clients, r, Client(pqd, sender, true));
      }
    case Connect(sender, target) =>
      FindRefines(s.clients, r, sender);
      FindRefines(s.clients, r, target);
      SetActiveRefines(s.clients, r, target, false);
      SetActiveRefines(SetActive(s.clients, target, false), MarkEntry(r, target, false), sender, false);
    case ListClients(sender) => FindRefines(s.clients, r, sender);
    case Disconnect(sender) => SetActiveRefines(s.clients, r, sender, true);
    case Stop(sender) => RemoveRefines(s.clients, r, sender);
  }

  lemma RegisteredTwice(clients: seq<Client>, r: Registry, c: Client)
    requires Represents(clients, r) && c.id in r.order
    ensures forall q :: !Represents(clients + [c], q)
  {
    var k :| 0 <= k < |clients| && Ids(clients)[k] == c.id;
    var b := clients + [c];
    assert b[k].id == b[|clients|].id;
  }

  /** The outcomes of a sequence of messages on the map; after an exit there is nothing but exits. */
  function Answers(r: Registry, ms: seq<Message>): seq<Outcome>
    decreases |ms|
  {
    if ms == [] then []
    else if Answer(r, ms[0]) == Exited then seq(|ms|, _ => Exited)
    else [Answer(r, ms[0])] + Answers(HandleRegistry(r, ms[0]), ms[1..])
  }

  /** The map after a sequence of messages, of which none is handled after an exit. */
  function RegistryAfter(r: Registry, ms: seq<Message>): Registry
    decreases |ms|
  {
    if ms == [] then r
    else if Answer(r, ms[0]) == Exited then HandleRegistry(r, ms[0])
    else RegistryAfter(HandleRegistry(r, ms[0]), ms[1..])
  }

  /** No message that is handled registers an identifier that is in use. */
  predicate NeverReuses(r: Registry, ms: seq<Message>)
    decreases |ms|
  {
    ms != [] ==>
      !Reuses(r, ms[0]) && (Answer(r, ms[0]) != Exited ==> NeverReuses(HandleRegistry(r, ms[0]), ms[1..]))
  }

  lemma {:induction false} StoppedOutcomes(s: State, ms: seq<Message>)
    requires !s.running
    ensures Outcomes(s, ms) == seq(|ms|, _ => Exited) && After(s, ms) == s
    decreases |ms|
  {
    if ms != [] {
      StoppedOutcomes(s, ms[1..]);
    }
  }

  /** So the server is that map for whoever talks to it: every sequence of messages has the outcomes the map
      gives, and leaves behind an array that stands for the map. */
  lemma {:induction false} ServerRefines(s: State, r: Registry, ms: seq<Message>)
    requires Represents(s.clients, r) && s.running && NeverReuses(r, ms)
    ensures Outcomes(s, ms) == Answers(r, ms)
    ensures Represents(After(s, ms).clients, RegistryAfter(r, ms))
    decreases |ms|
  {
    if ms != [] {
      HandleRefines(s, r, ms[0]);
      ExitStops(s, ms[0]);
      var (t, o) := Handle(s, ms[0]);
      if t.running {
        ServerRefines(t, HandleRegistry(r, ms[0]), ms[1..]);
      } else {
        StoppedOutcomes(t, ms[1..]);
        AllExits(|ms|);
      }
    }
  }

  lemma AllExits(n: nat)
    requires n >= 1
    ensures [Exited] + seq(n - 1, _ => Exited) == seq(n, _ => Exited)
  {
  }

  lemma ExitStops(s: State, m: Message)
    requires s.running
    ensures Handle(s, m).0.running <==> Handle(s, m).1 != Exited
  {
  }

  /** In particular from the start. */
  lemma ServerIsMap(ms: seq<Message>)
    requires NeverReuses(Registry([], map[]), ms)
    ensures Outcomes(State([], true), ms) == Answers(Registry([], map[]), ms)
  {
    ServerRefines(State([], true), Registry([], map[]), ms);
  }

  // ---------- What the history of a client says ----------

  /** Where a client stands, from what it has sent and what came of it. */
  datatype Standing = Unregistered | Registered(pqd: int, free: bool)

  /** Registering, disconnecting and leaving are the client's own doing; being connected may be another one's. */
  function StandingAfter(st: Standing, id: int, m: Message, o: Outcome): Standing {
    match m
    case Init(sender, pqd) => if sender == id then Registered(pqd, true) else st
    case Stop(sender) => if sender == id then Unregistered else st
    case Disconnect(sender) => if sender == id && st.Registered? then st.(free := true) else st
    case _ => if Involves(o, id) && st.Registered? then st.(free := false) else st
  }

  function StandingOf(st: Standing, id: int, ms: seq<Message>, os: seq<Outcome>): Standing
    requires |os| == |ms|
    decreases |ms|
  {
    if ms == [] then st else StandingOf(StandingAfter(st, id, ms[0], os[0]), id, ms[1..], os[1..])
  }

  function EntryStanding(r: Registry, id: int): Standing {
    if id in r.entries then Registered(r.entries[id].pqd, r.entries[id].active) else Unregistered
  }

  lemma StandingStep(r: Registry, m: Message, id: int)
    requires !Reuses(r, m) && Answer(r, m) != Exited
    ensures EntryStanding(HandleRegistry(r, m), id) == StandingAfter(EntryStanding(r, id), id, m, Answer(r, m))
  {
  }

  lemma {:induction false} StandingTraced(s: State, r: Registry, ms: seq<Message>, id: int)
    requires Represents(s.clients, r) && s.running && NeverReuses(r, ms) && After(s, ms).running
    ensures EntryStanding(RegistryAfter(r, ms), id) == StandingOf(EntryStanding(r, id), id, ms, Outcomes(s, ms))
    decreases |ms|
  {
    if ms != [] {
      HandleRefines(s, r, ms[0]);
      ExitStops(s, ms[0]);
      var t := Handle(s, ms[0]).0;
      StandingStep(r, ms[0], id);
      StandingTraced(t, HandleRegistry(r, ms[0]), ms[1..], id);
    }
  }

  /** After any messages that the server has survived, a request for a connection succeeds exactly if both clients
      are registered and, since they registered or last disconnected, in no connection; and each is told the queue
      the other one registered. If only the sender is free it is refused. */
  lemma ConnectsIff(ms: seq<Message>, sender: int, target: int)
    requires NeverReuses(Registry([], map[]), ms) && After(State([], true), ms).running
    ensures var os := Outcomes(State([], true), ms);
            var f, t := StandingOf(Unregistered, sender, ms, os), StandingOf(Unregistered, target, ms, os);
            Handle(After(State([], true), ms), Connect(sender, target)).1 ==
              if !(f.Registered? && f.free) then Exited
              else if !(t.Registered? && t.free) then Refused
              else Connected(target, sender, t.pqd, f.pqd)
  {
    var s, r := State([], true), Registry([], map[]);
    StandingTraced(s, r, ms, sender);
    StandingTraced(s, r, ms, target);
    ServerRefines(s, r, ms);
    QueuesStayUsable(s, ms);
    HandleRefines(After(s, ms), RegistryAfter(r, ms), Connect(sender, target));
    UsableQueues(After(s, ms), RegistryAfter(r, ms), sender);
    UsableQueues(After(s, ms), RegistryAfter(r, ms), target);
  }

  lemma UsableQueues(s: State, r: Registry, id: int)
    requires Represents(s.clients, r) && QueuesUsable(s) && s.running
    ensures id in r.entries ==> r.entries[id].pqd != -1
  {
    if id in r.entries {
      assert s.clients[IndexOf(s.clients, id)].id == id;
    }
  }
}
