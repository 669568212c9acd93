/** The server's list of clients, with the searches and the shift-left removal as loops. */
module Broker {
  import opened BrokerModel
  import BrokerTheorems

  class Server {
    var clients: seq<Client>
    var running: bool

    ghost function Abs(): State
      reads this
    {
      State(clients, running)
    }

    constructor ()
      ensures Abs() == State([], true)
    {
      clients, running := [], true;
    }

    /** The search all handlers share: stop at the first entry with the identifier. */
    method Search(id: int) returns (k: nat)
      ensures k == IndexOf(clients, id)
    {
      k := 0;
      while k < |clients| && clients[k].id != id
        invariant k <= |clients|
        invariant forall i :: 0 <= i < k ==> clients[i].id != id
      {
        k := k + 1;
      }
      BrokerTheorems.IndexOfIs(clients, id, k);
    }

    /** find */
    method FindQueue(id: int) returns (pqd: int)
      ensures pqd == Find(clients, id)
    {
      pqd := -1;
      var i := Search(id);
      if i < |clients| {
        if !clients[i].active {
          return -1;
        }
        pqd := clients[i].pqd;
      }
    }

    /** deactivate, and the loop of handle_disconnect */
    method Mark(id: int, active: bool)
      modifies this`clients
      ensures clients == SetActive(old(clients), id, active)
    {
      var i := Search(id);
      if i < |clients| {
        clients := clients[i := clients[i].(active := active)];
      }
    }

    /** removeclient: shift the later entries left, one by one, and drop the last. */
    method Remove(id: int)
      modifies this`clients
      ensures clients == BrokerModel.RemoveClient(old(clients), id)
    {
      ghost var before := clients;
      var j := Search(id);
      if j < |clients| {
        var i: nat := j;
        while i < |clients| - 1
          invariant j <= i < |clients| == |before|
          invariant clients[..j] == before[..j]
          invariant forall k :: j <= k < i ==> clients[k] == before[k + 1]
          invariant clients[i..] == before[i..]
        {
          ghost var now := clients;
          assert now[i..][1] == before[i..][1];
          clients := clients[i := clients[i + 1]];
          assert clients[i + 1..] == now[i..][1..] && clients[..j] == now[..j];
          i := i + 1;
        }
        assert clients[..|clients| - 1] == before[..j] + before[j + 1..];
        clients := clients[..|clients| - 1];
      }
    }

    /** One round of the main loop. */
    method Receive(m: Message) returns (o: Outcome)
      requires running
      modifies this
      ensures (Abs(), o) == Handle(old(Abs()), m)
    {
      o := Done;
      match m
      case Init(sender, pqd) =>
        clients := clients + [Client(pqd, sender, true)];
        if pqd == -1 {
          running, o := false, Exited;
        }
      case Connect(sender, target) =>
        var pqd := FindQueue(target);
        var fqd := FindQueue(sender);
        if pqd == -1 || fqd == -1 {
          if fqd == -1 {
            running, o := false, Exited;
          } else {
            o := Refused;
          }
          return;
        }
        Mark(target, false);
        Mark(sender, false);
        o := Connected(target, sender, pqd, fqd);
      case ListClients(sender) =>
        var pqd := FindQueue(sender);
        if pqd == -1 {
          running, o := false, Exited;
        }
      case Disconnect(sender) =>
        Mark(sender, true);
      case Stop(sender) =>
        Remove(sender);
    }
  }
}
