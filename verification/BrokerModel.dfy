/** The connection broker of lab06 (System V server): its registry, and what each message does to it. */
module BrokerModel {

  /** A registered client: the descriptor of its queue, its identifier, and whether it is free. */
  datatype Client = Client(pqd: int, id: int, active: bool)

  /** Messages by their sender. The descriptor and the target are the numbers in the message text. */
  datatype Message =
    | Init(sender: int, pqd: int)
    | Connect(sender: int, target: int)
    | ListClients(sender: int)
    | Disconnect(sender: int)
    | Stop(sender: int)

  /** The registry, and whether the server still runs. A send to descriptor -1 fails and ends it. */
  datatype State = State(clients: seq<Client>, running: bool)

  /** What comes of a message. In a connection the sender is told the target's queue, and the target the
      sender's. */
  datatype Outcome =
    | Done
    | Connected(target: int, sender: int, targetQueue: int, senderQueue: int)
    | Refused
    | Exited

  /** The position of the first entry with this identifier, or the length. */
  function IndexOf(clients: seq<Client>, id: int): (k: nat)
    ensures k <= |clients|
    ensures k < |clients| ==> clients[k].id == id
    ensures forall i :: 0 <= i < k ==> clients[i].id != id
  {
    if clients == [] || clients[0].id == id then 0 else 1 + IndexOf(clients[1..], id)
  }

  /** find: the queue of a free client, or -1 */
  function Find(clients: seq<Client>, id: int): int {
    var k := IndexOf(clients, id);
    if k < |clients| && clients[k].active then clients[k].pqd else -1
  }

  function SetActive(clients: seq<Client>, id: int, active: bool): seq<Client> {
    var k := IndexOf(clients, id);
    if k < |clients| then clients[k := clients[k].(active := active)] else clients
  }

  function RemoveClient(clients: seq<Client>, id: int): seq<Client> {
    var k := IndexOf(clients, id);
    if k < |clients| then clients[..k] + clients[k + 1..] else clients
  }

  function HandleInit(s: State, sender: int, pqd: int): (State, Outcome) {
    (State(s.clients + [Client(pqd, sender, true)], pqd != -1), if pqd == -1 then Exited else Done)
  }

  function HandleConnect(s: State, sender: int, target: int): (State, Outcome) {
    var pqd, fqd := Find(s.clients, target), Find(s.clients, sender);
    if fqd == -1 then (s.(running := false), Exited)
    else if pqd == -1 then (s, Refused)
    else
      (s.(clients := SetActive(SetActive(s.clients, target, false), sender, false)),
       Connected(target, sender, pqd, fqd))
  }

  function HandleList(s: State, sender: int): (State, Outcome) {
    if Find(s.clients, sender) == -1 then (s.(running := false), Exited) else (s, Done)
  }

  function Handle(s: State, m: Message): (State, Outcome) {
    match m
    case Init(sender, pqd) => HandleInit(s, sender, pqd)
    case Connect(sender, target) => HandleConnect(s, sender, target)
    case ListClients(sender) => HandleList(s, sender)
    case Disconnect(sender) => (s.(clients := SetActive(s.clients, sender, true)), Done)
    case Stop(sender) => (s.(clients := RemoveClient(s.clients, sender)), Done)
  }

  /** The outcomes of a sequence of messages; a server that has exited handles none. */
  function Outcomes(s: State, ms: seq<Message>): (os: seq<Outcome>)
    ensures |os| == |ms|
    decreases |ms|
  {
    if ms == [] then []
    else if !s.running then [Exited] + Outcomes(s, ms[1..])
    else [Handle(s, ms[0]).1] + Outcomes(Handle(s, ms[0]).0, ms[1..])
  }

  function After(s: State, ms: seq<Message>): State
    decreases |ms|
  {
    if ms == [] || !s.running then s else After(Handle(s, ms[0]).0, ms[1..])
  }
}
