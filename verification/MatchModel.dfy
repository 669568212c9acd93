/** The TCP tic-tac-toe server of lab10: its table of clients and its games.

    Accepting a connection is one step: the clients' mutex keeps other connections out, but not the end of a game,
    which does not take that mutex and can free a slot behind the scan that looks for one. A game takes one step
    for each move, and two for its end, because the two players are disconnected one after the other. */
module MatchModel {
  const MAX_CLIENT_COUNT := 32
  const CLIENT_NAME_LEN := 16
  const BOARD_SIZE := 9
  const TICK1 := 'O'
  const TICK2 := 'X'

  datatype Client = Client(taken: bool, playing: bool, name: string)

  /** A game runs, or one player is gone and the other one is about to be disconnected, or it is over. */
  datatype Phase = Running | Leaving(last: nat) | Over

  datatype Game = Game(player1: nat, player2: nat, board: string, round: nat, phase: Phase)

  datatype State = State(clients: seq<Client>, games: seq<Game>)

  /** A connection request; the player whose turn it is in game `g` sends a number, or disconnects; game `g` ends
      by the rules; the second player of an ending game is disconnected. */
  datatype Action = Accept(name: string) | Move(g: nat, move: int) | Leave(g: nat) | EndGame(g: nat) | DropLast(g: nat)

  function Init(): State {
    State(seq(MAX_CLIENT_COUNT, _ => Client(false, false, "")), [])
  }

  ghost predicate WellFormed(s: State) {
    && |s.clients| == MAX_CLIENT_COUNT
    && forall g :: 0 <= g < |s.games| ==>
         && s.games[g].player1 < MAX_CLIENT_COUNT && s.games[g].player2 < MAX_CLIENT_COUNT
         && |s.games[g].board| == BOARD_SIZE
         && (s.games[g].phase.Leaving? ==> s.games[g].phase.last < MAX_CLIENT_COUNT)
  }

  /** The part of a name that is stored and compared: at most 16 characters, up to a NUL. */
  function StoredName(name: string, n: nat): string {
    if n == 0 || name == "" || name[0] == '\0' then "" else [name[0]] + StoredName(name[1..], n - 1)
  }

  predicate NameTaken(clients: seq<Client>, name: string) {
    exists i :: 0 <= i < |clients| && clients[i].taken && clients[i].name == name
  }

  function FirstUntaken(clients: seq<Client>): (k: nat)
    ensures k <= |clients|
    ensures k < |clients| ==> !clients[k].taken
    ensures forall i :: 0 <= i < k ==> clients[i].taken
  {
    if clients == [] || !clients[0].taken then 0 else 1 + FirstUntaken(clients[1..])
  }

  predicate Pending(c: Client) { c.taken && !c.playing }

  function FirstPending(clients: seq<Client>): (k: nat)
    ensures k <= |clients|
    ensures k < |clients| ==> Pending(clients[k])
    ensures forall i :: 0 <= i < k ==> !Pending(clients[i])
  {
    if clients == [] || Pending(clients[0]) then 0 else 1 + FirstPending(clients[1..])
  }

  const EMPTY_BOARD := "         "

  /** The client enters the table; it plays with the first pending client, or is pending itself. */
  function Enter(s: State, name: string): State
    requires WellFormed(s) && FirstUntaken(s.clients) < |s.clients|
  {
    var id := FirstUntaken(s.clients);
    var clients := s.clients[id := Client(true, true, name)];
    var i := FirstPending(clients);
    if i < |clients| then
      State(clients[i := clients[i].(playing := true)], s.games + [Game(i, id, EMPTY_BOARD, 0, Running)])
    else
      State(clients[id := clients[id].(playing := false)], s.games)
  }

  function Turn(g: Game): nat { if g.round % 2 == 0 then g.player1 else g.player2 }

  function Opponent(g: Game): nat { if g.round % 2 == 0 then g.player2 else g.player1 }

  predicate LegalMove(g: Game, move: int)
    requires |g.board| == BOARD_SIZE
  {
    1 <= move <= 9 && g.board[move - 1] == ' '
  }

  /** An illegal move changes nothing. */
  function MakeMove(g: Game, move: int): Game
    requires |g.board| == BOARD_SIZE
  {
    if LegalMove(g, move) then
      g.(board := g.board[move - 1 := if g.round % 2 != 0 then TICK2 else TICK1], round := g.round + 1)
    else g
  }

  /** disconnect_client */
  function Free(clients: seq<Client>, id: nat): seq<Client>
    requires id < |clients|
  {
    clients[id := clients[id].(taken := false)]
  }

  /** A connection that finds no free slot ends the server, so it is not a step. */
  predicate CanStep(s: State, a: Action) {
    match a
    case Accept(name) =>
      NameTaken(s.clients, StoredName(name, CLIENT_NAME_LEN)) || FirstUntaken(s.clients) < |s.clients|
    case Move(g, _) => g < |s.games| && s.games[g].phase.Running?
    case Leave(g) => g < |s.games| && s.games[g].phase.Running?
    case EndGame(g) => g < |s.games| && s.games[g].phase.Running?
    case DropLast(g) => g < |s.games| && s.games[g].phase.Leaving?
  }

  function Next(s: State, a: Action): (r: State)
    requires WellFormed(s) && CanStep(s, a)
    ensures WellFormed(r)
  {
    match a
    case Accept(name) =>
      var stored := StoredName(name, CLIENT_NAME_LEN);
      if NameTaken(s.clients, stored) then s else Enter(s, stored)
    case Move(g, move) => s.(games := s.games[g := MakeMove(s.games[g], move)])
    case Leave(g) =>
      State(Free(s.clients, Turn(s.games[g])), s.games[g := s.games[g].(phase := Leaving(Opponent(s.games[g])))])
    case EndGame(g) =>
      State(Free(s.clients, s.games[g].player1), s.games[g := s.games[g].(phase := Leaving(s.games[g].player2))])
    case DropLast(g) =>
      State(Free(s.clients, s.games[g].phase.last), s.games[g := s.games[g].(phase := Over)])
  }

  ghost predicate Legal(s: State, acts: seq<Action>)
    requires WellFormed(s)
    decreases |acts|
  {
    acts == [] || (CanStep(s, acts[0]) && Legal(Next(s, acts[0]), acts[1..]))
  }

  ghost function Run(s: State, acts: seq<Action>): (r: State)
    requires WellFormed(s) && Legal(s, acts)
    ensures WellFormed(r)
    decreases |acts|
  {
    if acts == [] then s else Run(Next(s, acts[0]), acts[1..])
  }
}
