/** The server's client table as an array, searched by loops, and the running games. */
module Matchmaking {
  import opened MatchModel

  lemma {:induction false} FirstUntakenIs(clients: seq<Client>, k: nat)
    requires k <= |clients| && (k < |clients| ==> !clients[k].taken)
    requires forall i :: 0 <= i < k ==> clients[i].taken
    ensures FirstUntaken(clients) == k
  {
    if k > 0 {
      FirstUntakenIs(clients[1..], k - 1);
    }
  }

  lemma {:induction false} FirstPendingIs(clients: seq<Client>, k: nat)
    requires k <= |clients| && (k < |clients| ==> Pending(clients[k]))
    requires forall i :: 0 <= i < k ==> !Pending(clients[i])
    ensures FirstPending(clients) == k
  {
    if k > 0 {
      FirstPendingIs(clients[1..], k - 1);
    }
  }

  /** What the section under the mutex comes to. With a full table the program exits. */
  datatype Reply = NameTakenError | ServerFull | Waiting(id: nat) | Started(game: nat)

  class Lobby {
    const clients: array<Client>
    var games: seq<Game>

    ghost function Abs(): State
      reads this, clients
    {
      State(clients[..], games)
    }

    ghost predicate Valid()
      reads this, clients
    {
      WellFormed(Abs())
    }

    constructor ()
      ensures Valid() && Abs() == Init() && fresh(clients)
    {
      clients := new Client[MAX_CLIENT_COUNT](_ => Client(false, false, ""));
      games := [];
      new;
      assert clients[..] == Init().clients;
    }

    /** check_username */
    method CheckUsername(name: string) returns (free: bool)
      requires Valid()
      ensures free <==> !MatchModel.NameTaken(clients[..], name)
    {
      for i := 0 to clients.Length
        invariant forall k :: 0 <= k < i ==> !(clients[k].taken && clients[k].name == name)
      {
        if clients[i].taken && clients[i].name == name {
          assert clients[..][i].taken && clients[..][i].name == name;
          return false;
        }
      }
      return true;
    }

    /** create_client: the position of the newcomer, or -1 if the table is full */
    method CreateClient(name: string) returns (id: int)
      requires Valid()
      modifies clients
      ensures Valid()
      ensures var k := FirstUntaken(old(clients[..]));
              if k < clients.Length then id == k && clients[..] == old(clients[..])[k := Client(true, true, name)]
              else id == -1 && clients[..] == old(clients[..])
    {
      ghost var before := clients[..];
      for i := 0 to clients.Length
        invariant clients[..] == before
        invariant forall k :: 0 <= k < i ==> before[k].taken
      {
        if !clients[i].taken {
          FirstUntakenIs(before, i);
          clients[i] := Client(true, true, name);
          assert clients[..] == before[i := Client(true, true, name)];
          return i;
        }
      }
      FirstUntakenIs(before, clients.Length);
      return -1;
    }

    /** connect_pending: start a game with the first pending client, or let the newcomer wait. */
    method ConnectPending(id: nat) returns (reply: Reply)
      requires Valid() && id < clients.Length
      modifies this`games, clients
      ensures var i := FirstPending(old(clients[..]));
              if i < clients.Length then
                && reply == Started(|old(games)|)
                && clients[..] == old(clients[..])[i := old(clients[..])[i].(playing := true)]
                && games == old(games) + [Game(i, id, EMPTY_BOARD, 0, Running)]
              else
                && reply == Waiting(id)
                && clients[..] == old(clients[..])[id := old(clients[..])[id].(playing := false)]
                && games == old(games)
    {
      ghost var before := clients[..];
      for i := 0 to clients.Length
        invariant clients[..] == before && games == old(games)
        invariant forall k :: 0 <= k < i ==> !Pending(before[k])
      {
        if clients[i].taken && !clients[i].playing {
          FirstPendingIs(before, i);
          clients[i] := clients[i].(playing := true);
          assert clients[..] == before[i := before[i].(playing := true)];
          games := games + [Game(i, id, EMPTY_BOARD, 0, Running)];
          return Started(|games| - 1);
        }
      }
      FirstPendingIs(before, clients.Length);
      clients[id] := clients[id].(playing := false);
      assert clients[..] == before[id := before[id].(playing := false)];
      return Waiting(id);
    }

    /** The part of accepting_routine that holds the mutex. */
    method AcceptConnection(raw: string) returns (reply: Reply)
      requires Valid()
      modifies this`games, clients
      ensures reply.ServerFull? <==> !CanStep(old(Abs()), Accept(raw))
      ensures Valid() && Abs() == if reply.ServerFull? then old(Abs()) else Next(old(Abs()), Accept(raw))
      ensures reply.NameTakenError? <==> MatchModel.NameTaken(old(clients[..]), StoredName(raw, CLIENT_NAME_LEN))
      ensures reply.Started? <==> |games| > |old(games)|
    {
      var name := StoredName(raw, CLIENT_NAME_LEN);
      var free := CheckUsername(name);
      if !free {
        return NameTakenError;
      }
      var id := CreateClient(name);
      if id == -1 {
        return ServerFull;
      }
      reply := ConnectPending(id);
    }

    /** One round of the loop of game_connection with a move from the player whose turn it is. */
    method PlayMove(g: nat, move: int)
      requires Valid() && CanStep(Abs(), Move(g, move))
      modifies this`games
      ensures Valid() && Abs() == Next(old(Abs()), Move(g, move))
    {
      var game := games[g];
      if move < 1 || move > 9 || game.board[move - 1] != ' ' {
        return;
      }
      var board := game.board[move - 1 := if game.round % 2 != 0 then TICK2 else TICK1];
      games := games[g := Game(game.player1, game.player2, board, game.round + 1, game.phase)];
    }

    /** disconnect_client */
    method Disconnect(id: nat)
      requires id < clients.Length
      modifies clients
      ensures clients[..] == Free(old(clients[..]), id)
    {
      ghost var before := clients[..];
      clients[id] := clients[id].(taken := false);
      assert clients[..] == before[id := before[id].(taken := false)];
    }

    /** The player whose turn it is has sent a disconnect. */
    method LeaveGame(g: nat)
      requires Valid() && CanStep(Abs(), Leave(g))
      modifies this`games, clients
      ensures Valid() && Abs() == Next(old(Abs()), Leave(g))
    {
      var game := games[g];
      var players := [game.player1, game.player2];
      Disconnect(players[game.round % 2]);
      games := games[g := game.(phase := Leaving(players[(game.round + 1) % 2]))];
    }

    /** send_msg_end, up to the first disconnection */
    method FinishGame(g: nat)
      requires Valid() && CanStep(Abs(), EndGame(g))
      modifies this`games, clients
      ensures Valid() && Abs() == Next(old(Abs()), EndGame(g))
    {
      Disconnect(games[g].player1);
      games := games[g := games[g].(phase := Leaving(games[g].player2))];
    }

    /** The other player is disconnected too. */
    method DisconnectLast(g: nat)
      requires Valid() && CanStep(Abs(), DropLast(g))
      modifies this`games, clients
      ensures Valid() && Abs() == Next(old(Abs()), DropLast(g))
    {
      Disconnect(games[g].phase.last);
      games := games[g := games[g].(phase := Over)];
    }
  }
}
