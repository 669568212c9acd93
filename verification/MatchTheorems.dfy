/** Matchmaking: in every reachable state the clients are divided among the games and one pending place. */
module MatchTheorems {
  import opened MatchModel

  /** The clients a game still holds. */
  function Players(g: Game): set<nat> {
    match g.phase
    case Running => {g.player1, g.player2}
    case Leaving(last) => {last}
    case Over => {}
  }

  ghost predicate GamesHoldPlayers(s: State) {
    forall g, id :: 0 <= g < |s.games| && id in Players(s.games[g]) ==>
      id < |s.clients| && s.clients[id].taken && s.clients[id].playing
  }

  ghost predicate GamesDisjoint(games: seq<Game>) {
    forall g, h :: 0 <= g < h < |games| ==> Players(games[g]) !! Players(games[h])
  }

  /** Every taken client is pending or in a game. */
  ghost predicate EveryonePlaced(s: State) {
    forall id :: 0 <= id < |s.clients| && s.clients[id].taken ==>
      Pending(s.clients[id]) || exists g :: 0 <= g < |s.games| && id in Players(s.games[g])
  }

  ghost predicate OnePending(clients: seq<Client>) {
    forall i, j :: 0 <= i < j < |clients| ==> !(Pending(clients[i]) && Pending(clients[j]))
  }

  ghost predicate NamesDistinct(clients: seq<Client>) {
    forall i, j :: 0 <= i < j < |clients| && clients[i].taken && clients[j].taken ==>
      clients[i].name != clients[j].name
  }

  function CountTicks(board: string, tick: char): nat { multiset(board)[tick] }

  /** The players have moved in turn. */
  ghost predicate BoardAgrees(g: Game) {
    && CountTicks(g.board, TICK1) + CountTicks(g.board, TICK2) == g.round
    && CountTicks(g.board, TICK1) - CountTicks(g.board, TICK2) == g.round % 2
  }

  ghost predicate GamesAgree(games: seq<Game>) {
    forall g :: 0 <= g < |games| ==>
      BoardAgrees(games[g]) && (games[g].phase.Running? ==> games[g].player1 != games[g].player2)
  }

  ghost predicate Inv(s: State) {
    && WellFormed(s)
    && GamesHoldPlayers(s)
    && GamesDisjoint(s.games)
    && EveryonePlaced(s)
    && OnePending(s.clients)
    && NamesDistinct(s.clients)
    && GamesAgree(s.games)
  }

  lemma InitInv()
    ensures Inv(Init())
  {
  }

  lemma EmptyBoardAgrees(i: nat, j: nat)
    ensures BoardAgrees(Game(i, j, EMPTY_BOARD, 0, Running)) && |EMPTY_BOARD| == BOARD_SIZE
  {
    assert forall c :: c in EMPTY_BOARD ==> c == ' ';
    assert TICK1 !in multiset(EMPTY_BOARD) && TICK2 !in multiset(EMPTY_BOARD);
  }

  /** The table with a newcomer who is not paired yet. */
  function WithNewcomer(clients: seq<Client>, name: string): seq<Client>
    requires FirstUntaken(clients) < |clients|
  {
    clients[FirstUntaken(clients) := Client(true, true, name)]
  }

  lemma NewcomerNamed(s: State, name: string)
    requires Inv(s) && FirstUntaken(s.clients) < |s.clients| && !NameTaken(s.clients, name)
    ensures NamesDistinct(WithNewcomer(s.clients, name))
    ensures forall g :: 0 <= g < |s.games| ==> FirstUntaken(s.clients) !in Players(s.games[g])
    ensures forall i :: 0 <= i < |s.clients| ==>
              (Pending(WithNewcomer(s.clients, name)[i]) <==> Pending(s.clients[i]))
  {
  }

  /** With nobody pending, the newcomer is. */
  lemma EnterAlone(s: State, name: string)
    requires Inv(s) && FirstUntaken(s.clients) < |s.clients| && !NameTaken(s.clients, name)
    requires FirstPending(WithNewcomer(s.clients, name)) == |s.clients|
    ensures Inv(Enter(s, name))
  {
    NewcomerNamed(s, name);
    var id := FirstUntaken(s.clients);
    var r := Enter(s, name);
    assert r.clients == s.clients[id := Client(true, false, name)] && r.games == s.games;
  }

  /** What entering does when somebody is pending. */
  lemma PairedShape(s: State, name: string)
    requires Inv(s) && FirstUntaken(s.clients) < |s.clients| && !NameTaken(s.clients, name)
    requires FirstPending(WithNewcomer(s.clients, name)) < |s.clients|
    ensures var r := Enter(s, name);
            var id, i := FirstUntaken(s.clients), FirstPending(WithNewcomer(s.clients, name));
            && i != id && Pending(s.clients[i]) && WellFormed(r)
            && r.games == s.games + [Game(i, id, EMPTY_BOARD, 0, Running)]
            && (forall k :: 0 <= k < |s.clients| && k != i && k != id ==> r.clients[k] == s.clients[k])
            && r.clients[i] == s.clients[i].(playing := true) && r.clients[id] == Client(true, true, name)
  {
    NewcomerNamed(s, name);
    EmptyBoardAgrees(0, 0);
  }

  /** Otherwise the pending client and the newcomer make up a new game. */
  lemma EnterGame(s: State, name: string)
    requires Inv(s) && FirstUntaken(s.clients) < |s.clients| && !NameTaken(s.clients, name)
    requires FirstPending(WithNewcomer(s.clients, name)) < |s.clients|
    ensures Inv(Enter(s, name))
  {
    var id, i := FirstUntaken(s.clients), FirstPending(WithNewcomer(s.clients, name));
    NewcomerNamed(s, name);
    PairedShape(s, name);
    SameNames(WithNewcomer(s.clients, name), Enter(s, name).clients);
    PairKeeps(s, Enter(s, name), i, id);
  }

  lemma PairKeeps(s: State, r: State, i: nat, id: nat)
    requires Inv(s) && WellFormed(r) && NamesDistinct(r.clients)
    requires i != id && i < |s.clients| && id < |s.clients| && Pending(s.clients[i]) && !s.clients[id].taken
    requires r.games == s.games + [Game(i, id, EMPTY_BOARD, 0, Running)]
    requires forall k :: 0 <= k < |s.clients| && k != i && k != id ==> r.clients[k] == s.clients[k]
    requires r.clients[i].taken && r.clients[i].playing && r.clients[id].taken && r.clients[id].playing
    ensures Inv(r)
  {
    var g := Game(i, id, EMPTY_BOARD, 0, Running);
    EmptyBoardAgrees(i, id);
    NotPlaying(s, i);
    NotPlaying(s, id);
    NewGameKeeps(s, r, g);
    NewGamePlaces(s, r, g);
    PairedNoLongerPending(s.clients, r.clients, i, id);
  }

  lemma NotPlaying(s: State, id: nat)
    requires Inv(s) && id < |s.clients| && !(s.clients[id].taken && s.clients[id].playing)
    ensures forall h :: 0 <= h < |s.games| ==> id !in Players(s.games[h])
  {
  }

  lemma SameNames(before: seq<Client>, after: seq<Client>)
    requires NamesDistinct(before) && |before| == |after|
    requires forall k :: 0 <= k < |before| ==> after[k].taken == before[k].taken && after[k].name == before[k].name
    ensures NamesDistinct(after)
  {
  }

  lemma PairedNoLongerPending(before: seq<Client>, after: seq<Client>, i: nat, id: nat)
    requires |before| == |after| && i < |before| && id < |before| && OnePending(before) && Pending(before[i])
    requires !Pending(after[i]) && !Pending(after[id])
    requires forall k :: 0 <= k < |before| && k != i && k != id ==> after[k] == before[k]
    ensures OnePending(after) && forall k :: 0 <= k < |after| ==> !Pending(after[k])
  {
  }

  lemma NewGamePlaces(s: State, r: State, g: Game)
    requires Inv(s) && WellFormed(r) && r.games == s.games + [g] && g.phase.Running?
    requires g.player1 < |s.clients| && Pending(s.clients[g.player1])
    requires forall k :: 0 <= k < |s.clients| && k != g.player1 && k != g.player2 ==> r.clients[k] == s.clients[k]
    ensures EveryonePlaced(r)
  {
    forall k | 0 <= k < |r.clients| && r.clients[k].taken
      ensures Pending(r.clients[k]) || exists h :: 0 <= h < |r.games| && k in Players(r.games[h])
    {
      if k == g.player1 || k == g.player2 {
        assert k in Players(r.games[|s.games|]);
      } else if !Pending(s.clients[k]) {
        var h :| 0 <= h < |s.games| && k in Players(s.games[h]);
        assert r.games[h] == s.games[h];
      }
    }
  }

  lemma NewGameKeeps(s: State, r: State, g: Game)
    requires Inv(s) && WellFormed(r) && r.games == s.games + [g]
    requires forall h :: 0 <= h < |s.games| ==> g.player1 !in Players(s.games[h]) && g.player2 !in Players(s.games[h])
    requires BoardAgrees(g) && g.player1 != g.player2
    requires g.phase.Running? && g.player1 < |r.clients| && g.player2 < |r.clients|
    requires forall k :: 0 <= k < |s.clients| && k != g.player1 && k != g.player2 ==> r.clients[k] == s.clients[k]
    requires forall k :: k in {g.player1, g.player2} ==> r.clients[k].taken && r.clients[k].playing
    ensures GamesHoldPlayers(r) && GamesAgree(r.games) && GamesDisjoint(r.games)
  {
    forall h, k | 0 <= h < |r.games| && k in Players(r.games[h])
      ensures k < |r.clients| && r.clients[k].taken && r.clients[k].playing
    {
      if h < |s.games| {
        assert k in Players(s.games[h]);
      } else {
        assert k in {g.player1, g.player2};
      }
    }
  }

  /** A newcomer meets the one pending client, or takes its place. */
  lemma EnterKeeps(s: State, name: string)
    requires Inv(s) && FirstUntaken(s.clients) < |s.clients| && !NameTaken(s.clients, name)
    ensures Inv(Enter(s, name))
  {
    if FirstPending(WithNewcomer(s.clients, name)) < |s.clients| {
      EnterGame(s, name);
    } else {
      EnterAlone(s, name);
    }
  }

  /** A legal move fills one blank cell for the player whose turn it is. */
  lemma MoveKeepsBoard(g: Game, move: int)
    requires |g.board| == BOARD_SIZE && BoardAgrees(g)
    ensures BoardAgrees(MakeMove(g, move))
    ensures forall k :: 0 <= k < BOARD_SIZE && g.board[k] != ' ' ==> MakeMove(g, move).board[k] == g.board[k]
  {
  }

  lemma MoveKeeps(s: State, g: nat, move: int)
    requires Inv(s) && CanStep(s, Move(g, move))
    ensures Inv(Next(s, Move(g, move)))
  {
    MoveKeepsBoard(s.games[g], move);
    var r := Next(s, Move(g, move));
    SamePlayers(s, r, g, {});
  }

  /** When game g gives up some players, who are freed, everybody else stays where he was. */
  lemma SamePlayers(s: State, r: State, g: nat, gone: set<nat>)
    requires Inv(s) && WellFormed(r) && g < |s.games| == |r.games| && r.games == s.games[g := r.games[g]]
    requires gone <= Players(s.games[g]) && Players(r.games[g]) == Players(s.games[g]) - gone
    requires forall k :: 0 <= k < |s.clients| ==>
               r.clients[k] == if k in gone then s.clients[k].(taken := false) else s.clients[k]
    requires BoardAgrees(r.games[g]) && (r.games[g].phase.Running? ==> r.games[g].player1 != r.games[g].player2)
    ensures Inv(r)
  {
    forall h, k | 0 <= h < |r.games| && k in Players(r.games[h])
      ensures k < |r.clients| && r.clients[k].taken && r.clients[k].playing
    {
      assert k in Players(s.games[h]);
    }
    forall k | 0 <= k < |r.clients| && r.clients[k].taken
      ensures Pending(r.clients[k]) || exists h :: 0 <= h < |r.games| && k in Players(r.games[h])
    {
      if !Pending(s.clients[k]) {
        var h :| 0 <= h < |s.games| && k in Players(s.games[h]);
        assert k in Players(r.games[h]);
      }
    }
  }

  lemma Keeps(s: State, a: Action)
    requires Inv(s) && CanStep(s, a)
    ensures Inv(Next(s, a))
  {
    match a
    case Accept(name) =>
      var stored := StoredName(name, CLIENT_NAME_LEN);
      if !NameTaken(s.clients, stored) {
        EnterKeeps(s, stored);
      }
    case Move(g, move) => MoveKeeps(s, g, move);
    case Leave(g) => SamePlayers(s, Next(s, a), g, {Turn(s.games[g])});
    case EndGame(g) => SamePlayers(s, Next(s, a), g, {s.games[g].player1});
    case DropLast(g) => SamePlayers(s, Next(s, a), g, {s.games[g].phase.last});
  }

  lemma {:induction false} RunKeeps(s: State, acts: seq<Action>)
    requires Inv(s) && Legal(s, acts)
    ensures Inv(Run(s, acts))
    decreases |acts|
  {
    if acts != [] {
      Keeps(s, acts[0]);
      RunKeeps(Next(s, acts[0]), acts[1..]);
    }
  }

  lemma TwoPlayers(g: Game)
    requires g.phase.Running? && g.player1 != g.player2
    ensures |Players(g)| == 2
  {
    assert |{g.player1}| == 1;
    assert Players(g) == {g.player1} + {g.player2};
  }

  ghost predicate InSomeGame(s: State, id: nat) {
    exists g :: 0 <= g < |s.games| && id in Players(s.games[g])
  }

  lemma TakenIffPlaced(s: State, id: nat)
    requires Inv(s) && id < |s.clients|
    ensures s.clients[id].taken <==> Pending(s.clients[id]) || InSomeGame(s, id)
  {
  }

  /** The partition, in every reachable state: a client is taken exactly when it is the pending one or in a
      game; in a game it is playing, so not pending, and it is in at most one game; there is at most one
      pending client; names differ; and on every board the players have moved in turn. */
  lemma Partition(acts: seq<Action>)
    requires Legal(Init(), acts)
    ensures var s := Run(Init(), acts);
            && (forall id :: 0 <= id < |s.clients| ==>
                  (s.clients[id].taken <==> Pending(s.clients[id]) || InSomeGame(s, id)))
            && GamesHoldPlayers(s)
            && GamesDisjoint(s.games)
            && (forall g :: 0 <= g < |s.games| && s.games[g].phase.Running? ==> |Players(s.games[g])| == 2)
            && OnePending(s.clients)
            && NamesDistinct(s.clients)
            && (forall g :: 0 <= g < |s.games| ==> BoardAgrees(s.games[g]))
  {
    InitInv();
    RunKeeps(Init(), acts);
    var s := Run(Init(), acts);
    forall g | 0 <= g < |s.games| && s.games[g].phase.Running?
      ensures |Players(s.games[g])| == 2
    {
      TwoPlayers(s.games[g]);
    }
    forall id | 0 <= id < |s.clients|
      ensures s.clients[id].taken <==> Pending(s.clients[id]) || InSomeGame(s, id)
    {
      TakenIffPlaced(s, id);
    }
  }

  /** Who is matched with whom: a connection under a new name takes a slot that was free; if somebody is
      pending, he plays first against the newcomer on an empty board, and otherwise the newcomer is pending. */
  lemma NewcomerMatched(s: State, name: string, id: nat)
    requires Inv(s) && !NameTaken(s.clients, StoredName(name, CLIENT_NAME_LEN))
    requires CanStep(s, Accept(name)) && id == FirstUntaken(s.clients)
    ensures var r := Next(s, Accept(name));
            && !s.clients[id].taken && r.clients[id].taken
            && r.clients[id].name == StoredName(name, CLIENT_NAME_LEN)
            && (forall p :: 0 <= p < |s.clients| && Pending(s.clients[p]) ==>
                  r.games == s.games + [Game(p, id, EMPTY_BOARD, 0, Running)] && Turn(r.games[|s.games|]) == p)
            && ((forall p :: 0 <= p < |s.clients| ==> !Pending(s.clients[p])) ==>
                  r.games == s.games && Pending(r.clients[id]))
  {
    NewcomerNamed(s, StoredName(name, CLIENT_NAME_LEN));
  }

  /** No occupied cell is ever overwritten, whatever moves are sent. */
  lemma {:induction false} CellsStay(s: State, acts: seq<Action>, g: nat, k: nat)
    requires Inv(s) && Legal(s, acts) && g < |s.games| && k < BOARD_SIZE && s.games[g].board[k] != ' '
    ensures g < |Run(s, acts).games| && Run(s, acts).games[g].board[k] == s.games[g].board[k]
    decreases |acts|
  {
    if acts != [] {
      Keeps(s, acts[0]);
      CellsStay(Next(s, acts[0]), acts[1..], g, k);
    }
  }
}
