/** What single moves, endings and connections do, traced through whole runs. */
module MatchBoards {
  import opened CText
  import opened MatchModel
  import opened MatchTheorems

  // ---------- Prefixes of runs ----------

  lemma {:induction false} RunSplit(s: State, acts: seq<Action>, i: nat)
    requires WellFormed(s) && Legal(s, acts) && i <= |acts|
    ensures Legal(s, acts[..i]) && Legal(Run(s, acts[..i]), acts[i..])
    ensures Run(Run(s, acts[..i]), acts[i..]) == Run(s, acts)
    decreases i
  {
    if i > 0 {
      RunSplit(Next(s, acts[0]), acts[1..], i - 1);
      assert acts[..i][0] == acts[0] && acts[..i][1..] == acts[1..][..i - 1] && acts[1..][i - 1..] == acts[i..];
    } else {
      assert acts[..0] == [] && acts[0..] == acts;
    }
  }

  /** The state in front of the i-th step of a run from the start. */
  ghost function Before(acts: seq<Action>, i: nat): State
    requires Legal(Init(), acts) && i <= |acts|
    ensures WellFormed(Before(acts, i))
  {
    RunSplit(Init(), acts, i);
    Run(Init(), acts[..i])
  }

  lemma BeforeNext(acts: seq<Action>, i: nat)
    requires Legal(Init(), acts) && i < |acts|
    ensures Inv(Before(acts, i)) && CanStep(Before(acts, i), acts[i])
    ensures Before(acts, i + 1) == Next(Before(acts, i), acts[i])
  {
    BeforeInv(acts, i);
    RunSplit(Init(), acts, i);
    RunSplit(Init(), acts, i + 1);
    RunLast(Init(), acts, i);
  }

  lemma BeforeInv(acts: seq<Action>, i: nat)
    requires Legal(Init(), acts) && i <= |acts|
    ensures Inv(Before(acts, i))
  {
    InitInv();
    RunSplit(Init(), acts, i);
    RunKeeps(Init(), acts[..i]);
  }

  lemma {:induction false} RunLast(s: State, acts: seq<Action>, i: nat)
    requires WellFormed(s) && Legal(s, acts) && i < |acts| && Legal(s, acts[..i]) && Legal(s, acts[..i + 1])
    ensures CanStep(Run(s, acts[..i]), acts[i]) && Run(s, acts[..i + 1]) == Next(Run(s, acts[..i]), acts[i])
    decreases i
  {
    if i == 0 {
      assert acts[..1][1..] == [] && acts[..0] == [];
    } else {
      assert acts[..i][0] == acts[0] && acts[..i][1..] == acts[1..][..i - 1];
      assert acts[..i + 1][0] == acts[0] && acts[..i + 1][1..] == acts[1..][..i];
      RunLast(Next(s, acts[0]), acts[1..], i - 1);
    }
  }

  // ---------- Boards ----------

  /** The tick of the player whose turn it is in this round: the first player's is 'O'. */
  function TickOf(round: nat): char { if round % 2 == 0 then 'O' else 'X' }

  /** A move to a blank cell from 1 to 9 fills that cell with the tick of the player on turn and passes the turn;
      any other move changes nothing. Other cells, games and all clients stay as they were. */
  lemma MoveFills(s: State, g: nat, move: int)
    requires Inv(s) && CanStep(s, Move(g, move))
    ensures var r, b := Next(s, Move(g, move)), s.games[g].board;
            && r.clients == s.clients && |r.games| == |s.games|
            && (forall h :: 0 <= h < |s.games| && h != g ==> r.games[h] == s.games[h])
            && (forall k :: 0 <= k < 9 ==>
                  r.games[g].board[k] == if k + 1 == move && b[k] == ' ' then TickOf(s.games[g].round) else b[k])
            && r.games[g].round == s.games[g].round + (if 1 <= move <= 9 && b[move - 1] == ' ' then 1 else 0)
            && r.games[g].phase.Running?
            && r.games[g].player1 == s.games[g].player1 && r.games[g].player2 == s.games[g].player2
  {
  }

  /** A cell changes only by a move to it while it is blank; games start with blank boards. */
  lemma CellChanges(s: State, a: Action, g: nat, k: nat)
    requires Inv(s) && CanStep(s, a) && g < |Next(s, a).games| && k < 9
    ensures var c := Next(s, a).games[g].board[k];
            if g >= |s.games| then c == ' '
            else if a == Move(g, k + 1) && s.games[g].board[k] == ' ' then c == TickOf(s.games[g].round)
            else c == s.games[g].board[k]
  {
    if a.Move? {
      MoveFills(s, a.g, a.move);
    }
  }

  /** The i-th step of the run was a move to cell k of game g, which was blank then. */
  ghost predicate FilledAt(acts: seq<Action>, i: nat, g: nat, k: nat)
    requires Legal(Init(), acts) && i < |acts|
  {
    && acts[i] == Move(g, k + 1) && k < 9
    && g < |Before(acts, i).games| && Before(acts, i).games[g].board[k] == ' '
  }

  lemma {:induction false} FilledSometime(acts: seq<Action>, n: nat, g: nat, k: nat)
    requires Legal(Init(), acts) && n <= |acts| && g < |Before(acts, n).games| && k < 9
    requires Before(acts, n).games[g].board[k] != ' '
    ensures exists i :: 0 <= i < n && FilledAt(acts, i, g, k)
    decreases n
  {
    assert acts[..0] == [];
    BeforeNext(acts, n - 1);
    CellChanges(Before(acts, n - 1), acts[n - 1], g, k);
    if !FilledAt(acts, n - 1, g, k) {
      FilledSometime(acts, n - 1, g, k);
    }
  }

  lemma FilledForGood(acts: seq<Action>, i: nat, g: nat, k: nat)
    requires Legal(Init(), acts) && i < |acts| && FilledAt(acts, i, g, k)
    ensures var s := Run(Init(), acts);
            g < |s.games| && s.games[g].board[k] == TickOf(Before(acts, i).games[g].round)
  {
    BeforeNext(acts, i);
    var s := Before(acts, i + 1);
    CellChanges(Before(acts, i), acts[i], g, k);
    RunSplit(Init(), acts, i + 1);
    Keeps(Before(acts, i), acts[i]);
    CellsStay(s, acts[i + 1..], g, k);
  }

  /** In every run a cell of a board is occupied exactly if some move to it was made while it was blank, and it holds
      the tick of the player whose turn it was then. */
  lemma BoardTracesMoves(acts: seq<Action>, g: nat, k: nat)
    requires Legal(Init(), acts) && g < |Run(Init(), acts).games| && k < 9
    ensures var cell := Run(Init(), acts).games[g].board[k];
            && (cell != ' ' <==> exists i :: 0 <= i < |acts| && FilledAt(acts, i, g, k))
            && (forall i :: 0 <= i < |acts| && FilledAt(acts, i, g, k) ==>
                  cell == TickOf(Before(acts, i).games[g].round))
  {
    assert acts[..|acts|] == acts;
    if Run(Init(), acts).games[g].board[k] != ' ' {
      FilledSometime(acts, |acts|, g, k);
    }
    forall i | 0 <= i < |acts| && FilledAt(acts, i, g, k)
      ensures Run(Init(), acts).games[g].board[k] == TickOf(Before(acts, i).games[g].round)
    {
      FilledForGood(acts, i, g, k);
    }
  }

  // ---------- Endings ----------

  /** Who is freed first when game g ends by this step: the player whose turn it is, if he leaves, and otherwise the
      first player. */
  function FreedFirst(g: Game, a: Action): nat {
    if a.Leave? && g.round % 2 == 1 then g.player2 else g.player1
  }

  /** A game that ends frees its two players, one after the other, and nobody else. */
  lemma BothPlayersFreed(s: State, a: Action, g: nat)
    requires Inv(s) && (a == Leave(g) || a == EndGame(g)) && CanStep(s, a)
    ensures var r, p := Next(s, a), FreedFirst(s.games[g], a);
            && CanStep(r, DropLast(g))
            && !r.clients[p].taken
            && (forall i :: 0 <= i < |s.clients| && i != p ==> r.clients[i] == s.clients[i])
            && (forall i :: 0 <= i < |s.clients| ==>
                  Next(r, DropLast(g)).clients[i].taken ==
                  (s.clients[i].taken && i != s.games[g].player1 && i != s.games[g].player2))
            && (forall h :: 0 <= h < |s.games| && h != g ==> Next(r, DropLast(g)).games[h] == s.games[h])
  {
    Keeps(s, a);
  }

  // ---------- Names and places ----------

  lemma {:induction false} StoredIsPrefix(name: string, n: nat)
    ensures StoredName(name, n) == if |CString(name)| <= n then CString(name) else CString(name)[..n]
  {
    if n > 0 && name != "" && name[0] != '\0' {
      StoredIsPrefix(name[1..], n - 1);
    }
  }

  /** In every run a connection is turned down exactly if a taken client's name agrees with the new one in the first
      16 characters up to a NUL. */
  lemma TurnedDownIff(acts: seq<Action>, name: string)
    requires Legal(Init(), acts) && CanStep(Run(Init(), acts), Accept(name))
    ensures var s, c := Run(Init(), acts), CString(name);
            Next(s, Accept(name)) == s <==>
              exists i :: 0 <= i < |s.clients| && s.clients[i].taken
                          && s.clients[i].name == if |c| <= 16 then c else c[..16]
  {
    var s := Run(Init(), acts);
    StoredIsPrefix(name, 16);
    var stored := StoredName(name, CLIENT_NAME_LEN);
    if !NameTaken(s.clients, stored) {
      InitInv();
      RunKeeps(Init(), acts);
      NewcomerMatched(s, name, FirstUntaken(s.clients));
    }
  }

  /** The name of the k-th of a row of clients. */
  function NameOf(k: nat): string
    requires k < 32
  {
    ['a' + k as char]
  }

  /** The first `k` slots are taken, by clients with these names. */
  ghost predicate FirstTaken(s: State, k: nat) {
    && Inv(s) && k <= 32 && |s.clients| == 32
    && (forall i :: 0 <= i < k ==> s.clients[i].taken && s.clients[i].name == NameOf(i))
    && (forall i :: k <= i < 32 ==> !s.clients[i].taken)
  }

  lemma OneMoreTaken(s: State, k: nat)
    requires FirstTaken(s, k) && k < 32
    ensures CanStep(s, Accept(NameOf(k))) && FirstTaken(Next(s, Accept(NameOf(k))), k + 1)
  {
    var a := Accept(NameOf(k));
    StoredIsPrefix(NameOf(k), 16);
    assert NameOf(k)[1..] == "" && CString(NameOf(k)) == NameOf(k);
    assert !s.clients[k].taken;
    assert FirstUntaken(s.clients) == k;
    assert !NameTaken(s.clients, NameOf(k));
    Keeps(s, a);
    SlotsAfter(s, NameOf(k));
  }

  /** Entering takes the first free slot and changes nobody's name or place. */
  lemma SlotsAfter(s: State, name: string)
    requires Inv(s) && FirstUntaken(s.clients) < |s.clients| && !NameTaken(s.clients, name)
    ensures var r, id := Enter(s, name), FirstUntaken(s.clients);
            && |r.clients| == |s.clients| && r.clients[id].taken && r.clients[id].name == name
            && (forall i :: 0 <= i < |s.clients| && i != id ==>
                  r.clients[i].taken == s.clients[i].taken && r.clients[i].name == s.clients[i].name)
  {
    NewcomerNamed(s, name);
  }

  /** Up to 32 clients can be connected at once, and with 32 nobody new can be accepted. */
  lemma {:induction false} LobbyReaches(k: nat) returns (acts: seq<Action>)
    requires k <= 32
    ensures Legal(Init(), acts) && FirstTaken(Run(Init(), acts), k)
    ensures k == 32 ==> forall name :: !NameTaken(Run(Init(), acts).clients, StoredName(name, CLIENT_NAME_LEN)) ==>
                                         !CanStep(Run(Init(), acts), Accept(name))
  {
    InitInv();
    if k == 0 {
      return [];
    }
    var xs := LobbyReaches(k - 1);
    var a := Accept(NameOf(k - 1));
    OneMoreTaken(Run(Init(), xs), k - 1);
    acts := xs + [a];
    RunOneMore(Init(), xs, a);
  }

  lemma {:induction false} RunOneMore(s: State, xs: seq<Action>, a: Action)
    requires WellFormed(s) && Legal(s, xs) && CanStep(Run(s, xs), a)
    ensures Legal(s, xs + [a]) && Run(s, xs + [a]) == Next(Run(s, xs), a)
    decreases |xs|
  {
    if xs == [] {
      assert xs + [a] == [a] && [a][1..] == [];
    } else {
      assert (xs + [a])[0] == xs[0] && (xs + [a])[1..] == xs[1..] + [a];
      RunOneMore(Next(s, xs[0]), xs[1..], a);
    }
  }
}
