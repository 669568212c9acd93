/** What can and what cannot still happen in the Santa program: no deadlock, elves are never shut out,
    but reindeer can be stranded so that Santa never finishes. */
module SantaProgress {
  import opened SantaModel
  import opened SantaSafety

  ghost predicate Unfinished(s: State) { s.santa != Finished }

  /** Some reindeer sits in its wait loop without being counted while the counter is above zero. It cannot
      leave, and so the counter cannot reach the quota. */
  ghost predicate Stranded(c: Config, s: State) {
    0 < s.waitingReindeers && s.waitingReindeers + AwayCount(s) < c.reindeers
  }

  // ---------- No deadlock ----------

  /** Before Santa has finished some thread can step, and it needs no spurious wake-up. */
  lemma SomeThreadReady(c: Config, s: State) returns (a: Action)
    requires ValidConfig(c) && Inv(c, s) && Unfinished(s)
    ensures Ready(c, s, a)
  {
    if s.santa != Asleep {
      return Santa;
    }
    var j := SomeoneElse(s.elves, Seeking);
    return Elf(j);
  }

  // ---------- Building runs ----------

  /** One prompt step in front of a prompt run. */
  lemma Prepend(c: Config, s: State, a: Action, acts: seq<Action>)
    requires WellFormed(c, s) && Ready(c, s, a) && Prompt(c, Next(c, s, a), acts)
    ensures Prompt(c, s, [a] + acts) && Legal(c, s, [a] + acts)
    ensures Legal(c, Next(c, s, a), acts) && Run(c, s, [a] + acts) == Run(c, Next(c, s, a), acts)
  {
    assert ([a] + acts)[1..] == acts;
    PromptIsLegal(c, s, [a] + acts);
    PromptIsLegal(c, Next(c, s, a), acts);
  }

  /** A prompt run from `s` that ends in `t`. */
  ghost predicate Reaches(c: Config, s: State, acts: seq<Action>, t: State)
    requires WellFormed(c, s)
  {
    Prompt(c, s, acts) && Legal(c, s, acts) && Run(c, s, acts) == t
  }

  lemma ReachOne(c: Config, s: State, a: Action)
    requires WellFormed(c, s) && Ready(c, s, a)
    ensures Reaches(c, s, [a], Next(c, s, a))
  {
    Prepend(c, s, a, []);
  }

  lemma ReachMore(c: Config, s: State, xs: seq<Action>, t: State, ys: seq<Action>, u: State)
    requires WellFormed(c, s) && WellFormed(c, t)
    requires Reaches(c, s, xs, t) && Reaches(c, t, ys, u)
    ensures Reaches(c, s, xs + ys, u)
  {
    RunAppend(c, s, xs, ys);
  }

  lemma ReachKeeps(c: Config, s: State, acts: seq<Action>, t: State)
    requires ValidConfig(c) && Inv(c, s) && Reaches(c, s, acts, t)
    ensures Inv(c, t)
    ensures Exact(c, s) && !c.spuriousHelp ==> Exact(c, t)
  {
    RunKeeps(c, s, acts);
  }

  // ---------- A delivery is possible unless reindeer are stranded ----------

  /** With the counter at zero every reindeer can leave its wait loop. */
  lemma {:induction false} GoOut(c: Config, s: State) returns (acts: seq<Action>, t: State)
    requires ValidConfig(c) && Inv(c, s) && Unfinished(s) && s.waitingReindeers == 0
    ensures Reaches(c, s, acts, t) && Inv(c, t)
    ensures t.waitingReindeers == 0 && AwayCount(t) == c.reindeers && Unfinished(t) && t.jobs == s.jobs
    decreases c.reindeers - AwayCount(s)
  {
    if AwayCount(s) == c.reindeers {
      return [], s;
    }
    var i := SomeoneElse(s.reindeers, Away);
    var a := Reindeer(i);
    Keeps(c, s, a);
    acts, t := GoOut(c, Next(c, s, a));
    Prepend(c, s, a, acts);
    acts := [a] + acts;
  }

  /** With everyone inside counted, the others can arrive. */
  lemma {:induction false} Gather(c: Config, s: State) returns (acts: seq<Action>, t: State)
    requires ValidConfig(c) && Inv(c, s) && Unfinished(s)
    requires s.waitingReindeers + AwayCount(s) == c.reindeers
    ensures Reaches(c, s, acts, t) && Inv(c, t)
    ensures t.waitingReindeers == c.reindeers && Unfinished(t) && t.jobs == s.jobs
    decreases c.reindeers - s.waitingReindeers
  {
    if s.waitingReindeers == c.reindeers {
      return [], s;
    }
    assert Away in multiset(s.reindeers);
    var i :| 0 <= i < |s.reindeers| && s.reindeers[i] == Away;
    var a := Reindeer(i);
    Keeps(c, s, a);
    WakeKeepsAway(s.reindeers);
    acts, t := Gather(c, Next(c, s, a));
    Prepend(c, s, a, acts);
    acts := [a] + acts;
  }

  /** With all reindeer gathered Santa makes the trip. */
  lemma Depart(c: Config, s: State) returns (acts: seq<Action>, t: State)
    requires ValidConfig(c) && Inv(c, s) && Unfinished(s) && s.waitingReindeers == c.reindeers
    ensures Reaches(c, s, acts, t) && Inv(c, t)
    ensures t.jobs == s.jobs + 1 && t.waitingReindeers == 0 && AwayCount(t) == 0
    decreases s.santa == Helping, s.santa != Delivering
  {
    Keeps(c, s, Santa);
    var s1 := Next(c, s, Santa);
    if s.santa == Delivering {
      WakeKeepsAway(s.reindeers);
      ReachOne(c, s, Santa);
      return [Santa], s1;
    }
    acts, t := Depart(c, s1);
    Prepend(c, s, Santa, acts);
    acts := [Santa] + acts;
  }

  lemma Deliver(c: Config, s: State) returns (acts: seq<Action>, t: State)
    requires ValidConfig(c) && Inv(c, s) && Unfinished(s) && !Stranded(c, s)
    ensures Reaches(c, s, acts, t) && Inv(c, t)
    ensures t.jobs == s.jobs + 1 && t.waitingReindeers == 0 && AwayCount(t) == 0
  {
    var s1 := s;
    acts := [];
    if s.waitingReindeers == 0 {
      acts, s1 := GoOut(c, s);
    }
    var ys, s2 := Gather(c, s1);
    ReachMore(c, s, acts, s1, ys, s2);
    var zs, s3 := Depart(c, s2);
    ReachMore(c, s, acts + ys, s2, zs, s3);
    acts, t := acts + ys + zs, s3;
  }

  lemma StrandedStep(c: Config, s: State, a: Action)
    requires ValidConfig(c) && Inv(c, s) && Stranded(c, s) && CanStep(c, s, a)
    ensures Stranded(c, Next(c, s, a)) && Next(c, s, a).jobs == s.jobs && Unfinished(Next(c, s, a))
  {
  }

  /** Once reindeer are stranded, no run whatever, with or without spurious wake-ups, makes another trip. */
  lemma {:induction false} StrandedForever(c: Config, s: State, acts: seq<Action>)
    requires ValidConfig(c) && Inv(c, s) && Unfinished(s) && Stranded(c, s) && Legal(c, s, acts)
    ensures Stranded(c, Run(c, s, acts)) && Run(c, s, acts).jobs == s.jobs && Unfinished(Run(c, s, acts))
    decreases |acts|
  {
    if acts != [] {
      Keeps(c, s, acts[0]);
      StrandedStep(c, s, acts[0]);
      StrandedForever(c, Next(c, s, acts[0]), acts[1..]);
    }
  }

  /** Santa can still make a trip. */
  ghost predicate TripPossible(c: Config, s: State)
    requires WellFormed(c, s)
  {
    exists acts :: Legal(c, s, acts) && Run(c, s, acts).jobs > s.jobs
  }

  /** In every state the invariant allows: another trip is possible exactly when no reindeer is stranded. */
  lemma TripPossibleIff(c: Config, s: State)
    requires ValidConfig(c) && Inv(c, s) && Unfinished(s)
    ensures TripPossible(c, s) <==> !Stranded(c, s)
  {
    if Stranded(c, s) {
      forall acts | Legal(c, s, acts)
        ensures Run(c, s, acts).jobs == s.jobs
      {
        StrandedForever(c, s, acts);
      }
    } else {
      var acts, t := Deliver(c, s);
    }
  }

  // ---------- Can Santa always finish? ----------

  ghost predicate CanFinish(c: Config, s: State)
    requires WellFormed(c, s)
  {
    exists acts :: Legal(c, s, acts) && !Unfinished(Run(c, s, acts))
  }

  /** Every state a run can reach still allows Santa to finish his work. */
  ghost predicate AlwaysCanFinish(c: Config) {
    forall acts :: Legal(c, Init(c), acts) ==> CanFinish(c, Run(c, Init(c), acts))
  }

  lemma {:induction false} FinishFrom(c: Config, s: State) returns (acts: seq<Action>, t: State)
    requires ValidConfig(c) && Inv(c, s)
    requires c.reindeers == 1 || c.maxJobs == 1
    ensures Reaches(c, s, acts, t) && !Unfinished(t)
    decreases c.maxJobs - s.jobs
  {
    if !Unfinished(s) {
      return [], s;
    }
    var xs, s1 := Deliver(c, s);
    acts, t := FinishFrom(c, s1);
    ReachMore(c, s, xs, s1, acts, t);
    acts := xs + acts;
  }

  /** With two reindeer and two trips to make: the first reindeer back from the first trip arrives again
      before the others have noticed that they may go. */
  lemma StrandedReachable(c: Config) returns (acts: seq<Action>, t: State)
    requires ValidConfig(c) && c.reindeers >= 2 && c.maxJobs >= 2
    ensures Reaches(c, Init(c), acts, t) && Inv(c, t) && Stranded(c, t) && Unfinished(t)
  {
    InitInv(c);
    CountConstant(c.reindeers, Away, Waiting);
    var xs, s1 := Deliver(c, Init(c));
    var a := Reindeer(0);
    assert s1.reindeers[0] in multiset(s1.reindeers);
    Keeps(c, s1, a);
    var s2 := Next(c, s1, a);
    Keeps(c, s2, a);
    t := Next(c, s2, a);
    ReachOne(c, s2, a);
    ReachOne(c, s1, a);
    ReachMore(c, s1, [a], s2, [a], t);
    ReachMore(c, Init(c), xs, s1, [a] + [a], t);
    acts := xs + ([a] + [a]);
  }

  /** Santa is certain to keep a way to finish exactly when there is one reindeer or one trip. With the
      program's own counts (nine and three) he can be left waiting for ever. */
  lemma AlwaysCanFinishIff(c: Config)
    requires ValidConfig(c)
    ensures AlwaysCanFinish(c) <==> c.reindeers == 1 || c.maxJobs == 1
  {
    InitInv(c);
    if c.reindeers == 1 || c.maxJobs == 1 {
      forall acts | Legal(c, Init(c), acts)
        ensures CanFinish(c, Run(c, Init(c), acts))
      {
        RunKeeps(c, Init(c), acts);
        var more, t := FinishFrom(c, Run(c, Init(c), acts));
      }
    } else {
      var acts, t := StrandedReachable(c);
      forall more | Legal(c, t, more)
        ensures Unfinished(Run(c, t, more))
      {
        StrandedForever(c, t, more);
      }
      assert !CanFinish(c, Run(c, Init(c), acts));
    }
  }

  // ---------- Elves are never shut out ----------

  /** The workshop can always be filled. */
  lemma {:induction false} FillWorkshop(c: Config, s: State) returns (acts: seq<Action>, t: State)
    requires ValidConfig(c) && Inv(c, s) && Unfinished(s)
    ensures Reaches(c, s, acts, t) && Inv(c, t)
    ensures t.waitingElves == c.elvesReq && Unfinished(t) && t.log.helped == s.log.helped && t.jobs == s.jobs
    ensures t.log.helps == s.log.helps && t.waitingReindeers == s.waitingReindeers
    ensures t.santa == s.santa || (s.santa == Asleep && t.santa == Roused)
    decreases c.elvesReq - s.waitingElves, multiset(s.elves)[SeekingWoken]
  {
    if s.waitingElves == c.elvesReq {
      return [], s;
    }
    var j := SomeoneElse(s.elves, Seeking);
    var a := Elf(j);
    assert s.elves[j] in multiset(s.elves);
    Keeps(c, s, a);
    acts, t := FillWorkshop(c, Next(c, s, a));
    Prepend(c, s, a, acts);
    acts := [a] + acts;
  }

  /** Santa is bound to make his last trip before he sees to the elves again. */
  ghost predicate LastTripNext(c: Config, s: State) {
    s.waitingReindeers == c.reindeers && s.jobs + 1 == c.maxJobs && s.santa != Helping
  }

  /** With a full workshop Santa helps, unless the trip he owes first is his last. */
  lemma {:induction false} SeeToElves(c: Config, s: State) returns (acts: seq<Action>, t: State)
    requires ValidConfig(c) && Inv(c, s) && Unfinished(s) && s.waitingElves == c.elvesReq && !LastTripNext(c, s)
    ensures Reaches(c, s, acts, t) && t.log.helps > s.log.helps
    decreases c.maxJobs - s.jobs, s.santa != Helping, s.santa != Delivering
  {
    Keeps(c, s, Santa);
    var s1 := Next(c, s, Santa);
    if s.santa == Helping {
      ReachOne(c, s, Santa);
      return [Santa], s1;
    }
    acts, t := SeeToElves(c, s1);
    Prepend(c, s, Santa, acts);
    acts := [Santa] + acts;
  }

  lemma Help(c: Config, s: State) returns (acts: seq<Action>, t: State)
    requires ValidConfig(c) && Inv(c, s) && Unfinished(s) && !LastTripNext(c, s)
    ensures Reaches(c, s, acts, t) && t.log.helps > s.log.helps
  {
    var xs, s1 := FillWorkshop(c, s);
    var ys, s2 := SeeToElves(c, s1);
    ReachMore(c, s, xs, s1, ys, s2);
    acts, t := xs + ys, s2;
  }

  lemma LastTripStep(c: Config, s: State, a: Action)
    requires ValidConfig(c) && Inv(c, s) && Unfinished(s) && LastTripNext(c, s) && CanStep(c, s, a)
    ensures Next(c, s, a).log.helps == s.log.helps
    ensures Unfinished(Next(c, s, a)) ==> LastTripNext(c, Next(c, s, a))
  {
  }

  /** After that nobody is helped any more. */
  lemma {:induction false} NoMoreHelp(c: Config, s: State, acts: seq<Action>)
    requires ValidConfig(c) && Inv(c, s) && Legal(c, s, acts) && (Unfinished(s) ==> LastTripNext(c, s))
    ensures Run(c, s, acts).log.helps == s.log.helps
    decreases |acts|
  {
    if acts != [] {
      Keeps(c, s, acts[0]);
      LastTripStep(c, s, acts[0]);
      NoMoreHelp(c, Next(c, s, acts[0]), acts[1..]);
    }
  }

  /** Another group of elves can be helped. */
  ghost predicate HelpPossible(c: Config, s: State)
    requires WellFormed(c, s)
  {
    exists acts :: Legal(c, s, acts) && Run(c, s, acts).log.helps > s.log.helps
  }

  /** From every state, stranded reindeer or not, another group of elves can still be helped, exactly unless the
      reindeer have gathered for Santa's last trip and he is not already with the elves. */
  lemma HelpPossibleIff(c: Config, s: State)
    requires ValidConfig(c) && Inv(c, s) && Unfinished(s)
    ensures HelpPossible(c, s) <==> !LastTripNext(c, s)
  {
    if LastTripNext(c, s) {
      forall acts | Legal(c, s, acts)
        ensures Run(c, s, acts).log.helps == s.log.helps
      {
        NoMoreHelp(c, s, acts);
      }
    } else {
      var acts, t := Help(c, s);
    }
  }
}
