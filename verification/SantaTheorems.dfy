/** Statements about every run of the Santa program from its initial state. */
module SantaTheorems {
  import opened SantaModel
  import opened SantaSafety
  import opened SantaProgress

  /** No lost wake-up: whoever sleeps un-notified still has a reason to sleep. */
  lemma NoLostWakeup(c: Config, acts: seq<Action>)
    requires ValidConfig(c) && Legal(c, Init(c), acts)
    ensures var s := Run(c, Init(c), acts);
            && (s.santa == Asleep ==> s.waitingReindeers < c.reindeers && s.waitingElves < c.elvesReq)
            && (forall i :: 0 <= i < |s.reindeers| && s.reindeers[i] == Waiting ==> s.waitingReindeers > 0)
            && (forall j :: 0 <= j < |s.elves| && s.elves[j] == Deferred ==> s.waitingElves == c.elvesReq)
  {
    InitInv(c);
    RunKeeps(c, Init(c), acts);
  }

  /** No deadlock before Santa finishes; and once he has, no thread ever gets the mutex again, because he
      leaves the synchronized block by `break`. */
  lemma NoDeadlock(c: Config, acts: seq<Action>)
    requires ValidConfig(c) && Legal(c, Init(c), acts)
    ensures var s := Run(c, Init(c), acts);
            && (Unfinished(s) ==> exists a :: Ready(c, s, a))
            && (!Unfinished(s) ==> forall a :: !CanStep(c, s, a))
  {
    InitInv(c);
    RunKeeps(c, Init(c), acts);
    var s := Run(c, Init(c), acts);
    if Unfinished(s) {
      var a := SomeThreadReady(c, s);
    }
  }

  /** Arrivals and admissions are accounted for, and Santa finishes after exactly the quota of arrivals
      for each of his trips. */
  lemma Accounting(c: Config, acts: seq<Action>)
    requires ValidConfig(c) && Legal(c, Init(c), acts)
    ensures var s := Run(c, Init(c), acts);
            && s.log.arrivals == c.reindeers * s.jobs + s.waitingReindeers
            && s.log.admissions == c.elvesReq * s.log.helps + s.waitingElves
            && 0 <= s.waitingReindeers <= c.reindeers && 0 <= s.waitingElves <= c.elvesReq
            && (s.santa == Finished ==> s.log.arrivals == c.reindeers * c.maxJobs)
  {
    InitInv(c);
    RunKeeps(c, Init(c), acts);
  }

  /** While Santa is away with the mutex released, nothing the other threads do changes the counter he
      relies on when he comes back. */
  lemma {:induction false} CountersFrozen(c: Config, s: State, acts: seq<Action>)
    requires ValidConfig(c) && Inv(c, s) && Legal(c, s, acts) && Santa !in acts
    ensures s.santa == Delivering ==>
              Run(c, s, acts).santa == Delivering && Run(c, s, acts).waitingReindeers == c.reindeers
    ensures s.santa == Helping ==>
              Run(c, s, acts).santa == Helping && Run(c, s, acts).waitingElves == c.elvesReq
              && Run(c, s, acts).workshop == Zeros(c.elvesReq)
    decreases |acts|
  {
    if acts != [] {
      Keeps(c, s, acts[0]);
      CountersFrozen(c, Next(c, s, acts[0]), acts[1..]);
    }
  }

  /** Exact elf accounting when no elf wakes spuriously in the wait for help. */
  lemma ElfAccounting(c: Config, acts: seq<Action>)
    requires ValidConfig(c) && !c.spuriousHelp && Legal(c, Init(c), acts)
    ensures var s := Run(c, Init(c), acts);
            && SeekingCount(s) == (if s.waitingElves < c.elvesReq then s.waitingElves else 1)
            && WorkshopDistinct(s)
            && forall g :: g in s.log.helped ==> |g| == c.elvesReq && Distinct(g) && ElfIds(c, g)
  {
    InitInv(c);
    RunKeeps(c, Init(c), acts);
  }

  /** With spurious wake-ups the count can only be lower. */
  lemma ElfAccountingSpurious(c: Config, acts: seq<Action>)
    requires ValidConfig(c) && Legal(c, Init(c), acts)
    ensures var s := Run(c, Init(c), acts);
            SeekingCount(s) <= (if s.waitingElves < c.elvesReq then s.waitingElves else 1)
  {
    InitInv(c);
    RunKeeps(c, Init(c), acts);
  }

  ghost predicate AlwaysDistinct(c: Config) {
    forall acts :: Legal(c, Init(c), acts) ==> WorkshopDistinct(Run(c, Init(c), acts))
  }

  lemma RunOne(c: Config, s: State, a: Action)
    requires WellFormed(c, s) && CanStep(c, s, a)
    ensures Legal(c, s, [a]) && Run(c, s, [a]) == Next(c, s, a)
  {
    assert [a][1..] == [];
  }

  /** The elves in the workshop are always different exactly when the unguarded wait never returns
      spuriously, or one elf fills the workshop. */
  lemma AlwaysDistinctIff(c: Config)
    requires ValidConfig(c)
    ensures AlwaysDistinct(c) <==> !c.spuriousHelp || c.elvesReq == 1
  {
    if !c.spuriousHelp {
      forall acts | Legal(c, Init(c), acts)
        ensures WorkshopDistinct(Run(c, Init(c), acts))
      {
        ElfAccounting(c, acts);
      }
    } else if c.elvesReq >= 2 {
      // Elf 0 is admitted, wakes spuriously, goes back to work and is admitted again.
      var e := Elf(0);
      var s1 := Next(c, Init(c), e);
      var s2 := Next(c, s1, e);
      var s3 := Next(c, s2, e);
      RunOne(c, Init(c), e);
      RunOne(c, s1, e);
      RunOne(c, s2, e);
      RunAppend(c, Init(c), [e], [e]);
      RunAppend(c, Init(c), [e] + [e], [e]);
      assert s3 == Run(c, Init(c), [e] + [e] + [e]);
      var ids := s3.workshop[..s3.waitingElves];
      assert ids[0] == 1 && ids[1] == 1;
    }
  }

  /** Every counted elf is still in the wait for help (it may have been notified). */
  ghost predicate CountedElvesWait(s: State)
    requires 0 <= s.waitingElves <= |s.workshop|
  {
    s.santa != Helping ==>
      forall k :: 0 <= k < s.waitingElves && 1 <= s.workshop[k] <= |s.elves| ==>
        s.elves[s.workshop[k] - 1] in {Seeking, SeekingWoken}
  }

  ghost predicate ElvesAlwaysWait(c: Config) {
    forall acts :: Legal(c, Init(c), acts) ==> CountedElvesWait(Run(c, Init(c), acts))
  }

  lemma OneElfWaits(c: Config, s: State)
    requires WellFormed(c, s) && Exact(c, s) && c.elvesReq == 1
    ensures CountedElvesWait(s)
  {
  }

  /** Elf 0 is admitted, and wakes spuriously. */
  lemma WakesEarly(c: Config)
    requires ValidConfig(c) && c.spuriousHelp
    ensures !ElvesAlwaysWait(c)
  {
    var e := Elf(0);
    var s1 := Next(c, Init(c), e);
    var s2 := Next(c, s1, e);
    RunOne(c, Init(c), e);
    RunOne(c, s1, e);
    RunAppend(c, Init(c), [e], [e]);
    assert s2 == Run(c, Init(c), [e] + [e]);
    assert s2.workshop[0] == 1 && s2.elves[0] == Working;
    assert !CountedElvesWait(s2);
  }

  /** An elf can leave before Santa has helped: the last elf's broadcast releases the earlier ones, and so does a
      spurious wake-up. The counted elves stay until Santa comes exactly when the workshop holds one and the
      unguarded wait never returns spuriously. */
  lemma ElvesAlwaysWaitIff(c: Config)
    requires ValidConfig(c)
    ensures ElvesAlwaysWait(c) <==> c.elvesReq == 1 && !c.spuriousHelp
  {
    InitInv(c);
    if c.spuriousHelp {
      WakesEarly(c);
    } else if c.elvesReq == 1 {
      forall acts | Legal(c, Init(c), acts)
        ensures CountedElvesWait(Run(c, Init(c), acts))
      {
        RunKeeps(c, Init(c), acts);
        OneElfWaits(c, Run(c, Init(c), acts));
      }
    } else {
      var acts, t := FillWorkshop(c, Init(c));
      ReachKeeps(c, Init(c), acts, t);
      LeaveEarly(c, acts, t);
    }
  }

  lemma LeaveEarly(c: Config, acts: seq<Action>, t: State)
    requires ValidConfig(c) && !c.spuriousHelp && c.elvesReq >= 2
    requires Reaches(c, Init(c), acts, t) && Inv(c, t) && Exact(c, t)
    requires t.waitingElves == c.elvesReq && Unfinished(t) && t.log.helped == []
    ensures !ElvesAlwaysWait(c)
  {
    assert t.santa != Helping;
    var ids := t.workshop[..t.waitingElves];
    var j := ids[0] - 1;
    assert IsElf(c, ids[0]);
    if t.elves[j] in {Seeking, SeekingWoken} {
      OneSeeker(t.elves, j, ids[c.elvesReq - 1] - 1);
      FirstLeaves(c, acts, t, j);
    } else {
      assert t.workshop[0] == j + 1;
      assert !CountedElvesWait(t);
    }
  }

  lemma FirstLeaves(c: Config, acts: seq<Action>, t: State, j: nat)
    requires ValidConfig(c) && Reaches(c, Init(c), acts, t) && WellFormed(c, t) && Unfinished(t) && !t.locked
    requires t.santa != Helping && t.waitingElves >= 1 && t.workshop[0] == j + 1
    requires j < |t.elves| && t.elves[j] == SeekingWoken
    ensures !ElvesAlwaysWait(c)
  {
    var u := Next(c, t, Elf(j));
    ReachOne(c, t, Elf(j));
    ReachMore(c, Init(c), acts, t, [Elf(j)], u);
    assert u.workshop[0] == j + 1 && u.elves[j] == Working;
    assert !CountedElvesWait(u);
    assert u == Run(c, Init(c), acts + [Elf(j)]);
  }

  /** Where one elf is counted as seeking help, another position cannot be. */
  lemma OneSeeker(ps: seq<ElfPc>, j: nat, k: nat)
    requires j < |ps| && k < |ps| && j != k && ps[k] == Seeking && multiset(ps)[Seeking] == 1
    ensures ps[j] != Seeking
  {
    var rest := ps[k := Working];
    assert multiset(rest)[Seeking] == 0;
    assert rest[j] in multiset(rest);
  }

  /** With nine reindeer, ten elves, a quota of three and three trips: reindeer can be stranded, and the elves in
      the workshop are distinct only as long as line 155 never wakes spuriously. */
  lemma ProgramCounts()
    ensures ValidConfig(PROGRAM) && !AlwaysCanFinish(PROGRAM)
    ensures AlwaysDistinct(PROGRAM) && !AlwaysDistinct(PROGRAM.(spuriousHelp := true))
    ensures !ElvesAlwaysWait(PROGRAM)
  {
    AlwaysCanFinishIff(PROGRAM);
    AlwaysDistinctIff(PROGRAM);
    AlwaysDistinctIff(PROGRAM.(spuriousHelp := true));
    ElvesAlwaysWaitIff(PROGRAM);
  }
}
