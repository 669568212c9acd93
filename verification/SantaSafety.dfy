/** What every step of the Santa program keeps, and what follows for whole runs. */
module SantaSafety {
  import opened SantaModel

  function AwayCount(s: State): nat { multiset(s.reindeers)[Away] }

  function SeekingCount(s: State): nat { multiset(s.elves)[Seeking] }

  ghost predicate SantaAgrees(c: Config, s: State) {
    && (s.santaBusy <==> s.santa in {Delivering, Helping, Finished})
    && (s.santa == Delivering ==> s.waitingReindeers == c.reindeers)
    && (s.santa == Helping ==> s.waitingElves == c.elvesReq && s.workshop == Zeros(c.elvesReq))
    && (s.santa == Asleep ==> s.waitingReindeers < c.reindeers && s.waitingElves < c.elvesReq)
    && (s.locked <==> s.santa == Finished)
    && s.jobs <= c.maxJobs
    && (s.santa == Finished <==> s.jobs == c.maxJobs)
    && (s.santa == Finished ==> s.waitingReindeers == 0)
  }

  /** Every counted reindeer is inside its wait loop; none sleeps un-notified on a counter of zero. Before
      the first trip the reindeer inside are all counted. */
  ghost predicate ReindeersAgree(c: Config, s: State) {
    && 0 <= s.waitingReindeers
    && s.waitingReindeers + AwayCount(s) <= c.reindeers
    && (s.jobs == 0 ==> s.waitingReindeers + AwayCount(s) == c.reindeers)
    && (forall i :: 0 <= i < |s.reindeers| && s.reindeers[i] == Waiting ==> s.waitingReindeers > 0)
    && s.log.arrivals == c.reindeers * s.jobs + s.waitingReindeers
  }

  /** How many elves may sit un-notified in the wait for help: the counted ones, or only the last one
      once it has broadcast. */
  function SeekersExpected(c: Config, s: State): int {
    if s.waitingElves < c.elvesReq then s.waitingElves else 1
  }

  ghost predicate IsElf(c: Config, id: int) { 1 <= id <= c.elves }

  ghost predicate Distinct(ids: seq<int>) {
    forall k, l :: 0 <= k < l < |ids| ==> ids[k] != ids[l]
  }

  ghost predicate ElfIds(c: Config, ids: seq<int>) {
    forall k :: 0 <= k < |ids| ==> IsElf(c, ids[k])
  }

  ghost predicate ElvesAgree(c: Config, s: State)
    requires WellFormed(c, s)
  {
    && (forall j :: 0 <= j < |s.elves| && s.elves[j] == Deferred ==> s.waitingElves == c.elvesReq)
    && SeekingCount(s) <= SeekersExpected(c, s)
    && (s.santa != Helping ==> ElfIds(c, s.workshop[..s.waitingElves]))
    && s.log.admissions == c.elvesReq * s.log.helps + s.waitingElves
    && |s.log.helped| == s.log.helps + (if s.santa == Helping then 1 else 0)
  }

  /** The invariant of the program, spurious wake-ups included. */
  ghost predicate Inv(c: Config, s: State) {
    WellFormed(c, s) && SantaAgrees(c, s) && ReindeersAgree(c, s) && ElvesAgree(c, s)
  }

  ghost predicate SeeksHelp(s: State, id: int) {
    1 <= id <= |s.elves| && s.elves[id - 1] == Seeking
  }

  /** The ids in the workshop differ, until Santa clears it. */
  ghost predicate WorkshopDistinct(s: State)
    requires 0 <= s.waitingElves <= |s.workshop|
  {
    s.santa != Helping ==> Distinct(s.workshop[..s.waitingElves])
  }

  ghost predicate GroupsDistinct(c: Config, s: State) {
    forall g :: g in s.log.helped ==> |g| == c.elvesReq && Distinct(g) && ElfIds(c, g)
  }

  /** What holds in addition when no elf wakes spuriously in the wait for help. */
  ghost predicate Exact(c: Config, s: State)
    requires WellFormed(c, s)
  {
    && SeekingCount(s) == SeekersExpected(c, s)
    && WorkshopDistinct(s)
    && (s.waitingElves < c.elvesReq ==> forall k :: 0 <= k < s.waitingElves ==> SeeksHelp(s, s.workshop[k]))
    && (s.waitingElves == c.elvesReq && s.santa != Helping && 0 < c.elvesReq ==>
          SeeksHelp(s, s.workshop[c.elvesReq - 1]))
    && GroupsDistinct(c, s)
  }

  // ---------- Counting lemmas ----------

  lemma {:induction false} WakeKeepsAway(ps: seq<ReindeerPc>)
    ensures multiset(WakeReindeers(ps))[Away] == multiset(ps)[Away]
  {
    if ps != [] {
      var k := |ps| - 1;
      WakeKeepsAway(ps[..k]);
      assert ps == ps[..k] + [ps[k]];
      assert WakeReindeers(ps) == WakeReindeers(ps[..k]) + [WakeReindeer(ps[k])];
    }
  }

  lemma WakeLeavesNoSeeker(ps: seq<ElfPc>)
    ensures multiset(WakeElves(ps))[Seeking] == 0
  {
    assert forall p :: p in WakeElves(ps) ==> p != Seeking;
    assert Seeking !in multiset(WakeElves(ps));
  }

  lemma {:induction false} CountConstant<T>(n: nat, x: T, y: T)
    requires x != y
    ensures multiset(seq(n, _ => x))[x] == n && multiset(seq(n, _ => x))[y] == 0
  {
    if n > 0 {
      CountConstant(n - 1, x, y);
      assert seq(n, _ => x) == seq(n - 1, _ => x) + [x];
    }
  }

  lemma {:induction false} SomeoneElse<T>(ps: seq<T>, x: T) returns (j: nat)
    requires multiset(ps)[x] < |ps|
    ensures j < |ps| && ps[j] != x
  {
    var k := |ps| - 1;
    if ps[k] != x {
      return k;
    }
    assert ps == ps[..k] + [ps[k]];
    j := SomeoneElse(ps[..k], x);
  }

  // ---------- Preservation ----------

  lemma InitInv(c: Config)
    requires ValidConfig(c)
    ensures Inv(c, Init(c)) && Exact(c, Init(c))
  {
    CountConstant(c.reindeers, Away, Waiting);
    CountConstant(c.elves, Working, Seeking);
  }

  lemma AfterTripKeeps(c: Config, s: State)
    requires ValidConfig(c) && WellFormed(c, s) && ReindeersAgree(c, s) && ElvesAgree(c, s)
    requires s.santaBusy && !s.locked && s.santa in {Outside, Roused, Asleep, Delivering} && s.jobs <= c.maxJobs
    requires s.waitingReindeers < c.reindeers
    requires s.jobs == c.maxJobs ==> s.waitingReindeers == 0
    ensures Inv(c, AfterTrip(c, s))
    ensures Exact(c, s) ==> Exact(c, AfterTrip(c, s))
  {
    assert s.workshop[..|s.workshop|] == s.workshop;
  }

  lemma TripArithmetic(r: nat, jobs: nat)
    ensures r * (jobs + 1) == r * jobs + r
  {
  }

  lemma TripKeeps(c: Config, s: State)
    requires ValidConfig(c) && Inv(c, s) && CanStep(c, s, Santa) && s.santa == Delivering
    ensures Inv(c, Next(c, s, Santa))
    ensures Exact(c, s) ==> Exact(c, Next(c, s, Santa))
  {
    WakeKeepsAway(s.reindeers);
    TripArithmetic(c.reindeers, s.jobs);
    var s1 := s.(waitingReindeers := 0, jobs := s.jobs + 1, reindeers := WakeReindeers(s.reindeers));
    assert ReindeersAgree(c, s1);
    AfterTripKeeps(c, s1);
  }

  lemma HelpKeeps(c: Config, s: State)
    requires ValidConfig(c) && Inv(c, s) && CanStep(c, s, Santa) && s.santa == Helping
    ensures Inv(c, Next(c, s, Santa))
    ensures Exact(c, s) ==> Exact(c, Next(c, s, Santa))
  {
    WakeLeavesNoSeeker(s.elves);
    TripArithmetic(c.elvesReq, s.log.helps);
    assert Next(c, s, Santa).elves == WakeElves(s.elves);
  }

  lemma SantaKeeps(c: Config, s: State)
    requires ValidConfig(c) && Inv(c, s) && CanStep(c, s, Santa)
    ensures Inv(c, Next(c, s, Santa))
    ensures Exact(c, s) ==> Exact(c, Next(c, s, Santa))
  {
    if s.santa == Delivering {
      TripKeeps(c, s);
    } else if s.santa == Helping {
      HelpKeeps(c, s);
    } else if s.waitingReindeers < c.reindeers && s.waitingElves == c.elvesReq {
      var s1 := s.(santaBusy := true);
      assert ReindeersAgree(c, s1) && ElvesAgree(c, s1);
      AfterTripKeeps(c, s1);
    }
  }

  lemma ArriveKeeps(c: Config, s: State, i: nat)
    requires ValidConfig(c) && Inv(c, s) && CanStep(c, s, Reindeer(i)) && s.reindeers[i] == Away
    ensures Inv(c, Next(c, s, Reindeer(i)))
  {
    WakeKeepsAway(s.reindeers);
    assert s.reindeers[i] in multiset(s.reindeers);
    assert WakeReindeers(s.reindeers)[i] == Away;
  }

  lemma RecheckKeeps(c: Config, s: State, i: nat)
    requires ValidConfig(c) && Inv(c, s) && CanStep(c, s, Reindeer(i)) && s.reindeers[i] != Away
    ensures Inv(c, Next(c, s, Reindeer(i)))
  {
    assert s.reindeers[i] in multiset(s.reindeers);
    if s.waitingReindeers == 0 {
      OneMoreAway(s.reindeers, i);
    }
  }

  /** A reindeer inside its loop leaves room for one more outside. */
  lemma OneMoreAway(ps: seq<ReindeerPc>, i: nat)
    requires i < |ps| && ps[i] != Away
    ensures multiset(ps[i := Away])[Away] == multiset(ps)[Away] + 1 <= |ps|
  {
    assert |multiset(ps[i := Away])| == |ps|;
  }

  lemma ReindeerKeeps(c: Config, s: State, i: nat)
    requires ValidConfig(c) && Inv(c, s) && CanStep(c, s, Reindeer(i))
    ensures Inv(c, Next(c, s, Reindeer(i)))
    ensures Exact(c, s) ==> Exact(c, Next(c, s, Reindeer(i)))
  {
    if s.reindeers[i] == Away {
      ArriveKeeps(c, s, i);
    } else {
      RecheckKeeps(c, s, i);
    }
    if Exact(c, s) {
      SameElves(c, s, Next(c, s, Reindeer(i)));
    }
  }

  lemma SameElves(c: Config, s: State, r: State)
    requires WellFormed(c, s) && WellFormed(c, r) && Exact(c, s)
    requires r.elves == s.elves && r.workshop == s.workshop && r.waitingElves == s.waitingElves
    requires r.log.helped == s.log.helped && (r.santa == Helping <==> s.santa == Helping)
    ensures Exact(c, r)
  {
  }

  lemma AdmitKeepsInv(c: Config, s: State, j: nat)
    requires ValidConfig(c) && Inv(c, s) && CanStep(c, s, Elf(j))
    requires s.elves[j] != Seeking && s.elves[j] != SeekingWoken && s.waitingElves < c.elvesReq
    ensures Inv(c, Admit(c, s, j))
    ensures SeekingCount(s) == SeekersExpected(c, s) ==>
              SeekingCount(Admit(c, s, j)) == SeekersExpected(c, Admit(c, s, j))
  {
    var r := Admit(c, s, j);
    WakeLeavesNoSeeker(s.elves);
    assert WakeElves(s.elves)[j] in multiset(WakeElves(s.elves));
    assert r.workshop[..r.waitingElves] == s.workshop[..s.waitingElves] + [ElfId(j)];
  }

  /** A new entry differs from the old ones: they all belong to elves that are still parked. */
  lemma AdmitKeepsExact(c: Config, s: State, j: nat)
    requires ValidConfig(c) && Inv(c, s) && CanStep(c, s, Elf(j)) && Exact(c, s)
    requires s.elves[j] != Seeking && s.elves[j] != SeekingWoken && s.waitingElves < c.elvesReq
    ensures Exact(c, Admit(c, s, j))
  {
    AdmitKeepsInv(c, s, j);
    var r := Admit(c, s, j);
    assert r.workshop[..r.waitingElves] == s.workshop[..s.waitingElves] + [ElfId(j)];
    forall k | 0 <= k < s.waitingElves
      ensures s.workshop[k] != ElfId(j)
    {
      assert SeeksHelp(s, s.workshop[k]);
    }
    assert s.santa != Helping;
    assert WorkshopDistinct(r);
  }

  /** An elf that leaves the wait for help, or defers, touches nothing but its own position. */
  lemma MoveKeeps(c: Config, s: State, j: nat, p: ElfPc)
    requires ValidConfig(c) && Inv(c, s) && j < |s.elves|
    requires p == Working || (p == Deferred && s.waitingElves == c.elvesReq)
    ensures Inv(c, s.(elves := s.elves[j := p]))
    ensures Exact(c, s) && s.elves[j] != Seeking ==> Exact(c, s.(elves := s.elves[j := p]))
  {
    assert s.elves[j] in multiset(s.elves);
    var r := s.(elves := s.elves[j := p]);
    assert SeekingCount(r) <= SeekingCount(s);
    if Exact(c, s) && s.elves[j] != Seeking {
      assert SeekingCount(r) == SeekingCount(s);
      forall id | SeeksHelp(s, id)
        ensures SeeksHelp(r, id)
      {
      }
    }
  }

  lemma ElfKeeps(c: Config, s: State, j: nat)
    requires ValidConfig(c) && Inv(c, s) && CanStep(c, s, Elf(j))
    ensures Inv(c, Next(c, s, Elf(j)))
    ensures Exact(c, s) && !c.spuriousHelp ==> Exact(c, Next(c, s, Elf(j)))
  {
    if s.elves[j] == Seeking || s.elves[j] == SeekingWoken {
      MoveKeeps(c, s, j, Working);
    } else if s.waitingElves == c.elvesReq {
      MoveKeeps(c, s, j, Deferred);
    } else {
      AdmitKeepsInv(c, s, j);
      if Exact(c, s) {
        AdmitKeepsExact(c, s, j);
      }
    }
  }

  lemma Keeps(c: Config, s: State, a: Action)
    requires ValidConfig(c) && Inv(c, s) && CanStep(c, s, a)
    ensures Inv(c, Next(c, s, a))
    ensures Exact(c, s) && !c.spuriousHelp ==> Exact(c, Next(c, s, a))
  {
    match a
    case Santa => SantaKeeps(c, s);
    case Reindeer(i) => ReindeerKeeps(c, s, i);
    case Elf(j) => ElfKeeps(c, s, j);
  }

  lemma {:induction false} RunKeeps(c: Config, s: State, acts: seq<Action>)
    requires ValidConfig(c) && Inv(c, s) && Legal(c, s, acts)
    ensures Inv(c, Run(c, s, acts))
    ensures Exact(c, s) && !c.spuriousHelp ==> Exact(c, Run(c, s, acts))
    decreases |acts|
  {
    if acts != [] {
      Keeps(c, s, acts[0]);
      RunKeeps(c, Next(c, s, acts[0]), acts[1..]);
    }
  }
}
