/** Whom Santa serves first, and who wakes whom. */
module SantaOrder {
  import opened SantaModel
  import opened SantaSafety

  // ---------- Reindeer before elves ----------

  /** All reindeer are counted, and Santa is not with the elves. */
  ghost predicate TripDue(c: Config, s: State) {
    s.waitingReindeers == c.reindeers && s.santa != Helping && s.santa != Finished
  }

  lemma TripDueStep(c: Config, s: State, a: Action)
    requires ValidConfig(c) && Inv(c, s) && TripDue(c, s) && CanStep(c, s, a)
    ensures var r := Next(c, s, a);
            if r.jobs == s.jobs then TripDue(c, r) && r.log.helps == s.log.helps && r.log.helped == s.log.helped
            else r.jobs == s.jobs + 1 && s.santa == Delivering && a == Santa
  {
    if a.Reindeer? {
      assert s.reindeers[a.i] in multiset(s.reindeers);
    }
  }

  lemma {:induction false} JobsGrow(c: Config, s: State, acts: seq<Action>)
    requires WellFormed(c, s) && Legal(c, s, acts)
    ensures Run(c, s, acts).jobs >= s.jobs
    decreases |acts|
  {
    if acts != [] {
      JobsGrow(c, Next(c, s, acts[0]), acts[1..]);
    }
  }

  /** With all reindeer counted, and Santa not with the elves, nobody is helped before the trip is made. */
  lemma {:induction false} TripBeforeHelp(c: Config, s: State, acts: seq<Action>)
    requires ValidConfig(c) && Inv(c, s) && TripDue(c, s) && Legal(c, s, acts)
    requires Run(c, s, acts).jobs == s.jobs
    ensures var r := Run(c, s, acts);
            TripDue(c, r) && r.log.helps == s.log.helps && r.log.helped == s.log.helped
    decreases |acts|
  {
    if acts != [] {
      var r := Next(c, s, acts[0]);
      TripDueStep(c, s, acts[0]);
      Keeps(c, s, acts[0]);
      JobsGrow(c, r, acts[1..]);
      TripBeforeHelp(c, r, acts[1..]);
    }
  }

  /** Back from a trip, Santa is done if it was the last one; otherwise he goes straight to the elves exactly if
      they fill the workshop, and those are the ones he helps. */
  lemma HelpAfterTrip(c: Config, s: State)
    requires ValidConfig(c) && Inv(c, s) && s.santa == Delivering && CanStep(c, s, Santa)
    ensures var r := Next(c, s, Santa);
            && r.jobs == s.jobs + 1 && r.waitingReindeers == 0
            && (r.santa == Finished <==> s.jobs + 1 == c.maxJobs)
            && (r.santa == Helping <==> s.jobs + 1 < c.maxJobs && s.waitingElves == c.elvesReq)
            && (r.santa == Helping ==> r.log.helped == s.log.helped + [s.workshop])
  {
  }

  /** Santa sets out, or goes to the elves, or sleeps, exactly as the counters say. */
  lemma SantaChooses(c: Config, s: State)
    requires ValidConfig(c) && Inv(c, s) && s.santa in {Outside, Asleep, Roused} && CanStep(c, s, Santa)
    ensures var r := Next(c, s, Santa);
            && (r.santa == Delivering <==> s.waitingReindeers == c.reindeers)
            && (r.santa == Helping <==> s.waitingReindeers < c.reindeers && s.waitingElves == c.elvesReq)
            && (r.santa == Asleep <==> s.waitingReindeers < c.reindeers && s.waitingElves < c.elvesReq)
            && (r.santa == Helping ==> r.log.helped == s.log.helped + [s.workshop])
  {
  }

  // ---------- Who is counted, and who wakes whom ----------

  ghost predicate LastArrives(c: Config, s: State, r: State) {
    s.waitingReindeers < c.reindeers == r.waitingReindeers
  }

  ghost predicate TripEnds(s: State, r: State) { s.jobs < r.jobs }

  ghost predicate WorkshopFills(c: Config, s: State, r: State) {
    s.waitingElves < c.elvesReq == r.waitingElves
  }

  ghost predicate HelpEnds(s: State, r: State) { s.log.helps < r.log.helps }

  /** A parked reindeer is notified exactly when the last one arrives or a trip ends. */
  lemma ReindeerWoken(c: Config, s: State, a: Action, k: nat)
    requires ValidConfig(c) && Inv(c, s) && CanStep(c, s, a)
    requires k < |s.reindeers| && s.reindeers[k] == Waiting && a != Reindeer(k)
    ensures var r := Next(c, s, a);
            r.reindeers[k] == if LastArrives(c, s, r) || TripEnds(s, r) then Woken else Waiting
  {
    if a.Reindeer? {
      assert s.reindeers[a.i] in multiset(s.reindeers);
    }
  }

  /** A parked elf is notified exactly when the workshop fills or a help ends. */
  lemma ElfWoken(c: Config, s: State, a: Action, k: nat)
    requires ValidConfig(c) && Inv(c, s) && CanStep(c, s, a)
    requires k < |s.elves| && s.elves[k] in {Deferred, Seeking} && a != Elf(k)
    ensures var r := Next(c, s, a);
            r.elves[k] == if WorkshopFills(c, s, r) || HelpEnds(s, r) then WakeElf(s.elves[k]) else s.elves[k]
  {
  }

  /** A sleeping Santa is notified exactly when the last reindeer arrives or the workshop fills. */
  lemma SantaWoken(c: Config, s: State, a: Action)
    requires ValidConfig(c) && Inv(c, s) && CanStep(c, s, a) && s.santa == Asleep && a != Santa
    ensures var r := Next(c, s, a);
            r.santa == if LastArrives(c, s, r) || WorkshopFills(c, s, r) then Roused else Asleep
  {
  }

  /** A reindeer counts itself exactly when it comes from outside; then, or when notified, it leaves only on a
      counter of zero. */
  lemma ReindeerCounted(c: Config, s: State, i: nat)
    requires ValidConfig(c) && Inv(c, s) && CanStep(c, s, Reindeer(i))
    ensures var r := Next(c, s, Reindeer(i));
            && r.waitingReindeers == s.waitingReindeers + (if s.reindeers[i] == Away then 1 else 0)
            && (r.reindeers[i] == Away <==> s.reindeers[i] != Away && s.waitingReindeers == 0)
  {
  }

  /** An elf that is not already counted is admitted exactly when the workshop has room, and gets the next slot;
      otherwise it is deferred. One that is counted leaves. */
  lemma ElfAdmitted(c: Config, s: State, j: nat)
    requires ValidConfig(c) && Inv(c, s) && CanStep(c, s, Elf(j))
    ensures var r := Next(c, s, Elf(j));
            if s.elves[j] in {Seeking, SeekingWoken} then
              r == s.(elves := s.elves[j := Working])
            else if s.waitingElves == c.elvesReq then
              r == s.(elves := s.elves[j := Deferred])
            else
              && r.waitingElves == s.waitingElves + 1 && r.elves[j] == Seeking
              && r.workshop[..r.waitingElves] == s.workshop[..s.waitingElves] + [j + 1]
  {
  }

  // ---------- In every run ----------

  /** Each time Santa has the mutex in a run, he makes the trip if all reindeer are counted, otherwise sees to the
      elves if they fill the workshop, and otherwise sleeps; after a trip that was not the last he sees to the
      elves if they fill the workshop. Whom he helps are those in the workshop. */
  lemma ServiceOrder(c: Config, acts: seq<Action>)
    requires ValidConfig(c) && Legal(c, Init(c), acts) && CanStep(c, Run(c, Init(c), acts), Santa)
    ensures var s := Run(c, Init(c), acts);
            var r := Next(c, s, Santa);
            && (r.santa == Delivering <==> s.santa in {Outside, Asleep, Roused} && s.waitingReindeers == c.reindeers)
            && (r.santa == Helping <==>
                  && s.waitingElves == c.elvesReq
                  && (if s.santa == Delivering then s.jobs + 1 < c.maxJobs
                      else s.santa != Helping && s.waitingReindeers < c.reindeers))
            && (r.santa == Asleep <==>
                  && s.santa in {Outside, Asleep, Roused}
                  && s.waitingReindeers < c.reindeers && s.waitingElves < c.elvesReq)
            && (r.santa == Finished <==> s.santa == Delivering && s.jobs + 1 == c.maxJobs)
            && r.jobs == (if s.santa == Delivering then s.jobs + 1 else s.jobs)
            && r.log.helped == (if r.santa == Helping then s.log.helped + [s.workshop] else s.log.helped)
  {
    InitInv(c);
    RunKeeps(c, Init(c), acts);
    var s := Run(c, Init(c), acts);
    if s.santa == Delivering {
      HelpAfterTrip(c, s);
    } else if s.santa != Helping {
      SantaChooses(c, s);
    }
  }

  /** In every run a thread that waits is notified by another one's step exactly when its turn may have come: a
      reindeer when the last one arrives or a trip ends, an elf when the workshop fills or a help ends, Santa when
      the last reindeer arrives or the workshop fills. */
  lemma Notified(c: Config, acts: seq<Action>, a: Action)
    requires ValidConfig(c) && Legal(c, Init(c), acts) && CanStep(c, Run(c, Init(c), acts), a)
    ensures var s := Run(c, Init(c), acts);
            var r := Next(c, s, a);
            && (forall k :: 0 <= k < c.reindeers && s.reindeers[k] == Waiting && a != Reindeer(k) ==>
                  (r.reindeers[k] != Waiting <==> LastArrives(c, s, r) || TripEnds(s, r)))
            && (forall k :: 0 <= k < c.elves && s.elves[k] in {Deferred, Seeking} && a != Elf(k) ==>
                  (r.elves[k] != s.elves[k] <==> WorkshopFills(c, s, r) || HelpEnds(s, r)))
            && (s.santa == Asleep && a != Santa ==>
                  (r.santa != Asleep <==> LastArrives(c, s, r) || WorkshopFills(c, s, r)))
  {
    InitInv(c);
    RunKeeps(c, Init(c), acts);
    var s := Run(c, Init(c), acts);
    var r := Next(c, s, a);
    forall k | 0 <= k < c.reindeers && s.reindeers[k] == Waiting && a != Reindeer(k)
      ensures r.reindeers[k] != Waiting <==> LastArrives(c, s, r) || TripEnds(s, r)
    {
      ReindeerWoken(c, s, a, k);
    }
    forall k | 0 <= k < c.elves && s.elves[k] in {Deferred, Seeking} && a != Elf(k)
      ensures r.elves[k] != s.elves[k] <==> WorkshopFills(c, s, r) || HelpEnds(s, r)
    {
      ElfWoken(c, s, a, k);
    }
    if s.santa == Asleep && a != Santa {
      SantaWoken(c, s, a);
    }
  }

  /** In every run a reindeer counts itself exactly when it comes from outside, and leaves its loop exactly when it
      finds the counter at zero. */
  lemma Counted(c: Config, acts: seq<Action>, i: nat)
    requires ValidConfig(c) && Legal(c, Init(c), acts) && CanStep(c, Run(c, Init(c), acts), Reindeer(i))
    ensures var s := Run(c, Init(c), acts);
            var r := Next(c, s, Reindeer(i));
            && r.waitingReindeers == s.waitingReindeers + (if s.reindeers[i] == Away then 1 else 0)
            && (r.reindeers[i] == Away <==> s.reindeers[i] != Away && s.waitingReindeers == 0)
  {
    InitInv(c);
    RunKeeps(c, Init(c), acts);
    ReindeerCounted(c, Run(c, Init(c), acts), i);
  }
}
