/** The Santa, reindeer and elf program of lab09 as a state machine.

    One step runs from the point where a thread obtains the mutex (by locking it or by returning from a
    condition wait) to the point where it gives the mutex up (by unlocking it or by waiting again). */
module SantaModel {

  /** The thread counts and quotas. `reindeers` is both the number of reindeer threads and the reindeer
      quota, as in the program. `spuriousHelp` says whether the unguarded wait of an elf that has asked
      for help may return without a broadcast, which POSIX permits. */
  datatype Config = Config(reindeers: nat, elves: nat, elvesReq: nat, maxJobs: nat, spuriousHelp: bool)

  /** The counts written in the program. */
  const PROGRAM := Config(9, 10, 3, 3, false)

  ghost predicate ValidConfig(c: Config) {
    && 1 <= c.reindeers
    && 1 <= c.elvesReq <= c.elves
    && 1 <= c.maxJobs
  }

  /** Where Santa stands: about to lock, parked on his condition, signalled but not yet relocked,
      away with the mutex released (two places), or returned. */
  datatype SantaPc = Outside | Asleep | Roused | Delivering | Helping | Finished

  /** Where a reindeer stands: about to lock, parked in its wait loop, or notified but not yet relocked. */
  datatype ReindeerPc = Away | Waiting | Woken

  /** Where an elf stands: about to lock, parked in the loop that waits for the workshop to empty, parked
      in the wait for Santa's help, or notified in one of those two waits but not yet relocked. */
  datatype ElfPc = Working | Deferred | DeferredWoken | Seeking | SeekingWoken

  /** History variables: arrivals and admissions so far, completed helps, and the groups Santa helped. */
  datatype Log = Log(arrivals: nat, admissions: nat, helps: nat, helped: seq<seq<int>>)

  datatype State = State(
    locked: bool,
    santaBusy: bool,
    waitingReindeers: int,
    waitingElves: int,
    workshop: seq<int>,
    santa: SantaPc,
    jobs: nat,
    reindeers: seq<ReindeerPc>,
    elves: seq<ElfPc>,
    log: Log)

  datatype Action = Santa | Reindeer(i: nat) | Elf(j: nat)

  /** The thread identifier of elf `j`; 0 marks a cleared workshop slot. */
  function ElfId(j: nat): int { j + 1 }

  function Zeros(n: nat): seq<int> { seq(n, _ => 0) }

  function Init(c: Config): State {
    State(false, false, 0, 0, Zeros(c.elvesReq), Outside, 0,
          seq(c.reindeers, _ => Away), seq(c.elves, _ => Working), Log(0, 0, 0, []))
  }

  ghost predicate WellFormed(c: Config, s: State) {
    && |s.reindeers| == c.reindeers
    && |s.elves| == c.elves
    && |s.workshop| == c.elvesReq
    && 0 <= s.waitingElves <= c.elvesReq
  }

  // ---------- Broadcasts and signals ----------

  function WakeReindeer(p: ReindeerPc): ReindeerPc {
    if p == Waiting then Woken else p
  }

  function WakeElf(p: ElfPc): ElfPc {
    match p
    case Deferred => DeferredWoken
    case Seeking => SeekingWoken
    case _ => p
  }

  /** pthread_cond_broadcast(&cond_reindeers) */
  function WakeReindeers(ps: seq<ReindeerPc>): seq<ReindeerPc> {
    seq(|ps|, i requires 0 <= i < |ps| => WakeReindeer(ps[i]))
  }

  /** pthread_cond_broadcast(&cond_elves) */
  function WakeElves(ps: seq<ElfPc>): seq<ElfPc> {
    seq(|ps|, i requires 0 <= i < |ps| => WakeElf(ps[i]))
  }

  /** pthread_cond_signal(&cond_santa): lost unless Santa is parked. */
  function SignalSanta(p: SantaPc): SantaPc {
    if p == Asleep then Roused else p
  }

  // ---------- Steps ----------

  /** The thread may take a step: the mutex is free and, for an elf waiting for help, it was notified or
      a spurious wake-up is allowed. The other waits sit in loops, where spurious wake-ups are always
      allowed. */
  predicate CanStep(c: Config, s: State, a: Action) {
    && !s.locked
    && match a
       case Santa => s.santa != Finished
       case Reindeer(i) => i < |s.reindeers|
       case Elf(j) => j < |s.elves| && (s.elves[j] == Seeking ==> c.spuriousHelp)
  }

  /** The thread may take a step without any spurious wake-up. */
  predicate Ready(c: Config, s: State, a: Action) {
    && CanStep(c, s, a)
    && match a
       case Santa => s.santa != Asleep
       case Reindeer(i) => s.reindeers[i] != Waiting
       case Elf(j) => s.elves[j] != Deferred && s.elves[j] != Seeking
  }

  /** From line 92 on: return with the mutex still locked after the last trip, otherwise see to the elves. */
  function AfterTrip(c: Config, s: State): State {
    if s.jobs == c.maxJobs then
      s.(santa := Finished, locked := true)
    else if s.waitingElves == c.elvesReq then
      s.(workshop := Zeros(c.elvesReq), santa := Helping,
         log := s.log.(helped := s.log.helped + [s.workshop]))
    else
      s.(santaBusy := false, santa := Outside)
  }

  function SantaStep(c: Config, s: State): State {
    match s.santa
    case Delivering =>
      AfterTrip(c, s.(waitingReindeers := 0, jobs := s.jobs + 1, reindeers := WakeReindeers(s.reindeers)))
    case Helping =>
      s.(waitingElves := 0, elves := WakeElves(s.elves), santaBusy := false, santa := Outside,
         log := s.log.(helps := s.log.helps + 1))
    case _ =>
      if s.waitingReindeers < c.reindeers && s.waitingElves < c.elvesReq then
        s.(santa := Asleep)
      else if s.waitingReindeers == c.reindeers then
        s.(santaBusy := true, santa := Delivering)
      else
        AfterTrip(c, s.(santaBusy := true))
  }

  /** The head of the wait loop of reindeer `i`. */
  function ReindeerLoop(s: State, i: nat): State
    requires i < |s.reindeers|
  {
    s.(reindeers := s.reindeers[i := if s.waitingReindeers > 0 then Waiting else Away])
  }

  function ReindeerStep(c: Config, s: State, i: nat): State
    requires i < |s.reindeers|
  {
    if s.reindeers[i] == Away then
      var n := s.waitingReindeers + 1;
      var s1 := s.(waitingReindeers := n, log := s.log.(arrivals := s.log.arrivals + 1));
      if n == c.reindeers then
        ReindeerLoop(s1.(santa := SignalSanta(s.santa), reindeers := WakeReindeers(s.reindeers)), i)
      else
        ReindeerLoop(s1, i)
    else
      ReindeerLoop(s, i)
  }

  /** Elf `j` takes the next workshop slot, rouses everyone if it is the last one, and waits. */
  function Admit(c: Config, s: State, j: nat): State
    requires WellFormed(c, s) && j < |s.elves| && s.waitingElves < c.elvesReq
  {
    var n := s.waitingElves + 1;
    var s1 := s.(waitingElves := n, workshop := s.workshop[s.waitingElves := ElfId(j)],
                 log := s.log.(admissions := s.log.admissions + 1));
    if n == c.elvesReq then
      s1.(elves := WakeElves(s.elves)[j := Seeking], santa := SignalSanta(s.santa))
    else
      s1.(elves := s.elves[j := Seeking])
  }

  function ElfStep(c: Config, s: State, j: nat): State
    requires WellFormed(c, s) && j < |s.elves|
  {
    match s.elves[j]
    case Seeking => s.(elves := s.elves[j := Working])
    case SeekingWoken => s.(elves := s.elves[j := Working])
    case _ =>
      if s.waitingElves == c.elvesReq then
        s.(elves := s.elves[j := Deferred])
      else
        Admit(c, s, j)
  }

  function Next(c: Config, s: State, a: Action): (r: State)
    requires WellFormed(c, s) && CanStep(c, s, a)
    ensures WellFormed(c, r)
  {
    match a
    case Santa => SantaStep(c, s)
    case Reindeer(i) => ReindeerStep(c, s, i)
    case Elf(j) => ElfStep(c, s, j)
  }

  // ---------- Runs ----------

  /** Every action of `acts` can be taken, in this order, from `s`. */
  ghost predicate Legal(c: Config, s: State, acts: seq<Action>)
    requires WellFormed(c, s)
    decreases |acts|
  {
    acts == [] || (CanStep(c, s, acts[0]) && Legal(c, Next(c, s, acts[0]), acts[1..]))
  }

  /** As Legal, with no spurious wake-up anywhere. */
  ghost predicate Prompt(c: Config, s: State, acts: seq<Action>)
    requires WellFormed(c, s)
    decreases |acts|
  {
    acts == [] || (Ready(c, s, acts[0]) && Prompt(c, Next(c, s, acts[0]), acts[1..]))
  }

  ghost function Run(c: Config, s: State, acts: seq<Action>): (r: State)
    requires WellFormed(c, s) && Legal(c, s, acts)
    ensures WellFormed(c, r)
    decreases |acts|
  {
    if acts == [] then s else Run(c, Next(c, s, acts[0]), acts[1..])
  }

  lemma {:induction false} PromptIsLegal(c: Config, s: State, acts: seq<Action>)
    requires WellFormed(c, s) && Prompt(c, s, acts)
    ensures Legal(c, s, acts)
    decreases |acts|
  {
    if acts != [] {
      PromptIsLegal(c, Next(c, s, acts[0]), acts[1..]);
    }
  }

  /** Runs compose. */
  lemma {:induction false} RunAppend(c: Config, s: State, xs: seq<Action>, ys: seq<Action>)
    requires WellFormed(c, s) && Legal(c, s, xs) && Legal(c, Run(c, s, xs), ys)
    ensures Legal(c, s, xs + ys)
    ensures Run(c, s, xs + ys) == Run(c, Run(c, s, xs), ys)
    ensures Prompt(c, s, xs) && Prompt(c, Run(c, s, xs), ys) ==> Prompt(c, s, xs + ys)
    decreases |xs|
  {
    if xs == [] {
      assert xs + ys == ys;
    } else {
      assert (xs + ys)[0] == xs[0] && (xs + ys)[1..] == xs[1..] + ys;
      RunAppend(c, Next(c, s, xs[0]), xs[1..], ys);
    }
  }
}
