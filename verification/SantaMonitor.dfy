/** The program's global variables, and the critical sections of its three thread routines, as methods that
    update them. Each method is one step; its contract is the step function of SantaModel. */
module SantaMonitor {
  import opened SantaModel

  class Monitor {
    const c: Config
    var locked: bool
    var santaBusy: bool
    var waitingReindeers: int
    var waitingElves: int
    const workshop: array<int>
    var santa: SantaPc
    var jobs: nat
    var reindeers: seq<ReindeerPc>
    var elves: seq<ElfPc>
    ghost var log: Log

    ghost function Abs(): State
      reads this, workshop
    {
      State(locked, santaBusy, waitingReindeers, waitingElves, workshop[..], santa, jobs, reindeers, elves, log)
    }

    ghost predicate Valid()
      reads this, workshop
    {
      WellFormed(c, Abs())
    }

    constructor (c: Config)
      ensures this.c == c && Valid() && Abs() == Init(c) && fresh(workshop)
    {
      this.c := c;
      locked, santaBusy := false, false;
      waitingReindeers, waitingElves := 0, 0;
      workshop := new int[c.elvesReq](_ => 0);
      santa, jobs := Outside, 0;
      reindeers := seq(c.reindeers, _ => Away);
      elves := seq(c.elves, _ => Working);
      log := Log(0, 0, 0, []);
      new;
      assert workshop[..] == Zeros(c.elvesReq);
    }

    /** Santa clears the workshop slot by slot. */
    method ClearWorkshop()
      requires Valid()
      modifies workshop
      ensures workshop[..] == Zeros(c.elvesReq)
    {
      for i := 0 to c.elvesReq
        invariant forall k :: 0 <= k < i ==> workshop[k] == 0
      {
        workshop[i] := 0;
      }
    }

    /** From line 92 to the end of Santa's loop body, or to his second release of the mutex. */
    method FinishTrip()
      requires Valid()
      modifies this, workshop
      ensures Valid() && Abs() == AfterTrip(c, old(Abs()))
    {
      if jobs == c.maxJobs {
        santa, locked := Finished, true;
      } else if waitingElves == c.elvesReq {
        log := log.(helped := log.helped + [workshop[..]]);
        ClearWorkshop();
        santa := Helping;
      } else {
        santaBusy := false;
        santa := Outside;
      }
    }

    method SantaSection()
      requires Valid() && CanStep(c, Abs(), Santa)
      modifies this, workshop
      ensures Valid() && Abs() == Next(c, old(Abs()), Santa)
    {
      if santa == Delivering {
        waitingReindeers := 0;
        jobs := jobs + 1;
        reindeers := WakeReindeers(reindeers);
        FinishTrip();
      } else if santa == Helping {
        waitingElves := 0;
        elves := WakeElves(elves);
        santaBusy, santa := false, Outside;
        log := log.(helps := log.helps + 1);
      } else if waitingReindeers < c.reindeers && waitingElves < c.elvesReq {
        santa := Asleep;
      } else {
        santaBusy := true;
        if waitingReindeers == c.reindeers {
          santa := Delivering;
        } else {
          FinishTrip();
        }
      }
    }

    method ReindeerSection(i: nat)
      requires Valid() && CanStep(c, Abs(), Reindeer(i))
      modifies this
      ensures Valid() && Abs() == Next(c, old(Abs()), Reindeer(i))
    {
      if reindeers[i] == Away {
        waitingReindeers := waitingReindeers + 1;
        log := log.(arrivals := log.arrivals + 1);
        if waitingReindeers == c.reindeers {
          santa := SignalSanta(santa);
          reindeers := WakeReindeers(reindeers);
        }
      }
      reindeers := reindeers[i := if waitingReindeers > 0 then Waiting else Away];
    }

    method ElfSection(j: nat)
      requires Valid() && CanStep(c, Abs(), Elf(j))
      modifies this, workshop
      ensures Valid() && Abs() == Next(c, old(Abs()), Elf(j))
    {
      if elves[j] == Seeking || elves[j] == SeekingWoken {
        elves := elves[j := Working];
        return;
      }
      if waitingElves == c.elvesReq {
        elves := elves[j := Deferred];
        return;
      }
      ghost var before := workshop[..];
      var i := waitingElves;
      waitingElves := waitingElves + 1;
      workshop[i] := ElfId(j);
      log := log.(admissions := log.admissions + 1);
      if waitingElves == c.elvesReq {
        elves := WakeElves(elves);
        santa := SignalSanta(santa);
      }
      elves := elves[j := Seeking];
      assert workshop[..] == before[i := ElfId(j)];
    }
  }
}
