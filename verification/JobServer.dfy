/** The server's shared state and the bodies of its handlers, statement by
    statement. A server carries the run of the transition system that it has made,
    and every atomic action is a step of that run. */
module JobServer {
  import opened Wrappers
  import opened Totals
  import opened Reservations
  import opened Protocol
  import B = ProtocolBounds

  class Server {
    const jobsMax: nat
    const reservationTimeout: nat
    var jobsRunning: nat
    var reservations: seq<Entry>

    ghost const cfg: Config
    /** What has happened so far, and the state it has led to. */
    ghost var run: seq<Event>
    ghost var state: State

    /** The fields are what the run has made of them. */
    ghost predicate Valid()
      reads this
    {
      && cfg.Valid() && !cfg.fused && cfg.jobsMax == jobsMax && cfg.timeout == reservationTimeout
      && Run(cfg, Init(cfg), run) == Some(state)
      && jobsRunning == state.sh.counter && reservations == state.sh.entries
      && jobsRunning < WORD && Sorted(reservations)
    }

    ghost predicate IsReserver(i: nat)
      reads this
    {
      Valid() && i < |state.rs|
    }

    ghost predicate IsDistributor(j: nat)
      reads this
    {
      Valid() && j < |state.ds|
    }

    constructor (maxJobs: nat, timeout: nat, ghost reservers: nat, ghost distributors: nat, ghost epoch: int)
      requires 1 <= maxJobs < WORD
      ensures Valid() && run == [] && cfg == Config(maxJobs, timeout, reservers, distributors, epoch, false)
    {
      jobsMax, reservationTimeout := maxJobs, timeout;
      jobsRunning, reservations := 0, [];
      cfg := Config(maxJobs, timeout, reservers, distributors, epoch, false);
      run, state := [], Init(Config(maxJobs, timeout, reservers, distributors, epoch, false));
    }

    ghost method Step(e: Event)
      requires Run(cfg, Init(cfg), run) == Some(state) && Next(cfg, state, e).Some?
      modifies this`run, this`state
      ensures Run(cfg, Init(cfg), run) == Some(state) == Next(cfg, old(state), e) && run == old(run) + [e]
    {
      RunAppend(cfg, Init(cfg), run, [e]);
      RunOne(cfg, state, e);
      run, state := run + [e], Next(cfg, state, e).value;
    }

    /** A step that leaves counter and reservations alone. */
    ghost method Move(e: Event)
      requires Valid() && Next(cfg, state, e).Some?
      requires var sh := Next(cfg, state, e).value.sh; sh.counter == state.sh.counter && sh.entries == state.sh.entries
      modifies this`run, this`state
      ensures Valid() && Some(state) == Next(cfg, old(state), e) && old(run) < run
    {
      Step(e);
    }

    /** The system clock shows some time, whatever it showed before. */
    ghost method ClockShows(now: int)
      requires Valid()
      modifies this`run, this`state
      ensures Valid() && state == old(state).(sh := old(state).sh.(wall := now)) && old(run) < run
    {
      Move(Tick(0, now - state.sh.wall));
    }

    // --- The atomic actions -----------------------------------------------------

    method TestRoom(ghost i: nat) returns (room: bool)
      requires IsReserver(i) && state.rs[i].Testing?
      modifies this`run, this`state
      ensures Valid() && Some(state) == Next(cfg, old(state), Event.Reserve(i, [])) && old(run) < run
      ensures room <==> jobsRunning < jobsMax
    {
      room := jobsRunning < jobsMax;
      Step(Event.Reserve(i, []));
    }

    method LoadJobs(ghost i: nat) returns (jobs: nat)
      requires IsReserver(i) && state.rs[i].Loading?
      modifies this`run, this`state
      ensures Valid() && Some(state) == Next(cfg, old(state), Event.Reserve(i, [])) && old(run) < run
      ensures jobs == jobsRunning
    {
      jobs := jobsRunning;
      Step(Event.Reserve(i, []));
    }

    /** Swaps in a new value if the counter still has the expected one; otherwise
        reports the value found. */
    method CompareExchange(ghost i: nat, expected: nat, drawn: Uuid) returns (won: bool, found: nat)
      requires IsReserver(i) && state.rs[i] == Swapping(expected)
      modifies this`jobsRunning, this`run, this`state
      ensures Valid() && Some(state) == Next(cfg, old(state), Event.Reserve(i, drawn)) && old(run) < run
      ensures state.rs[i] == if won then Inserting(drawn) else Answered(Full(found))
      ensures won <==> old(jobsRunning) == expected
    {
      found := jobsRunning;
      won := jobsRunning == expected;
      if won {
        jobsRunning := (expected + 1) % WORD;
      }
      Step(Event.Reserve(i, drawn));
    }

    method EmplaceReservation(ghost i: nat, uuid: Uuid, now: int)
      requires IsReserver(i) && state.rs[i] == Emplacing(uuid, now)
      modifies this`reservations, this`run, this`state
      ensures Valid() && Some(state) == Next(cfg, old(state), Event.Reserve(i, [])) && old(run) < run
      ensures reservations == Insert(old(reservations), Entry(uuid, now))
    {
      InsertSorted(reservations, Entry(uuid, now));
      hide Sorted, Insert, Run;
      reservations := Insert(reservations, Entry(uuid, now));
      Step(Event.Reserve(i, []));
    }

    method ClaimReservation(ghost j: nat, uuid: Uuid) returns (found: bool)
      requires IsDistributor(j) && state.ds[j] == Claiming(uuid)
      modifies this`reservations, this`run, this`state
      ensures Valid() && Some(state) == Next(cfg, old(state), Event.Distribute(j, uuid, false)) && old(run) < run
      ensures state.ds[j] == if found then Claimed(uuid) else Missed
      ensures found <==> exists k :: 0 <= k < |old(reservations)| && old(reservations)[k].uuid == uuid
      ensures found <==> Pending(old(reservations), uuid) > 0
      ensures reservations == WithoutUuid(old(reservations), uuid)
    {
      EraseUuid(reservations, uuid, uuid);
      PendingIff(reservations, uuid);
      EraseUuidSorted(reservations, uuid);
      if Pending(reservations, uuid) == 0 {
        NothingToErase(reservations, uuid);
      }
      var kept := WithoutUuid(reservations, uuid);
      found := |kept| != |reservations|;
      reservations := kept;
      Step(Event.Distribute(j, uuid, false));
    }

    /** One of the tests of Distribute on whose failure it returns. */
    method Check(ghost j: nat, ghost uuid: Uuid, stage: Stage, leave: Option<Stage>) returns (left: bool)
      requires IsDistributor(j) && state.ds[j] == Working(uuid, stage) && !stage.Compiling?
      modifies this`run, this`state
      ensures Valid() && Some(state) == Next(cfg, old(state), Event.Distribute(j, uuid, left)) && old(run) < run
      ensures state == old(state).(ds := old(state).ds[j := if left then Releasing(uuid, InvalidArgument)
                                                            else Working(uuid, NextStage(stage).value)])
      ensures left <==> leave == Some(stage)
    {
      left := leave == Some(stage);
      Step(Event.Distribute(j, uuid, left));
    }

    method Compile(ghost j: nat, ghost uuid: Uuid)
      requires IsDistributor(j) && state.ds[j] == Working(uuid, Compiling)
      modifies this`run, this`state
      ensures Valid() && Some(state) == Next(cfg, old(state), Event.Distribute(j, uuid, false)) && old(run) < run
      ensures state == old(state).(ds := old(state).ds[j := Releasing(uuid, OK)])
    {
      Step(Event.Distribute(j, uuid, false));
    }

    method EraseBefore(bound: int) returns (diff: nat)
      requires Valid() && state.reaper == Locked(bound)
      modifies this`reservations, this`run, this`state
      ensures Valid() && Some(state) == Next(cfg, old(state), Event.Reap) && old(run) < run
      ensures state.reaper == Erased(bound, diff)
      ensures reservations == NotBefore(old(reservations), bound) && diff == |old(reservations)| - |reservations|
    {
      PrefixEraseIsFilter(reservations, bound);
      var before := |reservations|;
      reservations := reservations[LowerBound(reservations, bound)..];
      diff := before - |reservations|;
      Step(Event.Reap);
    }

    method SubtractJobs(diff: nat)
      requires Valid() && state.reaper.Erased? && state.reaper.owed == diff
      modifies this`jobsRunning, this`run, this`state
      ensures Valid() && Some(state) == Next(cfg, old(state), Event.Reap) && old(run) < run
    {
      jobsRunning := Minus(jobsRunning, diff);
      Step(Event.Reap);
    }

    // --- Whole calls --------------------------------------------------------------

    /** The test, the load and the exchange: nothing happens in between. */
    method TakeSlot(ghost i: nat, uuid: Uuid) returns (won: bool, jobsCur: nat)
      requires IsReserver(i) && state.rs[i].Idle?
      modifies this`jobsRunning, this`run, this`state
      ensures Valid() && old(run) < run && won == (old(jobsRunning) < jobsMax)
      ensures state.rs == old(state).rs[i := if won then Inserting(uuid) else Answered(Full(jobsCur))]
      ensures state.ds == old(state).ds && state.reaper == old(state).reaper && state.sh.lock == old(state).sh.lock
      ensures jobsRunning == if won then old(jobsRunning) + 1 else old(jobsRunning)
      ensures !won ==> jobsCur == jobsMax
    {
      hide Run;
      Move(Event.Reserve(i, []));
      won, jobsCur := false, jobsMax;
      var room := TestRoom(i);
      if room {
        jobsCur := LoadJobs(i);
        won, jobsCur := CompareExchange(i, jobsCur, uuid);
      }
    }

    /** The insertion under the lock: take it, read the clock, insert, release it. */
    method InsertLocked(ghost i: nat, uuid: Uuid, now: int)
      requires IsReserver(i) && state.rs[i] == Inserting(uuid) && state.sh.lock.Free?
      modifies this`reservations, this`run, this`state
      ensures Valid() && old(run) < run && reservations == Insert(old(reservations), Entry(uuid, now))
      ensures state.rs == old(state).rs[i := Answered(Granted(uuid))]
      ensures state.ds == old(state).ds && state.reaper == old(state).reaper && state.sh.lock.Free?
    {
      hide Run, Sorted, Insert;
      Move(Event.Reserve(i, []));
      ClockShows(now);
      Move(Event.Reserve(i, []));
      EmplaceReservation(i, uuid, now);
      Move(Event.Reserve(i, []));
    }

    /** A whole Reserve call that nobody interrupts: the run goes on by the steps of
        one handler, from idle to the answer. */
    method Reserve(ghost i: nat, uuid: Uuid, now: int) returns (answer: Answer)
      requires IsReserver(i) && state.rs[i].Idle? && state.sh.lock.Free?
      modifies this
      ensures Valid() && old(run) < run && state.rs == old(state).rs[i := Answered(answer)]
      ensures state.ds == old(state).ds && state.reaper == old(state).reaper && state.sh.lock.Free?
      ensures old(jobsRunning) < jobsMax ==>
                answer == Granted(uuid) && jobsRunning == old(jobsRunning) + 1
                && reservations == Insert(old(reservations), Entry(uuid, now))
      ensures old(jobsRunning) >= jobsMax ==>
                answer == Full(jobsMax) && jobsRunning == old(jobsRunning) && reservations == old(reservations)
    {
      hide Run;
      var won, jobsCur := TakeSlot(i, uuid);
      if won {
        var jobCountGuard := new ScopeGuard(this);
        InsertLocked(i, uuid, now);
        jobCountGuard.Defuse();
        jobCountGuard.Destroy(0);
        return Granted(uuid);
      }
      return Full(jobsCur);
    }

    /** The tests of Distribute, in order, and the compilation; `leave` tells which
        test fails, if any. The handler is then about to give its slot back. */
    method Work(ghost j: nat, ghost uuid: Uuid, leave: Option<Stage>) returns (status: Status)
      requires IsDistributor(j) && state.ds[j] == Working(uuid, Sanitizing)
      modifies this`run, this`state
      ensures Valid() && old(run) < run && state.ds == old(state).ds[j := Releasing(uuid, status)]
      ensures state == old(state).(ds := state.ds)
      ensures status == if leave.None? || leave.value.Compiling? then OK else InvalidArgument
    {
      hide Run, Sorted, DistributorNext;
      var left := Check(j, uuid, Sanitizing, leave);
      if !left {
        left := Check(j, uuid, CheckingCompiler, leave);
        if !left {
          left := Check(j, uuid, Decompressing, leave);
          if !left {
            left := Check(j, uuid, Filtering, leave);
            if !left {
              Compile(j, uuid);
              return OK;
            }
          }
        }
      }
      return InvalidArgument;
    }

    /** The claim under the lock. */
    method Claim(ghost j: nat, uuid: Uuid) returns (found: bool)
      requires IsDistributor(j) && state.ds[j].Resting? && state.sh.lock.Free?
      modifies this`reservations, this`run, this`state
      ensures Valid() && old(run) < run && found == (Pending(old(reservations), uuid) > 0)
      ensures state.ds == old(state).ds[j := if found then Working(uuid, Sanitizing) else Replied(FailedPrecondition)]
      ensures state.rs == old(state).rs && state.reaper == old(state).reaper && state.sh.lock.Free?
      ensures reservations == WithoutUuid(old(reservations), uuid)
    {
      hide Run;
      Move(Event.Distribute(j, uuid, false));
      Move(Event.Distribute(j, uuid, false));
      found := ClaimReservation(j, uuid);
      Move(Event.Distribute(j, uuid, false));
    }

    /** A whole Distribute call that nobody interrupts. Whatever the way out, a
        claimed slot is given back once, and an unknown UUID changes nothing. */
    method Distribute(ghost j: nat, uuid: Uuid, leave: Option<Stage>) returns (status: Status)
      requires IsDistributor(j) && state.ds[j].Resting? && state.sh.lock.Free?
      modifies this
      ensures Valid() && old(run) < run && state.ds == old(state).ds[j := Replied(status)]
      ensures state.rs == old(state).rs && state.reaper == old(state).reaper && state.sh.lock.Free?
      ensures reservations == WithoutUuid(old(reservations), uuid)
      ensures Pending(old(reservations), uuid) == 0 ==>
                status == FailedPrecondition && jobsRunning == old(jobsRunning) && reservations == old(reservations)
      ensures Pending(old(reservations), uuid) > 0 ==>
                && jobsRunning == Minus(old(jobsRunning), 1)
                && status == if leave.None? || leave.value.Compiling? then OK else InvalidArgument
    {
      hide Run;
      if Pending(reservations, uuid) == 0 {
        NothingToErase(reservations, uuid);
      }
      var found := Claim(j, uuid);
      if !found {
        return FailedPrecondition;
      }
      var jobCountGuard := new ScopeGuard(this);
      status := Work(j, uuid, leave);
      jobCountGuard.Destroy(j);
    }

    /** The beginning of an iteration of the reaper, up to the lock. */
    method Sleep(timestamp: int)
      requires Valid() && state.reaper.Top? && state.sh.lock.Free?
      modifies this`run, this`state
      ensures Valid() && old(run) < run && state.reaper == Locked(timestamp) && state.sh.lock.ByReaper?
      ensures state.sh.steady == old(state).sh.steady + reservationTimeout
      ensures state.rs == old(state).rs && state.ds == old(state).ds
    {
      hide Run;
      ClockShows(timestamp);
      Move(Event.Reap);
      Move(Tick(reservationTimeout, 0));
      Move(Event.Reap);
      Move(Event.Reap);
    }

    /** A whole iteration of the reaper that nobody interrupts; `timestamp` is what
        the clock shows at its beginning. */
    method Reap(timestamp: int) returns (diff: nat)
      requires Valid() && state.reaper.Top? && state.sh.lock.Free?
      modifies this
      ensures Valid() && old(run) < run && state.reaper.Top? && state.sh.lock.Free?
      ensures state.sh.steady == old(state).sh.steady + reservationTimeout
      ensures state.rs == old(state).rs && state.ds == old(state).ds
      ensures reservations == NotBefore(old(reservations), timestamp)
      ensures diff == |old(reservations)| - |reservations| && jobsRunning == Minus(old(jobsRunning), diff)
    {
      hide Run, NotBefore, Minus;
      Sleep(timestamp);
      diff := EraseBefore(timestamp);
      SubtractJobs(diff);
      Move(Event.Reap);
    }
  }

  /** Gives a slot back at the end of its scope unless it has been defused. */
  class ScopeGuard {
    var fuse: bool
    const server: Server

    constructor (server: Server)
      ensures fuse && this.server == server
    {
      fuse := true;
      this.server := server;
    }

    method Defuse()
      modifies this
      ensures !fuse
    {
      fuse := false;
    }

    /** In Distribute the guard's action is the release by handler j. */
    method Destroy(ghost j: nat)
      requires server.Valid()
      requires fuse ==> j < |server.state.ds| && server.state.ds[j].Releasing?
      modifies server`jobsRunning, server`run, server`state
      ensures server.Valid() && old(server.run) <= server.run
      ensures if fuse then Some(server.state) == Next(server.cfg, old(server.state), Event.Distribute(j, [], false))
              else server.state == old(server.state)
      ensures server.jobsRunning == if fuse then Minus(old(server.jobsRunning), 1) else old(server.jobsRunning)
    {
      if fuse {
        server.jobsRunning := Minus(server.jobsRunning, 1);
        server.Step(Event.Distribute(j, [], false));
      }
    }
  }

  lemma Given(jobs: nat, es: seq<Entry>, e: Entry)
    requires Pending(es, e.uuid) == 0 && jobs < WORD
    ensures WithoutUuid(Insert(es, e), e.uuid) == es && Pending(Insert(es, e), e.uuid) > 0 && Minus(jobs + 1, 1) == jobs
  {
    ClaimUndoesInsert(es, e);
    InsertContents(es, e, e.uuid);
  }

  /** A reservation that is handed in gives back everything the Reserve call took,
      on every way out of Distribute. */
  method ReserveThenDistribute(s: Server, ghost i: nat, ghost j: nat, uuid: Uuid, now: int, leave: Option<Stage>)
    returns (answer: Answer)
    requires s.IsReserver(i) && s.state.rs[i].Idle? && s.IsDistributor(j) && s.state.ds[j].Resting?
    requires s.state.sh.lock.Free? && Pending(s.reservations, uuid) == 0
    modifies s
    ensures s.Valid() && s.jobsRunning == old(s.jobsRunning) && s.reservations == old(s.reservations)
    ensures answer.Granted? <==> old(s.jobsRunning) < s.jobsMax
  {
    hide Run, Minus, Insert, WithoutUuid, Pending;
    Given(s.jobsRunning, s.reservations, Entry(uuid, now));
    answer := s.Reserve(i, uuid, now);
    if answer.Granted? {
      var status := s.Distribute(j, answer.uuid, leave);
    }
  }

  /** Slot conservation for the fields of a server, whatever calls it has been
      through and whichever are under way. */
  lemma ServerConservesSlots(s: Server)
    requires s.Valid() && Distinct(s.state.sh.issued) && B.Ceiling(s.cfg) < WORD
    ensures s.jobsRunning == |s.reservations| + Sum(s.state.rs, InFlight) + Sum(s.state.ds, Held) + Owed(s.state.reaper)
    ensures s.jobsRunning <= s.jobsMax - 1 + s.cfg.reservers
  {
    B.SlotsConserved(s.cfg, s.run, s.state);
    B.OverAdmission(s.cfg, s.run, s.state);
  }
}
