/** How many slots can be taken: the exact over-admission bound of the two
    separate reads, the plain cap of a fused read, and when the counter is exact. */
module ProtocolBounds {
  import opened Wrappers
  import opened Reservations
  import opened Totals
  import opened Protocol
  import opened ProtocolSafety

  /** The most slots that can be held at once. */
  function Ceiling(cfg: Config): int {
    if cfg.fused then cfg.jobsMax else cfg.jobsMax - 1 + cfg.reservers
  }

  ghost predicate WithinCeiling(cfg: Config, s: State) {
    if cfg.fused then
      && Slots(s) <= cfg.jobsMax
      && (forall i | 0 <= i < |s.rs| :: !s.rs[i].Loading? && (s.rs[i].Swapping? ==> s.rs[i].seen < cfg.jobsMax))
    else
      Slots(s) + Window(s) <= cfg.jobsMax - 1 + cfg.reservers
  }

  lemma CounterIsSlots(cfg: Config, s: State)
    requires Balanced(s) && WithinCeiling(cfg, s) && Ceiling(cfg) < WORD
    ensures s.sh.counter == Slots(s)
  {
  }

  /** What a Reserve handler's step adds to the slots and the window. Unless it passes
      the capacity test, it adds nothing to both together; and to the slots it adds
      one if it wins the exchange, else nothing. */
  lemma ReserverAdds(cfg: Config, me: nat, sh: Shared, pc: Reserver, d: Uuid)
    requires ReserverNext(cfg, me, sh, pc, d).Some?
    ensures var (sh', pc') := ReserverNext(cfg, me, sh, pc, d).value;
            && |sh'.entries| + InFlight(pc') == |sh.entries| + InFlight(pc) + (if pc == Swapping(sh.counter) then 1 else 0)
            && InWindow(pc') <= InWindow(pc) + (if pc.Testing? && sh.counter < cfg.jobsMax then 1 else 0)
                                - (if pc == Swapping(sh.counter) then 1 else 0)
            && (cfg.fused ==> !pc'.Loading? || pc.Loading?)
            && (cfg.fused && pc'.Swapping? ==> pc.Loading? || pc'.seen == sh.counter < cfg.jobsMax)
  {
    if pc.Emplacing? {
      InsertContents(sh.entries, Entry(pc.uuid, pc.stamp), pc.uuid);
    }
  }

  lemma ReserveWithin(cfg: Config, s: State, i: nat, d: Uuid)
    requires cfg.Valid() && Inv(cfg, s) && WithinCeiling(cfg, s) && Ceiling(cfg) < WORD
    requires Next(cfg, s, Reserve(i, d)).Some?
    ensures WithinCeiling(cfg, Next(cfg, s, Reserve(i, d)).value)
  {
    var pc' := ReserverNext(cfg, i, s.sh, s.rs[i], d).value.1;
    CounterIsSlots(cfg, s);
    ReserverAdds(cfg, i, s.sh, s.rs[i], d);
    hide Sum, Inv, ReserverNext, InFlight, InWindow;
    SumUpdate(s.rs, InFlight, i, pc');
    SumUpdate(s.rs, InWindow, i, pc');
    WindowFits(s.rs[i := pc']);
  }

  lemma WindowFits(rs: seq<Reserver>)
    ensures Sum(rs, InWindow) <= |rs|
  {
    SumBound(rs, InWindow);
  }

  lemma WithinStep(cfg: Config, s: State, e: Event)
    requires cfg.Valid() && Inv(cfg, s) && WithinCeiling(cfg, s) && Ceiling(cfg) < WORD
    requires Next(cfg, s, e).Some? && Distinct(s.sh.issued)
    ensures WithinCeiling(cfg, Next(cfg, s, e).value)
  {
    match e
    case Reserve(i, d) => ReserveWithin(cfg, s, i, d);
    case Distribute(j, d, leave) =>
      var (sh', pc') := DistributorNext(j, s.sh, s.ds[j], d, leave).value;
      PendingOnce(s);
      DistributorCounts(j, s.sh, s.ds[j], d, leave);
      SumUpdate(s.ds, Held, j, pc');
    case Reap => ReaperCounts(cfg, s.sh, s.reaper);
    case Tick(_, _) =>
  }

  lemma {:induction false} WithinAlways(cfg: Config, es: seq<Event>, s: State)
    requires Reached(cfg, es, s) && Ceiling(cfg) < WORD
    ensures WithinCeiling(cfg, s)
  {
    if es == [] {
      InitInv(cfg);
      SumZero(s.rs, InWindow);
      SumZero(s.rs, InFlight);
      SumZero(s.ds, Held);
    } else {
      var m := ReachedBefore(cfg, es, s);
      WithinAlways(cfg, es[..|es| - 1], m);
      Invariant(cfg, es[..|es| - 1], m);
      WithinStep(cfg, m, es[|es| - 1]);
    }
  }

  /** Over-admission: with the test and the load as separate reads, the counter
      and the handlers between test and exchange stay below this bound. */
  lemma OverAdmission(cfg: Config, es: seq<Event>, s: State)
    requires Reached(cfg, es, s) && !cfg.fused && Ceiling(cfg) < WORD
    ensures s.sh.counter + Window(s) <= cfg.jobsMax - 1 + cfg.reservers
  {
    WithinAlways(cfg, es, s);
    Invariant(cfg, es, s);
    CounterIsSlots(cfg, s);
  }

  /** With a fused read the configured maximum is never exceeded, however many
      handlers there are. */
  lemma FusedReadKeepsCap(cfg: Config, es: seq<Event>, s: State)
    requires Reached(cfg, es, s) && cfg.fused
    ensures s.sh.counter <= cfg.jobsMax && s.sh.counter == Slots(s)
  {
    WithinAlways(cfg, es, s);
    Invariant(cfg, es, s);
    CounterIsSlots(cfg, s);
  }

  /** Slot conservation: the counter is exactly the number of reservations, of
      slots between exchange and insertion, of claims not yet released, and of
      entries erased but not yet subtracted. */
  lemma SlotsConserved(cfg: Config, es: seq<Event>, s: State)
    requires Reached(cfg, es, s) && Ceiling(cfg) < WORD
    ensures s.sh.counter == |s.sh.entries| + Sum(s.rs, InFlight) + Sum(s.ds, Held) + Owed(s.reaper)
  {
    WithinAlways(cfg, es, s);
    Invariant(cfg, es, s);
    CounterIsSlots(cfg, s);
  }

  /** No decrement wraps, on any return path of Distribute and in the reaper. */
  lemma DecrementsDoNotWrap(cfg: Config, es: seq<Event>, s: State)
    requires Reached(cfg, es, s) && Ceiling(cfg) < WORD
    ensures forall j | 0 <= j < |s.ds| && s.ds[j].Releasing? :: s.sh.counter >= 1
    ensures s.sh.counter >= Owed(s.reaper)
  {
    SlotsConserved(cfg, es, s);
    forall j | 0 <= j < |s.ds| && s.ds[j].Releasing? ensures s.sh.counter >= 1 {
      SumUpdate(s.ds, Held, j, s.ds[j]);
    }
  }

  // --- A run that attains the bound ------------------------------------------

  function Name(n: nat): Uuid {
    seq(n, i => 'u')
  }

  /** A run in which n slots have been won, none given back, nobody else moved. */
  ghost predicate Climbed(cfg: Config, es: seq<Event>, s: State, n: nat) {
    && Reached(cfg, es, s)
    && |s.sh.issued| == n && s.sh.claimed == [] && s.sh.reaped == []
    && s.ds == Init(cfg).ds && s.reaper.Top? && s.sh.lock.Free?
    && (forall u | |u| >= n :: Occurs(s.sh.issued, u) == 0)
  }

  lemma ClimbedSlots(cfg: Config, es: seq<Event>, s: State, n: nat)
    requires Climbed(cfg, es, s, n)
    ensures Slots(s) == n && s.sh.counter == n % WORD && |s.rs| == cfg.reservers
  {
    Invariant(cfg, es, s);
    SumZero(s.ds, Held);
  }

  lemma Extend(cfg: Config, es: seq<Event>, s: State, e: Event)
    requires Reached(cfg, es, s) && Next(cfg, s, e).Some? && Distinct(Next(cfg, s, e).value.sh.issued)
    ensures Reached(cfg, es + [e], Next(cfg, s, e).value)
  {
    RunAppend(cfg, Init(cfg), es, [e]);
    RunOne(cfg, s, e);
  }

  /** One step of a Reserve handler that wins nothing and leaves the lock free. */
  lemma Quiet(cfg: Config, es: seq<Event>, s: State, n: nat, i: nat) returns (s': State)
    requires Climbed(cfg, es, s, n) && i < |s.rs| && (s.rs[i].Idle? || s.rs[i].Testing? || s.rs[i].Loading? || s.rs[i].Answered?)
    ensures Climbed(cfg, es + [Reserve(i, [])], s', n) && Next(cfg, s, Reserve(i, [])) == Some(s')
    ensures s'.sh == s.sh
  {
    s' := Next(cfg, s, Reserve(i, [])).value;
    Extend(cfg, es, s, Reserve(i, []));
  }

  lemma Win(cfg: Config, es: seq<Event>, s: State, n: nat, i: nat) returns (s': State)
    requires Climbed(cfg, es, s, n) && i < |s.rs| && s.rs[i] == Swapping(s.sh.counter)
    ensures Climbed(cfg, es + [Reserve(i, Name(n))], s', n + 1)
    ensures s'.rs == s.rs[i := Inserting(Name(n))]
  {
    s' := Next(cfg, s, Reserve(i, Name(n))).value;
    forall u ensures Occurs(s'.sh.issued, u) <= 1 && (|u| >= n + 1 ==> Occurs(s'.sh.issued, u) == 0) {
      assert Occurs(s.sh.issued, u) <= 1;
      SumSnoc(s.sh.issued, Name(n), Is(u));
    }
    Extend(cfg, es, s, Reserve(i, Name(n)));
  }

  /** A handler that has won inserts its reservation, answers and is idle again. */
  lemma Finish(cfg: Config, es: seq<Event>, s: State, n: nat, i: nat, u: Uuid) returns (es': seq<Event>, s': State)
    requires Climbed(cfg, es, s, n) && i < |s.rs| && s.rs[i] == Inserting(u)
    ensures Climbed(cfg, es', s', n) && s'.rs == s.rs[i := Idle]
  {
    var e := Reserve(i, []);
    es', s' := es, s;
    var k := 0;
    while k < 5
      invariant 0 <= k <= 5 && Reached(cfg, es', s') && i < |s'.rs| && |s'.rs| == |s.rs|
      invariant s'.sh == s.sh.(lock := s'.sh.lock, entries := s'.sh.entries, stamps := s'.sh.stamps)
      invariant s'.ds == s.ds && s'.reaper == s.reaper && s'.rs == s.rs[i := s'.rs[i]]
      invariant s'.sh.lock == if 1 <= k <= 3 then ByReserver(i) else Free
      invariant k == 0 ==> s'.rs[i] == Inserting(u)
      invariant k == 1 ==> s'.rs[i] == Stamping(u)
      invariant k == 2 ==> s'.rs[i].Emplacing?
      invariant k == 3 ==> s'.rs[i].Unlocking?
      invariant k == 4 ==> s'.rs[i].Answered?
      invariant k == 5 ==> s'.rs[i].Idle?
    {
      Extend(cfg, es', s', e);
      es', s', k := es' + [e], Next(cfg, s', e).value, k + 1;
    }
  }

  /** An idle handler starts and passes the capacity test. */
  lemma Enter(cfg: Config, es: seq<Event>, s: State, n: nat, i: nat) returns (es': seq<Event>, s': State)
    requires Climbed(cfg, es, s, n) && i < |s.rs| && s.rs[i] == Idle && !cfg.fused && s.sh.counter < cfg.jobsMax
    ensures Climbed(cfg, es', s', n) && s'.rs == s.rs[i := Loading] && s'.sh == s.sh
  {
    var a := Quiet(cfg, es, s, n, i);
    s' := Quiet(cfg, es + [Reserve(i, [])], a, n, i);
    es' := es + [Reserve(i, [])] + [Reserve(i, [])];
  }

  /** A handler past the test loads the counter and wins the exchange. */
  lemma Take(cfg: Config, es: seq<Event>, s: State, n: nat, i: nat) returns (es': seq<Event>, s': State)
    requires Climbed(cfg, es, s, n) && i < |s.rs| && s.rs[i] == Loading
    ensures Climbed(cfg, es', s', n + 1) && s'.rs == s.rs[i := Inserting(Name(n))]
  {
    var a := Quiet(cfg, es, s, n, i);
    s' := Win(cfg, es + [Reserve(i, [])], a, n, i);
    es' := es + [Reserve(i, [])] + [Reserve(i, Name(n))];
  }

  /** One after the other, n requests are served. */
  lemma {:induction false} Fill(cfg: Config, n: nat) returns (es: seq<Event>, s: State)
    requires cfg.Valid() && !cfg.fused && cfg.reservers >= 1 && n < cfg.jobsMax
    ensures Climbed(cfg, es, s, n) && s.rs == Init(cfg).rs
  {
    if n == 0 {
      es, s := [], Init(cfg);
      forall u ensures Occurs(s.sh.issued, u) == 0 {}
    } else {
      hide Climbed, Run, Distinct;
      es, s := Fill(cfg, n - 1);
      ClimbedSlots(cfg, es, s, n - 1);
      es, s := Enter(cfg, es, s, n - 1, 0);
      es, s := Take(cfg, es, s, n - 1, 0);
      es, s := Finish(cfg, es, s, n, 0, Name(n - 1));
    }
  }

  function Poised(cfg: Config, m: nat): seq<Reserver> {
    seq(cfg.reservers, i => if i < m then Loading else Idle)
  }

  /** With one slot left, m handlers pass the capacity test. */
  lemma {:induction false} Crowd(cfg: Config, m: nat) returns (es: seq<Event>, s: State)
    requires cfg.Valid() && !cfg.fused && cfg.reservers >= 1 && m <= cfg.reservers
    ensures Climbed(cfg, es, s, cfg.jobsMax - 1) && s.rs == Poised(cfg, m)
  {
    var n := cfg.jobsMax - 1;
    if m == 0 {
      es, s := Fill(cfg, n);
      assert s.rs == Poised(cfg, 0);
    } else {
      es, s := Crowd(cfg, m - 1);
      ClimbedSlots(cfg, es, s, n);
      es, s := Enter(cfg, es, s, n, m - 1);
      assert s.rs == Poised(cfg, m);
    }
  }

  /** Of m handlers past the test, the first k load and exchange in turn. */
  lemma {:induction false} Overfill(cfg: Config, m: nat, k: nat) returns (es: seq<Event>, s: State)
    requires cfg.Valid() && !cfg.fused && cfg.reservers >= 1 && k <= m <= cfg.reservers
    ensures Climbed(cfg, es, s, cfg.jobsMax - 1 + k) && |s.rs| == cfg.reservers
    ensures forall i | k <= i < m :: s.rs[i] == Loading
  {
    if k == 0 {
      es, s := Crowd(cfg, m);
    } else {
      es, s := Overfill(cfg, m, k - 1);
      es, s := Take(cfg, es, s, cfg.jobsMax - 2 + k, k - 1);
    }
  }

  /** The bound is attained: m handlers that crowd the last slot all get one, for
      every m up to the number of handlers and every maximum. */
  lemma BoundAttained(cfg: Config, m: nat) returns (es: seq<Event>, s: State)
    requires cfg.Valid() && !cfg.fused && 1 <= cfg.reservers && m <= cfg.reservers
    ensures Reached(cfg, es, s) && Slots(s) == cfg.jobsMax - 1 + m
    ensures s.sh.counter == (cfg.jobsMax - 1 + m) % WORD
  {
    es, s := Overfill(cfg, m, m);
    ClimbedSlots(cfg, es, s, cfg.jobsMax - 1 + m);
  }

  /** No smaller bound holds of all runs. */
  lemma OverAdmissionIsExact(cfg: Config, bound: int)
    requires cfg.Valid() && !cfg.fused && cfg.reservers >= 1 && Ceiling(cfg) < WORD
    ensures (forall es, s :: Reached(cfg, es, s) ==> s.sh.counter + Window(s) <= bound)
            <==> cfg.jobsMax - 1 + cfg.reservers <= bound
  {
    if cfg.jobsMax - 1 + cfg.reservers <= bound {
      forall es, s | Reached(cfg, es, s) ensures s.sh.counter + Window(s) <= bound {
        OverAdmission(cfg, es, s);
      }
    } else {
      var es, s := BoundAttained(cfg, cfg.reservers);
      assert Reached(cfg, es, s);
    }
  }

  /** The configured maximum itself is kept by all runs exactly when there is at most
      one Reserve handler, or the counter cannot show more. */
  lemma PlainCapExactlyWhen(cfg: Config)
    requires cfg.Valid() && !cfg.fused
    ensures (forall es, s :: Reached(cfg, es, s) ==> s.sh.counter <= cfg.jobsMax)
            <==> cfg.reservers <= 1 || cfg.jobsMax == WORD - 1
  {
    if cfg.reservers <= 1 {
      forall es, s | Reached(cfg, es, s) ensures s.sh.counter <= cfg.jobsMax {
        OverAdmission(cfg, es, s);
      }
    } else if cfg.jobsMax == WORD - 1 {
      forall es, s | Reached(cfg, es, s) ensures s.sh.counter <= cfg.jobsMax {
        Invariant(cfg, es, s);
      }
    } else {
      var es, s := BoundAttained(cfg, 2);
      assert Reached(cfg, es, s);
    }
  }

  /** The 64-bit counter tells the number of slots in every reachable state
      exactly when the bound fits in it. */
  lemma ConservationExactlyWhen(cfg: Config)
    requires cfg.Valid() && !cfg.fused && cfg.reservers >= 1
    ensures (forall es, s :: Reached(cfg, es, s) ==> s.sh.counter == Slots(s)) <==> Ceiling(cfg) < WORD
  {
    if Ceiling(cfg) < WORD {
      forall es, s | Reached(cfg, es, s) ensures s.sh.counter == Slots(s) {
        SlotsConserved(cfg, es, s);
      }
    } else {
      var es, s := BoundAttained(cfg, WORD - cfg.jobsMax + 1);
      assert Reached(cfg, es, s) && s.sh.counter != Slots(s);
    }
  }
}
