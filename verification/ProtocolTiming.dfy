/** When reservations are reaped. The system clock, which the time stamps are read
    from, may be adjusted; the steady clock, which sleeping goes by, may not. */
module ProtocolTiming {
  import opened Wrappers
  import opened Reservations
  import opened Protocol
  import opened ProtocolSafety
  import opened ProtocolHistory

  // --- What participants wait for -------------------------------------------------

  /** The reaper sleeps until the timeout has passed since it read its bound. */
  lemma {:induction false} SleepsForTimeout(cfg: Config, es: seq<Event>, s: State)
    requires Run(cfg, Init(cfg), es) == Some(s) && s.reaper.Sleeping?
    ensures s.reaper.until == s.sh.lastRead + cfg.timeout
  {
    if es == [] {
      assert false;
    } else {
      var m := Run(cfg, Init(cfg), es[..|es| - 1]).value;
      if m.reaper.Sleeping? {
        SleepsForTimeout(cfg, es[..|es| - 1], m);
      }
    }
  }

  /** What holds a participant up: a handler waits for nothing but a lock that is not
      free, the reaper for that and, exactly until the timeout has passed since it
      read its bound, for its sleep to end. */
  lemma EnabledExactlyWhen(cfg: Config, es: seq<Event>, s: State, drawn: Uuid, leave: bool)
    requires Run(cfg, Init(cfg), es) == Some(s)
    ensures forall i: nat | i < |s.rs| :: Next(cfg, s, Reserve(i, drawn)).Some? <==> (s.rs[i].Inserting? ==> s.sh.lock.Free?)
    ensures forall j: nat | j < |s.ds| :: Next(cfg, s, Distribute(j, drawn, leave)).Some? <==> (s.ds[j].Arrived? ==> s.sh.lock.Free?)
    ensures Next(cfg, s, Reap).Some? <==>
            if s.reaper.Sleeping? then s.sh.steady >= s.sh.lastRead + cfg.timeout
            else s.reaper.Awake? ==> s.sh.lock.Free?
    ensures forall d, jump :: Next(cfg, s, Tick(d, jump)).Some?
  {
    if s.reaper.Sleeping? {
      SleepsForTimeout(cfg, es, s);
    }
  }

  // --- How the system clock is adjusted -----------------------------------------

  /** It never runs back. */
  ghost predicate NeverBack(es: seq<Event>) {
    forall k | 0 <= k < |es| && es[k].Tick? :: es[k].d + es[k].jump >= 0
  }

  /** It is only ever set forward. */
  ghost predicate OnlyForward(es: seq<Event>) {
    forall k | 0 <= k < |es| && es[k].Tick? :: es[k].jump >= 0
  }

  /** It stands still while no time passes. */
  ghost predicate Paced(es: seq<Event>) {
    forall k | 0 <= k < |es| && es[k].Tick? && es[k].d == 0 :: es[k].jump <= 0
  }

  /** The entry's time stamp was taken at this time on the steady clock. */
  predicate TakenAt(s: State, e: Entry, at: nat) {
    Stamp(e.uuid, e.stamp, at) in s.sh.stamps
  }

  // --- Where stamps come from ---------------------------------------------------

  ghost predicate Stamped(s: State, e: Entry) {
    exists at: nat :: TakenAt(s, e, at)
  }

  ghost predicate AllStamped(s: State) {
    && (forall e | e in s.sh.entries :: Stamped(s, e))
    && (forall i | 0 <= i < |s.rs| && s.rs[i].Emplacing? :: Stamped(s, Entry(s.rs[i].uuid, s.rs[i].stamp)))
  }

  lemma StampsGrow(cfg: Config, s: State, ev: Event, e: Entry)
    requires Next(cfg, s, ev).Some? && Stamped(s, e)
    ensures Stamped(Next(cfg, s, ev).value, e)
  {
    var at :| TakenAt(s, e, at);
    assert TakenAt(Next(cfg, s, ev).value, e, at);
  }

  lemma EntriesFrom(cfg: Config, s: State, ev: Event, e: Entry)
    requires Next(cfg, s, ev).Some? && e in Next(cfg, s, ev).value.sh.entries
    ensures e in s.sh.entries
            || (ev.Reserve? && s.rs[ev.i].Emplacing? && e == Entry(s.rs[ev.i].uuid, s.rs[ev.i].stamp))
  {
    if ev.Distribute? && s.ds[ev.j].Claiming? {
      EraseUuidMembers(s.sh.entries, s.ds[ev.j].uuid);
    }
  }

  lemma AllStampedStep(cfg: Config, s: State, ev: Event)
    requires Next(cfg, s, ev).Some? && AllStamped(s)
    ensures AllStamped(Next(cfg, s, ev).value)
  {
    var s' := Next(cfg, s, ev).value;
    forall e | e in s'.sh.entries ensures Stamped(s', e) {
      EntriesFrom(cfg, s, ev, e);
      StampsGrow(cfg, s, ev, e);
    }
    forall i | 0 <= i < |s'.rs| && s'.rs[i].Emplacing? ensures Stamped(s', Entry(s'.rs[i].uuid, s'.rs[i].stamp)) {
      if s.rs[i].Emplacing? {
        StampsGrow(cfg, s, ev, Entry(s.rs[i].uuid, s.rs[i].stamp));
      } else {
        assert TakenAt(s', Entry(s'.rs[i].uuid, s'.rs[i].stamp), s.sh.steady);
      }
    }
  }

  lemma {:induction false} AllStampedRun(cfg: Config, es: seq<Event>, s: State)
    requires Run(cfg, Init(cfg), es) == Some(s)
    ensures AllStamped(s)
  {
    if es == [] {
    } else {
      AllStampedRun(cfg, es[..|es| - 1], Run(cfg, Init(cfg), es[..|es| - 1]).value);
      AllStampedStep(cfg, Run(cfg, Init(cfg), es[..|es| - 1]).value, es[|es| - 1]);
    }
  }

  // --- Not too early --------------------------------------------------------------

  predicate HasBound(pc: Reaper) {
    pc.Sleeping? || pc.Awake? || pc.Locked?
  }

  /** On a clock that never runs back: the bound was read when the iteration began,
      and a stamp below it was taken no later than that. */
  ghost predicate BoundInTime(cfg: Config, s: State, paced: bool) {
    && s.sh.lastRead <= s.sh.steady
    && (s.reaper.Sleeping? ==> s.reaper.until == s.sh.lastRead + cfg.timeout)
    && (s.reaper.Awake? || s.reaper.Locked? ==> s.sh.steady >= s.sh.lastRead + cfg.timeout)
    && (HasBound(s.reaper) ==> s.reaper.bound <= s.sh.wall)
    && (forall x | x in s.sh.stamps :: x.wall <= s.sh.wall && x.at <= s.sh.steady
                                       && (paced && x.wall < s.sh.wall ==> x.at < s.sh.steady))
    && (HasBound(s.reaper) ==>
          forall x | x in s.sh.stamps && x.wall < s.reaper.bound ::
            x.at <= s.sh.lastRead && (paced ==> x.at < s.sh.lastRead))
  }

  lemma BoundInTimeStep(cfg: Config, s: State, e: Event, paced: bool)
    requires BoundInTime(cfg, s, paced) && Next(cfg, s, e).Some?
    requires e.Tick? ==> e.d + e.jump >= 0 && (paced && e.d == 0 ==> e.jump <= 0)
    ensures BoundInTime(cfg, Next(cfg, s, e).value, paced)
  {
  }

  lemma {:induction false} BoundInTimeRun(cfg: Config, es: seq<Event>, s: State, paced: bool)
    requires Run(cfg, Init(cfg), es) == Some(s) && NeverBack(es) && (paced ==> Paced(es))
    ensures BoundInTime(cfg, s, paced)
  {
    if es == [] {
    } else {
      var m := Run(cfg, Init(cfg), es[..|es| - 1]).value;
      BoundInTimeRun(cfg, es[..|es| - 1], m, paced);
      BoundInTimeStep(cfg, m, es[|es| - 1], paced);
    }
  }

  /** No reservation is reaped before the timeout has truly passed since its stamp
      was taken, on any clock that never runs back; and never at the timeout
      exactly, unless the clock was set forward in no time. */
  lemma ReapedNoEarlierThanTimeout(cfg: Config, es: seq<Event>, s: State, i: nat)
    requires Run(cfg, Init(cfg), es) == Some(s) && NeverBack(es) && s.reaper.Locked?
    requires i < LowerBound(s.sh.entries, s.reaper.bound)
    ensures exists at: nat :: TakenAt(s, s.sh.entries[i], at)
    ensures forall at: nat :: TakenAt(s, s.sh.entries[i], at) ==>
                           s.sh.steady - at >= cfg.timeout && (Paced(es) ==> s.sh.steady - at > cfg.timeout)
  {
    AllStampedRun(cfg, es, s);
    BoundInTimeRun(cfg, es, s, false);
    if Paced(es) {
      BoundInTimeRun(cfg, es, s, true);
    }
    assert Stamped(s, s.sh.entries[i]);
  }

  /** On a clock that is only set forward, the time since the reaper read its bound
      has passed on that clock too. */
  ghost predicate BoundAged(cfg: Config, s: State) {
    match s.reaper
    case Sleeping(b, until) => s.sh.wall - b >= s.sh.steady - (until - cfg.timeout)
    case Awake(b) => s.sh.wall - b >= cfg.timeout
    case Locked(b) => s.sh.wall - b >= cfg.timeout
    case _ => true
  }

  lemma BoundAgedStep(cfg: Config, s: State, e: Event)
    requires BoundAged(cfg, s) && Next(cfg, s, e).Some? && (e.Tick? ==> e.jump >= 0)
    ensures BoundAged(cfg, Next(cfg, s, e).value)
  {
  }

  lemma {:induction false} BoundAgedRun(cfg: Config, es: seq<Event>, s: State)
    requires Run(cfg, Init(cfg), es) == Some(s) && OnlyForward(es)
    ensures BoundAged(cfg, s)
  {
    if es == [] {
    } else {
      var m := Run(cfg, Init(cfg), es[..|es| - 1]).value;
      BoundAgedRun(cfg, es[..|es| - 1], m);
      BoundAgedStep(cfg, m, es[|es| - 1]);
    }
  }

  /** No reservation is reaped before its age by the system clock exceeds the
      timeout, if that clock is only ever set forward. */
  lemma ReapedOnlyAfterTimeout(cfg: Config, es: seq<Event>, s: State, i: nat)
    requires Run(cfg, Init(cfg), es) == Some(s) && OnlyForward(es) && s.reaper.Locked?
    requires i < LowerBound(s.sh.entries, s.reaper.bound)
    ensures s.sh.wall - s.sh.entries[i].stamp > cfg.timeout
  {
    BoundAgedRun(cfg, es, s);
  }

  // --- A reservation that is handed in on time -------------------------------------

  /** The timeout has passed since a stamp was taken for u. */
  ghost predicate Overdue(cfg: Config, s: State, u: Uuid, paced: bool) {
    exists x :: x in s.sh.stamps && x.uuid == u && x.at + cfg.timeout <= s.sh.steady
                && (paced ==> x.at + cfg.timeout < s.sh.steady)
  }

  lemma {:induction false} UuidOfEntry(es: seq<Entry>, u: Uuid) returns (i: nat)
    requires u in Uuids(es)
    ensures i < |es| && es[i].uuid == u
  {
    if es[0].uuid == u {
      i := 0;
    } else {
      i := UuidOfEntry(es[1..], u);
      i := i + 1;
    }
  }

  /** What the reaper is about to erase is overdue. */
  lemma ErasedIsOverdue(cfg: Config, s: State, u: Uuid, paced: bool)
    requires AllStamped(s) && BoundInTime(cfg, s, paced) && s.reaper.Locked?
    requires u in Uuids(s.sh.entries[..LowerBound(s.sh.entries, s.reaper.bound)])
    ensures Overdue(cfg, s, u, paced)
  {
    var i := UuidOfEntry(s.sh.entries[..LowerBound(s.sh.entries, s.reaper.bound)], u);
    var e := s.sh.entries[i];
    assert Stamped(s, e);
    var at: nat :| TakenAt(s, e, at);
    assert Stamp(e.uuid, e.stamp, at) in s.sh.stamps;
  }

  lemma StaysOverdue(cfg: Config, s: State, ev: Event, u: Uuid, paced: bool)
    requires Next(cfg, s, ev).Some? && Overdue(cfg, s, u, paced)
    ensures Overdue(cfg, Next(cfg, s, ev).value, u, paced)
  {
    var x :| x in s.sh.stamps && x.uuid == u && x.at + cfg.timeout <= s.sh.steady
             && (paced ==> x.at + cfg.timeout < s.sh.steady);
    assert x in Next(cfg, s, ev).value.sh.stamps;
  }

  lemma ReapedStep(cfg: Config, s: State, ev: Event, u: Uuid)
    requires Next(cfg, s, ev).Some? && u in Next(cfg, s, ev).value.sh.reaped && u !in s.sh.reaped
    ensures ev.Reap? && s.reaper.Locked?
    ensures u in Uuids(s.sh.entries[..LowerBound(s.sh.entries, s.reaper.bound)])
  {
  }

  /** Whatever was reaped in a run was overdue. */
  lemma {:induction false} ReapedIsOverdue(cfg: Config, es: seq<Event>, s: State, u: Uuid, paced: bool)
    requires Run(cfg, Init(cfg), es) == Some(s) && NeverBack(es) && (paced ==> Paced(es)) && u in s.sh.reaped
    ensures Overdue(cfg, s, u, paced)
  {
    hide Next, Overdue, AllStamped, BoundInTime;
    if es == [] {
      assert false;
    } else {
      var m := Run(cfg, Init(cfg), es[..|es| - 1]).value;
      if u in m.sh.reaped {
        ReapedIsOverdue(cfg, es[..|es| - 1], m, u, paced);
      } else {
        ReapedStep(cfg, m, es[|es| - 1], u);
        AllStampedRun(cfg, es[..|es| - 1], m);
        BoundInTimeRun(cfg, es[..|es| - 1], m, paced);
        ErasedIsOverdue(cfg, m, u, paced);
      }
      StaysOverdue(cfg, m, es[|es| - 1], u, paced);
    }
  }

  /** The timeout has not passed since the reservation was stamped; on a clock that
      stands still while no time passes it may just be over. */
  ghost predicate OnTime(cfg: Config, s: State, u: Uuid, paced: bool) {
    forall x | x in s.sh.stamps && x.uuid == u :: s.sh.steady < x.at + cfg.timeout + if paced then 1 else 0
  }

  /** What a client relies on: a reservation that has been made and not been claimed
      is still there before the timeout, so handing it in succeeds. */
  lemma ClaimInTimeSucceeds(cfg: Config, es: seq<Event>, s: State, u: Uuid, paced: bool)
    requires Reached(cfg, es, s) && NeverBack(es) && (paced ==> Paced(es))
    requires Settled(s, u) > 0 && Occurs(s.sh.claimed, u) == 0 && OnTime(cfg, s, u, paced)
    ensures Pending(s.sh.entries, u) == 1
    ensures forall j, d, leave | 0 <= j < |s.ds| && s.ds[j] == Claiming(u) ::
              Next(cfg, s, Distribute(j, d, leave)).Some? && Next(cfg, s, Distribute(j, d, leave)).value.ds[j] == Claimed(u)
  {
    Invariant(cfg, es, s);
    assert Accounted(s, u);
    if u in s.sh.reaped {
      ReapedIsOverdue(cfg, es, s, u, paced);
    } else {
      NeverOccurs(s.sh.reaped, u);
    }
    EraseUuid(s.sh.entries, u, u);
  }

  lemma {:induction false} NeverOccurs(us: seq<Uuid>, u: Uuid)
    requires u !in us
    ensures Occurs(us, u) == 0
  {
    if us == [] {
    } else {
      NeverOccurs(us[1..], u);
    }
  }

  // --- Not too late ---------------------------------------------------------------

  /** How many iterations the reaper has completed. */
  ghost function Iterations(cfg: Config, es: seq<Event>): nat
    requires Run(cfg, Init(cfg), es).Some?
  {
    if es == [] then 0
    else
      var m := Run(cfg, Init(cfg), es[..|es| - 1]).value;
      Iterations(cfg, es[..|es| - 1]) + if es[|es| - 1].Reap? && m.reaper.Subtracted? then 1 else 0
  }

  /** In no state of the run has the reaper been in its iteration for longer than
      `period`. */
  ghost predicate Prompt(cfg: Config, es: seq<Event>, period: nat) {
    && Run(cfg, Init(cfg), es).Some?
    && Current(Run(cfg, Init(cfg), es).value, period)
    && (es != [] ==> Prompt(cfg, es[..|es| - 1], period))
  }

  predicate Current(s: State, period: nat) {
    s.sh.steady <= s.sh.lastRead + period
  }

  lemma GoOn(cfg: Config, es: seq<Event>, s: State, e: Event) returns (t: State)
    requires Prompt(cfg, es, cfg.timeout) && Run(cfg, Init(cfg), es) == Some(s)
    requires Next(cfg, s, e).Some? && Current(Next(cfg, s, e).value, cfg.timeout)
    ensures Prompt(cfg, es + [e], cfg.timeout) && Run(cfg, Init(cfg), es + [e]) == Some(t) == Next(cfg, s, e)
    ensures Iterations(cfg, es + [e]) == Iterations(cfg, es) + if e.Reap? && s.reaper.Subtracted? then 1 else 0
  {
    assert (es + [e])[..|es + [e]| - 1] == es;
    t := Next(cfg, s, e).value;
  }

  /** The reaper can run through an iteration in exactly the timeout. */
  lemma IterateOnce(cfg: Config, es: seq<Event>, s: State) returns (es': seq<Event>, s': State)
    requires Prompt(cfg, es, cfg.timeout) && Run(cfg, Init(cfg), es) == Some(s)
    requires s.reaper.Top? && s.sh.lock.Free?
    ensures Prompt(cfg, es', cfg.timeout) && Run(cfg, Init(cfg), es') == Some(s')
    ensures s'.reaper.Top? && s'.sh.lock.Free? && s'.sh.steady == s.sh.steady + cfg.timeout
    ensures Iterations(cfg, es') == Iterations(cfg, es) + 1
  {
    hide Run, Prompt, Iterations;
    var a := GoOn(cfg, es, s, Reap);
    var b := GoOn(cfg, es + [Reap], a, Tick(cfg.timeout, 0));
    es' := es + [Reap] + [Tick(cfg.timeout, 0)];
    var c := GoOn(cfg, es', b, Reap);
    var d := GoOn(cfg, es' + [Reap], c, Reap);
    es' := es' + [Reap] + [Reap];
    var e := GoOn(cfg, es', d, Reap);
    var f := GoOn(cfg, es' + [Reap], e, Reap);
    es' := es' + [Reap] + [Reap];
    s' := GoOn(cfg, es', f, Reap);
    es' := es' + [Reap];
  }

  /** Iterations can be as short as the timeout, any number of them: the reaper is
      never held up for longer by its own sleep. */
  lemma {:induction false} PromptRuns(cfg: Config, n: nat) returns (es: seq<Event>, s: State)
    ensures Prompt(cfg, es, cfg.timeout) && Run(cfg, Init(cfg), es) == Some(s)
    ensures Iterations(cfg, es) == n && s.sh.steady == n * cfg.timeout
    ensures s.reaper.Top? && s.sh.lock.Free?
  {
    if n == 0 {
      es, s := [], Init(cfg);
    } else {
      es, s := PromptRuns(cfg, n - 1);
      es, s := IterateOnce(cfg, es, s);
      assert n * cfg.timeout == (n - 1) * cfg.timeout + cfg.timeout;
    }
  }

  /** A time that is not before the iteration in which a stamp taken then can still
      be erased. */
  predicate InTime(s: State, at: nat) {
    at >= s.sh.lastRead || (at >= s.sh.prevRead && HasBound(s.reaper))
  }

  ghost predicate EntryInTime(s: State, e: Entry) {
    forall at: nat :: TakenAt(s, e, at) ==> InTime(s, at)
  }

  /** On a clock that is only set forward: what is pending, or about to be, was
      stamped in the current iteration or, before the erase, in the one before. */
  ghost predicate Clocked(s: State, period: nat) {
    && s.sh.prevRead <= s.sh.lastRead <= s.sh.steady
    && s.sh.lastRead <= s.sh.prevRead + period
    && (forall x | x in s.sh.stamps :: s.sh.wall - x.wall >= s.sh.steady - x.at >= 0)
    && (HasBound(s.reaper) ==> forall x | x in s.sh.stamps && x.wall >= s.reaper.bound :: x.at >= s.sh.lastRead)
    && (HasBound(s.reaper) ==> s.sh.wall >= s.reaper.bound)
    && (forall e | e in s.sh.entries :: EntryInTime(s, e))
    && (forall i | 0 <= i < |s.rs| && s.rs[i].Emplacing? :: EntryInTime(s, Entry(s.rs[i].uuid, s.rs[i].stamp)))
  }

  lemma StaysInTime(s: State, s': State, e: Entry)
    requires EntryInTime(s, e)
    requires forall x | x in s'.sh.stamps :: x in s.sh.stamps || x.at >= s'.sh.lastRead
    requires forall at: nat :: InTime(s, at) ==> InTime(s', at)
    ensures EntryInTime(s', e)
  {
    forall at: nat | TakenAt(s', e, at) ensures InTime(s', at) {
      assert TakenAt(s, e, at) ==> InTime(s, at);
    }
  }

  /** A stamp that is taken now is in time, and so is any that shows the same. */
  lemma FreshInTime(s: State, s': State, e: Entry, period: nat)
    requires Clocked(s, period) && e.stamp == s.sh.wall
    requires s'.sh.stamps == s.sh.stamps + {Stamp(e.uuid, e.stamp, s.sh.steady)} && s'.sh.lastRead == s.sh.lastRead
    ensures EntryInTime(s', e)
  {
    forall at: nat | TakenAt(s', e, at) ensures InTime(s', at) {
      assert TakenAt(s, e, at) || at == s.sh.steady;
    }
  }

  lemma ClockedReserve(cfg: Config, s: State, i: nat, d: Uuid, period: nat)
    requires Clocked(s, period) && Next(cfg, s, Reserve(i, d)).Some?
    ensures Clocked(Next(cfg, s, Reserve(i, d)).value, period)
  {
    var s' := Next(cfg, s, Reserve(i, d)).value;
    forall e | e in s'.sh.entries ensures EntryInTime(s', e) {
      EntriesFrom(cfg, s, Reserve(i, d), e);
      StaysInTime(s, s', e);
    }
    forall k | 0 <= k < |s'.rs| && s'.rs[k].Emplacing? ensures EntryInTime(s', Entry(s'.rs[k].uuid, s'.rs[k].stamp)) {
      if s.rs[k].Emplacing? {
        StaysInTime(s, s', Entry(s.rs[k].uuid, s.rs[k].stamp));
      } else {
        FreshInTime(s, s', Entry(s'.rs[k].uuid, s'.rs[k].stamp), period);
      }
    }
  }

  /** After the erase only stamps from the bound on are left. */
  lemma ErasedInTime(s: State, s': State, e: Entry, period: nat)
    requires Clocked(s, period) && Sorted(s.sh.entries) && s.reaper.Locked?
    requires e in s.sh.entries[LowerBound(s.sh.entries, s.reaper.bound)..]
    requires s'.sh.stamps == s.sh.stamps && s'.sh.lastRead == s.sh.lastRead
    ensures EntryInTime(s', e)
  {
    var n := LowerBound(s.sh.entries, s.reaper.bound);
    var k :| n <= k < |s.sh.entries| && s.sh.entries[k] == e;
    assert s.sh.entries[n].stamp <= e.stamp;
  }

  lemma ClockedReap(cfg: Config, s: State, period: nat)
    requires Clocked(s, period) && MutualExclusion(s) && Sorted(s.sh.entries) && Current(s, period)
    requires Next(cfg, s, Reap).Some?
    ensures Clocked(Next(cfg, s, Reap).value, period)
  {
    var s' := Next(cfg, s, Reap).value;
    forall e | e in s'.sh.entries ensures EntryInTime(s', e) {
      if s.reaper.Locked? {
        ErasedInTime(s, s', e, period);
      } else {
        StaysInTime(s, s', e);
      }
    }
    forall i | 0 <= i < |s.rs| && s.rs[i].Emplacing? ensures EntryInTime(s', Entry(s.rs[i].uuid, s.rs[i].stamp)) {
      assert ReserverLocks(s.rs[i]);
      StaysInTime(s, s', Entry(s.rs[i].uuid, s.rs[i].stamp));
    }
  }

  /** Steps that leave the reaper and the stamps alone. */
  lemma ClockedOther(cfg: Config, s: State, ev: Event, period: nat)
    requires Clocked(s, period) && Next(cfg, s, ev).Some?
    requires ev.Distribute? || (ev.Tick? && ev.jump >= 0)
    ensures Clocked(Next(cfg, s, ev).value, period)
  {
    var s' := Next(cfg, s, ev).value;
    forall e | e in s'.sh.entries ensures EntryInTime(s', e) {
      EntriesFrom(cfg, s, ev, e);
      StaysInTime(s, s', e);
    }
    forall i | 0 <= i < |s.rs| && s.rs[i].Emplacing? ensures EntryInTime(s', Entry(s.rs[i].uuid, s.rs[i].stamp)) {
      StaysInTime(s, s', Entry(s.rs[i].uuid, s.rs[i].stamp));
    }
  }

  lemma ClockedStep(cfg: Config, s: State, e: Event, period: nat)
    requires Clocked(s, period) && Inv(cfg, s) && Current(s, period)
    requires Next(cfg, s, e).Some? && (e.Tick? ==> e.jump >= 0)
    ensures Clocked(Next(cfg, s, e).value, period)
  {
    match e
    case Reserve(i, d) => ClockedReserve(cfg, s, i, d, period);
    case Reap => ClockedReap(cfg, s, period);
    case _ => ClockedOther(cfg, s, e, period);
  }

  lemma {:induction false} ClockedRun(cfg: Config, es: seq<Event>, s: State, period: nat)
    requires Reached(cfg, es, s) && OnlyForward(es) && Prompt(cfg, es, period)
    ensures Clocked(s, period)
  {
    if es == [] {
    } else {
      var m := ReachedBefore(cfg, es, s);
      ClockedRun(cfg, es[..|es| - 1], m, period);
      Invariant(cfg, es[..|es| - 1], m);
      ClockedStep(cfg, m, es[|es| - 1], period);
    }
  }

  ghost predicate Synchronous(cfg: Config, s: State) {
    && s.sh.wall == cfg.epoch + s.sh.steady
    && (forall x | x in s.sh.stamps :: x.wall == cfg.epoch + x.at)
  }

  lemma SynchronousStep(cfg: Config, s: State, e: Event)
    requires Synchronous(cfg, s) && Next(cfg, s, e).Some? && (e.Tick? ==> e.jump == 0)
    ensures Synchronous(cfg, Next(cfg, s, e).value)
  {
  }

  lemma {:induction false} SynchronousRun(cfg: Config, es: seq<Event>, s: State)
    requires Run(cfg, Init(cfg), es) == Some(s) && NeverSet(es)
    ensures Synchronous(cfg, s)
  {
    if es == [] {
    } else {
      var m := Run(cfg, Init(cfg), es[..|es| - 1]).value;
      SynchronousRun(cfg, es[..|es| - 1], m);
      SynchronousStep(cfg, m, es[|es| - 1]);
    }
  }

  /** None escapes: if the clock is only ever set forward and iterations are prompt,
      a reservation is pending for at most two periods after its stamp was taken;
      if the clock is never set, that is what its stamp says too. */
  lemma GoneAfterTwoPeriods(cfg: Config, es: seq<Event>, s: State, period: nat, i: nat)
    requires Reached(cfg, es, s) && OnlyForward(es) && Prompt(cfg, es, period) && i < |s.sh.entries|
    ensures exists at: nat :: TakenAt(s, s.sh.entries[i], at)
    ensures forall at: nat :: TakenAt(s, s.sh.entries[i], at) ==> s.sh.steady <= at + 2 * period
    ensures NeverSet(es) ==> s.sh.wall <= s.sh.entries[i].stamp + 2 * period
  {
    AllStampedRun(cfg, es, s);
    ClockedRun(cfg, es, s, period);
    PromptNow(cfg, es, s, period);
    assert Stamped(s, s.sh.entries[i]) && EntryInTime(s, s.sh.entries[i]);
    if NeverSet(es) {
      SynchronousRun(cfg, es, s);
    }
  }

  lemma PromptNow(cfg: Config, es: seq<Event>, s: State, period: nat)
    requires Run(cfg, Init(cfg), es) == Some(s) && Prompt(cfg, es, period)
    ensures Current(s, period)
  {
  }
}
