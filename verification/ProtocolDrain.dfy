/** Once requests stop, the server empties: every handler finishes, and two
    iterations of the reaper take back what nobody claimed. */
module ProtocolDrain {
  import opened Wrappers
  import opened Reservations
  import opened Totals
  import opened Protocol
  import opened ProtocolSafety

  function ReserverWork(pc: Reserver): nat {
    match pc
    case Idle => 0
    case Testing => 8
    case Loading => 7
    case Swapping(_) => 6
    case Inserting(_) => 5
    case Stamping(_) => 4
    case Emplacing(_, _) => 3
    case Unlocking(_) => 2
    case Answered(_) => 1
  }

  function StageWork(stage: Stage): nat {
    match stage
    case Sanitizing => 4
    case CheckingCompiler => 3
    case Decompressing => 2
    case Filtering => 1
    case Compiling => 0
  }

  function DistributorWork(pc: Distributor): nat {
    match pc
    case Resting => 0
    case Arrived(_) => 10
    case Claiming(_) => 9
    case Claimed(_) => 8
    case Working(_, stage) => 3 + StageWork(stage)
    case Releasing(_, _) => 2
    case Missed => 2
    case Replied(_) => 1
  }

  /** How many steps the outstanding handlers have left at most. */
  function Work(s: State): nat {
    Sum(s.rs, ReserverWork) + Sum(s.ds, DistributorWork)
  }

  predicate StartsRequest(s: State, e: Event) {
    || (e.Reserve? && e.i < |s.rs| && s.rs[e.i].Idle?)
    || (e.Distribute? && e.j < |s.ds| && s.ds[e.j].Resting?)
  }

  predicate HandlerStep(e: Event) {
    e.Reserve? || e.Distribute?
  }

  lemma ReserverWorks(cfg: Config, me: nat, sh: Shared, pc: Reserver, d: Uuid)
    requires ReserverNext(cfg, me, sh, pc, d).Some? && !pc.Idle?
    ensures ReserverWork(ReserverNext(cfg, me, sh, pc, d).value.1) < ReserverWork(pc)
  {
  }

  lemma DistributorWorks(me: nat, sh: Shared, pc: Distributor, d: Uuid, leave: bool)
    requires DistributorNext(me, sh, pc, d, leave).Some? && !pc.Resting?
    ensures DistributorWork(DistributorNext(me, sh, pc, d, leave).value.1) < DistributorWork(pc)
  {
  }

  /** Every step of an outstanding handler uses up work; nothing adds any. */
  lemma WorkDecreases(cfg: Config, s: State, e: Event)
    requires Next(cfg, s, e).Some? && !StartsRequest(s, e)
    ensures HandlerStep(e) ==> Work(Next(cfg, s, e).value) < Work(s)
    ensures !HandlerStep(e) ==> Work(Next(cfg, s, e).value) == Work(s)
  {
    match e
    case Reserve(i, d) =>
      ReserverWorks(cfg, i, s.sh, s.rs[i], d);
      SumUpdate(s.rs, ReserverWork, i, ReserverNext(cfg, i, s.sh, s.rs[i], d).value.1);
    case Distribute(j, d, leave) =>
      DistributorWorks(j, s.sh, s.ds[j], d, leave);
      SumUpdate(s.ds, DistributorWork, j, DistributorNext(j, s.sh, s.ds[j], d, leave).value.1);
    case _ =>
  }

  /** A run from s in which no request starts, whatever becomes of the system clock. */
  ghost predicate NoRequests(cfg: Config, s: State, es: seq<Event>) {
    && Run(cfg, s, es).Some?
    && (es != [] ==>
          && NoRequests(cfg, s, es[..|es| - 1])
          && !StartsRequest(Run(cfg, s, es[..|es| - 1]).value, es[|es| - 1]))
  }

  function HandlerSteps(es: seq<Event>): nat {
    if es == [] then 0
    else HandlerSteps(es[..|es| - 1]) + if HandlerStep(es[|es| - 1]) then 1 else 0
  }

  ghost predicate AllIdle(s: State) {
    && (forall i | 0 <= i < |s.rs| :: s.rs[i].Idle?)
    && (forall j | 0 <= j < |s.ds| :: s.ds[j].Resting?)
  }

  lemma IdleExactlyWithoutWork(s: State)
    ensures AllIdle(s) <==> Work(s) == 0
  {
    SumPositive(s.rs, ReserverWork);
    SumPositive(s.ds, DistributorWork);
  }

  lemma {:induction false} StepsUseWork(cfg: Config, s: State, es: seq<Event>)
    requires NoRequests(cfg, s, es)
    ensures HandlerSteps(es) + Work(Run(cfg, s, es).value) <= Work(s)
  {
    if es == [] {
    } else {
      StepsUseWork(cfg, s, es[..|es| - 1]);
      WorkDecreases(cfg, Run(cfg, s, es[..|es| - 1]).value, es[|es| - 1]);
    }
  }

  /** However the scheduler chooses, and however the clock is set, outstanding handlers take at most Work(s) steps;
      when they have taken that many, or have no work left, all are idle. */
  lemma HandlersFinish(cfg: Config, s: State, es: seq<Event>)
    requires NoRequests(cfg, s, es)
    ensures HandlerSteps(es) <= Work(s)
    ensures HandlerSteps(es) == Work(s) ==> AllIdle(Run(cfg, s, es).value)
    ensures AllIdle(Run(cfg, s, es).value) <==> Work(Run(cfg, s, es).value) == 0
  {
    StepsUseWork(cfg, s, es);
    IdleExactlyWithoutWork(Run(cfg, s, es).value);
  }

  /** While a handler is outstanding, some handler or the reaper in its critical
      section can take a step: there is no deadlock. */
  lemma Progress(cfg: Config, s: State, drawn: Uuid) returns (e: Event)
    requires MutualExclusion(s) && !AllIdle(s)
    ensures e.Reserve? ==> e.drawn == drawn
    ensures Next(cfg, s, e).Some? && !StartsRequest(s, e) && !e.Tick?
    ensures e.Reap? ==> ReaperLocks(s.reaper)
  {
    match s.sh.lock
    case ByReserver(i) => e := Reserve(i, drawn);
    case ByDistributor(j) => e := Distribute(j, [], false);
    case ByReaper => e := Reap;
    case Free =>
      if i :| 0 <= i < |s.rs| && !s.rs[i].Idle? {
        e := Reserve(i, drawn);
      } else {
        var j :| 0 <= j < |s.ds| && !s.ds[j].Resting?;
        e := Distribute(j, [], false);
      }
  }

  // --- The reaper -----------------------------------------------------------

  predicate Subtracts(s: State, e: Event) {
    e.Reap? && s.reaper.Erased?
  }

  /** How many iterations of the reaper got as far as the subtraction. */
  ghost function Subtractions(cfg: Config, s: State, es: seq<Event>): nat
    requires Run(cfg, s, es).Some?
  {
    if es == [] then 0
    else Subtractions(cfg, s, es[..|es| - 1])
         + if Subtracts(Run(cfg, s, es[..|es| - 1]).value, es[|es| - 1]) then 1 else 0
  }

  /** Whenever the reaper begins an iteration, the system clock shows at least b. */
  ghost predicate ReadsFrom(cfg: Config, s: State, es: seq<Event>, b: int)
    requires Run(cfg, s, es).Some?
  {
    es != [] ==>
      && ReadsFrom(cfg, s, es[..|es| - 1], b)
      && var m := Run(cfg, s, es[..|es| - 1]).value;
         (es[|es| - 1].Reap? && m.reaper.Top? ==> m.sh.wall >= b)
  }

  /** After k subtractions since all handlers are idle and all stamps lie before b. */
  ghost predicate Emptying(s: State, b: int, k: nat) {
    && AllIdle(s)
    && (forall e | e in s.sh.entries :: e.stamp < b)
    && (k >= 1 ==> s.reaper.Top? || s.reaper.Subtracted? || s.reaper.bound >= b)
    && (k >= 1 && s.reaper.Erased? ==> s.sh.entries == [])
    && (k >= 2 ==> s.sh.entries == [] && Owed(s.reaper) == 0)
  }

  lemma EmptyingStep(cfg: Config, s: State, e: Event, b: int, k: nat)
    requires Emptying(s, b, k) && Next(cfg, s, e).Some? && !StartsRequest(s, e)
    requires e.Reap? && s.reaper.Top? ==> s.sh.wall >= b
    ensures Emptying(Next(cfg, s, e).value, b, k + if Subtracts(s, e) then 1 else 0)
  {
    if e.Reap? && s.reaper.Locked? {
      var n := LowerBound(s.sh.entries, s.reaper.bound);
      forall x | x in s.sh.entries[n..] ensures x in s.sh.entries {}
      assert n < |s.sh.entries| ==> s.sh.entries[n] in s.sh.entries;
    }
  }

  lemma EmptyingNext(cfg: Config, s: State, e: Event, b: int, k: nat)
    requires Inv(cfg, s) && Distinct(s.sh.issued) && Emptying(s, b, k) && Next(cfg, s, e).Some? && !StartsRequest(s, e)
    requires e.Reap? && s.reaper.Top? ==> s.sh.wall >= b
    ensures var t := Next(cfg, s, e).value;
            Inv(cfg, t) && t.sh.issued == s.sh.issued && Emptying(t, b, k + if Subtracts(s, e) then 1 else 0)
  {
    hide Inv, Sorted, MutualExclusion;
    EmptyingStep(cfg, s, e, b, k);
    InvStep(cfg, s, e);
  }

  lemma {:induction false} EmptyingRun(cfg: Config, s: State, es: seq<Event>, b: int)
    requires Inv(cfg, s) && Distinct(s.sh.issued) && Emptying(s, b, 0) && NoRequests(cfg, s, es) && ReadsFrom(cfg, s, es, b)
    ensures var t := Run(cfg, s, es).value;
            Emptying(t, b, Subtractions(cfg, s, es)) && Inv(cfg, t) && t.sh.issued == s.sh.issued
  {
    hide Inv, Emptying, Next, StartsRequest, Subtracts;
    if es == [] {
    } else {
      EmptyingRun(cfg, s, es[..|es| - 1], b);
      EmptyingNext(cfg, Run(cfg, s, es[..|es| - 1]).value, es[|es| - 1], b, Subtractions(cfg, s, es[..|es| - 1]));
    }
  }

  ghost predicate Drained(s: State) {
    s.sh.counter == 0 && s.sh.entries == [] && AllIdle(s) && Slots(s) == 0
  }

  /** When all handlers are idle and no request starts, any run with two
      subtractions of the reaper, whose iterations begin after the last stamp,
      leaves no reservation and a counter of zero. */
  lemma ReaperEmpties(cfg: Config, es: seq<Event>, s: State, more: seq<Event>, b: int)
    requires Reached(cfg, es, s) && AllIdle(s) && (forall e | e in s.sh.entries :: e.stamp < b)
    requires NoRequests(cfg, s, more) && ReadsFrom(cfg, s, more, b) && Subtractions(cfg, s, more) >= 2
    ensures Drained(Run(cfg, s, more).value)
  {
    hide Run, ReadsFrom, Subtractions, MutualExclusion, Sorted, Next;
    Invariant(cfg, es, s);
    EmptyingRun(cfg, s, more, b);
    var t := Run(cfg, s, more).value;
    SumZero(t.rs, InFlight);
    SumZero(t.ds, Held);
  }

  // --- Such runs exist from every reachable state ---------------------------

  lemma Continue(cfg: Config, s: State, es: seq<Event>, e: Event) returns (t: State)
    requires NoRequests(cfg, s, es) && Next(cfg, Run(cfg, s, es).value, e).Some?
    requires !StartsRequest(Run(cfg, s, es).value, e)
    ensures NoRequests(cfg, s, es + [e]) && Run(cfg, s, es + [e]) == Some(t) == Next(cfg, Run(cfg, s, es).value, e)
    ensures Subtractions(cfg, s, es + [e]) == Subtractions(cfg, s, es) + if Subtracts(Run(cfg, s, es).value, e) then 1 else 0
    ensures forall b :: ReadsFrom(cfg, s, es, b) && (e.Reap? && Run(cfg, s, es).value.reaper.Top? ==> Run(cfg, s, es).value.sh.wall >= b)
                        ==> ReadsFrom(cfg, s, es + [e], b)
    ensures NeverSet(es) && (e.Tick? ==> e.jump == 0) ==> NeverSet(es + [e])
  {
    var es' := es + [e];
    assert es'[..|es'| - 1] == es;
    t := Next(cfg, Run(cfg, s, es).value, e).value;
  }

  function ReaperRank(pc: Reaper): nat {
    match pc
    case Erased(_, _) => 0
    case Locked(_) => 1
    case Awake(_) => 2
    case Sleeping(_, _) => 3
    case Top => 4
    case Subtracted(_) => 5
  }

  function CriticalRank(pc: Reaper): nat {
    match pc
    case Locked(_) => 3
    case Erased(_, _) => 2
    case Subtracted(_) => 1
    case _ => 0
  }

  /** There is always a UUID that was not drawn before. */
  lemma {:induction false} Undrawn(us: seq<Uuid>) returns (n: nat)
    ensures forall u: Uuid | |u| >= n :: Occurs(us, u) == 0
  {
    n := 0;
    if us == [] {
    } else {
      var m := Undrawn(us[1..]);
      n := if m > |us[0]| then m else |us[0]| + 1;
    }
  }

  lemma DrawFresh(cfg: Config, s: State, e: Event, u: Uuid)
    requires Distinct(s.sh.issued) && Occurs(s.sh.issued, u) == 0
    requires Next(cfg, s, e).Some? && (e.Reserve? ==> e.drawn == u)
    ensures Distinct(Next(cfg, s, e).value.sh.issued)
  {
    forall v ensures Occurs(Next(cfg, s, e).value.sh.issued, v) <= 1 {
      assert Occurs(s.sh.issued, v) <= 1;
      SumSnoc(s.sh.issued, u, Is(v));
    }
  }

  /** Outstanding handlers can all be run to their end. */
  lemma {:induction false} Settle(cfg: Config, s: State, es: seq<Event>) returns (es': seq<Event>)
    requires NoRequests(cfg, s, es) && NeverSet(es)
    requires var m := Run(cfg, s, es).value; MutualExclusion(m) && Distinct(m.sh.issued)
    ensures NoRequests(cfg, s, es') && NeverSet(es')
    ensures var t := Run(cfg, s, es').value; AllIdle(t) && Distinct(t.sh.issued)
    decreases Work(Run(cfg, s, es).value), CriticalRank(Run(cfg, s, es).value.reaper)
  {
    var m := Run(cfg, s, es).value;
    if AllIdle(m) {
      es' := es;
    } else {
      var n := Undrawn(m.sh.issued);
      var u := seq(n, i => 'u');
      var e := Progress(cfg, m, u);
      var t := Continue(cfg, s, es, e);
      LockMoveExcludes(cfg, m, e);
      WorkDecreases(cfg, m, e);
      DrawFresh(cfg, m, e, u);
      es' := Settle(cfg, s, es + [e]);
    }
  }

  /** From an idle state the reaper can be run to its next subtraction. */
  lemma {:induction false} RunReaper(cfg: Config, s: State, es: seq<Event>, b: int) returns (es': seq<Event>)
    requires NoRequests(cfg, s, es) && NeverSet(es) && ReadsFrom(cfg, s, es, b)
    requires var m := Run(cfg, s, es).value; MutualExclusion(m) && AllIdle(m) && m.sh.wall >= b
    ensures NoRequests(cfg, s, es') && NeverSet(es') && ReadsFrom(cfg, s, es', b)
    ensures var t := Run(cfg, s, es').value; MutualExclusion(t) && AllIdle(t) && t.sh.wall >= b
    ensures Subtractions(cfg, s, es') == Subtractions(cfg, s, es) + 1
    decreases ReaperRank(Run(cfg, s, es).value.reaper),
              var m := Run(cfg, s, es).value; if m.reaper.Sleeping? && m.sh.steady < m.reaper.until then 1 else 0
  {
    hide Run, LowerBound;
    var m := Run(cfg, s, es).value;
    var e := if m.reaper.Sleeping? && m.sh.steady < m.reaper.until then Tick(m.reaper.until - m.sh.steady, 0) else Reap;
    var t := Continue(cfg, s, es, e);
    LockMoveExcludes(cfg, m, e);
    es' := es + [e];
    if !m.reaper.Erased? {
      es' := RunReaper(cfg, s, es', b);
    }
  }

  lemma {:induction false} LatestStamp(es: seq<Entry>) returns (b: int)
    ensures forall e | e in es :: e.stamp < b
  {
    b := 0;
    if es == [] {
    } else {
      var c := LatestStamp(es[1..]);
      b := if c > es[0].stamp then c else es[0].stamp + 1;
    }
  }

  /** Nothing has happened yet. */
  lemma NothingYet(cfg: Config, s: State)
    ensures Run(cfg, s, []) == Some(s) && NoRequests(cfg, s, []) && Subtractions(cfg, s, []) == 0
    ensures forall b :: ReadsFrom(cfg, s, [], b)
  {
  }

  /** The clocks advance until the system clock shows at least b. */
  lemma Await(cfg: Config, s: State, b: int) returns (es: seq<Event>)
    requires AllIdle(s) && MutualExclusion(s)
    ensures NoRequests(cfg, s, es) && NeverSet(es) && ReadsFrom(cfg, s, es, b) && Subtractions(cfg, s, es) == 0
    ensures var t := Run(cfg, s, es).value; AllIdle(t) && MutualExclusion(t) && t.sh.wall >= b
  {
    NothingYet(cfg, s);
    hide Run, NoRequests, Subtractions, ReadsFrom;
    var d := if b > s.sh.wall then b - s.sh.wall else 0;
    var t := Continue(cfg, s, [], Tick(d, 0));
    es := [] + [Tick(d, 0)];
  }

  /** With all handlers idle, the server can be emptied. */
  lemma EmptyIdle(cfg: Config, es: seq<Event>, s: State) returns (more: seq<Event>)
    requires Reached(cfg, es, s) && AllIdle(s)
    ensures NoRequests(cfg, s, more) && NeverSet(more)
    ensures Drained(Run(cfg, s, more).value) && Subtractions(cfg, s, more) == 2
  {
    Invariant(cfg, es, s);
    hide Run, Subtractions, ReadsFrom, MutualExclusion, Drained, Reached, Sorted;
    var b := LatestStamp(s.sh.entries);
    more := Await(cfg, s, b);
    more := RunReaper(cfg, s, more, b);
    more := RunReaper(cfg, s, more, b);
    ReaperEmpties(cfg, es, s, more, b);
  }

  /** From every reachable state, without new requests and with clocks that only
      advance, the server can drain: the outstanding handlers finish within the
      work they have left, and then the reaper empties the list. */
  lemma Drain(cfg: Config, es: seq<Event>, s: State) returns (mid: seq<Event>, more: seq<Event>)
    requires Reached(cfg, es, s)
    ensures NoRequests(cfg, s, mid) && AllIdle(Run(cfg, s, mid).value) && HandlerSteps(mid) <= Work(s)
    ensures NoRequests(cfg, Run(cfg, s, mid).value, more) && Drained(Run(cfg, Run(cfg, s, mid).value, more).value)
    ensures Subtractions(cfg, Run(cfg, s, mid).value, more) == 2 && NeverSet(mid) && NeverSet(more)
    ensures Reached(cfg, es + mid, Run(cfg, s, mid).value)
  {
    Invariant(cfg, es, s);
    NothingYet(cfg, s);
    hide Run, Subtractions, MutualExclusion, Sorted, Drained, Distinct;
    mid := Settle(cfg, s, []);
    HandlersFinish(cfg, s, mid);
    RunAppend(cfg, Init(cfg), es, mid);
    more := EmptyIdle(cfg, es + mid, Run(cfg, s, mid).value);
  }
}
