/** The job-slot protocol of the server as a transition system: any number of
    Reserve handlers and Distribute handlers and one reaper share a lock-free
    counter and a list of reservations that is protected by a lock. One step is
    one atomic action of the code. */
module Protocol {
  import opened Wrappers
  import opened Reservations
  import opened Totals

  /** The number of values of the 64-bit slot counter. */
  const WORD: nat := 0x1_0000_0000_0000_0000

  /** What the server is started with, and how many handlers may run at once.
      With `fused` the capacity test and the load are a single read. */
  datatype Config = Config(jobsMax: nat, timeout: nat, reservers: nat, distributors: nat, epoch: int, fused: bool) {
    predicate Valid() {
      1 <= jobsMax < WORD
    }
  }

  datatype Owner = Free | ByReserver(i: nat) | ByDistributor(j: nat) | ByReaper

  /** What a Reserve call replies. */
  datatype Answer = Granted(uuid: Uuid) | Full(jobs: nat)

  /** Where a Reserve handler is. `Swapping` has loaded the counter, `Inserting`
      has won the exchange and waits for the lock, which the next three hold. */
  datatype Reserver =
    | Idle
    | Testing
    | Loading
    | Swapping(seen: nat)
    | Inserting(uuid: Uuid)
    | Stamping(uuid: Uuid)
    | Emplacing(uuid: Uuid, stamp: int)
    | Unlocking(uuid: Uuid)
    | Answered(answer: Answer)

  /** The places at which a Distribute call that holds a slot can return. */
  datatype Stage = Sanitizing | CheckingCompiler | Decompressing | Filtering | Compiling

  datatype Status = OK | InvalidArgument | FailedPrecondition

  /** Where a Distribute handler is. `Claiming`, `Missed` and `Claimed` hold the
      lock; from `Claimed` to `Releasing` it holds a slot. */
  datatype Distributor =
    | Resting
    | Arrived(uuid: Uuid)
    | Claiming(uuid: Uuid)
    | Missed
    | Claimed(uuid: Uuid)
    | Working(uuid: Uuid, stage: Stage)
    | Releasing(uuid: Uuid, status: Status)
    | Replied(status: Status)

  /** Where the reaper is in an iteration; the last three hold the lock. */
  datatype Reaper =
    | Top
    | Sleeping(bound: int, until: nat)
    | Awake(bound: int)
    | Locked(bound: int)
    | Erased(bound: int, owed: nat)
    | Subtracted(bound: int)

  /** What all handlers can see. `wall` is the system clock, which may be set to
      any value; `steady` is the clock that sleeping goes by. The rest is
      history: the UUIDs handed out by winning exchanges, the successful claims,
      the reaped UUIDs, the time stamps taken, and when the reaper began its last
      two iterations. */
  datatype Shared = Shared(
    counter: nat, entries: seq<Entry>, lock: Owner, wall: int, steady: nat,
    issued: seq<Uuid>, claimed: seq<Uuid>, reaped: seq<Uuid>, stamps: set<Stamp>, lastRead: nat, prevRead: nat)

  /** A time stamp, and when on the steady clock it was taken. */
  datatype Stamp = Stamp(uuid: Uuid, wall: int, at: nat)

  datatype State = State(sh: Shared, rs: seq<Reserver>, ds: seq<Distributor>, reaper: Reaper)

  /** One step of one participant, or the passing of `d` ticks after which the
      system clock is off by a further `jump`. */
  datatype Event =
    | Reserve(i: nat, drawn: Uuid)
    | Distribute(j: nat, wanted: Uuid, leave: bool)
    | Reap
    | Tick(d: nat, jump: int)

  function Init(cfg: Config): State {
    State(
      Shared(0, [], Free, cfg.epoch, 0, [], [], [], {}, 0, 0),
      seq(cfg.reservers, i => Idle), seq(cfg.distributors, i => Resting), Top)
  }

  /** Subtraction as the 64-bit counter does it. */
  function Minus(c: nat, k: nat): nat {
    (c - k) % WORD
  }

  function ReserverNext(cfg: Config, me: nat, sh: Shared, pc: Reserver, drawn: Uuid): Option<(Shared, Reserver)> {
    match pc
    case Idle => Some((sh, Testing))
    case Testing =>
      if sh.counter < cfg.jobsMax then
        Some((sh, if cfg.fused then Swapping(sh.counter) else Loading))
      else
        Some((sh, Answered(Full(cfg.jobsMax))))
    case Loading => Some((sh, Swapping(sh.counter)))
    case Swapping(seen) =>
      if sh.counter == seen then
        Some((sh.(counter := (seen + 1) % WORD, issued := sh.issued + [drawn]), Inserting(drawn)))
      else
        Some((sh, Answered(Full(sh.counter))))
    case Inserting(u) => if sh.lock.Free? then Some((sh.(lock := ByReserver(me)), Stamping(u))) else None
    case Stamping(u) => Some((sh.(stamps := sh.stamps + {Stamp(u, sh.wall, sh.steady)}), Emplacing(u, sh.wall)))
    case Emplacing(u, t) => Some((sh.(entries := Insert(sh.entries, Entry(u, t))), Unlocking(u)))
    case Unlocking(u) => Some((sh.(lock := Free), Answered(Granted(u))))
    case Answered(_) => Some((sh, Idle))
  }

  function NextStage(stage: Stage): Option<Stage> {
    match stage
    case Sanitizing => Some(CheckingCompiler)
    case CheckingCompiler => Some(Decompressing)
    case Decompressing => Some(Filtering)
    case Filtering => Some(Compiling)
    case Compiling => None
  }

  function DistributorNext(me: nat, sh: Shared, pc: Distributor, wanted: Uuid, leave: bool): Option<(Shared, Distributor)> {
    match pc
    case Resting => Some((sh, Arrived(wanted)))
    case Arrived(u) => if sh.lock.Free? then Some((sh.(lock := ByDistributor(me)), Claiming(u))) else None
    case Claiming(u) =>
      var kept := WithoutUuid(sh.entries, u);
      if |kept| == |sh.entries| then
        Some((sh, Missed))
      else
        Some((sh.(entries := kept, claimed := sh.claimed + [u]), Claimed(u)))
    case Missed => Some((sh.(lock := Free), Replied(FailedPrecondition)))
    case Claimed(u) => Some((sh.(lock := Free), Working(u, Sanitizing)))
    case Working(u, stage) =>
      if stage.Compiling? then Some((sh, Releasing(u, OK)))
      else if leave then Some((sh, Releasing(u, InvalidArgument)))
      else Some((sh, Working(u, NextStage(stage).value)))
    case Releasing(u, status) => Some((sh.(counter := Minus(sh.counter, 1)), Replied(status)))
    case Replied(_) => Some((sh, Resting))
  }

  function ReaperNext(cfg: Config, sh: Shared, pc: Reaper): Option<(Shared, Reaper)> {
    match pc
    case Top => Some((sh.(lastRead := sh.steady, prevRead := sh.lastRead), Sleeping(sh.wall, sh.steady + cfg.timeout)))
    case Sleeping(b, until) => if sh.steady >= until then Some((sh, Awake(b))) else None
    case Awake(b) => if sh.lock.Free? then Some((sh.(lock := ByReaper), Locked(b))) else None
    case Locked(b) =>
      var k := LowerBound(sh.entries, b);
      var kept := sh.entries[k..];
      Some((sh.(entries := kept, reaped := sh.reaped + Uuids(sh.entries[..k])), Erased(b, |sh.entries| - |kept|)))
    case Erased(b, owed) => Some((sh.(counter := Minus(sh.counter, owed)), Subtracted(b)))
    case Subtracted(b) => Some((sh.(lock := Free), Top))
  }

  function Next(cfg: Config, s: State, e: Event): Option<State> {
    match e
    case Reserve(i, u) =>
      if i >= |s.rs| then None else
      (match ReserverNext(cfg, i, s.sh, s.rs[i], u)
       case None => None
       case Some((sh, pc)) => Some(s.(sh := sh, rs := s.rs[i := pc])))
    case Distribute(j, u, leave) =>
      if j >= |s.ds| then None else
      (match DistributorNext(j, s.sh, s.ds[j], u, leave)
       case None => None
       case Some((sh, pc)) => Some(s.(sh := sh, ds := s.ds[j := pc])))
    case Reap =>
      (match ReaperNext(cfg, s.sh, s.reaper)
       case None => None
       case Some((sh, pc)) => Some(s.(sh := sh, reaper := pc)))
    case Tick(d, jump) =>
      Some(s.(sh := s.sh.(wall := s.sh.wall + d + jump, steady := s.sh.steady + d)))
  }

  /** The state after a run, if every step of it is enabled. */
  function Run(cfg: Config, s: State, es: seq<Event>): Option<State> {
    if es == [] then Some(s) else
    match Run(cfg, s, es[..|es| - 1])
    case None => None
    case Some(m) => Next(cfg, m, es[|es| - 1])
  }

  /** The system clock is never set: it advances with the steady one. */
  ghost predicate NeverSet(es: seq<Event>) {
    forall k | 0 <= k < |es| && es[k].Tick? :: es[k].jump == 0
  }

  lemma {:induction false} RunAppend(cfg: Config, s: State, a: seq<Event>, b: seq<Event>)
    requires Run(cfg, s, a).Some?
    ensures Run(cfg, s, a + b) == Run(cfg, Run(cfg, s, a).value, b)
  {
    if b == [] {
      assert a + b == a;
    } else {
      var b' := b[..|b| - 1];
      RunAppend(cfg, s, a, b');
      assert (a + b)[..|a + b| - 1] == a + b';
    }
  }

  lemma RunOne(cfg: Config, s: State, e: Event)
    ensures Run(cfg, s, [e]) == Next(cfg, s, e)
  {
    assert [e][..0] == [];
  }

  /** No UUID occurs twice. Asked of `issued`, this is what random UUIDs provide. */
  ghost predicate Distinct(us: seq<Uuid>) {
    forall u :: Occurs(us, u) <= 1
  }

  /** A state that some run of a correctly started server ends in, in which the
      UUIDs drawn so far are distinct. */
  ghost predicate Reached(cfg: Config, es: seq<Event>, s: State) {
    cfg.Valid() && Run(cfg, Init(cfg), es) == Some(s) && Distinct(s.sh.issued)
  }

  // --- Who holds a slot -----------------------------------------------------

  /** The UUID that a Reserve handler has won a slot for and not yet inserted. */
  function Ticket(pc: Reserver): Option<Uuid> {
    match pc
    case Inserting(u) => Some(u)
    case Stamping(u) => Some(u)
    case Emplacing(u, _) => Some(u)
    case _ => None
  }

  /** The UUID whose slot a Distribute handler has claimed and not yet released. */
  function Holding(pc: Distributor): Option<Uuid> {
    match pc
    case Claimed(u) => Some(u)
    case Working(u, _) => Some(u)
    case Releasing(u, _) => Some(u)
    case _ => None
  }

  function InFlight(pc: Reserver): nat {
    if Ticket(pc).Some? then 1 else 0
  }

  function Held(pc: Distributor): nat {
    if Holding(pc).Some? then 1 else 0
  }

  function InFlightAs(u: Uuid): Reserver -> nat {
    (pc: Reserver) => if Ticket(pc) == Some(u) then 1 else 0
  }

  function HeldAs(u: Uuid): Distributor -> nat {
    (pc: Distributor) => if Holding(pc) == Some(u) then 1 else 0
  }

  function Owed(pc: Reaper): nat {
    if pc.Erased? then pc.owed else 0
  }

  /** Handlers that have passed the capacity test and not yet tried the exchange. */
  function InWindow(pc: Reserver): nat {
    if pc.Loading? || pc.Swapping? then 1 else 0
  }

  function Slots(s: State): nat {
    |s.sh.entries| + Sum(s.rs, InFlight) + Sum(s.ds, Held) + Owed(s.reaper)
  }

  function Window(s: State): nat {
    Sum(s.rs, InWindow)
  }

  // --- Who holds the lock ---------------------------------------------------

  predicate ReserverLocks(pc: Reserver) {
    pc.Stamping? || pc.Emplacing? || pc.Unlocking?
  }

  predicate DistributorLocks(pc: Distributor) {
    pc.Claiming? || pc.Missed? || pc.Claimed?
  }

  predicate ReaperLocks(pc: Reaper) {
    pc.Locked? || pc.Erased? || pc.Subtracted?
  }

  /** The recorded owner of the lock is exactly the one inside a critical section. */
  ghost predicate MutualExclusion(s: State) {
    && (forall i | 0 <= i < |s.rs| :: ReserverLocks(s.rs[i]) <==> s.sh.lock == ByReserver(i))
    && (forall j | 0 <= j < |s.ds| :: DistributorLocks(s.ds[j]) <==> s.sh.lock == ByDistributor(j))
    && (ReaperLocks(s.reaper) <==> s.sh.lock == ByReaper)
    && (s.sh.lock.ByReserver? ==> s.sh.lock.i < |s.rs|)
    && (s.sh.lock.ByDistributor? ==> s.sh.lock.j < |s.ds|)
  }
}
