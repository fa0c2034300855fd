/** What every step of the slot protocol keeps, and what follows for every run:
    the lock excludes, slots are conserved, and a UUID is used at most once. */
module ProtocolSafety {
  import opened Wrappers
  import opened Reservations
  import opened Totals
  import opened Protocol

  /** The slot counter is the number of slots held, as far as 64 bits can tell. */
  ghost predicate Balanced(s: State) {
    s.sh.counter == Slots(s) % WORD
  }

  /** A UUID is in flight, pending, claimed or reaped as often as it was issued. */
  ghost predicate Accounted(s: State, u: Uuid) {
    Occurs(s.sh.issued, u) ==
    Sum(s.rs, InFlightAs(u)) + Pending(s.sh.entries, u) + Occurs(s.sh.claimed, u) + Occurs(s.sh.reaped, u)
  }

  /** Whoever holds a slot for a UUID has claimed it. */
  ghost predicate HoldersClaimed(s: State, u: Uuid) {
    Sum(s.ds, HeldAs(u)) <= Occurs(s.sh.claimed, u)
  }

  ghost predicate Inv(cfg: Config, s: State) {
    && |s.rs| == cfg.reservers
    && |s.ds| == cfg.distributors
    && MutualExclusion(s)
    && Sorted(s.sh.entries)
    && Balanced(s)
    && (forall u :: Accounted(s, u))
    && (forall u :: HoldersClaimed(s, u))
    && |s.sh.issued| == Sum(s.rs, InFlight) + |s.sh.entries| + |s.sh.claimed| + |s.sh.reaped|
  }

  // --- The effect of one step of one participant ---------------------------

  ghost predicate LockMove(before: Owner, after: Owner, me: Owner, locked: bool, locks: bool) {
    if before == after then locked == locks
    else if locked then before == me && after.Free? && !locks
    else before.Free? && after == me && locks
  }

  lemma ReserverLockMove(cfg: Config, me: nat, sh: Shared, pc: Reserver, u: Uuid)
    requires ReserverNext(cfg, me, sh, pc, u).Some?
    requires ReserverLocks(pc) ==> sh.lock == ByReserver(me)
    ensures var (sh', pc') := ReserverNext(cfg, me, sh, pc, u).value;
            LockMove(sh.lock, sh'.lock, ByReserver(me), ReserverLocks(pc), ReserverLocks(pc'))
  {
  }

  lemma DistributorLockMove(me: nat, sh: Shared, pc: Distributor, u: Uuid, leave: bool)
    requires DistributorNext(me, sh, pc, u, leave).Some?
    requires DistributorLocks(pc) ==> sh.lock == ByDistributor(me)
    ensures var (sh', pc') := DistributorNext(me, sh, pc, u, leave).value;
            LockMove(sh.lock, sh'.lock, ByDistributor(me), DistributorLocks(pc), DistributorLocks(pc'))
  {
  }

  lemma ReaperLockMove(cfg: Config, sh: Shared, pc: Reaper)
    requires ReaperNext(cfg, sh, pc).Some?
    requires ReaperLocks(pc) ==> sh.lock == ByReaper
    ensures var (sh', pc') := ReaperNext(cfg, sh, pc).value;
            LockMove(sh.lock, sh'.lock, ByReaper, ReaperLocks(pc), ReaperLocks(pc'))
  {
  }

  lemma LockMoveExcludes(cfg: Config, s: State, e: Event)
    requires MutualExclusion(s) && Next(cfg, s, e).Some?
    ensures MutualExclusion(Next(cfg, s, e).value)
  {
    match e
    case Reserve(i, u) => ReserverLockMove(cfg, i, s.sh, s.rs[i], u);
    case Distribute(j, u, leave) => DistributorLockMove(j, s.sh, s.ds[j], u, leave);
    case Reap => ReaperLockMove(cfg, s.sh, s.reaper);
    case Tick(_, _) =>
  }

  lemma ReserverCounts(cfg: Config, me: nat, sh: Shared, pc: Reserver, d: Uuid)
    requires ReserverNext(cfg, me, sh, pc, d).Some? && Sorted(sh.entries) && sh.counter < WORD
    ensures var (sh', pc') := ReserverNext(cfg, me, sh, pc, d).value;
            && Sorted(sh'.entries) && sh'.claimed == sh.claimed && sh'.reaped == sh.reaped
            && |sh'.issued| - |sh.issued| == InFlight(pc') - InFlight(pc) + |sh'.entries| - |sh.entries|
            && sh'.counter == (sh.counter + |sh'.issued| - |sh.issued|) % WORD
  {
    if pc.Emplacing? {
      InsertSorted(sh.entries, Entry(pc.uuid, pc.stamp));
      InsertContents(sh.entries, Entry(pc.uuid, pc.stamp), pc.uuid);
    }
  }

  lemma ReserverAccounts(cfg: Config, me: nat, sh: Shared, pc: Reserver, d: Uuid, u: Uuid)
    requires ReserverNext(cfg, me, sh, pc, d).Some?
    ensures var (sh', pc') := ReserverNext(cfg, me, sh, pc, d).value;
            Occurs(sh'.issued, u) - Occurs(sh.issued, u) ==
            InFlightAs(u)(pc') - InFlightAs(u)(pc) + Pending(sh'.entries, u) - Pending(sh.entries, u)
  {
    if pc.Emplacing? {
      InsertContents(sh.entries, Entry(pc.uuid, pc.stamp), u);
    } else if pc.Swapping? {
      SumSnoc(sh.issued, d, Is(u));
    }
  }

  lemma DistributorCounts(me: nat, sh: Shared, pc: Distributor, u: Uuid, leave: bool)
    requires DistributorNext(me, sh, pc, u, leave).Some? && Sorted(sh.entries) && sh.counter < WORD
    requires forall v :: Pending(sh.entries, v) <= 1
    ensures var (sh', pc') := DistributorNext(me, sh, pc, u, leave).value;
            && Sorted(sh'.entries) && sh'.issued == sh.issued && sh'.reaped == sh.reaped
            && |sh'.claimed| - |sh.claimed| == |sh.entries| - |sh'.entries|
            && |sh'.entries| + Held(pc') - |sh.entries| - Held(pc) == (if pc.Releasing? then -1 else 0)
            && sh'.counter == (sh.counter + if pc.Releasing? then -1 else 0) % WORD
  {
    if pc.Claiming? {
      EraseUuid(sh.entries, pc.uuid, pc.uuid);
      EraseUuidSorted(sh.entries, pc.uuid);
    }
  }

  lemma DistributorAccounts(me: nat, sh: Shared, pc: Distributor, d: Uuid, leave: bool, u: Uuid)
    requires DistributorNext(me, sh, pc, d, leave).Some?
    requires forall v :: Pending(sh.entries, v) <= 1
    ensures var (sh', pc') := DistributorNext(me, sh, pc, d, leave).value;
            && sh'.issued == sh.issued && sh'.reaped == sh.reaped
            && Pending(sh.entries, u) + Occurs(sh.claimed, u) == Pending(sh'.entries, u) + Occurs(sh'.claimed, u)
            && HeldAs(u)(pc') - HeldAs(u)(pc) <= Occurs(sh'.claimed, u) - Occurs(sh.claimed, u)
  {
    if pc.Claiming? {
      EraseUuid(sh.entries, pc.uuid, u);
      EraseUuid(sh.entries, pc.uuid, pc.uuid);
      SumSnoc(sh.claimed, pc.uuid, Is(u));
    }
  }

  lemma ReaperCounts(cfg: Config, sh: Shared, pc: Reaper)
    requires ReaperNext(cfg, sh, pc).Some? && Sorted(sh.entries) && sh.counter < WORD
    ensures var (sh', pc') := ReaperNext(cfg, sh, pc).value;
            && Sorted(sh'.entries) && sh'.issued == sh.issued && sh'.claimed == sh.claimed
            && |sh'.reaped| - |sh.reaped| == |sh.entries| - |sh'.entries|
            && sh'.counter == (sh.counter + |sh'.entries| - |sh.entries| + Owed(pc') - Owed(pc)) % WORD
  {
  }

  lemma ReaperAccounts(cfg: Config, sh: Shared, pc: Reaper, u: Uuid)
    requires ReaperNext(cfg, sh, pc).Some?
    ensures var (sh', pc') := ReaperNext(cfg, sh, pc).value;
            Pending(sh.entries, u) + Occurs(sh.reaped, u) == Pending(sh'.entries, u) + Occurs(sh'.reaped, u)
  {
    if pc.Locked? {
      var k := LowerBound(sh.entries, pc.bound);
      assert sh.entries == sh.entries[..k] + sh.entries[k..];
      SumAppend(sh.entries[..k], sh.entries[k..], Carries(u));
      SumAppend(sh.reaped, Uuids(sh.entries[..k]), Is(u));
      UuidsOccur(sh.entries[..k], u);
    }
  }

  lemma ModShift(a: int, d: int)
    ensures (a % WORD + d) % WORD == (a + d) % WORD
  {
    ModMultiple(a % WORD + d, a / WORD);
  }

  lemma ModMultiple(b: int, q: int)
    ensures (b + WORD * q) % WORD == b % WORD
  {
  }

  lemma BalanceShifts(s: State, s': State, d: int)
    requires Balanced(s) && Slots(s') == Slots(s) + d && s'.sh.counter == (s.sh.counter + d) % WORD
    ensures Balanced(s')
  {
    hide Slots;
    ModShift(Slots(s), d);
  }

  // --- The invariant --------------------------------------------------------

  lemma ReserveStep(cfg: Config, s: State, i: nat, d: Uuid)
    requires Inv(cfg, s) && Next(cfg, s, Reserve(i, d)).Some?
    ensures Inv(cfg, Next(cfg, s, Reserve(i, d)).value)
  {
    var (sh', pc') := ReserverNext(cfg, i, s.sh, s.rs[i], d).value;
    var s' := Next(cfg, s, Reserve(i, d)).value;
    LockMoveExcludes(cfg, s, Reserve(i, d));
    hide MutualExclusion, Sorted, Sum, Insert, ReserverNext, InFlight;
    ReserverCounts(cfg, i, s.sh, s.rs[i], d);
    SumUpdate(s.rs, InFlight, i, pc');
    BalanceShifts(s, s', |sh'.issued| - |s.sh.issued|);
    forall u ensures Accounted(s', u) && HoldersClaimed(s', u) {
      assert Accounted(s, u) && HoldersClaimed(s, u);
      ReserverAccounts(cfg, i, s.sh, s.rs[i], d, u);
      SumUpdate(s.rs, InFlightAs(u), i, pc');
    }
  }

  lemma PendingOnce(s: State)
    requires Distinct(s.sh.issued) && forall u :: Accounted(s, u)
    ensures forall u :: Pending(s.sh.entries, u) <= 1
  {
    forall u ensures Pending(s.sh.entries, u) <= 1 {
      assert Accounted(s, u) && Occurs(s.sh.issued, u) <= 1;
    }
  }

  lemma DistributeAccounts(cfg: Config, s: State, j: nat, d: Uuid, leave: bool, u: Uuid)
    requires Next(cfg, s, Distribute(j, d, leave)).Some? && Accounted(s, u) && HoldersClaimed(s, u)
    requires forall v :: Pending(s.sh.entries, v) <= 1
    ensures Accounted(Next(cfg, s, Distribute(j, d, leave)).value, u)
    ensures HoldersClaimed(Next(cfg, s, Distribute(j, d, leave)).value, u)
  {
    hide Sum, DistributorNext, HeldAs;
    DistributorAccounts(j, s.sh, s.ds[j], d, leave, u);
    SumUpdate(s.ds, HeldAs(u), j, DistributorNext(j, s.sh, s.ds[j], d, leave).value.1);
  }

  lemma DistributeStep(cfg: Config, s: State, j: nat, d: Uuid, leave: bool)
    requires Inv(cfg, s) && Next(cfg, s, Distribute(j, d, leave)).Some? && Distinct(s.sh.issued)
    ensures Inv(cfg, Next(cfg, s, Distribute(j, d, leave)).value)
  {
    var (sh', pc') := DistributorNext(j, s.sh, s.ds[j], d, leave).value;
    var s' := Next(cfg, s, Distribute(j, d, leave)).value;
    hide MutualExclusion, Sorted, Sum, WithoutUuid, Accounted, HoldersClaimed, DistributorNext, Held;
    LockMoveExcludes(cfg, s, Distribute(j, d, leave));
    PendingOnce(s);
    DistributorCounts(j, s.sh, s.ds[j], d, leave);
    SumUpdate(s.ds, Held, j, pc');
    BalanceShifts(s, s', if s.ds[j].Releasing? then -1 else 0);
    forall u ensures Accounted(s', u) && HoldersClaimed(s', u) {
      DistributeAccounts(cfg, s, j, d, leave, u);
    }
  }

  lemma ReapStep(cfg: Config, s: State)
    requires Inv(cfg, s) && Next(cfg, s, Reap).Some?
    ensures Inv(cfg, Next(cfg, s, Reap).value)
  {
    var (sh', pc') := ReaperNext(cfg, s.sh, s.reaper).value;
    var s' := Next(cfg, s, Reap).value;
    LockMoveExcludes(cfg, s, Reap);
    hide MutualExclusion, Sorted, Sum, ReaperNext;
    ReaperCounts(cfg, s.sh, s.reaper);
    BalanceShifts(s, s', |sh'.entries| - |s.sh.entries| + Owed(pc') - Owed(s.reaper));
    forall u ensures Accounted(s', u) && HoldersClaimed(s', u) {
      assert Accounted(s, u) && HoldersClaimed(s, u);
      ReaperAccounts(cfg, s.sh, s.reaper, u);
    }
  }

  lemma InvStep(cfg: Config, s: State, e: Event)
    requires Inv(cfg, s) && Next(cfg, s, e).Some? && Distinct(s.sh.issued)
    ensures Inv(cfg, Next(cfg, s, e).value)
  {
    match e
    case Reserve(i, d) => ReserveStep(cfg, s, i, d);
    case Distribute(j, d, leave) => DistributeStep(cfg, s, j, d, leave);
    case Reap => ReapStep(cfg, s);
    case Tick(_, _) =>
      var s' := Next(cfg, s, e).value;
      forall u ensures Accounted(s', u) && HoldersClaimed(s', u) {
        assert Accounted(s, u) && HoldersClaimed(s, u);
      }
  }

  lemma InitInv(cfg: Config)
    ensures Inv(cfg, Init(cfg))
  {
    var s := Init(cfg);
    SumZero(s.rs, InFlight);
    SumZero(s.ds, Held);
    forall u ensures Accounted(s, u) && HoldersClaimed(s, u) {
      SumZero(s.rs, InFlightAs(u));
      SumZero(s.ds, HeldAs(u));
    }
  }

  /** A step only appends to what has been issued. */
  lemma IssuedGrows(cfg: Config, s: State, e: Event)
    requires Next(cfg, s, e).Some? && Distinct(Next(cfg, s, e).value.sh.issued)
    ensures Distinct(s.sh.issued)
  {
    var s' := Next(cfg, s, e).value;
    forall u ensures Occurs(s.sh.issued, u) <= 1 {
      assert Occurs(s'.sh.issued, u) <= 1;
      if e.Reserve? {
        SumSnoc(s.sh.issued, e.drawn, Is(u));
      }
    }
  }

  lemma ReachedBefore(cfg: Config, es: seq<Event>, s: State) returns (m: State)
    requires Reached(cfg, es, s) && es != []
    ensures Reached(cfg, es[..|es| - 1], m) && Next(cfg, m, es[|es| - 1]) == Some(s)
  {
    m := Run(cfg, Init(cfg), es[..|es| - 1]).value;
    IssuedGrows(cfg, m, es[|es| - 1]);
  }

  lemma {:induction false} Invariant(cfg: Config, es: seq<Event>, s: State)
    requires Reached(cfg, es, s)
    ensures Inv(cfg, s)
  {
    if es == [] {
      InitInv(cfg);
    } else {
      var m := ReachedBefore(cfg, es, s);
      Invariant(cfg, es[..|es| - 1], m);
      InvStep(cfg, m, es[|es| - 1]);
    }
  }
}
