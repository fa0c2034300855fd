/** What becomes of a UUID over a whole run. */
module ProtocolHistory {
  import opened Wrappers
  import opened Reservations
  import opened Totals
  import opened Protocol
  import opened ProtocolSafety

  /** At most once: a UUID that was handed out is in exactly one of the four
      classes, two Distribute handlers never hold the same one, and the classes
      together have as many members as exchanges were won. */
  lemma UsedAtMostOnce(cfg: Config, es: seq<Event>, s: State)
    requires Reached(cfg, es, s)
    ensures forall u :: Sum(s.rs, InFlightAs(u)) + Pending(s.sh.entries, u)
                        + Occurs(s.sh.claimed, u) + Occurs(s.sh.reaped, u) == Occurs(s.sh.issued, u) <= 1
    ensures Sum(s.rs, InFlight) + |s.sh.entries| + |s.sh.claimed| + |s.sh.reaped| == |s.sh.issued|
    ensures forall i, j | 0 <= i < j < |s.ds| && Holding(s.ds[i]).Some? :: Holding(s.ds[i]) != Holding(s.ds[j])
  {
    Invariant(cfg, es, s);
    forall u ensures Sum(s.rs, InFlightAs(u)) + Pending(s.sh.entries, u)
                     + Occurs(s.sh.claimed, u) + Occurs(s.sh.reaped, u) == Occurs(s.sh.issued, u) <= 1 {
      assert Accounted(s, u);
    }
    forall i, j | 0 <= i < j < |s.ds| && Holding(s.ds[i]).Some? ensures Holding(s.ds[i]) != Holding(s.ds[j]) {
      var u := Holding(s.ds[i]).value;
      SumPair(s.ds, HeldAs(u), i, j);
      assert HoldersClaimed(s, u) && Accounted(s, u);
    }
  }

  /** Whatever the system clock did, the reservations are in order, so the erase of
      a prefix takes exactly the entries that are older than the reaper's bound. */
  lemma ReaperTakesExactlyTheStale(cfg: Config, es: seq<Event>, s: State)
    requires Reached(cfg, es, s) && s.reaper.Locked?
    ensures Sorted(s.sh.entries)
    ensures Next(cfg, s, Reap).Some?
    ensures Next(cfg, s, Reap).value.sh.entries == NotBefore(s.sh.entries, s.reaper.bound)
    ensures Owed(Next(cfg, s, Reap).value.reaper) == |s.sh.entries| - |NotBefore(s.sh.entries, s.reaper.bound)|
  {
    Invariant(cfg, es, s);
    SuffixIsFilter(s.sh.entries, s.reaper.bound);
  }

  /** How often u has left the hands of the Reserve handler that drew it. */
  function Settled(s: State, u: Uuid): nat {
    Pending(s.sh.entries, u) + Occurs(s.sh.claimed, u) + Occurs(s.sh.reaped, u)
  }

  /** Step k of the run is a Reserve handler that inserts u. */
  ghost predicate InsertsAt(cfg: Config, es: seq<Event>, k: nat, u: Uuid) {
    && k < |es| && es[k].Reserve?
    && Run(cfg, Init(cfg), es[..k]).Some?
    && var m := Run(cfg, Init(cfg), es[..k]).value;
       es[k].i < |m.rs| && m.rs[es[k].i].Emplacing? && m.rs[es[k].i].uuid == u
  }

  lemma SettledStep(cfg: Config, s: State, e: Event, u: Uuid)
    requires Inv(cfg, s) && Distinct(s.sh.issued) && Next(cfg, s, e).Some?
    ensures var s' := Next(cfg, s, e).value;
            if e.Reserve? && s.rs[e.i].Emplacing? && s.rs[e.i].uuid == u
            then Settled(s', u) == Settled(s, u) + 1
            else Settled(s', u) == Settled(s, u)
  {
    match e
    case Reserve(i, d) =>
      ReserverCounts(cfg, i, s.sh, s.rs[i], d);
      if s.rs[i].Emplacing? {
        InsertContents(s.sh.entries, Entry(s.rs[i].uuid, s.rs[i].stamp), u);
      }
    case Distribute(j, d, leave) =>
      PendingOnce(s);
      DistributorCounts(j, s.sh, s.ds[j], d, leave);
      DistributorAccounts(j, s.sh, s.ds[j], d, leave, u);
    case Reap =>
      ReaperCounts(cfg, s.sh, s.reaper);
      ReaperAccounts(cfg, s.sh, s.reaper, u);
    case Tick(_, _) =>
  }

  lemma {:induction false} SettledWasInserted(cfg: Config, es: seq<Event>, s: State, u: Uuid) returns (k: nat)
    requires Reached(cfg, es, s) && Settled(s, u) > 0
    ensures InsertsAt(cfg, es, k, u)
  {
    if es == [] {
      assert false;
    } else {
      var m := ReachedBefore(cfg, es, s);
      Invariant(cfg, es[..|es| - 1], m);
      SettledStep(cfg, m, es[|es| - 1], u);
      if Settled(m, u) > 0 {
        k := SettledWasInserted(cfg, es[..|es| - 1], m, u);
        assert es[..|es| - 1][..k] == es[..k];
      } else {
        k := |es| - 1;
      }
    }
  }

  /** A Distribute handler gets past the claim only for a UUID that a Reserve
      handler inserted earlier in the run, that is no longer pending, and that is
      not reaped. */
  lemma ClaimNeedsGrant(cfg: Config, es: seq<Event>, s: State, j: nat, u: Uuid)
    requires Reached(cfg, es, s) && j < |s.ds| && Holding(s.ds[j]) == Some(u)
    ensures exists k: nat :: InsertsAt(cfg, es, k, u)
    ensures Occurs(s.sh.claimed, u) == 1 && Pending(s.sh.entries, u) == 0 && Occurs(s.sh.reaped, u) == 0
  {
    Invariant(cfg, es, s);
    SumUpdate(s.ds, HeldAs(u), j, s.ds[j]);
    assert HoldersClaimed(s, u) && Accounted(s, u);
    var k := SettledWasInserted(cfg, es, s, u);
  }

  ghost predicate Backed(s: State, i: nat) {
    i < |s.rs| ==>
      && (s.rs[i].Unlocking? ==> Settled(s, s.rs[i].uuid) > 0)
      && (s.rs[i].Answered? && s.rs[i].answer.Granted? ==> Settled(s, s.rs[i].answer.uuid) > 0)
  }

  lemma BackedStep(cfg: Config, s: State, e: Event, i: nat)
    requires Inv(cfg, s) && Distinct(s.sh.issued) && Next(cfg, s, e).Some? && Backed(s, i)
    ensures Backed(Next(cfg, s, e).value, i)
  {
    var s' := Next(cfg, s, e).value;
    if i < |s'.rs| && s'.rs[i].Unlocking? {
      SettledStep(cfg, s, e, s'.rs[i].uuid);
    }
    if i < |s'.rs| && s'.rs[i].Answered? && s'.rs[i].answer.Granted? {
      SettledStep(cfg, s, e, s'.rs[i].answer.uuid);
    }
  }

  /** A Reserve call that answers with a UUID has inserted exactly one
      reservation for it; the slot is then pending, claimed or reaped. */
  lemma {:induction false} GrantIsBacked(cfg: Config, es: seq<Event>, s: State, i: nat)
    requires Reached(cfg, es, s)
    ensures Backed(s, i)
    ensures i < |s.rs| && s.rs[i].Answered? && s.rs[i].answer.Granted? ==> Settled(s, s.rs[i].answer.uuid) == 1
  {
    Invariant(cfg, es, s);
    if es == [] {
    } else {
      var m := ReachedBefore(cfg, es, s);
      GrantIsBacked(cfg, es[..|es| - 1], m, i);
      Invariant(cfg, es[..|es| - 1], m);
      BackedStep(cfg, m, es[|es| - 1], i);
    }
    if i < |s.rs| && s.rs[i].Answered? && s.rs[i].answer.Granted? {
      assert Accounted(s, s.rs[i].answer.uuid);
    }
  }

  predicate Wins(s: State, e: Event, i: nat) {
    e.Reserve? && e.i == i && i < |s.rs| && s.rs[i] == Swapping(s.sh.counter)
  }

  /** How many exchanges handler i has won since it last started a request. */
  ghost function WonSinceStart(cfg: Config, es: seq<Event>, i: nat): nat
    requires Run(cfg, Init(cfg), es).Some?
  {
    if es == [] then 0
    else
      var m := Run(cfg, Init(cfg), es[..|es| - 1]).value;
      var e := es[|es| - 1];
      if e.Reserve? && e.i == i && i < |m.rs| && m.rs[i].Idle? then 0
      else WonSinceStart(cfg, es[..|es| - 1], i) + if Wins(m, e, i) then 1 else 0
  }

  /** A Reserve call takes exactly one slot if it answers with a UUID and none if it
      refuses; only the exchange takes a slot. */
  lemma {:induction false} CallTakesWhatItSays(cfg: Config, es: seq<Event>, i: nat)
    requires Run(cfg, Init(cfg), es).Some? && i < cfg.reservers
    ensures var s := Run(cfg, Init(cfg), es).value;
            && |s.rs| == cfg.reservers
            && (s.rs[i].Testing? || s.rs[i].Loading? || s.rs[i].Swapping? ==> WonSinceStart(cfg, es, i) == 0)
            && (Ticket(s.rs[i]).Some? || s.rs[i].Unlocking? ==> WonSinceStart(cfg, es, i) == 1)
            && (s.rs[i].Answered? ==> WonSinceStart(cfg, es, i) == if s.rs[i].answer.Granted? then 1 else 0)
  {
    if es == [] {
    } else {
      CallTakesWhatItSays(cfg, es[..|es| - 1], i);
    }
  }

  /** Why UUIDs have to be distinct: a claim erases every match but releases one
      slot, so it keeps the balance exactly when it matches one reservation. */
  lemma ClaimBalancedExactlyWhen(cfg: Config, s: State, j: nat)
    requires Balanced(s) && |s.sh.entries| < WORD && j < |s.ds| && s.ds[j].Claiming?
    requires Pending(s.sh.entries, s.ds[j].uuid) > 0
    ensures Next(cfg, s, Distribute(j, [], false)).Some?
    ensures Balanced(Next(cfg, s, Distribute(j, [], false)).value) <==> Pending(s.sh.entries, s.ds[j].uuid) == 1
  {
    var u := s.ds[j].uuid;
    EraseUuid(s.sh.entries, u, u);
    SumUpdate(s.ds, Held, j, Claimed(u));
    var s' := Next(cfg, s, Distribute(j, [], false)).value;
    assert Slots(s) == Slots(s') + Pending(s.sh.entries, u) - 1;
  }
}
