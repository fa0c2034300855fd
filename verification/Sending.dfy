/** How the client finds a server for a job: sweeps over the known servers, least
    loaded first, until one grants a reservation or the client gives up. */
module Sending {
  import opened Wrappers
  import opened ServerCache
  import opened ServerStore
  import P = Protocol
  import I = ProtocolSafety
  import H = ProtocolHistory

  datatype Code = OK | ResourceExhausted | Unavailable | OtherCode

  /** What the client gets back from a Reserve call. */
  datatype Reply = Reply(code: Code, success: bool, uuid: Option<string>)

  datatype Call = Reserve(server: string, reply: Reply) | Distribute(server: string, uuid: string)

  datatype Why = AllDown | TimedOut | Malformed | DistributeFailed

  datatype Result = Sent(server: string) | FellBack(why: Why)

  /** What the client meets: the reply to the i-th server of a sweep, the clock
      before the first and after each sweep, and whether Distribute succeeds. */
  datatype World = World(reply: (nat, nat) -> Reply, start: nat, clock: nat -> nat, timeout: nat, accepts: bool)

  /** A reply that says success without a UUID. */
  predicate Broken(r: Reply) {
    r.success && r.uuid.None?
  }

  datatype Sweep = Grants(i: nat) | Breaks(i: nat) | Busy | Silent

  /** How sweep k goes from server i on; `heard` tells whether some server answered
      that it is full. */
  function SweepFrom(w: World, n: nat, k: nat, i: nat, heard: bool): Sweep
    decreases n - i
  {
    if i >= n then (if heard then Busy else Silent)
    else if Broken(w.reply(k, i)) then Breaks(i)
    else if w.reply(k, i).code.OK? then Grants(i)
    else SweepFrom(w, n, k, i + 1, heard || w.reply(k, i).code.ResourceExhausted?)
  }

  /** What each kind of sweep says about every single attempt. */
  lemma {:induction false} SweepMeans(w: World, n: nat, k: nat, i: nat, heard: bool)
    requires i <= n
    ensures match SweepFrom(w, n, k, i, heard)
            case Grants(m) =>
              && i <= m < n && w.reply(k, m).code.OK? && !Broken(w.reply(k, m))
              && (forall j: nat | i <= j < m :: !w.reply(k, j).code.OK? && !Broken(w.reply(k, j)))
            case Breaks(m) =>
              && i <= m < n && Broken(w.reply(k, m))
              && (forall j: nat | i <= j < m :: !w.reply(k, j).code.OK? && !Broken(w.reply(k, j)))
            case Busy =>
              && (forall j: nat | i <= j < n :: !w.reply(k, j).code.OK? && !Broken(w.reply(k, j)))
              && (heard || exists j: nat | i <= j < n :: w.reply(k, j).code.ResourceExhausted?)
            case Silent =>
              && !heard
              && (forall j: nat | i <= j < n ::
                    !w.reply(k, j).code.OK? && !Broken(w.reply(k, j)) && !w.reply(k, j).code.ResourceExhausted?)
    decreases n - i
  {
    if i == n || Broken(w.reply(k, i)) || w.reply(k, i).code.OK? {
    } else {
      SweepMeans(w, n, k, i + 1, heard || w.reply(k, i).code.ResourceExhausted?);
    }
  }

  function SweepOf(w: World, n: nat, k: nat): Sweep {
    SweepFrom(w, n, k, 0, false)
  }

  /** Sweep k is one after which the client tries again. */
  ghost predicate Retries(w: World, n: nat, k: nat) {
    && (SweepOf(w, n, k).Busy? || (SweepOf(w, n, k).Silent? && k > 0))
    && w.clock(k) - w.start < w.timeout * SECOND
  }

  ghost predicate RetriesUpTo(w: World, n: nat, k: nat) {
    forall j: nat | j < k :: Retries(w, n, j)
  }

  /** How the call ends in sweep k. */
  ghost predicate EndsIn(w: World, servers: seq<Server>, k: nat, r: Result) {
    && RetriesUpTo(w, |servers|, k)
    && match SweepOf(w, |servers|, k)
       case Grants(i) => r == if w.accepts && i < |servers| then Sent(servers[i].name) else FellBack(DistributeFailed)
       case Breaks(_) => r == FellBack(Malformed)
       case Busy => w.clock(k) - w.start >= w.timeout * SECOND && r == FellBack(TimedOut)
       case Silent => r == FellBack(if k == 0 then AllDown else TimedOut)
                      && (k > 0 ==> w.clock(k) - w.start >= w.timeout * SECOND)
  }

  /** A reply with which a slot has been taken on the server. */
  predicate Granting(r: Reply) {
    r.success && r.uuid.Some?
  }

  function Grantings(calls: seq<Call>): nat {
    if calls == [] then 0
    else Grantings(calls[..|calls| - 1]) + if calls[|calls| - 1].Reserve? && Granting(calls[|calls| - 1].reply) then 1 else 0
  }

  function Distributes(calls: seq<Call>): nat {
    if calls == [] then 0
    else Distributes(calls[..|calls| - 1]) + if calls[|calls| - 1].Distribute? then 1 else 0
  }

  lemma Count(calls: seq<Call>, c: Call)
    ensures Grantings(calls + [c]) == Grantings(calls) + if c.Reserve? && Granting(c.reply) then 1 else 0
    ensures Distributes(calls + [c]) == Distributes(calls) + if c.Distribute? then 1 else 0
  {
    assert (calls + [c])[..|calls|] == calls;
  }

  /** Servers that reply the way Reserve does: with OK and a UUID, or with another
      code and without success. */
  ghost predicate FollowsReserve(r: Reply) {
    if r.code.OK? then Granting(r) else !r.success
  }

  ghost predicate AllFollow(w: World) {
    forall k: nat, i: nat :: FollowsReserve(w.reply(k, i))
  }

  /** The call goes to one of the servers, and its reply is as Reserve gives it. */
  ghost predicate CallFits(c: Call, servers: seq<Server>, follow: bool) {
    && c.server in NamesOf(servers)
    && (follow && c.Reserve? ==> FollowsReserve(c.reply))
  }

  /** The log of calls has only grown by calls that fit. */
  ghost predicate GrowsBy(before: seq<Call>, after: seq<Call>, servers: seq<Server>, follow: bool) {
    before <= after && forall k | |before| <= k < |after| :: CallFits(after[k], servers, follow)
  }

  lemma LogStays(calls: seq<Call>, servers: seq<Server>, follow: bool)
    ensures GrowsBy(calls, calls, servers, follow)
  {
  }

  lemma LogCall(before: seq<Call>, calls: seq<Call>, c: Call, servers: seq<Server>, follow: bool)
    requires GrowsBy(before, calls, servers, follow) && CallFits(c, servers, follow)
    ensures GrowsBy(before, calls + [c], servers, follow)
  {
  }

  lemma LogGrows(a: seq<Call>, b: seq<Call>, c: seq<Call>, servers: seq<Server>, follow: bool)
    requires GrowsBy(a, b, servers, follow) && GrowsBy(b, c, servers, follow)
    ensures GrowsBy(a, c, servers, follow)
  {
  }

  /** The first i attempts of sweep k. */
  ghost function Attempts(w: World, servers: seq<Server>, k: nat, i: nat): seq<Call>
    requires i <= |servers|
  {
    seq(i, m requires 0 <= m < i => Reserve(servers[m].name, w.reply(k, m)))
  }

  /** The attempts of the first k sweeps, all of which found no server. */
  ghost function Sweeps(w: World, servers: seq<Server>, k: nat): seq<Call> {
    if k == 0 then [] else Sweeps(w, servers, k - 1) + Attempts(w, servers, k - 1, |servers|)
  }

  lemma OneMoreAttempt(before: seq<Call>, w: World, servers: seq<Server>, k: nat, i: nat)
    requires i < |servers|
    ensures before + Attempts(w, servers, k, i) + [Reserve(servers[i].name, w.reply(k, i))] == before + Attempts(w, servers, k, i + 1)
  {
    assert Attempts(w, servers, k, i + 1) == Attempts(w, servers, k, i) + [Reserve(servers[i].name, w.reply(k, i))];
  }

  lemma OneMoreSweep(before: seq<Call>, w: World, servers: seq<Server>, k: nat)
    ensures before + Sweeps(w, servers, k) + Attempts(w, servers, k, |servers|) == before + Sweeps(w, servers, k + 1)
  {
  }

  class Client {
    var uuid: string
    /** All calls made so far. */
    ghost var calls: seq<Call>

    constructor ()
      ensures uuid == "" && calls == []
    {
      uuid, calls := "", [];
    }

    /** The reservation helper; `thrown` if the reply was malformed. */
    method TryReserve(server: string, reply: Reply) returns (thrown: bool, code: Code)
      modifies this
      ensures thrown <==> Broken(reply)
      ensures code == reply.code && calls == old(calls) + [Reserve(server, reply)]
      ensures uuid == if Granting(reply) then reply.uuid.value else old(uuid)
    {
      calls := calls + [Reserve(server, reply)];
      thrown, code := false, reply.code;
      if reply.success {
        if reply.uuid.None? {
          return true, code;
        }
        uuid := reply.uuid.value;
      }
    }

    /** One sweep over the servers, in their order, up to the first that grants or
        replies brokenly; `tried` counts the attempts. */
    method SweepServers(servers: seq<Server>, w: World, k: nat, down: bool)
      returns (thrown: bool, found: bool, stub: string, allDown: bool, ghost tried: nat)
      modifies this
      ensures tried <= |servers| && calls == old(calls) + Attempts(w, servers, k, tried)
      ensures !thrown && !found ==> tried == |servers|
      ensures forall m: nat | m < tried && (thrown || found ==> m < tried - 1) :: !w.reply(k, m).code.OK? && !Broken(w.reply(k, m))
      ensures thrown ==> tried > 0 && !found && Broken(w.reply(k, tried - 1))
      ensures found ==> tried > 0 && w.reply(k, tried - 1).code.OK? && !Broken(w.reply(k, tried - 1)) && stub == servers[tried - 1].name
      ensures !thrown && !found ==> (allDown <==> down && forall m: nat | m < tried :: !w.reply(k, m).code.ResourceExhausted?)
      ensures var sweep := SweepOf(w, |servers|, k);
              && (thrown <==> sweep.Breaks?) && (found <==> sweep.Grants?)
              && (sweep.Grants? ==> sweep.i < |servers| && stub == servers[sweep.i].name && !allDown)
              && (sweep.Busy? ==> !allDown) && (sweep.Silent? ==> allDown == down)
      ensures AllFollow(w) ==> !thrown && Grantings(calls) == Grantings(old(calls)) + if found then 1 else 0
      ensures Distributes(calls) == Distributes(old(calls)) && GrowsBy(old(calls), calls, servers, AllFollow(w))
      ensures AllFollow(w) && found ==> calls != [] && calls[|calls| - 1] == Reserve(stub, w.reply(k, SweepOf(w, |servers|, k).i))
                                        && w.reply(k, SweepOf(w, |servers|, k).i).uuid == Some(uuid)
    {
      hide GrowsBy, Grantings, Distributes;
      LogStays(calls, servers, AllFollow(w));
      thrown, found, stub, allDown, tried := false, false, "", down, 0;
      assert Attempts(w, servers, k, 0) == [];
      var i := 0;
      ghost var heard := false;
      while i < |servers|
        invariant 0 <= i <= |servers| && !thrown && !found
        invariant calls == old(calls) + Attempts(w, servers, k, i)
        invariant forall m: nat | m < i :: !w.reply(k, m).code.OK? && !Broken(w.reply(k, m))
        invariant heard <==> exists m: nat :: m < i && w.reply(k, m).code.ResourceExhausted?
        invariant SweepFrom(w, |servers|, k, i, heard) == SweepOf(w, |servers|, k)
        invariant allDown == (down && !heard)
        invariant AllFollow(w) ==> Grantings(calls) == Grantings(old(calls))
        invariant Distributes(calls) == Distributes(old(calls)) && GrowsBy(old(calls), calls, servers, AllFollow(w))
        decreases |servers| - i
      {
        var reply := w.reply(k, i);
        stub := servers[i].name;
        Count(calls, Reserve(stub, reply));
        assert AllFollow(w) ==> FollowsReserve(reply);
        LogCall(old(calls), calls, Reserve(stub, reply), servers, AllFollow(w));
        OneMoreAttempt(old(calls), w, servers, k, i);
        tried := i + 1;
        var code;
        thrown, code := TryReserve(stub, reply);
        if thrown {
          return;
        }
        if code == OK {
          allDown := false;
          found := true;
          return;
        }
        if code == ResourceExhausted {
          allDown := false;
          heard := true;
        }
        i := i + 1;
      }
      tried := |servers|;
    }

    /** The whole call, up to the answer of Distribute; `sweeps` counts the sweeps
        that were followed by another, and `tried` the attempts in the last one. The
        clock advances with every sweep. */
    method Send(servers: seq<Server>, w: World) returns (r: Result, ghost sweeps: nat, ghost tried: nat)
      requires forall k: nat :: w.clock(k) >= w.start + k
      modifies this
      ensures tried <= |servers|
      ensures calls == old(calls) + Sweeps(w, servers, sweeps) + Attempts(w, servers, sweeps, tried)
                       + if tried > 0 && (r.Sent? || r.why.DistributeFailed?) then [Distribute(servers[tried - 1].name, uuid)] else []
      ensures r.Sent? <==> w.accepts && Distributes(calls) == Distributes(old(calls)) + 1
      ensures r == FellBack(DistributeFailed) <==> !w.accepts && Distributes(calls) == Distributes(old(calls)) + 1
      ensures r.Sent? || r.why.DistributeFailed? ==>
                tried > 0 && w.reply(sweeps, tried - 1).code.OK? && (r.Sent? ==> r.server == servers[tried - 1].name)
      ensures r == FellBack(Malformed) <==> tried > 0 && Broken(w.reply(sweeps, tried - 1))
      ensures r == FellBack(AllDown) <==>
                && sweeps == 0 && tried == |servers|
                && forall m: nat | m < tried ::
                     !w.reply(0, m).code.OK? && !w.reply(0, m).code.ResourceExhausted? && !Broken(w.reply(0, m))
      ensures r == FellBack(TimedOut) ==> tried == |servers| && w.clock(sweeps) - w.start >= w.timeout * 1_000_000_000
      ensures forall k: nat | k < sweeps :: w.clock(k) - w.start < w.timeout * 1_000_000_000
      ensures EndsIn(w, servers, sweeps, r)
      ensures sweeps <= w.timeout * SECOND
      ensures AllFollow(w) ==> Grantings(calls) - Grantings(old(calls)) == Distributes(calls) - Distributes(old(calls))
      ensures Distributes(old(calls)) <= Distributes(calls) <= Distributes(old(calls)) + 1 && GrowsBy(old(calls), calls, servers, AllFollow(w))
      ensures SweepOf(w, |servers|, sweeps).Grants? <==> Distributes(calls) == Distributes(old(calls)) + 1
      ensures AllFollow(w) && SweepOf(w, |servers|, sweeps).Grants? ==>
                var i := SweepOf(w, |servers|, sweeps).i;
                && i < |servers| && |calls| >= 2
                && calls[|calls| - 2] == Reserve(servers[i].name, w.reply(sweeps, i))
                && calls[|calls| - 1] == Distribute(servers[i].name, uuid) && w.reply(sweeps, i).uuid == Some(uuid)
    {
      hide GrowsBy, Grantings, Distributes, SweepFrom, NoRepeats, AllFollow;
      LogStays(calls, servers, AllFollow(w));
      var allDown := true;
      sweeps, tried := 0, 0;
      var stub := "";
      var k := 0;
      while true
        invariant k == sweeps && RetriesUpTo(w, |servers|, k)
        invariant calls == old(calls) + Sweeps(w, servers, k)
        invariant forall j: nat | j < k :: w.clock(j) - w.start < w.timeout * 1_000_000_000
        invariant allDown <==> k == 0
        invariant AllFollow(w) ==> Grantings(calls) == Grantings(old(calls))
        invariant Distributes(calls) == Distributes(old(calls)) && GrowsBy(old(calls), calls, servers, AllFollow(w))
        invariant k <= w.timeout * SECOND
        decreases w.timeout * SECOND - k
      {
        var thrown, found;
        ghost var before := calls;
        thrown, found, stub, allDown, tried := SweepServers(servers, w, k, allDown);
        OneMoreSweep(old(calls), w, servers, k);
        LogGrows(old(calls), before, calls, servers, AllFollow(w));
        if thrown {
          return FellBack(Malformed), k, tried;
        }
        if allDown {
          return FellBack(AllDown), k, tried;
        }
        if found {
          break;
        }
        if w.clock(k) - w.start >= w.timeout * SECOND {
          return FellBack(TimedOut), k, tried;
        }
        k, sweeps := k + 1, sweeps + 1;
      }
      Count(calls, Distribute(stub, uuid));
      LogCall(old(calls), calls, Distribute(stub, uuid), servers, AllFollow(w));
      calls := calls + [Distribute(stub, uuid)];
      r := if w.accepts then Sent(stub) else FellBack(DistributeFailed);
    }
  }

  // --- What follows ------------------------------------------------------------

  /** Exits: the fallback for lack of any server happens exactly when in the first
      sweep nobody answered OK, full or brokenly; otherwise the call ends with a
      grant, a malformed reply, or at the timeout. */
  lemma ExitsClassified(w: World, servers: seq<Server>, k: nat, r: Result)
    requires EndsIn(w, servers, k, r)
    ensures r == FellBack(AllDown) <==>
            forall i: nat | i < |servers| ::
              !w.reply(0, i).code.OK? && !w.reply(0, i).code.ResourceExhausted? && !Broken(w.reply(0, i))
    ensures r == FellBack(AllDown) ==> k == 0
    ensures r == FellBack(TimedOut) ==> w.clock(k) - w.start >= w.timeout * SECOND
    ensures r == FellBack(Malformed) ==> exists i: nat :: i < |servers| && Broken(w.reply(k, i))
    ensures r.Sent? || r == FellBack(DistributeFailed) ==> exists i: nat :: i < |servers| && w.reply(k, i).code.OK?
  {
    var n := |servers|;
    SweepMeans(w, n, k, 0, false);
    SweepMeans(w, n, 0, 0, false);
    assert k > 0 ==> Retries(w, n, 0);
  }

  /** The server that is chosen is the first, by load, to grant in its sweep: every
      earlier attempt, in this sweep and before, was refused. */
  lemma FirstToGrant(w: World, servers: seq<Server>, k: nat, r: Result)
    requires EndsIn(w, servers, k, r) && SweepOf(w, |servers|, k).Grants? && ByLoad(servers)
    ensures var i := SweepOf(w, |servers|, k).i;
            && i < |servers| && w.reply(k, i).code.OK?
            && (forall j: nat | j < i :: !w.reply(k, j).code.OK? && servers[j].currentLoad <= servers[i].currentLoad)
            && (forall m: nat, j: nat | m < k && j < |servers| :: !w.reply(m, j).code.OK?)
  {
    SweepMeans(w, |servers|, k, 0, false);
    forall m: nat, j: nat | m < k && j < |servers| ensures !w.reply(m, j).code.OK? {
      SweepMeans(w, |servers|, m, 0, false);
      assert Retries(w, |servers|, m);
    }
  }

  /** What a Reserve handler's answer looks like to the client. */
  function Wire(a: P.Answer): Reply {
    match a
    case Granted(u) => Reply(OK, true, Some(u))
    case Full(_) => Reply(ResourceExhausted, false, None)
  }

  /** The handlers of the slot protocol follow Reserve: a granting reply stands for
      exactly one slot, which is pending, claimed or reaped, and a refusal for none. */
  lemma HandlersFollow(cfg: P.Config, es: seq<P.Event>, s: P.State, i: nat)
    requires P.Reached(cfg, es, s) && i < |s.rs| && s.rs[i].Answered?
    ensures FollowsReserve(Wire(s.rs[i].answer))
    ensures Wire(s.rs[i].answer).code == if s.rs[i].answer.Granted? then OK else ResourceExhausted
    ensures H.WonSinceStart(cfg, es, i) == if Granting(Wire(s.rs[i].answer)) then 1 else 0
    ensures Granting(Wire(s.rs[i].answer)) ==> H.Settled(s, Wire(s.rs[i].answer).uuid.value) == 1
  {
    I.Invariant(cfg, es, s);
    H.GrantIsBacked(cfg, es, s, i);
    H.CallTakesWhatItSays(cfg, es, i);
  }
}
