/** The client and its servers together: what one call of the client's send takes
    on all the servers it knows, each of which runs the slot protocol. */
module SendingSlots {
  import opened Totals
  import opened Wrappers
  import opened ServerCache
  import opened Sending
  import ServerStore
  import P = Protocol
  import I = ProtocolSafety
  import H = ProtocolHistory

  /** A server: how it was started, its run so far, and the positions in the run at
      which the calls of one client begin: those whose reply the client has got, and
      those whose reply is still to come or was lost. Any handler may serve any call. */
  datatype Instance = Instance(cfg: P.Config, es: seq<P.Event>, heard: set<nat>, lost: set<nat>)

  ghost predicate Runs(cfg: P.Config, es: seq<P.Event>) {
    P.Run(cfg, P.Init(cfg), es).Some?
  }

  ghost function Final(cfg: P.Config, es: seq<P.Event>): P.State
    requires Runs(cfg, es)
  {
    P.Run(cfg, P.Init(cfg), es).value
  }

  /** For each handler, whether the call that it is serving, or served last, is one
      of those that begin at the given positions. */
  ghost function Serving(cfg: P.Config, es: seq<P.Event>, calls: set<nat>): (serving: seq<bool>)
    requires Runs(cfg, es)
    ensures |serving| == cfg.reservers == |Final(cfg, es).rs|
  {
    if es == [] then seq(cfg.reservers, i => false)
    else
      var front, e := es[..|es| - 1], es[|es| - 1];
      var before := Serving(cfg, front, calls);
      if e.Reserve? && e.i < cfg.reservers && Final(cfg, front).rs[e.i].Idle? then before[e.i := |front| in calls] else before
  }

  /** The last step of the run is one of a handler that serves one of the calls. */
  ghost predicate StepsFor(cfg: P.Config, es: seq<P.Event>, calls: set<nat>)
    requires Runs(cfg, es) && es != []
  {
    var front, e := es[..|es| - 1], es[|es| - 1];
    e.Reserve? && e.i < cfg.reservers && Serving(cfg, front, calls)[e.i]
  }

  /** With its last step, a handler answers. */
  ghost predicate Answers(cfg: P.Config, es: seq<P.Event>)
    requires Runs(cfg, es) && es != []
  {
    var front, e := es[..|es| - 1], es[|es| - 1];
    && e.Reserve? && e.i < |Final(cfg, front).rs| && e.i < |Final(cfg, es).rs|
    && !Final(cfg, front).rs[e.i].Answered? && Final(cfg, es).rs[e.i].Answered?
  }

  /** The answers to the calls, in the order in which they were given. */
  ghost function AnswersTo(cfg: P.Config, es: seq<P.Event>, calls: set<nat>): seq<P.Answer>
    requires Runs(cfg, es)
  {
    if es == [] then []
    else
      AnswersTo(cfg, es[..|es| - 1], calls)
      + if StepsFor(cfg, es, calls) && Answers(cfg, es) then [Final(cfg, es).rs[es[|es| - 1].i].answer] else []
  }

  /** How many slots the calls have taken. */
  ghost function SlotsTaken(cfg: P.Config, es: seq<P.Event>, calls: set<nat>): nat
    requires Runs(cfg, es)
  {
    if es == [] then 0
    else
      SlotsTaken(cfg, es[..|es| - 1], calls)
      + if StepsFor(cfg, es, calls) && H.Wins(Final(cfg, es[..|es| - 1]), es[|es| - 1], es[|es| - 1].i) then 1 else 0
  }

  function Grants(a: P.Answer): nat {
    if a.Granted? then 1 else 0
  }

  /** The handler has won a slot that it has not answered with yet. */
  predicate Owes(pc: P.Reserver) {
    P.Ticket(pc).Some? || pc.Unlocking?
  }

  function OwesTo(handler: (P.Reserver, bool)): nat {
    if handler.1 && Owes(handler.0) then 1 else 0
  }

  function Pairs(rs: seq<P.Reserver>, serving: seq<bool>): seq<(P.Reserver, bool)>
    requires |rs| == |serving|
  {
    seq(|rs|, i requires 0 <= i < |rs| => (rs[i], serving[i]))
  }

  /** How many slots have been won for the calls that are not answered yet. */
  ghost function Owed(cfg: P.Config, es: seq<P.Event>, calls: set<nat>): nat
    requires Runs(cfg, es)
  {
    Sum(Pairs(Final(cfg, es).rs, Serving(cfg, es, calls)), OwesTo)
  }

  lemma HandlerMoves(rs: seq<P.Reserver>, serving: seq<bool>, h: nat, pc: P.Reserver, mine: bool)
    requires |rs| == |serving| && h < |rs|
    ensures Sum(Pairs(rs[h := pc], serving[h := mine]), OwesTo) ==
            Sum(Pairs(rs, serving), OwesTo) - OwesTo((rs[h], serving[h])) + OwesTo((pc, mine))
  {
    assert Pairs(rs[h := pc], serving[h := mine]) == Pairs(rs, serving)[h := (pc, mine)];
    SumUpdate(Pairs(rs, serving), OwesTo, h, (pc, mine));
  }

  /** A handler's step: what it takes and owed is what it answers with and owes. */
  lemma StepTakesOrAnswers(cfg: P.Config, h: nat, sh: P.Shared, pc: P.Reserver, d: string)
    requires P.ReserverNext(cfg, h, sh, pc, d).Some?
    ensures var pc' := P.ReserverNext(cfg, h, sh, pc, d).value.1;
            && (if pc == P.Swapping(sh.counter) then 1 else 0) + (if Owes(pc) then 1 else 0) ==
               (if !pc.Answered? && pc'.Answered? then Grants(pc'.answer) else 0) + (if Owes(pc') then 1 else 0)
            && (pc.Idle? ==> !Owes(pc) && !Owes(pc') && !pc'.Answered?)
  {
  }

  lemma OwedAfter(cfg: P.Config, es: seq<P.Event>, calls: set<nat>)
    requires Runs(cfg, es) && es != []
    ensures var front, e := es[..|es| - 1], es[|es| - 1];
            var taken := if StepsFor(cfg, es, calls) && H.Wins(Final(cfg, front), e, e.i) then 1 else 0;
            var answered := if StepsFor(cfg, es, calls) && Answers(cfg, es) then Grants(Final(cfg, es).rs[e.i].answer) else 0;
            taken + Owed(cfg, front, calls) == answered + Owed(cfg, es, calls)
  {
    var front, e := es[..|es| - 1], es[|es| - 1];
    var m, t := Final(cfg, front), Final(cfg, es);
    if e.Reserve? {
      StepTakesOrAnswers(cfg, e.i, m.sh, m.rs[e.i], e.drawn);
      HandlerMoves(m.rs, Serving(cfg, front, calls), e.i, t.rs[e.i], Serving(cfg, es, calls)[e.i]);
      assert Serving(cfg, es, calls) == Serving(cfg, front, calls)[e.i := Serving(cfg, es, calls)[e.i]];
    }
  }

  /** Over a whole run calls take exactly the slots that they are answered with, apart
      from those that they are about to be answered with. */
  lemma {:induction false} SlotsTakenAreAnswered(cfg: P.Config, es: seq<P.Event>, calls: set<nat>)
    requires Runs(cfg, es)
    ensures SlotsTaken(cfg, es, calls) == Sum(AnswersTo(cfg, es, calls), Grants) + Owed(cfg, es, calls)
  {
    if es == [] {
      SumZero(Pairs(Final(cfg, es).rs, Serving(cfg, es, calls)), OwesTo);
    } else {
      var front := es[..|es| - 1];
      SlotsTakenAreAnswered(cfg, front, calls);
      OwedAfter(cfg, es, calls);
      hide Owed, Answers, StepsFor, H.Wins;
      if StepsFor(cfg, es, calls) && Answers(cfg, es) {
        LastAnswer(cfg, es, calls);
      } else {
        assert AnswersTo(cfg, es, calls) == AnswersTo(cfg, front, calls);
      }
    }
  }

  lemma LastAnswer(cfg: P.Config, es: seq<P.Event>, calls: set<nat>)
    requires Runs(cfg, es) && es != [] && StepsFor(cfg, es, calls) && Answers(cfg, es)
    ensures Sum(AnswersTo(cfg, es, calls), Grants) ==
            Sum(AnswersTo(cfg, es[..|es| - 1], calls), Grants) + Grants(Final(cfg, es).rs[es[|es| - 1].i].answer)
  {
    SumSnoc(AnswersTo(cfg, es[..|es| - 1], calls), Final(cfg, es).rs[es[|es| - 1].i].answer, Grants);
  }

  /** Calls that are different take their slots separately. */
  lemma {:induction false} SlotsOfBoth(cfg: P.Config, es: seq<P.Event>, a: set<nat>, b: set<nat>)
    requires Runs(cfg, es) && a !! b
    ensures forall i | 0 <= i < cfg.reservers ::
              && Serving(cfg, es, a + b)[i] == (Serving(cfg, es, a)[i] || Serving(cfg, es, b)[i])
              && !(Serving(cfg, es, a)[i] && Serving(cfg, es, b)[i])
    ensures SlotsTaken(cfg, es, a + b) == SlotsTaken(cfg, es, a) + SlotsTaken(cfg, es, b)
  {
    if es == [] {
    } else {
      SlotsOfBoth(cfg, es[..|es| - 1], a, b);
    }
  }

  /** Every UUID that a call was ever answered with stands for one reservation. */
  lemma {:induction false} AnswersAreSettled(cfg: P.Config, es: seq<P.Event>, calls: set<nat>, a: P.Answer)
    requires Runs(cfg, es) && P.Reached(cfg, es, Final(cfg, es)) && a in AnswersTo(cfg, es, calls) && a.Granted?
    ensures H.Settled(Final(cfg, es), a.uuid) == 1
  {
    var front, e := es[..|es| - 1], es[|es| - 1];
    var s := Final(cfg, es);
    var m := I.ReachedBefore(cfg, es, s);
    if a in AnswersTo(cfg, front, calls) {
      AnswersAreSettled(cfg, front, calls, a);
      StaysSettled(cfg, front, es, m, s, a.uuid);
    } else {
      H.GrantIsBacked(cfg, es, s, e.i);
    }
  }

  lemma StaysSettled(cfg: P.Config, front: seq<P.Event>, es: seq<P.Event>, m: P.State, s: P.State, u: string)
    requires es != [] && front == es[..|es| - 1] && P.Reached(cfg, front, m) && P.Reached(cfg, es, s)
    requires P.Next(cfg, m, es[|es| - 1]) == Some(s) && H.Settled(m, u) == 1
    ensures H.Settled(s, u) == 1
  {
    I.Invariant(cfg, front, m);
    I.Invariant(cfg, es, s);
    H.SettledStep(cfg, m, es[|es| - 1], u);
    assert I.Accounted(s, u);
  }

  // --- The log of the client and the runs of the servers ---------------------------

  /** What the client has heard from the Reserve handlers of a server. */
  function HeardFrom(calls: seq<Call>, server: string): seq<Sending.Reply> {
    if calls == [] then []
    else
      var c := calls[|calls| - 1];
      HeardFrom(calls[..|calls| - 1], server)
      + if c.Reserve? && c.server == server && (c.reply.code.OK? || c.reply.code.ResourceExhausted?) then [c.reply] else []
  }

  function OnWire(answers: seq<P.Answer>): (replies: seq<Sending.Reply>)
    ensures |replies| == |answers|
  {
    if answers == [] then [] else OnWire(answers[..|answers| - 1]) + [Wire(answers[|answers| - 1])]
  }

  /** The replies that the client has heard from the server are the answers to the
      calls it counts as heard, and those calls are over. */
  ghost predicate Serves(x: Instance, server: string, calls: seq<Call>) {
    && Runs(x.cfg, x.es) && P.Reached(x.cfg, x.es, Final(x.cfg, x.es)) && x.heard !! x.lost
    && OnWire(AnswersTo(x.cfg, x.es, x.heard)) == HeardFrom(calls, server)
    && Owed(x.cfg, x.es, x.heard) == 0
  }

  ghost predicate AllServe(xs: seq<Instance>, servers: seq<Server>, calls: seq<Call>) {
    |xs| == |servers| && forall i | 0 <= i < |xs| :: Serves(xs[i], servers[i].name, calls)
  }

  /** The slots that all calls of the client have taken on the server. */
  ghost function Taken(x: Instance): nat {
    if Runs(x.cfg, x.es) then SlotsTaken(x.cfg, x.es, x.heard + x.lost) else 0
  }

  /** Those that the client does not know of. */
  ghost function Lost(x: Instance): nat {
    if Runs(x.cfg, x.es) then SlotsTaken(x.cfg, x.es, x.lost) else 0
  }

  function GrantsReply(r: Sending.Reply): nat {
    if Granting(r) then 1 else 0
  }

  lemma {:induction false} WireKeepsGrants(answers: seq<P.Answer>)
    ensures Sum(OnWire(answers), GrantsReply) == Sum(answers, Grants)
  {
    if answers == [] {
    } else {
      var front, last := answers[..|answers| - 1], answers[|answers| - 1];
      WireKeepsGrants(front);
      SumSnoc(OnWire(front), Wire(last), GrantsReply);
      SumSnoc(front, last, Grants);
      assert answers == front + [last];
    }
  }

  /** How many granting replies came from the server. */
  function GrantsBy(calls: seq<Call>): Server -> nat {
    (s: Server) => Sum(HeardFrom(calls, s.name), GrantsReply)
  }

  lemma TakenIsHeard(x: Instance, s: Server, calls: seq<Call>)
    requires Serves(x, s.name, calls)
    ensures Taken(x) == GrantsBy(calls)(s) + Lost(x)
  {
    SlotsOfBoth(x.cfg, x.es, x.heard, x.lost);
    SlotsTakenAreAnswered(x.cfg, x.es, x.heard);
    WireKeepsGrants(AnswersTo(x.cfg, x.es, x.heard));
  }

  lemma {:induction false} SumSame<S, T>(xs: seq<S>, f: S -> nat, ys: seq<T>, g: T -> nat)
    requires |xs| == |ys| && forall i | 0 <= i < |xs| :: f(xs[i]) == g(ys[i])
    ensures Sum(xs, f) == Sum(ys, g)
  {
    if xs == [] {
    } else {
      SumSame(xs[1..], f, ys[1..], g);
    }
  }

  /** If one weight exceeds another by one at servers of one name, and names do not
      repeat, the totals differ by at most one, exactly if the name occurs. */
  lemma {:induction false} SumOneMore(servers: seq<Server>, name: string, f: Server -> nat, g: Server -> nat)
    requires NoRepeats(servers)
    requires forall s: Server :: g(s) == f(s) + if s.name == name then 1 else 0
    ensures Sum(servers, g) == Sum(servers, f) + if name in NamesOf(servers) then 1 else 0
  {
    if servers == [] {
    } else {
      var rest := servers[1..];
      SumOneMore(rest, name, f, g);
      assert forall k | 0 <= k < |rest| :: rest[k] == servers[k + 1];
      if name in NamesOf(rest) {
        var k :| 0 <= k < |rest| && rest[k].name == name;
        assert servers[k + 1].name == name;
      }
      if name in NamesOf(servers) {
        var k :| 0 <= k < |servers| && servers[k].name == name;
        assert k > 0 ==> rest[k - 1].name == name;
      }
    }
  }

  lemma HeardOneMore(calls: seq<Call>, c: Call, s: Server)
    requires c.Reserve? ==> FollowsReserve(c.reply)
    ensures GrantsBy(calls + [c])(s) ==
            GrantsBy(calls)(s) + if c.Reserve? && Granting(c.reply) && s.name == c.server then 1 else 0
  {
    assert (calls + [c])[..|calls|] == calls;
    var heard := HeardFrom(calls, s.name);
    if c.Reserve? && c.server == s.name && (c.reply.code.OK? || c.reply.code.ResourceExhausted?) {
      SumSnoc(heard, c.reply, GrantsReply);
    } else {
      assert heard + [] == heard;
    }
  }

  lemma GrantsOneMore(servers: seq<Server>, calls: seq<Call>, c: Call)
    requires NoRepeats(servers) && CallFits(c, servers, true)
    ensures Sum(servers, GrantsBy(calls + [c])) == Sum(servers, GrantsBy(calls)) + if c.Reserve? && Granting(c.reply) then 1 else 0
  {
    var f, g := GrantsBy(calls), GrantsBy(calls + [c]);
    forall s: Server ensures g(s) == f(s) + if c.Reserve? && Granting(c.reply) && s.name == c.server then 1 else 0 {
      HeardOneMore(calls, c, s);
    }
    if c.Reserve? && Granting(c.reply) {
      SumOneMore(servers, c.server, f, g);
    } else {
      SumSame(servers, f, servers, g);
    }
  }

  /** The granting replies in the log, server by server. */
  lemma {:induction false} GrantingsByServer(servers: seq<Server>, calls: seq<Call>)
    requires NoRepeats(servers) && GrowsBy([], calls, servers, true)
    ensures Sum(servers, GrantsBy(calls)) == Grantings(calls)
  {
    if calls == [] {
      SumZero(servers, GrantsBy(calls));
    } else {
      var front, c := calls[..|calls| - 1], calls[|calls| - 1];
      assert calls == front + [c] && CallFits(calls[|front|], servers, true);
      GrantingsByServer(servers, front);
      GrantsOneMore(servers, front, c);
      Count(front, c);
    }
  }

  ghost function SumTaken(xs: seq<Instance>): nat {
    if xs == [] then 0 else Taken(xs[0]) + SumTaken(xs[1..])
  }

  ghost function SumLost(xs: seq<Instance>): nat {
    if xs == [] then 0 else Lost(xs[0]) + SumLost(xs[1..])
  }

  lemma {:induction false} SumTakenIs(xs: seq<Instance>, servers: seq<Server>, f: Server -> nat)
    requires |xs| == |servers| && forall i | 0 <= i < |xs| :: Taken(xs[i]) == f(servers[i]) + Lost(xs[i])
    ensures SumTaken(xs) == Sum(servers, f) + SumLost(xs)
  {
    if xs == [] {
    } else {
      SumTakenIs(xs[1..], servers[1..], f);
    }
  }

  /** The slots that the client's calls took on all servers are as many as the
      granting replies in its log, and those that it never heard of. */
  lemma SlotsTakenOverall(xs: seq<Instance>, servers: seq<Server>, calls: seq<Call>)
    requires NoRepeats(servers) && GrowsBy([], calls, servers, true) && AllServe(xs, servers, calls)
    ensures SumTaken(xs) == Grantings(calls) + SumLost(xs)
  {
    forall i | 0 <= i < |xs| ensures Taken(xs[i]) == GrantsBy(calls)(servers[i]) + Lost(xs[i]) {
      TakenIsHeard(xs[i], servers[i], calls);
    }
    SumTakenIs(xs, servers, GrantsBy(calls));
    GrantingsByServer(servers, calls);
  }

  lemma {:induction false} WireComesFrom(answers: seq<P.Answer>, r: Sending.Reply) returns (a: P.Answer)
    requires r in OnWire(answers)
    ensures a in answers && r == Wire(a)
  {
    var front, last := answers[..|answers| - 1], answers[|answers| - 1];
    if r == Wire(last) {
      a := last;
    } else {
      a := WireComesFrom(front, r);
    }
  }

  /** The server has taken a slot for the client, and the UUID stands for exactly
      one reservation there, which is pending, claimed or reaped. */
  ghost predicate Reserved(x: Instance, uuid: string) {
    Runs(x.cfg, x.es) && Taken(x) > Lost(x) && H.Settled(Final(x.cfg, x.es), uuid) == 1
  }

  /** What the client hears in a granting reply is a reservation of that server. */
  lemma GrantIsAReservation(x: Instance, s: Server, calls: seq<Call>, r: Sending.Reply)
    requires Serves(x, s.name, calls) && r in HeardFrom(calls, s.name) && Granting(r)
    ensures Reserved(x, r.uuid.value)
  {
    var a := WireComesFrom(AnswersTo(x.cfg, x.es, x.heard), r);
    AnswersAreSettled(x.cfg, x.es, x.heard, a);
    TakenIsHeard(x, s, calls);
    var heard := HeardFrom(calls, s.name);
    var k :| 0 <= k < |heard| && heard[k] == r;
    SumUpdate(heard, GrantsReply, k, r);
  }

  lemma LastHeard(calls: seq<Call>, server: string, r: Sending.Reply, uuid: string)
    requires Granting(r) && r.code.OK? && |calls| >= 2
    requires calls[|calls| - 2] == Reserve(server, r) && calls[|calls| - 1] == Distribute(server, uuid)
    ensures r in HeardFrom(calls, server)
  {
    var front := calls[..|calls| - 1];
    assert front[|front| - 1] == Reserve(server, r);
    assert HeardFrom(front, server)[|HeardFrom(front, server)| - 1] == r;
  }

  /** What a call of send takes: whatever runs the servers have made, if they gave
      the replies the client got, it takes one slot over all of them and all sweeps
      if it goes on to Distribute, and else none, but for the slots of replies that
      did not reach it; and the UUID that it hands in stands for the one reservation
      that the chosen server granted. */
  ghost predicate TakesOneSlot(w: Sending.World, servers: seq<Server>, k: nat, calls: seq<Call>, uuid: string) {
    forall xs: seq<Instance> :: AllServe(xs, servers, calls) ==>
      && SumTaken(xs) == Distributes(calls) + SumLost(xs)
      && (SweepOf(w, |servers|, k).Grants? ==>
            var i := SweepOf(w, |servers|, k).i;
            i < |xs| && Reserved(xs[i], uuid) && Distribute(servers[i].name, uuid) in calls)
  }

  /** The composition of one call of send with the servers. */
  method SendOnce(servers: seq<Server>, w: Sending.World) returns (client: Sending.Client, r: Result, ghost sweeps: nat)
    requires NoRepeats(servers) && forall k: nat :: w.clock(k) >= w.start + k
    ensures fresh(client) && EndsIn(w, servers, sweeps, r) && Distributes(client.calls) <= 1
    ensures Distributes(client.calls) == 1 <==> SweepOf(w, |servers|, sweeps).Grants?
    ensures r.Sent? <==> w.accepts && Distributes(client.calls) == 1
    ensures r.Sent? ==> client.calls != [] && client.calls[|client.calls| - 1] == Distribute(r.server, client.uuid)
    ensures AllFollow(w) ==> TakesOneSlot(w, servers, sweeps, client.calls, client.uuid)
  {
    hide Sweeps, Attempts, SweepFrom, EndsIn, SumTaken, SumLost, NamesOf, NoRepeats, CallFits, Serves, GrowsBy, Reserved;
    client := new Sending.Client();
    ghost var tried;
    r, sweeps, tried := client.Send(servers, w);
    ghost var calls, uuid := client.calls, client.uuid;
    forall xs: seq<Instance> | AllFollow(w) && AllServe(xs, servers, calls) ensures SumTaken(xs) == Distributes(calls) + SumLost(xs) {
      SlotsTakenOverall(xs, servers, calls);
    }
    ghost var sweep := SweepOf(w, |servers|, sweeps);
    if AllFollow(w) && sweep.Grants? {
      SweepMeans(w, |servers|, sweeps, 0, false);
      assert FollowsReserve(w.reply(sweeps, sweep.i));
      LastHeard(calls, servers[sweep.i].name, w.reply(sweeps, sweep.i), uuid);
      forall xs: seq<Instance> | AllServe(xs, servers, calls) ensures sweep.i < |xs| && Reserved(xs[sweep.i], uuid) {
        assert Serves(xs[sweep.i], servers[sweep.i].name, calls);
        GrantIsAReservation(xs[sweep.i], servers[sweep.i], calls, w.reply(sweeps, sweep.i));
      }
    }
  }

  /** A whole client process, on the store that an earlier one left: it refreshes its
      cache and sends its job to the servers that it then knows. The one it chooses
      is in the refreshed store and was the first, by load, to grant. */
  method StartAndSend(compiler: string, misc: map<string, string>, db: ServerStore.Database,
                      ghost records: map<string, ServerStore.Record>, ghost queriedAt: map<string, nat>,
                      v: ServerCache.World, w: Sending.World)
    returns (cache: ServerCache.Client, client: Sending.Client, r: Result, ghost sweeps: nat)
    requires ServerStore.Represents(db, records)
    requires forall s :: s in records ==> s in queriedAt && records[s].age == queriedAt[s] / ServerStore.SECOND
    requires forall k: nat :: w.clock(k) >= w.start + k
    ensures cache.Valid() && cache.UpToDate(records, queriedAt, Changed(misc, v), v)
    ensures EndsIn(w, cache.servers, sweeps, r) && Distributes(client.calls) <= 1
    ensures AllFollow(w) ==> TakesOneSlot(w, cache.servers, sweeps, client.calls, client.uuid)
    ensures r.Sent? <==> w.accepts && Distributes(client.calls) == 1
    ensures r.Sent? ==> client.calls != [] && client.calls[|client.calls| - 1] == Distribute(r.server, client.uuid)
    ensures r.Sent? ==> r.server in cache.records
    ensures SweepOf(w, |cache.servers|, sweeps).Grants? ==>
              var i := SweepOf(w, |cache.servers|, sweeps).i;
              && i < |cache.servers| && (r.Sent? ==> r.server == cache.servers[i].name)
              && forall j: nat | j < i :: !w.reply(sweeps, j).code.OK?
                                          && cache.servers[j].currentLoad <= cache.servers[i].currentLoad
  {
    cache := StartUp(compiler, misc, db, records, queriedAt, v);
    client, r, sweeps := SendOnce(cache.servers, w);
    ghost var servers := cache.servers;
    SweepMeans(w, |servers|, sweeps, 0, false);
    if SweepOf(w, |servers|, sweeps).Grants? {
      FirstToGrant(w, servers, sweeps, r);
      assert servers[SweepOf(w, |servers|, sweeps).i].name in NamesOf(servers);
    }
  }
}
