/** Why a Reserve call is refused, when others run at the same time. */
module ProtocolRefusals {
  import opened Wrappers
  import opened Protocol
  import opened ProtocolBounds

  /** The state after the first k steps of a run. */
  ghost predicate RunsTo(cfg: Config, es: seq<Event>, k: nat, m: State) {
    k <= |es| && Run(cfg, Init(cfg), es[..k]) == Some(m)
  }

  lemma {:induction false} PrefixRuns(cfg: Config, es: seq<Event>, s: State, k: nat) returns (m: State)
    requires Run(cfg, Init(cfg), es) == Some(s) && k <= |es|
    ensures RunsTo(cfg, es, k, m)
  {
    if k == |es| {
      m := s;
      assert es[..k] == es;
    } else {
      var front := es[..|es| - 1];
      m := PrefixRuns(cfg, front, Run(cfg, Init(cfg), front).value, k);
      assert front[..k] == es[..k];
    }
  }

  predicate StepOf(e: Event, i: nat) {
    e.Reserve? && e.i == i
  }

  /** Step k is the last one of handler i. */
  ghost predicate LastStep(es: seq<Event>, k: nat, i: nat) {
    k < |es| && StepOf(es[k], i) && forall n | k < n < |es| :: !StepOf(es[n], i)
  }

  /** After its last step a handler stays where it is. */
  lemma {:induction false} StaysPut(cfg: Config, es: seq<Event>, s: State, k: nat, m: State, i: nat)
    requires Run(cfg, Init(cfg), es) == Some(s) && LastStep(es, k, i) && RunsTo(cfg, es, k, m)
    ensures Next(cfg, m, es[k]).Some? && |s.rs| == |m.rs| && i < |s.rs|
    ensures s.rs[i] == Next(cfg, m, es[k]).value.rs[i]
  {
    var front := es[..|es| - 1];
    if k == |es| - 1 {
      assert front == es[..k];
    } else {
      assert front[..k] == es[..k] && front[k] == es[k];
      assert forall n | k < n < |front| :: front[n] == es[n];
      StaysPut(cfg, front, Run(cfg, Init(cfg), front).value, k, m, i);
    }
  }

  /** A handler that is not idle has made a step. */
  lemma {:induction false} HasStepped(cfg: Config, es: seq<Event>, s: State, i: nat) returns (k: nat)
    requires Run(cfg, Init(cfg), es) == Some(s) && i < |s.rs| && !s.rs[i].Idle?
    ensures LastStep(es, k, i)
  {
    if es == [] {
      assert false;
    } else if StepOf(es[|es| - 1], i) {
      k := |es| - 1;
    } else {
      var front := es[..|es| - 1];
      k := HasStepped(cfg, front, Run(cfg, Init(cfg), front).value, i);
    }
  }

  /** At step k the capacity test of handler i finds no room. */
  ghost predicate SeesNoRoom(cfg: Config, es: seq<Event>, k: nat, i: nat) {
    exists m :: RunsTo(cfg, es, k, m) && i < |m.rs| && m.rs[i].Testing? && m.sh.counter >= cfg.jobsMax
  }

  /** At step k handler i loads the counter, which shows c. */
  ghost predicate Loads(cfg: Config, es: seq<Event>, k: nat, i: nat, c: nat) {
    exists m :: RunsTo(cfg, es, k, m) && i < |m.rs| && m.sh.counter == c
                && (m.rs[i].Loading? || (cfg.fused && m.rs[i].Testing? && c < cfg.jobsMax))
  }

  /** At step k handler i tries the exchange, and the counter, which now shows d, is
      not what the handler loaded in the step before. */
  ghost predicate IsOutrun(cfg: Config, es: seq<Event>, k: nat, i: nat, d: nat) {
    && (exists m :: RunsTo(cfg, es, k, m) && i < |m.rs| && m.rs[i].Swapping? && m.sh.counter == d)
    && (exists l, c :: LastStep(es[..k], l, i) && Loads(cfg, es, l, i, c) && c != d)
  }

  /** The value a handler is about to exchange is the one it loaded in its last step. */
  lemma SwapsWhatItLoaded(cfg: Config, es: seq<Event>, s: State, i: nat, seen: nat) returns (l: nat)
    requires Run(cfg, Init(cfg), es) == Some(s) && i < |s.rs| && s.rs[i] == Swapping(seen)
    ensures LastStep(es, l, i) && Loads(cfg, es, l, i, seen)
  {
    l := HasStepped(cfg, es, s, i);
    var m := PrefixRuns(cfg, es, s, l);
    StaysPut(cfg, es, s, l, m, i);
  }

  /** The step with which a call is refused: the exchange meets another value than
      the one that was loaded, or the test meets a full counter. */
  lemma RefusingStep(cfg: Config, m: State, e: Event, i: nat)
    requires Next(cfg, m, e).Some? && StepOf(e, i)
    ensures i < |m.rs|
    ensures var pc := Next(cfg, m, e).value.rs[i];
            pc.Answered? && pc.answer.Full? <==>
            || (m.rs[i].Testing? && m.sh.counter >= cfg.jobsMax)
            || (m.rs[i].Swapping? && m.rs[i].seen != m.sh.counter)
    ensures var pc := Next(cfg, m, e).value.rs[i];
            pc.Answered? && pc.answer.Full? ==>
              pc.answer.jobs == if m.rs[i].Testing? then cfg.jobsMax else m.sh.counter
  {
  }

  lemma LoadIsUnique(cfg: Config, es: seq<Event>, m: State, k: nat, i: nat, seen: nat, l: nat, c: nat)
    requires RunsTo(cfg, es, k, m) && i < |m.rs| && m.rs[i] == Swapping(seen)
    requires LastStep(es[..k], l, i) && Loads(cfg, es, l, i, c)
    ensures seen == c
  {
    var n :| RunsTo(cfg, es, l, n) && i < |n.rs| && n.sh.counter == c
             && (n.rs[i].Loading? || (cfg.fused && n.rs[i].Testing? && c < cfg.jobsMax));
    assert es[..k][..l] == es[..l];
    StaysPut(cfg, es[..k], m, l, n, i);
  }

  lemma OutrunMeans(cfg: Config, es: seq<Event>, m: State, k: nat, i: nat)
    requires RunsTo(cfg, es, k, m) && i < |m.rs| && m.rs[i].Swapping?
    ensures IsOutrun(cfg, es, k, i, m.sh.counter) <==> m.rs[i].seen != m.sh.counter
  {
    var l := SwapsWhatItLoaded(cfg, es[..k], m, i, m.rs[i].seen);
    LoadsInPrefix(cfg, es, k, l, i, m.rs[i].seen);
    if IsOutrun(cfg, es, k, i, m.sh.counter) {
      var l', c :| LastStep(es[..k], l', i) && Loads(cfg, es, l', i, c) && c != m.sh.counter;
      LoadIsUnique(cfg, es, m, k, i, m.rs[i].seen, l', c);
    }
  }

  lemma LoadsInPrefix(cfg: Config, es: seq<Event>, k: nat, l: nat, i: nat, c: nat)
    requires l < k <= |es| && Loads(cfg, es[..k], l, i, c)
    ensures Loads(cfg, es, l, i, c)
  {
    assert es[..k][..l] == es[..l];
  }

  /** Why a call is refused with a number: by the test, which then reports the
      maximum, or by the exchange, which reports what it met. */
  ghost predicate Refused(cfg: Config, es: seq<Event>, k: nat, i: nat, jobs: nat) {
    && LastStep(es, k, i)
    && ((SeesNoRoom(cfg, es, k, i) && jobs == cfg.jobsMax) || IsOutrun(cfg, es, k, i, jobs))
  }

  lemma RefusedHere(cfg: Config, es: seq<Event>, s: State, k: nat, m: State, i: nat, jobs: nat)
    requires Run(cfg, Init(cfg), es) == Some(s) && LastStep(es, k, i) && RunsTo(cfg, es, k, m) && i < |s.rs|
    ensures s.rs[i] == Answered(Full(jobs)) <==> Refused(cfg, es, k, i, jobs)
  {
    StaysPut(cfg, es, s, k, m, i);
    RefusingStep(cfg, m, es[k], i);
    if m.rs[i].Swapping? {
      OutrunMeans(cfg, es, m, k, i);
    }
  }

  lemma LastStepIsUnique(es: seq<Event>, k: nat, l: nat, i: nat)
    requires LastStep(es, k, i) && LastStep(es, l, i)
    ensures k == l
  {
  }

  /** Refusals, exactly: in every run a call stands refused if and only if the last
      step of its handler was a capacity test that found no room, or an exchange for
      which the counter had changed since the handler loaded it. */
  lemma RefusedExactlyWhen(cfg: Config, es: seq<Event>, s: State, i: nat, jobs: nat)
    requires Run(cfg, Init(cfg), es) == Some(s) && i < |s.rs|
    ensures s.rs[i] == Answered(Full(jobs)) <==> exists k: nat :: Refused(cfg, es, k, i, jobs)
  {
    if s.rs[i].Idle? {
      if k: nat :| Refused(cfg, es, k, i, jobs) {
        var m := PrefixRuns(cfg, es, s, k);
        RefusedHere(cfg, es, s, k, m, i, jobs);
      }
    } else {
      var k := HasStepped(cfg, es, s, i);
      var m := PrefixRuns(cfg, es, s, k);
      RefusedHere(cfg, es, s, k, m, i, jobs);
      forall l: nat | Refused(cfg, es, l, i, jobs) ensures l == k {
        LastStepIsUnique(es, k, l, i);
      }
    }
  }

  lemma MissedExchange(cfg: Config, es: seq<Event>, s: State, n: nat, i: nat) returns (s': State)
    requires Climbed(cfg, es, s, n) && i < |s.rs| && s.rs[i].Swapping? && s.rs[i].seen != s.sh.counter
    ensures Climbed(cfg, es + [Reserve(i, [])], s', n) && s'.rs == s.rs[i := Answered(Full(s.sh.counter))]
  {
    s' := Next(cfg, s, Reserve(i, [])).value;
    Extend(cfg, es, s, Reserve(i, []));
  }

  /** Two handlers pass the test of an empty server. */
  lemma BothLoading(cfg: Config) returns (es: seq<Event>, s: State)
    requires cfg.Valid() && !cfg.fused && cfg.reservers >= 2
    ensures Climbed(cfg, es, s, 0) && s.sh.counter == 0 && |s.rs| == cfg.reservers
    ensures s.rs[0] == Loading && s.rs[1] == Loading
  {
    es, s := Fill(cfg, 0);
    ClimbedSlots(cfg, es, s, 0);
    hide Climbed, Reached, Run, Distinct;
    es, s := Enter(cfg, es, s, 0, 0);
    es, s := Enter(cfg, es, s, 0, 1);
  }

  lemma Load(cfg: Config, es: seq<Event>, s: State, i: nat) returns (s': State)
    requires Climbed(cfg, es, s, 0) && i < |s.rs| && s.rs[i] == Loading
    ensures Climbed(cfg, es + [Reserve(i, [])], s', 0) && s'.rs == s.rs[i := Swapping(s.sh.counter)]
  {
    s' := Quiet(cfg, es, s, 0, i);
  }

  /** A call can be refused although there is room: two handlers load the same value,
      and the exchange of one of them makes that of the other fail. */
  lemma RefusedWithRoom(cfg: Config) returns (es: seq<Event>, s: State)
    requires cfg.Valid() && !cfg.fused && cfg.reservers >= 2 && cfg.jobsMax >= 2
    ensures Reached(cfg, es, s) && |s.rs| >= 2 && s.rs[1] == Answered(Full(1)) && Slots(s) == 1 < cfg.jobsMax
  {
    hide Run, Distinct, Slots, Init;
    es, s := BothLoading(cfg);
    var t := Load(cfg, es, s, 1);
    es, s := Take(cfg, es + [Reserve(1, [])], t, 0, 0);
    ClimbedSlots(cfg, es, s, 1);
    t := MissedExchange(cfg, es, s, 1, 1);
    es, s := es + [Reserve(1, [])], t;
    ClimbedSlots(cfg, es, s, 1);
  }
}
