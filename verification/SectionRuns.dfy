/** Whatever clocks, networks and other clients do, the cluster has a run in which a job does what
    ExecuteWithMultiUseLock does then (lock/lock.go). */
module SectionRuns {
  import opened Wrappers
  import opened UseLocks
  import opened Cluster
  import opened ClusterSafety
  import opened JobSteps
  import L = LockDriver

  /** What other clients do next, after a run so far. */
  type Env = seq<Step> -> seq<Step>

  /** They can always do it, and the job itself is none of them. */
  ghost predicate Legal(cfg: Config, o: State, j: nat, env: Env) {
    forall steps :: LegalAfter(cfg, o, j, env, steps)
  }

  ghost predicate LegalAfter(cfg: Config, o: State, j: nat, env: Env, steps: seq<Step>) {
    RunFrom(cfg, o, steps).Some? ==>
      RunFrom(cfg, o, steps + env(steps)).Some? && forall x <- env(steps) :: !JobStep(x, j)
  }

  /** The job's own steps, before each of which the others have their turn. */
  function Weave(env: Env, own: seq<Step>): seq<Step> {
    if own == [] then []
    else Turned(env, Weave(env, own[..|own| - 1])) + [own[|own| - 1]]
  }

  function Turned(env: Env, steps: seq<Step>): seq<Step> {
    steps + env(steps)
  }

  predicate AllOwn(own: seq<Step>, j: nat) {
    forall x <- own :: JobStep(x, j)
  }

  /** The run has brought the job to the phase p, with the given store, and others' requests served on
      the way are the given ones. */
  ghost predicate StandsBy(cfg: Config, o: State, j: nat, steps: seq<Step>, store: Store, p: JobPhase,
                           calls: seq<Call>)
  {
    && RunFrom(cfg, o, steps).Some?
    && var s := RunFrom(cfg, o, steps).value;
       s.store == store && j in s.jobs && s.jobs[j] == p && OthersCalls(cfg, o, j, steps) == calls
  }

  /** Some woven run has. */
  ghost predicate Stands(cfg: Config, o: State, j: nat, env: Env, store: Store, p: JobPhase, calls: seq<Call>) {
    exists own :: AllOwn(own, j) && StandsBy(cfg, o, j, Weave(env, own), store, p, calls)
  }

  /** Some woven run has, and the others have had their turn. */
  ghost predicate Ready(cfg: Config, o: State, j: nat, env: Env, store: Store, p: JobPhase, calls: seq<Call>) {
    exists own :: AllOwn(own, j) && StandsBy(cfg, o, j, Turned(env, Weave(env, own)), store, p, calls)
  }

  /** One step more of the job itself. */
  lemma OwnGo(cfg: Config, o: State, j: nat, steps: seq<Step>, store: Store, p: JobPhase, calls: seq<Call>, step: Step,
              after: Store, q: JobPhase)
    requires StandsBy(cfg, o, j, steps, store, p, calls) && JobStep(step, j)
    requires var s := RunFrom(cfg, o, steps).value; Next(cfg, s, step) == Some(At(s, after, j, q))
    ensures StandsBy(cfg, o, j, steps + [step], after, q, calls)
  {
    assert (steps + [step])[..|steps|] == steps;
    GrowLast(OthersCalls(cfg, o, j, steps), [], []);
  }

  /** One step of somebody else. */
  lemma OtherGo(cfg: Config, o: State, j: nat, steps: seq<Step>, store: Store, p: JobPhase, calls: seq<Call>,
                step: Step)
    requires StandsBy(cfg, o, j, steps, store, p, calls) && !JobStep(step, j)
    requires Next(cfg, RunFrom(cfg, o, steps).value, step).Some?
    ensures var their := Served(cfg, RunFrom(cfg, o, steps).value, step);
      StandsBy(cfg, o, j, steps + [step], PerformAll(store, their), p, calls + their)
  {
    var s := RunFrom(cfg, o, steps).value;
    assert (steps + [step])[..|steps|] == steps;
    OtherJobsStay(cfg, s, step, j);
    OthersServed(cfg, s, step);
  }

  lemma {:induction false} OthersGo(cfg: Config, o: State, j: nat, steps: seq<Step>, store: Store, p: JobPhase,
                                    calls: seq<Call>, more: seq<Step>) returns (their: seq<Call>)
    requires StandsBy(cfg, o, j, steps, store, p, calls)
    requires RunFrom(cfg, o, steps + more).Some? && forall x <- more :: !JobStep(x, j)
    ensures StandsBy(cfg, o, j, steps + more, PerformAll(store, their), p, calls + their)
    decreases |more|
  {
    if more == [] {
      their := [];
      assert steps + more == steps && calls + their == calls;
    } else {
      var front, last := more[..|more| - 1], more[|more| - 1];
      assert (steps + more)[..|steps + more| - 1] == steps + front && steps + more == steps + front + [last];
      var sofar := OthersGo(cfg, o, j, steps, store, p, calls, front);
      var now := Served(cfg, RunFrom(cfg, o, steps + front).value, last);
      OtherGo(cfg, o, j, steps + front, PerformAll(store, sofar), p, calls + sofar, last);
      PerformAppend(store, sofar, now);
      Regroup(calls, sofar, now);
      their := sofar + now;
    }
  }

  /** Others' turn. */
  lemma Interlude(cfg: Config, o: State, j: nat, env: Env, store: Store, p: JobPhase, calls: seq<Call>)
    returns (their: seq<Call>)
    requires Legal(cfg, o, j, env) && Stands(cfg, o, j, env, store, p, calls)
    ensures Ready(cfg, o, j, env, PerformAll(store, their), p, calls + their)
  {
    var own :| AllOwn(own, j) && StandsBy(cfg, o, j, Weave(env, own), store, p, calls);
    var steps := Weave(env, own);
    assert LegalAfter(cfg, o, j, env, steps);
    their := OthersGo(cfg, o, j, steps, store, p, calls, env(steps));
    assert StandsBy(cfg, o, j, Turned(env, steps), PerformAll(store, their), p, calls + their);
  }

  /** What the job's step does, wherever the rest of the cluster is. */
  ghost predicate Makes(cfg: Config, j: nat, store: Store, p: JobPhase, step: Step, after: Store, q: JobPhase) {
    forall b :: Next(cfg, At(b, store, j, p), step) == Some(At(b, after, j, q))
  }

  lemma CallMakes(cfg: Config, store: Store, j: nat, i: nat, again: bool, net: Net, w: Waited)
    requires j in cfg.jobs && i < |cfg.jobs[j]| && (w.Slip? ==> !cfg.rules.clocksRun)
    ensures var (after, reply) := Send(store, Publishing(cfg.jobs[j][i], again), net);
      Makes(cfg, j, store, Acquiring(i, again), JobCall(j, net, w), after, PhaseReplied(cfg.jobs[j][i], i, reply, w))
  {
    var (after, reply) := Send(store, Publishing(cfg.jobs[j][i], again), net);
    forall b ensures Next(cfg, At(b, store, j, Acquiring(i, again)), JobCall(j, net, w))
                  == Some(At(b, after, j, PhaseReplied(cfg.jobs[j][i], i, reply, w)))
    {
      CallNext(cfg, b, store, j, i, again, net, w);
    }
  }

  lemma EndsMake(cfg: Config, store: Store, j: nat)
    requires j in cfg.jobs
    ensures Makes(cfg, j, store, Acquiring(|cfg.jobs[j]|, false), JobEnter(j), store, Body)
    ensures Makes(cfg, j, store, Body, JobLeave(j), store, Releasing(0))
  {
    var start := Acquiring(|cfg.jobs[j]|, false);
    forall b ensures Next(cfg, At(b, store, j, start), JobEnter(j)) == Some(At(b, store, j, Body)) {
      assert b.jobs[j := start][j := Body] == b.jobs[j := Body];
    }
    forall b ensures Next(cfg, At(b, store, j, Body), JobLeave(j)) == Some(At(b, store, j, Releasing(0))) {
      assert b.jobs[j := Body][j := Releasing(0)] == b.jobs[j := Releasing(0)];
    }
  }

  lemma ReleaseMakes(cfg: Config, store: Store, j: nat, i: nat, net: Net)
    requires j in cfg.jobs && i < |cfg.jobs[j]|
    ensures var after := Send(store, Removal(cfg.jobs[j][i], false), net).0;
      Makes(cfg, j, store, Releasing(i), JobRelease(j, net), after, Releasing(i + 1))
  {
    var after := Send(store, Removal(cfg.jobs[j][i], false), net).0;
    var p, q := Releasing(i), Releasing(i + 1);
    forall b ensures Next(cfg, At(b, store, j, p), JobRelease(j, net)) == Some(At(b, after, j, q)) {
      assert b.jobs[j := p][j := q] == b.jobs[j := q];
    }
  }

  /** The job's own next step. */
  lemma OwnNext(cfg: Config, o: State, j: nat, env: Env, store: Store, p: JobPhase, calls: seq<Call>, step: Step,
                after: Store, q: JobPhase)
    requires Ready(cfg, o, j, env, store, p, calls) && JobStep(step, j)
    requires Makes(cfg, j, store, p, step, after, q)
    ensures Stands(cfg, o, j, env, after, q, calls)
  {
    var own :| AllOwn(own, j) && StandsBy(cfg, o, j, Turned(env, Weave(env, own)), store, p, calls);
    var steps := Turned(env, Weave(env, own));
    var s := RunFrom(cfg, o, steps).value;
    assert At(s, store, j, p) == s;
    OwnGo(cfg, o, j, steps, store, p, calls, step, after, q);
    assert (own + [step])[..|own|] == own;
    assert Weave(env, own + [step]) == steps + [step];
  }

  /** One request of a publish. */
  lemma CallGo(cfg: Config, o: State, j: nat, env: Env, store: Store, i: nat, again: bool, calls: seq<Call>,
               net: Net, w: Waited)
    requires j in cfg.jobs && i < |cfg.jobs[j]| && (w.Slip? ==> !cfg.rules.clocksRun)
    requires Ready(cfg, o, j, env, store, Acquiring(i, again), calls)
    ensures var (after, reply) := Send(store, Publishing(cfg.jobs[j][i], again), net);
      Stands(cfg, o, j, env, after, PhaseReplied(cfg.jobs[j][i], i, reply, w), calls)
  {
    CallMakes(cfg, store, j, i, again, net, w);
    var (after, reply) := Send(store, Publishing(cfg.jobs[j][i], again), net);
    OwnNext(cfg, o, j, env, store, Acquiring(i, again), calls, JobCall(j, net, w), after,
            PhaseReplied(cfg.jobs[j][i], i, reply, w));
  }

  /** One publish, of one request or two. */
  lemma PublishGo(cfg: Config, o: State, j: nat, env: Env, store: Store, i: nat, calls: seq<Call>,
                  weather: Weather, w: Waited)
    returns (between: seq<Call>)
    requires j in cfg.jobs && i < |cfg.jobs[j]| && (w.Slip? ==> !cfg.rules.clocksRun) && Legal(cfg, o, j, env)
    requires Ready(cfg, o, j, env, store, Acquiring(i, false), calls)
    ensures var (after, reply) := Publish(store, cfg.jobs[j][i], weather.(between := between));
      Stands(cfg, o, j, env, after, if reply == Done then Acquiring(i + 1, false) else PhaseWaited(i, w),
             calls + between)
  {
    var u := cfg.jobs[j][i];
    var (s1, r1) := Send(store, Create(u, None), weather.first);
    CallGo(cfg, o, j, env, store, i, false, calls, weather.first, w);
    if r1 == NodeExist && u.MayExist() {
      between := SecondGo(cfg, o, j, env, s1, i, calls, weather.second, w);
    } else {
      between := [];
      assert calls + [] == calls;
    }
  }

  /** The second request, and what others do before it. */
  lemma SecondGo(cfg: Config, o: State, j: nat, env: Env, store: Store, i: nat, calls: seq<Call>, net: Net, w: Waited)
    returns (between: seq<Call>)
    requires j in cfg.jobs && i < |cfg.jobs[j]| && (w.Slip? ==> !cfg.rules.clocksRun) && Legal(cfg, o, j, env)
    requires Stands(cfg, o, j, env, store, Acquiring(i, true), calls)
    ensures var (after, reply) := Send(PerformAll(store, between), Swap(cfg.jobs[j][i], None), net);
      reply != NodeExist
      && Stands(cfg, o, j, env, after, if reply == Done then Acquiring(i + 1, false) else PhaseWaited(i, w),
                calls + between)
  {
    between := Interlude(cfg, o, j, env, store, Acquiring(i, true), calls);
    CallGo(cfg, o, j, env, PerformAll(store, between), i, true, calls + between, net, w);
  }

  // The same section with others' requests of its own

  /** The same networks, clocks and sleep. */
  function Filled(t: L.Turn, between: seq<Call>, meanwhile: seq<Call>): L.Turn {
    t.(weather := t.weather.(between := between), meanwhile := meanwhile)
  }

  /** `own` with others' requests replaced. */
  predicate Like(own: seq<L.Turn>, turns: seq<L.Turn>) {
    |own| == |turns|
    && forall k | 0 <= k < |own| :: turns[k] == Filled(own[k], turns[k].weather.between, turns[k].meanwhile)
  }

  /** `own` with no requests of others. */
  function Bare(own: seq<L.Turn>): seq<L.Turn> {
    if own == [] then [] else Bare(own[..|own| - 1]) + [Filled(own[|own| - 1], [], [])]
  }

  lemma {:induction false} BareLike(own: seq<L.Turn>)
    ensures Like(own, Bare(own)) && FlatTurns(Bare(own)) == []
    decreases |own|
  {
    if own != [] {
      var front := own[..|own| - 1];
      BareLike(front);
      FlatSnoc(Bare(front), Filled(own[|own| - 1], [], []));
      forall k | 0 <= k < |own|
        ensures Bare(own)[k] == Filled(own[k], Bare(own)[k].weather.between, Bare(own)[k].meanwhile)
      {
        assert k < |front| ==> Bare(front)[k] == Bare(own)[k] && front[k] == own[k];
      }
    }
  }

  lemma {:induction false} FlatCons(t: L.Turn, turns: seq<L.Turn>)
    ensures FlatTurns([t] + turns) == t.weather.between + t.meanwhile + FlatTurns(turns)
    decreases |turns|
  {
    if turns == [] {
      assert ([t] + turns)[..0] == [];
    } else {
      var front := turns[..|turns| - 1];
      assert ([t] + turns)[..|turns|] == [t] + front;
      FlatCons(t, front);
    }
  }

  /** The clock is honest if the rules say so. */
  predicate Possible(cfg: Config, timeout: int, turns: seq<L.Turn>) {
    cfg.rules.clocksRun ==> L.Honest(timeout, L.Readings(turns))
  }

  lemma TurnPossible(cfg: Config, timeout: int, own: seq<L.Turn>)
    requires own != [] && Possible(cfg, timeout, own)
    ensures var wait := L.LockWait(timeout, own[0].since1, own[0].since2);
      (Verdict(wait).Slip? ==> !cfg.rules.clocksRun) && (wait == L.Again ==> Possible(cfg, timeout, own[1..]))
  {
    L.NeitherExactly(timeout, L.Readings(own)[0]);
    assert L.Readings(own)[1..] == L.Readings(own[1..]);
  }

  /** One attempt; `before` is what others do before it. */
  lemma TurnGo(cfg: Config, o: State, j: nat, env: Env, store: Store, i: nat, calls: seq<Call>, t: L.Turn, w: Waited)
    returns (before: seq<Call>, between: seq<Call>)
    requires j in cfg.jobs && i < |cfg.jobs[j]| && (w.Slip? ==> !cfg.rules.clocksRun) && Legal(cfg, o, j, env)
    requires Stands(cfg, o, j, env, store, Acquiring(i, false), calls)
    ensures var (s1, ok) :=
        L.Attempt(PerformAll(store, before), cfg.jobs[j][i], L.Take(0), Filled(t, between, []));
      Stands(cfg, o, j, env, s1, if ok then Acquiring(i + 1, false) else PhaseWaited(i, w), calls + before + between)
  {
    before := Interlude(cfg, o, j, env, store, Acquiring(i, false), calls);
    between := PublishGo(cfg, o, j, env, PerformAll(store, before), i, calls + before, t.weather, w);
  }

  lemma AttemptSame(m: Store, u: Use, t: L.Turn, between: seq<Call>, meanwhile: seq<Call>)
    ensures L.Attempt(m, u, L.Take(0), Filled(t, between, meanwhile))
         == L.Attempt(m, u, L.Take(0), Filled(t, between, []))
  {
  }

  /** acquire, with all its retries; `before` is what others do before its first attempt. */
  lemma {:induction false} AcquireGo(cfg: Config, o: State, j: nat, env: Env, store: Store, i: nat,
                                     calls: seq<Call>, timeout: int, own: seq<L.Turn>)
    returns (before: seq<Call>, turns: seq<L.Turn>)
    requires j in cfg.jobs && i < |cfg.jobs[j]| && Possible(cfg, timeout, own) && Legal(cfg, o, j, env)
    requires Stands(cfg, o, j, env, store, Acquiring(i, false), calls)
    ensures Like(own, turns)
    ensures var (after, out, _) := L.Retry(PerformAll(store, before), cfg.jobs[j][i], L.Take(0), timeout, turns);
      Stands(cfg, o, j, env, after, PhaseAfter(i, out), calls + before + FlatTurns(turns))
    decreases |own|
  {
    if own == [] {
      before, turns := [], [];
      assert calls + [] + [] == calls;
    } else {
      var t, u := own[0], cfg.jobs[j][i];
      assert own == [t] + own[1..];
      var wait := L.LockWait(timeout, t.since1, t.since2);
      TurnPossible(cfg, timeout, own);
      var between;
      before, between := TurnGo(cfg, o, j, env, store, i, calls, t, Verdict(wait));
      var m := PerformAll(store, before);
      var (s1, ok) := L.Attempt(m, u, L.Take(0), Filled(t, between, []));
      if !ok && wait == L.Again {
        var meanwhile, rest := AcquireGo(cfg, o, j, env, s1, i, calls + before + between, timeout, own[1..]);
        turns := [Filled(t, between, meanwhile)] + rest;
        AttemptSame(m, u, t, between, meanwhile);
        RetryOn(m, u, timeout, Filled(t, between, meanwhile), rest);
        FlatOn(calls + before, Filled(t, between, meanwhile), rest);
        LikeCons(t, between, meanwhile, own[1..], rest);
      } else {
        turns := [Filled(t, between, [])] + Bare(own[1..]);
        BareLike(own[1..]);
        LastTurn(m, u, timeout, Filled(t, between, []), Bare(own[1..]));
        LikeCons(t, between, [], own[1..], Bare(own[1..]));
      }
    }
  }

  lemma LikeCons(t: L.Turn, between: seq<Call>, meanwhile: seq<Call>, own: seq<L.Turn>, rest: seq<L.Turn>)
    requires Like(own, rest)
    ensures Like([t] + own, [Filled(t, between, meanwhile)] + rest)
  {
  }

  lemma FlatOn(calls: seq<Call>, t: L.Turn, rest: seq<L.Turn>)
    ensures calls + FlatTurns([t] + rest) == calls + t.weather.between + t.meanwhile + FlatTurns(rest)
  {
    FlatCons(t, rest);
    Regroup(calls, t.weather.between, t.meanwhile);
    Regroup(calls, t.weather.between + t.meanwhile, FlatTurns(rest));
  }

  /** A turn after which the loop is over. */
  lemma LastTurn(store: Store, u: Use, timeout: int, t: L.Turn, rest: seq<L.Turn>)
    requires t.meanwhile == [] && FlatTurns(rest) == []
    requires L.Attempt(store, u, L.Take(0), t).1 || L.LockWait(timeout, t.since1, t.since2) != L.Again
    ensures var (after, out, _) := L.Retry(store, u, L.Take(0), timeout, [t] + rest);
      var (s1, ok) := L.Attempt(store, u, L.Take(0), t);
      && FlatTurns([t] + rest) == t.weather.between && after == s1
      && out == if ok then L.Succeeded
                else match Verdict(L.LockWait(timeout, t.since1, t.since2))
                  case TryAgain => L.Pending
                  case GiveUp => L.TimedOut
                  case Slip => L.SilentFailure
  {
    FlatCons(t, rest);
    assert t.weather.between + [] + [] == t.weather.between;
  }

  lemma RetryOn(store: Store, u: Use, timeout: int, t: L.Turn, rest: seq<L.Turn>)
    requires !L.Attempt(store, u, L.Take(0), t).1 && L.LockWait(timeout, t.since1, t.since2) == L.Again
    ensures var (a, out, _) := L.Retry(store, u, L.Take(0), timeout, [t] + rest);
      var s1 := L.Attempt(store, u, L.Take(0), t).0;
      var (b, out1, _) := L.Retry(PerformAll(s1, t.meanwhile), u, L.Take(0), timeout, rest);
      a == b && out == out1
  {
    assert ([t] + rest)[1..] == rest;
  }

  predicate LikeScripts(own: seq<L.Script>, scripts: seq<L.Script>) {
    |own| == |scripts| && forall k | 0 <= k < |own| :: Like(own[k].turns, scripts[k].turns)
  }

  function AllPhase(k: nat, refused: Option<L.Section>): JobPhase
    requires refused.Some? ==> refused.value.Refused?
  {
    if refused.None? then Acquiring(k, false) else PhaseAfter(refused.value.held, refused.value.why)
  }

  /** A woven run has been through the first acquires of a section. */
  ghost predicate Got(cfg: Config, o: State, j: nat, env: Env, timeout: int, scripts: seq<L.Script>)
    requires j in cfg.jobs && |scripts| <= |cfg.jobs[j]|
  {
    var (after, refused) := L.Acquired(o.store, cfg.jobs[j], timeout, scripts);
    && (refused.Some? ==> refused.value.Refused?)
    && Stands(cfg, o, j, env, after, AllPhase(|scripts|, refused), FlatScripts(scripts))
  }

  /** The first acquires of a section. */
  lemma {:induction false} AcquireAllGo(cfg: Config, o: State, j: nat, env: Env, timeout: int, own: seq<L.Script>)
    returns (scripts: seq<L.Script>)
    requires j in cfg.jobs && |own| <= |cfg.jobs[j]| && Legal(cfg, o, j, env)
    requires j in o.jobs && o.jobs[j] == Acquiring(0, false)
    requires forall x <- own :: Possible(cfg, timeout, x.turns)
    ensures LikeScripts(own, scripts) && Got(cfg, o, j, env, timeout, scripts)
    decreases |own|
  {
    if own == [] {
      scripts := [];
      BeginGo(cfg, o, j, env);
    } else {
      var front := AcquireAllGo(cfg, o, j, env, timeout, own[..|own| - 1]);
      var next := NextGo(cfg, o, j, env, timeout, front, own[|own| - 1].turns);
      scripts := front + [next];
      LikeSnoc(own, front, next);
    }
  }

  /** The next acquire, unless the section has been refused. */
  lemma NextGo(cfg: Config, o: State, j: nat, env: Env, timeout: int, front: seq<L.Script>, own: seq<L.Turn>)
    returns (next: L.Script)
    requires j in cfg.jobs && |front| < |cfg.jobs[j]| && Legal(cfg, o, j, env) && Possible(cfg, timeout, own)
    requires Got(cfg, o, j, env, timeout, front)
    ensures Like(own, next.turns) && Got(cfg, o, j, env, timeout, front + [next])
  {
    if L.Acquired(o.store, cfg.jobs[j], timeout, front).1.None? {
      next := ScriptGo(cfg, o, j, env, timeout, front, own);
    } else {
      next := RefusedGo(cfg, o, j, env, timeout, front, own);
    }
  }

  lemma BeginGo(cfg: Config, o: State, j: nat, env: Env)
    requires j in o.jobs
    ensures Stands(cfg, o, j, env, o.store, o.jobs[j], [])
  {
    assert AllOwn([], j) && StandsBy(cfg, o, j, Weave(env, []), o.store, o.jobs[j], []);
  }

  /** The next acquire of a section. */
  lemma ScriptGo(cfg: Config, o: State, j: nat, env: Env, timeout: int, front: seq<L.Script>, own: seq<L.Turn>)
    returns (next: L.Script)
    requires j in cfg.jobs && |front| < |cfg.jobs[j]| && Legal(cfg, o, j, env) && Possible(cfg, timeout, own)
    requires L.Acquired(o.store, cfg.jobs[j], timeout, front).1.None? && Got(cfg, o, j, env, timeout, front)
    ensures Like(own, next.turns) && Got(cfg, o, j, env, timeout, front + [next])
  {
    var m := L.Acquired(o.store, cfg.jobs[j], timeout, front).0;
    var gap, turns := AcquireGo(cfg, o, j, env, m, |front|, FlatScripts(front), timeout, own);
    next := L.Script(gap, turns);
    ScriptSnoc(front, gap, turns);
    AcquiredOn(o.store, cfg.jobs[j], timeout, front, next);
  }

  /** A section that has been refused stays so. */
  lemma RefusedGo(cfg: Config, o: State, j: nat, env: Env, timeout: int, front: seq<L.Script>, own: seq<L.Turn>)
    returns (next: L.Script)
    requires j in cfg.jobs && |front| < |cfg.jobs[j]|
    requires L.Acquired(o.store, cfg.jobs[j], timeout, front).1.Some? && Got(cfg, o, j, env, timeout, front)
    ensures Like(own, next.turns) && Got(cfg, o, j, env, timeout, front + [next])
  {
    next := L.Script([], Bare(own));
    BareLike(own);
    ScriptSnoc(front, [], Bare(own));
    assert FlatScripts(front) + [] + [] == FlatScripts(front);
    AcquiredOn(o.store, cfg.jobs[j], timeout, front, next);
  }

  lemma LikeSnoc(own: seq<L.Script>, front: seq<L.Script>, next: L.Script)
    requires own != [] && LikeScripts(own[..|own| - 1], front) && Like(own[|own| - 1].turns, next.turns)
    ensures LikeScripts(own, front + [next])
  {
    forall k | 0 <= k < |own| ensures Like(own[k].turns, (front + [next])[k].turns) {
      if k < |own| - 1 {
        assert own[k] == own[..|own| - 1][k];
      }
    }
  }

  lemma AcquiredOn(s: Store, ucs: seq<Use>, timeout: int, front: seq<L.Script>, x: L.Script)
    requires |front| < |ucs|
    ensures var (m, refused) := L.Acquired(s, ucs, timeout, front);
      L.Acquired(s, ucs, timeout, front + [x]) ==
        if refused.Some? then (m, refused)
        else
          var (t, out, _) := L.Retry(PerformAll(m, x.gap), ucs[|front|], L.Take(0), timeout, x.turns);
          (t, if out == L.TimedOut || out == L.Pending then Some(L.Refused(|front|, out)) else None)
  {
    assert (front + [x])[..|front|] == front;
  }

  /** Both ends of the body. */
  lemma BodyGo(cfg: Config, o: State, j: nat, env: Env, store: Store, calls: seq<Call>)
    returns (body: seq<Call>)
    requires j in cfg.jobs && Legal(cfg, o, j, env)
    requires Stands(cfg, o, j, env, store, Acquiring(|cfg.jobs[j]|, false), calls)
    ensures Stands(cfg, o, j, env, PerformAll(store, body), Releasing(0), calls + body)
  {
    var a := EnterGo(cfg, o, j, env, store, calls);
    var b := LeaveGo(cfg, o, j, env, PerformAll(store, a), calls + a);
    PerformAppend(store, a, b);
    Regroup(calls, a, b);
    body := a + b;
  }

  lemma EnterGo(cfg: Config, o: State, j: nat, env: Env, store: Store, calls: seq<Call>)
    returns (their: seq<Call>)
    requires j in cfg.jobs && Legal(cfg, o, j, env)
    requires Stands(cfg, o, j, env, store, Acquiring(|cfg.jobs[j]|, false), calls)
    ensures Stands(cfg, o, j, env, PerformAll(store, their), Body, calls + their)
  {
    var start := Acquiring(|cfg.jobs[j]|, false);
    their := Interlude(cfg, o, j, env, store, start, calls);
    var m := PerformAll(store, their);
    EndsMake(cfg, m, j);
    OwnNext(cfg, o, j, env, m, start, calls + their, JobEnter(j), m, Body);
  }

  lemma LeaveGo(cfg: Config, o: State, j: nat, env: Env, store: Store, calls: seq<Call>)
    returns (their: seq<Call>)
    requires j in cfg.jobs && Legal(cfg, o, j, env) && Stands(cfg, o, j, env, store, Body, calls)
    ensures Stands(cfg, o, j, env, PerformAll(store, their), Releasing(0), calls + their)
  {
    their := Interlude(cfg, o, j, env, store, Body, calls);
    var m := PerformAll(store, their);
    EndsMake(cfg, m, j);
    OwnNext(cfg, o, j, env, m, Body, calls + their, JobLeave(j), m, Releasing(0));
  }

  predicate LikePartings(own: seq<L.Parting>, partings: seq<L.Parting>) {
    |own| == |partings| && forall k | 0 <= k < |own| :: own[k].net == partings[k].net
  }

  /** The first removals of a section. */
  lemma {:induction false} ReleaseAllGo(cfg: Config, o: State, j: nat, env: Env, store: Store,
                                        calls: seq<Call>, own: seq<L.Parting>)
    returns (partings: seq<L.Parting>)
    requires j in cfg.jobs && |own| <= |cfg.jobs[j]| && Legal(cfg, o, j, env)
    requires Stands(cfg, o, j, env, store, Releasing(0), calls)
    ensures LikePartings(own, partings)
    ensures Stands(cfg, o, j, env, L.Released(store, cfg.jobs[j], partings), Releasing(|own|),
                   calls + FlatPartings(partings))
    decreases |own|
  {
    if own == [] {
      partings := [];
      assert calls + [] == calls;
    } else {
      var i := |own| - 1;
      var front := ReleaseAllGo(cfg, o, j, env, store, calls, own[..i]);
      var m := L.Released(store, cfg.jobs[j], front);
      var gap := ReleaseGo(cfg, o, j, env, m, i, calls + FlatPartings(front), own[i].net);
      partings := front + [L.Parting(gap, own[i].net)];
      PartingSnoc(store, cfg.jobs[j], front, L.Parting(gap, own[i].net));
      Regroup(calls, FlatPartings(front), gap);
    }
  }

  lemma PartingSnoc(s: Store, ucs: seq<Use>, front: seq<L.Parting>, x: L.Parting)
    requires |front| < |ucs|
    ensures FlatPartings(front + [x]) == FlatPartings(front) + x.gap
    ensures L.Released(s, ucs, front + [x])
         == Send(PerformAll(L.Released(s, ucs, front), x.gap), Removal(ucs[|front|], false), x.net).0
  {
    assert (front + [x])[..|front|] == front;
  }

  /** One removal, and what others do before it. */
  lemma ReleaseGo(cfg: Config, o: State, j: nat, env: Env, store: Store, i: nat, calls: seq<Call>, net: Net)
    returns (gap: seq<Call>)
    requires j in cfg.jobs && i < |cfg.jobs[j]| && Legal(cfg, o, j, env)
    requires Stands(cfg, o, j, env, store, Releasing(i), calls)
    ensures var after := Send(PerformAll(store, gap), Removal(cfg.jobs[j][i], false), net).0;
      Stands(cfg, o, j, env, after, Releasing(i + 1), calls + gap)
  {
    gap := Interlude(cfg, o, j, env, store, Releasing(i), calls);
    var m := PerformAll(store, gap);
    ReleaseMakes(cfg, m, j, i, net);
    OwnNext(cfg, o, j, env, m, Releasing(i), calls + gap, JobRelease(j, net),
            Send(m, Removal(cfg.jobs[j][i], false), net).0, Releasing(i + 1));
  }

  /** From any state in which a job has not begun, whatever its clocks and networks and whatever other
      clients do before each of its steps, there is a run of the cluster in which it goes through its
      section among them: it leaves the store that Execute leaves with exactly the others' requests of
      that run in between, and is done, gone with an error at the lock Execute names, or still trying
      there. */
  lemma SectionRefines(cfg: Config, o: State, j: nat, env: Env, timeout: int, own: seq<L.Script>, bodyOk: bool,
                       nets: seq<L.Parting>)
    returns (scripts: seq<L.Script>, body: seq<Call>, partings: seq<L.Parting>)
    requires j in cfg.jobs && j in o.jobs && o.jobs[j] == Acquiring(0, false) && Legal(cfg, o, j, env)
    requires |own| == |nets| == |cfg.jobs[j]| && forall x <- own :: Possible(cfg, timeout, x.turns)
    ensures LikeScripts(own, scripts) && LikePartings(nets, partings)
    ensures var (store, r) := L.Execute(o.store, cfg.jobs[j], timeout, scripts, body, bodyOk, partings);
      Stands(cfg, o, j, env, store, if r.Ran? then Releasing(|nets|) else PhaseAfter(r.held, r.why),
             FlatScripts(scripts) + body + FlatPartings(partings))
  {
    scripts := AcquireAllGo(cfg, o, j, env, timeout, own);
    var (store, refused) := L.Acquired(o.store, cfg.jobs[j], timeout, scripts);
    if refused.None? {
      body := BodyGo(cfg, o, j, env, store, FlatScripts(scripts));
      var calls := FlatScripts(scripts) + body;
      partings := ReleaseAllGo(cfg, o, j, env, PerformAll(store, body), calls, nets);
    } else {
      body, partings := [], BareNets(nets);
      BareNetsLike(nets);
      assert FlatScripts(scripts) + [] + [] == FlatScripts(scripts);
    }
  }

  function BareNets(own: seq<L.Parting>): seq<L.Parting> {
    if own == [] then [] else BareNets(own[..|own| - 1]) + [L.Parting([], own[|own| - 1].net)]
  }

  lemma {:induction false} BareNetsLike(own: seq<L.Parting>)
    ensures LikePartings(own, BareNets(own)) && FlatPartings(BareNets(own)) == []
    decreases |own|
  {
    if own != [] {
      var front := own[..|own| - 1];
      BareNetsLike(front);
      assert BareNets(own)[..|front|] == BareNets(front);
      forall k | 0 <= k < |own| ensures own[k].net == BareNets(own)[k].net {
        assert k < |front| ==> BareNets(front)[k] == BareNets(own)[k] && front[k] == own[k];
      }
    }
  }
}
