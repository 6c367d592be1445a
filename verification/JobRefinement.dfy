/** Whatever a job does in any run of the cluster is what ExecuteWithMultiUseLock (lock/lock.go) does
    with the other clients' requests of that run in between. */
module JobRefinement {
  import opened Wrappers
  import opened UseLocks
  import opened Cluster
  import opened ClusterSafety
  import opened JobSteps
  import L = LockDriver

  /** What a job has been through, with the given timeout: its finished acquires; before the current
      one, others' requests and its turns so far, and if it is between the two requests of a publish
      the first one's network and others' requests since; others' requests since the last acquire;
      its finished removals, and others' requests since. */
  datatype Tale = Tale(timeout: nat, scripts: seq<L.Script>, gap: seq<Call>, turns: seq<L.Turn>, first: Net,
                       between: seq<Call>, body: seq<Call>, partings: seq<L.Parting>, rest: seq<Call>)

  function Nothing(timeout: nat): Tale {
    Tale(timeout, [], [], [], Delivered, [], [], [], [])
  }

  /** Clock readings in turn k that give each verdict: a pause has gone by for every turn before it. */
  function Since(w: Waited, k: nat, timeout: nat): L.Reading {
    match w
    case TryAgain => L.Reading(k * L.Pause, k * L.Pause)
    case GiveUp => L.Reading(timeout, timeout)
    case Slip => L.Reading(timeout, 0)
  }

  /** The next turn of the tale. */
  function TurnOf(tale: Tale, first: Net, second: Net, w: Waited): L.Turn {
    var since := Since(w, |tale.turns|, tale.timeout);
    L.Turn(Weather(first, tale.between, second), 0, since.since1, since.since2, L.Pause, [])
  }

  /** A clock that has gone on by a pause in every turn, and stopped nothing yet. */
  predicate Ticks(turns: seq<L.Turn>) {
    forall k | 0 <= k < |turns| :: TicksAt(turns[k], k)
  }

  predicate TicksAt(t: L.Turn, k: nat) {
    t.since1 == t.since2 == k * L.Pause && t.slept == L.Pause
  }

  /** If the rules say that no clock is set back, then that of the tale runs. */
  predicate Sober(cfg: Config, tale: Tale) {
    && Ticks(tale.turns)
    && (cfg.rules.clocksRun ==> forall x <- tale.scripts :: L.ClockRuns(x.turns, 0))
  }

  lemma {:induction false} TicksRun(turns: seq<L.Turn>, turn: L.Turn, k: nat)
    requires k <= |turns| && Ticks(turns)
    requires |turns| * L.Pause <= turn.since1 <= turn.since2 && L.Pause <= turn.slept
    ensures L.ClockRuns(turns[k..] + [turn], k * L.Pause)
    decreases |turns| - k
  {
    if k == |turns| {
      assert turns[k..] + [turn] == [turn];
    } else {
      TicksRun(turns, turn, k + 1);
      assert TicksAt(turns[k], k);
      assert (turns[k..] + [turn])[1..] == turns[k + 1..] + [turn];
    }
  }

  /** The store of the current acquire after its turns so far, none of which was the last. */
  function Trying(o: Store, ucs: seq<Use>, tale: Tale): Option<Store>
    requires |tale.scripts| < |ucs|
  {
    var (m, refused) := L.Acquired(o, ucs, tale.timeout, tale.scripts);
    if refused.Some? then None else
    var (t, out, _) := L.Retry(PerformAll(m, tale.gap), ucs[|tale.scripts|], L.Take(0), tale.timeout, tale.turns);
    if out == L.Pending then Some(t) else None
  }

  /** The tale leads from the store o to the given store and phase. */
  predicate Tells(o: Store, ucs: seq<Use>, tale: Tale, p: JobPhase, store: Store) {
    match p
    case Acquiring(i, again) =>
      && |tale.scripts| == i && tale.partings == [] && tale.rest == []
      && (if i < |ucs| then
            && tale.body == [] && Trying(o, ucs, tale).Some?
            && if again then
                 var (m, reply) := Send(Trying(o, ucs, tale).value, Create(ucs[i], None), tale.first);
                 && reply == NodeExist && ucs[i].MayExist() && store == PerformAll(m, tale.between)
               else tale.between == [] && store == Trying(o, ucs, tale).value
          else Entered(o, ucs, tale, store) && !again)
    case Body => tale.partings == [] && tale.rest == [] && Entered(o, ucs, tale, store)
    case Releasing(k) =>
      && |tale.scripts| == |ucs| && |tale.partings| == k <= |ucs|
      && tale.gap == [] && tale.turns == [] && tale.between == []
      && L.Acquired(o, ucs, tale.timeout, tale.scripts).1.None?
      && store == PerformAll(
           L.Released(PerformAll(L.Acquired(o, ucs, tale.timeout, tale.scripts).0, tale.body), ucs, tale.partings),
           tale.rest)
    case Failed(i) =>
      && |tale.scripts| == i + 1 <= |ucs| && tale.partings == [] && tale.body == []
      && tale.gap == [] && tale.turns == [] && tale.between == []
      && L.Acquired(o, ucs, tale.timeout, tale.scripts).1 == Some(L.Refused(i, L.TimedOut))
      && store == PerformAll(L.Acquired(o, ucs, tale.timeout, tale.scripts).0, tale.rest)
  }

  predicate Entered(o: Store, ucs: seq<Use>, tale: Tale, store: Store) {
    && |tale.scripts| == |ucs| && tale.gap == [] && tale.turns == [] && tale.between == []
    && L.Acquired(o, ucs, tale.timeout, tale.scripts).1.None?
    && store == PerformAll(L.Acquired(o, ucs, tale.timeout, tale.scripts).0, tale.body)
  }

  // Lemmas about retry loops

  /** A loop that is still trying goes on with one turn more. */
  lemma {:induction false} RetrySnoc(s: Store, u: Use, timeout: nat, turns: seq<L.Turn>, turn: L.Turn)
    requires L.Retry(s, u, L.Take(0), timeout, turns).1 == L.Pending
    ensures var (m, _, _) := L.Retry(s, u, L.Take(0), timeout, turns);
      var (t, out, _) := L.Retry(s, u, L.Take(0), timeout, turns + [turn]);
      var (t1, out1, _) := L.Retry(m, u, L.Take(0), timeout, [turn]);
      t == t1 && out == out1
    decreases |turns|
  {
    if turns == [] {
      assert turns + [turn] == [turn];
    } else {
      var (s1, _) := L.Attempt(s, u, L.Take(0), turns[0]);
      RetrySnoc(PerformAll(s1, turns[0].meanwhile), u, timeout, turns[1..], turn);
      assert (turns + [turn])[1..] == turns[1..] + [turn];
    }
  }

  /** Others' requests during the last sleep. */
  function Later(turns: seq<L.Turn>, calls: seq<Call>): seq<L.Turn>
    requires turns != []
  {
    var last := turns[|turns| - 1];
    turns[|turns| - 1 := last.(meanwhile := last.meanwhile + calls)]
  }

  lemma {:induction false} RetryLater(s: Store, u: Use, timeout: nat, turns: seq<L.Turn>, calls: seq<Call>)
    requires turns != [] && L.Retry(s, u, L.Take(0), timeout, turns).1 == L.Pending
    ensures var (m, _, _) := L.Retry(s, u, L.Take(0), timeout, turns);
      var (t, out, _) := L.Retry(s, u, L.Take(0), timeout, Later(turns, calls));
      t == PerformAll(m, calls) && out == L.Pending
    decreases |turns|
  {
    var (s1, _) := L.Attempt(s, u, L.Take(0), turns[0]);
    if |turns| == 1 {
      PerformAppend(s1, turns[0].meanwhile, calls);
      assert Later(turns, calls)[1..] == [] && turns[1..] == [];
    } else {
      RetryLater(PerformAll(s1, turns[0].meanwhile), u, timeout, turns[1..], calls);
      assert Later(turns, calls)[1..] == Later(turns[1..], calls);
    }
  }

  /** All others' requests in the tale, in order. */
  function Flat(tale: Tale): seq<Call> {
    FlatScripts(tale.scripts) + tale.gap + FlatTurns(tale.turns) + tale.between + tale.body
    + FlatPartings(tale.partings) + tale.rest
  }

  // ---- Steps of the tale ---------------------------------------------------------------------------

  lemma FlatLater(turns: seq<L.Turn>, calls: seq<Call>)
    requires turns != []
    ensures FlatTurns(Later(turns, calls)) == FlatTurns(turns) + calls
  {
    var n := |turns| - 1;
    assert Later(turns, calls)[..n] == turns[..n];
    var last := turns[n];
    assert FlatTurns(turns[..n]) + last.weather.between + (last.meanwhile + calls)
        == FlatTurns(turns[..n]) + last.weather.between + last.meanwhile + calls;
  }

  /** Others' requests added where the tale has got to. */
  function Extend(tale: Tale, p: JobPhase, locks: nat, calls: seq<Call>): Tale {
    match p
    case Acquiring(i, again) =>
      if i >= locks then tale.(body := tale.body + calls)
      else if again then tale.(between := tale.between + calls)
      else if tale.turns == [] then tale.(gap := tale.gap + calls)
      else tale.(turns := Later(tale.turns, calls))
    case Body => tale.(body := tale.body + calls)
    case Releasing(_) => tale.(rest := tale.rest + calls)
    case Failed(_) => tale.(rest := tale.rest + calls)
  }

  lemma ExtendTells(o: Store, ucs: seq<Use>, tale: Tale, p: JobPhase, store: Store, calls: seq<Call>)
    requires Tells(o, ucs, tale, p, store)
    ensures Tells(o, ucs, Extend(tale, p, |ucs|, calls), p, PerformAll(store, calls))
  {
    var m := L.Acquired(o, ucs, tale.timeout, tale.scripts).0;
    match p {
      case Acquiring(i, again) =>
        if i >= |ucs| {
          PerformAppend(m, tale.body, calls);
        } else if again {
          var n := Send(Trying(o, ucs, tale).value, Create(ucs[i], None), tale.first).0;
          PerformAppend(n, tale.between, calls);
        } else if tale.turns == [] {
          PerformAppend(m, tale.gap, calls);
        } else {
          RetryLater(PerformAll(m, tale.gap), ucs[i], tale.timeout, tale.turns, calls);
        }
      case Body => PerformAppend(m, tale.body, calls);
      case Releasing(_) =>
        PerformAppend(L.Released(PerformAll(m, tale.body), ucs, tale.partings), tale.rest, calls);
      case Failed(_) => PerformAppend(m, tale.rest, calls);
    }
  }

  lemma ExtendFlat(o: Store, ucs: seq<Use>, tale: Tale, p: JobPhase, store: Store, calls: seq<Call>)
    requires Tells(o, ucs, tale, p, store)
    ensures Flat(Extend(tale, p, |ucs|, calls)) == Flat(tale) + calls
  {
    var a := FlatScripts(tale.scripts);
    var b := a + tale.gap;
    var c := b + FlatTurns(tale.turns);
    var d := c + tale.between;
    var e := d + tale.body;
    var f := e + FlatPartings(tale.partings);
    if p.Releasing? || p.Failed? {
      GrowLast(f, tale.rest, calls);
    } else if p.Body? || p.i >= |ucs| {
      GrowLast(d, tale.body, calls);
    } else if p.again {
      GrowLast(c, tale.between, calls);
    } else if tale.turns == [] {
      GrowLast(a, tale.gap, calls);
    } else {
      FlatLater(tale.turns, calls);
      GrowLast(b, FlatTurns(tale.turns), calls);
    }
  }

  lemma ExtendSober(cfg: Config, tale: Tale, p: JobPhase, locks: nat, calls: seq<Call>)
    requires Sober(cfg, tale)
    ensures Sober(cfg, Extend(tale, p, locks, calls)) && |Extend(tale, p, locks, calls).turns| == |tale.turns|
    ensures Extend(tale, p, locks, calls).timeout == tale.timeout
  {
    assert forall k | 0 <= k < |tale.turns| :: TicksAt(tale.turns[k], k);
  }

  /** The tale after a whole publish: one turn more, or the end of the acquire. */
  function AfterTurn(tale: Tale, turn: L.Turn, ends: bool): Tale {
    if !ends then tale.(turns := tale.turns + [turn], between := [])
    else tale.(scripts := tale.scripts + [L.Script(tale.gap, tale.turns + [turn])],
               gap := [], turns := [], between := [])
  }

  lemma TurnFlat(tale: Tale, first: Net, second: Net, w: Waited, ends: bool)
    requires tale.body == []
    ensures Flat(AfterTurn(tale, TurnOf(tale, first, second, w), ends)) == Flat(tale)
  {
    var turn := TurnOf(tale, first, second, w);
    var a := FlatScripts(tale.scripts) + tale.gap;
    FlatSnoc(tale.turns, turn);
    ScriptSnoc(tale.scripts, tale.gap, tale.turns + [turn]);
    GrowLast(FlatTurns(tale.turns), tale.between, []);
    Regroup(a, FlatTurns(tale.turns), tale.between);
    GrowLast(a + FlatTurns(tale.turns), tale.between, []);
  }

  lemma TurnSober(cfg: Config, tale: Tale, first: Net, second: Net, w: Waited, ends: bool)
    requires (w.Slip? ==> !cfg.rules.clocksRun) && (!ends ==> w.TryAgain?) && Sober(cfg, tale)
    requires |tale.turns| * L.Pause < tale.timeout
    ensures Sober(cfg, AfterTurn(tale, TurnOf(tale, first, second, w), ends))
  {
    var turn := TurnOf(tale, first, second, w);
    if ends && cfg.rules.clocksRun {
      TicksRun(tale.turns, turn, 0);
      assert tale.turns[0..] + [turn] == tale.turns + [turn];
    }
    if !ends {
      assert TicksAt(turn, |tale.turns|);
    }
  }

  /** One publish, in the words of a retry loop. */
  lemma OneTurn(m: Store, u: Use, tale: Tale, first: Net, second: Net, w: Waited)
    requires |tale.turns| * L.Pause < tale.timeout
    ensures var (after, reply) := Publish(m, u, Weather(first, tale.between, second));
      var (t, out, _) := L.Retry(m, u, L.Take(0), tale.timeout, [TurnOf(tale, first, second, w)]);
      && t == after
      && out == if reply == Done then L.Succeeded
                else match w
                  case TryAgain => L.Pending
                  case GiveUp => L.TimedOut
                  case Slip => L.SilentFailure
  {
    var turn := TurnOf(tale, first, second, w);
    assert [turn][1..] == [];
    var after := Publish(m, u, turn.weather).0;
    assert PerformAll(after, []) == after;
  }

  lemma TurnTells(o: Store, ucs: seq<Use>, tale: Tale, i: nat, first: Net, second: Net, w: Waited)
    requires i < |ucs| && |tale.scripts| == i && Trying(o, ucs, tale).Some?
    requires tale.body == [] && tale.partings == [] && tale.rest == [] && |tale.turns| * L.Pause < tale.timeout
    ensures var (after, reply) := Publish(Trying(o, ucs, tale).value, ucs[i], Weather(first, tale.between, second));
      var p := if reply == Done then Acquiring(i + 1, false) else PhaseWaited(i, w);
      Tells(o, ucs, AfterTurn(tale, TurnOf(tale, first, second, w), p != Acquiring(i, false)), p, after)
  {
    var turn := TurnOf(tale, first, second, w);
    var (m, _) := L.Acquired(o, ucs, tale.timeout, tale.scripts);
    RetrySnoc(PerformAll(m, tale.gap), ucs[i], tale.timeout, tale.turns, turn);
    OneTurn(Trying(o, ucs, tale).value, ucs[i], tale, first, second, w);
    var scripts := tale.scripts + [L.Script(tale.gap, tale.turns + [turn])];
    assert scripts[..i] == tale.scripts;
    var after := L.Acquired(o, ucs, tale.timeout, scripts).0;
    assert PerformAll(after, []) == after;
  }

  /** The tale goes on by one turn at most. */
  predicate Longer(tale: Tale, t: Tale) {
    t.timeout == tale.timeout && |t.turns| <= |tale.turns| + 1
  }

  /** The first of two requests. */
  lemma FirstTells(o: Store, ucs: seq<Use>, tale: Tale, i: nat, store: Store, net: Net)
    requires i < |ucs| && Tells(o, ucs, tale, Acquiring(i, false), store) && ucs[i].MayExist()
    requires Send(store, Create(ucs[i], None), net).1 == NodeExist
    ensures var t := tale.(first := net, between := []);
      && Tells(o, ucs, t, Acquiring(i, true), Send(store, Create(ucs[i], None), net).0)
      && Flat(t) == Flat(tale)
  {
    var after := Send(store, Create(ucs[i], None), net).0;
    assert PerformAll(after, []) == after;
  }

  /** One request of a publish. */
  lemma CallTells(cfg: Config, o: Store, ucs: seq<Use>, tale: Tale, i: nat, again: bool, store: Store,
                  net: Net, w: Waited)
    returns (t: Tale)
    requires i < |ucs| && Tells(o, ucs, tale, Acquiring(i, again), store) && Sober(cfg, tale)
    requires (w.Slip? ==> !cfg.rules.clocksRun) && |tale.turns| * L.Pause < tale.timeout
    ensures var (after, reply) := Send(store, Publishing(ucs[i], again), net);
      Tells(o, ucs, t, PhaseReplied(ucs[i], i, reply, w), after)
    ensures Flat(t) == Flat(tale) && Sober(cfg, t) && Longer(tale, t)
  {
    var p := PhaseReplied(ucs[i], i, Send(store, Publishing(ucs[i], again), net).1, w);
    if !again && p == Acquiring(i, true) {
      t := tale.(first := net, between := []);
      FirstTells(o, ucs, tale, i, store, net);
    } else {
      var first, second := if again then tale.first else net, if again then net else Delivered;
      t := AfterTurn(tale, TurnOf(tale, first, second, w), p != Acquiring(i, false));
      LastTells(o, ucs, tale, i, again, store, net, w);
      TurnFlat(tale, first, second, w, p != Acquiring(i, false));
      TurnSober(cfg, tale, first, second, w, p != Acquiring(i, false));
    }
  }

  /** The only request, or the second of two. */
  lemma LastTells(o: Store, ucs: seq<Use>, tale: Tale, i: nat, again: bool, store: Store, net: Net, w: Waited)
    requires i < |ucs| && Tells(o, ucs, tale, Acquiring(i, again), store) && |tale.turns| * L.Pause < tale.timeout
    requires again || PhaseReplied(ucs[i], i, Send(store, Create(ucs[i], None), net).1, w) != Acquiring(i, true)
    ensures var (after, reply) := Send(store, Publishing(ucs[i], again), net);
      var p := PhaseReplied(ucs[i], i, reply, w);
      var turn := TurnOf(tale, if again then tale.first else net, if again then net else Delivered, w);
      p != Acquiring(i, true) && Tells(o, ucs, AfterTurn(tale, turn, p != Acquiring(i, false)), p, after)
  {
    TurnTells(o, ucs, tale, i, if again then tale.first else net, if again then net else Delivered, w);
  }

  lemma ReleaseTells(o: Store, ucs: seq<Use>, tale: Tale, k: nat, store: Store, net: Net)
    requires k < |ucs| && Tells(o, ucs, tale, Releasing(k), store)
    ensures var t := tale.(partings := tale.partings + [L.Parting(tale.rest, net)], rest := []);
      && Tells(o, ucs, t, Releasing(k + 1), Send(store, CompareDelete(ucs[k]), net).0)
      && Flat(t) == Flat(tale)
  {
    var partings := tale.partings + [L.Parting(tale.rest, net)];
    assert partings[..k] == tale.partings;
    var m := PerformAll(L.Acquired(o, ucs, tale.timeout, tale.scripts).0, tale.body);
    assert PerformAll(L.Released(m, ucs, partings), []) == L.Released(m, ucs, partings);
  }

  // ---- The tale of a run -----------------------------------------------------------------------------

  lemma OtherTells(cfg: Config, o: Store, s: State, step: Step, j: nat, tale: Tale) returns (t: Tale)
    requires j in cfg.jobs && j in s.jobs && Next(cfg, s, step).Some? && !JobStep(step, j)
    requires Tells(o, cfg.jobs[j], tale, s.jobs[j], s.store) && Sober(cfg, tale)
    ensures var after := Next(cfg, s, step).value;
      j in after.jobs && Tells(o, cfg.jobs[j], t, after.jobs[j], after.store)
    ensures Sober(cfg, t) && Longer(tale, t) && Flat(t) == Flat(tale) + Served(cfg, s, step)
  {
    var ucs, p, calls := cfg.jobs[j], s.jobs[j], Served(cfg, s, step);
    OtherJobsStay(cfg, s, step, j);
    OthersServed(cfg, s, step);
    ExtendTells(o, ucs, tale, p, s.store, calls);
    ExtendFlat(o, ucs, tale, p, s.store, calls);
    ExtendSober(cfg, tale, p, |ucs|, calls);
    t := Extend(tale, p, |ucs|, calls);
  }

  lemma OwnTells(cfg: Config, o: Store, s: State, step: Step, j: nat, tale: Tale) returns (t: Tale)
    requires j in cfg.jobs && j in s.jobs && Next(cfg, s, step).Some? && JobStep(step, j)
    requires Tells(o, cfg.jobs[j], tale, s.jobs[j], s.store) && Sober(cfg, tale)
    requires |tale.turns| * L.Pause < tale.timeout
    ensures var after := Next(cfg, s, step).value;
      j in after.jobs && Tells(o, cfg.jobs[j], t, after.jobs[j], after.store)
    ensures Sober(cfg, t) && Longer(tale, t) && Flat(t) == Flat(tale)
  {
    var ucs, p := cfg.jobs[j], s.jobs[j];
    if step.JobCall? {
      assert At(s, s.store, j, p) == s;
      CallNext(cfg, s, s.store, j, p.i, p.again, step.net, step.waited);
      t := CallTells(cfg, o, ucs, tale, p.i, p.again, s.store, step.net, step.waited);
    } else if step.JobRelease? {
      ReleaseTells(o, ucs, tale, p.i, s.store, step.net);
      t := tale.(partings := tale.partings + [L.Parting(tale.rest, step.net)], rest := []);
    } else {
      t := tale;
      assert PerformAll(s.store, []) == s.store;
    }
  }

  /** Whatever a job does in a run of the cluster, from its start on, is what the retry loops and
      removals of ExecuteWithMultiUseLock do, with any timeout that is long enough for the run, and the
      other clients' requests in the tale are exactly those served in the run, in order. */
  lemma {:induction false} RunTells(cfg: Config, o: State, j: nat, timeout: nat, steps: seq<Step>) returns (tale: Tale)
    requires j in cfg.jobs && j in o.jobs && o.jobs[j] == Acquiring(0, false)
    requires RunFrom(cfg, o, steps).Some? && |steps| * L.Pause < timeout
    ensures var s := RunFrom(cfg, o, steps).value;
      j in s.jobs && Tells(o.store, cfg.jobs[j], tale, s.jobs[j], s.store)
    ensures Sober(cfg, tale) && Flat(tale) == OthersCalls(cfg, o, j, steps)
    ensures tale.timeout == timeout && |tale.turns| <= |steps|
    decreases |steps|
  {
    if steps == [] {
      tale := Nothing(timeout);
      assert PerformAll(o.store, []) == o.store;
    } else {
      var front, last := steps[..|steps| - 1], steps[|steps| - 1];
      tale := RunTells(cfg, o, j, timeout, front);
      var s := RunFrom(cfg, o, front).value;
      if JobStep(last, j) {
        tale := OwnTells(cfg, o.store, s, last, j, tale);
        GrowLast(OthersCalls(cfg, o, j, front), [], []);
      } else {
        tale := OtherTells(cfg, o.store, s, last, j, tale);
      }
    }
  }

  /** A job that has finished has been through Execute, with the other clients' requests of the run in
      between; one that is gone with an error has been refused as Acquired says; and if the rules say
      that no clock is set back, the clock has run all the while. */
  lemma RunIsSection(cfg: Config, o: State, j: nat, timeout: nat, steps: seq<Step>) returns (tale: Tale)
    requires j in cfg.jobs && j in o.jobs && o.jobs[j] == Acquiring(0, false)
    requires RunFrom(cfg, o, steps).Some? && |steps| * L.Pause < timeout
    requires var s := RunFrom(cfg, o, steps).value;
      j in s.jobs && (s.jobs[j] == Releasing(|cfg.jobs[j]|) || s.jobs[j].Failed?)
    ensures var s := RunFrom(cfg, o, steps).value;
      if s.jobs[j].Failed? then
        && |tale.scripts| <= |cfg.jobs[j]|
        && var (store, refused) := L.Acquired(o.store, cfg.jobs[j], timeout, tale.scripts);
           refused == Some(L.Refused(s.jobs[j].i, L.TimedOut)) && s.store == PerformAll(store, tale.rest)
      else
        && |tale.scripts| == |tale.partings| == |cfg.jobs[j]|
        && var (store, r) := L.Execute(o.store, cfg.jobs[j], timeout, tale.scripts, tale.body, true, tale.partings);
           r == L.Ran(true) && s.store == PerformAll(store, tale.rest)
    ensures Flat(tale) == OthersCalls(cfg, o, j, steps)
    ensures cfg.rules.clocksRun ==> forall x <- tale.scripts :: L.ClockRuns(x.turns, 0)
  {
    tale := RunTells(cfg, o, j, timeout, steps);
  }
}
