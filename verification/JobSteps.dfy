/** The steps of a job of the cluster model in the words of lock/lock.go, and the requests that other
    clients' steps make in between. */
module JobSteps {
  import opened Wrappers
  import opened UseLocks
  import opened Cluster
  import opened ClusterSafety
  import L = LockDriver

  /** Where lockWait's verdict leads the job. */
  function Verdict(w: L.Wait): Waited {
    match w
    case Again => TryAgain
    case Fail => GiveUp
    case Neither => Slip
  }

  function PhaseAfter(i: nat, out: L.Outcome): JobPhase {
    match out
    case Succeeded => Acquiring(i + 1, false)
    case SilentFailure => Acquiring(i + 1, false)
    case TimedOut => JobPhase.Failed(i)
    case Pending => Acquiring(i, false)
  }

  /** The state b with the store and one job's phase replaced. */
  function At(b: State, store: Store, j: nat, p: JobPhase): State {
    b.(store := store, jobs := b.jobs[j := p])
  }

  /** Where a failed publish leaves the job. */
  function PhaseWaited(i: nat, w: Waited): JobPhase {
    match w
    case TryAgain => Acquiring(i, false)
    case GiveUp => JobPhase.Failed(i)
    case Slip => Acquiring(i + 1, false)
  }

  function PhaseReplied(u: Use, i: nat, reply: Reply, w: Waited): JobPhase {
    if reply == Done then Acquiring(i + 1, false)
    else if reply == NodeExist && u.MayExist() then Acquiring(i, true)
    else PhaseWaited(i, w)
  }

  function Publishing(u: Use, again: bool): Call {
    if again then Swap(u, None) else Create(u, None)
  }

  lemma CallNext(cfg: Config, b: State, store: Store, j: nat, i: nat, again: bool, net: Net, w: Waited)
    requires j in cfg.jobs && i < |cfg.jobs[j]| && (w.Slip? ==> !cfg.rules.clocksRun)
    ensures var u := cfg.jobs[j][i];
      var (after, reply) := Send(store, Publishing(u, again), net);
      JobCallNext(cfg, At(b, store, j, Acquiring(i, again)), j, net, w)
      == Some(At(b, after, j, PhaseReplied(u, i, reply, w)))
  {
    var u := cfg.jobs[j][i];
    var (after, reply) := Send(store, Publishing(u, again), net);
    var p := PhaseReplied(u, i, reply, w);
    assert b.jobs[j := Acquiring(i, again)][j := p] == b.jobs[j := p];
  }

  // ---- Others' requests --------------------------------------------------------------------------

  function FlatTurns(turns: seq<L.Turn>): seq<Call> {
    if turns == [] then []
    else
      var last := turns[|turns| - 1];
      FlatTurns(turns[..|turns| - 1]) + last.weather.between + last.meanwhile
  }

  function FlatScripts(scripts: seq<L.Script>): seq<Call> {
    if scripts == [] then []
    else
      var last := scripts[|scripts| - 1];
      FlatScripts(scripts[..|scripts| - 1]) + last.gap + FlatTurns(last.turns)
  }

  function FlatPartings(partings: seq<L.Parting>): seq<Call> {
    if partings == [] then [] else FlatPartings(partings[..|partings| - 1]) + partings[|partings| - 1].gap
  }

  /** The requests of a step that are served. */
  function Served(cfg: Config, s: State, step: Step): seq<Call> {
    var r := RequestOf(cfg, s, step);
    if r.None? || r.value.net.RequestLost? then [] else [r.value.call]
  }

  lemma OthersServed(cfg: Config, s: State, step: Step)
    requires Next(cfg, s, step).Some?
    ensures Next(cfg, s, step).value.store == PerformAll(s.store, Served(cfg, s, step))
  {
    StoreNext(cfg, s, step);
    var calls := Served(cfg, s, step);
    if calls != [] {
      assert calls[1..] == [];
    }
  }

  /** The served requests of all steps of a run that are not the job's, in order. */
  ghost function OthersCalls(cfg: Config, o: State, j: nat, steps: seq<Step>): seq<Call>
    requires RunFrom(cfg, o, steps).Some?
    decreases |steps|
  {
    if steps == [] then [] else
    var front, last := steps[..|steps| - 1], steps[|steps| - 1];
    OthersCalls(cfg, o, j, front)
    + if JobStep(last, j) then [] else Served(cfg, RunFrom(cfg, o, front).value, last)
  }

  // Lemmas about concatenations

  /** A grown last piece of a concatenation, nothing behind it, grows the whole. */
  lemma GrowLast(a: seq<Call>, x: seq<Call>, calls: seq<Call>)
    ensures a + (x + calls) == a + x + calls
    ensures a + x + [] == a + x
  {
  }

  lemma Regroup(a: seq<Call>, b: seq<Call>, c: seq<Call>)
    ensures a + (b + c) == a + b + c
  {
  }

  lemma FlatSnoc(turns: seq<L.Turn>, turn: L.Turn)
    ensures FlatTurns(turns + [turn]) == FlatTurns(turns) + turn.weather.between + turn.meanwhile
  {
    assert (turns + [turn])[..|turns + [turn]| - 1] == turns;
  }

  lemma ScriptSnoc(scripts: seq<L.Script>, gap: seq<Call>, turns: seq<L.Turn>)
    ensures FlatScripts(scripts + [L.Script(gap, turns)]) == FlatScripts(scripts) + gap + FlatTurns(turns)
  {
    var all := scripts + [L.Script(gap, turns)];
    assert all[..|all| - 1] == scripts;
  }

  lemma {:induction false} PerformAppend(s: Store, a: seq<Call>, b: seq<Call>)
    ensures PerformAll(s, a + b) == PerformAll(PerformAll(s, a), b)
    decreases |a|
  {
    if a == [] {
      assert a + b == b;
    } else {
      PerformAppend(Perform(s, a[0]).0, a[1..], b);
      assert (a + b)[1..] == a[1..] + b;
    }
  }
}
