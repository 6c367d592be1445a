/** The two snapshot locks of one pass of volsupervisor/loop.go in the cluster. createSnapshot ends by
    telling the refresher of its lock to stop, and does not wait until it has; pruneSnapshots then
    publishes a use of the same key with other content, once. */
module SnapshotLocks {
  import opened Wrappers
  import opened UseLocks
  import opened Cluster
  import opened ClusterSafety

  function Making(volume: string): Use { UseSnapshot(volume, "Snapshot") }
  function Pruning(volume: string): Use { UseSnapshot(volume, "SnapshotPrune") }

  function KeyUsed(c: Call): Key {
    match c
    case Create(u, _) => KeyOf(u)
    case Swap(u, _) => KeyOf(u)
    case CompareDelete(u) => KeyOf(u)
    case ForceDelete(k) => k
    case Expire(k) => k
  }

  /** The step is the refresher's own, or does nothing to the volume's snapshot key. */
  predicate Apart(cfg: Config, s: State, step: Step, r: nat, volume: string) {
    match step
    case Refresh(x, _, _) => x == r || Elsewhere(cfg, s, step, volume)
    case RefreshStop(x, _) => x == r || Elsewhere(cfg, s, step, volume)
    case _ => Elsewhere(cfg, s, step, volume)
  }

  predicate Elsewhere(cfg: Config, s: State, step: Step, volume: string) {
    var sent := RequestOf(cfg, s, step);
    sent.Some? ==> KeyUsed(sent.value.call) != KeyOf(Making(volume))
  }

  /** Nobody but the refresher r has to do with the volume's snapshot key during the run. */
  ghost predicate Alone(cfg: Config, o: State, steps: seq<Step>, r: nat, volume: string)
    requires RunFrom(cfg, o, steps).Some?
    decreases |steps|
  {
    steps == []
    || (var front := steps[..|steps| - 1];
        Alone(cfg, o, front, r, volume)
        && Apart(cfg, RunFrom(cfg, o, front).value, steps[|steps| - 1], r, volume))
  }

  /** The refresher's removal of its lock has been served. */
  predicate Removed(steps: seq<Step>, r: nat) {
    exists x <- steps :: Removes(x, r)
  }

  predicate Removes(x: Step, r: nat) {
    x.RefreshStop? && x.r == r && x.net != RequestLost
  }

  /** The refresher and the key, before and after the removal. */
  predicate Fits(s: State, r: nat, volume: string, removed: bool) {
    && r in s.refs && s.refs[r].use == Making(volume)
    && if removed then s.refs[r].phase == Gone && KeyOf(Making(volume)) !in s.store
       else s.refs[r].phase != Creating && Holds(s.store, Making(volume))
  }

  lemma FitsNext(cfg: Config, s: State, step: Step, r: nat, volume: string, removed: bool)
    requires Fits(s, r, volume, removed) && Apart(cfg, s, step, r, volume) && Next(cfg, s, step).Some?
    ensures Fits(Next(cfg, s, step).value, r, volume, removed || Removes(step, r))
  {
    StoreNext(cfg, s, step);
    RefStays(cfg, s, step, r);
    var sent := RequestOf(cfg, s, step);
    if sent.Some? && KeyUsed(sent.value.call) != KeyOf(Making(volume)) {
      ElsewhereStays(s.store, sent.value.call, sent.value.net, KeyOf(Making(volume)));
    }
  }

  lemma ElsewhereStays(s: Store, c: Call, net: Net, k: Key)
    requires KeyUsed(c) != k
    ensures var t := Send(s, c, net).0; (k in t <==> k in s) && (k in s ==> t[k] == s[k])
  {
  }

  /** A refresher's phase changes by its own steps only. */
  lemma RefStays(cfg: Config, s: State, step: Step, r: nat)
    requires r in s.refs && Next(cfg, s, step).Some?
    ensures var t := Next(cfg, s, step).value;
      && r in t.refs && t.refs[r].use == s.refs[r].use
      && (!(step.Refresh? && step.r == r) && !(step.RefreshStop? && step.r == r) ==>
            t.refs[r].phase == s.refs[r].phase)
  {
  }

  lemma {:induction false} FitsRun(cfg: Config, o: State, steps: seq<Step>, r: nat, volume: string)
    requires RunFrom(cfg, o, steps).Some? && Fits(o, r, volume, false) && Alone(cfg, o, steps, r, volume)
    ensures Fits(RunFrom(cfg, o, steps).value, r, volume, Removed(steps, r))
    decreases |steps|
  {
    if steps != [] {
      var front, last := steps[..|steps| - 1], steps[|steps| - 1];
      FitsRun(cfg, o, front, r, volume);
      FitsNext(cfg, RunFrom(cfg, o, front).value, last, r, volume, Removed(front, r));
      assert steps == front + [last];
    }
  }

  /** The state after createSnapshot's publish on a free key, whose refresher is r. */
  function Made(s: State, r: nat, volume: string): State {
    var u := Making(volume);
    s.(store := s.store[KeyOf(u) := Rec(u, None)], refs := s.refs[r := Refresher(u, Waiting, false)])
  }

  lemma MakeNext(cfg: Config, s: State, r: nat, volume: string)
    requires KeyOf(Making(volume)) !in s.store && r !in s.refs
    ensures Next(cfg, s, KeeperAcquire(Making(volume), Delivered, r)) == Some(Made(s, r, volume))
    ensures Fits(Made(s, r, volume), r, volume, false)
  {
  }

  /** A pass has the lock for its snapshot, and nobody else has to do with the key: whenever the publish
      of its prune comes, it gets its lock exactly when the refresher has removed the first one by then;
      otherwise it leaves the cluster as it is. */
  lemma PruneGetsLockExactly(cfg: Config, s: State, steps: seq<Step>, r: nat, q: nat, volume: string)
    requires KeyOf(Making(volume)) !in s.store && r !in s.refs
    requires RunFrom(cfg, Made(s, r, volume), steps).Some? && Alone(cfg, Made(s, r, volume), steps, r, volume)
    requires q !in RunFrom(cfg, Made(s, r, volume), steps).value.refs
    ensures var t := RunFrom(cfg, Made(s, r, volume), steps).value;
      var after := Next(cfg, t, KeeperAcquire(Pruning(volume), Delivered, q));
      && after.Some?
      && (q in after.value.refs <==> Removed(steps, r))
      && (q !in after.value.refs ==> after.value == t)
  {
    MakeNext(cfg, s, r, volume);
    FitsRun(cfg, Made(s, r, volume), steps, r, volume);
  }

  /** For example the publish that comes straight after the stop signal: from any state with a free key,
      a pass refuses its own prune. */
  lemma RefusesItself(cfg: Config, s: State, r: nat, q: nat, volume: string) returns (steps: seq<Step>)
    requires KeyOf(Making(volume)) !in s.store && r !in s.refs && q !in s.refs && q != r
    ensures steps == [KeeperStop(r)] && RunFrom(cfg, Made(s, r, volume), steps).Some?
    ensures var t := RunFrom(cfg, Made(s, r, volume), steps).value;
      Next(cfg, t, KeeperAcquire(Pruning(volume), Delivered, q)) == Some(t)
  {
    var m := Made(s, r, volume);
    steps := [KeeperStop(r)];
    assert steps[..0] == [] && RunFrom(cfg, m, []) == Some(m);
    var t := Next(cfg, m, KeeperStop(r)).value;
    assert RunFrom(cfg, m, steps) == Some(t);
    assert Alone(cfg, m, [], r, volume) && Alone(cfg, m, steps, r, volume);
    PruneGetsLockExactly(cfg, s, steps, r, q, volume);
    assert !Removed(steps, r);
  }
}
