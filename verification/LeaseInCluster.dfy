/** Why the cluster may take for granted that leases hold: what its other clients do to a mount lock
    is what Lease lets come in between. */
module LeaseInCluster {
  import opened Wrappers
  import opened UseLocks
  import opened Cluster
  import opened ClusterSafety
  import Lease
  import Timers

  /** Apart from the lock's own refreshers, its lapse, and clearMount, which runs only after a
      refresher has failed to start or has been stopped. */
  predicate FromOutside(s: State, step: Step, hv: HV) {
    match step
    case HostCall(x, _, _, _) => x == hv ==> hv in s.hosts && s.hosts[hv].pc != MClear
    case Refresh(r, _, _) => r in s.refs && s.refs[r].use != MountUse(hv)
    case RefreshStop(r, _) => r in s.refs && s.refs[r].use != MountUse(hv)
    case Lapse(k) => false
    case Force(k) => k != KeyOf(MountUse(hv))
    case _ => true
  }

  lemma OutsideIsAllowed(cfg: Config, s: State, step: Step, hv: HV)
    requires WellFormed(cfg) && JobsFit(cfg, s) && FromOutside(s, step, hv)
    requires RequestOf(cfg, s, step).Some?
    ensures Lease.Allowed(RequestOf(cfg, s, step).value.call, MountUse(hv))
  {
    var u := MountUse(hv);
    if step.JobCall? || step.JobRelease? {
      assert cfg.jobs[step.j][s.jobs[step.j].i] in cfg.jobs[step.j];
    } else if step.HostCall? && step.hv != hv {
      assert MountUse(step.hv) != u;
    }
  }

  /** The refresher's steps are the publish with a TTL of its acquire: one, or when the swap found no key
      two, with whatever others do to the store in between. */
  lemma RefresherPublishes(cfg: Config, s: State, r: nat, d: Option<int>, w: Weather)
    requires r in s.refs && s.refs[r].phase == Waiting
    ensures Next(cfg, s, Refresh(r, d, w.first)).Some?
    ensures var t := Next(cfg, s, Refresh(r, d, w.first)).value;
      var after := PublishTTL(s.store, s.refs[r].use, d, w).0;
      if t.refs[r].phase == Waiting then t.store == after
      else
        var m := t.(store := PerformAll(t.store, w.between));
        Next(cfg, m, Refresh(r, d, w.second))
        == Some(t.(store := after, refs := t.refs[r := t.refs[r].(phase := Waiting)]))
  {
  }

  /** Every such step of the rest of the cluster keeps a lease safe, if its refreshing calls neither
      give up nor take longer than a quarter of its TTL. */
  lemma OutsideKeepsLease(cfg: Config, s: State, step: Step, hv: HV, p: Lease.Params, l: Lease.Clocked)
    requires WellFormed(cfg) && JobsFit(cfg, s) && FromOutside(s, step, hv)
    requires RequestOf(cfg, s, step).Some? && p.use == MountUse(hv) && l.store == s.store
    requires Timers.WholeSeconds(p.ttl) && Lease.Survivable(p) && Lease.Safe(p, l)
    requires Next(cfg, s, step).Some?
    ensures Lease.Safe(p, l.(store := Next(cfg, s, step).value.store))
  {
    var r := RequestOf(cfg, s, step).value;
    OutsideIsAllowed(cfg, s, step, hv);
    StoreNext(cfg, s, step);
    Lease.SafeNext(p, l, Lease.Other(r.call, r.net));
  }
}
