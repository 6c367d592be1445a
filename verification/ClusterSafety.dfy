/** What every reachable state of the use-lock protocol keeps: exclusive job bodies,
    exclusive mounts, and the two against each other. */
module ClusterSafety {
  import opened Wrappers
  import opened UseLocks
  import opened Cluster

  // ---- Shape ----------------------------------------------------------------------------

  predicate PhaseFits(p: JobPhase, locks: seq<Use>) {
    match p
    case Acquiring(i, again) => i <= |locks| && (again ==> i < |locks| && locks[i].MayExist())
    case Body => true
    case Releasing(i) => i <= |locks|
    case Failed(i) => i < |locks|
  }

  /** The locks the job has acquired and not yet released. */
  function Held(locks: seq<Use>, p: JobPhase): seq<Use>
    requires PhaseFits(p, locks)
  {
    match p
    case Acquiring(i, _) => locks[..i]
    case Body => locks
    case Releasing(i) => locks[i..]
    case Failed(i) => locks[..i]
  }

  predicate JobsFit(cfg: Config, s: State) {
    && s.jobs.Keys == cfg.jobs.Keys
    && forall j <- cfg.jobs :: PhaseFits(s.jobs[j], cfg.jobs[j])
  }

  predicate RefUse(u: Use) {
    KeeperUse(u) || (u.UseMount? && u.reason == Mounting)
  }

  predicate RefsFit(s: State) {
    forall r <- s.refs :: RefUse(s.refs[r].use)
  }

  predicate JobStep(step: Step, j: nat) {
    match step
    case JobCall(k, _, _) => k == j
    case JobEnter(k) => k == j
    case JobLeave(k) => k == j
    case JobRelease(k, _) => k == j
    case _ => false
  }

  lemma OtherJobsStay(cfg: Config, s: State, step: Step, j: nat)
    requires j in s.jobs && !JobStep(step, j) && Next(cfg, s, step).Some?
    ensures var t := Next(cfg, s, step).value; j in t.jobs && t.jobs[j] == s.jobs[j]
  {
  }

  lemma JobsFitNext(cfg: Config, s: State, step: Step)
    requires JobsFit(cfg, s) && Next(cfg, s, step).Some?
    ensures JobsFit(cfg, Next(cfg, s, step).value)
  {
    var t := Next(cfg, s, step).value;
    JobKeySet(cfg, s, step);
    forall j | j in cfg.jobs ensures PhaseFits(t.jobs[j], cfg.jobs[j]) {
      if !JobStep(step, j) {
        OtherJobsStay(cfg, s, step, j);
      } else if step.JobCall? {
        CallFits(cfg, s, j, step.net, step.waited);
      }
    }
  }

  lemma CallFits(cfg: Config, s: State, j: nat, net: Net, waited: Waited)
    requires JobsFit(cfg, s) && j in cfg.jobs && JobCallNext(cfg, s, j, net, waited).Some?
    ensures PhaseFits(JobCallNext(cfg, s, j, net, waited).value.jobs[j], cfg.jobs[j])
  {
  }

  lemma JobKeySet(cfg: Config, s: State, step: Step)
    requires Next(cfg, s, step).Some?
    ensures Next(cfg, s, step).value.jobs.Keys == s.jobs.Keys
  {
  }

  lemma RefsFitNext(cfg: Config, s: State, step: Step)
    requires RefsFit(s) && Next(cfg, s, step).Some?
    ensures RefsFit(Next(cfg, s, step).value)
  {
  }

  // ---- The request of a step --------------------------------------------------------------

  datatype Sent = Sent(call: Call, net: Net)

  /** The one etcd request that a step makes, if it makes any. */
  function RequestOf(cfg: Config, s: State, step: Step): Option<Sent> {
    match step
    case JobCall(j, net, _) =>
      if j in cfg.jobs && j in s.jobs && s.jobs[j].Acquiring? && s.jobs[j].i < |cfg.jobs[j]| then
        var u := cfg.jobs[j][s.jobs[j].i];
        Some(Sent(if s.jobs[j].again then Swap(u, None) else Create(u, None), net))
      else None
    case JobRelease(j, net) =>
      if j in cfg.jobs && j in s.jobs && s.jobs[j].Releasing? && s.jobs[j].i < |cfg.jobs[j]| then
        Some(Sent(CompareDelete(cfg.jobs[j][s.jobs[j].i]), net))
      else None
    case HostCall(hv, net, _, _) =>
      if hv in s.hosts && HostRequest(hv, s.hosts[hv].pc).Some? then
        Some(Sent(HostRequest(hv, s.hosts[hv].pc).value, net))
      else None
    case KeeperAcquire(u, net, _) => if KeeperUse(u) then Some(Sent(Create(u, None), net)) else None
    case Refresh(r, d, net) =>
      if r !in s.refs || s.refs[r].phase == Gone then None
      else if s.refs[r].phase == Waiting then Some(Sent(Swap(s.refs[r].use, d), net))
      else Some(Sent(Create(s.refs[r].use, d), net))
    case RefreshStop(r, net) =>
      if r in s.refs then Some(Sent(CompareDelete(s.refs[r].use), net)) else None
    case ProbePublish(v, swap, net) =>
      Some(Sent(if swap then Swap(ProbeUse(v), None) else Create(ProbeUse(v), None), net))
    case ProbeRemove(v, net) => Some(Sent(CompareDelete(ProbeUse(v)), net))
    case Force(k) => Some(Sent(ForceDelete(k), Delivered))
    case Lapse(k) => Some(Sent(UseLocks.Expire(k), Delivered))
    case _ => None
  }

  function StoreAfter(s: Store, r: Option<Sent>): Store {
    if r.None? then s else Send(s, r.value.call, r.value.net).0
  }

  /** Nothing but its request changes the store in a step. */
  lemma StoreNext(cfg: Config, s: State, step: Step)
    requires Next(cfg, s, step).Some?
    ensures Next(cfg, s, step).value.store == StoreAfter(s.store, RequestOf(cfg, s, step))
  {
  }

  // ---- Who can take a job's lock away ----------------------------------------------------

  /** The request can neither remove nor lease a permanent lock of u: it has other content, or
      publishes u for good, or is a lapse. */
  predicate Spares(c: Call, u: Use) {
    match c
    case Create(w, d) => w == u ==> d == None
    case Swap(w, d) => w == u ==> d == None
    case CompareDelete(w) => w != u
    case ForceDelete(k) => k != KeyOf(u)
    case Expire(_) => true
  }

  lemma SparedStays(s: Store, c: Call, net: Net, u: Use)
    requires HoldsForever(s, u) && Spares(c, u)
    ensures HoldsForever(Send(s, c, net).0, u)
  {
  }

  lemma RequestSpares(cfg: Config, s: State, step: Step, u: Use)
    requires JobsFit(cfg, s) && RefsFit(s) && JobUse(u) && RequestOf(cfg, s, step).Some?
    requires step.Force? ==> step.key != KeyOf(u)
    requires step.JobRelease? ==> cfg.jobs[step.j][s.jobs[step.j].i] != u
    ensures Spares(RequestOf(cfg, s, step).value.call, u)
  {
    if step.HostCall? {
      assert !JobUse(MountUse(step.hv));
    } else if step.Refresh? || step.RefreshStop? {
      assert RefUse(s.refs[step.r].use);
    }
  }

  /** A job's lock that is in place stays in place over every step except its own release by
      a job that lists the very same use: no host, refresher, probe or lapse can move it. */
  lemma OnlyReleaseTakesLock(cfg: Config, s: State, step: Step, u: Use)
    requires JobsFit(cfg, s) && RefsFit(s) && Next(cfg, s, step).Some?
    requires JobUse(u) && !MayForce(cfg, KeyOf(u)) && HoldsForever(s.store, u)
    requires step.JobRelease? && s.jobs[step.j].Releasing? ==>
               cfg.jobs[step.j][s.jobs[step.j].i] != u
    ensures HoldsForever(Next(cfg, s, step).value.store, u)
  {
    StoreNext(cfg, s, step);
    var r := RequestOf(cfg, s, step);
    if r.Some? {
      RequestSpares(cfg, s, step, u);
      SparedStays(s.store, r.value.call, r.value.net, u);
    }
  }

  // ---- Strict locks of jobs --------------------------------------------------------------

  predicate Owns(cfg: Config, s: State, j: nat, u: Use)
    requires JobsFit(cfg, s)
  {
    j in cfg.jobs && u in Held(cfg.jobs[j], s.jobs[j])
  }

  ghost predicate StrictInv(cfg: Config, s: State)
    requires JobsFit(cfg, s)
  {
    && (forall j, u :: Owns(cfg, s, j, u) && !u.MayExist() ==> HoldsForever(s.store, u))
    && (forall j, k, u :: j != k && Owns(cfg, s, j, u) && Owns(cfg, s, k, u) ==> u.MayExist())
  }

  /** The job acquires u in this step. */
  predicate Acquires(cfg: Config, s: State, step: Step, j: nat, u: Use) {
    && step.JobCall? && step.j == j && j in cfg.jobs && j in s.jobs && s.jobs[j].Acquiring?
    && s.jobs[j].i < |cfg.jobs[j]| && u == cfg.jobs[j][s.jobs[j].i]
  }

  /** The job releases u in this step. */
  predicate Releases(cfg: Config, s: State, step: Step, j: nat, u: Use) {
    && step.JobRelease? && step.j == j && j in cfg.jobs && j in s.jobs && s.jobs[j].Releasing?
    && s.jobs[j].i < |cfg.jobs[j]| && u == cfg.jobs[j][s.jobs[j].i]
  }

  lemma CallOwns(cfg: Config, s: State, j: nat, net: Net, waited: Waited, u: Use)
    requires cfg.rules.clocksRun
    requires JobsFit(cfg, s) && j in cfg.jobs && JobCallNext(cfg, s, j, net, waited).Some?
    ensures var t := JobCallNext(cfg, s, j, net, waited).value;
      && PhaseFits(t.jobs[j], cfg.jobs[j])
      && (u in Held(cfg.jobs[j], t.jobs[j]) && u !in Held(cfg.jobs[j], s.jobs[j]) ==>
            && u == cfg.jobs[j][s.jobs[j].i] && HoldsForever(t.store, u)
            && (!u.MayExist() ==> KeyOf(u) !in s.store))
  {
    var locks, i := cfg.jobs[j], s.jobs[j].i;
    assert locks[..i + 1] == locks[..i] + [locks[i]];
  }

  lemma ReleaseOwns(cfg: Config, s: State, j: nat, net: Net, u: Use)
    requires JobsFit(cfg, s) && j in cfg.jobs && DistinctKeys(cfg.jobs[j])
    requires JobReleaseNext(cfg, s, j, net).Some?
    ensures var t := JobReleaseNext(cfg, s, j, net).value;
      && PhaseFits(t.jobs[j], cfg.jobs[j])
      && (u in Held(cfg.jobs[j], t.jobs[j]) ==>
            u in Held(cfg.jobs[j], s.jobs[j]) && u != cfg.jobs[j][s.jobs[j].i])
      && cfg.jobs[j][s.jobs[j].i] in Held(cfg.jobs[j], s.jobs[j])
  {
    var locks, i := cfg.jobs[j], s.jobs[j].i;
    assert locks[i..] == [locks[i]] + locks[i + 1..];
  }

  lemma EnterLeaveOwns(cfg: Config, s: State, step: Step, j: nat)
    requires JobsFit(cfg, s) && j in cfg.jobs && Next(cfg, s, step).Some?
    requires step == JobEnter(j) || step == JobLeave(j)
    ensures var t := Next(cfg, s, step).value;
      && j in t.jobs && PhaseFits(t.jobs[j], cfg.jobs[j])
      && Held(cfg.jobs[j], t.jobs[j]) == Held(cfg.jobs[j], s.jobs[j])
  {
    var locks := cfg.jobs[j];
    assert locks[0..] == locks && locks[..|locks|] == locks;
  }

  /** A job comes to own a lock only by a successful publish of it, after which the key holds
      it for good; a strict lock was free before. A job that releases a lock owned it, and
      owns it no more. */
  lemma OwnsNext(cfg: Config, s: State, step: Step, j: nat, u: Use)
    requires WellFormed(cfg) && cfg.rules.clocksRun && JobsFit(cfg, s) && Next(cfg, s, step).Some?
    requires JobsFit(cfg, Next(cfg, s, step).value)
    ensures var t := Next(cfg, s, step).value;
      && (Owns(cfg, t, j, u) ==> JobUse(u) && !Releases(cfg, s, step, j, u))
      && (Owns(cfg, t, j, u) && !Owns(cfg, s, j, u) ==>
            && Acquires(cfg, s, step, j, u) && HoldsForever(t.store, u)
            && (!u.MayExist() ==> KeyOf(u) !in s.store))
      && (Releases(cfg, s, step, j, u) ==> Owns(cfg, s, j, u))
  {
    if j in cfg.jobs {
      if Owns(cfg, Next(cfg, s, step).value, j, u) {
        assert u in cfg.jobs[j];
      }
      if !JobStep(step, j) {
        OtherJobsStay(cfg, s, step, j);
      } else if step.JobCall? {
        CallOwns(cfg, s, j, step.net, step.waited, u);
      } else if step.JobRelease? {
        ReleaseOwns(cfg, s, j, step.net, u);
      } else {
        EnterLeaveOwns(cfg, s, step, j);
      }
    }
  }

  lemma StrictNext(cfg: Config, s: State, step: Step)
    requires WellFormed(cfg) && JobsFit(cfg, s) && RefsFit(s) && StrictInv(cfg, s)
    requires cfg.rules.snapshotsUnforced && cfg.rules.clocksRun
    requires Next(cfg, s, step).Some? && JobsFit(cfg, Next(cfg, s, step).value)
    ensures StrictInv(cfg, Next(cfg, s, step).value)
  {
    var t := Next(cfg, s, step).value;
    forall j, u | Owns(cfg, t, j, u) && !u.MayExist()
      ensures HoldsForever(t.store, u)
      ensures forall k :: k != j ==> !Owns(cfg, t, k, u)
    {
      OwnsNext(cfg, s, step, j, u);
      forall k | k != j && Owns(cfg, t, k, u) ensures false {
        OwnsNext(cfg, s, step, k, u);
      }
      if Owns(cfg, s, j, u) {
        StrictLockStays(cfg, s, step, j, u);
      }
    }
  }

  lemma StrictLockStays(cfg: Config, s: State, step: Step, j: nat, u: Use)
    requires WellFormed(cfg) && JobsFit(cfg, s) && RefsFit(s) && StrictInv(cfg, s)
    requires cfg.rules.snapshotsUnforced && cfg.rules.clocksRun
    requires Next(cfg, s, step).Some? && JobsFit(cfg, Next(cfg, s, step).value)
    requires Owns(cfg, s, j, u) && Owns(cfg, Next(cfg, s, step).value, j, u) && !u.MayExist()
    ensures HoldsForever(Next(cfg, s, step).value.store, u)
  {
    OwnsNext(cfg, s, step, j, u);
    if step.JobRelease? && s.jobs[step.j].Releasing? && cfg.jobs[step.j][s.jobs[step.j].i] == u {
      OwnsNext(cfg, s, step, step.j, u);
      assert false;
    }
    OnlyReleaseTakesLock(cfg, s, step, u);
  }

  // ---- Mount locks of jobs ----------------------------------------------------------------

  /** No other job ever lists the same content. */
  ghost predicate Unshared(cfg: Config, j: nat, u: Use) {
    forall k <- cfg.jobs :: k != j ==> u !in cfg.jobs[k]
  }

  ghost predicate UnsharedInv(cfg: Config, s: State)
    requires JobsFit(cfg, s)
  {
    forall j, u :: Owns(cfg, s, j, u) && Unshared(cfg, j, u) && !MayForce(cfg, KeyOf(u)) ==>
      HoldsForever(s.store, u)
  }

  lemma UnsharedNext(cfg: Config, s: State, step: Step)
    requires WellFormed(cfg) && JobsFit(cfg, s) && RefsFit(s) && UnsharedInv(cfg, s)
    requires cfg.rules.clocksRun
    requires Next(cfg, s, step).Some? && JobsFit(cfg, Next(cfg, s, step).value)
    ensures UnsharedInv(cfg, Next(cfg, s, step).value)
  {
    var t := Next(cfg, s, step).value;
    forall j, u | Owns(cfg, t, j, u) && Unshared(cfg, j, u) && !MayForce(cfg, KeyOf(u))
      ensures HoldsForever(t.store, u)
    {
      OwnsNext(cfg, s, step, j, u);
      if Owns(cfg, s, j, u) {
        if step.JobRelease? && s.jobs[step.j].Releasing? && cfg.jobs[step.j][s.jobs[step.j].i] == u {
          assert false;
        }
        OnlyReleaseTakesLock(cfg, s, step, u);
      }
    }
  }

  // ---- Hosts ------------------------------------------------------------------------------

  /** The host counts on its mount lock: it is between a successful publish and the driver's
      mount or its undoing, or has the volume mounted. */
  predicate Relies(h: HostVol) {
    h.mounted || h.pc in {MCount, MDriver, MRefresh, MRefreshSwap, MPath, MUndo}
  }

  predicate Entering(h: HostVol) {
    h.pc in {MPublish, MSwap}
  }

  /** The lock of hv is in place and, if it is a lease, a running refresher looks after it. */
  ghost predicate Secured(s: State, hv: HV) {
    var u := MountUse(hv);
    Holds(s.store, u) && (s.store[KeyOf(u)].deadline.Some? ==> exists r :: Live(s, u, r))
  }

  ghost predicate HostInv(cfg: Config, s: State, hv: HV)
    requires hv in s.hosts
  {
    var h, u := s.hosts[hv], MountUse(hv);
    && (h.chan.Some? ==> h.chan.value in s.refs && s.refs[h.chan.value].use == u)
    && (h.pc in {UFinish, MClear} ==> !h.mounted)
    && (Relies(h) || Entering(h) ==> NoneStopping(s, u))
    && (Relies(h) ==> Secured(s, hv))
  }

  predicate HostStep(step: Step, hv: HV) {
    match step
    case MountRequest(x) => x == hv
    case UnmountRequest(x) => x == hv
    case HostCall(x, _, _, _) => x == hv
    case HostLocal(x, _, _) => x == hv
    case _ => false
  }

  predicate AllRules(r: Rules) {
    r.settled && r.leasesHold && r.undoWorks && r.pathWorks && r.mountsUnforced
  }

  lemma OtherHostsStay(cfg: Config, s: State, step: Step, hv: HV)
    requires hv in s.hosts && !HostStep(step, hv) && Next(cfg, s, step).Some?
    ensures var t := Next(cfg, s, step).value; hv in t.hosts && t.hosts[hv] == s.hosts[hv]
  {
  }

  /** Over any step: refreshers stay and keep their use; one that is stopped now was stopped
      before, or this step stops it; one that runs keeps running unless this step stops it. */
  lemma RefreshersNext(cfg: Config, s: State, step: Step, r: nat)
    requires r in s.refs && Next(cfg, s, step).Some?
    ensures var t := Next(cfg, s, step).value;
      && r in t.refs && t.refs[r].use == s.refs[r].use
      && (s.refs[r].phase == Gone ==> t.refs[r].phase == Gone)
      && (t.refs[r].stopped != s.refs[r].stopped ==> t.refs[r].stopped && Stops(s, step, r))
      && (s.refs[r].phase != Gone && !s.refs[r].stopped ==> t.refs[r].phase != Gone)
  {
  }

  predicate Stops(s: State, step: Step, r: nat) {
    match step
    case KeeperStop(x) => x == r && r in s.refs && KeeperUse(s.refs[r].use)
    case HostLocal(x, _, _) => x in s.hosts && s.hosts[x].chan == Some(r)
    case _ => false
  }

  lemma NewRefreshersRun(cfg: Config, s: State, step: Step, r: nat)
    requires r !in s.refs && Next(cfg, s, step).Some?
    ensures var t := Next(cfg, s, step).value; r in t.refs ==> !t.refs[r].stopped
  {
  }

  /** A host's refreshers are stopped only by that host's own handler. */
  lemma OthersLeaveRefreshers(cfg: Config, s: State, step: Step, hv: HV)
    requires hv in s.hosts && !HostStep(step, hv) && Next(cfg, s, step).Some?
    requires forall x <- s.hosts :: HostInv(cfg, s, x)
    ensures var t, u := Next(cfg, s, step).value, MountUse(hv);
      && (forall r <- s.refs :: r in t.refs && t.refs[r].use == s.refs[r].use)
      && (NoneStopping(s, u) ==> NoneStopping(t, u))
      && (forall r :: Live(s, u, r) ==> Live(t, u, r))
  {
    var t, u := Next(cfg, s, step).value, MountUse(hv);
    if step.HostLocal? {
      assert MountUse(step.hv) != u;
    }
    forall r
      ensures r in s.refs ==> r in t.refs && t.refs[r].use == s.refs[r].use
      ensures !Stopping(s, u, r) ==> !Stopping(t, u, r)
      ensures Live(s, u, r) ==> Live(t, u, r)
    {
      if r in s.refs {
        RefreshersNext(cfg, s, step, r);
        if step.HostLocal? && Stops(s, step, r) {
          assert HostInv(cfg, s, step.hv);
        }
      } else {
        NewRefreshersRun(cfg, s, step, r);
      }
    }
  }

  /** The request has other content, or is forced on another key. */
  predicate Foreign(c: Call, u: Use) {
    match c
    case Create(w, _) => w != u
    case Swap(w, _) => w != u
    case CompareDelete(w) => w != u
    case ForceDelete(k) => k != KeyOf(u)
    case Expire(k) => k != KeyOf(u)
  }

  /** Somebody else's request cannot touch a lock that is held. */
  lemma OthersCannotTouch(s: Store, c: Call, net: Net, u: Use)
    requires Foreign(c, u) && Holds(s, u)
    ensures var t := Send(s, c, net).0; Holds(t, u) && t[KeyOf(u)] == s[KeyOf(u)]
  {
  }

  lemma RequestIsForeign(cfg: Config, s: State, step: Step, hv: HV)
    requires WellFormed(cfg) && JobsFit(cfg, s) && !HostStep(step, hv) && RequestOf(cfg, s, step).Some?
    requires !step.Refresh? && (step.RefreshStop? ==> s.refs[step.r].use != MountUse(hv))
    requires step.Force? || step.Lapse? ==> step.key != KeyOf(MountUse(hv))
    ensures Foreign(RequestOf(cfg, s, step).value.call, MountUse(hv))
  {
    if step.JobCall? || step.JobRelease? {
      assert cfg.jobs[step.j][s.jobs[step.j].i] in cfg.jobs[step.j];
    }
  }

  /** No other client's request, refreshes aside, changes the record. */
  lemma OthersLeaveRecord(cfg: Config, s: State, step: Step, hv: HV)
    requires WellFormed(cfg) && JobsFit(cfg, s) && cfg.rules.mountsUnforced
    requires !HostStep(step, hv) && Next(cfg, s, step).Some? && Holds(s.store, MountUse(hv))
    requires !step.Refresh? && (step.RefreshStop? ==> s.refs[step.r].use != MountUse(hv))
    requires step.Lapse? ==> step.key != KeyOf(MountUse(hv))
    ensures var t, k := Next(cfg, s, step).value, KeyOf(MountUse(hv));
      k in t.store && t.store[k] == s.store[k]
  {
    StoreNext(cfg, s, step);
    var r := RequestOf(cfg, s, step);
    if r.Some? {
      RequestIsForeign(cfg, s, step, hv);
      OthersCannotTouch(s.store, r.value.call, r.value.net, MountUse(hv));
    }
  }

  lemma OthersKeepMountLock(cfg: Config, s: State, step: Step, hv: HV)
    requires WellFormed(cfg) && JobsFit(cfg, s) && RefsFit(s) && hv in s.hosts
    requires AllRules(cfg.rules)
    requires !HostStep(step, hv) && Next(cfg, s, step).Some?
    requires forall x <- s.hosts :: HostInv(cfg, s, x)
    requires NoneStopping(s, MountUse(hv)) && Secured(s, hv)
    ensures Secured(Next(cfg, s, step).value, hv)
  {
    var u := MountUse(hv);
    if step.Refresh? {
      RefreshKeeps(s, u, step.r, step.deadline, step.net);
    } else {
      assert step.RefreshStop? ==> !Stopping(s, u, step.r);
      LeaseIsLive(cfg, s, step, hv);
      OthersLeaveRecord(cfg, s, step, hv);
      OthersLeaveRefreshers(cfg, s, step, hv);
    }
  }

  lemma LeaseIsLive(cfg: Config, s: State, step: Step, hv: HV)
    requires cfg.rules.leasesHold && Secured(s, hv) && Next(cfg, s, step).Some?
    ensures step.Lapse? ==> step.key != KeyOf(MountUse(hv))
  {
  }

  lemma RefreshKeeps(s: State, u: Use, r: nat, d: Option<int>, net: Net)
    requires r in s.refs && RefreshNext(s, r, d, net).Some?
    requires NoneStopping(s, u) && Holds(s.store, u)
    requires s.store[KeyOf(u)].deadline.Some? ==> exists x :: Live(s, u, x)
    ensures var t := RefreshNext(s, r, d, net).value;
      && Holds(t.store, u)
      && (t.store[KeyOf(u)].deadline.Some? ==> exists x :: Live(t, u, x))
  {
    var t := RefreshNext(s, r, d, net).value;
    assert forall x :: Live(s, u, x) ==> Live(t, u, x);
    if s.refs[r].use == u {
      assert !Stopping(s, u, r);
      assert Live(t, u, r);
    }
  }

  /** A publish of u keeps an earlier lock of u, and if it reports success the lock is there
      for good. */
  lemma PublishSecures(s: Store, u: Use, c: Call, net: Net)
    requires c == Create(u, None) || c == Swap(u, None)
    ensures var (t, reply) := Send(s, c, net);
      && (reply == Done ==> HoldsForever(t, u))
      && (Holds(s, u) ==> Holds(t, u) && t[KeyOf(u)] in {s[KeyOf(u)], Rec(u, None)})
  {
  }

  /** A reply makes the handler rely on its lock only if the reply was to a publish of it. */
  lemma ReplyFits(hv: HV, h: HostVol, reply: Reply, giveUp: bool)
    requires HostRequest(hv, h.pc).Some? && (h.pc == MClear ==> !h.mounted)
    ensures var x, c := h.(pc := HostReply(h.pc, reply, giveUp)), HostRequest(hv, h.pc).value;
      && (Relies(x) ==> !c.CompareDelete? && (Relies(h) || reply == Done))
      && (Relies(x) || Entering(x) ==> Relies(h) || Entering(h))
      && (x.pc in {UFinish, MClear} ==> !x.mounted)
  {
  }

  lemma SecuredStays(s: State, t: State, hv: HV, c: Call, net: Net)
    requires c == Create(MountUse(hv), None) || c == Swap(MountUse(hv), None)
    requires t.refs == s.refs && t.store == Send(s.store, c, net).0
    requires Secured(s, hv) || Send(s.store, c, net).1 == Done
    ensures Secured(t, hv)
  {
    PublishSecures(s.store, MountUse(hv), c, net);
    assert forall r :: Live(s, MountUse(hv), r) <==> Live(t, MountUse(hv), r);
  }

  /** A handler's request other than the refresher's first successful publish. */
  lemma PlainCallKeepsHost(cfg: Config, s: State, hv: HV, net: Net, giveUp: bool, id: nat)
    requires hv in s.hosts && HostInv(cfg, s, hv)
    requires HostCallNext(s, hv, net, giveUp, id).Some?
    requires HostCallNext(s, hv, net, giveUp, id).value.refs == s.refs
    ensures var t := HostCallNext(s, hv, net, giveUp, id).value;
      hv in t.hosts && HostInv(cfg, t, hv)
  {
    var t, h := HostCallNext(s, hv, net, giveUp, id).value, s.hosts[hv];
    var call := HostRequest(hv, h.pc).value;
    var (store, reply) := Send(s.store, call, net);
    assert t.store == store && t.hosts[hv] == h.(pc := HostReply(h.pc, reply, giveUp));
    ReplyFits(hv, h, reply, giveUp);
    assert forall r :: Stopping(t, MountUse(hv), r) <==> Stopping(s, MountUse(hv), r);
    if Relies(t.hosts[hv]) {
      SecuredStays(s, t, hv, call, net);
    }
  }

  lemma RefresherStartKeepsHost(cfg: Config, s: State, hv: HV, net: Net, giveUp: bool, id: nat)
    requires hv in s.hosts && HostInv(cfg, s, hv)
    requires HostCallNext(s, hv, net, giveUp, id).Some?
    requires HostCallNext(s, hv, net, giveUp, id).value.refs != s.refs
    ensures var t := HostCallNext(s, hv, net, giveUp, id).value;
      hv in t.hosts && HostInv(cfg, t, hv)
  {
    var t, u := HostCallNext(s, hv, net, giveUp, id).value, MountUse(hv);
    assert forall r :: Stopping(t, u, r) ==> Stopping(s, u, r);
    PublishSecures(s.store, u, HostRequest(hv, s.hosts[hv].pc).value, net);
  }

  lemma OwnLocalKeepsHost(cfg: Config, s: State, hv: HV, ok: bool, left: bool)
    requires cfg.rules.undoWorks && cfg.rules.pathWorks
    requires hv in s.hosts && HostInv(cfg, s, hv)
    requires HostLocalNext(cfg, s, hv, ok, left).Some?
    ensures var t := HostLocalNext(cfg, s, hv, ok, left).value;
      hv in t.hosts && HostInv(cfg, t, hv)
  {
    var t, u := HostLocalNext(cfg, s, hv, ok, left).value, MountUse(hv);
    if s.hosts[hv].pc != UFinish {
      assert forall r :: Live(s, u, r) <==> Live(t, u, r);
      assert forall r :: Stopping(s, u, r) <==> Stopping(t, u, r);
    }
  }

  ghost predicate HostsInv(cfg: Config, s: State) {
    s.hosts.Keys == cfg.hosts && forall hv <- s.hosts :: HostInv(cfg, s, hv)
  }

  lemma HostKeySet(cfg: Config, s: State, step: Step)
    requires Next(cfg, s, step).Some?
    ensures Next(cfg, s, step).value.hosts.Keys == s.hosts.Keys
  {
  }

  lemma HostsNext(cfg: Config, s: State, step: Step)
    requires WellFormed(cfg) && AllRules(cfg.rules)
    requires JobsFit(cfg, s) && RefsFit(s) && HostsInv(cfg, s) && Next(cfg, s, step).Some?
    ensures HostsInv(cfg, Next(cfg, s, step).value)
  {
    var t := Next(cfg, s, step).value;
    HostKeySet(cfg, s, step);
    forall hv | hv in t.hosts ensures HostInv(cfg, t, hv) {
      assert hv in s.hosts && HostInv(cfg, s, hv);
      if !HostStep(step, hv) {
        OtherHostsStay(cfg, s, step, hv);
        OthersLeaveRefreshers(cfg, s, step, hv);
        if Relies(s.hosts[hv]) {
          OthersKeepMountLock(cfg, s, step, hv);
        }
      } else {
        OwnStepKeepsHost(cfg, s, step, hv);
      }
    }
  }

  lemma OwnStepKeepsHost(cfg: Config, s: State, step: Step, hv: HV)
    requires AllRules(cfg.rules) && hv in s.hosts && HostInv(cfg, s, hv)
    requires HostStep(step, hv) && Next(cfg, s, step).Some?
    ensures var t := Next(cfg, s, step).value; hv in t.hosts && HostInv(cfg, t, hv)
  {
    var t, u := Next(cfg, s, step).value, MountUse(hv);
    if step.HostCall? {
      if t.refs == s.refs {
        PlainCallKeepsHost(cfg, s, hv, step.net, step.giveUp, step.id);
      } else {
        RefresherStartKeepsHost(cfg, s, hv, step.net, step.giveUp, step.id);
      }
    } else if step.HostLocal? {
      OwnLocalKeepsHost(cfg, s, hv, step.ok, step.left);
    } else {
      assert forall r :: Live(s, u, r) <==> Live(t, u, r);
      assert forall r :: Stopping(s, u, r) <==> Stopping(t, u, r);
    }
  }

  // ---- Every reachable state --------------------------------------------------------------

  lemma {:induction false} AlwaysFits(cfg: Config, steps: seq<Step>)
    requires Run(cfg, steps).Some?
    ensures JobsFit(cfg, Run(cfg, steps).value) && RefsFit(Run(cfg, steps).value)
    decreases |steps|
  {
    if steps != [] {
      var front, last := steps[..|steps| - 1], steps[|steps| - 1];
      AlwaysFits(cfg, front);
      JobsFitNext(cfg, Run(cfg, front).value, last);
      RefsFitNext(cfg, Run(cfg, front).value, last);
    }
  }

  lemma {:induction false} AlwaysStrict(cfg: Config, steps: seq<Step>)
    requires WellFormed(cfg) && cfg.rules.snapshotsUnforced && cfg.rules.clocksRun
    requires Run(cfg, steps).Some?
    ensures JobsFit(cfg, Run(cfg, steps).value) && StrictInv(cfg, Run(cfg, steps).value)
    decreases |steps|
  {
    AlwaysFits(cfg, steps);
    if steps != [] {
      var front, last := steps[..|steps| - 1], steps[|steps| - 1];
      AlwaysFits(cfg, front);
      AlwaysStrict(cfg, front);
      StrictNext(cfg, Run(cfg, front).value, last);
    }
  }

  lemma {:induction false} AlwaysUnshared(cfg: Config, steps: seq<Step>)
    requires WellFormed(cfg) && cfg.rules.clocksRun && Run(cfg, steps).Some?
    ensures JobsFit(cfg, Run(cfg, steps).value) && UnsharedInv(cfg, Run(cfg, steps).value)
    decreases |steps|
  {
    AlwaysFits(cfg, steps);
    if steps != [] {
      var front, last := steps[..|steps| - 1], steps[|steps| - 1];
      AlwaysFits(cfg, front);
      AlwaysUnshared(cfg, front);
      UnsharedNext(cfg, Run(cfg, front).value, last);
    }
  }

  lemma {:induction false} AlwaysHosts(cfg: Config, steps: seq<Step>)
    requires WellFormed(cfg) && AllRules(cfg.rules) && Run(cfg, steps).Some?
    ensures HostsInv(cfg, Run(cfg, steps).value)
    decreases |steps|
  {
    if steps != [] {
      var front, last := steps[..|steps| - 1], steps[|steps| - 1];
      AlwaysFits(cfg, front);
      AlwaysHosts(cfg, front);
      HostsNext(cfg, Run(cfg, front).value, last);
    }
  }

  // ---- Theorems ---------------------------------------------------------------------------

  predicate InBody(s: State, j: nat) {
    j in s.jobs && s.jobs[j] == Body
  }

  predicate Mounted(s: State, hv: HV) {
    hv in s.hosts && s.hosts[hv].mounted
  }

  /** Two jobs that list a strict lock with the same key are never both in their bodies,
      even when they share the mount lock's content, mount keys are removed by force,
      clients die holding locks, messages are lost or snapshot leases run out: only snapshot
      keys must not be forced and clocks must not be set back. */
  lemma BodiesNeverOverlap(cfg: Config, s: State, j: nat, k: nat, u: Use, w: Use)
    requires WellFormed(cfg) && cfg.rules.snapshotsUnforced && cfg.rules.clocksRun && Reachable(cfg, s)
    requires j in cfg.jobs && k in cfg.jobs && j != k
    requires u in cfg.jobs[j] && w in cfg.jobs[k]
    requires !u.MayExist() && KeyOf(u) == KeyOf(w)
    ensures !(InBody(s, j) && InBody(s, k))
  {
    var steps :| RunFrom(cfg, Init(cfg), steps) == Some(s);
    AlwaysStrict(cfg, steps);
    if InBody(s, j) && InBody(s, k) {
      assert Owns(cfg, s, j, u) && Owns(cfg, s, k, w);
    }
  }

  /** A job's body starts and ends with every lock of its list holding the job's own content,
      provided no other job lists that content and nobody forces its key. */
  lemma BodyHoldsItsLocks(cfg: Config, s: State, j: nat, u: Use)
    requires WellFormed(cfg) && cfg.rules.clocksRun && !MayForce(cfg, KeyOf(u))
    requires Reachable(cfg, s) && InBody(s, j) && j in cfg.jobs && u in cfg.jobs[j]
    requires !u.MayExist() || Unshared(cfg, j, u)
    ensures HoldsForever(s.store, u)
  {
    var steps :| RunFrom(cfg, Init(cfg), steps) == Some(s);
    AlwaysUnshared(cfg, steps);
    assert Owns(cfg, s, j, u);
    if !u.MayExist() {
      AlwaysStrict(cfg, steps);
    }
  }

  /** While a host has a locked volume mounted the mount key holds exactly that host's
      content. */
  lemma MountedHoldsLock(cfg: Config, s: State, hv: HV)
    requires WellFormed(cfg) && AllRules(cfg.rules) && Reachable(cfg, s) && Mounted(s, hv)
    ensures Holds(s.store, MountUse(hv))
  {
    var steps :| RunFrom(cfg, Init(cfg), steps) == Some(s);
    AlwaysHosts(cfg, steps);
    assert HostInv(cfg, s, hv);
  }

  /** A locked volume is mounted on at most one host. */
  lemma MountsAreExclusive(cfg: Config, s: State, a: HV, b: HV)
    requires WellFormed(cfg) && AllRules(cfg.rules) && Reachable(cfg, s)
    requires Mounted(s, a) && Mounted(s, b) && a.volume == b.volume
    ensures a == b
  {
    MountedHoldsLock(cfg, s, a);
    MountedHoldsLock(cfg, s, b);
  }

  /** No body that lists an unshared mount lock of the volume runs while it is mounted. */
  lemma BodyExcludesMount(cfg: Config, s: State, j: nat, u: Use, hv: HV)
    requires WellFormed(cfg) && AllRules(cfg.rules) && cfg.rules.clocksRun
    requires Reachable(cfg, s) && j in cfg.jobs && u in cfg.jobs[j] && u.UseMount?
    requires u.volume == hv.volume && Unshared(cfg, j, u)
    ensures !(InBody(s, j) && Mounted(s, hv))
  {
    assert JobUse(u) && u != MountUse(hv);
    if InBody(s, j) && Mounted(s, hv) {
      BodyHoldsItsLocks(cfg, s, j, u);
      MountedHoldsLock(cfg, s, hv);
    }
  }
}
