/** The use-lock protocol as a transition system: any number of lock-guarded jobs
    (lock/lock.go, apiserver/daemon.go), mounting hosts (api/handlers.go), TTL refreshers
    and lock probes share one etcd. Every etcd request is one atomic step, served, lost, or
    served with its reply lost; a client that dies simply takes no further step. */
module Cluster {
  import opened Wrappers
  import opened UseLocks

  const Mounting := "Mount"
  const JobReasons: set<string> := {"Create", "Remove", "Copy", "Maintenance"}
  const KeeperReasons: set<string> := {"Snapshot", "SnapshotPrune"}

  // ---- Configuration -------------------------------------------------------------------

  datatype HV = HV(host: string, volume: string)

  function MountUse(hv: HV): Use {
    UseMount(hv.volume, hv.host, Mounting)
  }

  /** The environment assumptions, each of which can be switched off on its own.
      - settled: a stopped refresher has removed its lock before the same host's next
        mount request for the volume
      - leasesHold: the mount lease of a running refresher does not lapse
      - undoWorks: the driver's unmount after a failed mount succeeds
      - pathWorks: the driver can name the mount path after a successful mount
      - mountsUnforced, snapshotsUnforced: no forced removal of keys of that type
      - clocksRun: no clock is set back, so that acquire never returns nil without the lock */
  datatype Rules = Rules(settled: bool, leasesHold: bool, undoWorks: bool, pathWorks: bool,
                         mountsUnforced: bool, snapshotsUnforced: bool, clocksRun: bool)

  /** `jobs` gives the lock list of every ExecuteWithMultiUseLock call ever made; `hosts`
      the (host, locked volume) pairs that may see mount requests. */
  datatype Config = Config(jobs: map<nat, seq<Use>>, hosts: set<HV>, rules: Rules)

  predicate JobUse(u: Use) {
    match u
    case UseMount(_, _, reason) => reason in JobReasons
    case UseSnapshot(_, reason) => reason in JobReasons
    case UseVolsupervisor(_) => false
  }

  /** Locks taken with AcquireWithTTLRefresh by volsupervisor. */
  predicate KeeperUse(u: Use) {
    match u
    case UseMount(_, _, _) => false
    case UseSnapshot(_, reason) => reason in KeeperReasons
    case UseVolsupervisor(_) => true
  }

  predicate WellFormed(cfg: Config) {
    forall j <- cfg.jobs ::
      DistinctKeys(cfg.jobs[j]) && forall u <- cfg.jobs[j] :: JobUse(u)
  }

  // ---- State ---------------------------------------------------------------------------

  /** Where one ExecuteWithMultiUseLock call is: acquiring lock `i` (`again` when the
      create found the key and the swap is due), in its body, releasing lock `i`, or gone
      with an error while still owning its first `i` locks. */
  datatype JobPhase = Acquiring(i: nat, again: bool) | Body | Releasing(i: nat) | Failed(i: nat)

  /** Program counter of a host's handler for one volume. */
  datatype Pc =
    | Idle
    | MPublish | MSwap | MCount | MDriver | MRefresh | MRefreshSwap | MPath | MUndo | MClear
    | UPublish | USwap | UCount | UDriver | UFinish

  datatype HostVol = HostVol(pc: Pc, count: int, collected: bool, mounted: bool, chan: Option<nat>)

  datatype RefPhase = Waiting | Creating | Gone

  datatype Refresher = Refresher(use: Use, phase: RefPhase, stopped: bool)

  datatype State = State(store: Store, jobs: map<nat, JobPhase>, hosts: map<HV, HostVol>,
                         refs: map<nat, Refresher>)

  function Init(cfg: Config): State {
    State(map[],
          map j | j in cfg.jobs :: Acquiring(0, false),
          map hv | hv in cfg.hosts :: HostVol(Idle, 0, false, false, None),
          map[])
  }

  // ---- Steps ---------------------------------------------------------------------------

  /** What acquire does after a failed publish: lockWait sends it back, ends it with an error, or,
      when the clock has been set back between its two readings, ends it with nil. */
  datatype Waited = TryAgain | GiveUp | Slip

  datatype Step =
    | JobCall(j: nat, net: Net, waited: Waited)
    | JobEnter(j: nat)
    | JobLeave(j: nat)
    | JobRelease(j: nat, net: Net)
    | MountRequest(hv: HV)
    | UnmountRequest(hv: HV)
    | HostCall(hv: HV, net: Net, giveUp: bool, id: nat)
    | HostLocal(hv: HV, ok: bool, left: bool)
    | KeeperAcquire(use: Use, net: Net, id: nat)
    | KeeperStop(r: nat)
    | Refresh(r: nat, deadline: Option<int>, net: Net)
    | RefreshStop(r: nat, net: Net)
    | ProbePublish(volume: string, swap: bool, net: Net)
    | ProbeRemove(volume: string, net: Net)
    | Force(key: Key)
    | Lapse(key: Key)

  function ProbeUse(volume: string): Use {
    UseMount(volume, "", "")
  }

  // acquire and ExecuteWithMultiUseLock

  function JobCallNext(cfg: Config, s: State, j: nat, net: Net, waited: Waited): Option<State>
    requires j in cfg.jobs && j in s.jobs
  {
    match s.jobs[j]
    case Acquiring(i, again) =>
      if i >= |cfg.jobs[j]| || (waited.Slip? && cfg.rules.clocksRun) then None else
      var u := cfg.jobs[j][i];
      var (store, reply) := Send(s.store, if again then Swap(u, None) else Create(u, None), net);
      var phase :=
        if reply == Done then Acquiring(i + 1, false)
        else if reply == NodeExist && u.MayExist() then Acquiring(i, true)
        else match waited
          case TryAgain => Acquiring(i, false)
          case GiveUp => Failed(i)
          case Slip => Acquiring(i + 1, false);
      Some(s.(store := store, jobs := s.jobs[j := phase]))
    case _ => None
  }

  function JobReleaseNext(cfg: Config, s: State, j: nat, net: Net): Option<State>
    requires j in cfg.jobs && j in s.jobs
  {
    match s.jobs[j]
    case Releasing(i) =>
      if i >= |cfg.jobs[j]| then None else
      var store := Send(s.store, CompareDelete(cfg.jobs[j][i]), net).0;
      Some(s.(store := store, jobs := s.jobs[j := Releasing(i + 1)]))
    case _ => None
  }

  // Mount and Unmount

  predicate Stopping(s: State, u: Use, r: nat) {
    r in s.refs && s.refs[r].use == u && s.refs[r].stopped && s.refs[r].phase != Gone
  }

  predicate Live(s: State, u: Use, r: nat) {
    r in s.refs && s.refs[r].use == u && !s.refs[r].stopped && s.refs[r].phase != Gone
  }

  ghost predicate NoneStopping(s: State, u: Use) {
    forall r :: !Stopping(s, u, r)
  }

  /** The etcd request the handler makes next, if it is at one. */
  function HostRequest(hv: HV, pc: Pc): Option<Call> {
    var u := MountUse(hv);
    match pc
    case MPublish | MRefresh | UPublish => Some(Create(u, None))
    case MSwap | MRefreshSwap | USwap => Some(Swap(u, None))
    case MClear => Some(CompareDelete(u))
    case _ => None
  }

  /** Where the handler goes on a reply. A failed first publish ends the request, a failed
      publish of the refresher undoes the mount, a failed clear is retried or given up. */
  function HostReply(pc: Pc, reply: Reply, giveUp: bool): Pc {
    match pc
    case MPublish => if reply == Done then MCount else if reply == NodeExist then MSwap else Idle
    case MSwap => if reply == Done then MCount else Idle
    case MRefresh => if reply == Done then MPath else if reply == NodeExist then MRefreshSwap else MUndo
    case MRefreshSwap => if reply == Done then MPath else MUndo
    case UPublish => if reply == Done then UCount else if reply == NodeExist then USwap else Idle
    case USwap => if reply == Done then UCount else Idle
    case MClear => if reply == Done || giveUp then Idle else MClear
    case _ => pc
  }

  function HostCallNext(s: State, hv: HV, net: Net, giveUp: bool, id: nat): Option<State>
    requires hv in s.hosts
  {
    var h := s.hosts[hv];
    match HostRequest(hv, h.pc)
    case None => None
    case Some(call) =>
      var (store, reply) := Send(s.store, call, net);
      var pc := HostReply(h.pc, reply, giveUp);
      if (h.pc == MRefresh || h.pc == MRefreshSwap) && reply == Done then
        // AcquireWithTTLRefresh starts the refresher, AddStopChan records its channel
        if id in s.refs then None else
        Some(s.(store := store,
                hosts := s.hosts[hv := h.(pc := pc, chan := Some(id))],
                refs := s.refs[id := Refresher(MountUse(hv), Waiting, false)]))
      else Some(s.(store := store, hosts := s.hosts[hv := h.(pc := pc)]))
  }

  /** The handler's next step that is not an etcd request. `ok` is the driver's answer;
      `left` says whether a failed driver mount left the volume mounted. */
  function HandlerLocal(h: HostVol, rules: Rules, ok: bool, left: bool): Option<HostVol> {
    match h.pc
    case MCount =>
      Some(h.(count := h.count + 1, pc := if h.count + 1 > 1 then Idle else MDriver))
    case MDriver =>
      if !ok then Some(h.(mounted := h.mounted || left, pc := MUndo))
      else if h.collected then Some(h.(mounted := true, pc := Idle)) // Collection.Add panics
      else Some(h.(mounted := true, collected := true, pc := MRefresh))
    case MPath =>
      if ok then Some(h.(pc := Idle))
      else if rules.pathWorks then None else Some(h.(chan := None, pc := MUndo))
    case MUndo =>
      if ok then Some(h.(mounted := false, pc := MClear))
      else if rules.undoWorks then None else Some(h.(pc := MClear))
    case UCount =>
      // a negative result is Counter.Sub's panic
      Some(h.(count := h.count - 1, pc := if h.count - 1 == 0 then UDriver else Idle))
    case UDriver =>
      if ok then Some(h.(mounted := false, pc := UFinish)) else Some(h.(pc := Idle))
    case UFinish =>
      Some(h.(collected := false, chan := None, pc := Idle))
    case _ => None
  }

  /** RemoveStopChan: the stop signal to the recorded refresher. */
  function StopRefresher(refs: map<nat, Refresher>, chan: Option<nat>): map<nat, Refresher> {
    if chan.Some? && chan.value in refs then refs[chan.value := refs[chan.value].(stopped := true)]
    else refs
  }

  /** The handler calls RemoveStopChan: after an unmount, and when the mount path fails. */
  predicate StopsIts(pc: Pc, ok: bool) {
    pc.UFinish? || (pc.MPath? && !ok)
  }

  function HostLocalNext(cfg: Config, s: State, hv: HV, ok: bool, left: bool): Option<State>
    requires hv in s.hosts
  {
    var h := s.hosts[hv];
    match HandlerLocal(h, cfg.rules, ok, left)
    case None => None
    case Some(x) =>
      Some(s.(hosts := s.hosts[hv := x],
              refs := if StopsIts(h.pc, ok) then StopRefresher(s.refs, h.chan) else s.refs))
  }

  // The refresher of AcquireWithTTLRefresh

  function RefreshNext(s: State, r: nat, d: Option<int>, net: Net): Option<State>
    requires r in s.refs
  {
    var ref := s.refs[r];
    match ref.phase
    case Gone => None
    case Waiting =>
      var (store, reply) := Send(s.store, Swap(ref.use, d), net);
      var phase := if reply == KeyNotFound then Creating else Waiting;
      Some(s.(store := store, refs := s.refs[r := ref.(phase := phase)]))
    case Creating =>
      Some(s.(store := Send(s.store, Create(ref.use, d), net).0,
              refs := s.refs[r := ref.(phase := Waiting)]))
  }

  function RefreshStopNext(s: State, r: nat, net: Net): Option<State>
    requires r in s.refs
  {
    var ref := s.refs[r];
    if ref.stopped && ref.phase == Waiting then
      Some(s.(store := Send(s.store, CompareDelete(ref.use), net).0,
              refs := s.refs[r := ref.(phase := Gone)]))
    else None
  }

  // AcquireWithTTLRefresh by volsupervisor: its publish, then the stop signal

  function KeeperAcquireNext(s: State, u: Use, net: Net, id: nat): Option<State> {
    if !KeeperUse(u) || id in s.refs then None else
    var (store, reply) := Send(s.store, Create(u, None), net);
    Some(s.(store := store,
            refs := if reply == Done then s.refs[id := Refresher(u, Waiting, false)] else s.refs))
  }

  function KeeperStopNext(s: State, r: nat): Option<State> {
    if r in s.refs && KeeperUse(s.refs[r].use) then
      Some(s.(refs := s.refs[r := s.refs[r].(stopped := true)]))
    else None
  }

  predicate MayForce(cfg: Config, k: Key) {
    match k.kind
    case MountType => !cfg.rules.mountsUnforced
    case SnapshotType => !cfg.rules.snapshotsUnforced
    case VolsupervisorType => true
  }

  ghost predicate MayLapse(cfg: Config, s: State, k: Key) {
    && k in s.store && s.store[k].deadline.Some?
    && (cfg.rules.leasesHold && k.kind == MountType ==>
          forall r :: !Live(s, s.store[k].content, r))
  }

  ghost function Next(cfg: Config, s: State, step: Step): Option<State> {
    match step
    case JobCall(j, net, waited) =>
      if j in cfg.jobs && j in s.jobs then JobCallNext(cfg, s, j, net, waited) else None
    case JobEnter(j) =>
      if j in cfg.jobs && j in s.jobs && s.jobs[j] == Acquiring(|cfg.jobs[j]|, false) then
        Some(s.(jobs := s.jobs[j := Body]))
      else None
    case JobLeave(j) =>
      if j in cfg.jobs && j in s.jobs && s.jobs[j] == Body then
        Some(s.(jobs := s.jobs[j := Releasing(0)]))
      else None
    case JobRelease(j, net) =>
      if j in cfg.jobs && j in s.jobs then JobReleaseNext(cfg, s, j, net) else None
    case MountRequest(hv) =>
      if hv in s.hosts && s.hosts[hv].pc == Idle
         && (cfg.rules.settled ==> NoneStopping(s, MountUse(hv))) then
        Some(s.(hosts := s.hosts[hv := s.hosts[hv].(pc := MPublish)]))
      else None
    case UnmountRequest(hv) =>
      if hv in s.hosts && s.hosts[hv].pc == Idle then
        Some(s.(hosts := s.hosts[hv := s.hosts[hv].(pc := UPublish)]))
      else None
    case HostCall(hv, net, giveUp, id) =>
      if hv in s.hosts then HostCallNext(s, hv, net, giveUp, id) else None
    case HostLocal(hv, ok, left) =>
      if hv in s.hosts then HostLocalNext(cfg, s, hv, ok, left) else None
    case KeeperAcquire(u, net, id) => KeeperAcquireNext(s, u, net, id)
    case KeeperStop(r) => KeeperStopNext(s, r)
    case Refresh(r, d, net) => if r in s.refs then RefreshNext(s, r, d, net) else None
    case RefreshStop(r, net) => if r in s.refs then RefreshStopNext(s, r, net) else None
    case ProbePublish(v, swap, net) =>
      var u := ProbeUse(v);
      Some(s.(store := Send(s.store, if swap then Swap(u, None) else Create(u, None), net).0))
    case ProbeRemove(v, net) =>
      Some(s.(store := Send(s.store, CompareDelete(ProbeUse(v)), net).0))
    case Force(k) =>
      if MayForce(cfg, k) then Some(s.(store := Perform(s.store, ForceDelete(k)).0)) else None
    case Lapse(k) =>
      if MayLapse(cfg, s, k) then Some(s.(store := Perform(s.store, UseLocks.Expire(k)).0)) else None
  }

  // ---- Runs ----------------------------------------------------------------------------

  ghost function RunFrom(cfg: Config, o: State, steps: seq<Step>): Option<State>
    decreases |steps|
  {
    if steps == [] then Some(o) else
    match RunFrom(cfg, o, steps[..|steps| - 1])
    case None => None
    case Some(s) => Next(cfg, s, steps[|steps| - 1])
  }

  ghost function Run(cfg: Config, steps: seq<Step>): Option<State> {
    RunFrom(cfg, Init(cfg), steps)
  }

  /** Some run leads from o to s. */
  ghost predicate Leads(cfg: Config, o: State, s: State) {
    exists steps :: RunFrom(cfg, o, steps) == Some(s)
  }

  ghost predicate Reachable(cfg: Config, s: State) {
    Leads(cfg, Init(cfg), s)
  }

  /** One more step of a run. */
  lemma GoFrom(cfg: Config, o: State, s: State, step: Step) returns (t: State)
    requires Leads(cfg, o, s) && Next(cfg, s, step).Some?
    ensures Leads(cfg, o, t) && Next(cfg, s, step) == Some(t)
  {
    t := Next(cfg, s, step).value;
    var steps :| RunFrom(cfg, o, steps) == Some(s);
    assert (steps + [step])[..|steps|] == steps;
    assert RunFrom(cfg, o, steps + [step]) == Some(t);
  }

  lemma Go(cfg: Config, s: State, step: Step) returns (t: State)
    requires Reachable(cfg, s) && Next(cfg, s, step).Some?
    ensures Reachable(cfg, t) && Next(cfg, s, step) == Some(t)
  {
    t := GoFrom(cfg, Init(cfg), s, step);
  }

  lemma StartFrom(cfg: Config, o: State)
    ensures Leads(cfg, o, o)
  {
    assert RunFrom(cfg, o, []) == Some(o);
  }

  // Runs in which no lease is refreshed and none lapses

  predicate Untimed(step: Step) {
    !step.Refresh? && !step.Lapse?
  }

  ghost predicate UntimedLeads(cfg: Config, o: State, s: State) {
    exists steps :: RunFrom(cfg, o, steps) == Some(s) && forall x <- steps :: Untimed(x)
  }

  lemma UntimedGo(cfg: Config, o: State, s: State, step: Step) returns (t: State)
    requires UntimedLeads(cfg, o, s) && Next(cfg, s, step).Some? && Untimed(step)
    ensures UntimedLeads(cfg, o, t) && Next(cfg, s, step) == Some(t)
  {
    t := Next(cfg, s, step).value;
    var steps :| RunFrom(cfg, o, steps) == Some(s) && forall x <- steps :: Untimed(x);
    assert (steps + [step])[..|steps|] == steps;
    assert RunFrom(cfg, o, steps + [step]) == Some(t);
  }

  lemma UntimedStart(cfg: Config, o: State)
    ensures UntimedLeads(cfg, o, o)
  {
    assert RunFrom(cfg, o, []) == Some(o);
  }

  lemma {:induction false} RunAppend(cfg: Config, o: State, s: State, a: seq<Step>, b: seq<Step>)
    requires RunFrom(cfg, o, a) == Some(s)
    ensures RunFrom(cfg, o, a + b) == RunFrom(cfg, s, b)
    decreases |b|
  {
    if b == [] {
      assert a + b == a;
    } else {
      RunAppend(cfg, o, s, a, b[..|b| - 1]);
      assert (a + b)[..|a + b| - 1] == a + b[..|b| - 1];
    }
  }

  lemma UntimedOn(cfg: Config, s: State, t: State)
    requires Reachable(cfg, s) && UntimedLeads(cfg, s, t)
    ensures Reachable(cfg, t)
  {
    var a :| RunFrom(cfg, Init(cfg), a) == Some(s);
    var b :| RunFrom(cfg, s, b) == Some(t);
    RunAppend(cfg, Init(cfg), s, a, b);
  }

  lemma Start(cfg: Config)
    ensures Reachable(cfg, Init(cfg))
  {
    StartFrom(cfg, Init(cfg));
  }
}
