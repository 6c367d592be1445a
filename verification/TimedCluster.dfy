/** The cluster with clocks: leases run out when their time is up, refreshers wait and call, and time
    passes. That no lease of a running refresher lapses is derived here from how long calls take. */
module TimedCluster {
  import opened Wrappers
  import opened Timers
  import opened UseLocks
  import opened Cluster
  import opened ClusterSafety
  import N = ClusterNecessity

  /** The TTL of mount locks, in whole seconds; the longest that a refreshing call goes without an
      answer from etcd; and whether it persists until it has one, rather than give up at its timeout. */
  datatype Times = Times(ttl: nat, longest: nat, persists: bool)

  /** Refreshing calls persist, and take at most a quarter of the TTL. */
  predicate Prompt(p: Times) {
    p.persists && p.longest <= Quarter(p.ttl)
  }

  /** A mount refresher waits for its timer, has been calling since etcd last refused it or its call
      began, or has been served and is on its way back to the timer. */
  datatype Phase = Resting(wake: int) | Calling(since: int) | Served(since: int)

  datatype Timed = Timed(now: int, s: State, phases: map<nat, Phase>)

  function TInit(cfg: Config): Timed {
    Timed(0, Init(cfg), map[])
  }

  /** A refresher that a host's Mount handler has started. */
  predicate OfMount(u: Use) {
    u.UseMount? && u.reason == Mounting
  }

  // ---- Steps -------------------------------------------------------------------------------

  /** `wait` is the first wait of a refresher that the step starts. */
  datatype TStep =
    | Pass(time: nat)
    | Wake(r: nat)
    | Return(r: nat, wait: nat)
    | GiveUp(r: nat, wait: nat)
    | Do(step: Step, wait: nat)

  predicate InTime(p: Times, phase: Phase, now: int) {
    match phase
    case Resting(wake) => now <= wake
    case Calling(since) => now <= since + p.longest
    case Served(since) => now <= since + p.longest
  }

  /** Leases lapse by the clock only. */
  function Unruled(cfg: Config): Config {
    cfg.(rules := cfg.rules.(leasesHold := false))
  }

  function Ruled(cfg: Config): Config {
    cfg.(rules := cfg.rules.(leasesHold := true))
  }

  predicate Fits(p: Times, t: Timed, step: Step, wait: nat) {
    match step
    case HostCall(_, _, _, _) => Jittered(p.ttl, wait)
    case Refresh(r, d, _) =>
      r in t.s.refs && OfMount(t.s.refs[r].use) ==>
        r in t.phases && t.phases[r].Calling? && d == DeadlineOf(t.now, p.ttl)
    case RefreshStop(r, _) =>
      r in t.s.refs && OfMount(t.s.refs[r].use) ==> r in t.phases && t.phases[r].Resting?
    case Lapse(k) =>
      k in t.s.store && t.s.store[k].deadline.Some? ==> t.s.store[k].deadline.value <= t.now
    case _ => true
  }

  /** Where an answer leaves a refresher: served, refused because the key is somebody else's, or still
      calling. */
  function Answered(phase: Phase, reply: Reply, now: int): Phase {
    if !phase.Calling? then phase
    else match reply
      case Done => Served(phase.since)
      case TestFailed => Calling(now)
      case _ => phase
  }

  function PhasesAfter(cfg: Config, t: Timed, step: Step, after: State, wait: nat): map<nat, Phase> {
    match step
    case HostCall(_, _, _, id) =>
      if id in after.refs && id !in t.s.refs then t.phases[id := Resting(t.now + wait)] else t.phases
    case Refresh(r, _, net) =>
      var sent := RequestOf(cfg, t.s, step);
      if r in t.phases && sent.Some? then
        t.phases[r := Answered(t.phases[r], Send(t.s.store, sent.value.call, net).1, t.now)]
      else t.phases
    case RefreshStop(r, _) => t.phases - {r}
    case _ => t.phases
  }

  /** Somebody else has the key. */
  predicate Refused(s: Store, u: Use) {
    KeyOf(u) in s && s[KeyOf(u)].content != u
  }

  ghost function TNext(cfg: Config, p: Times, t: Timed, step: TStep): Option<Timed> {
    match step
    case Pass(d) =>
      if forall r <- t.phases :: InTime(p, t.phases[r], t.now + d) then Some(t.(now := t.now + d)) else None
    case Wake(r) =>
      if r in t.phases && t.phases[r] == Resting(t.now) then
        Some(t.(phases := t.phases[r := Calling(t.now)]))
      else None
    case Return(r, wait) =>
      if r in t.phases && t.phases[r].Served? && Jittered(p.ttl, wait) then
        Some(t.(phases := t.phases[r := Resting(t.now + wait)]))
      else None
    case GiveUp(r, wait) =>
      // not between the two requests of a publish
      if r in t.phases && t.phases[r].Calling? && Jittered(p.ttl, wait) && r in t.s.refs
         && t.s.refs[r].phase.Waiting? && (p.persists ==> Refused(t.s.store, t.s.refs[r].use)) then
        Some(t.(phases := t.phases[r := Resting(t.now + wait)]))
      else None
    case Do(step, wait) =>
      if !Fits(p, t, step, wait) then None else
      match Next(Unruled(cfg), t.s, step)
      case None => None
      case Some(after) => Some(Timed(t.now, after, PhasesAfter(cfg, t, step, after, wait)))
  }

  ghost function TRun(cfg: Config, p: Times, steps: seq<TStep>): Option<Timed>
    decreases |steps|
  {
    if steps == [] then Some(TInit(cfg)) else
    match TRun(cfg, p, steps[..|steps| - 1])
    case None => None
    case Some(t) => TNext(cfg, p, t, steps[|steps| - 1])
  }

  ghost predicate TReachable(cfg: Config, p: Times, t: Timed) {
    exists steps :: TRun(cfg, p, steps) == Some(t)
  }

  // ---- The invariant -----------------------------------------------------------------------

  predicate Timely(p: Times, phase: Phase, now: int) {
    match phase
    case Resting(wake) => now <= wake < now + 2 * Quarter(p.ttl)
    case Calling(since) => since <= now <= since + p.longest
    case Served(since) => since <= now <= since + p.longest
  }

  /** The lease outlives what the refresher still has to do. */
  predicate Outlives(p: Times, phase: Phase, deadline: int) {
    match phase
    case Resting(wake) => wake + Quarter(p.ttl) < deadline
    case Calling(since) => since + Quarter(p.ttl) < deadline
    case Served(since) => since + 4 * Quarter(p.ttl) <= deadline
  }

  predicate Fresh(p: Times, store: Store, u: Use, phase: Phase) {
    Holds(store, u) && store[KeyOf(u)].deadline.Some? ==>
      Outlives(p, phase, store[KeyOf(u)].deadline.value)
  }

  predicate Clocked(p: Times, t: Timed, r: nat) {
    && r in t.phases
    && Timely(p, t.phases[r], t.now)
    && (r in t.s.refs ==> Fresh(p, t.s.store, t.s.refs[r].use, t.phases[r]))
  }

  predicate Running(s: State, r: nat) {
    r in s.refs && OfMount(s.refs[r].use) && s.refs[r].phase != Gone
  }

  ghost predicate TInv(p: Times, t: Timed) {
    && RefsFit(t.s)
    && (forall k <- t.s.store :: KeyOf(t.s.store[k].content) == k)
    && (forall r :: r in t.phases <==> Running(t.s, r))
    && (forall r <- t.phases :: Clocked(p, t, r))
  }

  // ---- What a step of the cluster does to a lease --------------------------------------------

  lemma KeysFitNext(cfg: Config, s: State, step: Step)
    requires (forall k <- s.store :: KeyOf(s.store[k].content) == k) && Next(cfg, s, step).Some?
    ensures var t := Next(cfg, s, step).value; forall k <- t.store :: KeyOf(t.store[k].content) == k
  {
    StoreNext(cfg, s, step);
  }

  /** A request leaves the record of u as it was, removes it, makes it permanent, or is a publish of u
      with a deadline. */
  lemma RecordAfter(s: Store, c: Call, net: Net, u: Use)
    ensures var t := Send(s, c, net).0;
      Holds(t, u) && t[KeyOf(u)].deadline.Some? ==>
        (Holds(s, u) && t[KeyOf(u)] == s[KeyOf(u)])
        || ((c.Create? || c.Swap?) && c.use == u && t[KeyOf(u)].deadline == c.deadline)
  {
  }

  /** Only a refresher of u leases u. */
  lemma OnlyRefreshLeases(cfg: Config, s: State, step: Step, u: Use)
    requires OfMount(u) && RequestOf(cfg, s, step).Some?
    requires var c := RequestOf(cfg, s, step).value.call;
      (c.Create? || c.Swap?) && c.use == u && c.deadline.Some?
    ensures step.Refresh? && step.r in s.refs && s.refs[step.r].use == u
  {
  }

  /** A lease written now outlives every timely refresher. */
  lemma NewLeaseOutlives(p: Times, phase: Phase, now: int)
    requires WholeSeconds(p.ttl) && Timely(p, phase, now)
    ensures DeadlineOf(now, p.ttl).Some? && DeadlineOf(now, p.ttl).value == now + 4 * Quarter(p.ttl)
    ensures Outlives(p, phase, now + 4 * Quarter(p.ttl))
  {
    assert p.ttl / Second * Second == p.ttl;
  }

  /** Over a step of the cluster every lease stays fresh for a refresher whose phase has not changed. */
  lemma FreshNext(cfg: Config, p: Times, t: Timed, step: Step, wait: nat, u: Use, phase: Phase)
    requires WholeSeconds(p.ttl) && OfMount(u) && Timely(p, phase, t.now) && Fresh(p, t.s.store, u, phase)
    requires Fits(p, t, step, wait) && Next(Unruled(cfg), t.s, step).Some?
    ensures Fresh(p, Next(Unruled(cfg), t.s, step).value.store, u, phase)
  {
    StoreNext(Unruled(cfg), t.s, step);
    var sent := RequestOf(Unruled(cfg), t.s, step);
    if sent.Some? {
      var c := sent.value.call;
      RecordAfter(t.s.store, c, sent.value.net, u);
      NewLeaseOutlives(p, phase, t.now);
      if (c.Create? || c.Swap?) && c.use == u && c.deadline.Some? {
        OnlyRefreshLeases(Unruled(cfg), t.s, step, u);
      }
    }
  }

  /** A served refresher has a lease of a whole TTL from now on, a refused one none. */
  lemma AnswerFresh(p: Times, now: int, s: Store, u: Use, c: Call, net: Net, phase: Phase)
    requires WholeSeconds(p.ttl) && Timely(p, phase, now) && phase.Calling?
    requires c == Swap(u, DeadlineOf(now, p.ttl)) || c == Create(u, DeadlineOf(now, p.ttl))
    requires Fresh(p, s, u, phase)
    ensures var (t, reply) := Send(s, c, net);
      Timely(p, Answered(phase, reply, now), now) && Fresh(p, t, u, Answered(phase, reply, now))
  {
    NewLeaseOutlives(p, phase, now);
  }

  // ---- Preservation --------------------------------------------------------------------------

  lemma RefsNext(cfg: Config, s: State, step: Step, r: nat)
    requires r in s.refs && Next(cfg, s, step).Some?
    ensures var t := Next(cfg, s, step).value;
      && r in t.refs && t.refs[r].use == s.refs[r].use
      && (t.refs[r].phase == Gone <==>
            s.refs[r].phase == Gone || (step.RefreshStop? && step.r == r))
  {
  }

  lemma NewRefs(cfg: Config, s: State, step: Step, r: nat)
    requires r !in s.refs && Next(cfg, s, step).Some?
    ensures var t := Next(cfg, s, step).value;
      r in t.refs ==>
        (t.refs[r].phase != Gone
         && ((step.KeeperAcquire? && !OfMount(t.refs[r].use))
             || (step.HostCall? && step.id == r && t.refs[r].use == MountUse(step.hv)
                 && HoldsForever(t.store, t.refs[r].use))))
  {
  }

  lemma PhasesFit(cfg: Config, p: Times, t: Timed, step: Step, wait: nat)
    requires TInv(p, t) && Fits(p, t, step, wait) && Next(Unruled(cfg), t.s, step).Some?
    ensures var after := Next(Unruled(cfg), t.s, step).value;
      forall r :: r in PhasesAfter(cfg, t, step, after, wait) <==> Running(after, r)
  {
    var after := Next(Unruled(cfg), t.s, step).value;
    forall r ensures r in PhasesAfter(cfg, t, step, after, wait) <==> Running(after, r) {
      if r in t.s.refs {
        RefsNext(Unruled(cfg), t.s, step, r);
      } else {
        NewRefs(Unruled(cfg), t.s, step, r);
      }
    }
  }

  lemma DoClocked(cfg: Config, p: Times, t: Timed, step: Step, wait: nat, r: nat)
    requires WholeSeconds(p.ttl) && TInv(p, t) && Fits(p, t, step, wait) && Next(Unruled(cfg), t.s, step).Some?
    requires var after := Next(Unruled(cfg), t.s, step).value;
      r in PhasesAfter(cfg, t, step, after, wait) && Running(after, r)
    ensures var after := Next(Unruled(cfg), t.s, step).value;
      Clocked(p, Timed(t.now, after, PhasesAfter(cfg, t, step, after, wait)), r)
  {
    var after := Next(Unruled(cfg), t.s, step).value;
    if r !in t.s.refs {
      NewRefs(Unruled(cfg), t.s, step, r);
    } else {
      RefsNext(Unruled(cfg), t.s, step, r);
      assert Running(t.s, r) && Clocked(p, t, r);
      var u := t.s.refs[r].use;
      if step.Refresh? && step.r == r {
        StoreNext(Unruled(cfg), t.s, step);
        var sent := RequestOf(cfg, t.s, step).value;
        AnswerFresh(p, t.now, t.s.store, u, sent.call, sent.net, t.phases[r]);
      } else {
        FreshNext(cfg, p, t, step, wait, u, t.phases[r]);
      }
    }
  }

  lemma DoKeeps(cfg: Config, p: Times, t: Timed, step: Step, wait: nat)
    requires WholeSeconds(p.ttl) && TInv(p, t) && TNext(cfg, p, t, Do(step, wait)).Some?
    ensures TInv(p, TNext(cfg, p, t, Do(step, wait)).value)
  {
    var t1 := TNext(cfg, p, t, Do(step, wait)).value;
    RefsFitNext(Unruled(cfg), t.s, step);
    KeysFitNext(Unruled(cfg), t.s, step);
    PhasesFit(cfg, p, t, step, wait);
    forall r | r in t1.phases ensures Clocked(p, t1, r) {
      DoClocked(cfg, p, t, step, wait, r);
    }
  }

  /** What a refresher does by itself keeps its lease fresh, if calls are short enough. */
  lemma OwnClocked(p: Times, t: Timed, r: nat, phase: Phase)
    requires WholeSeconds(p.ttl) && p.longest <= Quarter(p.ttl) && Clocked(p, t, r) && r in t.s.refs
    requires Timely(p, phase, t.now)
    requires var old0 := t.phases[r];
      || (old0 == Resting(t.now) && phase == Calling(t.now))
      || (old0.Served? && phase.Resting?)
      || !Holds(t.s.store, t.s.refs[r].use)
    ensures Clocked(p, t.(phases := t.phases[r := phase]), r)
  {
  }

  lemma OwnKeeps(p: Times, t: Timed, r: nat, phase: Phase)
    requires WholeSeconds(p.ttl) && p.longest <= Quarter(p.ttl) && TInv(p, t) && r in t.phases
    requires Timely(p, phase, t.now)
    requires var old0 := t.phases[r];
      || (old0 == Resting(t.now) && phase == Calling(t.now))
      || (old0.Served? && phase.Resting?)
      || !Holds(t.s.store, t.s.refs[r].use)
    ensures TInv(p, t.(phases := t.phases[r := phase]))
  {
    var t1 := t.(phases := t.phases[r := phase]);
    assert Running(t.s, r) && Clocked(p, t, r);
    OwnClocked(p, t, r, phase);
    forall x | x in t1.phases ensures Clocked(p, t1, x) {
      assert Clocked(p, t, x);
    }
  }

  lemma PassKeeps(cfg: Config, p: Times, t: Timed, d: nat)
    requires TInv(p, t) && TNext(cfg, p, t, Pass(d)).Some?
    ensures TInv(p, TNext(cfg, p, t, Pass(d)).value)
  {
    var t1 := TNext(cfg, p, t, Pass(d)).value;
    forall r | r in t1.phases ensures Clocked(p, t1, r) {
      assert Clocked(p, t, r);
    }
  }

  lemma TInvNext(cfg: Config, p: Times, t: Timed, step: TStep)
    requires WholeSeconds(p.ttl) && Prompt(p) && TInv(p, t) && TNext(cfg, p, t, step).Some?
    ensures TInv(p, TNext(cfg, p, t, step).value)
  {
    match step {
      case Pass(d) => PassKeeps(cfg, p, t, d);
      case Wake(r) =>
        assert Clocked(p, t, r);
        OwnKeeps(p, t, r, Calling(t.now));
      case Return(r, wait) =>
        assert Clocked(p, t, r);
        OwnKeeps(p, t, r, Resting(t.now + wait));
      case GiveUp(r, wait) =>
        assert Clocked(p, t, r);
        OwnKeeps(p, t, r, Resting(t.now + wait));
      case Do(step, wait) => DoKeeps(cfg, p, t, step, wait);
    }
  }

  // ---- The rule ------------------------------------------------------------------------------

  /** A lease whose time is up has no refresher running. */
  lemma LapsedIsUnrefreshed(p: Times, t: Timed, k: Key, r: nat)
    requires WholeSeconds(p.ttl) && Prompt(p) && TInv(p, t)
    requires k in t.s.store && k.kind == MountType && t.s.store[k].deadline.Some?
    requires t.s.store[k].deadline.value <= t.now
    ensures !Live(t.s, t.s.store[k].content, r)
  {
    assert r in t.phases ==> Clocked(p, t, r);
  }

  /** So every step that the clocks allow is one that the rule allows. */
  lemma RuleDerived(cfg: Config, p: Times, t: Timed, step: Step, wait: nat)
    requires WholeSeconds(p.ttl) && Prompt(p) && TInv(p, t)
    requires Fits(p, t, step, wait) && Next(Unruled(cfg), t.s, step).Some?
    ensures Next(Ruled(cfg), t.s, step) == Next(Unruled(cfg), t.s, step)
  {
    if step.Lapse? {
      var k := step.key;
      if k.kind == MountType {
        forall r ensures !Live(t.s, t.s.store[k].content, r) {
          LapsedIsUnrefreshed(p, t, k, r);
        }
      }
      assert MayLapse(Ruled(cfg), t.s, k);
    }
  }

  /** Every state of a cluster with clocks whose refreshing calls are prompt is a state of the cluster
      without clocks in which leases hold. */
  lemma {:induction false} TimedIsRuled(cfg: Config, p: Times, steps: seq<TStep>)
    requires WholeSeconds(p.ttl) && Prompt(p) && TRun(cfg, p, steps).Some?
    ensures TInv(p, TRun(cfg, p, steps).value) && Reachable(Ruled(cfg), TRun(cfg, p, steps).value.s)
    decreases |steps|
  {
    if steps == [] {
      assert Init(cfg) == Init(Ruled(cfg));
      Start(Ruled(cfg));
    } else {
      var front, last := steps[..|steps| - 1], steps[|steps| - 1];
      TimedIsRuled(cfg, p, front);
      var t := TRun(cfg, p, front).value;
      TInvNext(cfg, p, t, last);
      if last.Do? {
        RuleDerived(cfg, p, t, last.step, last.wait);
        var s := Go(Ruled(cfg), t.s, last.step);
      }
    }
  }

  lemma TimedMountsAreExclusive(cfg: Config, p: Times, t: Timed, a: HV, b: HV)
    requires WellFormed(cfg) && N.OtherRules(cfg.rules) && TReachable(cfg, p, t)
    requires WholeSeconds(p.ttl) && Prompt(p)
    requires Mounted(t.s, a) && Mounted(t.s, b) && a.volume == b.volume
    ensures a == b
  {
    var steps :| TRun(cfg, p, steps) == Some(t);
    TimedIsRuled(cfg, p, steps);
    MountsAreExclusive(Ruled(cfg), t.s, a, b);
  }

  // ---- Calls that take too long or give up --------------------------------------------------------------

  lemma TGo(cfg: Config, p: Times, t: Timed, step: TStep)
    requires TReachable(cfg, p, t) && TNext(cfg, p, t, step).Some?
    ensures TReachable(cfg, p, TNext(cfg, p, t, step).value)
  {
    var steps :| TRun(cfg, p, steps) == Some(t);
    assert (steps + [step])[..|steps|] == steps;
    assert TRun(cfg, p, steps + [step]) == TNext(cfg, p, t, step);
  }

  /** A step of the cluster that makes no refresher move. */
  lemma DoGo(cfg: Config, p: Times, now: int, s: State, phases: map<nat, Phase>, step: Step, after: State)
    requires TReachable(cfg, p, Timed(now, s, phases)) && Next(Unruled(cfg), s, step) == Some(after)
    requires !step.Refresh? && !step.RefreshStop? && !step.Lapse? && after.refs == s.refs
    requires Quarter(p.ttl) > 0
    ensures TReachable(cfg, p, Timed(now, after, phases))
  {
    TGo(cfg, p, Timed(now, s, phases), Do(step, Quarter(p.ttl)));
  }

  /** The host has its lock, and its driver is to mount. */
  function AtDriver(b: State, hv: HV): State {
    N.At(b, N.Locked(b, hv), hv, HostVol(MDriver, 1, false, false, None))
  }

  /** The volume is mounted, and the publish of the refresher is at its second request. */
  function AtRefresh(b: State, hv: HV): State {
    N.At(b, N.Locked(b, hv), hv, HostVol(MRefreshSwap, 1, true, true, None))
  }

  /** A mount request of an idle host with no history, up to the driver. */
  lemma EnterRun(cfg: Config, p: Times, now: int, b: State, phases: map<nat, Phase>, hv: HV)
    requires TReachable(cfg, p, Timed(now, b, phases)) && Quarter(p.ttl) > 0
    requires hv in b.hosts && b.hosts[hv] == N.Fresh && KeyOf(MountUse(hv)) !in b.store
    requires NoneStopping(b, MountUse(hv))
    ensures TReachable(cfg, p, Timed(now, AtDriver(b, hv), phases))
  {
    var u, c := MountUse(hv), Unruled(cfg);
    var x, y := N.Fresh.(pc := MPublish), N.Fresh.(pc := MCount);
    assert b == N.At(b, b.store, hv, N.Fresh);
    N.RequestNext(c, b, b.store, hv, N.Fresh, false);
    DoGo(cfg, p, now, b, phases, MountRequest(hv), N.At(b, b.store, hv, x));
    N.CallNext(c, b, b.store, hv, x, N.Locked(b, hv), Done);
    DoGo(cfg, p, now, N.At(b, b.store, hv, x), phases, HostCall(hv, Delivered, false, 0),
         N.At(b, N.Locked(b, hv), hv, y));
    N.LocalNext(c, b, N.Locked(b, hv), hv, y, true, false);
    DoGo(cfg, p, now, N.At(b, N.Locked(b, hv), hv, y), phases, HostLocal(hv, true, false), AtDriver(b, hv));
  }

  /** From the driver on, to the refresher's second request. */
  lemma DriveRun(cfg: Config, p: Times, now: int, b: State, phases: map<nat, Phase>, hv: HV)
    requires Quarter(p.ttl) > 0
    requires TReachable(cfg, p, Timed(now, AtDriver(b, hv), phases))
    ensures TReachable(cfg, p, Timed(now, AtRefresh(b, hv), phases))
  {
    var c, store := Unruled(cfg), N.Locked(b, hv);
    var x, y := HostVol(MDriver, 1, false, false, None), HostVol(MRefresh, 1, true, true, None);
    N.LocalNext(c, b, store, hv, x, true, false);
    DoGo(cfg, p, now, N.At(b, store, hv, x), phases, HostLocal(hv, true, false), N.At(b, store, hv, y));
    N.CallNext(c, b, store, hv, y, store, NodeExist);
    DoGo(cfg, p, now, N.At(b, store, hv, y), phases, HostCall(hv, Delivered, false, 0),
         N.At(b, store, hv, y.(pc := MRefreshSwap)));
  }

  lemma MountRun(cfg: Config, p: Times, now: int, b: State, phases: map<nat, Phase>, hv: HV, id: nat)
    requires TReachable(cfg, p, Timed(now, b, phases)) && Quarter(p.ttl) > 0
    requires hv in b.hosts && b.hosts[hv] == N.Fresh && KeyOf(MountUse(hv)) !in b.store
    requires NoneStopping(b, MountUse(hv)) && id !in b.refs
    ensures TReachable(cfg, p, Timed(now, N.MountedState(b, hv, id), phases[id := Resting(now + Quarter(p.ttl))]))
  {
    EnterRun(cfg, p, now, b, phases, hv);
    DriveRun(cfg, p, now, b, phases, hv);
    StartRun(cfg, p, now, b, phases, hv, id);
    PathRun(cfg, p, now, b, phases[id := Resting(now + Quarter(p.ttl))], hv, id);
  }

  lemma StartRun(cfg: Config, p: Times, now: int, b: State, phases: map<nat, Phase>, hv: HV, id: nat)
    requires Quarter(p.ttl) > 0 && id !in b.refs
    requires TReachable(cfg, p, Timed(now, AtRefresh(b, hv), phases))
    ensures TReachable(cfg, p, Timed(now, N.StartedState(b, hv, id), phases[id := Resting(now + Quarter(p.ttl))]))
  {
    var h := HostVol(MRefreshSwap, 1, true, true, None);
    N.RefresherNext(Unruled(cfg), b, N.Locked(b, hv), hv, h, id);
    TGo(cfg, p, Timed(now, AtRefresh(b, hv), phases), Do(HostCall(hv, Delivered, false, id), Quarter(p.ttl)));
  }

  lemma PathRun(cfg: Config, p: Times, now: int, b: State, phases: map<nat, Phase>, hv: HV, id: nat)
    requires Quarter(p.ttl) > 0 && TReachable(cfg, p, Timed(now, N.StartedState(b, hv, id), phases))
    ensures TReachable(cfg, p, Timed(now, N.MountedState(b, hv, id), phases))
  {
    N.PathNext(Unruled(cfg), b, hv, id);
    DoGo(cfg, p, now, N.StartedState(b, hv, id), phases, HostLocal(hv, true, false), N.MountedState(b, hv, id));
  }

  ghost predicate TwoMounted(cfg: Config, p: Times, a: HV, b: HV) {
    exists t :: TReachable(cfg, p, t) && Mounted(t.s, a) && Mounted(t.s, b)
  }

  /** A cluster whose only refresher is in some phase. */
  function Alone(s: State, now: int, store: Store, phase: Phase): Timed {
    Timed(now, s.(store := store), map[0 := phase])
  }

  /** The refresher is that of a host's mount. */
  predicate IsAlone(s: State, a: HV) {
    s.refs == map[0 := Refresher(MountUse(a), RefPhase.Waiting, false)]
  }

  lemma AloneGo(cfg: Config, p: Times, s: State, now: int, store: Store, phase: Phase, d: nat)
    requires TReachable(cfg, p, Alone(s, now, store, phase)) && InTime(p, phase, now + d)
    ensures TReachable(cfg, p, Alone(s, now + d, store, phase))
  {
    TGo(cfg, p, Alone(s, now, store, phase), Pass(d));
  }

  lemma AloneWakes(cfg: Config, p: Times, s: State, now: int, store: Store)
    requires TReachable(cfg, p, Alone(s, now, store, Resting(now)))
    ensures TReachable(cfg, p, Alone(s, now, store, Calling(now)))
  {
    TGo(cfg, p, Alone(s, now, store, Resting(now)), Wake(0));
    assert map[0 := Resting(now)][0 := Calling(now)] == map[0 := Calling(now)];
  }

  /** The first refresh is served at once. */
  lemma AloneServed(cfg: Config, p: Times, s: State, now: int, a: HV, store: Store)
    requires WholeSeconds(p.ttl) && IsAlone(s, a) && HoldsForever(store, MountUse(a))
    requires TReachable(cfg, p, Alone(s, now, store, Calling(now)))
    ensures var leased := store[KeyOf(MountUse(a)) := Rec(MountUse(a), Some(now + 4 * Quarter(p.ttl)))];
      TReachable(cfg, p, Alone(s, now, leased, Served(now)))
  {
    var t := Alone(s, now, store, Calling(now));
    NewLeaseOutlives(p, Calling(now), now);
    var step := Refresh(0, Some(now + 4 * Quarter(p.ttl)), Delivered);
    TGo(cfg, p, t, Do(step, 0));
    assert t.s.refs[0 := t.s.refs[0]] == t.s.refs;
    assert t.phases[0 := Served(now)] == map[0 := Served(now)];
  }

  /** The call returns some time after it was served, and the longest wait follows. */
  lemma AloneReturns(cfg: Config, p: Times, s: State, now: int, store: Store, late: nat)
    requires WholeSeconds(p.ttl) && late <= p.longest
    requires TReachable(cfg, p, Alone(s, now, store, Served(now)))
    ensures var wake := now + late + 2 * Quarter(p.ttl) - 1; TReachable(cfg, p, Alone(s, wake, store, Resting(wake)))
  {
    var wake := now + late + 2 * Quarter(p.ttl) - 1;
    AloneGo(cfg, p, s, now, store, Served(now), late);
    AloneRests(cfg, p, s, now + late, store, Served(now), wake);
    AloneGo(cfg, p, s, now + late, store, Resting(wake), wake - now - late);
  }

  lemma AloneRests(cfg: Config, p: Times, s: State, now: int, store: Store, phase: Phase, wake: int)
    requires Quarter(p.ttl) > 0 && phase.Served? && wake == now + 2 * Quarter(p.ttl) - 1
    requires TReachable(cfg, p, Alone(s, now, store, phase))
    ensures TReachable(cfg, p, Alone(s, now, store, Resting(wake)))
  {
    TGo(cfg, p, Alone(s, now, store, phase), Return(0, 2 * Quarter(p.ttl) - 1));
    assert map[0 := phase][0 := Resting(wake)] == map[0 := Resting(wake)];
  }

  lemma AloneLapse(cfg: Config, p: Times, s: State, now: int, a: HV, store: Store, phase: Phase)
    requires TReachable(cfg, p, Alone(s, now, store, phase))
    requires KeyOf(MountUse(a)) in store && store[KeyOf(MountUse(a))] == Rec(MountUse(a), Some(now))
    ensures TReachable(cfg, p, Alone(s, now, store - {KeyOf(MountUse(a))}, phase))
  {
    TGo(cfg, p, Alone(s, now, store, phase), Do(Lapse(KeyOf(MountUse(a))), 0));
  }

  /** The second refresh comes too late. */
  lemma AloneSlow(cfg: Config, p: Times, s: State, now: int, store: Store)
    requires WholeSeconds(p.ttl) && p.longest > Quarter(p.ttl)
    requires TReachable(cfg, p, Alone(s, now, store, Served(now)))
    ensures TReachable(cfg, p, Alone(s, now + 4 * Quarter(p.ttl), store, Calling(now + 3 * Quarter(p.ttl))))
  {
    var late := now + 3 * Quarter(p.ttl);
    AloneReturns(cfg, p, s, now, store, Quarter(p.ttl) + 1);
    AloneWakes(cfg, p, s, late, store);
    AloneGo(cfg, p, s, late, store, Calling(late), Quarter(p.ttl));
  }

  /** A refreshing call gives up at once, and the longest wait begins. */
  lemma AloneFails(cfg: Config, p: Times, s: State, now: int, a: HV, store: Store)
    requires WholeSeconds(p.ttl) && !p.persists && IsAlone(s, a)
    requires TReachable(cfg, p, Alone(s, now, store, Resting(now)))
    ensures TReachable(cfg, p, Alone(s, now, store, Resting(now + 2 * Quarter(p.ttl) - 1)))
  {
    var wake := now + 2 * Quarter(p.ttl) - 1;
    AloneWakes(cfg, p, s, now, store);
    TGo(cfg, p, Alone(s, now, store, Calling(now)), TStep.GiveUp(0, 2 * Quarter(p.ttl) - 1));
    assert map[0 := Calling(now)][0 := Resting(wake)] == map[0 := Resting(wake)];
  }

  lemma AloneFailsTwice(cfg: Config, p: Times, s: State, now: int, second: int, a: HV, store: Store)
    requires WholeSeconds(p.ttl) && !p.persists && IsAlone(s, a) && second == now + 2 * Quarter(p.ttl) - 1
    requires TReachable(cfg, p, Alone(s, now, store, Resting(now)))
    ensures TReachable(cfg, p, Alone(s, second, store, Resting(second + 2 * Quarter(p.ttl) - 1)))
  {
    AloneFails(cfg, p, s, now, a, store);
    AloneGo(cfg, p, s, now, store, Resting(second), second - now);
    AloneFails(cfg, p, s, second, a, store);
  }

  /** Two refreshing calls in a row give up, however quickly. */
  lemma AloneGivesUp(cfg: Config, p: Times, s: State, now: int, a: HV, store: Store)
    requires WholeSeconds(p.ttl) && !p.persists && IsAlone(s, a)
    requires TReachable(cfg, p, Alone(s, now, store, Served(now)))
    ensures TReachable(cfg, p, Alone(s, now + 4 * Quarter(p.ttl), store, Resting(now + 6 * Quarter(p.ttl) - 3)))
  {
    var q := Quarter(p.ttl);
    assert q >= 2 by { assert p.ttl >= Second; }
    AloneReturns(cfg, p, s, now, store, 0);
    AloneFailsTwice(cfg, p, s, now + 2 * q - 1, now + 4 * q - 2, a, store);
    AloneEnds(cfg, p, s, now + 4 * q - 2, now + 4 * q, now + 6 * q - 3, store);
  }

  lemma AloneEnds(cfg: Config, p: Times, s: State, now: int, later: int, wake: int, store: Store)
    requires TReachable(cfg, p, Alone(s, now, store, Resting(wake))) && now <= later <= wake
    ensures TReachable(cfg, p, Alone(s, later, store, Resting(wake)))
  {
    AloneGo(cfg, p, s, now, store, Resting(wake), later - now);
  }

  /** A host mounts, and its first refresh is served at once. */
  lemma FirstLease(cfg: Config, p: Times, a: HV)
    requires WholeSeconds(p.ttl) && a in cfg.hosts
    ensures var s, q, u := N.MountedState(Init(cfg), a, 0), Quarter(p.ttl), MountUse(a);
      TReachable(cfg, p, Alone(s, q, N.Locked(Init(cfg), a)[KeyOf(u) := Rec(u, Some(5 * q))], Served(q)))
  {
    var s, q, store := N.MountedState(Init(cfg), a, 0), Quarter(p.ttl), N.Locked(Init(cfg), a);
    FirstMount(cfg, p, a);
    AloneGo(cfg, p, s, 0, store, Resting(q), q);
    AloneWakes(cfg, p, s, q, store);
    AloneServed(cfg, p, s, q, a, store);
  }

  lemma FirstMount(cfg: Config, p: Times, a: HV)
    requires WholeSeconds(p.ttl) && a in cfg.hosts
    ensures var s := N.MountedState(Init(cfg), a, 0);
      TReachable(cfg, p, Alone(s, 0, N.Locked(Init(cfg), a), Resting(Quarter(p.ttl))))
  {
    assert TRun(cfg, p, []) == Some(TInit(cfg));
    MountRun(cfg, p, 0, Init(cfg), map[], a, 0);
    assert map[][0 := Resting(0 + Quarter(p.ttl))] == map[0 := Resting(Quarter(p.ttl))];
  }

  lemma SecondMount(cfg: Config, p: Times, t: Timed, a: HV, b: HV)
    requires WholeSeconds(p.ttl) && TReachable(cfg, p, t) && Mounted(t.s, a) && a != b
    requires b in t.s.hosts && t.s.hosts[b] == N.Fresh && KeyOf(MountUse(b)) !in t.s.store
    requires NoneStopping(t.s, MountUse(b)) && 1 !in t.s.refs
    ensures TwoMounted(cfg, p, a, b)
  {
    MountRun(cfg, p, t.now, t.s, t.phases, b, 1);
    var m := Timed(t.now, N.MountedState(t.s, b, 1), t.phases[1 := Resting(t.now + Quarter(p.ttl))]);
    assert Mounted(m.s, a) && Mounted(m.s, b);
  }

  // ---- Runs without time --------------------------------------------------------------------------------

  /** A state of the cluster at time zero: every refresher waits for its first timer. */
  function AtRest(p: Times, s: State): Timed {
    Timed(0, s, map r | r in s.refs && Running(s, r) :: Resting(Quarter(p.ttl)))
  }

  lemma UntimedStep(cfg: Config, p: Times, s: State, step: Step)
    requires Quarter(p.ttl) > 0 && Untimed(step) && Next(Unruled(cfg), s, step).Some?
    ensures TNext(cfg, p, AtRest(p, s), Do(step, Quarter(p.ttl)))
         == Some(AtRest(p, Next(Unruled(cfg), s, step).value))
  {
    var t, after := AtRest(p, s), Next(Unruled(cfg), s, step).value;
    var phases := PhasesAfter(cfg, t, step, after, Quarter(p.ttl));
    forall r ensures r in phases <==> Running(after, r) {
      if r in s.refs {
        RefsNext(Unruled(cfg), s, step, r);
      } else {
        NewRefs(Unruled(cfg), s, step, r);
      }
    }
    assert phases == AtRest(p, after).phases;
  }

  /** What the cluster can do without refreshing a lease or letting one lapse takes no time. */
  lemma {:induction false} UntimedTakesNoTime(cfg: Config, p: Times, steps: seq<Step>)
    requires Quarter(p.ttl) > 0 && RunFrom(Unruled(cfg), Init(cfg), steps).Some? && forall x <- steps :: Untimed(x)
    ensures TReachable(cfg, p, AtRest(p, RunFrom(Unruled(cfg), Init(cfg), steps).value))
    decreases |steps|
  {
    if steps == [] {
      assert TRun(cfg, p, []) == Some(TInit(cfg)) && AtRest(p, Init(cfg)) == TInit(cfg);
    } else {
      var front, last := steps[..|steps| - 1], steps[|steps| - 1];
      UntimedTakesNoTime(cfg, p, front);
      var s := RunFrom(Unruled(cfg), Init(cfg), front).value;
      UntimedStep(cfg, p, s, last);
      TGo(cfg, p, AtRest(p, s), Do(last, Quarter(p.ttl)));
    }
  }

  /** The assumptions that are not about time are needed here, too. */
  lemma OthersNeeded(cfg: Config, p: Times, a: HV, b: HV)
    requires WholeSeconds(p.ttl) && !N.OtherRules(cfg.rules)
    requires a in cfg.hosts && b in cfg.hosts && a != b && a.volume == b.volume
    ensures TwoMounted(cfg, p, a, b)
  {
    var s := N.OtherExposes(Unruled(cfg), a);
    assert Init(Unruled(cfg)) == Init(cfg);
    var steps :| RunFrom(Unruled(cfg), Init(cfg), steps) == Some(s) && forall x <- steps :: Untimed(x);
    UntimedTakesNoTime(cfg, p, steps);
    SecondMount(cfg, p, AtRest(p, s), a, b);
  }

  /** So are prompt refreshing calls. */
  lemma PromptNeeded(cfg: Config, p: Times, a: HV, b: HV)
    requires WholeSeconds(p.ttl) && !Prompt(p)
    requires a in cfg.hosts && b in cfg.hosts && a != b && a.volume == b.volume
    ensures TwoMounted(cfg, p, a, b)
  {
    var s, q, u := N.MountedState(Init(cfg), a, 0), Quarter(p.ttl), MountUse(a);
    var leased := N.Locked(Init(cfg), a)[KeyOf(u) := Rec(u, Some(5 * q))];
    var phase := if p.persists then Calling(4 * q) else Resting(7 * q - 3);
    FirstLease(cfg, p, a);
    if p.persists {
      AloneSlow(cfg, p, s, q, leased);
    } else {
      AloneGivesUp(cfg, p, s, q, a, leased);
    }
    AloneLapse(cfg, p, s, 5 * q, a, leased, phase);
    SecondMount(cfg, p, Alone(s, 5 * q, leased - {KeyOf(u)}, phase), a, b);
  }

  /** Mount exclusion holds in every state of the cluster with clocks exactly when refreshing calls
      persist and take at most a quarter of the TTL, nobody removes mount keys by force, a failed mount
      can be undone, a mount path never fails after its mount, and a stopped refresher is done before
      its host's next mount request. */
  lemma TimedExclusionExactly(cfg: Config, p: Times, a: HV, b: HV)
    requires WellFormed(cfg) && WholeSeconds(p.ttl)
    requires a in cfg.hosts && b in cfg.hosts && a != b && a.volume == b.volume
    ensures !TwoMounted(cfg, p, a, b) <==> N.OtherRules(cfg.rules) && Prompt(p)
  {
    if !N.OtherRules(cfg.rules) {
      OthersNeeded(cfg, p, a, b);
    } else if !Prompt(p) {
      PromptNeeded(cfg, p, a, b);
    } else {
      forall t | TReachable(cfg, p, t) ensures !(Mounted(t.s, a) && Mounted(t.s, b)) {
        if Mounted(t.s, a) && Mounted(t.s, b) {
          TimedMountsAreExclusive(cfg, p, t, a, b);
        }
      }
    }
  }
}
