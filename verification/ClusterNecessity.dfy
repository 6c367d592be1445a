/** The assumptions of ClusterSafety are exact: with any one of them gone there is a run that
    breaks the guarantee. The runs are built for every configuration that can tell. */
module ClusterNecessity {
  import opened Wrappers
  import opened UseLocks
  import opened Cluster
  import opened ClusterSafety

  const Fresh := HostVol(Idle, 0, false, false, None)

  /** The state b with the store and one host's handler replaced. */
  function At(b: State, store: Store, hv: HV, h: HostVol): State {
    State(store, b.jobs, b.hosts[hv := h], b.refs)
  }

  // ---- Single steps of a handler ------------------------------------------------------------

  lemma RequestNext(cfg: Config, b: State, store: Store, hv: HV, h: HostVol, unmount: bool)
    requires h.pc == Idle && (!unmount && cfg.rules.settled ==> NoneStopping(b, MountUse(hv)))
    ensures Next(cfg, At(b, store, hv, h), if unmount then UnmountRequest(hv) else MountRequest(hv))
         == Some(At(b, store, hv, h.(pc := if unmount then UPublish else MPublish)))
  {
    var s := At(b, store, hv, h);
    assert forall r :: Stopping(b, MountUse(hv), r) <==> Stopping(s, MountUse(hv), r);
    assert s.hosts[hv := h.(pc := if unmount then UPublish else MPublish)]
        == b.hosts[hv := h.(pc := if unmount then UPublish else MPublish)];
  }

  /** A delivered request of a handler that does not start a refresher. */
  lemma CallNext(cfg: Config, b: State, store: Store, hv: HV, h: HostVol, after: Store, reply: Reply)
    requires HostRequest(hv, h.pc).Some? && Perform(store, HostRequest(hv, h.pc).value) == (after, reply)
    requires h.pc in {MRefresh, MRefreshSwap} ==> reply != Done
    ensures Next(cfg, At(b, store, hv, h), HostCall(hv, Delivered, false, 0))
         == Some(At(b, after, hv, h.(pc := HostReply(h.pc, reply, false))))
  {
    var x := h.(pc := HostReply(h.pc, reply, false));
    assert b.hosts[hv := h][hv := x] == b.hosts[hv := x];
  }

  /** A local step of a handler that does not send the stop signal. */
  lemma LocalNext(cfg: Config, b: State, store: Store, hv: HV, h: HostVol, ok: bool, left: bool)
    requires !StopsIts(h.pc, ok) && HandlerLocal(h, cfg.rules, ok, left).Some?
    ensures Next(cfg, At(b, store, hv, h), HostLocal(hv, ok, left))
         == Some(At(b, store, hv, HandlerLocal(h, cfg.rules, ok, left).value))
  {
    var x := HandlerLocal(h, cfg.rules, ok, left).value;
    assert b.hosts[hv := h][hv := x] == b.hosts[hv := x];
  }

  /** The delivered request with which a handler starts its refresher. */
  lemma RefresherNext(cfg: Config, b: State, store: Store, hv: HV, h: HostVol, id: nat)
    requires h.pc == MRefreshSwap && HoldsForever(store, MountUse(hv)) && id !in b.refs
    ensures Next(cfg, At(b, store, hv, h), HostCall(hv, Delivered, false, id))
         == Some(State(store, b.jobs, b.hosts[hv := h.(pc := MPath, chan := Some(id))],
                       b.refs[id := Refresher(MountUse(hv), Waiting, false)]))
  {
    var x := h.(pc := MPath, chan := Some(id));
    assert store[KeyOf(MountUse(hv)) := Rec(MountUse(hv), None)] == store;
    assert b.hosts[hv := h][hv := x] == b.hosts[hv := x];
  }

  lemma RequestAt(cfg: Config, o: State, b: State, store: Store, hv: HV, h: HostVol, unmount: bool)
    requires UntimedLeads(cfg, o, At(b, store, hv, h)) && h.pc == Idle
    requires !unmount && cfg.rules.settled ==> NoneStopping(b, MountUse(hv))
    ensures UntimedLeads(cfg, o, At(b, store, hv, h.(pc := if unmount then UPublish else MPublish)))
  {
    RequestNext(cfg, b, store, hv, h, unmount);
    var t := UntimedGo(cfg, o, At(b, store, hv, h), if unmount then UnmountRequest(hv) else MountRequest(hv));
  }

  lemma CallAt(cfg: Config, o: State, b: State, store: Store, hv: HV, h: HostVol, after: Store, reply: Reply)
    requires UntimedLeads(cfg, o, At(b, store, hv, h)) && HostRequest(hv, h.pc).Some?
    requires Perform(store, HostRequest(hv, h.pc).value) == (after, reply)
    requires h.pc in {MRefresh, MRefreshSwap} ==> reply != Done
    ensures UntimedLeads(cfg, o, At(b, after, hv, h.(pc := HostReply(h.pc, reply, false))))
  {
    CallNext(cfg, b, store, hv, h, after, reply);
    var t := UntimedGo(cfg, o, At(b, store, hv, h), HostCall(hv, Delivered, false, 0));
  }

  /** A request of a handler that is lost on its way. */
  lemma LostAt(cfg: Config, o: State, b: State, store: Store, hv: HV, h: HostVol)
    requires UntimedLeads(cfg, o, At(b, store, hv, h)) && HostRequest(hv, h.pc).Some?
    ensures UntimedLeads(cfg, o, At(b, store, hv, h.(pc := HostReply(h.pc, NetError, false))))
  {
    var t := UntimedGo(cfg, o, At(b, store, hv, h), HostCall(hv, RequestLost, false, 0));
    assert t == At(b, store, hv, h.(pc := HostReply(h.pc, NetError, false)));
  }

  lemma LocalAt(cfg: Config, o: State, b: State, store: Store, hv: HV, h: HostVol, ok: bool, left: bool)
    requires UntimedLeads(cfg, o, At(b, store, hv, h)) && !StopsIts(h.pc, ok)
    requires HandlerLocal(h, cfg.rules, ok, left).Some?
    ensures UntimedLeads(cfg, o, At(b, store, hv, HandlerLocal(h, cfg.rules, ok, left).value))
  {
    LocalNext(cfg, b, store, hv, h, ok, left);
    var t := UntimedGo(cfg, o, At(b, store, hv, h), HostLocal(hv, ok, left));
  }

  lemma RefresherAt(cfg: Config, o: State, b: State, store: Store, hv: HV, h: HostVol, id: nat)
    requires UntimedLeads(cfg, o, At(b, store, hv, h)) && h.pc == MRefreshSwap
    requires HoldsForever(store, MountUse(hv)) && id !in b.refs
    ensures UntimedLeads(cfg, o, State(store, b.jobs, b.hosts[hv := h.(pc := MPath, chan := Some(id))],
                                b.refs[id := Refresher(MountUse(hv), Waiting, false)]))
  {
    RefresherNext(cfg, b, store, hv, h, id);
    var t := UntimedGo(cfg, o, At(b, store, hv, h), HostCall(hv, Delivered, false, id));
  }

  /** A local step that sends the stop signal. */
  lemma StopAt(cfg: Config, o: State, b: State, store: Store, hv: HV, h: HostVol, ok: bool)
    requires UntimedLeads(cfg, o, At(b, store, hv, h)) && StopsIts(h.pc, ok)
    requires HandlerLocal(h, cfg.rules, ok, false).Some?
    ensures UntimedLeads(cfg, o, State(store, b.jobs, b.hosts[hv := HandlerLocal(h, cfg.rules, ok, false).value],
                                StopRefresher(b.refs, h.chan)))
  {
    var t := UntimedGo(cfg, o, At(b, store, hv, h), HostLocal(hv, ok, false));
    assert t.hosts == b.hosts[hv := HandlerLocal(h, cfg.rules, ok, false).value];
  }

  function Locked(s: State, hv: HV): Store {
    s.store[KeyOf(MountUse(hv)) := Rec(MountUse(hv), None)]
  }

  /** A mount request up to the driver's mount, on a key that is free or the host's own. */
  lemma EnterRun(cfg: Config, o: State, s: State, hv: HV)
    requires UntimedLeads(cfg, o, s) && hv in s.hosts && s.hosts[hv] == Fresh
    requires KeyOf(MountUse(hv)) !in s.store || Holds(s.store, MountUse(hv))
    requires cfg.rules.settled ==> NoneStopping(s, MountUse(hv))
    ensures UntimedLeads(cfg, o, At(s, Locked(s, hv), hv, HostVol(MDriver, 1, false, false, None)))
  {
    assert s == At(s, s.store, hv, Fresh);
    RequestAt(cfg, o, s, s.store, hv, Fresh, false);
    if KeyOf(MountUse(hv)) in s.store {
      CallAt(cfg, o, s, s.store, hv, Fresh.(pc := MPublish), s.store, NodeExist);
      CallAt(cfg, o, s, s.store, hv, Fresh.(pc := MSwap), Locked(s, hv), Done);
    } else {
      CallAt(cfg, o, s, s.store, hv, Fresh.(pc := MPublish), Locked(s, hv), Done);
    }
    LocalAt(cfg, o, s, Locked(s, hv), hv, Fresh.(pc := MCount), true, false);
  }

  /** A mount request of an idle host with no history, up to the mount path. */
  lemma MountedRun(cfg: Config, o: State, s: State, hv: HV, id: nat)
    requires UntimedLeads(cfg, o, s) && hv in s.hosts && s.hosts[hv] == Fresh
    requires KeyOf(MountUse(hv)) !in s.store && id !in s.refs
    requires cfg.rules.settled ==> NoneStopping(s, MountUse(hv))
    ensures UntimedLeads(cfg, o, StartedState(s, hv, id))
  {
    EnterRun(cfg, o, s, hv);
    LocalAt(cfg, o, s, Locked(s, hv), hv, HostVol(MDriver, 1, false, false, None), true, false);
    CallAt(cfg, o, s, Locked(s, hv), hv, HostVol(MRefresh, 1, true, true, None), Locked(s, hv), NodeExist);
    RefresherAt(cfg, o, s, Locked(s, hv), hv, HostVol(MRefreshSwap, 1, true, true, None), id);
  }

  /** A mount request has started its refresher, and the mount path is next. */
  function StartedState(s: State, hv: HV, id: nat): State {
    State(Locked(s, hv), s.jobs, s.hosts[hv := HostVol(MPath, 1, true, true, Some(id))],
          s.refs[id := Refresher(MountUse(hv), Waiting, false)])
  }

  /** What a whole mount request leaves. */
  function MountedState(s: State, hv: HV, id: nat): State {
    State(Locked(s, hv), s.jobs, s.hosts[hv := HostVol(Idle, 1, true, true, Some(id))],
          s.refs[id := Refresher(MountUse(hv), Waiting, false)])
  }

  lemma PathNext(cfg: Config, s: State, hv: HV, id: nat)
    ensures Next(cfg, StartedState(s, hv, id), HostLocal(hv, true, false)) == Some(MountedState(s, hv, id))
  {
    var started, store := StartedState(s, hv, id), Locked(s, hv);
    var x, y := HostVol(MPath, 1, true, true, Some(id)), HostVol(Idle, 1, true, true, Some(id));
    assert started.hosts[hv := x] == started.hosts && started.hosts[hv := y] == s.hosts[hv := y];
    LocalNext(cfg, started, store, hv, x, true, false);
    assert started == At(started, store, hv, x) && MountedState(s, hv, id) == At(started, store, hv, y);
  }

  /** A whole mount request of an idle host with no history. */
  lemma MountRun(cfg: Config, o: State, s: State, hv: HV, id: nat)
    requires UntimedLeads(cfg, o, s) && hv in s.hosts && s.hosts[hv] == Fresh
    requires KeyOf(MountUse(hv)) !in s.store && id !in s.refs
    requires cfg.rules.settled ==> NoneStopping(s, MountUse(hv))
    ensures UntimedLeads(cfg, o, MountedState(s, hv, id))
  {
    MountedRun(cfg, o, s, hv, id);
    PathNext(cfg, s, hv, id);
    var t := UntimedGo(cfg, o, StartedState(s, hv, id), HostLocal(hv, true, false));
  }

  lemma MountReached(cfg: Config, s: State, hv: HV, id: nat) returns (t: State)
    requires Reachable(cfg, s) && hv in s.hosts && s.hosts[hv] == Fresh
    requires KeyOf(MountUse(hv)) !in s.store && id !in s.refs
    requires cfg.rules.settled ==> NoneStopping(s, MountUse(hv))
    ensures Reachable(cfg, t) && t == MountedState(s, hv, id)
  {
    UntimedStart(cfg, s);
    MountRun(cfg, s, s, hv, id);
    t := MountedState(s, hv, id);
    UntimedOn(cfg, s, t);
  }

  /** An unmount request up to the driver. */
  lemma LeaveRun(cfg: Config, o: State, s: State, hv: HV, id: nat)
    requires UntimedLeads(cfg, o, s) && hv in s.hosts && Holds(s.store, MountUse(hv))
    requires s.hosts[hv] == HostVol(Idle, 1, true, true, Some(id))
    ensures UntimedLeads(cfg, o, At(s, Locked(s, hv), hv, HostVol(UDriver, 0, true, true, Some(id))))
  {
    var h := s.hosts[hv];
    assert s == At(s, s.store, hv, h);
    RequestAt(cfg, o, s, s.store, hv, h, true);
    CallAt(cfg, o, s, s.store, hv, HostVol(UPublish, 1, true, true, Some(id)), s.store, NodeExist);
    CallAt(cfg, o, s, s.store, hv, HostVol(USwap, 1, true, true, Some(id)), Locked(s, hv), Done);
    LocalAt(cfg, o, s, Locked(s, hv), hv, HostVol(UCount, 1, true, true, Some(id)), true, false);
  }

  lemma UnmountRun(cfg: Config, o: State, s: State, hv: HV, id: nat) returns (t: State)
    requires UntimedLeads(cfg, o, s) && hv in s.hosts && id in s.refs
    requires s.hosts[hv] == HostVol(Idle, 1, true, true, Some(id)) && Holds(s.store, MountUse(hv))
    ensures UntimedLeads(cfg, o, t)
    ensures t == State(Locked(s, hv), s.jobs, s.hosts[hv := Fresh],
                       s.refs[id := s.refs[id].(stopped := true)])
  {
    LeaveRun(cfg, o, s, hv, id);
    LocalAt(cfg, o, s, Locked(s, hv), hv, HostVol(UDriver, 0, true, true, Some(id)), true, false);
    StopAt(cfg, o, s, Locked(s, hv), hv, HostVol(UFinish, 0, true, false, Some(id)), true);
    t := State(Locked(s, hv), s.jobs, s.hosts[hv := Fresh], s.refs[id := s.refs[id].(stopped := true)]);
  }

  // ---- Mounted without a lock ---------------------------------------------------------------

  /** A host has a volume mounted although no lock of any kind is in place; nothing else has
      happened yet. */
  ghost predicate Exposed(cfg: Config, s: State, a: HV) {
    && Mounted(s, a) && s.store == map[] && s.jobs == Init(cfg).jobs
    && s.hosts.Keys == cfg.hosts && 1 !in s.refs
    && forall b <- cfg.hosts :: b != a ==> s.hosts[b] == Fresh && NoneStopping(s, MountUse(b))
  }

  /** What is exposed after a run that has touched host a only. */
  lemma ExposedAt(cfg: Config, s: State, a: HV)
    requires a in cfg.hosts && Mounted(s, a) && s.store == map[]
    requires s.jobs == Init(cfg).jobs && s.hosts == Init(cfg).hosts[a := s.hosts[a]]
    requires s.refs.Keys <= {0} && (0 in s.refs ==> s.refs[0].use == MountUse(a))
    ensures Exposed(cfg, s, a)
  {
    forall b | b in cfg.hosts && b != a ensures s.hosts[b] == Fresh && NoneStopping(s, MountUse(b)) {
      assert MountUse(b) != MountUse(a);
    }
  }

  lemma LapseExposes(cfg: Config, a: HV) returns (s: State)
    requires a in cfg.hosts && !cfg.rules.leasesHold
    ensures Reachable(cfg, s) && Exposed(cfg, s, a)
  {
    Start(cfg);
    s := MountReached(cfg, Init(cfg), a, 0);
    s := Go(cfg, s, Refresh(0, Some(0), Delivered));
    s := Go(cfg, s, Lapse(KeyOf(MountUse(a))));
    ExposedAt(cfg, s, a);
  }

  /** The assumptions of mount exclusion that are not about time. */
  predicate OtherRules(r: Rules) {
    r.settled && r.undoWorks && r.pathWorks && r.mountsUnforced
  }

  /** No lease needs to be refreshed or to lapse for what follows. */
  ghost predicate UntimedExposed(cfg: Config, s: State, a: HV) {
    UntimedLeads(cfg, Init(cfg), s) && Exposed(cfg, s, a)
  }

  lemma ForceExposes(cfg: Config, a: HV) returns (s: State)
    requires a in cfg.hosts && !cfg.rules.mountsUnforced
    ensures UntimedExposed(cfg, s, a)
  {
    var o := Init(cfg);
    UntimedStart(cfg, o);
    MountRun(cfg, o, o, a, 0);
    s := UntimedGo(cfg, o, MountedState(o, a, 0), Force(KeyOf(MountUse(a))));
    ExposedAt(cfg, s, a);
  }

  /** The driver's mount fails leaving the volume mounted, its unmount fails too, and the
      lock is cleared all the same. */
  lemma FailedUndoExposes(cfg: Config, a: HV) returns (s: State)
    requires a in cfg.hosts && !cfg.rules.undoWorks
    ensures UntimedExposed(cfg, s, a)
  {
    var b := Init(cfg);
    UntimedStart(cfg, b);
    EnterRun(cfg, b, b, a);
    FailedUndoRun(cfg, b, b, a);
    s := At(b, map[], a, HostVol(Idle, 1, false, true, None));
    ExposedAt(cfg, s, a);
  }

  lemma FailedUndoRun(cfg: Config, o: State, b: State, a: HV)
    requires !cfg.rules.undoWorks && b.store == map[]
    requires UntimedLeads(cfg, o, At(b, Locked(b, a), a, HostVol(MDriver, 1, false, false, None)))
    ensures UntimedLeads(cfg, o, At(b, map[], a, HostVol(Idle, 1, false, true, None)))
  {
    LocalAt(cfg, o, b, Locked(b, a), a, HostVol(MDriver, 1, false, false, None), false, true);
    LocalAt(cfg, o, b, Locked(b, a), a, HostVol(MUndo, 1, false, true, None), false, false);
    CallAt(cfg, o, b, Locked(b, a), a, HostVol(MClear, 1, false, true, None), map[], Done);
  }

  /** The mount path fails after the mount: the refresher is stopped, and removes the lock, before
      the volume is unmounted. */
  lemma FailedPathExposes(cfg: Config, a: HV) returns (s: State)
    requires a in cfg.hosts && !cfg.rules.pathWorks
    ensures UntimedExposed(cfg, s, a)
  {
    var o := Init(cfg);
    UntimedStart(cfg, o);
    MountedRun(cfg, o, o, a, 0);
    s := UntimedGo(cfg, o, StartedState(o, a, 0), HostLocal(a, false, false));
    s := UntimedGo(cfg, o, s, RefreshStop(0, Delivered));
    ExposedAt(cfg, s, a);
  }

  /** Up to the refresher of a host's mount, over a lock that it still holds. */
  lemma RemountRun(cfg: Config, o: State, s: State, hv: HV)
    requires UntimedLeads(cfg, o, s) && hv in s.hosts && s.hosts[hv] == Fresh && !cfg.rules.settled
    requires Holds(s.store, MountUse(hv))
    ensures UntimedLeads(cfg, o, At(s, Locked(s, hv), hv, HostVol(MRefresh, 1, true, true, None)))
  {
    EnterRun(cfg, o, s, hv);
    LocalAt(cfg, o, s, Locked(s, hv), hv, HostVol(MDriver, 1, false, false, None), true, false);
  }

  /** A host unmounts and mounts again before its stopped refresher has run: the refresher
      then removes, by content, the lock of the new mount. */
  lemma SlowStopExposes(cfg: Config, a: HV) returns (s: State)
    requires a in cfg.hosts && !cfg.rules.settled
    ensures UntimedExposed(cfg, s, a)
  {
    var o := Init(cfg);
    UntimedStart(cfg, o);
    MountRun(cfg, o, o, a, 0);
    s := UnmountRun(cfg, o, MountedState(o, a, 0), a, 0);
    RemountRun(cfg, o, s, a);
    s := UntimedGo(cfg, o, At(s, Locked(s, a), a, HostVol(MRefresh, 1, true, true, None)), RefreshStop(0, Delivered));
    ExposedAt(cfg, s, a);
  }

  lemma OtherExposes(cfg: Config, a: HV) returns (s: State)
    requires a in cfg.hosts && !OtherRules(cfg.rules)
    ensures UntimedExposed(cfg, s, a)
  {
    if !cfg.rules.mountsUnforced {
      s := ForceExposes(cfg, a);
    } else if !cfg.rules.undoWorks {
      s := FailedUndoExposes(cfg, a);
    } else if !cfg.rules.pathWorks {
      s := FailedPathExposes(cfg, a);
    } else {
      s := SlowStopExposes(cfg, a);
    }
  }

  /** With any one assumption gone a host can be left without its lock. */
  lemma AnyExposes(cfg: Config, a: HV) returns (s: State)
    requires a in cfg.hosts && !AllRules(cfg.rules)
    ensures Reachable(cfg, s) && Exposed(cfg, s, a)
  {
    if OtherRules(cfg.rules) {
      s := LapseExposes(cfg, a);
    } else {
      s := OtherExposes(cfg, a);
      Start(cfg);
      UntimedOn(cfg, Init(cfg), s);
    }
  }

  // ---- Mount exclusion ----------------------------------------------------------------------

  ghost predicate TwoMounted(cfg: Config, a: HV, b: HV) {
    exists s :: Reachable(cfg, s) && Mounted(s, a) && Mounted(s, b)
  }

  /** Mount exclusion holds in every reachable state exactly when nobody removes mount keys
      by force, no lease of a running refresher lapses, a failed mount can be undone, a mount
      path never fails after its mount, and a stopped refresher is done before its host's next
      mount request. */
  lemma MountExclusionExactly(cfg: Config, a: HV, b: HV)
    requires WellFormed(cfg)
    requires a in cfg.hosts && b in cfg.hosts && a != b && a.volume == b.volume
    ensures !TwoMounted(cfg, a, b) <==> AllRules(cfg.rules)
  {
    if AllRules(cfg.rules) {
      forall s | Reachable(cfg, s) ensures !(Mounted(s, a) && Mounted(s, b)) {
        if Mounted(s, a) && Mounted(s, b) {
          MountsAreExclusive(cfg, s, a, b);
        }
      }
    } else {
      var s := AnyExposes(cfg, a);
      s := MountReached(cfg, s, b, 1);
      assert Mounted(s, a) && Mounted(s, b);
    }
  }
}
