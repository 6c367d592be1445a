/** The handlers of the cluster model, step by step, against those of the host model, request by
    request: every request of the host model is a run of the cluster, and leaves its volume in the
    same state. */
module HandlerRefinement {
  import opened Wrappers
  import opened UseLocks
  import opened Cluster
  import H = HostMounts
  import LockDriver
  import N = ClusterNecessity

  // ---- The two views -----------------------------------------------------------------------

  /** The two models' views of one locked volume. */
  predicate Agree(h: H.Host, v: string, x: HostVol) {
    && x.count == H.Count(h.count, v)
    && (x.collected <==> v in h.collected)
    && (x.mounted <==> v in h.mounted)
    && (x.chan.Some? <==> v in h.stops)
  }

  /** A channel is recorded only while the volume is in the collection. */
  predicate ChannelFits(x: HostVol) {
    x.chan.Some? ==> x.collected
  }

  /** The answers are possible in this state: a publish can only succeed on a key that is free or
      the host's own, and the drivers work as far as the rules say so. */
  predicate Possible(cfg: Config, store: Store, hv: HV, w: H.World) {
    && (w.lock ==> KeyOf(MountUse(hv)) !in store || Holds(store, MountUse(hv)))
    && (cfg.rules.undoWorks ==> w.unmount) && (cfg.rules.pathWorks ==> w.path)
  }

  function Lock(store: Store, hv: HV): Store {
    store[KeyOf(MountUse(hv)) := Rec(MountUse(hv), None)]
  }

  /** A run, in which no lease is refreshed or lapses, leads from o to t, in which the host is idle
      again after a request, and nothing but its own volume, the store and the refreshers differs
      from b. */
  ghost predicate Served(cfg: Config, o: State, b: State, t: State, hv: HV, x: HostVol) {
    UntimedLeads(cfg, o, t) && x.pc.Idle? && t.hosts == b.hosts[hv := x] && t.jobs == b.jobs
  }

  // ---- Runs of a handler -------------------------------------------------------------------

  lemma PublishRun(cfg: Config, o: State, hv: HV, h: HostVol, unmount: bool)
    requires hv in o.hosts && o.hosts[hv] == h && h.pc.Idle?
    requires !unmount && cfg.rules.settled ==> NoneStopping(o, MountUse(hv))
    requires KeyOf(MountUse(hv)) !in o.store || Holds(o.store, MountUse(hv))
    ensures UntimedLeads(cfg, o, N.At(o, Lock(o.store, hv), hv, h.(pc := if unmount then UCount else MCount)))
  {
    assert o == N.At(o, o.store, hv, h);
    UntimedStart(cfg, o);
    N.RequestAt(cfg, o, o, o.store, hv, h, unmount);
    var x := h.(pc := if unmount then UPublish else MPublish);
    if KeyOf(MountUse(hv)) in o.store {
      N.CallAt(cfg, o, o, o.store, hv, x, o.store, NodeExist);
      N.CallAt(cfg, o, o, o.store, hv, x.(pc := if unmount then USwap else MSwap), Lock(o.store, hv), Done);
    } else {
      N.CallAt(cfg, o, o, o.store, hv, x, Lock(o.store, hv), Done);
    }
  }

  /** A publish that fails ends the request. */
  lemma RefusedRun(cfg: Config, o: State, hv: HV, h: HostVol, unmount: bool) returns (t: State)
    requires hv in o.hosts && o.hosts[hv] == h && h.pc.Idle?
    requires !unmount && cfg.rules.settled ==> NoneStopping(o, MountUse(hv))
    ensures Served(cfg, o, o, t, hv, h)
  {
    assert o == N.At(o, o.store, hv, h);
    UntimedStart(cfg, o);
    N.RequestAt(cfg, o, o, o.store, hv, h, unmount);
    N.LostAt(cfg, o, o, o.store, hv, h.(pc := if unmount then UPublish else MPublish));
    t := N.At(o, o.store, hv, h);
  }

  /** clearMount: the driver's unmount, whatever it says, and the removal of the lock. */
  lemma UndoRun(cfg: Config, o: State, b: State, store: Store, hv: HV, x: HostVol, w: H.World) returns (t: State)
    requires UntimedLeads(cfg, o, N.At(b, store, hv, x)) && x.pc.MUndo? && Holds(store, MountUse(hv))
    requires cfg.rules.undoWorks ==> w.unmount
    ensures Served(cfg, o, b, t, hv, x.(pc := Idle, mounted := x.mounted && !w.unmount))
  {
    N.LocalAt(cfg, o, b, store, hv, x, w.unmount, false);
    var y := x.(pc := MClear, mounted := x.mounted && !w.unmount);
    N.CallAt(cfg, o, b, store, hv, y, store - {KeyOf(MountUse(hv))}, Done);
    t := N.At(b, store - {KeyOf(MountUse(hv))}, hv, y.(pc := Idle));
  }

  /** From the refresher's publish on. */
  lemma RefreshRun(cfg: Config, o: State, b: State, hv: HV, x: HostVol, w: H.World, id: nat) returns (t: State)
    requires UntimedLeads(cfg, o, N.At(b, Lock(b.store, hv), hv, x)) && x.pc.MRefresh? && id !in b.refs
    requires Possible(cfg, b.store, hv, w) && x.chan.None?
    ensures Served(cfg, o, b, t, hv,
                   if w.refresh && w.path then x.(pc := Idle, chan := Some(id))
                   else x.(pc := Idle, mounted := x.mounted && !w.unmount))
  {
    var store := Lock(b.store, hv);
    if !w.refresh {
      N.LostAt(cfg, o, b, store, hv, x);
      t := UndoRun(cfg, o, b, store, hv, x.(pc := MUndo), w);
    } else {
      N.CallAt(cfg, o, b, store, hv, x, store, NodeExist);
      N.RefresherAt(cfg, o, b, store, hv, x.(pc := MRefreshSwap), id);
      var started := State(b.store, b.jobs, b.hosts, b.refs[id := Refresher(MountUse(hv), Waiting, false)]);
      var y := x.(pc := MPath, chan := Some(id));
      assert N.At(started, store, hv, y).hosts == b.hosts[hv := y];
      t := PathRun(cfg, o, started, store, hv, y, w);
    }
  }

  /** The mount path, or its failure: the stop signal and clearMount. */
  lemma PathRun(cfg: Config, o: State, b: State, store: Store, hv: HV, y: HostVol, w: H.World) returns (t: State)
    requires UntimedLeads(cfg, o, N.At(b, store, hv, y)) && y.pc.MPath? && Holds(store, MountUse(hv))
    requires (cfg.rules.undoWorks ==> w.unmount) && (cfg.rules.pathWorks ==> w.path)
    ensures Served(cfg, o, b, t, hv,
                   if w.path then y.(pc := Idle)
                   else y.(pc := Idle, chan := None, mounted := y.mounted && !w.unmount))
  {
    if w.path {
      N.LocalAt(cfg, o, b, store, hv, y, true, false);
      t := N.At(b, store, hv, y.(pc := Idle));
    } else {
      N.StopAt(cfg, o, b, store, hv, y, false);
      var stopped := State(store, b.jobs, b.hosts, StopRefresher(b.refs, y.chan));
      var x := y.(pc := MUndo, chan := None);
      assert N.At(stopped, store, hv, x).hosts == b.hosts[hv := x];
      t := UndoRun(cfg, o, stopped, store, hv, x, w);
    }
  }

  /** From the driver's mount on. */
  lemma DriverRun(cfg: Config, o: State, b: State, hv: HV, x: HostVol, w: H.World, id: nat)
    returns (t: State, y: HostVol)
    requires UntimedLeads(cfg, o, N.At(b, Lock(b.store, hv), hv, x)) && x.pc.MDriver? && id !in b.refs
    requires Possible(cfg, b.store, hv, w) && ChannelFits(x)
    ensures Served(cfg, o, b, t, hv, y) && ChannelFits(y)
    ensures forall h: H.Host :: Agree(h, hv.volume, x) ==>
              Agree(H.FirstMount(true, h, hv.volume, w).0, hv.volume, y)
  {
    var store := Lock(b.store, hv);
    N.LocalAt(cfg, o, b, store, hv, x, w.mount, w.left);
    if !w.mount {
      y := x.(pc := Idle, mounted := (x.mounted || w.left) && !w.unmount);
      t := UndoRun(cfg, o, b, store, hv, x.(pc := MUndo, mounted := x.mounted || w.left), w);
    } else if x.collected {
      y := x.(pc := Idle, mounted := true);
      t := N.At(b, store, hv, y);
    } else {
      var z := x.(pc := MRefresh, mounted := true, collected := true);
      t := RefreshRun(cfg, o, b, hv, z, w, id);
      y := if w.refresh && w.path then z.(pc := Idle, chan := Some(id))
           else z.(pc := Idle, mounted := !w.unmount);
    }
  }

  // ---- Requests of a handler -----------------------------------------------------------------

  /** Where a handler goes on after a publish: on failure the request ends, or the mount is undone. */
  function Onward(pc: Pc, ok: bool): Pc
    requires pc in {MPublish, MRefresh, UPublish}
  {
    match pc
    case MPublish => if ok then MCount else Idle
    case MRefresh => if ok then MPath else MUndo
    case UPublish => if ok then UCount else Idle
  }

  lemma HandlerCalls(cfg: Config, s: State, hv: HV, net: Net, id: nat)
    requires hv in s.hosts && HostRequest(hv, s.hosts[hv].pc).Some? && id !in s.refs
    ensures Next(cfg, s, HostCall(hv, net, false, id)).Some?
    ensures var t := Next(cfg, s, HostCall(hv, net, false, id)).value;
      var (store, reply) := Send(s.store, HostRequest(hv, s.hosts[hv].pc).value, net);
      && t.store == store && hv in t.hosts
      && t.hosts[hv].pc == HostReply(s.hosts[hv].pc, reply, false)
      && (reply != Done ==> t.refs == s.refs)
  {
  }

  /** A handler's one or two requests at a publish, with others' requests in between, are PublishUse,
      whose answer decides where it goes on. */
  lemma HandlerPublishes(cfg: Config, s: State, hv: HV, w: Weather, id: nat)
    requires hv in s.hosts && s.hosts[hv].pc in {MPublish, MRefresh, UPublish} && id !in s.refs
    ensures Next(cfg, s, HostCall(hv, w.first, false, id)).Some?
    ensures var (store, r) := Publish(s.store, MountUse(hv), w);
      var onward := Onward(s.hosts[hv].pc, r == Done);
      var t := Next(cfg, s, HostCall(hv, w.first, false, id)).value;
      hv in t.hosts &&
      if t.hosts[hv].pc in {MSwap, MRefreshSwap, USwap} then
        var m := t.(store := PerformAll(t.store, w.between));
        var next := Next(cfg, m, HostCall(hv, w.second, false, id));
        next.Some? && next.value.store == store && hv in next.value.hosts && next.value.hosts[hv].pc == onward
      else t.store == store && t.hosts[hv].pc == onward
  {
    HandlerCalls(cfg, s, hv, w.first, id);
    var t := Next(cfg, s, HostCall(hv, w.first, false, id)).value;
    if t.hosts[hv].pc in {MSwap, MRefreshSwap, USwap} {
      HandlerCalls(cfg, t.(store := PerformAll(t.store, w.between)), hv, w.second, id);
    }
  }

  /** Its requests in clearMount are those of the clear loop, which goes on until one succeeds or it gives
      up. */
  lemma HandlerClears(cfg: Config, s: State, hv: HV, t: LockDriver.Turn, giveUp: bool, id: nat)
    requires hv in s.hosts && s.hosts[hv].pc.MClear?
    ensures var (store, ok) := LockDriver.Attempt(s.store, MountUse(hv), LockDriver.Drop, t);
      var x := s.hosts[hv].(pc := if ok || giveUp then Idle else MClear);
      Next(cfg, s, HostCall(hv, t.weather.first, giveUp, id)) == Some(s.(store := store, hosts := s.hosts[hv := x]))
  {
  }

  // ---- Refinement ----------------------------------------------------------------------------

  /** From any reachable state in which the host is idle, there is a run of the cluster in which
      the host serves a mount request with the given answers, and its volume ends as MountSpec
      says. */
  lemma MountRefines(cfg: Config, s: State, hv: HV, h: H.Host, w: H.World, id: nat) returns (t: State)
    requires hv in s.hosts && s.hosts[hv].pc.Idle? && id !in s.refs
    requires Agree(h, hv.volume, s.hosts[hv]) && ChannelFits(s.hosts[hv])
    requires cfg.rules.settled ==> NoneStopping(s, MountUse(hv))
    requires Possible(cfg, s.store, hv, w)
    ensures hv in t.hosts && Served(cfg, s, s, t, hv, t.hosts[hv]) && ChannelFits(t.hosts[hv])
    ensures Agree(H.MountSpec({}, h, hv.volume, w).0, hv.volume, t.hosts[hv])
  {
    var x := s.hosts[hv];
    if !w.lock {
      t := RefusedRun(cfg, s, hv, x, false);
    } else {
      PublishRun(cfg, s, hv, x, false);
      var store := Lock(s.store, hv);
      N.LocalAt(cfg, s, s, store, hv, x.(pc := MCount), true, false);
      var h1 := h.(count := H.Bump(h.count, hv.volume, 1));
      if x.count + 1 > 1 {
        t := N.At(s, store, hv, x.(count := x.count + 1));
      } else {
        var y;
        t, y := DriverRun(cfg, s, s, hv, x.(count := x.count + 1, pc := MDriver), w, id);
        assert Agree(h1, hv.volume, x.(count := x.count + 1, pc := MDriver));
      }
    }
  }

  /** The same for an unmount request. */
  lemma UnmountRefines(cfg: Config, s: State, hv: HV, h: H.Host, w: H.World) returns (t: State)
    requires hv in s.hosts && s.hosts[hv].pc.Idle?
    requires Agree(h, hv.volume, s.hosts[hv]) && ChannelFits(s.hosts[hv])
    requires w.lock ==> KeyOf(MountUse(hv)) !in s.store || Holds(s.store, MountUse(hv))
    ensures hv in t.hosts && Served(cfg, s, s, t, hv, t.hosts[hv]) && ChannelFits(t.hosts[hv])
    ensures Agree(H.UnmountSpec({}, h, hv.volume, w).0, hv.volume, t.hosts[hv])
  {
    var x := s.hosts[hv];
    if !w.lock {
      t := RefusedRun(cfg, s, hv, x, true);
    } else {
      PublishRun(cfg, s, hv, x, true);
      var store, n := Lock(s.store, hv), x.count - 1;
      N.LocalAt(cfg, s, s, store, hv, x.(pc := UCount), true, false);
      if n != 0 {
        t := N.At(s, store, hv, x.(count := n));
      } else {
        t := UnmountRun(cfg, s, s, store, hv, x.(count := n, pc := UDriver), w);
      }
    }
  }

  /** From the driver's unmount on. */
  lemma UnmountRun(cfg: Config, o: State, b: State, store: Store, hv: HV, x: HostVol, w: H.World)
    returns (t: State)
    requires UntimedLeads(cfg, o, N.At(b, store, hv, x)) && x.pc.UDriver?
    ensures Served(cfg, o, b, t, hv,
                   if w.unmount then x.(pc := Idle, mounted := false, collected := false, chan := None)
                   else x.(pc := Idle))
  {
    N.LocalAt(cfg, o, b, store, hv, x, w.unmount, false);
    if !w.unmount {
      t := N.At(b, store, hv, x.(pc := Idle));
    } else {
      var y := x.(mounted := false, pc := UFinish);
      N.StopAt(cfg, o, b, store, hv, y, true);
      t := State(store, b.jobs, b.hosts[hv := y.(collected := false, chan := None, pc := Idle)],
                 StopRefresher(b.refs, y.chan));
    }
  }
}
