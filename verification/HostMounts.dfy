/** One volplugin host: the mount counter and collection (api/internals/mount), the table of
    stop channels (api/api.go) and the Mount and Unmount handlers (api/handlers.go), taken one
    request at a time. */
module HostMounts {
  import opened Wrappers

  // ---- Counter and Collection -----------------------------------------------------------

  function Count(m: map<string, int>, v: string): int {
    if v in m then m[v] else 0
  }

  class Counter {
    var count: map<string, int>

    constructor ()
      ensures count == map[]
    {
      count := map[];
    }

    method Get(mp: string) returns (n: int)
      ensures n == Count(count, mp)
    {
      n := if mp in count then count[mp] else 0;
    }

    method AddCount(mp: string, delta: int) returns (n: int)
      modifies this
      ensures n == Count(old(count), mp) + delta && count == old(count)[mp := n]
    {
      var was := Get(mp);
      count := count[mp := was + delta];
      n := was + delta;
    }

    method Add(mp: string) returns (n: int)
      modifies this
      ensures n == Count(old(count), mp) + 1 && count == old(count)[mp := n]
    {
      n := AddCount(mp, 1);
    }

    /** The decrement happens even when Sub then panics. */
    method Sub(mp: string) returns (n: int, panics: bool)
      modifies this
      ensures n == Count(old(count), mp) - 1 && count == old(count)[mp := n]
      ensures panics <==> n < 0
    {
      n := AddCount(mp, -1);
      panics := n < 0;
    }
  }

  datatype Mounting = Mounting(device: string, path: string)

  class Collection {
    var mountMap: map<string, Mounting>

    constructor ()
      ensures mountMap == map[]
    {
      mountMap := map[];
    }

    /** Panics, leaving the map alone, if the volume is there already. */
    method Add(vol: string, mc: Mounting) returns (panics: bool)
      modifies this
      ensures panics <==> vol in old(mountMap)
      ensures mountMap == if panics then old(mountMap) else old(mountMap)[vol := mc]
    {
      panics := vol in mountMap;
      if !panics {
        mountMap := mountMap[vol := mc];
      }
    }

    method Remove(vol: string)
      modifies this
      ensures mountMap == old(mountMap) - {vol}
    {
      mountMap := mountMap - {vol};
    }

    method Get(vol: string) returns (r: Result<Mounting>)
      ensures r == if vol in mountMap then Ok(mountMap[vol]) else Err
    {
      r := if vol in mountMap then Ok(mountMap[vol]) else Err;
    }
  }

  // ---- Requests -------------------------------------------------------------------------

  /** What the outside world answers during one request: whether the use lock could be
      published; the driver's mount (and whether a failed one leaves the volume mounted), its
      unmount, and MountPath; whether the refresher's own publish succeeds. */
  datatype World = World(lock: bool, mount: bool, left: bool, unmount: bool, refresh: bool, path: bool)

  datatype Request = Mount(volume: string, world: World) | Unmount(volume: string, world: World)

  datatype Response = Done | LockFailed | Duplicate | Failed | Panicked

  /** The host between requests. `refreshers` counts running refreshers that have not been
      told to stop. */
  datatype Host = Host(count: map<string, int>, collected: set<string>, stops: set<string>,
                       refreshers: map<string, int>, mounted: set<string>)

  const NoMounts := Host(map[], {}, {}, map[], {})

  function Bump(m: map<string, int>, v: string, delta: int): map<string, int> {
    m[v := Count(m, v) + delta]
  }

  /** RemoveStopChan: one running refresher is told to stop, if its channel is known. */
  function StopRefresher(h: Host, v: string): Host {
    h.(stops := h.stops - {v},
       refreshers := if v in h.stops then Bump(h.refreshers, v, -1) else h.refreshers)
  }

  /** startTTLRefresh, once its publish has succeeded. */
  function StartRefresher(h: Host, v: string): Host {
    h.(stops := h.stops + {v}, refreshers := Bump(h.refreshers, v, 1))
  }

  /** clearMount, as far as it concerns this host. */
  function UndoMount(h: Host, v: string, w: World): Host {
    if w.unmount then h.(mounted := h.mounted - {v}) else h
  }

  function MountSpec(unlocked: set<string>, h: Host, v: string, w: World): (Host, Response) {
    var locked := v !in unlocked;
    if locked && !w.lock then (h, LockFailed) else
    var h1 := h.(count := Bump(h.count, v, 1));
    if Count(h1.count, v) > 1 then
      (h1, if locked then Duplicate else if w.path then Done else Failed)
    else FirstMount(locked, h1, v, w)
  }

  /** The part of Mount that only the first mount of a volume reaches. */
  function FirstMount(locked: bool, h: Host, v: string, w: World): (Host, Response) {
    if !w.mount then
      (UndoMount(h.(mounted := if w.left then h.mounted + {v} else h.mounted), v, w), Failed)
    else
      var h1 := h.(mounted := h.mounted + {v});
      if v in h.collected then (h1, Panicked) else
      var h2 := h1.(collected := h.collected + {v});
      if locked && !w.refresh then (UndoMount(StopRefresher(h2, v), v, w), Failed) else
      var h3 := if locked then StartRefresher(h2, v) else h2;
      if !w.path then (UndoMount(StopRefresher(h3, v), v, w), Failed) else
      (h3, Done)
  }

  function UnmountSpec(unlocked: set<string>, h: Host, v: string, w: World): (Host, Response) {
    var locked := v !in unlocked;
    if locked && !w.lock then (h, LockFailed) else
    var h1 := h.(count := Bump(h.count, v, -1));
    var n := Count(h1.count, v);
    var reply := if w.path then Done else Failed;
    if n < 0 then (h1, Panicked)
    else if n > 0 then (h1, reply)
    else if !w.unmount then (h1, Failed)
    else
      var h2 := h1.(mounted := h.mounted - {v}, collected := h.collected - {v});
      (if locked then StopRefresher(h2, v) else h2, reply)
  }

  function Serve(unlocked: set<string>, h: Host, r: Request): (Host, Response) {
    match r
    case Mount(v, w) => MountSpec(unlocked, h, v, w)
    case Unmount(v, w) => UnmountSpec(unlocked, h, v, w)
  }

  // ---- The handlers ---------------------------------------------------------------------

  /** A channel of capacity one; a second signal would block. */
  class StopChan {
    var signalled: bool

    constructor ()
      ensures !signalled
    {
      signalled := false;
    }
  }

  class API {
    const unlocked: set<string>
    const mountCounter: Counter
    const mountCollection: Collection
    var lockStopChans: map<string, StopChan>
    var mounted: set<string>
    ghost var refreshers: map<string, int>

    /** Channels in the table are distinct and have never been signalled. */
    ghost predicate Valid()
      reads this, lockStopChans.Values
    {
      && (forall n <- lockStopChans :: !lockStopChans[n].signalled)
      && (forall n, m :: n in lockStopChans && m in lockStopChans && n != m ==>
            lockStopChans[n] != lockStopChans[m])
    }

    ghost function Value(): Host
      reads this, mountCounter, mountCollection
    {
      Host(mountCounter.count, mountCollection.mountMap.Keys, lockStopChans.Keys, refreshers, mounted)
    }

    constructor (unlocked: set<string>)
      ensures Valid() && Value() == NoMounts && this.unlocked == unlocked
      ensures fresh(mountCounter) && fresh(mountCollection)
    {
      this.unlocked := unlocked;
      mountCounter := new Counter();
      mountCollection := new Collection();
      lockStopChans := map[];
      mounted := {};
      refreshers := map[];
    }

    method AddStopChan(name: string, stopChan: StopChan)
      requires Valid() && !stopChan.signalled
      requires forall n <- lockStopChans :: lockStopChans[n] != stopChan
      modifies this`lockStopChans
      ensures Valid() && lockStopChans == old(lockStopChans)[name := stopChan]
    {
      lockStopChans := lockStopChans[name := stopChan];
    }

    /** The send never blocks: no channel in the table has been signalled before. */
    method RemoveStopChan(name: string)
      requires Valid()
      modifies this`lockStopChans, this`refreshers, lockStopChans.Values
      ensures Valid() && lockStopChans == old(lockStopChans) - {name}
      ensures name in old(lockStopChans) ==> old(lockStopChans)[name].signalled
      ensures refreshers == if name in old(lockStopChans) then old(Bump(refreshers, name, -1))
                            else old(refreshers)
    {
      if name in lockStopChans {
        assert !lockStopChans[name].signalled;
        lockStopChans[name].signalled := true;
        refreshers := Bump(refreshers, name, -1);
      }
      lockStopChans := lockStopChans - {name};
    }

    /** Starts a refresher and records its channel. */
    method StartTTLRefresh(v: string)
      requires Valid()
      modifies this`lockStopChans, this`refreshers
      ensures Valid() && Value() == StartRefresher(old(Value()), v)
      ensures forall n <- lockStopChans :: n in old(lockStopChans) && n != v ==>
                lockStopChans[n] == old(lockStopChans)[n]
      ensures v in lockStopChans && fresh(lockStopChans[v])
    {
      var stopChan := new StopChan();
      refreshers := Bump(refreshers, v, 1);
      AddStopChan(v, stopChan);
      assert Value().stops == old(Value()).stops + {v};
    }

    /** RemoveStopChan and clearMount after a mount that failed late. */
    method Abandon(v: string, w: World)
      requires Valid()
      modifies this, lockStopChans.Values
      ensures Valid() && Value() == UndoMount(StopRefresher(old(Value()), v), v, w)
    {
      RemoveStopChan(v);
      ClearMount(v, w);
      assert Value().stops == old(Value()).stops - {v};
    }

    method ClearMount(v: string, w: World)
      modifies this`mounted
      ensures Value() == UndoMount(old(Value()), v, w)
    {
      if w.unmount {
        mounted := mounted - {v};
      }
    }

    method Mount(v: string, mc: Mounting, w: World) returns (r: Response)
      requires Valid()
      modifies this, mountCounter, mountCollection, lockStopChans.Values
      ensures Valid() && (Value(), r) == MountSpec(unlocked, old(Value()), v, w)
    {
      var locked := v !in unlocked;
      if locked && !w.lock {
        return LockFailed;
      }
      var n := mountCounter.Add(v);
      if n > 1 {
        if !locked {
          return if w.path then Done else Failed;
        }
        return Duplicate;
      }
      r := MountOnce(v, mc, w);
    }

    method MountOnce(v: string, mc: Mounting, w: World) returns (r: Response)
      requires Valid()
      modifies this, mountCollection, lockStopChans.Values
      ensures Valid() && (Value(), r) == FirstMount(v !in unlocked, old(Value()), v, w)
    {
      if !w.mount {
        mounted := if w.left then mounted + {v} else mounted;
        ClearMount(v, w);
        return Failed;
      }
      mounted := mounted + {v};
      var panics := mountCollection.Add(v, mc);
      if panics {
        return Panicked;
      }
      assert mountCollection.mountMap.Keys == old(mountCollection.mountMap.Keys) + {v};
      if v !in unlocked {
        if !w.refresh {
          Abandon(v, w);
          return Failed;
        }
        StartTTLRefresh(v);
      }
      if !w.path {
        Abandon(v, w);
        return Failed;
      }
      return Done;
    }

    method Unmount(v: string, w: World) returns (r: Response)
      requires Valid()
      modifies this, mountCounter, mountCollection, lockStopChans.Values
      ensures Valid() && (Value(), r) == UnmountSpec(unlocked, old(Value()), v, w)
    {
      var locked := v !in unlocked;
      if locked && !w.lock {
        return LockFailed;
      }
      var n, panics := mountCounter.Sub(v);
      if panics {
        return Panicked;
      }
      if n > 0 {
        return if w.path then Done else Failed;
      }
      if !w.unmount {
        return Failed;
      }
      mounted := mounted - {v};
      mountCollection.Remove(v);
      if locked {
        RemoveStopChan(v);
      }
      return if w.path then Done else Failed;
    }
  }

  // ---- Runs of requests -----------------------------------------------------------------

  /** The host after the requests, and their responses. */
  function Run(unlocked: set<string>, reqs: seq<Request>): (r: (Host, seq<Response>))
    ensures |r.1| == |reqs|
    decreases |reqs|
  {
    if reqs == [] then (NoMounts, []) else
    var (h, rs) := Run(unlocked, reqs[..|reqs| - 1]);
    var (h', r) := Serve(unlocked, h, reqs[|reqs| - 1]);
    (h', rs + [r])
  }

  /** The request gets past the use lock, and so is counted. */
  predicate Counted(unlocked: set<string>, r: Request, v: string) {
    r.volume == v && (v in unlocked || r.world.lock)
  }

  /** Mounts counted minus unmounts counted. */
  function Balance(unlocked: set<string>, reqs: seq<Request>, v: string): int
    decreases |reqs|
  {
    if reqs == [] then 0 else
    var last := reqs[|reqs| - 1];
    Balance(unlocked, reqs[..|reqs| - 1], v)
    + (if !Counted(unlocked, last, v) then 0 else if last.Mount? then 1 else -1)
  }

  /** Whatever the drivers and locks answer, the counter is mounts minus unmounts. */
  lemma {:induction false} CounterIsBalance(unlocked: set<string>, reqs: seq<Request>, v: string)
    ensures Count(Run(unlocked, reqs).0.count, v) == Balance(unlocked, reqs, v)
    decreases |reqs|
  {
    if reqs != [] {
      CounterIsBalance(unlocked, reqs[..|reqs| - 1], v);
    }
  }

  /** Every unmount that is counted matches an earlier counted mount of its volume. */
  ghost predicate Matched(unlocked: set<string>, reqs: seq<Request>) {
    forall i | 0 <= i < |reqs| && reqs[i].Unmount? && Counted(unlocked, reqs[i], reqs[i].volume) ::
      Balance(unlocked, reqs[..i], reqs[i].volume) > 0
  }

  /** The driver, the path and the refresher's publish answer well throughout. */
  ghost predicate DriversWork(reqs: seq<Request>) {
    forall r <- reqs :: r.world.mount && r.world.unmount && r.world.path && r.world.refresh
  }

  /** At rest: mounted, counted and collected are one and the same, and exactly the mounted
      locked volumes have a running refresher, the one whose stop channel is in the table. */
  ghost predicate AtRest(unlocked: set<string>, h: Host) {
    forall v: string ::
      && Count(h.count, v) >= 0
      && (v in h.mounted <==> Count(h.count, v) > 0)
      && (v in h.collected <==> Count(h.count, v) > 0)
      && (v in h.stops <==> v !in unlocked && v in h.mounted)
      && Count(h.refreshers, v) == if v in h.stops then 1 else 0
  }

  lemma ServeKeepsRest(unlocked: set<string>, h: Host, r: Request)
    requires AtRest(unlocked, h)
    requires r.world.mount && r.world.unmount && r.world.path && r.world.refresh
    requires r.Unmount? && Counted(unlocked, r, r.volume) ==> Count(h.count, r.volume) > 0
    ensures AtRest(unlocked, Serve(unlocked, h, r).0) && Serve(unlocked, h, r).1 != Panicked
  {
    var t := Serve(unlocked, h, r).0;
    assert Count(h.count, r.volume) >= 0;
    forall v: string
      ensures Count(t.count, v) >= 0
      ensures v in t.mounted <==> Count(t.count, v) > 0
      ensures v in t.collected <==> Count(t.count, v) > 0
      ensures v in t.stops <==> v !in unlocked && v in t.mounted
      ensures Count(t.refreshers, v) == if v in t.stops then 1 else 0
    {
      assert Count(h.count, v) >= 0;
      if v != r.volume {
        assert Count(t.count, v) == Count(h.count, v);
        assert Count(t.refreshers, v) == Count(h.refreshers, v);
      }
    }
  }

  /** With matched unmounts and working drivers the host is at rest after every request, the
      panics of Counter.Sub and Collection.Add are never reached, and no refresher is ever
      left running without its channel. */
  lemma {:induction false} RunsAreAtRest(unlocked: set<string>, reqs: seq<Request>)
    requires Matched(unlocked, reqs) && DriversWork(reqs)
    ensures AtRest(unlocked, Run(unlocked, reqs).0)
    ensures Panicked !in Run(unlocked, reqs).1
    decreases |reqs|
  {
    if reqs != [] {
      var front, last := reqs[..|reqs| - 1], reqs[|reqs| - 1];
      assert Matched(unlocked, front) by {
        forall i | 0 <= i < |front| ensures front[..i] == reqs[..i] && front[i] == reqs[i] {
        }
      }
      RunsAreAtRest(unlocked, front);
      CounterIsBalance(unlocked, front, last.volume);
      assert last in reqs && reqs[..|reqs| - 1] == front;
      ServeKeepsRest(unlocked, Run(unlocked, front).0, last);
    }
  }

  lemma {:induction false} ResponseAt(unlocked: set<string>, reqs: seq<Request>, i: nat)
    requires i < |reqs|
    ensures Run(unlocked, reqs).1[i] == Serve(unlocked, Run(unlocked, reqs[..i]).0, reqs[i]).1
    decreases |reqs|
  {
    var front := reqs[..|reqs| - 1];
    if i < |front| {
      ResponseAt(unlocked, front, i);
      assert front[..i] == reqs[..i];
    }
  }

  // ---- Which requests panic ----------------------------------------------------------------

  /** The collection still has the volume, as the log of requests tells: the last first mount or
      last unmount of it that got as far as the collection was a mount. */
  function Stale(unlocked: set<string>, reqs: seq<Request>, v: string): bool
    decreases |reqs|
  {
    if reqs == [] then false else
    var front, last := reqs[..|reqs| - 1], reqs[|reqs| - 1];
    var n := Balance(unlocked, reqs, v);
    if !Counted(unlocked, last, v) then Stale(unlocked, front, v)
    else if last.Mount? then Stale(unlocked, front, v) || (n <= 1 && last.world.mount)
    else Stale(unlocked, front, v) && !(n == 0 && last.world.unmount)
  }

  lemma {:induction false} CollectedIsStale(unlocked: set<string>, reqs: seq<Request>, v: string)
    ensures v in Run(unlocked, reqs).0.collected <==> Stale(unlocked, reqs, v)
    decreases |reqs|
  {
    if reqs != [] {
      var front, last := reqs[..|reqs| - 1], reqs[|reqs| - 1];
      CollectedIsStale(unlocked, front, v);
      CounterIsBalance(unlocked, front, v);
      ServeCollects(unlocked, Run(unlocked, front).0, last, v);
    }
  }

  /** What one request does to the collection. */
  lemma ServeCollects(unlocked: set<string>, h: Host, r: Request, v: string)
    ensures var n := Count(h.count, v) + (if r.Mount? then 1 else -1);
      v in Serve(unlocked, h, r).0.collected <==>
        if !Counted(unlocked, r, v) then v in h.collected
        else if r.Mount? then v in h.collected || (n <= 1 && r.world.mount)
        else v in h.collected && !(n == 0 && r.world.unmount)
  {
  }

  /** The request is an unmount with nothing left to count down, or a first mount that the driver
      performs while the collection still has the volume. */
  predicate Fateful(unlocked: set<string>, reqs: seq<Request>, i: nat)
    requires i < |reqs|
  {
    var v := reqs[i].volume;
    && Counted(unlocked, reqs[i], v) && Balance(unlocked, reqs[..i], v) <= 0
    && (reqs[i].Mount? ==> reqs[i].world.mount && Stale(unlocked, reqs[..i], v))
  }

  /** Whatever locks and drivers answer, exactly the fateful requests panic. */
  lemma PanicsExactly(unlocked: set<string>, reqs: seq<Request>, i: nat)
    requires i < |reqs|
    ensures Run(unlocked, reqs).1[i] == Panicked <==> Fateful(unlocked, reqs, i)
  {
    ResponseAt(unlocked, reqs, i);
    CounterIsBalance(unlocked, reqs[..i], reqs[i].volume);
    CollectedIsStale(unlocked, reqs[..i], reqs[i].volume);
  }

  // ---- Which requests are answered how -------------------------------------------------------

  /** The volume is counted already when the mount comes. */
  predicate Again(unlocked: set<string>, reqs: seq<Request>, i: nat)
    requires i < |reqs|
  {
    reqs[i].Mount? && Balance(unlocked, reqs[..i], reqs[i].volume) >= 1
  }

  /** Everything that the request has to do besides locks and counting works: a volume that is counted
      already, or still, needs only its path; a first mount needs the driver, a collection without the
      volume and, unless it is unlocked, its refresher; a last unmount needs the driver. */
  predicate Works(unlocked: set<string>, reqs: seq<Request>, i: nat)
    requires i < |reqs|
  {
    var (v, w, n) := (reqs[i].volume, reqs[i].world, Balance(unlocked, reqs[..i], reqs[i].volume));
    && w.path
    && (reqs[i].Mount? && n <= 0 ==>
          w.mount && !Stale(unlocked, reqs[..i], v) && (v in unlocked || w.refresh))
    && (reqs[i].Unmount? && n <= 1 ==> n == 1 && w.unmount)
  }

  /** Whatever locks and drivers answer: a request is refused with LockFailed exactly when its volume is
      locked and the publish fails; a mount is a Duplicate exactly when its locked volume is counted
      already; a request is Done exactly when it is counted, no duplicate, and all else works; and it
      has Failed exactly when it is none of these and does not panic. */
  lemma AnswersExactly(unlocked: set<string>, reqs: seq<Request>, i: nat)
    requires i < |reqs|
    ensures var r := Run(unlocked, reqs).1[i];
      var counted := reqs[i].volume in unlocked || reqs[i].world.lock;
      var duplicate := Again(unlocked, reqs, i) && reqs[i].volume !in unlocked;
      && (r == LockFailed <==> !counted)
      && (r == Duplicate <==> counted && duplicate)
      && (r == Done <==> counted && !duplicate && Works(unlocked, reqs, i))
      && (r == Failed <==>
            counted && !duplicate && !Works(unlocked, reqs, i) && !Fateful(unlocked, reqs, i))
  {
    ResponseAt(unlocked, reqs, i);
    CounterIsBalance(unlocked, reqs[..i], reqs[i].volume);
    CollectedIsStale(unlocked, reqs[..i], reqs[i].volume);
  }

  /** A request that is refused changes nothing. */
  lemma RefusedChangesNothing(unlocked: set<string>, reqs: seq<Request>)
    requires reqs != [] && Run(unlocked, reqs).1[|reqs| - 1] == LockFailed
    ensures Run(unlocked, reqs).0 == Run(unlocked, reqs[..|reqs| - 1]).0
  {
  }

  // ---- What is there after a request -----------------------------------------------------------

  /** Whatever locks and drivers answer, a volume has a recorded channel only if it is locked and in the
      collection, and then exactly one refresher that has not been told to stop, else none. */
  ghost predicate OneEach(unlocked: set<string>, h: Host) {
    forall v: string ::
      && (v in h.stops ==> v !in unlocked && v in h.collected)
      && Count(h.refreshers, v) == if v in h.stops then 1 else 0
  }

  lemma ServeKeepsOneEach(unlocked: set<string>, h: Host, r: Request)
    requires OneEach(unlocked, h)
    ensures OneEach(unlocked, Serve(unlocked, h, r).0)
  {
    var t := Serve(unlocked, h, r).0;
    forall v: string
      ensures v in t.stops ==> v !in unlocked && v in t.collected
      ensures Count(t.refreshers, v) == if v in t.stops then 1 else 0
    {
      assert v in h.stops ==> v !in unlocked && v in h.collected;
      if v != r.volume {
        assert Count(t.refreshers, v) == Count(h.refreshers, v);
      }
    }
  }

  lemma {:induction false} OneRefresherEach(unlocked: set<string>, reqs: seq<Request>)
    ensures OneEach(unlocked, Run(unlocked, reqs).0)
    decreases |reqs|
  {
    if reqs != [] {
      OneRefresherEach(unlocked, reqs[..|reqs| - 1]);
      ServeKeepsOneEach(unlocked, Run(unlocked, reqs[..|reqs| - 1]).0, reqs[|reqs| - 1]);
    }
  }

  /** Whether a volume is mounted after a request, whatever the answers: a first mount mounts it if the
      driver does, or fails leaving it mounted, and a failure in between undoes that if the driver's
      unmount works; a last unmount removes it if the driver does; nothing else touches it. */
  lemma MountedAfter(unlocked: set<string>, reqs: seq<Request>, v: string)
    requires reqs != []
    ensures var front, last := reqs[..|reqs| - 1], reqs[|reqs| - 1];
      var (w, n, was) := (last.world, Balance(unlocked, front, v), v in Run(unlocked, front).0.mounted);
      v in Run(unlocked, reqs).0.mounted <==>
        if !Counted(unlocked, last, v) then was
        else if last.Unmount? then was && !(n == 1 && w.unmount)
        else if n >= 1 then was
        else if !w.mount then (was || w.left) && !w.unmount
        else Stale(unlocked, front, v) || (w.path && (v in unlocked || w.refresh)) || !w.unmount
  {
    var front := reqs[..|reqs| - 1];
    CounterIsBalance(unlocked, front, v);
    CollectedIsStale(unlocked, front, v);
  }

  /** Whether a volume has a channel after a request: a first mount that the driver and the collection
      let through records one exactly if it is locked and all goes well, and a last unmount that the
      driver lets through forgets it. */
  lemma ChannelAfter(unlocked: set<string>, reqs: seq<Request>, v: string)
    requires reqs != []
    ensures var front, last := reqs[..|reqs| - 1], reqs[|reqs| - 1];
      var (w, n, was) := (last.world, Balance(unlocked, front, v), v in Run(unlocked, front).0.stops);
      v in Run(unlocked, reqs).0.stops <==>
        if !Counted(unlocked, last, v) then was
        else if last.Unmount? then was && !(n == 1 && w.unmount)
        else if n >= 1 || !w.mount || Stale(unlocked, front, v) then was
        else v !in unlocked && w.refresh && w.path
  {
    var front := reqs[..|reqs| - 1];
    CounterIsBalance(unlocked, front, v);
    CollectedIsStale(unlocked, front, v);
    OneRefresherEach(unlocked, front);
    var h := Run(unlocked, front).0;
    assert v in h.stops ==> v !in unlocked && v in h.collected;
  }

  /** A request leaves other volumes as they are. */
  lemma OthersStay(unlocked: set<string>, h: Host, r: Request, v: string)
    requires v != r.volume
    ensures var t := Serve(unlocked, h, r).0;
      && Count(t.count, v) == Count(h.count, v) && Count(t.refreshers, v) == Count(h.refreshers, v)
      && (v in t.mounted <==> v in h.mounted) && (v in t.collected <==> v in h.collected)
      && (v in t.stops <==> v in h.stops)
  {
  }

  /** A first mount that is Done leaves the volume mounted and collected, with a channel exactly if it is
      locked; a last unmount that is Done leaves it without any of these. */
  lemma DoneMeans(unlocked: set<string>, reqs: seq<Request>)
    requires reqs != [] && Run(unlocked, reqs).1[|reqs| - 1] == Done
    ensures var (h, last) := (Run(unlocked, reqs).0, reqs[|reqs| - 1]);
      var (v, before) := (last.volume, Balance(unlocked, reqs[..|reqs| - 1], last.volume));
      && (last.Mount? && before <= 0 ==>
            v in h.mounted && v in h.collected && (v in h.stops <==> v !in unlocked))
      && (last.Mount? && v !in unlocked ==> before <= 0)
      && (last.Unmount? && Balance(unlocked, reqs, v) == 0 ==>
            v !in h.mounted && v !in h.collected && v !in h.stops)
  {
    var front, last := reqs[..|reqs| - 1], reqs[|reqs| - 1];
    CounterIsBalance(unlocked, front, last.volume);
    CounterIsBalance(unlocked, reqs, last.volume);
    OneRefresherEach(unlocked, front);
    var h := Run(unlocked, front).0;
    assert last.volume in h.stops ==> last.volume !in unlocked && last.volume in h.collected;
  }

  /** Given working drivers, no request ever panics exactly when the unmounts are matched. */
  lemma PanicFreeExactly(unlocked: set<string>, reqs: seq<Request>)
    requires DriversWork(reqs)
    ensures Panicked !in Run(unlocked, reqs).1 <==> Matched(unlocked, reqs)
  {
    if Matched(unlocked, reqs) {
      RunsAreAtRest(unlocked, reqs);
    } else {
      var i :| 0 <= i < |reqs| && reqs[i].Unmount? && Counted(unlocked, reqs[i], reqs[i].volume)
               && Balance(unlocked, reqs[..i], reqs[i].volume) <= 0;
      PanicsExactly(unlocked, reqs, i);
    }
  }

  /** Failing calls do break it: a refresher's publish fails, docker's unmount finds nothing to
      unmount, and the next mount runs into the stale entry of the collection. */
  lemma FailedRefreshPanicsLater(v: string)
    ensures var fine := World(true, true, false, true, true, true);
      var reqs := [Mount(v, fine.(refresh := false)), Unmount(v, fine.(unmount := false)),
                   Mount(v, fine)];
      Matched({}, reqs) && Run({}, reqs).1 == [Failed, Failed, Panicked]
  {
    var fine := World(true, true, false, true, true, true);
    var a, b, c := Mount(v, fine.(refresh := false)), Unmount(v, fine.(unmount := false)), Mount(v, fine);
    var reqs := [a, b, c];
    assert reqs[..1] == [a];
    assert Run({}, []) == (NoMounts, []);
    var h1 := Serve({}, NoMounts, a).0;
    assert Count(h1.count, v) == 1 && v in h1.collected && Serve({}, NoMounts, a).1 == Failed;
    var h2 := Serve({}, h1, b).0;
    assert Count(h2.count, v) == 0 && v in h2.collected && Serve({}, h1, b).1 == Failed;
    assert Serve({}, h2, c).1 == Panicked;
    assert [a][..|[a]| - 1] == [];
    assert [a, b][..|[a, b]| - 1] == [a];
    assert reqs[..|reqs| - 1] == [a, b];
    assert [] + [Failed] == [Failed];
    assert Run({}, [a]).0 == h1;
    assert Run({}, [a]).1 == [Failed];
    assert Run({}, [a, b]).0 == h2;
    assert Run({}, [a, b]).1 == [Failed, Failed];
    assert Balance({}, [a], v) == 1;
  }
}
