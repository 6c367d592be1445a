/** The lock-guarded operations of apiserver/daemon.go (and volcli's maintenance command):
    their lock lists, and when their bodies really are alone. */
module Operations {
  import opened Wrappers
  import opened UseLocks
  import opened Cluster
  import opened ClusterSafety
  import opened ClusterNecessity

  /** `host` is the hostname of the machine that runs the operation. */
  datatype Operation =
    | CreateVolume(volume: string, host: string)
    | RemoveVolume(volume: string, host: string)
    | CopySnapshot(source: string, target: string, host: string)
    | Maintain(volume: string, host: string)
  {
    /** handleCopy refuses to copy a volume onto itself. */
    predicate Accepted() { CopySnapshot? ==> source != target }

    /** The volume whose mount lock the operation takes, and the reason it gives. */
    function Subject(): string { if CopySnapshot? then target else volume }

    function Reason(): string {
      match this
      case CreateVolume(_, _) => "Create"
      case RemoveVolume(_, _) => "Remove"
      case CopySnapshot(_, _, _) => "Copy"
      case Maintain(_, _) => "Maintenance"
    }

    function Volumes(): set<string> {
      if CopySnapshot? then {source, target} else {volume}
    }

    function MountLock(): Use {
      UseMount(Subject(), host, Reason())
    }

    function Locks(): (locks: seq<Use>)
    {
      [MountLock(), UseSnapshot(Subject(), Reason())]
      + if CopySnapshot? then [UseSnapshot(source, Reason())] else []
    }
  }

  function ConfigOf(ops: map<nat, Operation>, hosts: set<HV>, rules: Rules): Config {
    Config(map j | j in ops :: ops[j].Locks(), hosts, rules)
  }

  predicate AllAccepted(ops: map<nat, Operation>) {
    forall j <- ops :: ops[j].Accepted()
  }

  lemma ConfigFits(ops: map<nat, Operation>, hosts: set<HV>, rules: Rules)
    requires AllAccepted(ops)
    ensures WellFormed(ConfigOf(ops, hosts, rules))
  {
  }

  /** Operations that name a common volume are never in their bodies together, on any hosts
      and for any reasons, however the mount locks fare, while no snapshot key is forced and no
      clock is set back. */
  lemma OperationsExclude(ops: map<nat, Operation>, hosts: set<HV>, rules: Rules, s: State,
                          j: nat, k: nat)
    requires AllAccepted(ops) && rules.snapshotsUnforced && rules.clocksRun
    requires Reachable(ConfigOf(ops, hosts, rules), s)
    requires j in ops && k in ops && j != k && ops[j].Volumes() * ops[k].Volumes() != {}
    ensures !(InBody(s, j) && InBody(s, k))
  {
    var cfg := ConfigOf(ops, hosts, rules);
    ConfigFits(ops, hosts, rules);
    var v :| v in ops[j].Volumes() * ops[k].Volumes();
    var u, w := UseSnapshot(v, ops[j].Reason()), UseSnapshot(v, ops[k].Reason());
    NamesSnapshot(ops[j], v);
    NamesSnapshot(ops[k], v);
    BodiesNeverOverlap(cfg, s, j, k, u, w);
  }

  lemma NamesSnapshot(op: Operation, v: string)
    requires v in op.Volumes()
    ensures UseSnapshot(v, op.Reason()) in op.Locks()
  {
    assert op.Locks()[1] == UseSnapshot(op.Subject(), op.Reason());
    if op.CopySnapshot? {
      assert op.Locks()[2] == UseSnapshot(op.source, op.Reason());
    }
  }

  /** The keys an operation takes: the mount key of the volume it changes and the snapshot key of every
      volume it names. */
  lemma KeysExactly(op: Operation, k: Key)
    ensures (exists u <- op.Locks() :: KeyOf(u) == k) <==>
      k == Key(MountType, op.Subject()) || (k.kind == SnapshotType && k.volume in op.Volumes())
  {
    var locks, mine, its := op.Locks(), op.MountLock(), UseSnapshot(op.Subject(), op.Reason());
    if op.CopySnapshot? {
      var other := UseSnapshot(op.source, op.Reason());
      assert locks == [mine, its, other];
      assert mine in locks && its in locks && other in locks;
    } else {
      assert locks == [mine, its];
      assert mine in locks && its in locks;
    }
  }

  /** Two operations take the same mount lock content exactly when they are of one kind, run on one
      machine and change one volume. */
  lemma SameContentExactly(a: Operation, b: Operation)
    ensures a.MountLock() == b.MountLock() <==>
      && (a.CreateVolume? <==> b.CreateVolume?) && (a.RemoveVolume? <==> b.RemoveVolume?)
      && (a.CopySnapshot? <==> b.CopySnapshot?)
      && a.host == b.host && a.Subject() == b.Subject()
  {
    assert "Create" != "Remove" && "Create" != "Copy" && "Create" != "Maintenance"
        && "Remove" != "Copy" && "Remove" != "Maintenance" && "Copy" != "Maintenance" by {
      assert |"Create"| == 6 && |"Remove"| == 6 && |"Copy"| == 4 && |"Maintenance"| == 11;
      assert "Create"[0] != "Remove"[0];
    }
  }

  // ---- When the mount lock is lost ---------------------------------------------------------

  /** No other operation takes the mount lock with the same content, that is, from the same
      machine for the same reason. */
  ghost predicate OwnMountLock(ops: map<nat, Operation>, j: nat)
    requires j in ops
  {
    forall k <- ops :: k != j ==> ops[k].MountLock() != ops[j].MountLock()
  }

  ghost predicate RunsWhileMounted(cfg: Config, j: nat, hv: HV) {
    exists s :: Reachable(cfg, s) && InBody(s, j) && Mounted(s, hv)
  }

  predicate Absent(s: Store, locks: seq<Use>) {
    forall u <- locks :: KeyOf(u) !in s
  }

  ghost predicate Named(locks: seq<Use>, k: Key) {
    exists u <- locks :: KeyOf(u) == k
  }

  /** The stores agree on every key the locks do not name. */
  ghost predicate SameElsewhere(s: Store, t: Store, locks: seq<Use>) {
    forall k {:trigger Named(locks, k)} :: !Named(locks, k) ==>
      (k in s <==> k in t) && (k in s ==> s[k] == t[k])
  }

  /** One key more than the rest may differ. */
  lemma ElsewhereExtends(s: Store, m: Store, t: Store, u: Use, rest: seq<Use>)
    requires SameElsewhere(m, t, rest)
    requires forall k :: k != KeyOf(u) ==> (k in s <==> k in m) && (k in s ==> s[k] == m[k])
    ensures SameElsewhere(s, t, [u] + rest)
  {
    forall k | !Named([u] + rest, k)
      ensures (k in s <==> k in t) && (k in s ==> s[k] == t[k])
    {
      assert u in [u] + rest && !Named(rest, k);
    }
  }

  /** A job acquires the rest of its locks, all of them free, and enters its body. */
  lemma {:induction false} AcquireRun(cfg: Config, s: State, j: nat, i: nat) returns (t: State)
    requires WellFormed(cfg) && Reachable(cfg, s) && j in cfg.jobs && j in s.jobs
    requires i <= |cfg.jobs[j]| && s.jobs[j] == Acquiring(i, false)
    requires Absent(s.store, cfg.jobs[j][i..])
    ensures Reachable(cfg, t) && t == s.(store := t.store, jobs := s.jobs[j := Body])
    ensures AllHeld(t.store, cfg.jobs[j][i..]) && SameElsewhere(s.store, t.store, cfg.jobs[j][i..])
    decreases |cfg.jobs[j]| - i
  {
    var locks := cfg.jobs[j];
    if i == |locks| {
      t := Go(cfg, s, JobEnter(j));
    } else {
      var u, rest := locks[i], locks[i + 1..];
      assert locks[i..] == [u] + rest;
      var m := Go(cfg, s, JobCall(j, Delivered, TryAgain));
      assert m == s.(store := s.store[KeyOf(u) := Rec(u, None)], jobs := s.jobs[j := Acquiring(i + 1, false)]);
      forall w | w in rest ensures KeyOf(w) !in m.store {
        assert KeyOf(w) != KeyOf(u);
      }
      t := AcquireRun(cfg, m, j, i + 1);
      assert !Named(rest, KeyOf(u));
      ElsewhereExtends(s.store, m.store, t.store, u, rest);
    }
  }

  lemma ReleaseOne(cfg: Config, s: State, j: nat, i: nat) returns (t: State)
    requires Reachable(cfg, s) && j in cfg.jobs && j in s.jobs
    requires i < |cfg.jobs[j]| && s.jobs[j] == Releasing(i) && HoldsForever(s.store, cfg.jobs[j][i])
    ensures Reachable(cfg, t)
    ensures t == s.(store := s.store - {KeyOf(cfg.jobs[j][i])}, jobs := s.jobs[j := Releasing(i + 1)])
  {
    t := Go(cfg, s, JobRelease(j, Delivered));
  }

  /** A job releases the rest of its locks, all of them still in place. */
  lemma {:induction false} ReleaseRun(cfg: Config, s: State, j: nat, i: nat) returns (t: State)
    requires WellFormed(cfg) && Reachable(cfg, s) && j in cfg.jobs && j in s.jobs
    requires i <= |cfg.jobs[j]| && s.jobs[j] == Releasing(i)
    requires AllHeld(s.store, cfg.jobs[j][i..])
    ensures Reachable(cfg, t)
    ensures t == s.(store := t.store, jobs := s.jobs[j := Releasing(|cfg.jobs[j]|)])
    ensures Absent(t.store, cfg.jobs[j][i..]) && SameElsewhere(s.store, t.store, cfg.jobs[j][i..])
    decreases |cfg.jobs[j]| - i
  {
    var locks := cfg.jobs[j];
    if i == |locks| {
      t := s;
    } else {
      var u, rest := locks[i], locks[i + 1..];
      assert locks[i..] == [u] + rest;
      assert HoldsForever(s.store, u);
      var m := ReleaseOne(cfg, s, j, i);
      forall w | w in rest ensures HoldsForever(m.store, w) {
        assert w in locks[i..] && HoldsForever(s.store, w) && KeyOf(w) != KeyOf(u);
      }
      t := ReleaseRun(cfg, m, j, i + 1);
      assert !Named(rest, KeyOf(u));
      ElsewhereExtends(s.store, m.store, t.store, u, rest);
    }
  }

  /** Job k is in its body; job j has re-entered k's mount lock; k leaves and takes the lock
      with it; j enters its body without it. */
  lemma SharedLockRun(cfg: Config, j: nat, k: nat) returns (t: State)
    requires WellFormed(cfg) && j in cfg.jobs && k in cfg.jobs && j != k
    requires cfg.jobs[j] != [] && cfg.jobs[k] != [] && cfg.jobs[j][0] == cfg.jobs[k][0]
    requires cfg.jobs[j][0].UseMount?
    ensures Reachable(cfg, t) && InBody(t, j) && KeyOf(cfg.jobs[j][0]) !in t.store
    ensures t.hosts == Init(cfg).hosts && t.refs == map[]
  {
    var u, locks, mine := cfg.jobs[j][0], cfg.jobs[k], cfg.jobs[j];
    assert locks[0..] == locks && u in locks;
    Start(cfg);
    t := AcquireRun(cfg, Init(cfg), k, 0);
    var s := t;
    t := Go(cfg, t, JobCall(j, Delivered, TryAgain));
    assert t == s.(jobs := s.jobs[j := Acquiring(0, true)]);
    t := Go(cfg, t, JobCall(j, Delivered, TryAgain));
    assert t == s.(jobs := s.jobs[j := Acquiring(1, false)]) by {
      assert s.store[KeyOf(u) := Rec(u, None)] == s.store;
    }
    t := Go(cfg, t, JobLeave(k));
    t := ReleaseRun(cfg, t, k, 0);
    forall x ensures x !in t.store {
      if Named(locks, x) {
        var w :| w in locks && KeyOf(w) == x;
      }
    }
    s := t;
    t := AcquireRun(cfg, t, j, 1);
    forall w | w in mine[1..] ensures KeyOf(w) != KeyOf(u) {
    }
    assert !Named(mine[1..], KeyOf(u));
  }

  lemma SharedLockLetsMountIn(cfg: Config, j: nat, k: nat, hv: HV)
    requires WellFormed(cfg) && j in cfg.jobs && k in cfg.jobs && j != k && hv in cfg.hosts
    requires cfg.jobs[j] != [] && cfg.jobs[k] != [] && cfg.jobs[j][0] == cfg.jobs[k][0]
    requires cfg.jobs[j][0].UseMount? && cfg.jobs[j][0].volume == hv.volume
    ensures RunsWhileMounted(cfg, j, hv)
  {
    var t := SharedLockRun(cfg, j, k);
    t := MountReached(cfg, t, hv, 0);
    assert InBody(t, j) && Mounted(t, hv);
  }

  // ---- When a clock is set back ------------------------------------------------------------

  /** Every acquire returns nil although its publish never arrived: the job enters its body with
      no lock at all. */
  lemma {:induction false} SlipRun(cfg: Config, s: State, j: nat, i: nat) returns (t: State)
    requires Reachable(cfg, s) && j in cfg.jobs && j in s.jobs && !cfg.rules.clocksRun
    requires i <= |cfg.jobs[j]| && s.jobs[j] == Acquiring(i, false)
    ensures Reachable(cfg, t) && t == s.(jobs := s.jobs[j := Body])
    decreases |cfg.jobs[j]| - i
  {
    if i == |cfg.jobs[j]| {
      t := Go(cfg, s, JobEnter(j));
    } else {
      var m := Go(cfg, s, JobCall(j, RequestLost, Slip));
      t := SlipRun(cfg, m, j, i + 1);
    }
  }

  // ---- Bodies beside mounts ----------------------------------------------------------------

  /** The body of an operation never runs while its volume is mounted exactly when mounts are
      exclusive, no clock is set back, and no other operation takes the same mount lock content:
      two removals of one volume through one apiserver are enough to break it. */
  lemma BodyExcludesMountExactly(ops: map<nat, Operation>, hosts: set<HV>, rules: Rules,
                                 j: nat, hv: HV)
    requires AllAccepted(ops) && j in ops && hv in hosts && hv.volume == ops[j].Subject()
    ensures !RunsWhileMounted(ConfigOf(ops, hosts, rules), j, hv)
       <==> AllRules(rules) && rules.clocksRun && OwnMountLock(ops, j)
  {
    var cfg := ConfigOf(ops, hosts, rules);
    ConfigFits(ops, hosts, rules);
    if !rules.clocksRun {
      Start(cfg);
      var t := SlipRun(cfg, Init(cfg), j, 0);
      t := MountReached(cfg, t, hv, 0);
      assert InBody(t, j) && Mounted(t, hv);
    } else if !AllRules(rules) {
      var s := AnyExposes(cfg, hv);
      var t := AcquireRun(cfg, s, j, 0);
      assert InBody(t, j) && Mounted(t, hv);
    } else if OwnMountLock(ops, j) {
      OwnIsUnshared(ops, hosts, rules, j);
      forall s | Reachable(cfg, s) ensures !(InBody(s, j) && Mounted(s, hv)) {
        BodyExcludesMount(cfg, s, j, ops[j].MountLock(), hv);
      }
    } else {
      var k :| k in ops && k != j && ops[k].MountLock() == ops[j].MountLock();
      SharedLockLetsMountIn(cfg, j, k, hv);
    }
  }

  lemma OwnIsUnshared(ops: map<nat, Operation>, hosts: set<HV>, rules: Rules, j: nat)
    requires j in ops && OwnMountLock(ops, j)
    ensures var u := ops[j].MountLock();
      u in ConfigOf(ops, hosts, rules).jobs[j] && Unshared(ConfigOf(ops, hosts, rules), j, u)
  {
    var cfg, u := ConfigOf(ops, hosts, rules), ops[j].MountLock();
    assert u == cfg.jobs[j][0];
    forall k | k in cfg.jobs && k != j ensures u !in cfg.jobs[k] {
    }
  }

  // ---- Bodies beside bodies ----------------------------------------------------------------

  ghost predicate Overlap(cfg: Config, j: nat, k: nat) {
    exists s :: Reachable(cfg, s) && InBody(s, j) && InBody(s, k)
  }

  /** The operations' mount locks alone keep them apart: both are for one volume, and neither is
      ever taken with its content by anybody else. */
  ghost predicate MountLocksExclude(ops: map<nat, Operation>, j: nat, k: nat)
    requires j in ops && k in ops
  {
    ops[j].Subject() == ops[k].Subject() && OwnMountLock(ops, j) && OwnMountLock(ops, k)
  }

  lemma MountLocksKeepApart(ops: map<nat, Operation>, hosts: set<HV>, rules: Rules, s: State,
                            j: nat, k: nat)
    requires AllAccepted(ops) && rules.clocksRun && rules.mountsUnforced
    requires Reachable(ConfigOf(ops, hosts, rules), s)
    requires j in ops && k in ops && j != k && MountLocksExclude(ops, j, k)
    ensures !(InBody(s, j) && InBody(s, k))
  {
    var cfg := ConfigOf(ops, hosts, rules);
    ConfigFits(ops, hosts, rules);
    OwnIsUnshared(ops, hosts, rules, j);
    OwnIsUnshared(ops, hosts, rules, k);
    if InBody(s, j) && InBody(s, k) {
      BodyHoldsItsLocks(cfg, s, j, ops[j].MountLock());
      BodyHoldsItsLocks(cfg, s, k, ops[k].MountLock());
    }
  }

  lemma {:induction false} ForceRun(cfg: Config, s: State, locks: seq<Use>) returns (t: State)
    requires Reachable(cfg, s) && forall u <- locks :: MayForce(cfg, KeyOf(u))
    ensures Reachable(cfg, t) && t == s.(store := t.store)
    ensures Absent(t.store, locks) && SameElsewhere(s.store, t.store, locks)
    decreases |locks|
  {
    if locks == [] {
      t := s;
    } else {
      var m := Go(cfg, s, Force(KeyOf(locks[0])));
      t := ForceRun(cfg, m, locks[1..]);
      assert locks == [locks[0]] + locks[1..];
      ElsewhereExtends(s.store, m.store, t.store, locks[0], locks[1..]);
      forall u | u in locks ensures KeyOf(u) !in t.store {
        if Named(locks[1..], KeyOf(u)) {
          var w :| w in locks[1..] && KeyOf(w) == KeyOf(u);
        }
      }
    }
  }

  /** Snapshot keys being forced, a job enters its body if its mount lock is free or there already
      with its own content. */
  lemma EnterRun(cfg: Config, s: State, j: nat) returns (t: State)
    requires WellFormed(cfg) && Reachable(cfg, s) && !cfg.rules.snapshotsUnforced
    requires j in cfg.jobs && j in s.jobs && cfg.jobs[j] != [] && s.jobs[j] == Acquiring(0, false)
    requires cfg.jobs[j][0].UseMount? && forall u <- cfg.jobs[j][1..] :: u.UseSnapshot?
    requires KeyOf(cfg.jobs[j][0]) !in s.store || HoldsForever(s.store, cfg.jobs[j][0])
    ensures Reachable(cfg, t) && t == s.(store := t.store, jobs := s.jobs[j := Body])
    ensures AllHeld(t.store, cfg.jobs[j])
  {
    var locks := cfg.jobs[j];
    var u, rest := locks[0], locks[1..];
    assert !Named(rest, KeyOf(u));
    var m := ForceRun(cfg, s, rest);
    var n := TakeFirst(cfg, m, j);
    assert forall w <- rest :: KeyOf(w) != KeyOf(u);
    t := AcquireRun(cfg, n, j, 1);
    forall w | w in locks ensures HoldsForever(t.store, w) {
      assert w == u || w in rest;
    }
  }

  /** A job takes its mount lock, for the first time or once more. */
  lemma TakeFirst(cfg: Config, s: State, j: nat) returns (t: State)
    requires Reachable(cfg, s) && j in cfg.jobs && j in s.jobs
    requires cfg.jobs[j] != [] && s.jobs[j] == Acquiring(0, false) && cfg.jobs[j][0].UseMount?
    requires KeyOf(cfg.jobs[j][0]) !in s.store || HoldsForever(s.store, cfg.jobs[j][0])
    ensures Reachable(cfg, t)
    ensures t == s.(store := s.store[KeyOf(cfg.jobs[j][0]) := Rec(cfg.jobs[j][0], None)],
                    jobs := s.jobs[j := Acquiring(1, false)])
  {
    t := Go(cfg, s, JobCall(j, Delivered, TryAgain));
    if KeyOf(cfg.jobs[j][0]) in s.store {
      var m := t;
      t := Go(cfg, m, JobCall(j, Delivered, TryAgain));
      assert t.jobs == s.jobs[j := Acquiring(1, false)];
    }
  }

  lemma JobShape(ops: map<nat, Operation>, hosts: set<HV>, rules: Rules, j: nat)
    requires j in ops
    ensures var locks := ConfigOf(ops, hosts, rules).jobs[j];
      locks != [] && locks[0] == ops[j].MountLock() && forall u <- locks[1..] :: u.UseSnapshot?
  {
  }

  /** The first operation is in its body. If the second one's mount lock is free, can be forced
      free, or has the same content, the second enters as well. */
  lemma SecondEnters(ops: map<nat, Operation>, hosts: set<HV>, rules: Rules, s: State, j: nat, k: nat)
    requires AllAccepted(ops) && !rules.snapshotsUnforced && j in ops && k in ops && j != k
    requires Reachable(ConfigOf(ops, hosts, rules), s) && InBody(s, j)
    requires k in s.jobs && s.jobs[k] == Acquiring(0, false)
    requires var u := ops[k].MountLock();
      KeyOf(u) !in s.store || HoldsForever(s.store, u) || !rules.mountsUnforced
    ensures Overlap(ConfigOf(ops, hosts, rules), j, k)
  {
    var cfg, u := ConfigOf(ops, hosts, rules), ops[k].MountLock();
    ConfigFits(ops, hosts, rules);
    JobShape(ops, hosts, rules, k);
    var m := s;
    if KeyOf(u) in s.store && !HoldsForever(s.store, u) {
      m := ForceRun(cfg, s, [u]);
      assert u in [u];
    }
    var t := EnterRun(cfg, m, k);
    assert InBody(t, j) && InBody(t, k);
  }

  /** The first operation is in its body; a third one with the same mount lock content comes and
      goes and takes the lock with it. */
  lemma ThirdLeaves(ops: map<nat, Operation>, hosts: set<HV>, rules: Rules, s: State, l: nat)
    returns (t: State)
    requires AllAccepted(ops) && !rules.snapshotsUnforced && l in ops
    requires Reachable(ConfigOf(ops, hosts, rules), s) && l in s.jobs
    requires s.jobs[l] == Acquiring(0, false) && HoldsForever(s.store, ops[l].MountLock())
    ensures Reachable(ConfigOf(ops, hosts, rules), t) && KeyOf(ops[l].MountLock()) !in t.store
    ensures t == s.(store := t.store, jobs := s.jobs[l := Releasing(|ops[l].Locks()|)])
  {
    var cfg := ConfigOf(ops, hosts, rules);
    ConfigFits(ops, hosts, rules);
    JobShape(ops, hosts, rules, l);
    t := EnterRun(cfg, s, l);
    var m := t;
    t := Go(cfg, m, JobLeave(l));
    assert cfg.jobs[l][0..] == cfg.jobs[l];
    t := ReleaseRun(cfg, t, l, 0);
    assert t.jobs == s.jobs[l := Releasing(|cfg.jobs[l]|)];
    assert ops[l].MountLock() in cfg.jobs[l];
  }

  /** Snapshot keys being forced, the first operation enters, and the second after it. */
  lemma ForcedOverlap(ops: map<nat, Operation>, hosts: set<HV>, rules: Rules, j: nat, k: nat)
    requires AllAccepted(ops) && j in ops && k in ops && j != k && !rules.snapshotsUnforced
    requires rules.mountsUnforced && ops[j].Subject() == ops[k].Subject() ==> !OwnMountLock(ops, j)
    ensures Overlap(ConfigOf(ops, hosts, rules), j, k)
  {
    var s := FirstEnters(ops, hosts, rules, j);
    if rules.mountsUnforced && ops[j].Subject() == ops[k].Subject()
       && ops[k].MountLock() != ops[j].MountLock() {
      var l :| l in ops && l != j && ops[l].MountLock() == ops[j].MountLock();
      s := ThirdLeaves(ops, hosts, rules, s, l);
    }
    SecondEnters(ops, hosts, rules, s, j, k);
  }

  lemma FirstEnters(ops: map<nat, Operation>, hosts: set<HV>, rules: Rules, j: nat) returns (s: State)
    requires AllAccepted(ops) && j in ops
    ensures Reachable(ConfigOf(ops, hosts, rules), s) && InBody(s, j)
    ensures forall k <- ops :: k != j ==> k in s.jobs && s.jobs[k] == Acquiring(0, false)
    ensures HoldsForever(s.store, ops[j].MountLock())
    ensures forall v :: v != ops[j].Subject() ==> Key(MountType, v) !in s.store
  {
    var cfg := ConfigOf(ops, hosts, rules);
    ConfigFits(ops, hosts, rules);
    JobShape(ops, hosts, rules, j);
    Start(cfg);
    s := AcquireRun(cfg, Init(cfg), j, 0);
    var locks := cfg.jobs[j];
    assert locks[0..] == locks && locks[0] in locks;
    forall v | v != ops[j].Subject() ensures Key(MountType, v) !in s.store {
      forall u | u in locks ensures KeyOf(u) != Key(MountType, v) {
        assert u == locks[0] || u in locks[1..];
      }
      assert !Named(locks, Key(MountType, v));
    }
  }

  /** Operations that name a common volume never overlap exactly when no clock is set back and
      either no snapshot key is forced or, mount keys not being forced, their mount locks keep them
      apart. */
  lemma OperationsExcludeExactly(ops: map<nat, Operation>, hosts: set<HV>, rules: Rules, j: nat, k: nat)
    requires AllAccepted(ops)
    requires j in ops && k in ops && j != k && ops[j].Volumes() * ops[k].Volumes() != {}
    ensures !Overlap(ConfigOf(ops, hosts, rules), j, k)
       <==> rules.clocksRun
            && (rules.snapshotsUnforced || (rules.mountsUnforced && MountLocksExclude(ops, j, k)))
  {
    var cfg := ConfigOf(ops, hosts, rules);
    if !rules.clocksRun {
      Start(cfg);
      var s := SlipRun(cfg, Init(cfg), j, 0);
      s := SlipRun(cfg, s, k, 0);
      assert InBody(s, j) && InBody(s, k);
    } else if rules.snapshotsUnforced {
      forall s | Reachable(cfg, s) ensures !(InBody(s, j) && InBody(s, k)) {
        OperationsExclude(ops, hosts, rules, s, j, k);
      }
    } else if rules.mountsUnforced && MountLocksExclude(ops, j, k) {
      forall s | Reachable(cfg, s) ensures !(InBody(s, j) && InBody(s, k)) {
        MountLocksKeepApart(ops, hosts, rules, s, j, k);
      }
    } else if rules.mountsUnforced && ops[j].Subject() == ops[k].Subject() && OwnMountLock(ops, j) {
      ForcedOverlap(ops, hosts, rules, k, j);
      var s :| Reachable(cfg, s) && InBody(s, k) && InBody(s, j);
      assert InBody(s, j) && InBody(s, k);
    } else {
      ForcedOverlap(ops, hosts, rules, j, k);
    }
  }
}
