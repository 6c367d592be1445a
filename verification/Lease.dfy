/** The refresher of lock/lock.go's AcquireWithTTLRefresh against the clock: waits of one to
    two quarters of the TTL, store calls that take time, leases that run out. */
module Lease {
  import opened Wrappers
  import opened Timers
  import opened UseLocks

  /** The lock, its TTL, the longest that one refreshing acquire takes, retries included, and how
      many of them in a row may give up: at their timeout, or by returning nil all the same. */
  datatype Params = Params(use: Use, ttl: nat, longest: nat, fails: nat)

  /** Waiting for the timer, calling since `start`, calling again after the swap found no key,
      or served with the reply still on its way. */
  datatype Phase = Waiting(wake: int) | Calling(start: int) | Creating(start: int) | Served(start: int)

  /** `failed` is the number of refreshing calls that have given up since one last succeeded. */
  datatype Clocked = Clocked(now: int, store: Store, phase: Phase, failed: nat)

  datatype Step =
    | Pass(time: nat)
    | Wake
    | Serve(net: Net)
    | Return(wait: nat)
    | GiveUp(wait: nat)
    | Other(call: Call, net: Net)
    | RunOut(key: Key)

  /** Requests that can come in between: nobody else uses the lock's content or forces its key,
      leases end by RunOut only, and the holder itself may publish once more for good, as the Mount
      and Unmount handlers do. */
  predicate Allowed(c: Call, u: Use) {
    (Polite(c, [u]) && !c.Expire?) || c == Create(u, None) || c == Swap(u, None)
  }

  function Next(p: Params, s: Clocked, step: Step): Option<Clocked> {
    match step
    case Pass(d) =>
      var inTime := match s.phase
        case Waiting(wake) => s.now + d <= wake
        case Calling(start) => s.now + d <= start + p.longest
        case Creating(start) => s.now + d <= start + p.longest
        case Served(start) => s.now + d <= start + p.longest;
      if inTime then Some(s.(now := s.now + d)) else None
    case Wake =>
      if s.phase == Waiting(s.now) then Some(s.(phase := Calling(s.now))) else None
    case Serve(net) =>
      var d := DeadlineOf(s.now, p.ttl);
      (match s.phase
       case Calling(start) =>
         var (store, reply) := Send(s.store, Swap(p.use, d), net);
         var phase := if reply == Done then Served(start)
                      else if reply == KeyNotFound then Creating(start) else Calling(start);
         Some(s.(store := store, phase := phase))
       case Creating(start) =>
         var (store, reply) := Send(s.store, Create(p.use, d), net);
         Some(s.(store := store, phase := if reply == Done then Served(start) else Calling(start)))
       case _ => None)
    case Return(wait) =>
      if s.phase.Served? && Jittered(p.ttl, wait) then
        Some(s.(phase := Waiting(s.now + wait), failed := 0))
      else None
    case GiveUp(wait) =>
      // the error is logged and the timer is set again
      if (s.phase.Calling? || s.phase.Creating?) && s.failed < p.fails
         && Jittered(p.ttl, wait) then
        Some(s.(phase := Waiting(s.now + wait), failed := s.failed + 1))
      else None
    case Other(c, net) =>
      if Allowed(c, p.use) then Some(s.(store := Send(s.store, c, net).0)) else None
    case RunOut(k) =>
      if k in s.store && s.store[k].deadline.Some? && s.store[k].deadline.value <= s.now then
        Some(s.(store := s.store - {k}))
      else None
  }

  /** Right after AcquireWithTTLRefresh has returned: the lock is permanent and the refresher
      has drawn its first wait. */
  predicate Acquired(p: Params, s: Clocked) {
    && HoldsForever(s.store, p.use) && s.failed == 0
    && s.phase.Waiting? && s.now + Quarter(p.ttl) <= s.phase.wake < s.now + 2 * Quarter(p.ttl)
  }

  function Run(p: Params, s: Clocked, steps: seq<Step>): Option<Clocked>
    decreases |steps|
  {
    if steps == [] then Some(s) else
    match Run(p, s, steps[..|steps| - 1])
    case None => None
    case Some(m) => Next(p, m, steps[|steps| - 1])
  }

  /** How long it may take from the start of a refreshing call until one is served, when `failed`
      have given up before it. */
  function Delay(p: Params, failed: nat): nat
    decreases p.fails - failed
  {
    if failed >= p.fails then p.longest
    else if Quarter(p.ttl) == 0 then 0
    else p.longest + 2 * Quarter(p.ttl) - 1 + Delay(p, failed + 1)
  }

  /** The parameters that a lease survives: no call gives up and none takes longer than a quarter
      of the TTL, or calls take no time at all and no two in a row give up. */
  predicate Survivable(p: Params) {
    if p.fails == 0 then p.longest <= Quarter(p.ttl) else p.fails == 1 && p.longest == 0
  }

  lemma SurvivableDelay(p: Params)
    requires WholeSeconds(p.ttl) && Survivable(p)
    ensures p.longest + 2 * Quarter(p.ttl) - 1 + Delay(p, 0) < 4 * Quarter(p.ttl)
  {
    if p.fails == 1 {
      assert Delay(p, 1) == p.longest;
    }
  }

  /** The lock is in place; a lease outlives the next refresh, however late it comes. */
  predicate Safe(p: Params, s: Clocked) {
    var q, delay := Quarter(p.ttl), Delay(p, s.failed);
    && s.failed <= p.fails && Holds(s.store, p.use)
    && match s.store[KeyOf(p.use)].deadline
       case None =>
         (match s.phase
          case Waiting(wake) => s.now <= wake
          case Calling(start) => start <= s.now <= start + p.longest
          case Creating(_) => false
          case Served(start) => start <= s.now <= start + p.longest)
       case Some(d) =>
         (match s.phase
          case Waiting(wake) => s.now <= wake && wake + delay < d
          case Calling(start) => start <= s.now <= start + p.longest && start + delay < d
          case Creating(_) => false
          case Served(start) => start <= s.now <= start + p.longest && start + 4 * q <= d)
  }

  lemma SafeNext(p: Params, s: Clocked, step: Step)
    requires WholeSeconds(p.ttl) && Survivable(p)
    requires Safe(p, s) && Next(p, s, step).Some?
    ensures Safe(p, Next(p, s, step).value)
  {
    assert p.ttl / Second * Second == p.ttl;
    SurvivableDelay(p);
  }

  lemma {:induction false} AlwaysSafe(p: Params, s: Clocked, steps: seq<Step>)
    requires WholeSeconds(p.ttl) && Survivable(p)
    requires Acquired(p, s) && Run(p, s, steps).Some?
    ensures Safe(p, Run(p, s, steps).value)
    decreases |steps|
  {
    if steps != [] {
      AlwaysSafe(p, s, steps[..|steps| - 1]);
      SafeNext(p, Run(p, s, steps[..|steps| - 1]).value, steps[|steps| - 1]);
    }
  }

  ghost predicate Reached(p: Params, s: Clocked, m: Clocked) {
    exists steps :: Run(p, s, steps) == Some(m)
  }

  /** From its acquisition the lock is never without the caller's content. */
  ghost predicate Continuous(p: Params, s: Clocked) {
    forall m :: Reached(p, s, m) ==> Holds(m.store, p.use)
  }

  lemma Go(p: Params, s: Clocked, m: Clocked, step: Step)
    requires Reached(p, s, m) && Next(p, m, step).Some?
    ensures Reached(p, s, Next(p, m, step).value)
  {
    var steps :| Run(p, s, steps) == Some(m);
    assert (steps + [step])[..|steps|] == steps;
    assert Run(p, s, steps + [step]) == Next(p, m, step);
  }

  /** The store with the lock leased to a deadline. */
  function Leased(p: Params, s: Clocked, deadline: int): Store {
    s.store[KeyOf(p.use) := Rec(p.use, Some(deadline))]
  }

  /** The first refresh is served at once. */
  lemma FirstLease(p: Params, s: Clocked)
    requires WholeSeconds(p.ttl) && Acquired(p, s)
    ensures var t := s.phase.wake;
      Reached(p, s, Clocked(t, Leased(p, s, t + 4 * Quarter(p.ttl)), Served(t), 0))
  {
    var t := s.phase.wake;
    assert p.ttl / Second * Second == p.ttl && p.ttl == 4 * Quarter(p.ttl);
    assert Run(p, s, []) == Some(s);
    Go(p, s, s, Pass(t - s.now));
    Go(p, s, Clocked(t, s.store, Waiting(t), 0), Wake);
    Go(p, s, Clocked(t, s.store, Calling(t), 0), Serve(Delivered));
  }

  /** A call returns some time after it was served at once, and the longest wait follows. */
  lemma ReturnRun(p: Params, s: Clocked, start: int, store: Store, late: nat)
    requires WholeSeconds(p.ttl) && late <= p.longest
    requires Reached(p, s, Clocked(start, store, Served(start), 0))
    ensures var wake := start + late + 2 * Quarter(p.ttl) - 1;
      Reached(p, s, Clocked(wake, store, Waiting(wake), 0))
  {
    Go(p, s, Clocked(start, store, Served(start), 0), Pass(late));
    Go(p, s, Clocked(start + late, store, Served(start), 0), Return(2 * Quarter(p.ttl) - 1));
    WaitRun(p, s, start + late, store, start + late + 2 * Quarter(p.ttl) - 1, 0);
  }

  lemma WaitRun(p: Params, s: Clocked, now: int, store: Store, wake: int, failed: nat)
    requires now <= wake && Reached(p, s, Clocked(now, store, Waiting(wake), failed))
    ensures Reached(p, s, Clocked(wake, store, Waiting(wake), failed))
  {
    Go(p, s, Clocked(now, store, Waiting(wake), failed), Pass(wake - now));
  }

  /** A call loses its requests and gives up some time later, and the longest wait begins. */
  lemma FailedCall(p: Params, s: Clocked, start: int, store: Store, failed: nat, late: nat)
    requires WholeSeconds(p.ttl) && failed < p.fails && late <= p.longest
    requires Reached(p, s, Clocked(start, store, Waiting(start), failed))
    ensures var wake := start + late + 2 * Quarter(p.ttl) - 1;
      Reached(p, s, Clocked(start + late, store, Waiting(wake), failed + 1))
  {
    Go(p, s, Clocked(start, store, Waiting(start), failed), Wake);
    Go(p, s, Clocked(start, store, Calling(start), failed), Serve(RequestLost));
    Go(p, s, Clocked(start, store, Calling(start), failed), Pass(late));
    Go(p, s, Clocked(start + late, store, Calling(start), failed), GiveUp(2 * Quarter(p.ttl) - 1));
  }

  /** The lease is up and nobody has refreshed it. */
  lemma LeaseEnds(p: Params, s: Clocked, now: int, phase: Phase, failed: nat)
    requires Reached(p, s, Clocked(now, Leased(p, s, now), phase, failed))
    ensures !Continuous(p, s)
  {
    Go(p, s, Clocked(now, Leased(p, s, now), phase, failed), RunOut(KeyOf(p.use)));
    assert !Holds(Leased(p, s, now) - {KeyOf(p.use)}, p.use);
  }

  /** Calls that may take longer than a quarter of the TTL are too slow: after a late return
      and the longest wait, a late second refresh comes when the lease has run out. */
  lemma SlowCallsLapse(p: Params, s: Clocked)
    requires WholeSeconds(p.ttl) && p.longest > Quarter(p.ttl) && Acquired(p, s)
    ensures !Continuous(p, s)
  {
    var q, t := Quarter(p.ttl), s.phase.wake;
    var store := Leased(p, s, t + 4 * q);
    FirstLease(p, s);
    ReturnRun(p, s, t, store, q + 1);
    Go(p, s, Clocked(t + 3 * q, store, Waiting(t + 3 * q), 0), Wake);
    Go(p, s, Clocked(t + 3 * q, store, Calling(t + 3 * q), 0), Pass(q));
    LeaseEnds(p, s, t + 4 * q, Calling(t + 3 * q), 0);
  }

  lemma TwoFailedCalls(p: Params, s: Clocked, start: int, store: Store)
    requires WholeSeconds(p.ttl) && p.fails >= 2
    requires Reached(p, s, Clocked(start, store, Waiting(start), 0))
    ensures var second := start + 2 * Quarter(p.ttl) - 1;
      Reached(p, s, Clocked(second, store, Waiting(second + 2 * Quarter(p.ttl) - 1), 2))
  {
    var second := start + 2 * Quarter(p.ttl) - 1;
    FailedCall(p, s, start, store, 0, 0);
    WaitRun(p, s, start, store, second, 1);
    FailedCall(p, s, second, store, 1, 0);
  }

  /** Two calls in a row that give up are too many, however quick they are. */
  lemma TwoFailuresLapse(p: Params, s: Clocked)
    requires WholeSeconds(p.ttl) && p.fails >= 2 && Acquired(p, s)
    ensures !Continuous(p, s)
  {
    var q, t := Quarter(p.ttl), s.phase.wake;
    var w := t + 4 * q - 2;
    FirstLease(p, s);
    ReturnRun(p, s, t, Leased(p, s, t + 4 * q), 0);
    TwoFailedCalls(p, s, t + 2 * q - 1, Leased(p, s, t + 4 * q));
    Go(p, s, Clocked(w, Leased(p, s, t + 4 * q), Waiting(w + 2 * q - 1), 2), Pass(2));
    LeaseEnds(p, s, t + 4 * q, Waiting(w + 2 * q - 1), 2);
  }

  /** One call that gives up is too many if calls take any time. */
  lemma OneFailureLapses(p: Params, s: Clocked)
    requires WholeSeconds(p.ttl) && p.fails >= 1 && p.longest >= 1 && Acquired(p, s)
    ensures !Continuous(p, s)
  {
    var q, t := Quarter(p.ttl), s.phase.wake;
    var store := Leased(p, s, t + 4 * q);
    FirstLease(p, s);
    ReturnRun(p, s, t, store, 1);
    FailedCall(p, s, t + 2 * q, store, 0, 1);
    WaitRun(p, s, t + 2 * q + 1, store, t + 4 * q, 1);
    LeaseEnds(p, s, t + 4 * q, Waiting(t + 4 * q), 1);
  }

  /** The lease is continuous over every run exactly when no refreshing call gives up and none takes
      longer than a quarter of the TTL, but for calls that take no time, of which one in a row may
      give up. */
  lemma LeaseContinuityExactly(p: Params, s: Clocked)
    requires WholeSeconds(p.ttl) && Acquired(p, s)
    ensures Continuous(p, s) <==> Survivable(p)
  {
    if Survivable(p) {
      forall m | Reached(p, s, m) ensures Holds(m.store, p.use) {
        var steps :| Run(p, s, steps) == Some(m);
        AlwaysSafe(p, s, steps);
      }
    } else if p.fails == 0 {
      SlowCallsLapse(p, s);
    } else if p.longest >= 1 {
      OneFailureLapses(p, s);
    } else {
      TwoFailuresLapse(p, s);
    }
  }
}
