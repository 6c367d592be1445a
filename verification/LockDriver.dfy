/** lock/lock.go: retrying acquisition and removal, and critical sections over several locks. */
module LockDriver {
  import opened Wrappers
  import opened UseLocks

  /** Sleeps between attempts last at least 100ms; durations are in nanoseconds. */
  const Pause: int := 100_000_000

  // ---- lockWait -------------------------------------------------------------------------

  /** lockWait's (true, nil), (false, LockFailed) and (false, nil). */
  datatype Wait = Again | Fail | Neither

  /** `since1` and `since2` are its first and second reading of the time since the start. */
  function LockWait(timeout: int, since1: int, since2: int): Wait {
    if timeout != 0 && (timeout == -1 || since1 < timeout) then Again
    else if since2 >= timeout then Fail
    else Neither
  }

  // ---- Retry loops ----------------------------------------------------------------------

  /** One trip round a retry loop: the clock and network around its store request, the two
      clock readings of lockWait, the sleep, and other clients' requests during it. */
  datatype Turn = Turn(weather: Weather, now: int, since1: int, since2: int, slept: int,
                       meanwhile: seq<Call>)

  /** What the loop retries: PublishUse (ttl 0), PublishUseWithTTL, or RemoveUse. */
  datatype Action = Take(ttl: int) | Drop

  datatype Outcome =
    | Succeeded      // nil, after a store call that reported success
    | TimedOut       // LockFailed
    | SilentFailure  // nil, although the last store call failed
    | Pending        // still trying when the turns end

  function Attempt(s: Store, u: Use, a: Action, t: Turn): (Store, bool) {
    match a
    case Take(ttl) =>
      if ttl == 0 then
        var (s1, r) := Publish(s, u, t.weather); (s1, r == Done)
      else if ttl < 0 then (s, false)
      else
        var (s1, r) := PublishTTL(s, u, DeadlineOf(t.now, ttl), t.weather); (s1, r == Done)
    case Drop =>
      var (s1, r) := Send(s, Removal(u, false), t.weather.first); (s1, r == Done)
  }

  /** The store, the outcome and the number of attempts of a retry loop. */
  function Retry(s: Store, u: Use, a: Action, timeout: int, turns: seq<Turn>): (Store, Outcome, nat)
    decreases |turns|
  {
    if turns == [] then (s, Pending, 0) else
    var t := turns[0];
    var (s1, ok) := Attempt(s, u, a, t);
    if ok then (s1, Succeeded, 1) else
    match LockWait(timeout, t.since1, t.since2)
    case Fail => (s1, TimedOut, 1)
    case Neither => (s1, SilentFailure, 1)
    case Again =>
      var (s2, out, n) := Retry(PerformAll(s1, t.meanwhile), u, a, timeout, turns[1..]);
      (s2, out, n + 1)
  }

  class Driver {
    const config: Client

    constructor (config: Client)
      ensures this.config == config
    {
      this.config := config;
    }

    /** The store call of one trip round acquire's loop. */
    method Publish(u: Use, ttl: int, t: Turn) returns (ok: bool)
      modifies config
      ensures (config.kv, ok) == Attempt(old(config.kv), u, Take(ttl), t)
    {
      if ttl != 0 {
        var r := config.PublishUseWithTTL(u, ttl, t.now, t.weather);
        ok := r == Published(Done);
      } else {
        var r := config.PublishUse(u, t.weather);
        ok := r == Done;
      }
    }

    method Acquire(u: Use, ttl: int, timeout: int, turns: seq<Turn>) returns (out: Outcome, n: nat)
      modifies config
      ensures (config.kv, out, n) == Retry(old(config.kv), u, Take(ttl), timeout, turns)
      ensures out == Succeeded ==>
        && 1 <= n <= |turns| && ttl >= 0 && KeyOf(u) in config.kv
        && config.kv[KeyOf(u)] == Leased(u, ttl, turns[n - 1].now)
    {
      ghost var was := config.kv;
      out, n := AcquireLoop(u, ttl, timeout, turns);
      TakenIsLeased(was, u, ttl, timeout, turns);
    }

    /** The loop of acquire. */
    method AcquireLoop(u: Use, ttl: int, timeout: int, turns: seq<Turn>) returns (out: Outcome, n: nat)
      modifies config
      ensures (config.kv, out, n) == Retry(old(config.kv), u, Take(ttl), timeout, turns)
    {
      out, n := Pending, 0;
      while n < |turns| && out == Pending
        invariant n <= |turns|
        invariant var (s, o, m) := Retry(old(config.kv), u, Take(ttl), timeout, turns);
          if out == Pending then
            (s, o, m - n) == Retry(config.kv, u, Take(ttl), timeout, turns[n..])
          else (s, o, m) == (config.kv, out, n)
        decreases |turns| - n, out == Pending
      {
        var t := turns[n];
        var ok := Publish(u, ttl, t);
        n := n + 1;
        if ok {
          out := Succeeded;
        } else {
          match LockWait(timeout, t.since1, t.since2)
          case Again => config.Interfere(t.meanwhile);
          case Fail => out := TimedOut;
          case Neither => out := SilentFailure;
        }
      }
    }

    method Clear(u: Use, timeout: int, turns: seq<Turn>) returns (out: Outcome, n: nat)
      modifies config
      ensures (config.kv, out, n) == Retry(old(config.kv), u, Drop, timeout, turns)
    {
      out, n := Pending, 0;
      while n < |turns| && out == Pending
        invariant n <= |turns|
        invariant var (s, o, m) := Retry(old(config.kv), u, Drop, timeout, turns);
          if out == Pending then
            (s, o, m - n) == Retry(config.kv, u, Drop, timeout, turns[n..])
          else (s, o, m) == (config.kv, out, n)
        decreases |turns| - n, out == Pending
      {
        var t := turns[n];
        var r := config.RemoveUse(u, false, t.weather.first);
        n := n + 1;
        if r == Done {
          out := Succeeded;
        } else {
          match LockWait(timeout, t.since1, t.since2)
          case Again => config.Interfere(t.meanwhile);
          case Fail => out := TimedOut;
          case Neither => out := SilentFailure;
        }
      }
    }

    method ExecuteWithMultiUseLock(ucs: seq<Use>, timeout: int, scripts: seq<Script>,
                                   body: seq<Call>, bodyOk: bool, partings: seq<Parting>)
      returns (r: Section)
      requires |scripts| == |ucs| == |partings|
      modifies config
      ensures (config.kv, r) == Execute(old(config.kv), ucs, timeout, scripts, body, bodyOk, partings)
    {
      var i := 0;
      while i < |ucs|
        invariant 0 <= i <= |ucs|
        invariant Acquired(old(config.kv), ucs, timeout, scripts[..i]) == (config.kv, None)
      {
        config.Interfere(scripts[i].gap);
        var out, n := Acquire(ucs[i], 0, timeout, scripts[i].turns);
        assert scripts[..i + 1][..i] == scripts[..i];
        if out == TimedOut || out == Pending {
          RefusedStays(old(config.kv), ucs, timeout, scripts[..i + 1], scripts);
          return Refused(i, out);
        }
        i := i + 1;
      }
      assert scripts[..i] == scripts;
      config.Interfere(body);
      ghost var ended := config.kv;
      i := 0;
      while i < |ucs|
        invariant 0 <= i <= |ucs|
        invariant config.kv == Released(ended, ucs, partings[..i])
      {
        config.Interfere(partings[i].gap);
        var _ := config.RemoveUse(ucs[i], false, partings[i].net);
        assert partings[..i + 1][..i] == partings[..i];
        i := i + 1;
      }
      assert partings[..i] == partings;
      r := Ran(bodyOk);
    }
  }

  // ---- Critical sections over several locks -----------------------------------------------

  /** What ExecuteWithMultiUseLock returns: refused with the first `held` locks still taken,
      or the body's own verdict. */
  datatype Section = Refused(held: nat, why: Outcome) | Ran(ok: bool)

  /** One acquire: other clients' requests served before its first attempt, and its turns. */
  datatype Script = Script(gap: seq<Call>, turns: seq<Turn>)

  /** One removal: other clients' requests served before it, and what the network does to it. */
  datatype Parting = Parting(gap: seq<Call>, net: Net)

  /** The first locks acquired in turn, up to the first refusal. */
  function Acquired(s: Store, ucs: seq<Use>, timeout: int, scripts: seq<Script>): (Store, Option<Section>)
    requires |scripts| <= |ucs|
    decreases |scripts|
  {
    if scripts == [] then (s, None) else
    var i := |scripts| - 1;
    var (m, refused) := Acquired(s, ucs, timeout, scripts[..i]);
    if refused.Some? then (m, refused) else
    var (t, out, _) := Retry(PerformAll(m, scripts[i].gap), ucs[i], Take(0), timeout, scripts[i].turns);
    (t, if out == TimedOut || out == Pending then Some(Refused(i, out)) else None)
  }

  /** The first locks removed in turn, whatever the removals say. */
  function Released(s: Store, ucs: seq<Use>, partings: seq<Parting>): Store
    requires |partings| <= |ucs|
    decreases |partings|
  {
    if partings == [] then s else
    var i := |partings| - 1;
    Send(PerformAll(Released(s, ucs, partings[..i]), partings[i].gap), Removal(ucs[i], false), partings[i].net).0
  }

  /** `body` is the requests served from the last acquire to the end of runFunc. */
  function Execute(s: Store, ucs: seq<Use>, timeout: int, scripts: seq<Script>,
                   body: seq<Call>, bodyOk: bool, partings: seq<Parting>): (Store, Section)
    requires |scripts| == |ucs| == |partings|
  {
    match Acquired(s, ucs, timeout, scripts)
    case (t, Some(refused)) => (t, refused)
    case (t, None) => (Released(PerformAll(t, body), ucs, partings), Ran(bodyOk))
  }

  lemma {:induction false} RefusedStays(s: Store, ucs: seq<Use>, timeout: int, scripts: seq<Script>, all: seq<Script>)
    requires scripts <= all && |all| <= |ucs| && Acquired(s, ucs, timeout, scripts).1.Some?
    ensures Acquired(s, ucs, timeout, all) == Acquired(s, ucs, timeout, scripts)
    decreases |all|
  {
    if scripts != all {
      RefusedStays(s, ucs, timeout, scripts, all[..|all| - 1]);
    }
  }

  predicate PoliteTurns(turns: seq<Turn>, ucs: seq<Use>) {
    forall t <- turns :: AllPolite(t.weather.between, ucs) && AllPolite(t.meanwhile, ucs)
  }

  predicate PoliteScripts(ucs: seq<Use>, timeout: int, scripts: seq<Script>, body: seq<Call>,
                          partings: seq<Parting>)
  {
    && DistinctKeys(ucs) && AllPolite(body, ucs)
    && (forall x <- scripts :: AllPolite(x.gap, ucs) && PoliteTurns(x.turns, ucs)
                               && Honest(timeout, Readings(x.turns)))
    && (forall x <- partings :: AllPolite(x.gap, ucs))
  }

  lemma {:induction false} PoliteKeeps(s: Store, calls: seq<Call>, ucs: seq<Use>, held: seq<Use>)
    requires AllPolite(calls, ucs) && AllHeld(s, held) && forall u <- held :: u in ucs
    ensures AllHeld(PerformAll(s, calls), held)
    decreases |calls|
  {
    if calls != [] {
      assert Polite(calls[0], ucs);
      PoliteKeeps(Perform(s, calls[0]).0, calls[1..], ucs, held);
    }
  }

  lemma {:induction false} RetryKeeps(s: Store, u: Use, timeout: int, turns: seq<Turn>,
                                      ucs: seq<Use>, held: seq<Use>)
    requires PoliteTurns(turns, ucs) && AllHeld(s, held)
    requires forall w <- held :: w in ucs && KeyOf(w) != KeyOf(u)
    ensures AllHeld(Retry(s, u, Take(0), timeout, turns).0, held)
    decreases |turns|
  {
    if turns != [] {
      var t := turns[0];
      assert t in turns;
      var s1 := Send(s, Create(u, None), t.weather.first).0;
      PoliteKeeps(s1, t.weather.between, ucs, held);
      var s2 := Attempt(s, u, Take(0), t).0;
      assert AllHeld(s2, held);
      PoliteKeeps(s2, t.meanwhile, ucs, held);
      RetryKeeps(PerformAll(s2, t.meanwhile), u, timeout, turns[1..], ucs, held);
    }
  }

  lemma AcquireKeepsOthers(s: Store, ucs: seq<Use>, i: nat, timeout: int, turns: seq<Turn>)
    requires i < |ucs| && DistinctKeys(ucs) && PoliteTurns(turns, ucs)
    requires Honest(timeout, Readings(turns))
    requires AllHeld(s, ucs[..i])
    ensures var (t, out, _) := Retry(s, ucs[i], Take(0), timeout, turns);
      && AllHeld(t, ucs[..i]) && out != SilentFailure
      && (out == Succeeded ==> AllHeld(t, ucs[..i + 1]))
  {
    RetryKeeps(s, ucs[i], timeout, turns, ucs, ucs[..i]);
    NilMeansDone(s, ucs[i], Take(0), timeout, turns);
    assert ucs[..i + 1] == ucs[..i] + [ucs[i]];
  }

  lemma {:induction false} AcquireHolds(s: Store, ucs: seq<Use>, timeout: int, scripts: seq<Script>)
    requires |scripts| <= |ucs| && PoliteScripts(ucs, timeout, scripts, [], [])
    ensures match Acquired(s, ucs, timeout, scripts)
      case (t, None) => AllHeld(t, ucs[..|scripts|])
      case (t, Some(r)) => r.Refused? && r.held < |scripts| && AllHeld(t, ucs[..r.held])
    decreases |scripts|
  {
    if scripts != [] {
      var i := |scripts| - 1;
      AcquireHolds(s, ucs, timeout, scripts[..i]);
      var (m, refused) := Acquired(s, ucs, timeout, scripts[..i]);
      if refused.None? {
        assert scripts[i] in scripts;
        PoliteKeeps(m, scripts[i].gap, ucs, ucs[..i]);
        AcquireKeepsOthers(PerformAll(m, scripts[i].gap), ucs, i, timeout, scripts[i].turns);
      }
    }
  }

  /** None of these contents is anywhere. */
  predicate NoneHeld(s: Store, ucs: seq<Use>) {
    forall u <- ucs :: !Holds(s, u)
  }

  /** Contents that are gone stay gone while nobody else uses them. */
  lemma {:induction false} PoliteLeavesGone(s: Store, calls: seq<Call>, ucs: seq<Use>, gone: seq<Use>)
    requires AllPolite(calls, ucs) && NoneHeld(s, gone) && forall u <- gone :: u in ucs
    ensures NoneHeld(PerformAll(s, calls), gone)
    decreases |calls|
  {
    if calls != [] {
      assert Polite(calls[0], ucs);
      PoliteLeavesGone(Perform(s, calls[0]).0, calls[1..], ucs, gone);
    }
  }

  lemma ReleaseStep(s: Store, ucs: seq<Use>, i: nat)
    requires i < |ucs| && DistinctKeys(ucs) && AllHeld(s, ucs[i..]) && NoneHeld(s, ucs[..i])
    ensures var t := Perform(s, CompareDelete(ucs[i])).0;
      AllHeld(t, ucs[i + 1..]) && NoneHeld(t, ucs[..i + 1]) && t == s - {KeyOf(ucs[i])}
  {
    assert ucs[i] in ucs[i..] && HoldsForever(s, ucs[i]);
    assert ucs[i..] == [ucs[i]] + ucs[i + 1..] && ucs[..i + 1] == ucs[..i] + [ucs[i]];
    forall w | w in ucs[i + 1..] ensures HoldsForever(s, w) && KeyOf(w) != KeyOf(ucs[i]) {
      assert w in ucs[i..];
    }
  }

  lemma {:induction false} ReleaseClears(s: Store, ucs: seq<Use>, partings: seq<Parting>)
    requires |partings| <= |ucs| && DistinctKeys(ucs) && AllHeld(s, ucs)
    requires forall x <- partings :: AllPolite(x.gap, ucs) && x.net == Delivered
    ensures var t := Released(s, ucs, partings);
      && AllHeld(t, ucs[|partings|..]) && NoneHeld(t, ucs[..|partings|])
      && ((forall x <- partings :: x.gap == []) ==> forall u <- ucs[..|partings|] :: KeyOf(u) !in t)
    decreases |partings|
  {
    if partings == [] {
      assert ucs[0..] == ucs;
    } else {
      var i := |partings| - 1;
      assert partings[i] in partings;
      ReleaseClears(s, ucs, partings[..i]);
      var m := Released(s, ucs, partings[..i]);
      PoliteKeeps(m, partings[i].gap, ucs, ucs[i..]);
      PoliteLeavesGone(m, partings[i].gap, ucs, ucs[..i]);
      ReleaseStep(PerformAll(m, partings[i].gap), ucs, i);
      assert ucs[..i + 1] == ucs[..i] + [ucs[i]];
    }
  }

  /** Whatever becomes of the removals, they touch no key that holds anything but one of the section's own
      contents. */
  lemma {:induction false} ReleaseSpares(s: Store, ucs: seq<Use>, partings: seq<Parting>, k: Key)
    requires |partings| <= |ucs| && forall x <- partings :: x.gap == []
    requires k in s && s[k].content !in ucs
    ensures k in Released(s, ucs, partings) && Released(s, ucs, partings)[k] == s[k]
    decreases |partings|
  {
    if partings != [] {
      var i := |partings| - 1;
      assert partings[i] in partings && ucs[i] in ucs;
      ReleaseSpares(s, ucs, partings[..i], k);
    }
  }

  /** While nobody else uses the contents of the locks or forces their keys, and the clock is
      honest: runFunc starts and ends with every lock of the list in place for good; afterwards, if
      the removals arrive, none of the contents is left, and none of the keys either if nobody else
      has come in between. A refused section leaves the locks it already had in place. */
  lemma SectionHoldsItsLocks(s: Store, ucs: seq<Use>, timeout: int, scripts: seq<Script>,
                             body: seq<Call>, bodyOk: bool, partings: seq<Parting>)
    requires |scripts| == |ucs| == |partings| && PoliteScripts(ucs, timeout, scripts, body, partings)
    ensures var (started, refused) := Acquired(s, ucs, timeout, scripts);
      var (after, r) := Execute(s, ucs, timeout, scripts, body, bodyOk, partings);
      match refused
      case None =>
        && r == Ran(bodyOk) && AllHeld(started, ucs) && AllHeld(PerformAll(started, body), ucs)
        && ((forall x <- partings :: x.net == Delivered) ==> NoneHeld(after, ucs))
        && ((forall x <- partings :: x == Parting([], Delivered)) ==> forall u <- ucs :: KeyOf(u) !in after)
      case Some(_) =>
        r.Refused? && r.held < |ucs| && AllHeld(after, ucs[..r.held])
  {
    AcquireHolds(s, ucs, timeout, scripts);
    var (started, refused) := Acquired(s, ucs, timeout, scripts);
    assert ucs[..|scripts|] == ucs;
    if refused.None? {
      PoliteKeeps(started, body, ucs, ucs);
      if forall x <- partings :: x.net == Delivered {
        ReleaseClears(PerformAll(started, body), ucs, partings);
      }
    }
  }

  // ---- Clocks and timeouts ---------------------------------------------------------------

  /** The clock never goes back, from one reading to the next and over the sleeps, which last
      at least 100ms. */
  predicate ClockRuns(turns: seq<Turn>, from: int)
    decreases |turns|
  {
    turns == [] ||
    (from <= turns[0].since1 <= turns[0].since2 && Pause <= turns[0].slept
     && ClockRuns(turns[1..], turns[0].since1 + turns[0].slept))
  }

  /** lockWait says neither yes nor no exactly when its first reading was at or past the timeout
      and its second was not, or when the timeout is zero and the clock is behind its start. */
  predicate Slips(timeout: int, r: Reading) {
    timeout != -1 && r.since2 < timeout && (timeout == 0 || timeout <= r.since1)
  }

  lemma NeitherExactly(timeout: int, r: Reading)
    ensures LockWait(timeout, r.since1, r.since2) == Neither <==> Slips(timeout, r)
  {
  }

  /** lockWait's two readings of the clock in one trip. */
  datatype Reading = Reading(since1: int, since2: int)

  function Readings(turns: seq<Turn>): seq<Reading> {
    if turns == [] then [] else [Reading(turns[0].since1, turns[0].since2)] + Readings(turns[1..])
  }

  /** No trip slips before one that ends the loop with an error. */
  predicate Honest(timeout: int, readings: seq<Reading>) {
    readings == []
    || (!Slips(timeout, readings[0])
        && (LockWait(timeout, readings[0].since1, readings[0].since2) == Fail || Honest(timeout, readings[1..])))
  }

  lemma {:induction false} ClockRunsIsHonest(timeout: int, turns: seq<Turn>, from: nat)
    requires ClockRuns(turns, from)
    ensures Honest(timeout, Readings(turns))
    decreases |turns|
  {
    if turns != [] {
      ClockRunsIsHonest(timeout, turns[1..], turns[0].since1 + turns[0].slept);
    }
  }

  lemma AttemptDone(s: Store, u: Use, a: Action, t: Turn)
    ensures var (s1, ok) := Attempt(s, u, a, t);
      ok ==> if a.Take? then Holds(s1, u) && (a.ttl == 0 ==> HoldsForever(s1, u)) else KeyOf(u) !in s1
  {
  }

  /** With an honest clock, such as one that never goes back, acquire and clear return nil only
      after a store call that reported success: the lock then is in place (for good if no TTL was
      asked for), respectively gone. */
  lemma {:induction false} NilMeansDone(s: Store, u: Use, a: Action, timeout: int, turns: seq<Turn>)
    requires Honest(timeout, Readings(turns))
    ensures var (t, out, _) := Retry(s, u, a, timeout, turns);
      && out != SilentFailure
      && (out == Succeeded ==>
            if a.Take? then Holds(t, u) && (a.ttl == 0 ==> HoldsForever(t, u))
            else KeyOf(u) !in t)
    decreases |turns|
  {
    if turns != [] {
      var s1 := Attempt(s, u, a, turns[0]).0;
      AttemptDone(s, u, a, turns[0]);
      NeitherExactly(timeout, Readings(turns)[0]);
      assert Readings(turns)[1..] == Readings(turns[1..]);
      if LockWait(timeout, turns[0].since1, turns[0].since2) == Again {
        NilMeansDone(PerformAll(s1, turns[0].meanwhile), u, a, timeout, turns[1..]);
      }
    }
  }

  lemma TakenOnce(s: Store, u: Use, ttl: int, t: Turn)
    ensures var (s1, ok) := Attempt(s, u, Take(ttl), t);
      ok ==> ttl >= 0 && KeyOf(u) in s1 && s1[KeyOf(u)] == Leased(u, ttl, t.now)
  {
  }

  /** An acquire with a TTL that reports success after n turns has left the caller's own content at the
      key, to end after the whole seconds of the TTL, from the clock of its last turn; one without a TTL
      has left it there for good, and one with a negative TTL never succeeds. */
  lemma {:induction false} TakenIsLeased(s: Store, u: Use, ttl: int, timeout: int, turns: seq<Turn>)
    ensures var (t, out, n) := Retry(s, u, Take(ttl), timeout, turns);
      out == Succeeded ==>
        && 1 <= n <= |turns| && ttl >= 0 && KeyOf(u) in t
        && t[KeyOf(u)] == Leased(u, ttl, turns[n - 1].now)
    decreases |turns|
  {
    if turns != [] {
      TakenOnce(s, u, ttl, turns[0]);
      var s1 := Attempt(s, u, Take(ttl), turns[0]).0;
      TakenIsLeased(PerformAll(s1, turns[0].meanwhile), u, ttl, timeout, turns[1..]);
    }
  }

  /** A first turn that nothing disturbs succeeds exactly when the key is free or holds equal content,
      which without a TTL is for mount locks only; and then no other key has moved. */
  lemma FirstTurnExactly(s: Store, u: Use, ttl: nat, timeout: int, turns: seq<Turn>)
    requires turns != [] && turns[0].weather == Calm
    ensures var (t, out, n) := Retry(s, u, Take(ttl), timeout, turns);
      && (out == Succeeded && n == 1 <==>
            KeyOf(u) !in s || (s[KeyOf(u)].content == u && (ttl > 0 || u.UseMount?)))
      && (out == Succeeded && n == 1 ==> t == s[KeyOf(u) := Leased(u, ttl, turns[0].now)])
  {
    assert PerformAll(s, []) == s;
    var s1 := Attempt(s, u, Take(ttl), turns[0]).0;
    TakenIsLeased(PerformAll(s1, turns[0].meanwhile), u, ttl, timeout, turns[1..]);
  }

  /** For example the refresher's own refresh: its lock becomes a lease of the whole seconds of the TTL. */
  lemma RefreshLeases(s: Store, u: Use, ttl: nat, timeout: int, turns: seq<Turn>)
    requires Holds(s, u) && ttl >= 1_000_000_000 && turns != [] && turns[0].weather == Calm
    ensures Retry(s, u, Take(ttl), timeout, turns)
         == (s[KeyOf(u) := Rec(u, Some(turns[0].now + ttl - ttl % 1_000_000_000))], Succeeded, 1)
  {
    FirstTurnExactly(s, u, ttl, timeout, turns);
  }

  /** A loop gives up with an error only when its clock has reached the timeout, and goes round again
      only before that, or without end if the timeout is -1. */
  lemma {:induction false} TimedOutExactly(s: Store, u: Use, a: Action, timeout: int, turns: seq<Turn>)
    ensures var (_, out, n) := Retry(s, u, a, timeout, turns);
      && n <= |turns|
      && (out == TimedOut ==> n >= 1 && timeout != -1 && turns[n - 1].since2 >= timeout)
      && (out == Pending ==> n == |turns|)
      && (forall k | 0 <= k < n && (k < n - 1 || out == Pending) ::
            timeout == -1 || (timeout != 0 && turns[k].since1 < timeout))
    decreases |turns|
  {
    if turns != [] {
      var s1 := Attempt(s, u, a, turns[0]).0;
      TimedOutExactly(PerformAll(s1, turns[0].meanwhile), u, a, timeout, turns[1..]);
    }
  }

  /** The action cannot succeed: the key holds other content or, for a removal, nothing. */
  predicate Blocked(s: Store, u: Use, a: Action) {
    if KeyOf(u) in s then s[KeyOf(u)].content != u else a.Drop?
  }

  predicate Quiet(turns: seq<Turn>) {
    forall t <- turns :: t.weather.between == [] && t.meanwhile == []
  }

  /** With a clock that is not honest every blocked acquire or clear returns nil all the same. */
  lemma {:induction false} BlockedSlips(s: Store, u: Use, a: Action, timeout: int, turns: seq<Turn>)
    requires Blocked(s, u, a) && Quiet(turns) && !Honest(timeout, Readings(turns))
    ensures Retry(s, u, a, timeout, turns).0 == s && Retry(s, u, a, timeout, turns).1 == SilentFailure
    decreases |turns|
  {
    var t := turns[0];
    assert t in turns && PerformAll(s, []) == s;
    assert Attempt(s, u, a, t) == (s, false);
    NeitherExactly(timeout, Readings(turns)[0]);
    assert Readings(turns)[1..] == Readings(turns[1..]);
    if !Slips(timeout, Readings(turns)[0]) {
      BlockedSlips(s, u, a, timeout, turns[1..]);
    }
  }

  /** Another client's use of the same key. */
  function Rival(u: Use): Use {
    match u
    case UseMount(v, h, r) => UseMount(v, h, r + "'")
    case UseSnapshot(v, r) => UseSnapshot(v, r + "'")
    case UseVolsupervisor(h) => UseVolsupervisor(h + "'")
  }

  lemma RivalDiffers(u: Use)
    ensures KeyOf(Rival(u)) == KeyOf(u) && Rival(u) != u
  {
    match u
    case UseMount(_, _, r) => assert |r + "'"| != |r|;
    case UseSnapshot(_, r) => assert |r + "'"| != |r|;
    case UseVolsupervisor(h) => assert |h + "'"| != |h|;
  }

  function TurnsOf(readings: seq<Reading>): (turns: seq<Turn>)
    ensures Quiet(turns) && Readings(turns) == readings
  {
    if readings == [] then []
    else [Turn(Calm, 0, readings[0].since1, readings[0].since2, Pause, [])] + TurnsOf(readings[1..])
  }

  /** acquire and clear never return nil without success, on any store and with any interference,
      exactly when the readings of the clock are honest. */
  lemma SilentExactly(u: Use, a: Action, timeout: int, readings: seq<Reading>)
    ensures Honest(timeout, readings) <==>
      forall s, turns :: Readings(turns) == readings ==>
        Retry(s, u, a, timeout, turns).1 != SilentFailure
  {
    if Honest(timeout, readings) {
      forall s, turns | Readings(turns) == readings
        ensures Retry(s, u, a, timeout, turns).1 != SilentFailure
      {
        NilMeansDone(s, u, a, timeout, turns);
      }
    } else {
      RivalDiffers(u);
      var s: Store := map[KeyOf(u) := Rec(Rival(u), None)];
      BlockedSlips(s, u, a, timeout, TurnsOf(readings));
      assert Retry(s, u, a, timeout, TurnsOf(readings)).1 == SilentFailure;
    }
  }

  /** For example, a clock set back between lockWait's two readings makes acquire return nil without
      the lock: here it is another host's. */
  lemma ClockSetBackLies()
    ensures exists turns, s ::
      && Retry(s, UseMount("p/v", "b", "Mount"), Take(0), 60 * Second, turns).1 == SilentFailure
      && Holds(Retry(s, UseMount("p/v", "b", "Mount"), Take(0), 60 * Second, turns).0,
               UseMount("p/v", "a", "Mount"))
  {
    var a, b := UseMount("p/v", "a", "Mount"), UseMount("p/v", "b", "Mount");
    var s: Store := map[KeyOf(a) := Rec(a, None)];
    var readings := [Reading(61 * Second, 59 * Second)];
    assert Slips(60 * Second, readings[0]);
    BlockedSlips(s, b, Take(0), 60 * Second, TurnsOf(readings));
    assert Retry(s, b, Take(0), 60 * Second, TurnsOf(readings)).0 == s;
  }

  // ---- Clearing what is not there -----------------------------------------------------------

  /** clear never succeeds while its lock is missing, the documented leniency of RemoveUse
      notwithstanding: it tries to the end of its timeout, and without one for ever. */
  lemma {:induction false} AbsentNeverCleared(s: Store, u: Use, timeout: int, turns: seq<Turn>)
    requires KeyOf(u) !in s
    requires forall t <- turns, c <- t.meanwhile :: c.Create? ==> KeyOf(c.use) != KeyOf(u)
    ensures var (t, out, n) := Retry(s, u, Drop, timeout, turns);
      && out != Succeeded && KeyOf(u) !in t
      && (Honest(timeout, Readings(turns)) ==> out in {TimedOut, Pending})
      && (timeout == -1 ==> out == Pending && n == |turns|)
    decreases |turns|
  {
    if Honest(timeout, Readings(turns)) {
      NilMeansDone(s, u, Drop, timeout, turns);
    }
    if turns != [] {
      var t := turns[0];
      RemoveExactly(s, u);
      assert t in turns && Attempt(s, u, Drop, t) == (s, false);
      StaysAbsent(s, t.meanwhile, KeyOf(u));
      assert Readings(turns)[1..] == Readings(turns[1..]);
      AbsentNeverCleared(PerformAll(s, t.meanwhile), u, timeout, turns[1..]);
    }
  }

  lemma {:induction false} StaysAbsent(s: Store, calls: seq<Call>, k: Key)
    requires k !in s && forall c <- calls :: c.Create? ==> KeyOf(c.use) != k
    ensures k !in PerformAll(s, calls)
    decreases |calls|
  {
    if calls != [] {
      assert calls[0] in calls;
      StaysAbsent(Perform(s, calls[0]).0, calls[1..], k);
    }
  }

  // ---- Bounded attempts ---------------------------------------------------------------------

  function Ceil(timeout: nat): nat {
    (timeout + Pause - 1) / Pause
  }

  /** With a timeout of zero or more, at most ceil(timeout/100ms)+1 attempts are made, and the
      loop is over by then. `from` is the time already gone. */
  lemma {:induction false} AttemptsBounded(s: Store, u: Use, a: Action, timeout: nat,
                                           turns: seq<Turn>, from: nat)
    requires ClockRuns(turns, from)
    ensures var (_, out, n) := Retry(s, u, a, timeout, turns);
      var most := 1 + if from < timeout then Ceil(timeout - from) else 0;
      n <= most && (|turns| >= most ==> out != Pending)
    decreases |turns|
  {
    if turns != [] {
      var t := turns[0];
      var later := t.since1 + t.slept;
      var s1 := Attempt(s, u, a, t).0;
      AttemptsBounded(PerformAll(s1, t.meanwhile), u, a, timeout, turns[1..], later);
      if t.since1 < timeout {
        CeilDrops(timeout - from, if later < timeout then timeout - later else 0);
      }
    }
  }

  lemma CeilDrops(x: nat, y: nat)
    requires x > 0 && (y == 0 || y + Pause <= x)
    ensures Ceil(y) + 1 <= Ceil(x)
  {
    assert Ceil(0) == 0;
    if y > 0 {
      assert (y + Pause - 1) / Pause + 1 == (y + Pause - 1 + Pause) / Pause;
      assert y + Pause - 1 + Pause <= x + Pause - 1;
    }
  }
}
