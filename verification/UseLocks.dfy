/** config/use.go: use locks kept in etcd, one key per (lock type, volume).

    A lock is identified by nothing but its JSON content, so content equality is
    structural equality of `Use`. Each etcd request is one atomic step. */
module UseLocks {
  import opened Wrappers

  datatype LockType = MountType | SnapshotType | VolsupervisorType

  datatype Use =
    | UseMount(volume: string, hostname: string, reason: string)
    | UseSnapshot(volume: string, reason: string)
    | UseVolsupervisor(hostname: string)
  {
    /** May the key exist, with equal content, at the initial write? */
    predicate MayExist() { UseMount? }
  }

  datatype Key = Key(kind: LockType, volume: string)

  function KeyOf(u: Use): Key {
    match u
    case UseMount(v, _, _) => Key(MountType, v)
    case UseSnapshot(v, _) => Key(SnapshotType, v)
    case UseVolsupervisor(_) => Key(VolsupervisorType, "volsupervisor")
  }

  /** A record without a deadline is permanent. */
  datatype Rec = Rec(content: Use, deadline: Option<int>)

  type Store = map<Key, Rec>

  /** The requests etcd serves for use locks; `Expire` is etcd dropping a record whose
      lease has run out. */
  datatype Call =
    | Create(use: Use, deadline: Option<int>)
    | Swap(use: Use, deadline: Option<int>)
    | CompareDelete(use: Use)
    | ForceDelete(key: Key)
    | Expire(key: Key)

  datatype Reply = Done | NodeExist | KeyNotFound | TestFailed | NetError

  function Perform(s: Store, c: Call): (Store, Reply) {
    match c
    case Create(u, d) =>
      if KeyOf(u) in s then (s, NodeExist) else (s[KeyOf(u) := Rec(u, d)], Done)
    case Swap(u, d) =>
      if KeyOf(u) !in s then (s, KeyNotFound)
      else if s[KeyOf(u)].content != u then (s, TestFailed)
      else (s[KeyOf(u) := Rec(u, d)], Done)
    case CompareDelete(u) =>
      if KeyOf(u) !in s then (s, KeyNotFound)
      else if s[KeyOf(u)].content != u then (s, TestFailed)
      else (s - {KeyOf(u)}, Done)
    case ForceDelete(k) =>
      if k !in s then (s, KeyNotFound) else (s - {k}, Done)
    case Expire(k) =>
      if k in s && s[k].deadline.Some? then (s - {k}, Done) else (s, KeyNotFound)
  }

  function PerformAll(s: Store, calls: seq<Call>): Store
    decreases |calls|
  {
    if calls == [] then s else PerformAll(Perform(s, calls[0]).0, calls[1..])
  }

  /** What the network does to one request. */
  datatype Net = Delivered | ReplyLost | RequestLost

  function Send(s: Store, c: Call, net: Net): (Store, Reply) {
    match net
    case Delivered => Perform(s, c)
    case ReplyLost => (Perform(s, c).0, NetError)
    case RequestLost => (s, NetError)
  }

  /** The store holds u's own content at u's key. */
  predicate Holds(s: Store, u: Use) {
    KeyOf(u) in s && s[KeyOf(u)].content == u
  }

  /** As Holds, and the record cannot expire. */
  predicate HoldsForever(s: Store, u: Use) {
    KeyOf(u) in s && s[KeyOf(u)] == Rec(u, None)
  }

  predicate DistinctKeys(locks: seq<Use>) {
    forall a, b :: 0 <= a < b < |locks| ==> KeyOf(locks[a]) != KeyOf(locks[b])
  }

  predicate AllHeld(s: Store, ucs: seq<Use>) {
    forall u <- ucs :: HoldsForever(s, u)
  }

  /** Another client's request that neither uses one of these contents nor forces a key. */
  predicate Polite(c: Call, ucs: seq<Use>) {
    match c
    case Create(w, _) => w !in ucs
    case Swap(w, _) => w !in ucs
    case CompareDelete(w) => w !in ucs
    case ForceDelete(k) => forall u <- ucs :: KeyOf(u) != k
    case Expire(_) => true
  }

  predicate AllPolite(calls: seq<Call>, ucs: seq<Use>) {
    forall c <- calls :: Polite(c, ucs)
  }

  // ---- PublishUse, PublishUseWithTTL and RemoveUse -------------------------------------

  /** What happens around the (at most two) requests of one publish: the network's
      treatment of each, and the requests of other clients served between them. */
  datatype Weather = Weather(first: Net, between: seq<Call>, second: Net)

  const Calm := Weather(Delivered, [], Delivered)

  function Publish(s: Store, u: Use, w: Weather): (Store, Reply) {
    var (s1, r1) := Send(s, Create(u, None), w.first);
    if r1 == NodeExist && u.MayExist() then
      Send(PerformAll(s1, w.between), Swap(u, None), w.second)
    else (s1, r1)
  }

  function PublishTTL(s: Store, u: Use, d: Option<int>, w: Weather): (Store, Reply) {
    var (s1, r1) := Send(s, Swap(u, d), w.first);
    if r1 == KeyNotFound then
      Send(PerformAll(s1, w.between), Create(u, d), w.second)
    else (s1, r1)
  }

  function Removal(u: Use, force: bool): Call {
    if force then ForceDelete(KeyOf(u)) else CompareDelete(u)
  }

  const Second: int := 1_000_000_000

  /** The etcd client sends whole seconds, and no TTL at all when it is zero. */
  function DeadlineOf(now: int, ttl: nat): Option<int> {
    if ttl == 0 then None else Some(now + ttl / Second * Second)
  }

  /** The record of a publish with a TTL in nanoseconds: it ends after its whole seconds, at once if
      there are none, and never if the TTL is zero. */
  function Leased(u: Use, ttl: int, now: int): Rec {
    if ttl == 0 then Rec(u, None) else Rec(u, Some(now + ttl - ttl % 1_000_000_000))
  }

  datatype Published = Published(reply: Reply) | NegativeTTL

  class Client {
    var kv: Store

    constructor ()
      ensures kv == map[]
    {
      kv := map[];
    }

    method Request(c: Call, net: Net) returns (r: Reply)
      modifies this
      ensures (kv, r) == Send(old(kv), c, net)
    {
      match net {
        case Delivered =>
          var (s, reply) := Perform(kv, c);
          kv, r := s, reply;
        case ReplyLost =>
          kv, r := Perform(kv, c).0, NetError;
        case RequestLost =>
          r := NetError;
      }
    }

    /** Other clients' requests, served one after another. */
    method Interfere(calls: seq<Call>)
      modifies this
      ensures kv == PerformAll(old(kv), calls)
    {
      var i := 0;
      while i < |calls|
        invariant 0 <= i <= |calls|
        invariant PerformAll(kv, calls[i..]) == PerformAll(old(kv), calls)
      {
        kv := Perform(kv, calls[i]).0;
        i := i + 1;
      }
    }

    method PublishUse(u: Use, w: Weather) returns (r: Reply)
      modifies this
      ensures (kv, r) == Publish(old(kv), u, w)
      ensures r == Done ==> KeyOf(u) in kv && kv[KeyOf(u)] == Rec(u, None)
      ensures w == Calm ==>
        (r == Done <==> KeyOf(u) !in old(kv) || (u.UseMount? && old(kv)[KeyOf(u)].content == u))
    {
      r := Request(Create(u, None), w.first);
      if r == NodeExist && u.MayExist() {
        Interfere(w.between);
        r := Request(Swap(u, None), w.second);
      }
    }

    method PublishUseWithTTL(u: Use, ttl: int, now: int, w: Weather) returns (r: Published)
      modifies this
      ensures ttl < 0 ==> r == NegativeTTL && kv == old(kv)
      ensures ttl >= 0 ==>
        var (s, reply) := PublishTTL(old(kv), u, DeadlineOf(now, ttl), w);
        kv == s && r == Published(reply)
      ensures r == Published(Done) ==> KeyOf(u) in kv && kv[KeyOf(u)] == Leased(u, ttl, now)
      ensures w == Calm && ttl >= 0 ==>
        (r == Published(Done) <==> KeyOf(u) !in old(kv) || old(kv)[KeyOf(u)].content == u)
    {
      if ttl < 0 {
        return NegativeTTL;
      }
      var reply := Request(Swap(u, DeadlineOf(now, ttl)), w.first);
      if reply == KeyNotFound {
        Interfere(w.between);
        reply := Request(Create(u, DeadlineOf(now, ttl)), w.second);
      }
      r := Published(reply);
    }

    method RemoveUse(u: Use, force: bool, net: Net) returns (r: Reply)
      modifies this
      ensures (kv, r) == Send(old(kv), Removal(u, force), net)
      ensures r == Done ==> kv == old(kv) - {KeyOf(u)}
      ensures net == Delivered ==>
        (r == Done <==> KeyOf(u) in old(kv) && (force || old(kv)[KeyOf(u)].content == u))
    {
      r := Request(Removal(u, force), net);
    }
  }

  // ---- What the three operations mean --------------------------------------------------

  /** With nobody in between, a publish succeeds exactly when the key is free, or the lock
      type is re-entrant and the key holds equal content; the lock is then permanent and no
      other key has moved. A failed publish changes nothing. */
  lemma PublishExactly(s: Store, u: Use)
    ensures var (t, r) := Publish(s, u, Calm);
      && (r == Done <==> KeyOf(u) !in s || (u.UseMount? && s[KeyOf(u)].content == u))
      && (r == Done ==> HoldsForever(t, u) && t - {KeyOf(u)} == s - {KeyOf(u)})
      && (r != Done ==> t == s)
  {
    assert PerformAll(s, []) == s;
  }

  /** Under any interference and any network, a publish that reports success leaves the
      caller's own permanent content at the key. */
  lemma PublishDoneHolds(s: Store, u: Use, w: Weather)
    ensures Publish(s, u, w).1 == Done ==> HoldsForever(Publish(s, u, w).0, u)
  {
  }

  /** A TTL publish with nobody in between succeeds exactly when the key is free or holds
      equal content, whatever the lock type: unlike PublishUse it is re-entrant for every
      type. */
  lemma PublishTTLExactly(s: Store, u: Use, d: Option<int>)
    ensures var (t, r) := PublishTTL(s, u, d, Calm);
      && (r == Done <==> KeyOf(u) !in s || s[KeyOf(u)].content == u)
      && (r == Done ==> t == s[KeyOf(u) := Rec(u, d)])
      && (r != Done ==> t == s)
  {
    assert PerformAll(s, []) == s;
  }

  /** Publishing a free key and removing the same use gives back the store; a removal by
      anyone whose content differs leaves the store alone. */
  lemma PublishRemoveRoundTrip(s: Store, u: Use, other: Use)
    requires KeyOf(u) !in s
    ensures var t := Publish(s, u, Calm).0;
      && Perform(t, Removal(u, false)) == (s, Done)
      && (other != u && KeyOf(other) == KeyOf(u) ==>
            Perform(t, Removal(other, false)) == (t, TestFailed))
  {
    var t := Publish(s, u, Calm).0;
    assert t - {KeyOf(u)} == s;
  }

  /** An unforced removal succeeds exactly when the key holds the caller's content, and reports a
      missing key exactly when there is none; a removal that fails changes nothing. */
  lemma RemoveExactly(s: Store, u: Use)
    ensures var (t, r) := Perform(s, Removal(u, false));
      && (r == Done <==> Holds(s, u)) && (r == KeyNotFound <==> KeyOf(u) !in s)
      && t == if r == Done then s - {KeyOf(u)} else s
  {
  }

  /** A forced removal removes whatever is at the key, and fails exactly when there is nothing. */
  lemma ForcedRemovalExactly(s: Store, u: Use)
    ensures var (t, r) := Perform(s, Removal(u, true));
      && (r == Done <==> KeyOf(u) in s) && (r == KeyNotFound <==> KeyOf(u) !in s)
      && t == s - {KeyOf(u)}
  {
    assert KeyOf(u) !in s ==> s - {KeyOf(u)} == s;
  }

  // ---- Content of a key over a run -----------------------------------------------------

  /** The stores of a run: before the first request and after each one. */
  function Trace(s: Store, calls: seq<(Call, Net)>): (t: seq<Store>)
    ensures |t| == |calls| + 1 && t[0] == s
    decreases |calls|
  {
    if calls == [] then [s]
    else [s] + Trace(Send(s, calls[0].0, calls[0].1).0, calls[1..])
  }

  lemma {:induction false} TraceStep(s: Store, calls: seq<(Call, Net)>, i: nat)
    requires i < |calls|
    ensures Trace(s, calls)[i + 1] == Send(Trace(s, calls)[i], calls[i].0, calls[i].1).0
    decreases i
  {
    if i > 0 {
      TraceStep(Send(s, calls[0].0, calls[0].1).0, calls[1..], i - 1);
    }
  }

  /** Over any run of requests of any clients (the two requests of a publish are separate
      elements of the run), as long as a key is never absent its content never changes. */
  lemma {:induction false} ContentChangesOnlyThroughAbsence(
      s: Store, calls: seq<(Call, Net)>, i: nat, j: nat, k: Key)
    requires i <= j <= |calls|
    requires forall m {:trigger Trace(s, calls)[m]} :: i <= m <= j ==> k in Trace(s, calls)[m]
    ensures Trace(s, calls)[i][k].content == Trace(s, calls)[j][k].content
    decreases j - i
  {
    if i < j {
      ContentChangesOnlyThroughAbsence(s, calls, i, j - 1, k);
      assert k in Trace(s, calls)[j - 1] && k in Trace(s, calls)[j];
      TraceStep(s, calls, j - 1);
    }
  }
}
