/** db/impl/etcd/client.go with the hooks of db/volume.go: what Get, Set, Delete and traverse do
    to an entity and to the key/value store, and what holds over runs of them. A volume lives in
    two records, its own and that of its runtime options. */
module EntityStore {
  import opened Wrappers
  import opened Strings
  import opened EntityPaths

  // ---- Entities and records --------------------------------------------------------------

  /** RuntimeOptions without its names, which are not written to the store. */
  datatype Opts = Opts(snapshots: bool, frequency: string, keep: nat, rest: string)

  /** A volume's other fields; `sound` is whether the rest of Validate accepts them. */
  datatype Body = Body(content: string, sound: bool)

  datatype Runtime = Runtime(opts: Opts, policy: string, volume: string)

  /** `runtime` is None for a nil pointer. */
  datatype Vol = Vol(policy: string, name: string, body: Body, runtime: Option<Runtime>)

  /** The runtime options inside a volume's record. */
  datatype Embedding = Absent | Null | Given(opts: Opts)

  /** A stored value: the JSON of one of the entities, or text that is not JSON. */
  datatype Doc =
    | RuntimeDoc(opts: Opts)
    | VolumeDoc(policy: string, name: string, body: Body, runtime: Embedding)
    | Bad

  type Store = map<string, Doc>

  datatype Reply = Done | Failed | Exists | Panicked

  /** What becomes of a call to etcd: it works, it never arrives, or only its answer is lost. */
  datatype Fate = Fine | Lost | Unheard

  /** Unmarshalling; the two entities have no field in common. */
  function DecodeRuntime(ro: Runtime, d: Doc): Option<Runtime> {
    match d
    case RuntimeDoc(opts) => Some(ro.(opts := opts))
    case VolumeDoc(_, _, _, _) => Some(ro)
    case Bad => None
  }

  function DecodeVolume(v: Vol, d: Doc): Option<Vol> {
    match d
    case RuntimeDoc(_) => Some(v)
    case VolumeDoc(p, n, body, e) => Some(Vol(p, n, body, DecodeEmbedding(v.runtime, e)))
    case Bad => None
  }

  function DecodeEmbedding(ro: Option<Runtime>, e: Embedding): Option<Runtime> {
    match e
    case Absent => ro
    case Null => None
    case Given(opts) => Some(if ro.Some? then ro.value.(opts := opts) else Runtime(opts, "", ""))
  }

  // ---- Validation ------------------------------------------------------------------------

  /** The pattern ^[^./]+$. */
  predicate ValidName(s: string) {
    Part(s) && '.' !in s
  }

  predicate VolumeValid(v: Vol) {
    ValidName(v.policy) && ValidName(v.name) && v.body.sound
  }

  /** The pattern ^[0-9]+.$, in which the dot is anything but a newline. */
  predicate FrequencyValid(s: string) {
    |s| >= 2 && (forall i :: 0 <= i < |s| - 1 ==> '0' <= s[i] <= '9') && s[|s| - 1] != '\n'
  }

  predicate RuntimeValid(o: Opts) {
    o.snapshots ==> FrequencyValid(o.frequency) && o.keep >= 1
  }

  // ---- SetKey ----------------------------------------------------------------------------

  function RuntimeSetKey(ro: Runtime, key: string): (Runtime, bool) {
    match RuntimeNames(key)
    case Err => (ro, false)
    case Ok((p, n)) => (ro.(policy := p, volume := n), true)
  }

  /** The names are passed on to the runtime options. */
  function VolumeSetKey(v: Vol, key: string): (Vol, Reply) {
    match VolumeNames(key)
    case Err => (v, Failed)
    case Ok((p, n)) =>
      var v1 := v.(policy := p, name := n);
      if RuntimeNames(VolumeSuffix(key)).Err? then (v1, Failed)
      else if v.runtime.None? then (v1, Panicked)
      else (v1.(runtime := Some(RuntimeSetKey(v.runtime.value, VolumeSuffix(key)).0)), Done)
  }

  // ---- Get, Set and Delete ---------------------------------------------------------------

  function RuntimeKey(prefix: string, p: string, n: string): string {
    Qualified(prefix, Join([ROOT_RUNTIME, p, n], '/'))
  }

  function VolumeKey(prefix: string, p: string, n: string): string {
    Qualified(prefix, Join([ROOT_VOLUME, p, n], '/'))
  }

  function GetRuntime(kv: Store, prefix: string, ro: Runtime, fate: Fate): (r: (Runtime, Reply))
    ensures r.1.Done? || r.1.Failed?
  {
    if ro.policy == "" || ro.volume == "" then (ro, Failed) else
    var key := RuntimeKey(prefix, ro.policy, ro.volume);
    if key !in kv || fate != Fine then (ro, Failed) else
    match DecodeRuntime(ro, kv[key])
    case None => (ro, Failed)
    case Some(ro1) =>
      var (ro2, ok) := RuntimeSetKey(ro1, TrimPath(prefix, ['/'] + key));
      (ro2, if ok && RuntimeValid(ro2.opts) then Done else Failed)
  }

  /** postGetHook. */
  function PostGet(kv: Store, prefix: string, v: Vol, fate: Fate): (Vol, Reply) {
    if v.runtime.None? then (v, Panicked) else
    var (ro, r) := GetRuntime(kv, prefix, v.runtime.value.(policy := v.policy, volume := v.name), fate);
    (v.(runtime := Some(ro)), r)
  }

  function GetVolume(kv: Store, prefix: string, v: Vol, fate: Fate, inner: Fate): (Vol, Reply) {
    if v.policy == "" || v.name == "" then (v, Failed) else
    var key := VolumeKey(prefix, v.policy, v.name);
    if key !in kv || fate != Fine then (v, Failed) else
    match DecodeVolume(v, kv[key])
    case None => (v, Failed)
    case Some(v1) => Complete(kv, prefix, v1, ['/'] + key, inner)
  }

  /** What Get does once the record is read. */
  function Complete(kv: Store, prefix: string, v: Vol, key: string, inner: Fate): (Vol, Reply) {
    var (v2, r2) := VolumeSetKey(v, TrimPath(prefix, key));
    if r2 != Done then (v2, r2) else
    var (v3, r3) := PostGet(kv, prefix, v2, inner);
    if r3 != Done then (v3, r3) else
    (v3, if VolumeValid(v3) then Done else Failed)
  }

  function Put(kv: Store, key: string, d: Doc, fate: Fate): Store {
    if fate.Lost? then kv else kv[key := d]
  }

  function Answer(fate: Fate): Reply {
    if fate.Fine? then Done else Failed
  }

  function SetRuntime(kv: Store, prefix: string, ro: Runtime, fate: Fate): (Store, Reply) {
    if !RuntimeValid(ro.opts) || ro.policy == "" || ro.volume == "" then (kv, Failed) else
    (Put(kv, RuntimeKey(prefix, ro.policy, ro.volume), RuntimeDoc(ro.opts), fate), Answer(fate))
  }

  /** The fates of the two reads and two writes of one Set of a volume. */
  datatype Fates = Fates(read: Fate, readRuntime: Fate, writeRuntime: Fate, write: Fate)

  /** Any failure to read the volume is taken to mean that there is none. */
  function SetVolume(kv: Store, prefix: string, v: Vol, f: Fates): (Store, Vol, Reply) {
    if !VolumeValid(v) then (kv, v, Failed) else
    var got := GetVolume(kv, prefix, v, f.read, f.readRuntime).1;
    if got == Done then (kv, v, Exists)
    else if got == Panicked || v.runtime.None? then (kv, v, Panicked)
    else
      var ro := v.runtime.value.(policy := v.policy, volume := v.name);
      var v1 := v.(runtime := Some(ro));
      var (kv1, r) := SetRuntime(kv, prefix, ro, f.writeRuntime);
      if r != Done then (kv1, v1, r) else
      (Put(kv1, VolumeKey(prefix, v.policy, v.name), VolumeDoc(v.policy, v.name, v.body, Given(ro.opts)), f.write),
       v1, Answer(f.write))
  }

  function Remove(kv: Store, key: string, fate: Fate): (Store, Reply) {
    if key !in kv then (kv, Failed)
    else (if fate.Lost? then kv else kv - {key}, Answer(fate))
  }

  function DeleteVolume(kv: Store, prefix: string, p: string, n: string, fate: Fate): (Store, Reply) {
    if p == "" || n == "" then (kv, Failed) else Remove(kv, VolumeKey(prefix, p, n), fate)
  }

  function DeleteRuntime(kv: Store, prefix: string, p: string, n: string, fate: Fate): (Store, Reply) {
    if p == "" || n == "" then (kv, Failed) else Remove(kv, RuntimeKey(prefix, p, n), fate)
  }

  // ---- The invariant ---------------------------------------------------------------------

  /** The two records of a name: a volume has runtime options, and both are well formed. */
  predicate GoodAt(kv: Store, prefix: string, p: string, n: string) {
    var vk, rk := VolumeKey(prefix, p, n), RuntimeKey(prefix, p, n);
    && (vk in kv ==>
          && rk in kv
          && kv[vk].VolumeDoc? && kv[vk].policy == p && kv[vk].name == n
          && kv[vk].body.sound && kv[vk].runtime.Given?)
    && (rk in kv ==> kv[rk].RuntimeDoc? && RuntimeValid(kv[rk].opts))
  }

  ghost predicate Good(kv: Store, prefix: string) {
    forall p, n | ValidName(p) && ValidName(n) :: GoodAt(kv, prefix, p, n)
  }

  datatype Step =
    | SetVol(v: Vol, fates: Fates)
    | SetRun(ro: Runtime, fate: Fate)
    | DeleteVol(p: string, n: string, fate: Fate)
    | DeleteRun(p: string, n: string, fate: Fate)

  function After(kv: Store, prefix: string, s: Step): Store {
    match s
    case SetVol(v, f) => SetVolume(kv, prefix, v, f).0
    case SetRun(ro, fate) => SetRuntime(kv, prefix, ro, fate).0
    case DeleteVol(p, n, fate) => DeleteVolume(kv, prefix, p, n, fate).0
    case DeleteRun(p, n, fate) => DeleteRuntime(kv, prefix, p, n, fate).0
  }

  /** The runtime options of a volume that is still there are deleted. */
  predicate Orphans(kv: Store, prefix: string, s: Step) {
    s.DeleteRun? && !s.fate.Lost? && ValidName(s.p) && ValidName(s.n)
    && VolumeKey(prefix, s.p, s.n) in kv
  }

  lemma RuntimePutKeeps(kv: Store, prefix: string, p: string, n: string, opts: Opts, p': string, n': string)
    requires ValidName(p') && ValidName(n') && GoodAt(kv, prefix, p', n')
    requires p != "" && n != "" && RuntimeValid(opts)
    ensures GoodAt(kv[RuntimeKey(prefix, p, n) := RuntimeDoc(opts)], prefix, p', n')
  {
    RootsDiffer(prefix, ROOT_RUNTIME, p, n, ROOT_VOLUME, p', n');
  }

  lemma VolumePutKeeps(kv: Store, prefix: string, p: string, n: string, body: Body, opts: Opts,
                       p': string, n': string)
    requires ValidName(p') && ValidName(n') && GoodAt(kv, prefix, p', n')
    requires ValidName(p) && ValidName(n) && body.sound && RuntimeKey(prefix, p, n) in kv
    ensures GoodAt(kv[VolumeKey(prefix, p, n) := VolumeDoc(p, n, body, Given(opts))], prefix, p', n')
  {
    RootsDiffer(prefix, ROOT_VOLUME, p, n, ROOT_RUNTIME, p', n');
    PathsDiffer(prefix, ROOT_VOLUME, p, n, ROOT_VOLUME, p', n');
  }

  lemma SetVolumeKeeps(kv: Store, prefix: string, v: Vol, f: Fates)
    requires Good(kv, prefix)
    ensures Good(SetVolume(kv, prefix, v, f).0, prefix)
  {
    if VolumeValid(v) && v.runtime.Some? {
      var ro := v.runtime.value.(policy := v.policy, volume := v.name);
      var (kv1, r) := SetRuntime(kv, prefix, ro, f.writeRuntime);
      SetRuntimeKeeps(kv, prefix, ro, f.writeRuntime);
      if r == Done {
        forall p, n | ValidName(p) && ValidName(n)
          ensures GoodAt(Put(kv1, VolumeKey(prefix, v.policy, v.name),
                             VolumeDoc(v.policy, v.name, v.body, Given(ro.opts)), f.write), prefix, p, n)
        {
          VolumePutKeeps(kv1, prefix, v.policy, v.name, v.body, ro.opts, p, n);
        }
      }
    }
  }

  lemma SetRuntimeKeeps(kv: Store, prefix: string, ro: Runtime, fate: Fate)
    requires Good(kv, prefix)
    ensures Good(SetRuntime(kv, prefix, ro, fate).0, prefix)
  {
    if RuntimeValid(ro.opts) && ro.policy != "" && ro.volume != "" {
      forall p, n | ValidName(p) && ValidName(n)
        ensures GoodAt(SetRuntime(kv, prefix, ro, fate).0, prefix, p, n)
      {
        RuntimePutKeeps(kv, prefix, ro.policy, ro.volume, ro.opts, p, n);
      }
    }
  }

  lemma DeleteVolumeKeeps(kv: Store, prefix: string, p: string, n: string, fate: Fate)
    requires Good(kv, prefix)
    ensures Good(DeleteVolume(kv, prefix, p, n, fate).0, prefix)
  {
    forall p', n' | ValidName(p') && ValidName(n')
      ensures GoodAt(DeleteVolume(kv, prefix, p, n, fate).0, prefix, p', n')
    {
      RootsDiffer(prefix, ROOT_VOLUME, p, n, ROOT_RUNTIME, p', n');
    }
  }

  lemma DeleteRuntimeExactly(kv: Store, prefix: string, p: string, n: string, fate: Fate)
    requires Good(kv, prefix)
    ensures Good(DeleteRuntime(kv, prefix, p, n, fate).0, prefix)
       <==> !Orphans(kv, prefix, DeleteRun(p, n, fate))
  {
    var kv1 := DeleteRuntime(kv, prefix, p, n, fate).0;
    if Orphans(kv, prefix, DeleteRun(p, n, fate)) {
      RootsDiffer(prefix, ROOT_RUNTIME, p, n, ROOT_VOLUME, p, n);
      assert !GoodAt(kv1, prefix, p, n) by {
        assert GoodAt(kv, prefix, p, n);
      }
    } else if p != "" && n != "" {
      forall p', n' | ValidName(p') && ValidName(n') ensures GoodAt(kv1, prefix, p', n') {
        RootsDiffer(prefix, ROOT_RUNTIME, p, n, ROOT_VOLUME, p', n');
        PathsDiffer(prefix, ROOT_RUNTIME, p', n', ROOT_RUNTIME, p, n);
      }
    }
  }

  /** A step keeps the invariant, whatever becomes of its calls to etcd, exactly when it does not
      delete the runtime options of a volume that is still there. */
  lemma StepKeepsExactly(kv: Store, prefix: string, s: Step)
    requires Good(kv, prefix)
    ensures Good(After(kv, prefix, s), prefix) <==> !Orphans(kv, prefix, s)
  {
    match s
    case SetVol(v, f) => SetVolumeKeeps(kv, prefix, v, f);
    case SetRun(ro, fate) => SetRuntimeKeeps(kv, prefix, ro, fate);
    case DeleteVol(p, n, fate) => DeleteVolumeKeeps(kv, prefix, p, n, fate);
    case DeleteRun(p, n, fate) => DeleteRuntimeExactly(kv, prefix, p, n, fate);
  }

  /** The store after some steps. */
  function Run(prefix: string, steps: seq<Step>): Store {
    if steps == [] then map[]
    else After(Run(prefix, steps[..|steps| - 1]), prefix, steps[|steps| - 1])
  }

  /** After any sets, volume deletions and runtime sets, with any calls to etcd lost, every volume
      record has a runtime record beside it. */
  lemma {:induction false} RunsAreGood(prefix: string, steps: seq<Step>)
    requires forall s <- steps :: !s.DeleteRun?
    ensures Good(Run(prefix, steps), prefix)
  {
    if steps != [] {
      RunsAreGood(prefix, steps[..|steps| - 1]);
      StepKeepsExactly(Run(prefix, steps[..|steps| - 1]), prefix, steps[|steps| - 1]);
    }
  }

  // ---- What Get and Set mean ---------------------------------------------------------------

  lemma VolumeKeySets(prefix: string, v: Vol, p: string, n: string)
    requires Part(p) && Part(n) && v.runtime.Some?
    ensures var (v1, r) := VolumeSetKey(v, TrimPath(prefix, NodeKey(prefix, Join([ROOT_VOLUME, p, n], '/'))));
      && (r == Done <==> Loose(prefix) && p != ROOT_RUNTIME)
      && (r == Done ==> v1.policy == p && v1.name == n && v1.body == v.body
                        && v1.runtime.Some? && v1.runtime.value.opts == v.runtime.value.opts)
      && (r.Done? || r.Failed?)
  {
    VolumeKeyNames(prefix, p, n);
  }

  lemma RuntimeGets(kv: Store, prefix: string, ro: Runtime, fate: Fate)
    requires ValidName(ro.policy) && ValidName(ro.volume) && GoodAt(kv, prefix, ro.policy, ro.volume)
    ensures var key := RuntimeKey(prefix, ro.policy, ro.volume);
      GetRuntime(kv, prefix, ro, fate).1 == Done <==> key in kv && fate.Fine? && Loose(prefix)
    ensures var key := RuntimeKey(prefix, ro.policy, ro.volume);
      GetRuntime(kv, prefix, ro, fate).1 == Done ==>
        GetRuntime(kv, prefix, ro, fate).0 == ro.(opts := kv[key].opts)
  {
    RuntimeNamesExactly(prefix, ro.policy, ro.volume);
  }

  lemma CompleteExactly(kv: Store, prefix: string, v: Vol, inner: Fate)
    requires VolumeValid(v) && v.runtime.Some? && GoodAt(kv, prefix, v.policy, v.name)
    requires RuntimeKey(prefix, v.policy, v.name) in kv
    ensures var (got, r) := Complete(kv, prefix, v, ['/'] + VolumeKey(prefix, v.policy, v.name), inner);
      && (r.Done? || r.Failed?)
      && (r == Done <==> Loose(prefix) && v.policy != ROOT_RUNTIME && inner.Fine?)
      && (r == Done ==>
            got == v.(runtime := Some(Runtime(kv[RuntimeKey(prefix, v.policy, v.name)].opts, v.policy, v.name))))
  {
    var p, n := v.policy, v.name;
    VolumeKeySets(prefix, v, p, n);
    var (v2, r2) := VolumeSetKey(v, TrimPath(prefix, ['/'] + VolumeKey(prefix, p, n)));
    if r2 == Done {
      RuntimeGets(kv, prefix, v2.runtime.value.(policy := p, volume := n), inner);
    }
  }

  /** In a good store a volume can be got exactly when it is there, etcd answers, the prefix is
      loose and its policy is not named like the root of the runtime options. What is got then
      is the volume's record with the latest runtime options, not the copy inside the record. */
  lemma GetExactly(kv: Store, prefix: string, v: Vol, fate: Fate, inner: Fate)
    requires Good(kv, prefix) && ValidName(v.policy) && ValidName(v.name)
    ensures GoodAt(kv, prefix, v.policy, v.name)
    ensures var (got, r) := GetVolume(kv, prefix, v, fate, inner);
      && (r.Done? || r.Failed?)
      && (r == Done <==> Gettable(kv, prefix, v.policy, v.name) && fate.Fine? && inner.Fine?)
      && (r == Done ==> got == Stored(kv, prefix, v.policy, v.name))
  {
    var p, n := v.policy, v.name;
    assert GoodAt(kv, prefix, p, n);
    if VolumeKey(prefix, p, n) in kv && fate.Fine? {
      CompleteExactly(kv, prefix, DecodeVolume(v, kv[VolumeKey(prefix, p, n)]).value, inner);
    }
  }

  predicate Gettable(kv: Store, prefix: string, p: string, n: string) {
    VolumeKey(prefix, p, n) in kv && Loose(prefix) && p != ROOT_RUNTIME
  }

  /** A volume as its two records describe it. */
  function Stored(kv: Store, prefix: string, p: string, n: string): Vol
    requires VolumeKey(prefix, p, n) in kv && GoodAt(kv, prefix, p, n)
  {
    Vol(p, n, kv[VolumeKey(prefix, p, n)].body, Some(Runtime(kv[RuntimeKey(prefix, p, n)].opts, p, n)))
  }

  /** Setting a volume reports that it exists, and then leaves the store alone, exactly when the
      volume can be got. */
  lemma SetExistsExactly(kv: Store, prefix: string, v: Vol, f: Fates)
    requires Good(kv, prefix) && VolumeValid(v)
    ensures var (kv1, _, r) := SetVolume(kv, prefix, v, f);
      && (r == Exists <==> Gettable(kv, prefix, v.policy, v.name) && f.read.Fine? && f.readRuntime.Fine?)
      && (r == Exists ==> kv1 == kv)
  {
    GetExactly(kv, prefix, v, f.read, f.readRuntime);
  }

  /** A volume that is there is overwritten when it cannot be read. */
  lemma UnreadIsOverwritten(kv: Store, prefix: string, v: Vol, f: Fates)
    requires Good(kv, prefix) && VolumeValid(v) && v.runtime.Some? && RuntimeValid(v.runtime.value.opts)
    requires VolumeKey(prefix, v.policy, v.name) in kv && f.writeRuntime.Fine? && f.write.Fine?
    ensures var (kv1, _, r) := SetVolume(kv, prefix, v, f);
      var unread := !Loose(prefix) || v.policy == ROOT_RUNTIME || !f.read.Fine? || !f.readRuntime.Fine?;
      var key, opts := VolumeKey(prefix, v.policy, v.name), v.runtime.value.opts;
      && (r == Done <==> unread)
      && (unread ==> key in kv1 && kv1[key] == VolumeDoc(v.policy, v.name, v.body, Given(opts)))
  {
    SetExistsExactly(kv, prefix, v, f);
    GetExactly(kv, prefix, v, f.read, f.readRuntime);
  }

  const AllFine := Fates(Fine, Fine, Fine, Fine)

  /** What is set under a new name can be got back. */
  lemma SetThenGet(kv: Store, prefix: string, v: Vol, blank: Vol)
    requires Good(kv, prefix) && VolumeValid(v) && v.runtime.Some? && RuntimeValid(v.runtime.value.opts)
    requires VolumeKey(prefix, v.policy, v.name) !in kv && Loose(prefix) && v.policy != ROOT_RUNTIME
    requires blank.policy == v.policy && blank.name == v.name
    ensures var (kv1, v1, r) := SetVolume(kv, prefix, v, AllFine);
      r == Done && GetVolume(kv1, prefix, blank, Fine, Fine) == (v1, Done)
      && v1 == v.(runtime := Some(Runtime(v.runtime.value.opts, v.policy, v.name)))
  {
    GetExactly(kv, prefix, v, Fine, Fine);
    SetVolumeKeeps(kv, prefix, v, AllFine);
    RootsDiffer(prefix, ROOT_VOLUME, v.policy, v.name, ROOT_RUNTIME, v.policy, v.name);
    var kv1 := SetVolume(kv, prefix, v, AllFine).0;
    GetExactly(kv1, prefix, blank, Fine, Fine);
  }

  /** New runtime options are seen by the next Get of their volume, though the copy inside the
      volume's record stays as it was. */
  lemma RuntimeUpdateSeen(kv: Store, prefix: string, opts: Opts, blank: Vol)
    requires Good(kv, prefix) && ValidName(blank.policy) && ValidName(blank.name)
    requires Gettable(kv, prefix, blank.policy, blank.name) && RuntimeValid(opts)
    ensures GoodAt(kv, prefix, blank.policy, blank.name)
    ensures var p, n := blank.policy, blank.name;
      var (kv1, r) := SetRuntime(kv, prefix, Runtime(opts, p, n), Fine);
      && r == Done
      && GetVolume(kv1, prefix, blank, Fine, Fine)
         == (Stored(kv, prefix, p, n).(runtime := Some(Runtime(opts, p, n))), Done)
      && kv1[VolumeKey(prefix, p, n)] == kv[VolumeKey(prefix, p, n)]
  {
    var p, n := blank.policy, blank.name;
    assert GoodAt(kv, prefix, p, n);
    SetRuntimeKeeps(kv, prefix, Runtime(opts, p, n), Fine);
    RootsDiffer(prefix, ROOT_VOLUME, p, n, ROOT_RUNTIME, p, n);
    GetExactly(SetRuntime(kv, prefix, Runtime(opts, p, n), Fine).0, prefix, blank, Fine, Fine);
  }

  /** Deleting a volume leaves its runtime options behind. */
  lemma DeleteLeavesRuntime(kv: Store, prefix: string, p: string, n: string)
    requires Good(kv, prefix) && ValidName(p) && ValidName(n) && VolumeKey(prefix, p, n) in kv
    ensures var (kv1, r) := DeleteVolume(kv, prefix, p, n, Fine);
      && r == Done && VolumeKey(prefix, p, n) !in kv1
      && RuntimeKey(prefix, p, n) in kv1 && kv1[RuntimeKey(prefix, p, n)] == kv[RuntimeKey(prefix, p, n)]
  {
    assert GoodAt(kv, prefix, p, n);
    RootsDiffer(prefix, ROOT_VOLUME, p, n, ROOT_RUNTIME, p, n);
  }

  // ---- Every outcome, spelled out ------------------------------------------------------------

  /** The keys of a name's two records. */
  lemma KeysSpelled(prefix: string, p: string, n: string)
    ensures VolumeKey(prefix, p, n) == prefix + "/volumes/" + p + "/" + n
    ensures RuntimeKey(prefix, p, n) == prefix + "/runtime-policies/" + p + "/" + n
  {
    KeySpelled(prefix, "volumes", p, n);
    KeySpelled(prefix, "runtime-policies", p, n);
  }

  lemma KeySpelled(prefix: string, root: string, p: string, n: string)
    ensures Qualified(prefix, Join([root, p, n], '/')) == prefix + "/" + root + "/" + p + "/" + n
  {
    assert [root, p, n][1..] == [p, n];
    JoinTwo([p, n], '/');
    var path := root + "/" + (p + "/" + n);
    assert Join([root, p, n], '/') == path;
    assert prefix + "/" + path == prefix + "/" + root + "/" + p + "/" + n;
  }

  /** A frequency is digits and one more character that does not end the line. */
  lemma FrequencyExactly(s: string)
    ensures FrequencyValid(s) <==>
      exists digits, unit :: s == digits + [unit] && digits != "" && unit != '\n'
        && forall c <- digits :: '0' <= c <= '9'
  {
    if FrequencyValid(s) {
      var digits, unit := s[..|s| - 1], s[|s| - 1];
      assert s == digits + [unit];
    }
    if digits, unit :| s == digits + [unit] && digits != "" && unit != '\n' && forall c <- digits :: '0' <= c <= '9' {
      forall i | 0 <= i < |s| - 1 ensures '0' <= s[i] <= '9' {
        assert s[i] == digits[i] && digits[i] in digits;
      }
    }
  }

  /** Runtime options are refused exactly when snapshots are on and none is to be kept, or their frequency
      is no frequency; otherwise they are written under their names, if they have them and the call
      arrives. */
  lemma SetRuntimeExactly(kv: Store, prefix: string, ro: Runtime, fate: Fate)
    ensures var (kv1, r) := SetRuntime(kv, prefix, ro, fate);
      var sound := !ro.opts.snapshots || (ro.opts.keep >= 1 && FrequencyValid(ro.opts.frequency));
      var key := prefix + "/runtime-policies/" + ro.policy + "/" + ro.volume;
      var sent := sound && ro.policy != "" && ro.volume != "";
      && r == (if sent && fate.Fine? then Done else Failed)
      && kv1 == (if sent && !fate.Lost? then kv[key := RuntimeDoc(ro.opts)] else kv)
  {
    KeysSpelled(prefix, ro.policy, ro.volume);
  }

  /** A deletion fails, leaving the store alone, exactly when a name is missing, the record is not there,
      or the call is lost; and if only its answer is lost the record is gone all the same. */
  lemma DeleteVolumeExactly(kv: Store, prefix: string, p: string, n: string, fate: Fate)
    ensures var (kv1, r) := DeleteVolume(kv, prefix, p, n, fate);
      var key := prefix + "/volumes/" + p + "/" + n;
      var there := p != "" && n != "" && key in kv;
      && r == (if there && fate.Fine? then Done else Failed)
      && kv1 == (if there && !fate.Lost? then kv - {key} else kv)
  {
    KeysSpelled(prefix, p, n);
  }

  lemma DeleteRuntimeOutcome(kv: Store, prefix: string, p: string, n: string, fate: Fate)
    ensures var (kv1, r) := DeleteRuntime(kv, prefix, p, n, fate);
      var key := prefix + "/runtime-policies/" + p + "/" + n;
      var there := p != "" && n != "" && key in kv;
      && r == (if there && fate.Fine? then Done else Failed)
      && kv1 == (if there && !fate.Lost? then kv - {key} else kv)
  {
    KeysSpelled(prefix, p, n);
  }

  /** A volume is refused, and nothing is written, exactly when its names are not names or the rest of it
      is unsound. */
  lemma InvalidVolumeFails(kv: Store, prefix: string, v: Vol, f: Fates)
    requires !v.body.sound || v.policy == "" || v.name == ""
             || '/' in v.policy || '.' in v.policy || '/' in v.name || '.' in v.name
    ensures SetVolume(kv, prefix, v, f) == (kv, v, Failed)
  {
  }

  /** What becomes of any other Set: it exists, it brings the process down for want of runtime options,
      or its two records are written in turn, the second only if the first call is answered. */
  lemma SetVolumeExactly(kv: Store, prefix: string, v: Vol, f: Fates)
    requires Good(kv, prefix) && v.body.sound && v.policy != "" && v.name != ""
    requires '/' !in v.policy && '.' !in v.policy && '/' !in v.name && '.' !in v.name
    ensures var (kv1, v1, r) := SetVolume(kv, prefix, v, f);
      var found := Gettable(kv, prefix, v.policy, v.name) && f.read.Fine? && f.readRuntime.Fine?;
      v1 == if found || v.runtime.None? then v
            else v.(runtime := Some(Runtime(v.runtime.value.opts, v.policy, v.name)))
    ensures var (kv1, _, r) := SetVolume(kv, prefix, v, f);
      var found := Gettable(kv, prefix, v.policy, v.name) && f.read.Fine? && f.readRuntime.Fine?;
      var vk := prefix + "/volumes/" + v.policy + "/" + v.name;
      var rk := prefix + "/runtime-policies/" + v.policy + "/" + v.name;
      if found then r == Exists && kv1 == kv
      else if v.runtime.None? then r == Panicked && kv1 == kv
      else
        var opts := v.runtime.value.opts;
        var d := VolumeDoc(v.policy, v.name, v.body, Given(opts));
        if opts.snapshots && (opts.keep == 0 || !FrequencyValid(opts.frequency)) then r == Failed && kv1 == kv
        else
          && r == (if f.writeRuntime.Fine? && f.write.Fine? then Done else Failed)
          && kv1 == (if f.writeRuntime.Lost? then kv
                     else if f.writeRuntime.Unheard? || f.write.Lost? then kv[rk := RuntimeDoc(opts)]
                     else kv[rk := RuntimeDoc(opts)][vk := d])
  {
    assert VolumeValid(v);
    GetExactly(kv, prefix, v, f.read, f.readRuntime);
    if v.runtime.Some? {
      SetRuntimeExactly(kv, prefix, v.runtime.value.(policy := v.policy, volume := v.name), f.writeRuntime);
    }
    KeysSpelled(prefix, v.policy, v.name);
  }

  /** What a volume's SetKey makes of the volume's own key: nothing under a prefix that is not loose; a
      failure that leaves the names behind for a policy named like the root of the runtime options; a
      panic without runtime options; and otherwise the names, which the runtime options get with that
      root taken off the policy. */
  lemma SetKeyExactly(prefix: string, v: Vol, p: string, n: string)
    requires Part(p) && Part(n)
    ensures var own := if "runtime-policies" <= p then p[|"runtime-policies"|..] else p;
      VolumeSetKey(v, TrimPath(prefix, "/" + VolumeKey(prefix, p, n)))
      == if !Loose(prefix) then (v, Failed)
         else if p == "runtime-policies" then (Vol(p, n, v.body, v.runtime), Failed)
         else if v.runtime.None? then (Vol(p, n, v.body, None), Panicked)
         else (Vol(p, n, v.body, Some(Runtime(v.runtime.value.opts, own, n))), Done)
  {
    RootedNamesExactly(prefix, ROOT_VOLUME, p, n);
    OwnNamesAgain(ROOT_RUNTIME, p, n);
  }

  /** And the SetKey of runtime options of theirs. */
  lemma RuntimeSetKeyExactly(prefix: string, ro: Runtime, p: string, n: string)
    requires Part(p) && Part(n)
    ensures RuntimeSetKey(ro, TrimPath(prefix, "/" + RuntimeKey(prefix, p, n)))
         == if Loose(prefix) then (Runtime(ro.opts, p, n), true) else (ro, false)
  {
    RuntimeNamesExactly(prefix, p, n);
  }

  /** Runtime options are got, from any store, exactly when their record is there and is JSON, the call
      works, the prefix is loose and what they then hold is valid: the record's options, or their own if the
      record is a volume's. Even a Get that fails afterwards leaves them so. */
  lemma GetRuntimeOutcome(kv: Store, prefix: string, ro: Runtime, fate: Fate)
    requires Part(ro.policy) && Part(ro.volume)
    ensures var rk := RuntimeKey(prefix, ro.policy, ro.volume);
      var read := rk in kv && fate.Fine? && !kv[rk].Bad?;
      var opts := if read && kv[rk].RuntimeDoc? then kv[rk].opts else ro.opts;
      && GetRuntime(kv, prefix, ro, fate).0 == Runtime(opts, ro.policy, ro.volume)
      && GetRuntime(kv, prefix, ro, fate).1
         == if read && Loose(prefix) && (opts.snapshots ==> FrequencyValid(opts.frequency) && opts.keep >= 1)
            then Done else Failed
  {
    RuntimeNamesExactly(prefix, ro.policy, ro.volume);
  }

  /** Unmarshalling leaves no runtime options: they are null in the text, or there are none
      in the text and none in the entity that is read into. */
  predicate NoRuntime(v: Vol, d: Doc) {
    if d.VolumeDoc? && !d.runtime.Absent? then d.runtime.Null? else v.runtime.None?
  }

  /** The runtime options that an entity holds once a record is read into it: the copy inside the record,
      or else those it held before. */
  function OptsLeft(v: Vol, d: Doc): Opts
    requires !NoRuntime(v, d)
  {
    if d.VolumeDoc? && d.runtime.Given? then d.runtime.opts else v.runtime.value.opts
  }

  /** A Get of a volume that finds no record of its own, or none that is JSON, fails; and so does one that
      cannot take the names from the key. */
  lemma UnreadFails(kv: Store, prefix: string, v: Vol, fate: Fate, inner: Fate)
    requires Part(v.policy) && Part(v.name)
    requires var vk := VolumeKey(prefix, v.policy, v.name);
      !fate.Fine? || vk !in kv || kv[vk].Bad? || !Loose(prefix) || v.policy == "runtime-policies"
    ensures GetVolume(kv, prefix, v, fate, inner).1 == Failed
  {
    var vk := VolumeKey(prefix, v.policy, v.name);
    if vk in kv && fate.Fine? && !kv[vk].Bad? {
      SetKeyExactly(prefix, DecodeVolume(v, kv[vk]).value, v.policy, v.name);
    }
  }

  /** What reading a record into an entity leaves there, apart from the names. */
  lemma ReadLeaves(v: Vol, d: Doc)
    ensures DecodeVolume(v, d).Some? <==> !d.Bad?
    ensures !d.Bad? ==> DecodeVolume(v, d).value.body == (if d.VolumeDoc? then d.body else v.body)
    ensures !d.Bad? ==> (DecodeVolume(v, d).value.runtime.None? <==> NoRuntime(v, d))
    ensures !d.Bad? && !NoRuntime(v, d) ==> DecodeVolume(v, d).value.runtime.value.opts == OptsLeft(v, d)
  {
  }

  /** What Get makes of the entity once a record is read into it, under its own names. */
  lemma CompleteOutcome(kv: Store, prefix: string, v: Vol, p: string, n: string, inner: Fate)
    requires Part(p) && Part(n) && p != "runtime-policies" && Loose(prefix)
    ensures var (got, r) := Complete(kv, prefix, v, "/" + VolumeKey(prefix, p, n), inner);
      if v.runtime.None? then r == Panicked && got == Vol(p, n, v.body, None)
      else
        var (ro, r1) := GetRuntime(kv, prefix, Runtime(v.runtime.value.opts, p, n), inner);
        && got == Vol(p, n, v.body, Some(ro))
        && r == (if r1 == Done && v.body.sound && '.' !in p && '.' !in n then Done else Failed)
  {
    SetKeyExactly(prefix, v, p, n);
  }

  /** Any other Get, from any store, brings the process down if it is left without runtime options, and
      succeeds exactly when these can be got too and the volume is valid: the body is that of the record, or
      the entity's own if the record is not a volume's. */
  lemma GetOutcome(kv: Store, prefix: string, v: Vol, fate: Fate, inner: Fate)
    requires Part(v.policy) && Part(v.name) && v.policy != "runtime-policies" && Loose(prefix) && fate.Fine?
    requires VolumeKey(prefix, v.policy, v.name) in kv && !kv[VolumeKey(prefix, v.policy, v.name)].Bad?
    ensures var vk, rk := VolumeKey(prefix, v.policy, v.name), RuntimeKey(prefix, v.policy, v.name);
      var (got, r) := GetVolume(kv, prefix, v, fate, inner);
      var body := if kv[vk].VolumeDoc? then kv[vk].body else v.body;
      if NoRuntime(v, kv[vk]) then r == Panicked && got == Vol(v.policy, v.name, body, None)
      else
        var read := rk in kv && inner.Fine? && !kv[rk].Bad?;
        var opts := if read && kv[rk].RuntimeDoc? then kv[rk].opts else OptsLeft(v, kv[vk]);
        && got == Vol(v.policy, v.name, body, Some(Runtime(opts, v.policy, v.name)))
        && (r.Done? || r.Failed?)
        && (r == Done <==> read && (opts.snapshots ==> FrequencyValid(opts.frequency) && opts.keep >= 1)
                           && body.sound && '.' !in v.policy && '.' !in v.name)
  {
    var vk := VolumeKey(prefix, v.policy, v.name);
    ReadLeaves(v, kv[vk]);
    var v1 := DecodeVolume(v, kv[vk]).value;
    CompleteOutcome(kv, prefix, v1, v.policy, v.name, inner);
    if v1.runtime.Some? {
      GetRuntimeOutcome(kv, prefix, Runtime(v1.runtime.value.opts, v.policy, v.name), inner);
    }
  }

  // ---- Listing -----------------------------------------------------------------------------

  /** The node tree etcd answers with. */
  datatype Node = File(key: string, doc: Doc) | Dir(nodes: seq<Node>)

  datatype Leaf = Leaf(key: string, doc: Doc)

  /** The files of a tree, in order. */
  function Leaves(node: Node): seq<Leaf>
    decreases node, 0
  {
    match node
    case File(key, doc) => [Leaf(key, doc)]
    case Dir(nodes) => AllLeaves(nodes)
  }

  function AllLeaves(nodes: seq<Node>): seq<Leaf>
    decreases nodes
  {
    if nodes == [] then []
    else AllLeaves(nodes[..|nodes| - 1]) + Leaves(nodes[|nodes| - 1])
  }

  /** The files of a tree are those of its parts one after another, and a directory adds none. */
  lemma {:induction false} LeavesInOrder(a: seq<Node>, b: seq<Node>)
    ensures AllLeaves(a + b) == AllLeaves(a) + AllLeaves(b)
    ensures forall key, doc :: AllLeaves([File(key, doc)]) == [Leaf(key, doc)]
    ensures AllLeaves([Dir(a)]) == AllLeaves(a)
  {
    forall node: Node ensures AllLeaves([node]) == Leaves(node) {
      assert [node][..0] == [];
    }
    if b == [] {
      assert a + b == a;
    } else {
      LeavesInOrder(a, b[..|b| - 1]);
      assert (a + b)[..|a + b| - 1] == a + b[..|b| - 1];
    }
  }

  /** One file's entity, or its absence, or a panic. The hooks fire even when the value or the
      key was bad. */
  datatype Listed = Entity(v: Vol) | Skipped | Crash

  function Visit(kv: Store, prefix: string, template: Vol, leaf: Leaf, fate: Fate): Listed {
    var decoded := DecodeVolume(template, leaf.doc);
    Reconcile(kv, prefix, decoded.Some?, if decoded.Some? then decoded.value else template, leaf.key, fate)
  }

  function Reconcile(kv: Store, prefix: string, decoded: bool, v: Vol, key: string, fate: Fate): Listed {
    var (v2, r2) := VolumeSetKey(v, TrimPath(prefix, key));
    if r2 == Panicked then Crash else
    var (v3, r3) := PostGet(kv, prefix, v2, fate);
    if r3 == Panicked then Crash
    else if decoded && r2 == Done && r3 == Done then Entity(v3)
    else Skipped
  }

  /** `fate` is that of each file's own call to etcd. */
  function Visitor(kv: Store, prefix: string, template: Vol, fate: string -> Fate): Leaf -> Listed {
    (leaf: Leaf) => Visit(kv, prefix, template, leaf, fate(leaf.key))
  }

  function Visits(visit: Leaf -> Listed, leaves: seq<Leaf>): seq<Listed> {
    seq(|leaves|, i requires 0 <= i < |leaves| => visit(leaves[i]))
  }

  /** The entities that were not skipped, in order. */
  function Entities(visits: seq<Listed>): seq<Vol> {
    if visits == [] then []
    else
      var last := visits[|visits| - 1];
      Entities(visits[..|visits| - 1]) + if last.Entity? then [last.v] else []
  }

  predicate Crashed(visits: seq<Listed>) {
    Crash in visits
  }

  lemma SetKeyKeepsNil(v: Vol, key: string)
    ensures VolumeSetKey(v, key).0.runtime.None? <==> v.runtime.None?
    ensures VolumeSetKey(v, key).1.Panicked? ==> v.runtime.None?
  {
  }

  lemma ReconcileCrash(kv: Store, prefix: string, decoded: bool, v: Vol, key: string, fate: Fate)
    ensures Reconcile(kv, prefix, decoded, v, key, fate).Crash? <==> v.runtime.None?
  {
    SetKeyKeepsNil(v, TrimPath(prefix, key));
  }

  /** One file brings the whole listing down exactly when it leaves the runtime options nil,
      whatever its key, so bad data can break the routine. */
  lemma CrashExactly(kv: Store, prefix: string, template: Vol, leaf: Leaf, fate: Fate)
    ensures Visit(kv, prefix, template, leaf, fate).Crash? <==> NoRuntime(template, leaf.doc)
  {
    var decoded := DecodeVolume(template, leaf.doc);
    ReconcileCrash(kv, prefix, decoded.Some?, if decoded.Some? then decoded.value else template, leaf.key, fate);
  }

  /** A listing crashes exactly when some file leaves the runtime options nil. */
  lemma CrashedExactly(kv: Store, prefix: string, template: Vol, leaves: seq<Leaf>, fate: string -> Fate)
    ensures Crashed(Visits(Visitor(kv, prefix, template, fate), leaves))
       <==> exists l <- leaves :: NoRuntime(template, l.doc)
  {
    var visits := Visits(Visitor(kv, prefix, template, fate), leaves);
    forall i | 0 <= i < |leaves| ensures visits[i].Crash? <==> NoRuntime(template, leaves[i].doc) {
      CrashExactly(kv, prefix, template, leaves[i], fate(leaves[i].key));
    }
    if l :| l in leaves && NoRuntime(template, l.doc) {
      var i :| 0 <= i < |leaves| && leaves[i] == l;
      assert visits[i] == Crash;
    }
  }

  /** What a listing, of any store, makes of a volume's own file that leaves it runtime options. Unlike Get,
      it does not mind an unsound body. */
  lemma VisitExactly(kv: Store, prefix: string, template: Vol, p: string, n: string, doc: Doc, fate: Fate)
    requires Part(p) && Part(n) && !NoRuntime(template, doc)
    ensures var seen := Visit(kv, prefix, template, Leaf("/" + VolumeKey(prefix, p, n), doc), fate);
      var body := if doc.VolumeDoc? then doc.body else template.body;
      var (ro, r) := GetRuntime(kv, prefix, Runtime(OptsLeft(template, doc), p, n), fate);
      seen == if !doc.Bad? && Loose(prefix) && p != "runtime-policies" && r == Done
              then Entity(Vol(p, n, body, Some(ro)))
              else Skipped
  {
    CrashExactly(kv, prefix, template, Leaf("/" + VolumeKey(prefix, p, n), doc), fate);
    ReadLeaves(template, doc);
    if !doc.Bad? {
      SetKeyExactly(prefix, DecodeVolume(template, doc).value, p, n);
    }
  }

  /** For a volume's own file in a good store, the listing shows what Get would return. */
  lemma ListedIsGot(kv: Store, prefix: string, template: Vol, p: string, n: string, fate: Fate)
    requires Good(kv, prefix) && ValidName(p) && ValidName(n) && VolumeKey(prefix, p, n) in kv
    ensures GoodAt(kv, prefix, p, n)
    ensures var leaf := Leaf(['/'] + VolumeKey(prefix, p, n), kv[VolumeKey(prefix, p, n)]);
      Visit(kv, prefix, template, leaf, fate)
      == if Gettable(kv, prefix, p, n) && fate.Fine? then Entity(Stored(kv, prefix, p, n)) else Skipped
  {
    assert GoodAt(kv, prefix, p, n);
    var v1 := DecodeVolume(template, kv[VolumeKey(prefix, p, n)]).value;
    VolumeKeySets(prefix, v1, p, n);
    var (v2, r2) := VolumeSetKey(v1, TrimPath(prefix, ['/'] + VolumeKey(prefix, p, n)));
    if r2 == Done {
      RuntimeGets(kv, prefix, v2.runtime.value.(policy := p, volume := n), fate);
    } else {
      CrashExactly(kv, prefix, template, Leaf(['/'] + VolumeKey(prefix, p, n), kv[VolumeKey(prefix, p, n)]), fate);
    }
  }

  /** The file of a volume that can be got. */
  ghost predicate FileOf(kv: Store, prefix: string, leaf: Leaf, p: string, n: string) {
    && ValidName(p) && ValidName(n) && Gettable(kv, prefix, p, n) && GoodAt(kv, prefix, p, n)
    && leaf == Leaf(['/'] + VolumeKey(prefix, p, n), kv[VolumeKey(prefix, p, n)])
  }

  ghost predicate FilesOf(kv: Store, prefix: string, leaves: seq<Leaf>, names: seq<(string, string)>) {
    && |leaves| == |names|
    && forall i :: 0 <= i < |names| ==> FileOf(kv, prefix, leaves[i], names[i].0, names[i].1)
  }

  lemma {:induction false} AllEntities(vs: seq<Vol>, visits: seq<Listed>)
    requires |vs| == |visits| && forall i :: 0 <= i < |vs| ==> visits[i] == Entity(vs[i])
    ensures Entities(visits) == vs && !Crashed(visits)
  {
    if vs != [] {
      var n := |vs| - 1;
      AllEntities(vs[..n], visits[..n]);
      assert vs == vs[..n] + [vs[n]];
    }
  }

  function StoredAll(kv: Store, prefix: string, names: seq<(string, string)>): seq<Vol>
    requires forall pn <- names :: VolumeKey(prefix, pn.0, pn.1) in kv && GoodAt(kv, prefix, pn.0, pn.1)
  {
    seq(|names|, i requires 0 <= i < |names| =>
      assert names[i] in names;
      Stored(kv, prefix, names[i].0, names[i].1))
  }

  /** Listing the files of a good store, however they are nested, gives their volumes in order
      with their latest runtime options. */
  lemma ListingIsStored(kv: Store, prefix: string, template: Vol, leaves: seq<Leaf>,
                        names: seq<(string, string)>, fate: string -> Fate)
    requires Good(kv, prefix) && (forall key :: fate(key) == Fine) && FilesOf(kv, prefix, leaves, names)
    ensures forall pn <- names :: VolumeKey(prefix, pn.0, pn.1) in kv && GoodAt(kv, prefix, pn.0, pn.1)
    ensures var visits := Visits(Visitor(kv, prefix, template, fate), leaves);
      Entities(visits) == StoredAll(kv, prefix, names) && !Crashed(visits)
  {
    var visits := Visits(Visitor(kv, prefix, template, fate), leaves);
    forall i | 0 <= i < |names|
      ensures VolumeKey(prefix, names[i].0, names[i].1) in kv && GoodAt(kv, prefix, names[i].0, names[i].1)
      ensures visits[i] == Entity(Stored(kv, prefix, names[i].0, names[i].1))
    {
      assert FileOf(kv, prefix, leaves[i], names[i].0, names[i].1);
      ListedIsGot(kv, prefix, template, names[i].0, names[i].1, fate(leaves[i].key));
    }
    AllEntities(StoredAll(kv, prefix, names), visits);
  }

  // ---- Listing a tree node by node -----------------------------------------------------------

  lemma OneVisit(visit: Leaf -> Listed, leaf: Leaf, seen: Listed)
    requires seen == visit(leaf)
    ensures Entities(Visits(visit, [leaf])) == if seen.Entity? then [seen.v] else []
    ensures Crashed(Visits(visit, [leaf])) <==> seen.Crash?
  {
    assert Visits(visit, [leaf]) == [seen] && [seen][..0] == [];
  }

  /** The listing of a single file. */
  lemma OneFile(kv: Store, prefix: string, template: Vol, leaf: Leaf, fate: string -> Fate)
    ensures var visits, seen := Visits(Visitor(kv, prefix, template, fate), [leaf]),
                                Visit(kv, prefix, template, leaf, fate(leaf.key));
      && Entities(visits) == (if seen.Entity? then [seen.v] else [])
      && (Crashed(visits) <==> seen.Crash?)
  {
    OneVisit(Visitor(kv, prefix, template, fate), leaf, Visit(kv, prefix, template, leaf, fate(leaf.key)));
  }

  lemma {:induction false} EntitiesAppend(a: seq<Listed>, b: seq<Listed>)
    ensures Entities(a + b) == Entities(a) + Entities(b)
  {
    if b == [] {
      assert a + b == a;
    } else {
      EntitiesAppend(a, b[..|b| - 1]);
      assert (a + b)[..|a + b| - 1] == a + b[..|b| - 1];
    }
  }

  /** The files of the first nodes, and of one node more. */
  lemma NextLeaves(visit: Leaf -> Listed, nodes: seq<Node>, i: nat)
    requires i < |nodes|
    ensures var a, b := Visits(visit, AllLeaves(nodes[..i])), Visits(visit, Leaves(nodes[i]));
      && Visits(visit, AllLeaves(nodes[..i + 1])) == a + b
      && Entities(a + b) == Entities(a) + Entities(b)
      && (Crashed(a + b) <==> Crashed(a) || Crashed(b))
  {
    assert nodes[..i + 1][..i] == nodes[..i];
    EntitiesAppend(Visits(visit, AllLeaves(nodes[..i])), Visits(visit, Leaves(nodes[i])));
  }

  lemma {:induction false} CrashedPart(visit: Leaf -> Listed, nodes: seq<Node>, i: nat)
    requires i <= |nodes| && Crashed(Visits(visit, AllLeaves(nodes[..i])))
    ensures Crashed(Visits(visit, AllLeaves(nodes)))
    decreases |nodes| - i
  {
    if i < |nodes| {
      NextLeaves(visit, nodes, i);
      CrashedPart(visit, nodes, i + 1);
    } else {
      assert nodes[..i] == nodes;
    }
  }
}
