/** Several clients of db/impl/etcd/client.go on one store, call by call. The Set of a volume reads its
    record, reads its runtime options, writes these, and writes the record; others' calls are served in
    between. */
module EntityRaces {
  import opened Wrappers
  import opened EntityPaths
  import opened EntityStore

  datatype Op =
    | SetVol(v: Vol)
    | SetRun(ro: Runtime)
    | DeleteVol(p: string, n: string)
    | DeleteRun(p: string, n: string)

  /** What a client's next call is: one of the four of a Set, or the only one of another operation. */
  datatype Phase =
    | Reading
    | ReadingRuntime(got: Vol)
    | WritingRuntime
    | Writing
    | Only
    | Over(r: Reply)

  datatype Config = Config(prefix: string, start: Store, ops: seq<Op>)

  datatype State = State(kv: Store, phases: seq<Phase>)

  /** Client c makes its next call. */
  datatype Call = Call(c: nat, fate: Fate)

  // ---- Steps -------------------------------------------------------------------------------

  function FirstPhase(op: Op): Phase {
    match op
    case SetVol(v) => if VolumeValid(v) then Reading else Over(Failed)
    case SetRun(ro) => if RuntimeValid(ro.opts) && ro.policy != "" && ro.volume != "" then Only else Over(Failed)
    case DeleteVol(p, n) => if p != "" && n != "" then Only else Over(Failed)
    case DeleteRun(p, n) => if p != "" && n != "" then Only else Over(Failed)
  }

  function Init(cfg: Config): State {
    State(cfg.start, seq(|cfg.ops|, c requires 0 <= c < |cfg.ops| => FirstPhase(cfg.ops[c])))
  }

  /** The volume has not been found. */
  function Proceed(v: Vol): Phase {
    if v.runtime.None? then Over(Panicked)
    else if RuntimeValid(v.runtime.value.opts) then WritingRuntime
    else Over(Failed)
  }

  /** What the read of the volume's record leads to. */
  function Read(kv: Store, prefix: string, v: Vol, fate: Fate): Phase {
    var key := VolumeKey(prefix, v.policy, v.name);
    if key !in kv || fate != Fine then Proceed(v) else
    match DecodeVolume(v, kv[key])
    case None => Proceed(v)
    case Some(v1) =>
      var (v2, r) := VolumeSetKey(v1, TrimPath(prefix, ['/'] + key));
      Keyed(v, v2, r)
  }

  /** The record has been unmarshalled, and SetKey has answered. */
  function Keyed(v: Vol, v2: Vol, r: Reply): Phase {
    if r == Panicked || (r == Done && v2.runtime.None?) then Over(Panicked)
    else if r == Done then ReadingRuntime(v2)
    else Proceed(v)
  }

  /** What the read of its runtime options leads to. */
  function ReadRuntime(kv: Store, prefix: string, v: Vol, got: Vol, fate: Fate): Phase {
    var (v3, r) := PostGet(kv, prefix, got, fate);
    if r == Panicked then Over(Panicked)
    else if r == Done && VolumeValid(v3) then Over(Exists)
    else Proceed(v)
  }

  function SetNext(kv: Store, prefix: string, v: Vol, phase: Phase, fate: Fate): Option<(Store, Phase)> {
    match phase
    case Reading => Some((kv, Read(kv, prefix, v, fate)))
    case ReadingRuntime(got) => Some((kv, ReadRuntime(kv, prefix, v, got, fate)))
    case WritingRuntime =>
      if v.runtime.None? then None
      else Some((Put(kv, RuntimeKey(prefix, v.policy, v.name), RuntimeDoc(v.runtime.value.opts), fate),
                 if fate.Fine? then Writing else Over(Failed)))
    case Writing =>
      if v.runtime.None? then None
      else Some((Put(kv, VolumeKey(prefix, v.policy, v.name),
                     VolumeDoc(v.policy, v.name, v.body, Given(v.runtime.value.opts)), fate),
                 Over(Answer(fate))))
    case _ => None
  }

  function OnlyNext(kv: Store, prefix: string, op: Op, fate: Fate): (Store, Reply)
    requires !op.SetVol?
  {
    match op
    case SetRun(ro) => SetRuntime(kv, prefix, ro, fate)
    case DeleteVol(p, n) => DeleteVolume(kv, prefix, p, n, fate)
    case DeleteRun(p, n) => DeleteRuntime(kv, prefix, p, n, fate)
  }

  function Next(cfg: Config, s: State, call: Call): Option<State> {
    var c := call.c;
    if c >= |cfg.ops| || c >= |s.phases| then None else
    match cfg.ops[c]
    case SetVol(v) =>
      (match SetNext(s.kv, cfg.prefix, v, s.phases[c], call.fate)
       case None => None
       case Some((kv, phase)) => Some(State(kv, s.phases[c := phase])))
    case _ =>
      if s.phases[c] != Only then None else
      var (kv, r) := OnlyNext(s.kv, cfg.prefix, cfg.ops[c], call.fate);
      Some(State(kv, s.phases[c := Over(r)]))
  }

  function RunFrom(cfg: Config, o: State, calls: seq<Call>): Option<State>
    decreases |calls|
  {
    if calls == [] then Some(o) else
    match RunFrom(cfg, o, calls[..|calls| - 1])
    case None => None
    case Some(s) => Next(cfg, s, calls[|calls| - 1])
  }

  function Run(cfg: Config, calls: seq<Call>): Option<State> {
    RunFrom(cfg, Init(cfg), calls)
  }

  ghost predicate Reachable(cfg: Config, s: State) {
    exists calls :: Run(cfg, calls) == Some(s)
  }

  lemma Go(cfg: Config, s: State, call: Call) returns (t: State)
    requires Reachable(cfg, s) && Next(cfg, s, call).Some?
    ensures Reachable(cfg, t) && Next(cfg, s, call) == Some(t)
  {
    t := Next(cfg, s, call).value;
    var calls :| Run(cfg, calls) == Some(s);
    assert (calls + [call])[..|calls|] == calls;
    assert Run(cfg, calls + [call]) == Some(t);
  }

  // ---- One client alone ----------------------------------------------------------------------

  /** How many calls are left at most. */
  function Left(phase: Phase): nat {
    match phase
    case Reading => 4
    case ReadingRuntime(_) => 3
    case WritingRuntime => 2
    case Writing => 1
    case _ => 0
  }

  function FateOf(phase: Phase, f: Fates): Fate {
    match phase
    case Reading => f.read
    case ReadingRuntime(_) => f.readRuntime
    case WritingRuntime => f.writeRuntime
    case _ => f.write
  }

  /** The store and the reply of a Set whose client is in the phase, if nobody else calls. */
  function Finish(kv: Store, prefix: string, v: Vol, phase: Phase, f: Fates): (Store, Reply)
    decreases Left(phase)
  {
    match SetNext(kv, prefix, v, phase, FateOf(phase, f))
    case None => (kv, if phase.Over? then phase.r else Failed)
    case Some((kv1, phase1)) => Finish(kv1, prefix, v, phase1, f)
  }

  function AfterReads(kv: Store, prefix: string, v: Vol, phase: Phase, fate: Fate): Phase {
    if phase.ReadingRuntime? then ReadRuntime(kv, prefix, v, phase.got, fate) else phase
  }

  /** What a Get's reply means to the Set. */
  function Told(v: Vol, r: Reply): Phase {
    match r
    case Done => Over(Exists)
    case Panicked => Over(Panicked)
    case _ => Proceed(v)
  }

  lemma KeyedIsGet(kv: Store, prefix: string, v: Vol, v2: Vol, r2: Reply, inner: Fate)
    requires r2 in {Done, Failed, Panicked}
    ensures var (v3, r3) := PostGet(kv, prefix, v2, inner);
      AfterReads(kv, prefix, v, Keyed(v, v2, r2), inner)
      == Told(v, if r2 != Done then r2 else if r3 != Done then r3 else if VolumeValid(v3) then Done else Failed)
  {
  }

  /** The two reads together are the Get of preSetHook. */
  lemma ReadsAreGet(kv: Store, prefix: string, v: Vol, f: Fates)
    requires VolumeValid(v)
    ensures AfterReads(kv, prefix, v, Read(kv, prefix, v, f.read), f.readRuntime)
         == Told(v, GetVolume(kv, prefix, v, f.read, f.readRuntime).1)
  {
    var key := VolumeKey(prefix, v.policy, v.name);
    if key in kv && f.read == Fine && DecodeVolume(v, kv[key]).Some? {
      var (v2, r2) := VolumeSetKey(DecodeVolume(v, kv[key]).value, TrimPath(prefix, ['/'] + key));
      KeyedIsGet(kv, prefix, v, v2, r2, f.readRuntime);
    }
  }

  /** The rest of a Set, once preSetHook's Get has replied r. */
  function SetTold(kv: Store, prefix: string, v: Vol, r: Reply, f: Fates): (Store, Reply) {
    if r == Done then (kv, Exists)
    else if r == Panicked || v.runtime.None? then (kv, Panicked)
    else
      var ro := v.runtime.value.(policy := v.policy, volume := v.name);
      var (kv1, r1) := SetRuntime(kv, prefix, ro, f.writeRuntime);
      if r1 != Done then (kv1, r1)
      else
        var d := VolumeDoc(v.policy, v.name, v.body, Given(ro.opts));
        (Put(kv1, VolumeKey(prefix, v.policy, v.name), d, f.write), Answer(f.write))
  }

  lemma SetIsTold(kv: Store, prefix: string, v: Vol, f: Fates)
    requires VolumeValid(v)
    ensures var (kv1, _, r) := SetVolume(kv, prefix, v, f);
      SetTold(kv, prefix, v, GetVolume(kv, prefix, v, f.read, f.readRuntime).1, f) == (kv1, r)
  {
  }

  lemma FinishIsTold(kv: Store, prefix: string, v: Vol, r: Reply, f: Fates)
    requires VolumeValid(v)
    ensures Finish(kv, prefix, v, Told(v, r), f) == SetTold(kv, prefix, v, r, f)
  {
  }

  /** A client that nobody disturbs does what SetVolume says. */
  lemma AloneIsSet(kv: Store, prefix: string, v: Vol, f: Fates)
    ensures var (kv1, _, r) := SetVolume(kv, prefix, v, f);
      Finish(kv, prefix, v, FirstPhase(Op.SetVol(v)), f) == (kv1, r)
  {
    if VolumeValid(v) {
      ReadsAreGet(kv, prefix, v, f);
      ReadsFinish(kv, prefix, v, f);
      FinishIsTold(kv, prefix, v, GetVolume(kv, prefix, v, f.read, f.readRuntime).1, f);
      SetIsTold(kv, prefix, v, f);
    }
  }

  lemma ReadsFinish(kv: Store, prefix: string, v: Vol, f: Fates)
    ensures Finish(kv, prefix, v, Reading, f)
         == Finish(kv, prefix, v, AfterReads(kv, prefix, v, Read(kv, prefix, v, f.read), f.readRuntime), f)
  {
  }

  // ---- Volumes and their runtime options -------------------------------------------------------

  /** A Set that can get as far as writing the volume. */
  predicate Acceptable(op: Op) {
    op.SetVol? && VolumeValid(op.v) && op.v.runtime.Some? && RuntimeValid(op.v.runtime.value.opts)
  }

  predicate Sets(op: Op, p: string, n: string) {
    Acceptable(op) && op.v.policy == p && op.v.name == n
  }

  /** The volume is there from the start, or can be set. */
  ghost predicate CanBe(cfg: Config, p: string, n: string) {
    VolumeKey(cfg.prefix, p, n) in cfg.start || exists op <- cfg.ops :: Sets(op, p, n)
  }

  /** Somebody may delete the runtime options of such a volume. */
  ghost predicate Threat(cfg: Config) {
    exists op <- cfg.ops :: Threatens(cfg, op)
  }

  ghost predicate Threatens(cfg: Config, op: Op) {
    op.DeleteRun? && ValidName(op.p) && ValidName(op.n) && CanBe(cfg, op.p, op.n)
  }

  predicate PhaseFits(cfg: Config, s: State, c: nat)
    requires c < |s.phases| && c < |cfg.ops|
  {
    match s.phases[c]
    case WritingRuntime => Acceptable(cfg.ops[c])
    case Writing =>
      && Acceptable(cfg.ops[c])
      && RuntimeKey(cfg.prefix, cfg.ops[c].v.policy, cfg.ops[c].v.name) in s.kv
    case Only => !cfg.ops[c].SetVol? && FirstPhase(cfg.ops[c]) == Only
    case Reading => cfg.ops[c].SetVol? && VolumeValid(cfg.ops[c].v)
    case ReadingRuntime(_) => cfg.ops[c].SetVol? && VolumeValid(cfg.ops[c].v)
    case Over(_) => true
  }

  ghost predicate Inv(cfg: Config, s: State) {
    && |s.phases| == |cfg.ops| && Good(s.kv, cfg.prefix)
    && (forall c | 0 <= c < |s.phases| :: PhaseFits(cfg, s, c))
    && (forall p, n | ValidName(p) && ValidName(n) && VolumeKey(cfg.prefix, p, n) in s.kv :: CanBe(cfg, p, n))
  }

  /** What a write does to the keys of other clients' volumes. */
  lemma WriteKeeps(cfg: Config, s: State, c: nat, fate: Fate)
    requires Inv(cfg, s) && c < |cfg.ops| && Acceptable(cfg.ops[c]) && s.phases[c] in {WritingRuntime, Writing}
    ensures var (kv, _) := SetNext(s.kv, cfg.prefix, cfg.ops[c].v, s.phases[c], fate).value;
      && Good(kv, cfg.prefix) && s.kv.Keys <= kv.Keys
      && (s.phases[c] == WritingRuntime && fate.Fine? ==>
            RuntimeKey(cfg.prefix, cfg.ops[c].v.policy, cfg.ops[c].v.name) in kv)
  {
    assert PhaseFits(cfg, s, c);
    var v := cfg.ops[c].v;
    if s.phases[c] == WritingRuntime {
      SetRuntimeKeeps(s.kv, cfg.prefix, v.runtime.value.(policy := v.policy, volume := v.name), fate);
    } else {
      var kv := SetNext(s.kv, cfg.prefix, v, Writing, fate).value.0;
      forall p, n | ValidName(p) && ValidName(n) ensures GoodAt(kv, cfg.prefix, p, n) {
        VolumePutKeeps(s.kv, cfg.prefix, v.policy, v.name, v.body, v.runtime.value.opts, p, n);
      }
    }
  }

  /** A new volume key is that of a Set. */
  lemma WriteCanBe(cfg: Config, s: State, c: nat, fate: Fate, p: string, n: string)
    requires Inv(cfg, s) && c < |cfg.ops| && Acceptable(cfg.ops[c]) && s.phases[c] in {WritingRuntime, Writing}
    requires ValidName(p) && ValidName(n)
    requires VolumeKey(cfg.prefix, p, n) in SetNext(s.kv, cfg.prefix, cfg.ops[c].v, s.phases[c], fate).value.0
    ensures CanBe(cfg, p, n)
  {
    assert PhaseFits(cfg, s, c);
    var v := cfg.ops[c].v;
    RootsDiffer(cfg.prefix, ROOT_RUNTIME, v.policy, v.name, ROOT_VOLUME, p, n);
    PathsDiffer(cfg.prefix, ROOT_VOLUME, p, n, ROOT_VOLUME, v.policy, v.name);
    assert cfg.ops[c] in cfg.ops && Sets(cfg.ops[c], v.policy, v.name);
  }

  lemma OnlyKeeps(cfg: Config, s: State, c: nat, fate: Fate)
    requires Inv(cfg, s) && !Threat(cfg) && c < |cfg.ops| && s.phases[c] == Only && !cfg.ops[c].SetVol?
    ensures Good(OnlyNext(s.kv, cfg.prefix, cfg.ops[c], fate).0, cfg.prefix)
  {
    match cfg.ops[c]
    case SetRun(ro) => SetRuntimeKeeps(s.kv, cfg.prefix, ro, fate);
    case DeleteVol(p, n) => DeleteVolumeKeeps(s.kv, cfg.prefix, p, n, fate);
    case DeleteRun(p, n) =>
      DeleteRuntimeExactly(s.kv, cfg.prefix, p, n, fate);
      assert cfg.ops[c] in cfg.ops && !Threatens(cfg, cfg.ops[c]);
  }

  /** The only call of an operation leaves alone what other clients rely on. */
  lemma OnlySpares(cfg: Config, s: State, c: nat, fate: Fate, p: string, n: string)
    requires Inv(cfg, s) && !Threat(cfg) && c < |cfg.ops| && s.phases[c] == Only && !cfg.ops[c].SetVol?
    requires ValidName(p) && ValidName(n)
    ensures var kv := OnlyNext(s.kv, cfg.prefix, cfg.ops[c], fate).0;
      && (VolumeKey(cfg.prefix, p, n) in kv ==> VolumeKey(cfg.prefix, p, n) in s.kv)
      && (CanBe(cfg, p, n) && RuntimeKey(cfg.prefix, p, n) in s.kv ==> RuntimeKey(cfg.prefix, p, n) in kv)
  {
    assert PhaseFits(cfg, s, c);
    match cfg.ops[c]
    case SetRun(ro) => RootsDiffer(cfg.prefix, ROOT_RUNTIME, ro.policy, ro.volume, ROOT_VOLUME, p, n);
    case DeleteVol(q, m) => RootsDiffer(cfg.prefix, ROOT_VOLUME, q, m, ROOT_RUNTIME, p, n);
    case DeleteRun(q, m) =>
      PathsDiffer(cfg.prefix, ROOT_RUNTIME, p, n, ROOT_RUNTIME, q, m);
      assert cfg.ops[c] in cfg.ops && !Threatens(cfg, cfg.ops[c]);
  }

  lemma InvNext(cfg: Config, s: State, call: Call)
    requires Inv(cfg, s) && !Threat(cfg) && Next(cfg, s, call).Some?
    ensures Inv(cfg, Next(cfg, s, call).value)
  {
    var c, t := call.c, Next(cfg, s, call).value;
    assert PhaseFits(cfg, s, c);
    if cfg.ops[c].SetVol? {
      SetInvNext(cfg, s, call);
    } else {
      OnlyKeeps(cfg, s, c, call.fate);
      forall d | 0 <= d < |t.phases| ensures PhaseFits(cfg, t, d) {
        assert PhaseFits(cfg, s, d);
        if t.phases[d] == Writing {
          var v := cfg.ops[d].v;
          assert cfg.ops[d] in cfg.ops && Sets(cfg.ops[d], v.policy, v.name);
          OnlySpares(cfg, s, c, call.fate, v.policy, v.name);
        }
      }
      forall p, n | ValidName(p) && ValidName(n) && VolumeKey(cfg.prefix, p, n) in t.kv ensures CanBe(cfg, p, n) {
        OnlySpares(cfg, s, c, call.fate, p, n);
      }
    }
  }

  lemma SetInvNext(cfg: Config, s: State, call: Call)
    requires Inv(cfg, s) && Next(cfg, s, call).Some? && cfg.ops[call.c].SetVol?
    ensures Inv(cfg, Next(cfg, s, call).value)
  {
    var c, t := call.c, Next(cfg, s, call).value;
    assert PhaseFits(cfg, s, c);
    if s.phases[c] in {WritingRuntime, Writing} {
      WriteKeeps(cfg, s, c, call.fate);
      forall p, n | ValidName(p) && ValidName(n) && VolumeKey(cfg.prefix, p, n) in t.kv ensures CanBe(cfg, p, n) {
        WriteCanBe(cfg, s, c, call.fate, p, n);
      }
    }
    forall d | 0 <= d < |t.phases| ensures PhaseFits(cfg, t, d) {
      assert PhaseFits(cfg, s, d);
    }
  }

  lemma {:induction false} InvRun(cfg: Config, calls: seq<Call>)
    requires Good(cfg.start, cfg.prefix) && !Threat(cfg) && Run(cfg, calls).Some?
    ensures Inv(cfg, Run(cfg, calls).value)
    decreases |calls|
  {
    if calls != [] {
      InvRun(cfg, calls[..|calls| - 1]);
      InvNext(cfg, Run(cfg, calls[..|calls| - 1]).value, calls[|calls| - 1]);
    }
  }

  ghost predicate Breaks(cfg: Config) {
    exists s :: Reachable(cfg, s) && !Good(s.kv, cfg.prefix)
  }

  /** A client makes all calls of its Set, undisturbed and all served, for a volume that is not there. */
  lemma SetAlone(cfg: Config, s: State, c: nat) returns (t: State)
    requires Reachable(cfg, s) && c < |cfg.ops| && c < |s.phases| && Acceptable(cfg.ops[c]) && s.phases[c] == Reading
    requires VolumeKey(cfg.prefix, cfg.ops[c].v.policy, cfg.ops[c].v.name) !in s.kv
    ensures Reachable(cfg, t) && |t.phases| == |s.phases|
    ensures VolumeKey(cfg.prefix, cfg.ops[c].v.policy, cfg.ops[c].v.name) in t.kv
    ensures RuntimeKey(cfg.prefix, cfg.ops[c].v.policy, cfg.ops[c].v.name) in t.kv
    ensures forall d | 0 <= d < |s.phases| && d != c :: t.phases[d] == s.phases[d]
  {
    t := Go(cfg, s, Call(c, Fine));
    t := Go(cfg, t, Call(c, Fine));
    t := Go(cfg, t, Call(c, Fine));
  }

  lemma BreakRun(cfg: Config, c: nat)
    requires Good(cfg.start, cfg.prefix) && c < |cfg.ops| && Threatens(cfg, cfg.ops[c])
    ensures Breaks(cfg)
  {
    var p, n := cfg.ops[c].p, cfg.ops[c].n;
    var s := Init(cfg);
    assert Run(cfg, []) == Some(s) && Reachable(cfg, s);
    assert GoodAt(cfg.start, cfg.prefix, p, n);
    if VolumeKey(cfg.prefix, p, n) !in cfg.start {
      var op :| op in cfg.ops && Sets(op, p, n);
      var d :| 0 <= d < |cfg.ops| && cfg.ops[d] == op;
      s := SetAlone(cfg, s, d);
    }
    BreakStep(cfg, s, c);
  }

  lemma BreakStep(cfg: Config, s: State, c: nat)
    requires Reachable(cfg, s) && c < |cfg.ops| && c < |s.phases| && s.phases[c] == Only && cfg.ops[c].DeleteRun?
    requires var p, n := cfg.ops[c].p, cfg.ops[c].n;
      ValidName(p) && ValidName(n) && VolumeKey(cfg.prefix, p, n) in s.kv && RuntimeKey(cfg.prefix, p, n) in s.kv
    ensures Breaks(cfg)
  {
    var p, n := cfg.ops[c].p, cfg.ops[c].n;
    var t := Go(cfg, s, Call(c, Fine));
    RootsDiffer(cfg.prefix, ROOT_RUNTIME, p, n, ROOT_VOLUME, p, n);
    assert !GoodAt(t.kv, cfg.prefix, p, n);
  }

  /** However clients' calls come among each other and whichever are lost, every volume record has a
      runtime record beside it in every state, exactly when nobody deletes the runtime options of a
      volume that is there from the start or that somebody sets. */
  lemma RacesAreGoodExactly(cfg: Config)
    requires Good(cfg.start, cfg.prefix)
    ensures Breaks(cfg) <==> Threat(cfg)
  {
    if Threat(cfg) {
      var op :| op in cfg.ops && Threatens(cfg, op);
      var c :| 0 <= c < |cfg.ops| && cfg.ops[c] == op;
      BreakRun(cfg, c);
    } else {
      forall s | Reachable(cfg, s) ensures Good(s.kv, cfg.prefix) {
        var calls :| Run(cfg, calls) == Some(s);
        InvRun(cfg, calls);
      }
    }
  }

  // ---- Two Sets of one name ----------------------------------------------------------------------

  /** What a Set is bound for once it has read the volume's record, if its calls are served. */
  predicate Destined(v: Vol, phase: Phase, found: bool) {
    if found then
      match phase
      case ReadingRuntime(got) =>
        got.policy == v.policy && got.name == v.name && VolumeValid(got) && got.runtime.Some?
      case Over(r) => r == Exists
      case _ => false
    else phase in {WritingRuntime, Writing, Over(Done)}
  }

  /** Its read finds the volume exactly when it can be got. */
  lemma ReadFinds(kv: Store, prefix: string, v: Vol)
    requires Good(kv, prefix) && VolumeValid(v) && v.runtime.Some? && RuntimeValid(v.runtime.value.opts)
    ensures Destined(v, Read(kv, prefix, v, Fine), Gettable(kv, prefix, v.policy, v.name))
    ensures Gettable(kv, prefix, v.policy, v.name) ==> RuntimeKey(prefix, v.policy, v.name) in kv
  {
    var p, n := v.policy, v.name;
    assert GoodAt(kv, prefix, p, n);
    if VolumeKey(prefix, p, n) in kv {
      VolumeKeySets(prefix, DecodeVolume(v, kv[VolumeKey(prefix, p, n)]).value, p, n);
    }
  }

  lemma ReadRuntimeFinds(kv: Store, prefix: string, v: Vol, got: Vol)
    requires Good(kv, prefix) && Destined(v, ReadingRuntime(got), true) && Loose(prefix)
    requires RuntimeKey(prefix, v.policy, v.name) in kv
    ensures ReadRuntime(kv, prefix, v, got, Fine) == Over(Exists)
  {
    assert GoodAt(kv, prefix, v.policy, v.name);
    RuntimeGets(kv, prefix, got.runtime.value.(policy := got.policy, volume := got.name), Fine);
  }

  /** Nobody takes away the runtime options of a volume that is set. */
  lemma RuntimeStays(cfg: Config, s: State, call: Call, p: string, n: string)
    requires Inv(cfg, s) && !Threat(cfg) && Next(cfg, s, call).Some?
    requires ValidName(p) && ValidName(n) && CanBe(cfg, p, n) && RuntimeKey(cfg.prefix, p, n) in s.kv
    ensures RuntimeKey(cfg.prefix, p, n) in Next(cfg, s, call).value.kv
  {
    assert PhaseFits(cfg, s, call.c);
    if !cfg.ops[call.c].SetVol? {
      OnlySpares(cfg, s, call.c, call.fate, p, n);
    } else if s.phases[call.c] in {WritingRuntime, Writing} {
      WriteKeeps(cfg, s, call.c, call.fate);
    }
  }

  lemma DestinedNext(cfg: Config, s: State, call: Call, c: nat, found: bool)
    requires Inv(cfg, s) && !Threat(cfg) && Next(cfg, s, call).Some?
    requires c < |cfg.ops| && Acceptable(cfg.ops[c]) && (call.c == c ==> call.fate == Fine)
    requires Destined(cfg.ops[c].v, s.phases[c], found)
    requires found ==> Loose(cfg.prefix) && RuntimeKey(cfg.prefix, cfg.ops[c].v.policy, cfg.ops[c].v.name) in s.kv
    ensures var t := Next(cfg, s, call).value;
      && Destined(cfg.ops[c].v, t.phases[c], found)
      && (found ==> RuntimeKey(cfg.prefix, cfg.ops[c].v.policy, cfg.ops[c].v.name) in t.kv)
  {
    var v := cfg.ops[c].v;
    assert cfg.ops[c] in cfg.ops && Sets(cfg.ops[c], v.policy, v.name);
    if found {
      RuntimeStays(cfg, s, call, v.policy, v.name);
    }
    if call.c == c && s.phases[c].ReadingRuntime? {
      ReadRuntimeFinds(s.kv, cfg.prefix, v, s.phases[c].got);
    }
  }

  /** The first call of c, at k, and all its later ones are served. */
  predicate ServedFrom(calls: seq<Call>, k: nat, c: nat) {
    k < |calls| && calls[k].c == c && forall i | k <= i < |calls| && calls[i].c == c :: calls[i].fate == Fine
  }

  lemma {:induction false} DestinedRun(cfg: Config, calls: seq<Call>, k: nat, c: nat)
    requires Good(cfg.start, cfg.prefix) && !Threat(cfg) && Run(cfg, calls).Some? && ServedFrom(calls, k, c)
    requires c < |cfg.ops| && Acceptable(cfg.ops[c])
    ensures Run(cfg, calls[..k]).Some?
    ensures c < |Run(cfg, calls[..k]).value.phases| && c < |Run(cfg, calls).value.phases|
    ensures var s := Run(cfg, calls[..k]).value;
      var v := cfg.ops[c].v;
      s.phases[c] == Reading ==>
        var found := Gettable(s.kv, cfg.prefix, v.policy, v.name);
        && Destined(v, Run(cfg, calls).value.phases[c], found)
        && (found ==> RuntimeKey(cfg.prefix, v.policy, v.name) in Run(cfg, calls).value.kv)
    decreases |calls|
  {
    var v, front, last := cfg.ops[c].v, calls[..|calls| - 1], calls[|calls| - 1];
    var s := Run(cfg, front).value;
    InvRun(cfg, front);
    InvRun(cfg, calls);
    if k == |calls| - 1 {
      ReadFinds(s.kv, cfg.prefix, v);
    } else {
      assert front[..k] == calls[..k];
      DestinedRun(cfg, front, k, c);
      var o := Run(cfg, calls[..k]).value;
      if o.phases[c] == Reading {
        DestinedNext(cfg, s, last, c, Gettable(o.kv, cfg.prefix, v.policy, v.name));
      }
    }
  }

  /** A Set whose calls are served succeeds exactly when the volume could not be got at its first call,
      whatever other clients have done since; otherwise it reports that the volume exists. So two Sets
      of one name both succeed exactly when neither could get the volume at its first call. */
  lemma SetWinsExactly(cfg: Config, calls: seq<Call>, k: nat, c: nat)
    requires Good(cfg.start, cfg.prefix) && !Threat(cfg) && Run(cfg, calls).Some? && ServedFrom(calls, k, c)
    requires c < |cfg.ops| && Acceptable(cfg.ops[c])
    ensures Run(cfg, calls[..k]).Some?
    ensures c < |Run(cfg, calls[..k]).value.phases| && c < |Run(cfg, calls).value.phases|
    ensures var s := Run(cfg, calls[..k]).value;
      var phase := Run(cfg, calls).value.phases[c];
      s.phases[c] == Reading && phase.Over? ==>
        && (phase == Over(Done) <==> !Gettable(s.kv, cfg.prefix, cfg.ops[c].v.policy, cfg.ops[c].v.name))
        && (phase == Over(Exists) <==> Gettable(s.kv, cfg.prefix, cfg.ops[c].v.policy, cfg.ops[c].v.name))
  {
    DestinedRun(cfg, calls, k, c);
  }

  // Runs in which every call is served

  predicate AllServed(calls: seq<Call>) {
    forall x <- calls :: x.fate == Fine
  }

  ghost predicate ServedReachable(cfg: Config, s: State) {
    exists calls :: AllServed(calls) && Run(cfg, calls) == Some(s)
  }

  lemma GoServed(cfg: Config, s: State, c: nat) returns (t: State)
    requires ServedReachable(cfg, s) && Next(cfg, s, Call(c, Fine)).Some?
    ensures ServedReachable(cfg, t) && Next(cfg, s, Call(c, Fine)) == Some(t)
  {
    t := Next(cfg, s, Call(c, Fine)).value;
    var calls :| AllServed(calls) && Run(cfg, calls) == Some(s);
    assert (calls + [Call(c, Fine)])[..|calls|] == calls;
    assert Run(cfg, calls + [Call(c, Fine)]) == Some(t);
  }

  ghost predicate BothSucceed(cfg: Config, a: nat, b: nat) {
    exists s :: ServedReachable(cfg, s) && a < |s.phases| && b < |s.phases|
      && s.phases[a] == Over(Done) && s.phases[b] == Over(Done)
  }

  /** Two different Sets of one volume. */
  predicate Twins(cfg: Config, a: nat, b: nat) {
    && a < |cfg.ops| && b < |cfg.ops| && a != b && Acceptable(cfg.ops[a]) && Acceptable(cfg.ops[b])
    && cfg.ops[a].v.policy == cfg.ops[b].v.policy && cfg.ops[a].v.name == cfg.ops[b].v.name
  }

  /** Both read before either writes. */
  lemma TwinsRun(cfg: Config, s: State, a: nat, b: nat)
    requires Twins(cfg, a, b) && ServedReachable(cfg, s) && |s.phases| == |cfg.ops|
    requires s.phases[a] == Reading && s.phases[b] == Reading
    requires Read(s.kv, cfg.prefix, cfg.ops[a].v, Fine) == WritingRuntime
    requires Read(s.kv, cfg.prefix, cfg.ops[b].v, Fine) == WritingRuntime
    ensures BothSucceed(cfg, a, b)
  {
    var t := GoServed(cfg, s, a);
    t := GoServed(cfg, t, b);
    t := BothWrites(cfg, t, a);
    t := BothWrites(cfg, t, b);
  }

  lemma BothWrites(cfg: Config, s: State, c: nat) returns (t: State)
    requires ServedReachable(cfg, s) && c < |cfg.ops| && c < |s.phases| && Acceptable(cfg.ops[c])
    requires s.phases[c] == WritingRuntime
    ensures ServedReachable(cfg, t) && t.phases == s.phases[c := Over(Done)]
  {
    t := GoServed(cfg, s, c);
    t := GoServed(cfg, t, c);
  }

  /** Somebody deletes the volume. */
  predicate Deletes(op: Op, p: string, n: string) {
    op == Op.DeleteVol(p, n)
  }

  lemma DeleteServed(cfg: Config, s: State, p: string, n: string) returns (t: State)
    requires s == Init(cfg) && ServedReachable(cfg, s) && ValidName(p) && ValidName(n)
    requires exists op <- cfg.ops :: Deletes(op, p, n)
    ensures ServedReachable(cfg, t) && VolumeKey(cfg.prefix, p, n) !in t.kv && |t.phases| == |s.phases|
    ensures forall c | 0 <= c < |s.phases| && s.phases[c] == Reading :: t.phases[c] == Reading
  {
    var op :| op in cfg.ops && Deletes(op, p, n);
    var d :| 0 <= d < |cfg.ops| && cfg.ops[d] == op;
    t := GoServed(cfg, s, d);
  }

  lemma TwinsWin(cfg: Config, a: nat, b: nat)
    requires Good(cfg.start, cfg.prefix) && Twins(cfg, a, b)
    requires var v := cfg.ops[a].v;
      !Gettable(cfg.start, cfg.prefix, v.policy, v.name) || exists op <- cfg.ops :: Deletes(op, v.policy, v.name)
    ensures BothSucceed(cfg, a, b)
  {
    var s, v := Init(cfg), cfg.ops[a].v;
    assert AllServed([]) && Run(cfg, []) == Some(s);
    if Gettable(cfg.start, cfg.prefix, v.policy, v.name) {
      s := DeleteServed(cfg, s, v.policy, v.name);
      assert s.phases[a] == s.phases[b] == Reading;
    } else {
      ReadFinds(s.kv, cfg.prefix, v);
      ReadFinds(s.kv, cfg.prefix, cfg.ops[b].v);
    }
    TwinsRun(cfg, s, a, b);
  }

  /** A volume that nobody deletes stays. */
  lemma {:induction false} VolumeStays(cfg: Config, calls: seq<Call>, p: string, n: string)
    requires Run(cfg, calls).Some? && ValidName(p) && ValidName(n)
    requires VolumeKey(cfg.prefix, p, n) in cfg.start && forall op <- cfg.ops :: !Deletes(op, p, n)
    ensures VolumeKey(cfg.prefix, p, n) in Run(cfg, calls).value.kv
    decreases |calls|
  {
    if calls != [] {
      var front, last := calls[..|calls| - 1], calls[|calls| - 1];
      VolumeStays(cfg, front, p, n);
      match cfg.ops[last.c] {
        case DeleteVol(q, m) =>
          assert cfg.ops[last.c] in cfg.ops && !Deletes(cfg.ops[last.c], p, n);
          if q != "" && m != "" {
            PathsDiffer(cfg.prefix, ROOT_VOLUME, p, n, ROOT_VOLUME, q, m);
          }
        case DeleteRun(q, m) => RootsDiffer(cfg.prefix, ROOT_RUNTIME, q, m, ROOT_VOLUME, p, n);
        case _ =>
      }
    }
  }

  lemma {:induction false} FirstCall(cfg: Config, calls: seq<Call>, c: nat) returns (k: nat)
    requires Run(cfg, calls).Some? && c < |cfg.ops| && FirstPhase(cfg.ops[c]) == Reading
    requires c < |Run(cfg, calls).value.phases| && Run(cfg, calls).value.phases[c] != Reading
    ensures k < |calls| && calls[k].c == c && Run(cfg, calls[..k]).Some?
    ensures c < |Run(cfg, calls[..k]).value.phases| && Run(cfg, calls[..k]).value.phases[c] == Reading
    decreases |calls|
  {
    var front := calls[..|calls| - 1];
    var s := Run(cfg, front).value;
    if s.phases[c] == Reading {
      k := |calls| - 1;
    } else {
      k := FirstCall(cfg, front, c);
      assert front[..k] == calls[..k];
    }
  }

  /** In some run in which every call is served, two Sets of one name both succeed, exactly when the
      volume cannot be got at the start or somebody deletes it. */
  lemma BothSucceedExactly(cfg: Config, a: nat, b: nat)
    requires Good(cfg.start, cfg.prefix) && !Threat(cfg) && Twins(cfg, a, b)
    ensures var v := cfg.ops[a].v;
      BothSucceed(cfg, a, b) <==>
        !Gettable(cfg.start, cfg.prefix, v.policy, v.name) || exists op <- cfg.ops :: Deletes(op, v.policy, v.name)
  {
    var v := cfg.ops[a].v;
    if !Gettable(cfg.start, cfg.prefix, v.policy, v.name) || exists op <- cfg.ops :: Deletes(op, v.policy, v.name) {
      TwinsWin(cfg, a, b);
    } else if BothSucceed(cfg, a, b) {
      var s :| ServedReachable(cfg, s) && a < |s.phases| && b < |s.phases|
        && s.phases[a] == Over(Done) && s.phases[b] == Over(Done);
      var calls :| AllServed(calls) && Run(cfg, calls) == Some(s);
      var k := FirstCall(cfg, calls, a);
      SetWinsExactly(cfg, calls, k, a);
      VolumeStays(cfg, calls[..k], v.policy, v.name);
      assert false;
    }
  }
}
