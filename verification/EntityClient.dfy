/** The entities and the client as the objects they are in db/ and db/impl/etcd: SetKey, the
    hooks, Get and traverse assign to entities in place, Set and Delete write the store. Each
    method is proved to do what EntityStore says of values. */
module EntityClient {
  import opened Wrappers
  import opened Strings
  import opened EntityPaths
  import opened EntityStore

  class RuntimeOptions {
    var opts: Opts
    var policyName: string
    var volumeName: string

    constructor (opts: Opts, policy: string, volume: string)
      ensures Value() == Runtime(opts, policy, volume)
    {
      this.opts, policyName, volumeName := opts, policy, volume;
    }

    function Value(): Runtime
      reads this
    {
      Runtime(opts, policyName, volumeName)
    }

    function Path(): Result<string>
      reads this
    {
      EntityPaths.Path(ROOT_RUNTIME, policyName, volumeName)
    }

    /** Unmarshals a record into the options. */
    method Read(d: Doc) returns (ok: bool)
      modifies this
      ensures ok <==> DecodeRuntime(old(Value()), d).Some?
      ensures Value() == if ok then DecodeRuntime(old(Value()), d).value else old(Value())
    {
      if d.RuntimeDoc? {
        opts := d.opts;
      }
      ok := !d.Bad?;
    }

    method SetKey(key: string) returns (ok: bool)
      modifies this
      ensures (Value(), ok) == RuntimeSetKey(old(Value()), key)
    {
      var suffix := TrimSlashes(TrimPrefix(key, ROOT_RUNTIME));
      var parts := Split(suffix, '/');
      if |parts| != 2 {
        return false;
      }
      if parts[0] == "" || parts[1] == "" {
        return false;
      }
      policyName, volumeName := parts[0], parts[1];
      return true;
    }
  }

  class Volume {
    var policyName: string
    var volumeName: string
    var body: Body
    var runtime: RuntimeOptions?

    constructor (policy: string, volume: string, body: Body, runtime: RuntimeOptions?)
      ensures policyName == policy && volumeName == volume
      ensures this.body == body && this.runtime == runtime
    {
      policyName, volumeName, this.body, this.runtime := policy, volume, body, runtime;
    }

    function Value(): Vol
      reads this, runtime
    {
      Vol(policyName, volumeName, body, if runtime == null then None else Some(runtime.Value()))
    }

    function Path(): Result<string>
      reads this
    {
      EntityPaths.Path(ROOT_VOLUME, policyName, volumeName)
    }

    /** The copy has runtime options of its own. */
    method Copy() returns (v: Volume)
      ensures fresh(v) && v.Value() == Value()
      ensures v.runtime != null ==> fresh(v.runtime)
    {
      var ro: RuntimeOptions? := null;
      if runtime != null {
        ro := new RuntimeOptions(runtime.opts, runtime.policyName, runtime.volumeName);
      }
      v := new Volume(policyName, volumeName, body, ro);
    }

    /** Unmarshals a record into the volume. */
    method Read(d: Doc) returns (ok: bool)
      modifies this, runtime
      ensures ok <==> DecodeVolume(old(Value()), d).Some?
      ensures Value() == if ok then DecodeVolume(old(Value()), d).value else old(Value())
      ensures runtime == old(runtime) || runtime == null || fresh(runtime)
    {
      match d
      case Bad => ok := false;
      case RuntimeDoc(_) => ok := true;
      case VolumeDoc(p, n, b, e) =>
        policyName, volumeName, body := p, n, b;
        match e {
          case Absent =>
          case Null => runtime := null;
          case Given(opts) =>
            if runtime == null {
              runtime := new RuntimeOptions(opts, "", "");
            } else {
              runtime.opts := opts;
            }
        }
        ok := true;
    }

    method SetKey(key: string) returns (r: Reply)
      modifies this, runtime
      ensures (Value(), r) == VolumeSetKey(old(Value()), key) && runtime == old(runtime)
    {
      var suffix := TrimSlashes(TrimPrefix(TrimSlashes(key), ROOT_VOLUME));
      assert suffix == VolumeSuffix(key);
      var parts := Split(suffix, '/');
      if |parts| != 2 {
        return Failed;
      }
      if parts[0] == "" || parts[1] == "" {
        return Failed;
      }
      policyName, volumeName := parts[0], parts[1];
      if runtime == null {
        return if RuntimeNames(suffix).Err? then Failed else Panicked;
      }
      var ok := runtime.SetKey(suffix);
      return if ok then Done else Failed;
    }
  }

  class Client {
    const prefix: string
    var kv: Store

    constructor (prefix: string)
      ensures this.prefix == prefix && kv == map[]
    {
      this.prefix := prefix;
      kv := map[];
    }

    method GetRuntime(ro: RuntimeOptions, fate: Fate) returns (r: Reply)
      modifies ro
      ensures (ro.Value(), r) == EntityStore.GetRuntime(kv, prefix, old(ro.Value()), fate)
    {
      var path := ro.Path();
      if path.Err? {
        return Failed;
      }
      var key := Qualified(prefix, path.value);
      if key !in kv || fate != Fine {
        return Failed;
      }
      var ok := ro.Read(kv[key]);
      if !ok {
        return Failed;
      }
      ok := ro.SetKey(TrimPath(prefix, ['/'] + key));
      if !ok {
        return Failed;
      }
      return if RuntimeValid(ro.opts) then Done else Failed;
    }

    method PostGetHook(v: Volume, fate: Fate) returns (r: Reply)
      modifies v.runtime
      ensures (v.Value(), r) == PostGet(kv, prefix, old(v.Value()), fate)
    {
      if v.runtime == null {
        return Panicked;
      }
      v.runtime.policyName, v.runtime.volumeName := v.policyName, v.volumeName;
      r := GetRuntime(v.runtime, fate);
    }

    method GetVolume(v: Volume, fate: Fate, inner: Fate) returns (r: Reply)
      modifies v, v.runtime
      ensures (v.Value(), r) == EntityStore.GetVolume(kv, prefix, old(v.Value()), fate, inner)
    {
      var path := v.Path();
      if path.Err? {
        return Failed;
      }
      var key := Qualified(prefix, path.value);
      if key !in kv || fate != Fine {
        return Failed;
      }
      var ok := v.Read(kv[key]);
      if !ok {
        return Failed;
      }
      r := Complete(v, ['/'] + key, inner);
    }

    method Complete(v: Volume, key: string, inner: Fate) returns (r: Reply)
      modifies v, v.runtime
      ensures (v.Value(), r) == EntityStore.Complete(kv, prefix, old(v.Value()), key, inner)
    {
      r := v.SetKey(TrimPath(prefix, key));
      if r != Done {
        return;
      }
      r := PostGetHook(v, inner);
      if r != Done {
        return;
      }
      return if VolumeValid(v.Value()) then Done else Failed;
    }

    method SetRuntime(ro: RuntimeOptions, fate: Fate) returns (r: Reply)
      modifies this`kv
      ensures (kv, r) == EntityStore.SetRuntime(old(kv), prefix, ro.Value(), fate)
    {
      if !RuntimeValid(ro.opts) {
        return Failed;
      }
      var path := ro.Path();
      if path.Err? {
        return Failed;
      }
      kv := Put(kv, Qualified(prefix, path.value), RuntimeDoc(ro.opts), fate);
      return Answer(fate);
    }

    /** The check for an existing volume reads into a copy; then the runtime options are set. */
    method PreSetHook(v: Volume, f: Fates) returns (r: Reply)
      modifies this`kv, v.runtime
      ensures var old0 := old(v.Value());
        var got := EntityStore.GetVolume(old(kv), prefix, old0, f.read, f.readRuntime).1;
        if got == Done then r == Exists && kv == old(kv) && v.Value() == old0
        else if got == Panicked || old0.runtime.None? then r == Panicked && kv == old(kv) && v.Value() == old0
        else
          var ro := old0.runtime.value.(policy := old0.policy, volume := old0.name);
          && (kv, r) == EntityStore.SetRuntime(old(kv), prefix, ro, f.writeRuntime)
          && v.Value() == old0.(runtime := Some(ro))
    {
      var copy := v.Copy();
      var got := GetVolume(copy, f.read, f.readRuntime);
      if got == Done {
        return Exists;
      }
      if got == Panicked || v.runtime == null {
        return Panicked;
      }
      v.runtime.policyName, v.runtime.volumeName := v.policyName, v.volumeName;
      r := SetRuntime(v.runtime, f.writeRuntime);
    }

    method SetVolume(v: Volume, f: Fates) returns (r: Reply)
      modifies this`kv, v.runtime
      ensures (kv, v.Value(), r) == EntityStore.SetVolume(old(kv), prefix, old(v.Value()), f)
    {
      if !VolumeValid(v.Value()) {
        return Failed;
      }
      r := PreSetHook(v, f);
      if r != Done {
        return;
      }
      kv := Put(kv, Qualified(prefix, v.Path().value),
                VolumeDoc(v.policyName, v.volumeName, v.body, Given(v.runtime.opts)), f.write);
      return Answer(f.write);
    }

    method DeleteVolume(v: Volume, fate: Fate) returns (r: Reply)
      modifies this`kv
      ensures (kv, r) == EntityStore.DeleteVolume(old(kv), prefix, v.policyName, v.volumeName, fate)
    {
      var path := v.Path();
      if path.Err? || Qualified(prefix, path.value) !in kv {
        return Failed;
      }
      kv := if fate.Lost? then kv else kv - {Qualified(prefix, path.value)};
      return Answer(fate);
    }

    // ---- traverse ------------------------------------------------------------------------

    static ghost predicate Hold(entities: seq<Volume>, vs: seq<Vol>)
      reads entities, set e | e in entities && e.runtime != null :: e.runtime
    {
      |entities| == |vs| && forall i :: 0 <= i < |vs| ==> entities[i].Value() == vs[i]
    }

    static lemma HoldAppend(a: seq<Volume>, b: seq<Volume>, vs: seq<Vol>, ws: seq<Vol>)
      requires Hold(a, vs) && Hold(b, ws)
      ensures Hold(a + b, vs + ws)
    {
    }

    /** Takes the names from the key and fires the hook, whether or not the value was good. */
    method Reconcile(copy: Volume, decoded: bool, key: string, fate: Fate) returns (seen: Listed)
      modifies copy, copy.runtime
      ensures seen == EntityStore.Reconcile(kv, prefix, decoded, old(copy.Value()), key, fate)
      ensures seen.Entity? ==> copy.Value() == seen.v
      ensures copy.runtime == old(copy.runtime)
    {
      var keyed := copy.SetKey(TrimPath(prefix, key));
      if keyed == Panicked {
        return Crash;
      }
      var got := PostGetHook(copy, fate);
      if got == Panicked {
        return Crash;
      }
      if decoded && keyed == Done && got == Done {
        return Entity(copy.Value());
      }
      return Skipped;
    }

    /** The list of at most one entity. */
    static method Collect(copy: Volume, seen: Listed) returns (entities: seq<Volume>)
      requires seen.Entity? ==> copy.Value() == seen.v
      ensures entities == if seen.Entity? then [copy] else []
      ensures Hold(entities, if seen.Entity? then [seen.v] else [])
    {
      entities := if seen.Entity? then [copy] else [];
    }

    /** One file: its entity, if it has one. */
    method TraverseFile(leaf: Leaf, obj: Volume, fate: string -> Fate) returns (entities: seq<Volume>, crash: bool)
      ensures var visits := Visits(Visitor(kv, prefix, obj.Value(), fate), [leaf]);
        crash == Crashed(visits) && Hold(entities, Entities(visits))
      ensures forall e <- entities :: fresh(e) && (e.runtime != null ==> fresh(e.runtime))
    {
      ghost var v, store := obj.Value(), kv;
      var copy, seen := VisitFile(leaf, obj, fate(leaf.key));
      OneFile(store, prefix, v, leaf, fate);
      crash := seen.Crash?;
      entities := Collect(copy, seen);
      assert obj.Value() == v && kv == store;
    }

    method VisitFile(leaf: Leaf, obj: Volume, fate: Fate) returns (copy: Volume, seen: Listed)
      ensures seen == Visit(kv, prefix, obj.Value(), leaf, fate)
      ensures seen.Entity? ==> copy.Value() == seen.v
      ensures fresh(copy) && (copy.runtime != null ==> fresh(copy.runtime))
    {
      copy := obj.Copy();
      var ok := copy.Read(leaf.doc);
      seen := Reconcile(copy, ok, leaf.key, fate);
    }

    /** New entities for the tree's files, in order, unless some file brings the routine down. */
    method Traverse(node: Node, obj: Volume, fate: string -> Fate) returns (entities: seq<Volume>, crash: bool)
      ensures var visits := Visits(Visitor(kv, prefix, obj.Value(), fate), Leaves(node));
        crash == Crashed(visits) && (!crash ==> Hold(entities, Entities(visits)))
      ensures forall e <- entities :: fresh(e) && (e.runtime != null ==> fresh(e.runtime))
      decreases node
    {
      match node
      case File(key, doc) => entities, crash := TraverseFile(Leaf(key, doc), obj, fate);
      case Dir(nodes) => entities, crash := TraverseNodes(nodes, obj, fate);
    }

    method TraverseNodes(nodes: seq<Node>, obj: Volume, fate: string -> Fate)
      returns (entities: seq<Volume>, crash: bool)
      ensures var visits := Visits(Visitor(kv, prefix, obj.Value(), fate), AllLeaves(nodes));
        crash == Crashed(visits) && (!crash ==> Hold(entities, Entities(visits)))
      ensures forall e <- entities :: fresh(e) && (e.runtime != null ==> fresh(e.runtime))
      decreases nodes
    {
      entities, crash := [], false;
      ghost var visit := Visitor(kv, prefix, obj.Value(), fate);
      var i := 0;
      while i < |nodes|
        invariant 0 <= i <= |nodes|
        invariant !Crashed(Visits(visit, AllLeaves(nodes[..i])))
        invariant Hold(entities, Entities(Visits(visit, AllLeaves(nodes[..i]))))
        invariant forall e <- entities :: fresh(e) && (e.runtime != null ==> fresh(e.runtime))
      {
        var more, broken := Traverse(nodes[i], obj, fate);
        NextLeaves(visit, nodes, i);
        if broken {
          CrashedPart(visit, nodes, i + 1);
          return [], true;
        }
        HoldAppend(entities, more, Entities(Visits(visit, AllLeaves(nodes[..i]))),
                   Entities(Visits(visit, Leaves(nodes[i]))));
        entities := entities + more;
        i := i + 1;
      }
      assert nodes[..i] == nodes;
    }
  }
}
