/** Printing and parsing of entity paths: Path and SetKey of db/volume.go and db/runtime.go,
    qualified and trimPath of db/impl/etcd/client.go. */
module EntityPaths {
  import opened Wrappers
  import opened Strings

  const ROOT_VOLUME: string := "volumes"
  const ROOT_RUNTIME: string := "runtime-policies"

  // ---- Printing --------------------------------------------------------------------------

  function Path(root: string, policy: string, volume: string): Result<string> {
    if policy == "" || volume == "" then Err else Ok(Join([root, policy, volume], '/'))
  }

  function Qualified(prefix: string, path: string): string {
    prefix + ['/'] + path
  }

  /** The key etcd reports for a node. */
  function NodeKey(prefix: string, path: string): string {
    ['/'] + Qualified(prefix, path)
  }

  // ---- Parsing ---------------------------------------------------------------------------

  function TrimPath(prefix: string, key: string): string {
    TrimSlashes(TrimPrefix(TrimSlashes(key), prefix))
  }

  function Names(suffix: string): Result<(string, string)> {
    var parts := Split(suffix, '/');
    if |parts| != 2 || parts[0] == "" || parts[1] == "" then Err else Ok((parts[0], parts[1]))
  }

  function Suffix(key: string, root: string): string {
    TrimSlashes(TrimPrefix(key, root))
  }

  function VolumeSuffix(key: string): string {
    Suffix(TrimSlashes(key), ROOT_VOLUME)
  }

  /** The names that a volume's SetKey takes from a key. */
  function VolumeNames(key: string): Result<(string, string)> {
    Names(VolumeSuffix(key))
  }

  /** The names that runtime options' SetKey takes from a key. */
  function RuntimeNames(key: string): Result<(string, string)> {
    Names(Suffix(key, ROOT_RUNTIME))
  }

  // ---- Round trip ------------------------------------------------------------------------

  /** A piece of a path. */
  predicate Part(s: string) {
    s != "" && '/' !in s
  }

  /** Text that slash trimming leaves alone. */
  predicate Tight(s: string) {
    s != "" && s[0] != '/' && s[|s| - 1] != '/'
  }

  lemma {:induction false} TrimLeftAppend(a: string, b: string)
    ensures TrimLeft(a + b, IsSlash)
         == if TrimLeft(a, IsSlash) == "" then TrimLeft(b, IsSlash) else TrimLeft(a, IsSlash) + b
  {
    if a == "" {
      assert a + b == b;
    } else {
      TrimLeftAppend(a[1..], b);
      assert (a + b)[1..] == a[1..] + b;
    }
  }

  /** Trimming what stands before the last tight piece. */
  lemma TrimBefore(a: string, path: string)
    requires Tight(path)
    ensures var l := TrimLeft(a, IsSlash);
      TrimSlashes(a + ['/'] + path) == if l == "" then path else l + ['/'] + path
  {
    TrimLeftAppend(a, ['/'] + path);
    assert a + ['/'] + path == a + (['/'] + path);
    assert (['/'] + path)[1..] == path;
    var l := TrimLeft(a, IsSlash);
    assert l + (['/'] + path) == l + ['/'] + path;
  }

  lemma TrimTight(s: string)
    requires Tight(s)
    ensures TrimSlashes(s) == s
  {
    TrimNothing(s, IsSlash);
  }

  /** Taking the front of a path off. */
  lemma DropFront(front: string, rest: string)
    requires Tight(rest)
    ensures TrimSlashes(TrimPrefix(front + ['/'] + rest, front)) == rest
  {
    TrimBefore("", rest);
    assert (front + ['/'] + rest)[|front|..] == "" + ['/'] + rest;
  }

  lemma PairTight(p: string, n: string)
    requires Part(p) && Part(n)
    ensures Join([p, n], '/') == p + ['/'] + n
    ensures Tight(Join([p, n], '/')) && Split(Join([p, n], '/'), '/') == [p, n]
  {
    JoinTwo([p, n], '/');
    SplitJoin([p, n], '/');
  }

  lemma TripleTight(root: string, p: string, n: string)
    requires Part(root) && Part(p) && Part(n)
    ensures Join([root, p, n], '/') == root + ['/'] + Join([p, n], '/')
    ensures Tight(Join([root, p, n], '/')) && Split(Join([root, p, n], '/'), '/') == [root, p, n]
  {
    PairTight(p, n);
    assert [root, p, n][1..] == [p, n];
    SplitJoin([root, p, n], '/');
  }

  lemma {:induction false} SplitAppend(a: string, b: string)
    ensures |Split(a + ['/'] + b, '/')| == |Split(a, '/')| + |Split(b, '/')|
  {
    var s := a + ['/'] + b;
    if a == "" {
      assert s[1..] == b;
    } else {
      SplitAppend(a[1..], b);
      assert s[1..] == a[1..] + ['/'] + b;
    }
  }

  /** A root in front of two names is dropped. */
  lemma SuffixOfPath(root: string, p: string, n: string)
    requires Part(root) && Part(p) && Part(n)
    ensures Names(Suffix(Join([root, p, n], '/'), root)) == Ok((p, n))
    ensures Suffix(Join([root, p, n], '/'), root) == Join([p, n], '/')
  {
    TripleTight(root, p, n);
    PairTight(p, n);
    DropFront(root, Join([p, n], '/'));
  }

  /** A root at the start of a path is at the start of its first piece. */
  lemma RootWithin(root: string, front: string, rest: string)
    requires Part(root)
    ensures root <= front + ['/'] + rest <==> root <= front
  {
    var s := front + ['/'] + rest;
    assert s[|front|] == '/' && s[..|front|] == front;
    assert root <= s ==> |root| <= |front|;
  }

  /** Prefixes that trimPath takes off again: those that do not start with a slash, and those
      that are nothing but slashes. */
  predicate Loose(prefix: string) {
    TrimLeft(prefix, IsSlash) in [prefix, ""]
  }

  lemma TrimPathOfKey(prefix: string, path: string)
    requires Tight(path)
    ensures TrimPath(prefix, NodeKey(prefix, path))
         == if Loose(prefix) then path else TrimLeft(prefix, IsSlash) + ['/'] + path
  {
    TrimBefore(['/'] + prefix, path);
    assert (['/'] + prefix)[1..] == prefix;
    assert ['/'] + prefix + ['/'] + path == NodeKey(prefix, path);
    DropPrefix(prefix, path);
  }

  lemma DropPrefix(prefix: string, path: string)
    requires Tight(path)
    ensures var l := TrimLeft(prefix, IsSlash);
      TrimSlashes(TrimPrefix(if l == "" then path else l + ['/'] + path, prefix))
      == if Loose(prefix) then path else l + ['/'] + path
  {
    var l := TrimLeft(prefix, IsSlash);
    if l == "" {
      TrimTight(path);
    } else if l == prefix {
      DropFront(prefix, path);
    } else {
      assert prefix[0] == '/';
      TrimTight(l + ['/'] + path);
    }
  }

  /** A key with anything in front of the root has too many parts. */
  lemma FrontSpoils(front: string, root: string, p: string, n: string)
    requires Part(root) && Part(p) && Part(n) && front != "" && front[0] != '/'
    ensures Names(Suffix(TrimSlashes(front + ['/'] + Join([root, p, n], '/')), root)) == Err
  {
    var path := Join([root, p, n], '/');
    TripleTight(root, p, n);
    var s := front + ['/'] + path;
    TrimTight(s);
    RootWithin(root, front, path);
    if root <= s {
      var q := front[|root|..];
      assert s[|root|..] == q + ['/'] + path;
      TrimBefore(q, path);
      SplitAppend(TrimLeft(q, IsSlash), path);
    } else {
      SplitAppend(front, path);
    }
  }

  /** A volume's names survive printing and parsing when the client's prefix is loose; with any
      other prefix the key is refused. */
  lemma VolumeNamesExactly(prefix: string, p: string, n: string)
    requires Part(p) && Part(n)
    ensures VolumeNames(TrimPath(prefix, NodeKey(prefix, Path(ROOT_VOLUME, p, n).value)))
         == if Loose(prefix) then Ok((p, n)) else Err
  {
    RootedNamesExactly(prefix, ROOT_VOLUME, p, n);
  }

  lemma RootedNamesExactly(prefix: string, root: string, p: string, n: string)
    requires Part(root) && Part(p) && Part(n)
    ensures var suffix := Suffix(TrimSlashes(TrimPath(prefix, NodeKey(prefix, Join([root, p, n], '/')))), root);
      && Names(suffix) == (if Loose(prefix) then Ok((p, n)) else Err)
      && (Loose(prefix) ==> suffix == Join([p, n], '/'))
  {
    var path := Join([root, p, n], '/');
    TripleTight(root, p, n);
    TrimPathOfKey(prefix, path);
    if Loose(prefix) {
      TrimTight(path);
      SuffixOfPath(root, p, n);
    } else {
      FrontSpoils(TrimLeft(prefix, IsSlash), root, p, n);
    }
  }

  /** The same for runtime options. */
  lemma RuntimeNamesExactly(prefix: string, p: string, n: string)
    requires Part(p) && Part(n)
    ensures RuntimeNames(TrimPath(prefix, NodeKey(prefix, Path(ROOT_RUNTIME, p, n).value)))
         == if Loose(prefix) then Ok((p, n)) else Err
  {
    var key := NodeKey(prefix, Path(ROOT_RUNTIME, p, n).value);
    RootedNamesExactly(prefix, ROOT_RUNTIME, p, n);
    TripleTight(ROOT_RUNTIME, p, n);
    TrimPathOfKey(prefix, Join([ROOT_RUNTIME, p, n], '/'));
    TrimTight(TrimPath(prefix, key));
  }

  /** A volume's SetKey hands its own two names to the runtime options, which may take a root
      off their front once more. */
  lemma OwnNamesAgain(root: string, p: string, n: string)
    requires Part(root) && Part(p) && Part(n)
    ensures Names(Suffix(Join([p, n], '/'), root))
         == if p == root then Err
            else Ok((if root <= p then p[|root|..] else p, n))
  {
    PairTight(p, n);
    var s := p + ['/'] + n;
    RootWithin(root, p, n);
    if p == root {
      DropFront(root, n);
      SplitFirst(n, "", '/');
    } else if root <= p {
      RootInside(root, p, n);
    } else {
      TrimTight(s);
    }
  }

  lemma RootInside(root: string, p: string, n: string)
    requires Part(root) && Part(p) && Part(n) && root < p
    ensures Names(Suffix(p + ['/'] + n, root)) == Ok((p[|root|..], n))
  {
    var rest := p[|root|..];
    PairTight(rest, n);
    TrimTight(rest + ['/'] + n);
    assert (p + ['/'] + n)[|root|..] == rest + ['/'] + n;
  }

  /** What a volume's SetKey gets from the volume's own key, for itself and for its runtime
      options. */
  lemma VolumeKeyNames(prefix: string, p: string, n: string)
    requires Part(p) && Part(n)
    ensures var key := TrimPath(prefix, NodeKey(prefix, Join([ROOT_VOLUME, p, n], '/')));
      && VolumeNames(key) == (if Loose(prefix) then Ok((p, n)) else Err)
      && (Loose(prefix) ==> (RuntimeNames(VolumeSuffix(key)).Err? <==> p == ROOT_RUNTIME))
  {
    RootedNamesExactly(prefix, ROOT_VOLUME, p, n);
    OwnNamesAgain(ROOT_RUNTIME, p, n);
  }

  /** Different roots or names give different keys, even if one of the entities has slashes in
      its names. */
  lemma PathsDiffer(prefix: string, root: string, p: string, n: string,
                    root': string, p': string, n': string)
    requires Part(root) && Part(p) && Part(n) && Part(root') && p' != "" && n' != ""
    ensures Qualified(prefix, Join([root, p, n], '/')) == Qualified(prefix, Join([root', p', n'], '/'))
       <==> (root, p, n) == (root', p', n')
  {
    TripleTight(root, p, n);
    var a, b := Join([root, p, n], '/'), Join([root', p', n'], '/');
    assert Qualified(prefix, a)[|prefix| + 1..] == a;
    assert Qualified(prefix, b)[|prefix| + 1..] == b;
    if a == b {
      ThreePieces(root', p', n');
      TripleTight(root', p', n');
      assert [root, p, n][0] == root && [root, p, n][1] == p && [root, p, n][2] == n;
    }
  }

  /** Roots tell keys apart whatever the names are. */
  lemma RootsDiffer(prefix: string, root: string, p: string, n: string,
                    root': string, p': string, n': string)
    requires Part(root) && Part(root') && root != root'
    ensures Qualified(prefix, Join([root, p, n], '/')) != Qualified(prefix, Join([root', p', n'], '/'))
  {
    RootFirst(root, p, n);
    RootFirst(root', p', n');
    var a, b := Join([root, p, n], '/'), Join([root', p', n'], '/');
    assert Qualified(prefix, a)[|prefix| + 1..] == a;
    assert Qualified(prefix, b)[|prefix| + 1..] == b;
  }

  lemma RootFirst(root: string, p: string, n: string)
    requires Part(root)
    ensures Join([root, p, n], '/') == root + ['/'] + Join([p, n], '/')
    ensures Split(Join([root, p, n], '/'), '/')[0] == root
  {
    assert [root, p, n][1..] == [p, n];
    SplitFirst(root, Join([p, n], '/'), '/');
  }

  /** A path that splits into three pieces has no slash in its names. */
  lemma ThreePieces(root: string, p: string, n: string)
    requires Part(root) && p != "" && n != ""
    requires |Split(Join([root, p, n], '/'), '/')| == 3
    ensures Part(p) && Part(n)
  {
    RootFirst(root, p, n);
    JoinTwo([p, n], '/');
    SplitAppend(root, Join([p, n], '/'));
    SplitAppend(p, n);
    SplitFirst(root, "", '/');
    SplitPieces(p, '/');
    SplitPieces(n, '/');
    SplitJoins(p, '/');
    SplitJoins(n, '/');
  }
}
