/** storage/backend/nfs/nfs.go: the text of NFS mount options, parsed into a map and printed
    back in whatever order the map is iterated. */
module NfsOptions {
  import opened Wrappers
  import opened Strings
  import opened Iteration

  type Options = map<string, string>

  // ---- Parsing ---------------------------------------------------------------------------

  /** One `key` or `key=value` between two commas. */
  function ParsePart(text: string): Result<(string, string)> {
    var part := TrimSpace(text);
    if part == "" then Err
    else if part[0] == '=' || part[|part| - 1] == '=' then Err
    else
      var keyval := Split(part, '=');
      if |keyval| > 2 then Err
      else if |keyval| == 2 then Ok((keyval[0], keyval[1]))
      else Ok((keyval[0], ""))
  }

  /** Later parts override earlier ones. */
  function ParseParts(parts: seq<string>): Result<Options> {
    if parts == [] then Ok(map[]) else
    match ParseParts(parts[..|parts| - 1])
    case Err => Err
    case Ok(m) =>
      match ParsePart(parts[|parts| - 1])
      case Err => Err
      case Ok((k, v)) => Ok(m[k := v])
  }

  function Parse(options: string): Result<Options> {
    if options == "" then Ok(map[]) else ParseParts(Split(options, ','))
  }

  lemma {:induction false} BadPartSpoils(parts: seq<string>, i: nat)
    requires i < |parts| && ParsePart(parts[i]).Err?
    ensures ParseParts(parts).Err?
    decreases |parts|
  {
    if i < |parts| - 1 {
      BadPartSpoils(parts[..|parts| - 1], i);
    }
  }

  method ValidateConvertOptions(options: string) returns (r: Result<Options>)
    ensures r == Parse(options)
  {
    if options == "" {
      return Ok(map[]);
    }
    var parts := Split(options, ',');
    var mapOptions: Options := map[];
    for i := 0 to |parts|
      invariant ParseParts(parts[..i]) == Ok(mapOptions)
    {
      if ParsePart(parts[i]).Err? {
        BadPartSpoils(parts, i);
        return Err;
      }
      assert parts[..i + 1][..i] == parts[..i];
      var part := TrimSpace(parts[i]);
      var keyval := Split(part, '=');
      if |keyval| == 2 {
        mapOptions := mapOptions[keyval[0] := keyval[1]];
      } else {
        mapOptions := mapOptions[keyval[0] := ""];
      }
    }
    assert parts[..|parts|] == parts;
    r := Ok(mapOptions);
  }

  // ---- Printing --------------------------------------------------------------------------

  function PrintPart(k: string, v: string): string {
    if v == "" then k else k + "=" + v
  }

  function PrintParts(m: Options, order: seq<string>): (parts: seq<string>)
    requires Within(order, m)
  {
    seq(|order|, i requires 0 <= i < |order| => PrintPart(order[i], m[order[i]]))
  }

  lemma PrintSnoc(m: Options, order: seq<string>, k: string)
    requires Within(order, m) && k in m
    ensures Within(order + [k], m)
    ensures PrintParts(m, order + [k]) == PrintParts(m, order) + [PrintPart(k, m[k])]
  {
  }

  /** Text in which every part is followed by a comma. */
  function Terminated(parts: seq<string>): string {
    if parts == [] then "" else parts[0] + "," + Terminated(parts[1..])
  }

  lemma {:induction false} TerminatedIsJoin(parts: seq<string>)
    requires parts != []
    ensures Terminated(parts) == Join(parts, ',') + ","
  {
    if |parts| > 1 {
      TerminatedIsJoin(parts[1..]);
    } else {
      assert Terminated(parts[1..]) == "";
    }
  }

  lemma {:induction false} TerminatedSnoc(parts: seq<string>, p: string)
    ensures Terminated(parts + [p]) == Terminated(parts) + p + ","
  {
    if parts == [] {
      assert Terminated([p]) == p + "," + Terminated([]);
    } else {
      assert (parts + [p])[1..] == parts[1..] + [p];
      TerminatedSnoc(parts[1..], p);
    }
  }

  lemma PrintOneMore(m: Options, order: seq<string>, k: string)
    requires Within(order, m) && k in m
    ensures Within(order + [k], m)
    ensures Terminated(PrintParts(m, order + [k]))
         == if m[k] == "" then Terminated(PrintParts(m, order)) + k + ","
            else Terminated(PrintParts(m, order)) + k + ("=" + m[k]) + ","
  {
    PrintSnoc(m, order, k);
    TerminatedSnoc(PrintParts(m, order), PrintPart(k, m[k]));
    assert k + "=" + m[k] == k + ("=" + m[k]);
  }

  /** Prints the options in some iteration order; an empty map makes the final slice panic,
      which is None here. */
  method MapOptionsToString(m: Options) returns (r: Option<string>)
    ensures r == None <==> m == map[]
    ensures r.Some? ==> exists order :: Ordering(m, order) && r.value == Join(PrintParts(m, order), ',')
  {
    var ret := "";
    ghost var order: seq<string> := [];
    var rest := m.Keys;
    while rest != {}
      invariant rest <= m.Keys && Within(order, m)
      invariant forall k <- m :: k in order <==> k !in rest
      invariant NoRepeats(order)
      invariant ret == Terminated(PrintParts(m, order))
      decreases rest
    {
      var key :| key in rest;
      PrintOneMore(m, order, key);
      ret := ret + key;
      if m[key] != "" {
        ret := ret + "=" + m[key];
      }
      ret := ret + ",";
      order, rest := order + [key], rest - {key};
    }
    if m == map[] {
      return None;
    }
    NonEmptyOrder(m, order);
    TerminatedIsJoin(PrintParts(m, order));
    r := Some(ret[..|ret| - 1]);
  }

  // ---- Round trip ------------------------------------------------------------------------

  /** What a key and its value look like after parsing: no separators inside, nothing to trim
      at either end of the printed part. */
  predicate Clean(k: string, v: string) {
    && k != "" && ',' !in k && '=' !in k && ',' !in v && '=' !in v
    && !IsSpace(k[0])
    && if v == "" then !IsSpace(k[|k| - 1]) else !IsSpace(v[|v| - 1])
  }

  predicate AllClean(m: Options) {
    forall k <- m :: Clean(k, m[k])
  }

  lemma ParsePartClean(text: string)
    requires ',' !in text && ParsePart(text).Ok?
    ensures Clean(ParsePart(text).value.0, ParsePart(text).value.1)
  {
    var part := TrimSpace(text);
    var keyval := Split(part, '=');
    TrimIn(text, IsSpace);
    SplitPieces(part, '=');
    SplitJoins(part, '=');
    if |keyval| == 2 {
      JoinTwo(keyval, '=');
      assert part == keyval[0] + "=" + keyval[1];
    } else {
      assert part == keyval[0];
    }
  }

  lemma {:induction false} ParsePartsClean(parts: seq<string>)
    requires (forall p <- parts :: ',' !in p) && ParseParts(parts).Ok?
    ensures AllClean(ParseParts(parts).value)
  {
    if parts != [] {
      ParsePartsClean(parts[..|parts| - 1]);
      ParsePartClean(parts[|parts| - 1]);
    }
  }

  lemma AcceptedClean(options: string)
    requires Parse(options).Ok?
    ensures AllClean(Parse(options).value)
  {
    if options != "" {
      SplitPieces(options, ',');
      ParsePartsClean(Split(options, ','));
    }
  }

  lemma CleanPartParses(k: string, v: string)
    requires Clean(k, v)
    ensures ParsePart(PrintPart(k, v)) == Ok((k, v)) && ',' !in PrintPart(k, v)
  {
    var part := PrintPart(k, v);
    TrimNothing(part, IsSpace);
    if v == "" {
      SplitFirst(k, "", '=');
    } else {
      SplitFirst(k, v, '=');
      SplitFirst(v, "", '=');
    }
  }

  /** A part means an entry exactly when it is the printed entry with nothing but spaces around it. */
  lemma ParsePartExactly(text: string, k: string, v: string)
    requires ',' !in text
    ensures ParsePart(text) == Ok((k, v)) <==> Clean(k, v) && TrimSpace(text) == PrintPart(k, v)
  {
    if ParsePart(text) == Ok((k, v)) {
      ParsePartClean(text);
      var part := TrimSpace(text);
      var keyval := Split(part, '=');
      SplitJoins(part, '=');
      if |keyval| == 2 {
        JoinTwo(keyval, '=');
      }
    }
    if Clean(k, v) && TrimSpace(text) == PrintPart(k, v) {
      CleanPartParses(k, v);
      TrimNothing(PrintPart(k, v), IsSpace);
    }
  }

  /** A printed entry with spaces around it is read as the entry. */
  lemma SpacedPartParses(a: string, k: string, v: string, b: string)
    requires Clean(k, v) && All(a, IsSpace) && All(b, IsSpace) && ',' !in a && ',' !in b
    ensures ParsePart(a + PrintPart(k, v) + b) == Ok((k, v))
  {
    CleanPartParses(k, v);
    TrimPadded(a, PrintPart(k, v), b, IsSpace);
    ParsePartExactly(a + PrintPart(k, v) + b, k, v);
  }

  /** Option texts are accepted exactly when all their parts are, and then the map has their keys. */
  lemma {:induction false} PartsAccepted(parts: seq<string>)
    ensures ParseParts(parts).Ok? <==> forall p <- parts :: ParsePart(p).Ok?
    ensures ParseParts(parts).Ok? ==> forall p <- parts :: ParsePart(p).value.0 in ParseParts(parts).value
    decreases |parts|
  {
    if parts != [] {
      var front, last := parts[..|parts| - 1], parts[|parts| - 1];
      assert parts == front + [last];
      PartsAccepted(front);
    }
  }

  /** Every key has the value of the last part that has it. */
  lemma {:induction false} LastPartWins(parts: seq<string>, k: string)
    requires ParseParts(parts).Ok? && k in ParseParts(parts).value
    ensures LastWith(parts, k, ParseParts(parts).value[k])
    decreases |parts|
  {
    var front, last := parts[..|parts| - 1], parts[|parts| - 1];
    var v := ParseParts(parts).value[k];
    if ParsePart(last).value.0 == k {
      assert MeansAt(parts, |parts| - 1, k, v);
    } else {
      LastPartWins(front, k);
      LaterPart(front, last, k, v);
      assert parts == front + [last];
    }
  }

  lemma LaterPart(front: seq<string>, last: string, k: string, v: string)
    requires LastWith(front, k, v) && ParsePart(last).Ok? && ParsePart(last).value.0 != k
    ensures LastWith(front + [last], k, v)
  {
    var i :| 0 <= i < |front| && MeansAt(front, i, k, v);
    assert MeansAt(front + [last], i, k, v);
  }

  predicate MeansAt(parts: seq<string>, i: nat, k: string, v: string)
    requires i < |parts|
  {
    && ParsePart(parts[i]) == Ok((k, v))
    && forall j | i < j < |parts| :: ParsePart(parts[j]).Ok? ==> ParsePart(parts[j]).value.0 != k
  }

  /** Some part means the entry, and no later one has its key. */
  ghost predicate LastWith(parts: seq<string>, k: string, v: string) {
    exists i | 0 <= i < |parts| :: MeansAt(parts, i, k, v)
  }

  /** The options named in an order. */
  function Upto(m: Options, order: seq<string>): Options
    requires Within(order, m)
  {
    map k | k in order && k in m :: m[k]
  }

  lemma {:induction false} PrintedParses(m: Options, order: seq<string>)
    requires Within(order, m) && AllClean(m)
    ensures ParseParts(PrintParts(m, order)) == Ok(Upto(m, order))
  {
    if order != [] {
      var front, last := order[..|order| - 1], order[|order| - 1];
      assert order == front + [last];
      PrintedParses(m, front);
      PrintSnoc(m, front, last);
      CleanPartParses(last, m[last]);
      assert PrintParts(m, order)[..|order| - 1] == PrintParts(m, front);
      assert Upto(m, front)[last := m[last]] == Upto(m, order);
    }
  }

  lemma PrintedPartsClean(m: Options, order: seq<string>)
    requires Within(order, m) && AllClean(m)
    ensures forall p <- PrintParts(m, order) :: ',' !in p && p != ""
  {
    forall i | 0 <= i < |order| ensures ',' !in PrintParts(m, order)[i] && PrintParts(m, order)[i] != "" {
      CleanPartParses(order[i], m[order[i]]);
    }
  }

  /** However the map is iterated, the printed text parses back to it. */
  lemma PrintThenParse(m: Options, order: seq<string>)
    requires AllClean(m) && m != map[] && Ordering(m, order)
    ensures Parse(Join(PrintParts(m, order), ',')) == Ok(m)
  {
    var parts := PrintParts(m, order);
    NonEmptyOrder(m, order);
    PrintedPartsClean(m, order);
    SplitJoin(parts, ',');
    PrintedParses(m, order);
    assert Upto(m, order) == m;
    assert parts[0] in parts;
    assert Join(parts, ',') != "";
  }

  /** Parsing and printing are inverse on every accepted text that names an option. */
  lemma RoundTrip(options: string, m: Options, order: seq<string>)
    requires Parse(options) == Ok(m) && m != map[] && Ordering(m, order)
    ensures Parse(Join(PrintParts(m, order), ',')) == Ok(m)
  {
    AcceptedClean(options);
    PrintThenParse(m, order);
  }

  /** A map is what some accepted text means exactly when all its entries are clean. */
  lemma AcceptedExactly(m: Options)
    ensures (exists options :: Parse(options) == Ok(m)) <==> AllClean(m)
  {
    if options :| Parse(options) == Ok(m) {
      AcceptedClean(options);
    }
    if AllClean(m) {
      if m == map[] {
        assert Parse("") == Ok(m);
      } else {
        var order := SomeOrdering(m, [], m.Keys);
        PrintThenParse(m, order);
      }
    }
  }

  // ---- mkOpts ----------------------------------------------------------------------------

  /** An address as the user or the resolver spells it, and as it is printed once parsed, which
      differs for some spellings of IPv6. */
  datatype Address = Address(text: string, canonical: string)

  /** Name resolution and the network devices, as mkOpts and readNetlink find them: the address a
      host name stands for, and whether it parses and a device can reach it. */
  datatype World = World(resolve: map<string, Address>, reachable: bool)

  /** Addresses have neither separators nor spaces in them. */
  predicate Sane(w: World) {
    forall h <- w.resolve :: IsAddress(w.resolve[h].text) && IsAddress(w.resolve[h].canonical)
  }

  predicate IsAddress(text: string) {
    text != "" && Clean("addr", text)
  }

  /** The host that mkOpts looks up. */
  function Host(m: Options, source: string): Option<string> {
    if ':' !in source then
      if "addr" in m && TrimSpace(m["addr"]) != "" then Some(m["addr"]) else None
    else Some(if Cut(source, ':')[0] == "" then "127.0.0.1" else Cut(source, ':')[0])
  }

  /** The options as mkOpts prints them. A user's own clientaddr is refused: readNetlink then
      looks at no device and reports that it found none. */
  function Mapped(options: string, source: string, w: World): Result<Options> {
    match Parse(options)
    case Err => Err
    case Ok(m) =>
      match Host(m, source)
      case None => Err
      case Some(host) =>
        if host !in w.resolve || "clientaddr" in m || !w.reachable then Err
        else Ok(m["addr" := w.resolve[host].text]["clientaddr" := w.resolve[host].canonical])
  }

  method MkOpts(options: string, source: string, w: World) returns (r: Result<string>)
    ensures r.Ok? <==> Mapped(options, source, w).Ok?
    ensures r.Ok? ==> exists order ::
      && Ordering(Mapped(options, source, w).value, order)
      && r.value == "nfsvers=4," + Join(PrintParts(Mapped(options, source, w).value, order), ',')
  {
    var parsed := ValidateConvertOptions(options);
    if parsed.Err? {
      return Err;
    }
    var mapOpts := parsed.value;
    var host := "";
    if ':' !in source {
      if "addr" !in mapOpts || TrimSpace(mapOpts["addr"]) == "" {
        return Err;
      }
      host := mapOpts["addr"];
    } else {
      host := Cut(source, ':')[0];
      if host == "" {
        host := "127.0.0.1";
      }
    }
    if host !in w.resolve {
      return Err;
    }
    var address := w.resolve[host];
    mapOpts := mapOpts["addr" := address.text];
    if "clientaddr" in mapOpts || !w.reachable {
      return Err;
    }
    mapOpts := mapOpts["clientaddr" := address.canonical];
    var str := MapOptionsToString(mapOpts);
    assert "addr" in mapOpts;
    r := Ok("nfsvers=4," + str.value);
  }

  /** The text handed to the mount call says what the user wrote, plus the server's address,
      and asks for version 4 unless the user asked for another. The map printed is never
      empty. */
  lemma MountTextMeans(options: string, source: string, w: World, order: seq<string>)
    requires Sane(w) && Mapped(options, source, w).Ok?
    requires Ordering(Mapped(options, source, w).value, order)
    ensures var m := Mapped(options, source, w).value;
      && Parse("nfsvers=4," + Join(PrintParts(m, order), ',')) == Ok(map["nfsvers" := "4"] + m)
      && m != map[]
      && m - {"addr", "clientaddr"} == Parse(options).value - {"addr", "clientaddr"}
  {
    var given, m := Parse(options).value, Mapped(options, source, w).value;
    var host := Host(given, source).value;
    MappedClean(given, w.resolve[host].text, w.resolve[host].canonical, options);
    assert "addr" in m;
    assert m - {"addr", "clientaddr"} == given - {"addr", "clientaddr"};
    VersionThenOptions(m, order);
  }

  /** The address that is printed is that of the source's host, of 127.0.0.1 if the source has a colon
      and nothing before it; and exactly when it can be had. */
  lemma SourceAddress(options: string, host: string, path: string, w: World)
    requires ':' !in host
    ensures var asked := if host == "" then "127.0.0.1" else host;
      var m := Mapped(options, host + ":" + path, w);
      && (m.Ok? <==>
            Parse(options).Ok? && asked in w.resolve && w.reachable && "clientaddr" !in Parse(options).value)
      && (m.Ok? ==>
            "addr" in m.value && m.value["addr"] == w.resolve[asked].text
            && "clientaddr" in m.value && m.value["clientaddr"] == w.resolve[asked].canonical)
  {
    CutUnique(host, path, ':');
    assert (host + ":" + path)[|host|] == ':';
  }

  /** Without a colon in the source it is that of the user's own addr, which must not be blank. */
  lemma OptionAddress(options: string, source: string, w: World)
    requires ':' !in source
    ensures var m := Mapped(options, source, w);
      && (m.Ok? ==>
            var asked := if "addr" in Parse(options).value then Parse(options).value["addr"] else "";
            && asked in w.resolve && "addr" in m.value && m.value["addr"] == w.resolve[asked].text
            && "clientaddr" in m.value && m.value["clientaddr"] == w.resolve[asked].canonical)
      && (m.Ok? <==>
            Parse(options).Ok? && w.reachable && "clientaddr" !in Parse(options).value
            && "addr" in Parse(options).value && Parse(options).value["addr"] in w.resolve
            && !All(Parse(options).value["addr"], IsSpace))
  {
    if Parse(options).Ok? && "addr" in Parse(options).value {
      BlankExactly(Parse(options).value["addr"]);
    }
  }

  lemma BlankExactly(s: string)
    ensures TrimSpace(s) == "" <==> All(s, IsSpace)
  {
    if All(s, IsSpace) {
      TrimAll(s, IsSpace);
    } else {
      TrimSome(s, IsSpace);
    }
  }

  lemma MappedClean(given: Options, addr: string, clientaddr: string, options: string)
    requires Parse(options) == Ok(given) && IsAddress(addr) && IsAddress(clientaddr)
    ensures AllClean(given["addr" := addr]["clientaddr" := clientaddr])
  {
    AcceptedClean(options);
    assert Clean("clientaddr", clientaddr);
  }

  lemma VersionThenOptions(m: Options, order: seq<string>)
    requires AllClean(m) && m != map[] && Ordering(m, order)
    ensures Parse("nfsvers=4," + Join(PrintParts(m, order), ',')) == Ok(map["nfsvers" := "4"] + m)
  {
    var version, comma := "nfsvers=4", "nfsvers=4,";
    VersionParses();
    FirstThenOptions(version, "nfsvers", "4", m, order);
    VersionText(version, comma);
  }

  lemma VersionText(version: string, comma: string)
    requires version == "nfsvers=4" && comma == "nfsvers=4,"
    ensures comma == version + [',']
  {
  }

  /** Printed options parse to the same map, laid over what one earlier part says. */
  lemma FirstThenOptions(first: string, k: string, v: string, m: Options, order: seq<string>)
    requires ',' !in first && ParsePart(first) == Ok((k, v))
    requires AllClean(m) && m != map[] && Ordering(m, order)
    ensures Parse(first + [','] + Join(PrintParts(m, order), ',')) == Ok(map[k := v] + m)
  {
    var parts := PrintParts(m, order);
    NonEmptyOrder(m, order);
    PrintedPartsClean(m, order);
    PrintedParses(m, order);
    assert Upto(m, order) == m;
    ParseFromFirst(first, k, v, parts);
    SplitJoin(parts, ',');
    ParseFirst(first, Join(parts, ','));
  }

  lemma ParseFirst(first: string, rest: string)
    requires ',' !in first
    ensures Parse(first + [','] + rest) == ParseParts([first] + Split(rest, ','))
  {
    SplitFirst(first, rest, ',');
  }

  lemma VersionParses()
    ensures ParsePart("nfsvers=4") == Ok(("nfsvers", "4")) && ',' !in "nfsvers=4"
  {
    CleanPartParses("nfsvers", "4");
    assert PrintPart("nfsvers", "4") == "nfsvers=4";
  }

  /** Adding one parsed part. */
  function Add(r: Result<Options>, entry: Result<(string, string)>): Result<Options> {
    if r.Err? || entry.Err? then Err else Ok(r.value[entry.value.0 := entry.value.1])
  }

  lemma ParseSnoc(parts: seq<string>, p: string)
    ensures ParseParts(parts + [p]) == Add(ParseParts(parts), ParsePart(p))
  {
    assert (parts + [p])[..|parts|] == parts;
  }

  /** The first part is overridden by all the others. */
  lemma {:induction false} ParseFromFirst(first: string, k: string, v: string, parts: seq<string>)
    requires ParsePart(first) == Ok((k, v)) && ParseParts(parts).Ok?
    ensures ParseParts([first] + parts) == Ok(map[k := v] + ParseParts(parts).value)
  {
    if parts == [] {
      ParseSnoc([], first);
      assert [first] + parts == [] + [first];
      assert map[k := v] + map[] == map[][k := v];
    } else {
      var front, last := parts[..|parts| - 1], parts[|parts| - 1];
      assert parts == front + [last] && [first] + parts == ([first] + front) + [last];
      ParseSnoc(front, last);
      ParseFromFirst(first, k, v, front);
      ParseSnoc([first] + front, last);
      AddOver(map[k := v], ParseParts(front).value, ParsePart(last));
    }
  }

  lemma AddOver(a: Options, b: Options, entry: Result<(string, string)>)
    requires entry.Ok?
    ensures Add(Ok(a + b), entry) == Ok(a + Add(Ok(b), entry).value)
  {
    var (k, v) := entry.value;
    assert (a + b)[k := v] == a + b[k := v];
  }
}
