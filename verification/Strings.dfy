/** The functions of Go's package strings that the models use, and their laws. */
module Strings {

  // ---- Split and Join --------------------------------------------------------------------

  /** strings.Split for a one-character separator. */
  function Split(s: string, sep: char): (parts: seq<string>)
    ensures parts != []
  {
    if s == "" then [""]
    else
      var rest := Split(s[1..], sep);
      if s[0] == sep then [""] + rest
      else [[s[0]] + rest[0]] + rest[1..]
  }

  lemma {:induction false} SplitPieces(s: string, sep: char)
    ensures forall p <- Split(s, sep) :: sep !in p
  {
    if s != "" {
      SplitPieces(s[1..], sep);
    }
  }

  function Join(parts: seq<string>, sep: char): string {
    if parts == [] then ""
    else if |parts| == 1 then parts[0]
    else parts[0] + [sep] + Join(parts[1..], sep)
  }

  lemma JoinTwo(parts: seq<string>, sep: char)
    requires |parts| == 2
    ensures Join(parts, sep) == parts[0] + [sep] + parts[1]
  {
    assert parts[1..] == [parts[1]];
  }

  /** Splitting a text whose first separator, if any, ends its first part. */
  lemma {:induction false} SplitFirst(p: string, rest: string, sep: char)
    requires sep !in p
    ensures Split(p, sep) == [p]
    ensures Split(p + [sep] + rest, sep) == [p] + Split(rest, sep)
  {
    var s := p + [sep] + rest;
    if p == "" {
      assert s[1..] == rest;
    } else {
      SplitFirst(p[1..], rest, sep);
      assert s[1..] == p[1..] + [sep] + rest;
      assert [p[0]] + p[1..] == p;
    }
  }

  lemma {:induction false} SplitJoin(parts: seq<string>, sep: char)
    requires parts != [] && forall p <- parts :: sep !in p
    ensures Split(Join(parts, sep), sep) == parts
  {
    SplitFirst(parts[0], Join(parts[1..], sep), sep);
    if |parts| > 1 {
      SplitJoin(parts[1..], sep);
    } else {
      assert parts == [parts[0]];
    }
  }

  lemma {:induction false} SplitJoins(s: string, sep: char)
    ensures Join(Split(s, sep), sep) == s
  {
    if s != "" {
      SplitJoins(s[1..], sep);
    }
  }

  /** The text before and after the first separator: strings.SplitN(s, sep, 2). */
  function Cut(s: string, sep: char): (parts: seq<string>)
    ensures 1 <= |parts| <= 2 && sep !in parts[0]
    ensures |parts| == 1 <==> sep !in s
    ensures s == Join(parts, sep)
  {
    if s == "" then [""]
    else if s[0] == sep then ["", s[1..]]
    else
      var rest := Cut(s[1..], sep);
      assert s == [s[0]] + s[1..];
      [[s[0]] + rest[0]] + rest[1..]
  }

  lemma {:induction false} CutUnique(a: string, b: string, sep: char)
    requires sep !in a
    ensures Cut(a, sep) == [a] && Cut(a + [sep] + b, sep) == [a, b]
  {
    var s := a + [sep] + b;
    if a == "" {
      assert s[1..] == b;
    } else {
      CutUnique(a[1..], b, sep);
      assert s[1..] == a[1..] + [sep] + b;
      assert [a[0]] + a[1..] == a;
    }
  }

  // ---- Prefixes and trimming ---------------------------------------------------------------

  function TrimPrefix(s: string, prefix: string): string {
    if prefix <= s then s[|prefix|..] else s
  }

  function TrimLeft(s: string, drop: char -> bool): (r: string)
    ensures r == "" || !drop(r[0])
  {
    if s != "" && drop(s[0]) then TrimLeft(s[1..], drop) else s
  }

  function TrimRight(s: string, drop: char -> bool): (r: string)
    ensures r == "" || !drop(r[|r| - 1])
    ensures r <= s
  {
    if s != "" && drop(s[|s| - 1]) then TrimRight(s[..|s| - 1], drop) else s
  }

  /** strings.TrimFunc. */
  function Trim(s: string, drop: char -> bool): (r: string)
    ensures r == "" || (!drop(r[0]) && !drop(r[|r| - 1]))
  {
    var l := TrimLeft(s, drop);
    var r := TrimRight(l, drop);
    assert r != "" ==> r[0] == l[0];
    r
  }

  lemma TrimLeftIn(s: string, drop: char -> bool)
    ensures forall c <- TrimLeft(s, drop) :: c in s
  {
  }

  lemma TrimIn(s: string, drop: char -> bool)
    ensures forall c <- Trim(s, drop) :: c in s
  {
    TrimLeftIn(s, drop);
  }

  lemma TrimNothing(s: string, drop: char -> bool)
    requires s != "" ==> !drop(s[0]) && !drop(s[|s| - 1])
    ensures Trim(s, drop) == s
  {
  }

  predicate All(s: string, drop: char -> bool) {
    forall c <- s :: drop(c)
  }

  /** Whatever is dropped around a text that begins and ends with something else is trimmed off. */
  lemma TrimPadded(a: string, core: string, b: string, drop: char -> bool)
    requires All(a, drop) && All(b, drop)
    requires core != "" && !drop(core[0]) && !drop(core[|core| - 1])
    ensures Trim(a + core + b, drop) == core
  {
    TrimLeftPadded(a, core + b, drop);
    TrimRightPadded(core, b, drop);
    assert a + core + b == a + (core + b);
  }

  lemma {:induction false} TrimLeftPadded(a: string, rest: string, drop: char -> bool)
    requires All(a, drop) && rest != "" && !drop(rest[0])
    ensures TrimLeft(a + rest, drop) == rest
  {
    if a == "" {
      assert a + rest == rest;
    } else {
      TrimLeftPadded(a[1..], rest, drop);
      assert (a + rest)[1..] == a[1..] + rest;
    }
  }

  lemma {:induction false} TrimRightPadded(core: string, b: string, drop: char -> bool)
    requires All(b, drop) && core != "" && !drop(core[|core| - 1])
    ensures TrimRight(core + b, drop) == core
  {
    if b == "" {
      assert core + b == core;
    } else {
      TrimRightPadded(core, b[..|b| - 1], drop);
      assert (core + b)[..|core + b| - 1] == core + b[..|b| - 1];
    }
  }

  lemma {:induction false} TrimAll(s: string, drop: char -> bool)
    requires All(s, drop)
    ensures Trim(s, drop) == ""
  {
    if s != "" {
      TrimAll(s[1..], drop);
    }
  }

  lemma {:induction false} TrimSome(s: string, drop: char -> bool)
    requires !All(s, drop)
    ensures Trim(s, drop) != ""
  {
    if drop(s[0]) {
      assert !All(s[1..], drop) by {
        var c :| c in s && !drop(c);
        assert c in s[1..];
      }
      TrimSome(s[1..], drop);
    } else {
      TrimRightKeeps(s, drop);
    }
  }

  lemma {:induction false} TrimRightKeeps(s: string, drop: char -> bool)
    requires s != "" && !drop(s[0])
    ensures TrimRight(s, drop) != ""
    decreases |s|
  {
    if drop(s[|s| - 1]) {
      TrimRightKeeps(s[..|s| - 1], drop);
    }
  }

  const IsSlash: char -> bool := c => c == '/'

  /** Unicode's White_Space, which strings.TrimSpace trims. */
  const IsSpace: char -> bool := c =>
    '\t' <= c <= '\r' || c == ' ' || c == '\U{0085}' || c == '\U{00A0}' || c == '\U{1680}'
    || '\U{2000}' <= c <= '\U{200A}' || c == '\U{2028}' || c == '\U{2029}' || c == '\U{202F}'
    || c == '\U{205F}' || c == '\U{3000}'

  function TrimSpace(s: string): string { Trim(s, IsSpace) }

  function TrimSlashes(s: string): string { Trim(s, IsSlash) }
}
