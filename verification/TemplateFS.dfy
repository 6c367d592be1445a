/** storage/backend/ceph/util.go: templateFSCmd puts a device path into a mkfs command, editing
    the very text it is scanning. */
module TemplateFS {

  // ---- What it is for ----------------------------------------------------------------------

  predicate Paired(s: string) {
    |s| > 1 && s[0] == '%' && s[1] == '%'
  }

  /** One pass: a lone percent sign becomes the device, a double one is kept. */
  function Substitute(s: string, device: string): string {
    if s == "" then ""
    else if Paired(s) then "%%" + Substitute(s[2..], device)
    else if s[0] == '%' then device + Substitute(s[1..], device)
    else [s[0]] + Substitute(s[1..], device)
  }

  /** The pieces with the same text between any two of them. */
  function Joined(pieces: seq<string>, between: string): string
    requires pieces != []
  {
    if |pieces| == 1 then pieces[0] else pieces[0] + between + Joined(pieces[1..], between)
  }

  /** A text whose percent signs all stand alone has the device in place of each. */
  lemma {:induction false} SubstituteJoins(pieces: seq<string>, device: string)
    requires pieces != [] && forall p <- pieces :: '%' !in p
    requires forall i | 0 < i < |pieces| - 1 :: pieces[i] != ""
    ensures Substitute(Joined(pieces, "%"), device) == Joined(pieces, device)
  {
    NoPercentIsTame(pieces[0]);
    if |pieces| == 1 {
      Transparent(pieces[0], "", device);
      assert pieces[0] + "" == pieces[0];
    } else {
      var rest := Joined(pieces[1..], "%");
      var text := "%" + rest;
      SubstituteJoins(pieces[1..], device);
      Transparent(pieces[0], text, device);
      assert pieces[0] + "%" + rest == pieces[0] + text;
      var next := pieces[1];
      assert next in pieces && rest != "" ==> (next != "" && rest[0] == next[0]);
      assert text[1..] == rest && !Paired(text);
      assert pieces[0] + (device + Joined(pieces[1..], device)) == pieces[0] + device + Joined(pieces[1..], device);
    }
  }

  /** Doubled ones are kept, wherever they stand. */
  lemma DoubledStays(a: string, rest: string, device: string)
    requires '%' !in a
    ensures Substitute(a + "%%" + rest, device) == a + "%%" + Substitute(rest, device)
  {
    NoPercentIsTame(a);
    Transparent(a, "%%" + rest, device);
    Doubled(rest, device);
    assert a + "%%" + rest == a + ("%%" + rest);
    assert a + ("%%" + Substitute(rest, device)) == a + "%%" + Substitute(rest, device);
  }

  /** The number of lone percent signs. */
  function Lone(s: string): nat {
    if s == "" then 0
    else if Paired(s) then Lone(s[2..])
    else if s[0] == '%' then 1 + Lone(s[1..])
    else Lone(s[1..])
  }

  /** The scan goes on right after the device's first character, so only what follows that can
      be taken for a placeholder. */
  predicate Tame(device: string) {
    device == "" || Lone(device[1..]) == 0
  }

  lemma {:induction false} NoPercentIsTame(device: string)
    requires '%' !in device
    ensures Tame(device) && Lone(device) == 0
  {
    if device != "" {
      NoPercentIsTame(device[1..]);
    }
  }

  lemma Plain(x: char, rest: string, device: string)
    requires x != '%'
    ensures Substitute([x] + rest, device) == [x] + Substitute(rest, device)
    ensures Lone([x] + rest) == Lone(rest)
  {
    assert ([x] + rest)[1..] == rest;
  }

  lemma Doubled(rest: string, device: string)
    ensures Substitute("%%" + rest, device) == "%%" + Substitute(rest, device)
    ensures Lone("%%" + rest) == Lone(rest)
  {
    assert ("%%" + rest)[2..] == rest;
  }

  /** Text without placeholders passes through. */
  lemma {:induction false} Transparent(t: string, rest: string, device: string)
    requires Lone(t) == 0
    ensures Substitute(t + rest, device) == t + Substitute(rest, device)
    ensures Lone(t + rest) == Lone(rest)
  {
    if t == "" {
      assert t + rest == rest;
    } else {
      var n := if Paired(t) then 2 else 1;
      var head, more := t[..n], t[n..];
      assert t + rest == head + (more + rest);
      Transparent(more, rest, device);
      if Paired(t) {
        assert head == "%%";
        Doubled(more + rest, device);
      } else {
        assert head == [t[0]];
        Plain(t[0], more + rest, device);
      }
      PutBack(head, t, Substitute(rest, device));
    }
  }

  lemma PutBack(head: string, t: string, rest: string)
    requires head <= t
    ensures head + (t[|head|..] + rest) == t + rest
  {
  }

  lemma {:induction false} LoneSurvives(t: string, rest: string)
    requires Lone(t) > 0 && (rest == "" || rest[0] != '%')
    ensures Lone(t + rest) > 0
  {
    var s := t + rest;
    if Paired(t) {
      LoneSurvives(t[2..], rest);
      assert s[2..] == t[2..] + rest;
    } else if t[0] != '%' {
      LoneSurvives(t[1..], rest);
      assert s[1..] == t[1..] + rest;
    } else {
      assert !Paired(s);
    }
  }

  // ---- The loop ------------------------------------------------------------------------------

  /** One trip round the loop, its increment included. */
  function Trip(s: string, idx: nat, device: string): (string, nat)
    requires idx < |s|
  {
    if s[idx] != '%' then (s, idx + 1)
    else if idx < |s| - 1 && s[idx + 1] == '%' then (s, idx + 2)
    else (s[..idx] + device + s[idx + 1..], idx + 1)
  }

  /** What the scan still has to say: nothing when it has run off the end, which it can by one
      place when the device is empty. */
  function Rest(s: string, idx: nat): string {
    if idx <= |s| then s[idx..] else ""
  }

  function Past(s: string, idx: nat): string {
    if idx <= |s| then s[..idx] else s
  }

  /** A trip that finds nothing to replace. */
  lemma TripOver(s: string, idx: nat, device: string)
    requires idx < |s| && Trip(s, idx, device).0 == s
    requires s[idx] != '%' || Paired(s[idx..])
    ensures var (t, next) := Trip(s, idx, device);
      && Past(t, next) + Substitute(Rest(t, next), device)
           == Past(s, idx) + Substitute(Rest(s, idx), device)
      && Lone(Rest(t, next)) <= Lone(Rest(s, idx))
  {
    var r := s[idx..];
    if r[0] != '%' {
      assert Rest(s, idx + 1) == r[1..] && s[..idx + 1] == s[..idx] + [r[0]];
    } else {
      assert Rest(s, idx + 2) == r[2..] && s[..idx + 2] == s[..idx] + "%%";
    }
  }

  lemma Slices(a: string, x: char, b: string)
    ensures (a + [x] + b)[..|a| + 1] == a + [x] && (a + [x] + b)[|a| + 1..] == b
  {
  }

  lemma Glue(a: string, x: char, b: string, rest: string)
    ensures a + [x] + (b + rest) == a + ([x] + b + rest)
  {
  }

  /** A trip that replaces a lone percent sign by nothing, and so skips the next character. */
  lemma TripDrops(s: string, idx: nat)
    requires idx < |s| && s[idx] == '%' && !Paired(s[idx..])
    ensures var (t, next) := Trip(s, idx, "");
      && Past(t, next) + Substitute(Rest(t, next), "")
           == Past(s, idx) + Substitute(Rest(s, idx), "")
      && Lone(Rest(t, next)) < Lone(Rest(s, idx))
  {
    var before, r := s[..idx], s[idx..];
    if r[1..] == "" {
      assert Trip(s, idx, "").0 == before;
    } else {
      var x, rest := r[1], r[2..];
      assert r == ['%'] + ([x] + rest);
      assert Trip(s, idx, "").0 == before + [x] + rest;
      Slices(before, x, rest);
      Dropped(before, x, rest);
    }
  }

  lemma Dropped(before: string, x: char, rest: string)
    requires x != '%'
    ensures before + [x] + Substitute(rest, "") == before + Substitute(['%'] + ([x] + rest), "")
    ensures Lone(['%'] + ([x] + rest)) == 1 + Lone(rest)
  {
    Plain(x, rest, "");
    assert (['%'] + ([x] + rest))[1..] == [x] + rest;
  }

  /** A trip that replaces a lone percent sign. */
  lemma TripOnto(s: string, idx: nat, device: string)
    requires idx < |s| && Tame(device) && device != "" && s[idx] == '%' && !Paired(s[idx..])
    ensures var (t, next) := Trip(s, idx, device);
      && Past(t, next) + Substitute(Rest(t, next), device)
           == Past(s, idx) + Substitute(Rest(s, idx), device)
      && Lone(Rest(t, next)) < Lone(Rest(s, idx))
  {
    var before, rest := s[..idx], s[idx + 1..];
    var x, more := device[0], device[1..];
    assert s[idx..][1..] == rest && device == [x] + more;
    assert Trip(s, idx, device).0 == before + [x] + (more + rest);
    Slices(before, x, more + rest);
    Transparent(more, rest, device);
    Glue(before, x, more, Substitute(rest, device));
  }

  lemma TripTame(s: string, idx: nat, device: string)
    requires idx < |s| && (Tame(device) || Lone(Rest(s, idx)) == 0)
    ensures var (t, next) := Trip(s, idx, device);
      && Past(t, next) + Substitute(Rest(t, next), device)
           == Past(s, idx) + Substitute(Rest(s, idx), device)
      && Lone(Rest(t, next)) <= Lone(Rest(s, idx))
      && (t != s ==> Lone(Rest(t, next)) < Lone(Rest(s, idx)))
  {
    if s[idx] != '%' || Paired(s[idx..]) {
      TripOver(s, idx, device);
    } else if device == "" {
      TripDrops(s, idx);
    } else {
      TripOnto(s, idx, device);
    }
  }

  method TemplateFSCmd(cmd: string, device: string) returns (fscmd: string)
    requires Lone(cmd) == 0 || Tame(device)
    ensures fscmd == Substitute(cmd, device)
  {
    fscmd := cmd;
    var idx := 0;
    while idx < |fscmd|
      invariant 0 <= idx
      invariant Tame(device) || Lone(Rest(fscmd, idx)) == 0
      invariant Past(fscmd, idx) + Substitute(Rest(fscmd, idx), device) == Substitute(cmd, device)
      decreases Lone(Rest(fscmd, idx)), |fscmd| - idx
    {
      TripTame(fscmd, idx, device);
      if fscmd[idx] == '%' {
        if idx < |fscmd| - 1 && fscmd[idx + 1] == '%' {
          idx := idx + 2;
          continue;
        }
        var lhs, rhs;
        if idx == 0 {
          lhs, rhs := "", fscmd[1..];
        } else if idx == |fscmd| - 1 {
          lhs, rhs := fscmd[..idx], "";
        } else {
          lhs, rhs := fscmd[..idx], fscmd[idx + 1..];
        }
        assert lhs + device + rhs == Trip(fscmd, idx, device).0;
        fscmd := lhs + device + rhs;
      }
      idx := idx + 1;
    }
    assert Past(fscmd, idx) == fscmd;
  }

  // ---- When it ends --------------------------------------------------------------------------

  /** The text and the index after n trips, or sooner if the loop ends sooner. */
  function After(s: string, idx: nat, device: string, n: nat): (string, nat)
    decreases n
  {
    if n == 0 || idx >= |s| then (s, idx) else
    var (t, next) := Trip(s, idx, device);
    After(t, next, device, n - 1)
  }

  ghost predicate Ends(cmd: string, device: string) {
    exists n :: After(cmd, 0, device, n).1 >= |After(cmd, 0, device, n).0|
  }

  lemma {:induction false} NeverEnds(s: string, idx: nat, device: string, n: nat)
    requires !Tame(device) && idx < |s| && Lone(s[idx..]) > 0
    ensures var (t, next) := After(s, idx, device, n); next < |t|
    decreases n
  {
    if n > 0 {
      var r := s[idx..];
      var (t, next) := Trip(s, idx, device);
      if r[0] != '%' {
        assert t[next..] == r[1..];
      } else if Paired(r) {
        assert t[next..] == r[2..];
      } else {
        LoneSurvives(device[1..], r[1..]);
        assert t == s[..idx] + device + r[1..];
        assert t[next..] == device[1..] + r[1..];
      }
      NeverEnds(t, next, device, n - 1);
    }
  }

  lemma {:induction false} EndsEventually(s: string, idx: nat, device: string) returns (n: nat)
    requires Tame(device) || Lone(Rest(s, idx)) == 0
    ensures var (t, next) := After(s, idx, device, n); next >= |t|
    decreases Lone(Rest(s, idx)), if idx < |s| then |s| - idx else 0
  {
    if idx >= |s| {
      n := 0;
    } else {
      TripTame(s, idx, device);
      var (t, next) := Trip(s, idx, device);
      n := EndsEventually(t, next, device);
      n := n + 1;
    }
  }

  /** The loop ends exactly when the command has no placeholder or no lone percent sign follows
      the device's first character; any path without percent signs will do. */
  lemma EndsExactly(cmd: string, device: string)
    ensures Ends(cmd, device) <==> Lone(cmd) == 0 || Tame(device)
  {
    assert cmd[0..] == cmd;
    if Lone(cmd) == 0 || Tame(device) {
      var n := EndsEventually(cmd, 0, device);
    } else {
      forall n: nat ensures After(cmd, 0, device, n).1 < |After(cmd, 0, device, n).0| {
        NeverEnds(cmd, 0, device, n);
      }
    }
  }

  /** Without placeholders nothing changes, and substituting a device without percent signs
      leaves none, so that templating twice is templating once. */
  lemma {:induction false} SubstituteOnce(cmd: string, device: string, other: string)
    requires '%' !in device
    ensures Lone(Substitute(cmd, device)) == 0
    ensures Substitute(Substitute(cmd, device), other) == Substitute(cmd, device)
  {
    NoPercentIsTame(device);
    var r := Substitute(cmd, device);
    if cmd == "" {
    } else if Paired(cmd) {
      SubstituteOnce(cmd[2..], device, other);
      assert r[2..] == Substitute(cmd[2..], device);
    } else if cmd[0] == '%' {
      SubstituteOnce(cmd[1..], device, other);
      Transparent(device, Substitute(cmd[1..], device), other);
    } else {
      SubstituteOnce(cmd[1..], device, other);
      assert r[1..] == Substitute(cmd[1..], device);
    }
  }
}
