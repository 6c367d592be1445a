/** volsupervisor/loop.go: a round takes a snapshot if the volume is in use, then prunes the
    oldest ones down to the number to keep. */
module Snapshots {
  import opened Iteration

  /** The newest n, or all if there are fewer. */
  function Newest(s: seq<string>, n: nat): seq<string> {
    if |s| <= n then s else s[|s| - n..]
  }

  function Without(s: seq<string>, name: string): seq<string> {
    if s == [] then []
    else if s[0] == name then Without(s[1..], name)
    else [s[0]] + Without(s[1..], name)
  }

  /** The first n entries whose removal failed, followed by all later entries. `fails(i)` is
      whether the removal of entry i fails. */
  function Survivors(s: seq<string>, n: nat, fails: nat -> bool): seq<string>
    requires n <= |s|
  {
    Kept(s, n, fails) + s[n..]
  }

  function Kept(s: seq<string>, n: nat, fails: nat -> bool): seq<string>
    requires n <= |s|
  {
    if n == 0 then []
    else Kept(s, n - 1, fails) + if fails(n - 1) then [s[n - 1]] else []
  }

  function Excess(s: seq<string>, keep: nat): nat {
    if |s| > keep then |s| - keep else 0
  }

  // ---- The volume's snapshots ----------------------------------------------------------------

  lemma {:induction false} WithoutAbsent(s: seq<string>, name: string)
    requires name !in s
    ensures Without(s, name) == s
  {
    if s != [] {
      WithoutAbsent(s[1..], name);
    }
  }

  lemma {:induction false} WithoutMiddle(a: seq<string>, name: string, b: seq<string>)
    requires name !in a && name !in b
    ensures Without(a + [name] + b, name) == a + b
  {
    var s := a + [name] + b;
    if a == [] {
      assert s[1..] == b;
      WithoutAbsent(b, name);
      assert a + b == b;
    } else {
      assert s[1..] == a[1..] + [name] + b;
      WithoutMiddle(a[1..], name, b);
      assert [a[0]] + (a[1..] + b) == a + b;
    }
  }

  lemma {:induction false} KeptIn(s: seq<string>, n: nat, fails: nat -> bool)
    requires n <= |s|
    ensures forall x <- Kept(s, n, fails) :: x in s[..n]
  {
    if n > 0 {
      KeptIn(s, n - 1, fails);
      assert s[..n] == s[..n - 1] + [s[n - 1]];
    }
  }

  /** Removing entry n of a distinct listing, the earlier removals being done. */
  lemma RemoveNext(s: seq<string>, n: nat, fails: nat -> bool)
    requires n < |s| && NoRepeats(s)
    ensures Survivors(s, n + 1, fails)
         == if fails(n) then Survivors(s, n, fails) else Without(Survivors(s, n, fails), s[n])
  {
    KeptIn(s, n, fails);
    var kept := Kept(s, n, fails);
    assert s[n..] == [s[n]] + s[n + 1..];
    if fails(n) {
      assert kept + [s[n]] + s[n + 1..] == kept + s[n..];
    } else {
      assert kept + s[n..] == kept + [s[n]] + s[n + 1..];
      WithoutMiddle(kept, s[n], s[n + 1..]);
    }
  }

  class Volume {
    /** The driver's snapshots, oldest first. */
    var snaps: seq<string>

    constructor (snaps: seq<string>)
      ensures this.snaps == snaps
    {
      this.snaps := snaps;
    }

    method RemoveSnapshot(name: string, fails: bool)
      modifies this
      ensures snaps == if fails then old(snaps) else Without(old(snaps), name)
    {
      if !fails {
        snaps := WithoutName(snaps, name);
      }
    }

    static method WithoutName(s: seq<string>, name: string) returns (r: seq<string>)
      ensures r == Without(s, name)
    {
      r := [];
      var i := 0;
      while i < |s|
        invariant 0 <= i <= |s|
        invariant r + Without(s[i..], name) == Without(s, name)
      {
        if s[i] != name {
          r := r + [s[i]];
        }
        i := i + 1;
      }
    }

    /** `locked` is whether the snapshot lock, the driver and its listing could be had. */
    method PruneSnapshots(keep: nat, locked: bool, fails: nat -> bool)
      requires NoRepeats(snaps)
      modifies this
      ensures snaps == Pruned(old(snaps), keep, locked, fails)
    {
      if !locked {
        return;
      }
      var list := snaps;
      var toDeleteCount := |list| - keep;
      if toDeleteCount < 0 {
        return;
      }
      var i := 0;
      while i < toDeleteCount
        invariant 0 <= i <= toDeleteCount
        invariant snaps == Survivors(list, i, fails)
      {
        RemoveNext(list, i, fails);
        RemoveSnapshot(list[i], fails(i));
        i := i + 1;
      }
    }

    /** `made` is whether the lock was had and the driver's creation succeeded. */
    method CreateSnapshot(name: string, made: bool)
      modifies this
      ensures snaps == Created(old(snaps), name, made)
    {
      if made {
        snaps := snaps + [name];
      }
    }

    /** One pass of the supervisor's loop over this volume. */
    method CreateThenPrune(t: Turn, keep: nat)
      requires NoRepeats(snaps + [t.name])
      modifies this
      ensures snaps == After(old(snaps), t, keep)
    {
      DistinctFront(snaps, [t.name]);
      if t.isUsed {
        CreateSnapshot(t.name, t.made);
      }
      PruneSnapshots(keep, t.locked, t.fails);
    }

    method Loop(turns: seq<Turn>, keep: nat)
      requires NoRepeats(snaps + Names(turns))
      modifies this
      ensures snaps == Rounds(old(snaps), turns, keep)
    {
      var i := 0;
      while i < |turns|
        invariant 0 <= i <= |turns|
        invariant NoRepeats(snaps + Names(turns[i..]))
        invariant snaps == Rounds(old(snaps), turns[..i], keep)
      {
        DistinctAfter(snaps, turns[i..], keep);
        assert turns[..i + 1][..i] == turns[..i];
        CreateThenPrune(turns[i], keep);
        i := i + 1;
      }
      assert turns[..i] == turns;
    }

    /** Sections of passes that overlap, in the order in which they have the snapshot lock. */
    method Interleave(sections: seq<Section>, keep: nat)
      requires NoRepeats(snaps + Made(sections))
      modifies this
      ensures snaps == Sections(old(snaps), sections, keep)
    {
      var i := 0;
      while i < |sections|
        invariant 0 <= i <= |sections|
        invariant NoRepeats(snaps + Made(sections[i..]))
        invariant snaps == Sections(old(snaps), sections[..i], keep)
      {
        DistinctSection(snaps, sections[i..], keep);
        assert sections[..i + 1][..i] == sections[..i];
        match sections[i] {
          case Make(name, made) => CreateSnapshot(name, made);
          case Prune(locked, fails) => PruneSnapshots(keep, locked, fails);
        }
        i := i + 1;
      }
      assert sections[..i] == sections;
    }
  }

  // ---- Runs of rounds --------------------------------------------------------------------------

  function Pruned(s: seq<string>, keep: nat, locked: bool, fails: nat -> bool): seq<string> {
    if locked then Survivors(s, Excess(s, keep), fails) else s
  }

  function Created(s: seq<string>, name: string, made: bool): seq<string> {
    if made then s + [name] else s
  }

  /** What happens in one round: the name of the new snapshot, whether the volume is in use,
      whether the snapshot is made, whether the prune gets going and which removals fail. */
  datatype Turn = Turn(name: string, isUsed: bool, made: bool, locked: bool, fails: nat -> bool)

  /** The round prunes, and every removal succeeds. */
  ghost predicate Clean(t: Turn) {
    t.locked && NoneFails(t)
  }

  ghost predicate NoneFails(t: Turn) {
    forall i: nat :: !t.fails(i)
  }

  function Grown(s: seq<string>, t: Turn): seq<string> {
    if t.isUsed then Created(s, t.name, t.made) else s
  }

  function After(s: seq<string>, t: Turn, keep: nat): seq<string> {
    Pruned(Grown(s, t), keep, t.locked, t.fails)
  }

  function Rounds(s: seq<string>, turns: seq<Turn>, keep: nat): seq<string>
    decreases |turns|
  {
    if turns == [] then s
    else After(Rounds(s, turns[..|turns| - 1], keep), turns[|turns| - 1], keep)
  }

  function Names(turns: seq<Turn>): seq<string> {
    if turns == [] then [] else [turns[0].name] + Names(turns[1..])
  }

  /** The names of the rounds in which the volume was in use and its snapshot was made, in order. */
  function Taken(turns: seq<Turn>): seq<string> {
    if turns == [] then []
    else
      var last := turns[|turns| - 1];
      Taken(turns[..|turns| - 1]) + if last.isUsed && last.made then [last.name] else []
  }

  /** All snapshots ever present, oldest first. */
  function History(s: seq<string>, turns: seq<Turn>): seq<string> {
    s + Taken(turns)
  }

  lemma HistoryGrows(s: seq<string>, turns: seq<Turn>)
    requires turns != []
    ensures History(s, turns) == Grown(History(s, turns[..|turns| - 1]), turns[|turns| - 1])
  {
    var front, last := turns[..|turns| - 1], turns[|turns| - 1];
    assert s + (Taken(front) + [last.name]) == s + Taken(front) + [last.name];
  }

  /** The entries that stay, in order. */
  function Staying(s: seq<string>, stays: nat -> bool): seq<string> {
    if s == [] then []
    else
      var last := |s| - 1;
      Staying(s[..last], stays) + if stays(last) then [s[last]] else []
  }

  /** A prune that has its lock leaves, in order, exactly the entries among the newest and those whose
      removal fails. */
  lemma PruneLeaves(s: seq<string>, keep: nat, fails: nat -> bool)
    ensures Pruned(s, keep, true, fails) == Staying(s, (i: nat) => i + keep >= |s| || fails(i))
  {
    StayingGrows(s, Excess(s, keep), |s|, keep, fails);
    assert s[..|s|] == s;
  }

  lemma {:induction false} StayingGrows(s: seq<string>, n: nat, m: nat, keep: nat, fails: nat -> bool)
    requires n == Excess(s, keep) && m <= |s|
    ensures Staying(s[..m], (i: nat) => i + keep >= |s| || fails(i))
         == if m <= n then Kept(s, m, fails) else Kept(s, n, fails) + s[n..m]
    decreases m
  {
    if m > 0 {
      StayingGrows(s, n, m - 1, keep, fails);
      assert s[..m][..m - 1] == s[..m - 1];
      if m > n {
        assert s[n..m] == s[n..m - 1] + [s[m - 1]];
      }
    }
  }

  /** Whatever removals fail, the snapshot made in a round is the last entry after it. */
  lemma NewestStays(s: seq<string>, t: Turn, keep: nat)
    requires keep >= 1 && t.isUsed && t.made
    ensures var after := After(s, t, keep); after != [] && after[|after| - 1] == t.name
  {
    var n := Excess(s + [t.name], keep);
    assert (s + [t.name])[n..][|s| - n] == t.name;
  }

  /** A round in an unused volume, or whose snapshot could not be made, brings nothing new. */
  lemma NothingNew(s: seq<string>, t: Turn, keep: nat, x: string)
    requires !(t.isUsed && t.made) && x in After(s, t, keep)
    ensures x in s
  {
    PruneKeepsNewest(s, keep, t.locked, t.fails);
  }

  // Names stay distinct

  lemma DistinctFront(a: seq<string>, b: seq<string>)
    requires NoRepeats(a + b)
    ensures NoRepeats(a)
  {
    assert forall i :: 0 <= i < |a| ==> (a + b)[i] == a[i];
  }

  lemma DistinctDrop(a: seq<string>, x: string, b: seq<string>)
    requires NoRepeats(a + [x] + b)
    ensures NoRepeats(a + b)
  {
    var s, t := a + [x] + b, a + b;
    forall i, j | 0 <= i < j < |t| ensures t[i] != t[j] {
      assert t[i] == s[if i < |a| then i else i + 1] && t[j] == s[if j < |a| then j else j + 1];
    }
  }

  lemma {:induction false} DistinctSurvivors(s: seq<string>, n: nat, fails: nat -> bool, more: seq<string>)
    requires n <= |s| && NoRepeats(s + more)
    ensures NoRepeats(Survivors(s, n, fails) + more)
  {
    if n == 0 {
      assert Survivors(s, 0, fails) == s;
    } else {
      DistinctSurvivors(s, n - 1, fails, more);
      var kept, x := Kept(s, n - 1, fails), s[n - 1];
      assert s[n - 1..] == [x] + s[n..];
      assert Survivors(s, n - 1, fails) + more == kept + [x] + (s[n..] + more);
      if fails(n - 1) {
        assert Survivors(s, n, fails) + more == kept + [x] + (s[n..] + more);
      } else {
        assert Survivors(s, n, fails) + more == kept + (s[n..] + more);
        DistinctDrop(kept, x, s[n..] + more);
      }
    }
  }

  lemma DistinctAfter(s: seq<string>, turns: seq<Turn>, keep: nat)
    requires turns != [] && NoRepeats(s + Names(turns))
    ensures NoRepeats(s + [turns[0].name])
    ensures NoRepeats(After(s, turns[0], keep) + Names(turns[1..]))
  {
    var t, rest := turns[0], Names(turns[1..]);
    assert s + Names(turns) == s + [t.name] + rest;
    DistinctFront(s + [t.name], rest);
    if !(t.isUsed && t.made) {
      DistinctDrop(s, t.name, rest);
    }
    if t.locked {
      DistinctSurvivors(Grown(s, t), Excess(Grown(s, t), keep), t.fails, rest);
    }
  }

  // What is never removed, and what is left

  predicate EndsWith(s: seq<string>, tail: seq<string>) {
    |tail| <= |s| && s[|s| - |tail|..] == tail
  }

  lemma {:induction false} KeptLength(s: seq<string>, n: nat, fails: nat -> bool)
    requires n <= |s|
    ensures |Kept(s, n, fails)| <= n
    ensures (forall i: nat :: i < n ==> !fails(i)) ==> Kept(s, n, fails) == []
  {
    if n > 0 {
      KeptLength(s, n - 1, fails);
    }
  }

  /** Whatever removals fail, a prune removes none of the newest `keep` snapshots; if none
      fails, exactly those are left. */
  lemma PruneKeepsNewest(s: seq<string>, keep: nat, locked: bool, fails: nat -> bool)
    ensures var t := Pruned(s, keep, locked, fails);
      && EndsWith(t, Newest(s, keep)) && |t| <= |s|
      && (forall x <- t :: x in s)
      && (locked && (forall i :: !fails(i)) ==> t == Newest(s, keep))
  {
    var n := Excess(s, keep);
    KeptLength(s, n, fails);
    KeptIn(s, n, fails);
    assert s[n..] == Newest(s, keep);
  }

  /** `now` is what rounds have left of the snapshots `all` ever present. */
  predicate Faithful(now: seq<string>, all: seq<string>, keep: nat) {
    |now| <= |all| && EndsWith(now, Newest(all, keep))
  }

  lemma RoundKeepsFaith(now: seq<string>, all: seq<string>, t: Turn, keep: nat)
    requires Faithful(now, all, keep)
    ensures Faithful(After(now, t, keep), Grown(all, t), keep)
    ensures Clean(t) ==> After(now, t, keep) == Newest(Grown(all, t), keep)
  {
    var now1, all1 := Grown(now, t), Grown(all, t);
    assert Faithful(now1, all1, keep) by {
      if t.isUsed && t.made {
        GrowNewest(now, all, t.name, keep);
      }
    }
    SameNewest(now1, all1, keep);
    PruneKeepsNewest(now1, keep, t.locked, t.fails);
  }

  lemma GrowNewest(now: seq<string>, all: seq<string>, name: string, keep: nat)
    requires Faithful(now, all, keep)
    ensures Faithful(now + [name], all + [name], keep)
  {
    EndGrows(now, Newest(all, keep), name);
    var tail := Newest(all, keep) + [name];
    if |all| >= keep {
      assert Newest(all + [name], keep) == tail[1..];
      EndShrinks(now + [name], tail);
    } else {
      assert Newest(all + [name], keep) == tail;
    }
  }

  lemma EndGrows(s: seq<string>, tail: seq<string>, name: string)
    requires EndsWith(s, tail)
    ensures EndsWith(s + [name], tail + [name])
  {
    assert (s + [name])[|s| - |tail|..] == s[|s| - |tail|..] + [name];
  }

  lemma EndShrinks(s: seq<string>, tail: seq<string>)
    requires EndsWith(s, tail) && tail != []
    ensures EndsWith(s, tail[1..])
  {
    assert s[|s| - |tail|..][1..] == s[|s| - |tail| + 1..];
  }

  lemma SameNewest(now: seq<string>, all: seq<string>, keep: nat)
    requires Faithful(now, all, keep)
    ensures Newest(now, keep) == Newest(all, keep)
  {
    if |all| <= keep {
      assert now[|now| - |all|..] == all && now == all;
    }
  }

  /** After any rounds, with any failures, the newest `keep` of all snapshots ever present are
      still there, at the end and in order; and if the removals of the last round succeed they
      are all there is. */
  lemma {:induction false} RoundsKeepNewest(now: seq<string>, all: seq<string>, turns: seq<Turn>, keep: nat)
    requires Faithful(now, all, keep)
    ensures Faithful(Rounds(now, turns, keep), History(all, turns), keep)
    ensures turns != [] && Clean(turns[|turns| - 1]) ==>
              Rounds(now, turns, keep) == Newest(History(all, turns), keep)
    decreases |turns|
  {
    if turns != [] {
      var front, last := turns[..|turns| - 1], turns[|turns| - 1];
      RoundsKeepNewest(now, all, front, keep);
      HistoryGrows(all, turns);
      RoundKeepsFaith(Rounds(now, front, keep), History(all, front), last, keep);
    }
  }

  /** The sliding window, from the supervisor's start: the newest are always there, at the end and in
      order. After a round whose removals do not fail they are all there is exactly when its prune had
      its lock, or nothing needed to be removed. */
  lemma SnapshotWindow(start: seq<string>, turns: seq<Turn>, keep: nat)
    ensures EndsWith(Rounds(start, turns, keep), Newest(History(start, turns), keep))
    ensures turns != [] && NoneFails(turns[|turns| - 1]) ==>
      var last := turns[|turns| - 1];
      (Rounds(start, turns, keep) == Newest(History(start, turns), keep)
       <==> last.locked || |Grown(Rounds(start, turns[..|turns| - 1], keep), last)| <= keep)
  {
    assert Faithful(start, start, keep);
    RoundsKeepNewest(start, start, turns, keep);
    if turns != [] && !turns[|turns| - 1].locked {
      SameNewest(Rounds(start, turns, keep), History(start, turns), keep);
    }
  }

  // ---- Overlapping passes ----------------------------------------------------------------------

  /** What a pass does under the volume's strict snapshot lock, which it takes and leaves twice; a
      lock that is not had shows as a snapshot not made or a prune that does not get going. */
  datatype Section = Make(name: string, made: bool) | Prune(locked: bool, fails: nat -> bool)

  function Step(s: seq<string>, section: Section, keep: nat): seq<string> {
    match section
    case Make(name, made) => Created(s, name, made)
    case Prune(locked, fails) => Pruned(s, keep, locked, fails)
  }

  function Sections(s: seq<string>, sections: seq<Section>, keep: nat): seq<string>
    decreases |sections|
  {
    if sections == [] then s
    else Step(Sections(s, sections[..|sections| - 1], keep), sections[|sections| - 1], keep)
  }

  /** The names the sections would give. */
  function Made(sections: seq<Section>): seq<string> {
    if sections == [] then []
    else (if sections[0].Make? then [sections[0].name] else []) + Made(sections[1..])
  }

  /** The names of the sections in which a snapshot was made, in order. */
  function Successes(sections: seq<Section>): seq<string> {
    if sections == [] then []
    else
      var last := sections[|sections| - 1];
      Successes(sections[..|sections| - 1]) + if last.Make? && last.made then [last.name] else []
  }

  /** All snapshots ever present, oldest first. */
  function Ever(s: seq<string>, sections: seq<Section>): seq<string> {
    s + Successes(sections)
  }

  lemma EverGrows(s: seq<string>, sections: seq<Section>)
    requires sections != []
    ensures var front, last := sections[..|sections| - 1], sections[|sections| - 1];
      Ever(s, sections) == if last.Make? then Created(Ever(s, front), last.name, last.made) else Ever(s, front)
  {
    var front, last := sections[..|sections| - 1], sections[|sections| - 1];
    if last.Make? {
      assert s + (Successes(front) + [last.name]) == s + Successes(front) + [last.name];
    }
  }

  lemma DistinctSection(s: seq<string>, sections: seq<Section>, keep: nat)
    requires sections != [] && NoRepeats(s + Made(sections))
    ensures NoRepeats(s)
    ensures NoRepeats(Step(s, sections[0], keep) + Made(sections[1..]))
  {
    var rest := Made(sections[1..]);
    DistinctFront(s, Made(sections));
    match sections[0] {
      case Make(name, made) =>
        assert s + Made(sections) == s + [name] + rest;
        if !made {
          DistinctDrop(s, name, rest);
        }
      case Prune(locked, fails) =>
        assert Made(sections) == rest;
        if locked {
          DistinctSurvivors(s, Excess(s, keep), fails, rest);
        }
    }
  }

  /** A pass is its two sections with nothing in between. */
  lemma PassIsSections(s: seq<string>, t: Turn, keep: nat)
    ensures After(s, t, keep) == Sections(s, [Make(t.name, t.isUsed && t.made), Prune(t.locked, t.fails)], keep)
  {
    var a, b := Make(t.name, t.isUsed && t.made), Prune(t.locked, t.fails);
    assert [a, b][..1] == [a] && [a][..0] == [];
    assert Sections(s, [a], keep) == Step(Sections(s, [], keep), a, keep);
    assert Sections(s, [a, b], keep) == Step(Sections(s, [a], keep), b, keep);
  }

  /** However passes overlap and whatever fails, the newest `keep` of all snapshots ever present are
      still there, at the end and in order; and right after a prune whose removals succeed they are
      all there is. */
  lemma {:induction false} SectionsKeepNewest(s: seq<string>, sections: seq<Section>, keep: nat)
    ensures Faithful(Sections(s, sections, keep), Ever(s, sections), keep)
    ensures sections != [] ==>
      var last := sections[|sections| - 1];
      last.Prune? && last.locked && (forall i: nat :: !last.fails(i)) ==>
        Sections(s, sections, keep) == Newest(Ever(s, sections), keep)
    decreases |sections|
  {
    if sections != [] {
      var front, last := sections[..|sections| - 1], sections[|sections| - 1];
      SectionsKeepNewest(s, front, keep);
      var now, all := Sections(s, front, keep), Ever(s, front);
      EverGrows(s, sections);
      match last {
        case Make(name, made) =>
          if made {
            GrowNewest(now, all, name, keep);
          }
        case Prune(locked, fails) =>
          SameNewest(now, all, keep);
          PruneKeepsNewest(now, keep, locked, fails);
      }
    }
  }
}
