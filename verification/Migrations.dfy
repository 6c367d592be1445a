/** volmigrate: numbered migrations run in order, the stored schema version following them, so
    that a run that stops anywhere is resumed by the next. */
module Migrations {
  import opened Wrappers

  // ---- The stored version (backend/etcd2/etcd2.go) ------------------------------------------

  /** The version key, absent before the first migration, and the versions recorded so far. */
  datatype Cell = Cell(stored: Option<int>, log: seq<int>)

  function Current(c: Cell): int {
    if c.stored.Some? then c.stored.value else 0
  }

  /** `Fatal` and `Unreadable` end the process: the version would not go up, or it cannot be read
      or parsed. */
  datatype Verdict = Fine | Failed | Fatal | Unreadable

  /** What becomes of one migration: its runner fails, the version cannot be read, the write of the
      version never arrives, only its answer is lost, or all works. */
  datatype Luck = RunnerFails | ReadFails | WriteFails | WriteUnheard | Works

  /** One migration of a call, and what other runners record meanwhile: before the check of the
      version, the runner included, and between the check and the write. */
  datatype Turn = Turn(before: seq<int>, luck: Luck, race: seq<int>)

  function Recorded(c: Cell, version: int): Cell {
    Cell(Some(version), c.log + [version])
  }

  /** Versions recorded by others. */
  function Others(c: Cell, versions: seq<int>): Cell {
    if versions == [] then c
    else Cell(Some(versions[|versions| - 1]), c.log + versions)
  }

  /** The check reads the version; the write, if it comes to that, overwrites whatever is there by
      then. */
  function Update(c: Cell, version: int, luck: Luck, race: seq<int>): (Cell, Verdict) {
    if luck == ReadFails then (c, Unreadable)
    else if version <= Current(c) then (c, Fatal)
    else
      var c1 := Others(c, race);
      match luck
      case WriteFails => (c1, Failed)
      case WriteUnheard => (Recorded(c1, version), Failed)
      case _ => (Recorded(c1, version), Fine)
  }

  class Engine {
    var stored: Option<int>
    ghost var log: seq<int>

    ghost function Value(): Cell
      reads this
    {
      Cell(stored, log)
    }

    constructor (stored: Option<int>)
      ensures Value() == Cell(stored, [])
    {
      this.stored := stored;
      log := [];
    }

    /** None is the end of the process. */
    method CurrentSchemaVersion(readable: bool) returns (v: Option<int>)
      ensures v == if readable then Some(Current(Value())) else None
      ensures readable && stored.None? ==> v == Some(0)
      ensures readable && stored.Some? ==> v == stored
    {
      if !readable {
        return None;
      }
      v := Some(if stored.Some? then stored.value else 0);
    }

    /** What other runners record in the meantime. */
    method Interfere(versions: seq<int>)
      modifies this
      ensures Value() == Others(old(Value()), versions)
    {
      if versions != [] {
        stored := Some(versions[|versions| - 1]);
        log := log + versions;
      }
    }

    method UpdateSchemaVersion(newVersion: int, luck: Luck, race: seq<int>) returns (r: Verdict)
      modifies this
      ensures (Value(), r) == Update(old(Value()), newVersion, luck, race)
    {
      var currentVersion := CurrentSchemaVersion(luck != ReadFails);
      if currentVersion.None? {
        return Unreadable;
      }
      if newVersion <= currentVersion.value {
        return Fatal;
      }
      Interfere(race);
      if luck == WriteFails {
        return Failed;
      }
      stored := Some(newVersion);
      log := log + [newVersion];
      r := if luck == WriteUnheard then Failed else Fine;
    }
  }

  // ---- Registration (schema_migrations.go) ---------------------------------------------------

  datatype Migration = Migration(version: int, description: string)

  class Registry {
    var available: map<int, Migration>
    var latest: int

    /** The versions are 1, 2, ..., latest. */
    predicate Valid()
      reads this
    {
      && latest >= 0
      && (forall i <- available :: 1 <= i <= latest && available[i].version == i)
      && (forall i :: 1 <= i <= latest ==> i in available)
    }

    constructor ()
      ensures Valid() && latest == 0
    {
      available := map[];
      latest := 0;
    }

    /** Fatal exactly when the version is not the next one; the check for a version already in
        use is never the one that strikes. */
    method RegisterMigration(version: int, description: string) returns (r: Verdict)
      requires Valid()
      modifies this
      ensures Valid()
      ensures r == if version == old(latest) + 1 then Fine else Fatal
      ensures latest == if r == Fine then version else old(latest)
      ensures available == if r == Fine then old(available)[version := Migration(version, description)]
                           else old(available)
    {
      if version < 1 {
        return Fatal;
      }
      var expectedVersion := latest + 1;
      if version != expectedVersion {
        return Fatal;
      }
      assert version !in available;
      available := available[version := Migration(version, description)];
      latest := version;
      r := Fine;
    }
  }

  // ---- Running (migration.go, volmigrate.go) -------------------------------------------------

  function RunOne(c: Cell, version: int, t: Turn): (Cell, Verdict) {
    var c1 := Others(c, t.before);
    if t.luck == RunnerFails then (c1, Failed) else Update(c1, version, t.luck, t.race)
  }

  /** The loop of runMigrationsUpTo from version i on; `start` is the version read before it. */
  function Loop(c: Cell, start: int, i: int, latest: int, target: int, turns: int -> Turn): (Cell, Verdict)
    decreases latest - i
  {
    if i > latest then (c, Fine)
    else if start >= i then Loop(c, start, i + 1, latest, target, turns)
    else if i > target then (c, Fine)
    else
      var (c1, r) := RunOne(c, i, turns(i));
      if r == Fine then Loop(c1, start, i + 1, latest, target, turns) else (c1, r)
  }

  /** `turns(0)` is the reading before the loop. */
  function UpTo(c: Cell, latest: int, target: int, turns: int -> Turn): (Cell, Verdict) {
    var c1 := Others(c, turns(0).before);
    if turns(0).luck == ReadFails then (c1, Unreadable)
    else Loop(c1, Current(c1), 1, latest, target, turns)
  }

  method Run(m: Migration, b: Engine, t: Turn) returns (r: Verdict)
    modifies b
    ensures (b.Value(), r) == RunOne(old(b.Value()), m.version, t)
  {
    b.Interfere(t.before);
    if t.luck == RunnerFails {
      return Failed;
    }
    r := b.UpdateSchemaVersion(m.version, t.luck, t.race);
  }

  /** A call that succeeds has run every migration from its own reading of the version on. */
  method RunMigrationsUpTo(reg: Registry, b: Engine, targetVersion: int, turns: int -> Turn)
    returns (r: Verdict, migrationsRun: nat)
    requires reg.Valid()
    modifies b
    ensures (b.Value(), r) == UpTo(old(b.Value()), reg.latest, targetVersion, turns)
    ensures r == Fine ==>
      migrationsRun == Due(Others(old(b.Value()), turns(0).before), reg.latest, targetVersion)
  {
    migrationsRun := 0;
    b.Interfere(turns(0).before);
    var reading := b.CurrentSchemaVersion(turns(0).luck != ReadFails);
    if reading.None? {
      return Unreadable, 0;
    }
    var currentVersion := reading.value;
    ghost var first := Base(b.Value());
    var i := 1;
    while i <= reg.latest
      invariant 1 <= i <= reg.latest + 1
      invariant Loop(b.Value(), currentVersion, i, reg.latest, targetVersion, turns)
             == UpTo(old(b.Value()), reg.latest, targetVersion, turns)
      invariant migrationsRun == if i - 1 > first then i - 1 - first else 0
      invariant migrationsRun > 0 ==> i - 1 <= targetVersion
      decreases reg.latest - i
    {
      var m := reg.available[i];
      if currentVersion >= m.version {
        i := i + 1;
        continue;
      }
      if m.version > targetVersion {
        break;
      }
      r := Run(m, b, turns(i));
      if r != Fine {
        return;
      }
      migrationsRun := migrationsRun + 1;
      i := i + 1;
    }
    r := Fine;
  }

  method RunAllMigrations(reg: Registry, b: Engine, turns: int -> Turn) returns (r: Verdict, n: nat)
    requires reg.Valid()
    modifies b
    ensures (b.Value(), r) == UpTo(old(b.Value()), reg.latest, reg.latest, turns)
    ensures Alone(turns) && r == Fine ==> b.Value() == Brought(old(b.Value()), reg.latest)
  {
    ghost var c := b.Value();
    r, n := RunMigrationsUpTo(reg, b, reg.latest, turns);
    if Alone(turns) {
      CallBrings(c, reg.latest, reg.latest, turns);
    }
  }

  // ---- What one migration of a call does -------------------------------------------------------

  /** A migration fails when its runner or its write does, or when only the write's answer is lost; meets
      the fatal check when others have recorded its version or more by then; and otherwise follows the
      versions that others record before and after the check. What is stored is what was recorded last. */
  lemma RunOneExactly(c: Cell, version: int, t: Turn)
    ensures var (c1, r) := RunOne(c, version, t);
      var seen := if t.before != [] then t.before[|t.before| - 1] else if c.stored.Some? then c.stored.value else 0;
      var checked := t.luck != RunnerFails && t.luck != ReadFails && version > seen;
      && (r == Unreadable <==> t.luck == ReadFails)
      && (r == Fatal <==> t.luck != RunnerFails && t.luck != ReadFails && version <= seen)
      && (r == Failed <==> t.luck == RunnerFails || (checked && t.luck != Works))
      && c1.log == c.log + t.before
                   + (if checked then t.race else []) + (if checked && t.luck != WriteFails then [version] else [])
      && c1.stored == if c1.log == c.log then c.stored else Some(c1.log[|c1.log| - 1])
  {
    var c1 := RunOne(c, version, t).0;
    assert |c1.log| == |c.log| ==> t.before == [];
    assert c.log + [] == c.log && c.log + t.before + [] == c.log + t.before;
  }

  // ---- What one call does ----------------------------------------------------------------------

  /** Nobody else records a version meanwhile. */
  ghost predicate Alone(turns: int -> Turn) {
    forall i :: turns(i).before == [] && turns(i).race == []
  }

  ghost predicate AllReadable(turns: int -> Turn) {
    forall i :: turns(i).luck != ReadFails
  }

  const Undisturbed: int -> Turn := i => Turn([], Works, [])

  /** The versions a+1, a+2, ..., b. */
  function Range(a: int, b: int): seq<int>
    decreases b - a
  {
    if b <= a then [] else Range(a, b - 1) + [b]
  }

  /** The cell c brought to version v, every migration on the way recorded once and in order. */
  function Brought(c: Cell, v: int): Cell {
    if v <= Base(c) then c else Cell(Some(v), c.log + Range(Base(c), v))
  }

  /** The last migration that need not run. */
  function Base(c: Cell): nat {
    if Current(c) < 0 then 0 else Current(c)
  }

  /** How many migrations a call has to run that starts with the cell c. */
  function Due(c: Cell, latest: int, target: int): nat {
    Max(0, Min(target, latest) - Base(c))
  }

  function Min(a: int, b: int): int { if a < b then a else b }
  function Max(a: int, b: int): int { if a > b then a else b }

  lemma {:induction false} LoopBrings(c0: Cell, c: Cell, i: int, latest: int, target: int, turns: int -> Turn)
    requires 1 <= i && c == Brought(c0, i - 1) && Alone(turns)
    ensures var (t, r) := Loop(c, Current(c0), i, latest, target, turns);
      && r != Fatal && (AllReadable(turns) ==> r != Unreadable)
      && (exists v :: t == Brought(c0, v) && i - 1 <= v <= Max(i - 1, Min(target, latest)))
      && (r == Fine ==> t == Brought(c0, Max(i - 1, Min(target, latest))))
    decreases latest - i
  {
    if i > latest {
      assert c == Brought(c0, i - 1);
    } else if Current(c0) >= i {
      assert Brought(c0, i - 1) == c0 == Brought(c0, i);
      LoopBrings(c0, c, i + 1, latest, target, turns);
      if target < i {
        BroughtLow(c0, i, target);
      }
    } else if i > target {
      assert c == Brought(c0, i - 1);
    } else {
      var (c1, r) := RunOne(c, i, turns(i));
      assert Current(c) < i;
      if r == Fine {
        RangeSnoc(c0, i);
        LoopBrings(c0, c1, i + 1, latest, target, turns);
      } else if turns(i).luck == WriteUnheard {
        RangeSnoc(c0, i);
        assert c1 == Brought(c0, i);
      } else {
        assert c1 == Brought(c0, i - 1);
      }
    }
  }

  lemma BroughtLow(c: Cell, i: int, target: int)
    requires Current(c) >= i
    ensures Brought(c, i) == c && Brought(c, i - 1) == c && (target < i ==> Brought(c, target) == c)
  {
  }

  lemma RangeSnoc(c0: Cell, i: int)
    requires i >= 1 && Current(c0) < i
    ensures var c := Brought(c0, i - 1);
      Brought(c0, i) == Cell(Some(i), c.log + [i]) && Current(c) < i
  {
    assert Range(Base(c0), i) == Range(Base(c0), i - 1) + [i];
    if i - 1 <= Base(c0) {
      assert Range(Base(c0), i - 1) == [];
      assert c0.log + ([] + [i]) == c0.log + [i];
    } else {
      assert c0.log + (Range(Base(c0), i - 1) + [i]) == c0.log + Range(Base(c0), i - 1) + [i];
    }
  }

  /** A runner that nobody else joins never meets the fatal version check, and ends the process only
      when the version cannot be read. Whatever fails, its call brings the cell to some version on
      the way, and if it succeeds to the target (or the latest version if that is less), unless the
      cell is beyond it already. */
  lemma CallBrings(c: Cell, latest: nat, target: int, turns: int -> Turn)
    requires Alone(turns)
    ensures var (t, r) := UpTo(c, latest, target, turns);
      && r != Fatal && (AllReadable(turns) ==> r != Unreadable)
      && (exists v :: t == Brought(c, v) && v <= Max(0, Min(target, latest)))
      && (r == Fine ==> t == Brought(c, Min(target, latest)))
  {
    assert Brought(c, 0) == c;
    LoopBrings(c, c, 1, latest, target, turns);
    var goal := Min(target, latest);
    if goal <= 0 {
      assert Brought(c, 0) == c == Brought(c, goal);
    }
  }

  /** A cell that is brought to v records the versions that follow the stored one, or 1, 2, ... if
      there is none, up to v, and stores v; one that is there already stays as it is. */
  lemma BroughtIs(c: Cell, v: int)
    requires c.stored.Some? ==> c.stored.value >= 0
    ensures var first := if c.stored.None? then 0 else c.stored.value;
      var t := Brought(c, v);
      if v <= first then t == c
      else
        && t.stored == Some(v) && |t.log| == |c.log| + v - first && c.log <= t.log
        && forall i | |c.log| <= i < |t.log| :: t.log[i] == first + 1 + i - |c.log|
  {
    if Base(c) < v {
      RangeIs(Base(c), v);
    }
  }

  lemma {:induction false} RangeIs(a: int, b: int)
    requires a <= b
    ensures |Range(a, b)| == b - a && forall i | 0 <= i < b - a :: Range(a, b)[i] == a + i + 1
    decreases b - a
  {
    if a < b {
      RangeIs(a, b - 1);
    }
  }

  /** The first run ever: on a store without a version key every migration is run, from the first. */
  lemma FirstRun(latest: nat)
    requires latest > 0
    ensures var (t, r) := UpTo(Cell(None, []), latest, latest, Undisturbed);
      && r == Fine && t.stored == Some(latest) && |t.log| == latest
      && forall i | 0 <= i < latest :: t.log[i] == i + 1
  {
    var c := Cell(None, []);
    CleanRunSucceeds(c, 0, 1, latest, latest);
    CallBrings(c, latest, latest, Undisturbed);
    BroughtIs(c, latest);
  }

  // ---- Sequences of calls ------------------------------------------------------------------------

  datatype Call = Call(target: int, turns: int -> Turn)

  ghost predicate AllAlone(calls: seq<Call>) {
    forall x <- calls :: Alone(x.turns)
  }

  function Calls(c: Cell, latest: int, calls: seq<Call>): (Cell, seq<Verdict>)
    decreases |calls|
  {
    if calls == [] then (c, []) else
    var (c1, rs) := Calls(c, latest, calls[..|calls| - 1]);
    var last := calls[|calls| - 1];
    var (c2, r) := UpTo(c1, latest, last.target, last.turns);
    (c2, rs + [r])
  }

  lemma {:induction false} RangeJoin(a: int, b: int, d: int)
    requires a <= b <= d
    ensures Range(a, d) == Range(a, b) + Range(b, d)
    decreases d - b
  {
    if b < d {
      RangeJoin(a, b, d - 1);
      assert Range(a, b) + (Range(b, d - 1) + [d]) == Range(a, b) + Range(b, d - 1) + [d];
    }
  }

  /** Bringing a cell to a and then to b is bringing it to the greater of the two. */
  lemma BroughtTwice(c: Cell, a: int, b: int)
    ensures Brought(Brought(c, a), b) == Brought(c, Max(a, b))
  {
    var m := Brought(c, a);
    if Base(c) < a && a < b {
      RangeJoin(Base(c), a, b);
      assert c.log + Range(Base(c), a) + Range(a, b) == c.log + (Range(Base(c), a) + Range(a, b));
    }
  }

  /** After any calls by a single runner, with any failures, the cell is the initial one brought
      to its current version: the version has not gone down, each migration in between has been
      recorded exactly once, in order, and no call was fatal. */
  lemma {:induction false} CallsBring(c: Cell, latest: nat, calls: seq<Call>)
    requires AllAlone(calls)
    ensures var (t, rs) := Calls(c, latest, calls);
      && t == Brought(c, Current(t)) && Current(t) >= Current(c)
      && Fatal !in rs
    decreases |calls|
  {
    if calls == [] {
      assert Brought(c, Current(c)) == c;
    } else {
      var front, last := calls[..|calls| - 1], calls[|calls| - 1];
      CallsBring(c, latest, front);
      var m := Calls(c, latest, front).0;
      CallBrings(m, latest, last.target, last.turns);
      var t := UpTo(m, latest, last.target, last.turns).0;
      var v :| t == Brought(m, v);
      BroughtTwice(c, Current(m), v);
      BroughtIsCurrent(c, Max(Current(m), v));
      BroughtIsCurrent(m, v);
    }
  }

  lemma BroughtIsCurrent(c: Cell, v: int)
    ensures Brought(c, Current(Brought(c, v))) == Brought(c, v)
    ensures Current(Brought(c, v)) == if v <= Base(c) then Current(c) else v
  {
  }

  /** Resuming: whatever went wrong before, a call that succeeds leaves the very cell a single
      undisturbed call would have left, if no earlier call aimed higher. */
  lemma Resumes(c: Cell, latest: nat, calls: seq<Call>, target: int, turns: int -> Turn)
    requires AllAlone(calls) && Alone(turns)
    requires forall i :: 0 <= i < |calls| ==> calls[i].target <= target
    requires UpTo(Calls(c, latest, calls).0, latest, target, turns).1 == Fine
    ensures UpTo(Calls(c, latest, calls).0, latest, target, turns).0
         == UpTo(c, latest, target, Undisturbed).0
  {
    var m := Calls(c, latest, calls).0;
    var goal := Min(target, latest);
    CallsBring(c, latest, calls);
    CallsBelow(c, latest, calls, target);
    CallBrings(m, latest, target, turns);
    BroughtTwice(c, Current(m), goal);
    CallBrings(c, latest, target, Undisturbed);
    CleanRunSucceeds(c, Current(c), 1, latest, target);
    if goal < Current(m) {
      BroughtIsCurrent(c, Current(m));
    }
  }

  lemma {:induction false} CallsBelow(c: Cell, latest: nat, calls: seq<Call>, target: int)
    requires AllAlone(calls) && forall i :: 0 <= i < |calls| ==> calls[i].target <= target
    ensures var t := Calls(c, latest, calls).0;
      Current(t) == Current(c) || Current(t) <= Min(target, latest)
    decreases |calls|
  {
    if calls != [] {
      var front, last := calls[..|calls| - 1], calls[|calls| - 1];
      CallsBelow(c, latest, front, target);
      var m := Calls(c, latest, front).0;
      CallBrings(m, latest, last.target, last.turns);
      var t := UpTo(m, latest, last.target, last.turns).0;
      var v :| t == Brought(m, v) && v <= Max(0, Min(last.target, latest));
      BroughtIsCurrent(m, v);
      assert last.target <= target;
    }
  }

  lemma {:induction false} CleanRunSucceeds(c: Cell, start: int, i: int, latest: int, target: int)
    requires Current(c) < i || Current(c) == start
    ensures Loop(c, start, i, latest, target, Undisturbed).1 == Fine
    decreases latest - i
  {
    if i <= latest && (start >= i || i <= target) {
      CleanRunSucceeds(if start >= i then c else Recorded(c, i), start, i + 1, latest, target);
    }
  }

  /** Two successful calls, in either order of targets, are one call to the higher target. */
  lemma TwoCallsAreOne(c: Cell, latest: nat, a: int, b: int, turnsA: int -> Turn, turnsB: int -> Turn)
    requires Alone(turnsA) && Alone(turnsB) && UpTo(c, latest, a, turnsA).1 == Fine
    requires UpTo(UpTo(c, latest, a, turnsA).0, latest, b, turnsB).1 == Fine
    ensures UpTo(UpTo(c, latest, a, turnsA).0, latest, b, turnsB).0
         == UpTo(c, latest, Max(a, b), Undisturbed).0
  {
    CallBrings(c, latest, a, turnsA);
    CallBrings(UpTo(c, latest, a, turnsA).0, latest, b, turnsB);
    BroughtTwice(c, Min(a, latest), Min(b, latest));
    CallBrings(c, latest, Max(a, b), Undisturbed);
    CleanRunSucceeds(c, Current(c), 1, latest, Max(a, b));
  }

  /** A runner that others have overtaken by the time of its first check is stopped there, having run
      that migration again. */
  lemma SecondRunnerIsFatal(c: Cell, start: nat, latest: nat, target: int, turns: int -> Turn)
    requires start < Min(target, latest) && turns(start + 1).luck !in {RunnerFails, ReadFails}
    requires start < Current(Others(c, turns(start + 1).before))
    ensures Loop(c, start, 1, latest, target, turns) == (Others(c, turns(start + 1).before), Fatal)
  {
    SkipTo(c, start, 1, latest, target, turns);
  }

  lemma {:induction false} SkipTo(c: Cell, start: nat, i: int, latest: int, target: int, turns: int -> Turn)
    requires 1 <= i <= start + 1 && start < latest
    ensures Loop(c, start, i, latest, target, turns) == Loop(c, start, start + 1, latest, target, turns)
    decreases start + 1 - i
  {
    if i <= start {
      SkipTo(c, start, i + 1, latest, target, turns);
    }
  }
}
