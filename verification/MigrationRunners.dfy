/** Several runners of volmigrate at once, over one version key. Each reads the version, then for each
    migration runs it, checks the version and overwrites it; nothing keeps them apart. */
module MigrationRunners {
  import opened Wrappers
  import opened Migrations

  /** The stored version at the start, the latest migration, and each runner's target. */
  datatype Config = Config(stored: Option<int>, latest: nat, targets: seq<int>)

  /** A runner is about to read the version, to run migration i, to check the version, or to write
      it; or its call has ended. */
  datatype Phase = Entering | Migrating(i: int) | Checking(i: int) | Writing(i: int) | Ended(r: Verdict)

  /** A migration that a runner has run successfully. */
  datatype Ran = Ran(runner: nat, version: int)

  /** `last` is the runner that wrote the version last. */
  datatype State = State(cell: Cell, last: Option<nat>, runners: seq<Phase>, ran: seq<Ran>)

  function Init(cfg: Config): State {
    State(Cell(cfg.stored, []), None, seq(|cfg.targets|, _ => Entering), [])
  }

  // ---- Steps -------------------------------------------------------------------------------

  datatype Fate = Served | Lost | Unheard

  datatype Step =
    | Read(r: nat, ok: bool)
    | Migrate(r: nat, ok: bool)
    | Check(r: nat, ok: bool)
    | Write(r: nat, fate: Fate)

  /** The last migration that the runner is to run. */
  function Goal(cfg: Config, r: nat): int
    requires r < |cfg.targets|
  {
    Min(cfg.targets[r], cfg.latest)
  }

  function Onward(cfg: Config, r: nat, i: int): Phase
    requires r < |cfg.targets|
  {
    if i > Goal(cfg, r) then Ended(Fine) else Migrating(i)
  }

  /** What the runner's next action makes of its phase. */
  function PhaseAfter(cfg: Config, s: State, step: Step): Option<Phase>
    requires step.r < |cfg.targets| && step.r < |s.runners|
  {
    match (step, s.runners[step.r])
    case (Read(r, ok), Entering) =>
      Some(if ok then Onward(cfg, r, Base(s.cell) + 1) else Ended(Unreadable))
    case (Migrate(_, ok), Migrating(i)) => Some(if ok then Checking(i) else Ended(Failed))
    case (Check(_, ok), Checking(i)) =>
      Some(if !ok then Ended(Unreadable) else if i <= Current(s.cell) then Ended(Fatal) else Writing(i))
    case (Write(r, fate), Writing(i)) =>
      Some(if fate.Served? then Onward(cfg, r, i + 1) else Ended(Failed))
    case _ => None
  }

  function Next(cfg: Config, s: State, step: Step): Option<State> {
    if step.r >= |cfg.targets| || step.r >= |s.runners| then None else
    match PhaseAfter(cfg, s, step)
    case None => None
    case Some(phase) =>
      var s1 := s.(runners := s.runners[step.r := phase]);
      match step
      case Migrate(r, true) => Some(s1.(ran := s.ran + [Ran(r, s.runners[r].i)]))
      case Write(r, fate) =>
        Some(if fate.Lost? then s1 else s1.(cell := Recorded(s.cell, s.runners[r].i), last := Some(r)))
      case _ => Some(s1)
  }

  function Run(cfg: Config, steps: seq<Step>): Option<State>
    decreases |steps|
  {
    if steps == [] then Some(Init(cfg)) else
    match Run(cfg, steps[..|steps| - 1])
    case None => None
    case Some(s) => Next(cfg, s, steps[|steps| - 1])
  }

  ghost predicate Reachable(cfg: Config, s: State) {
    exists steps :: Run(cfg, steps) == Some(s)
  }

  lemma Go(cfg: Config, s: State, step: Step) returns (t: State)
    requires Reachable(cfg, s) && Next(cfg, s, step).Some?
    ensures Reachable(cfg, t) && Next(cfg, s, step) == Some(t)
  {
    t := Next(cfg, s, step).value;
    var steps :| Run(cfg, steps) == Some(s);
    assert (steps + [step])[..|steps|] == steps;
    assert Run(cfg, steps + [step]) == Some(t);
  }

  // ---- What every run keeps ------------------------------------------------------------------

  /** The migrations up to this one are done before anybody starts. */
  function First(cfg: Config): nat {
    Base(Init(cfg).cell)
  }

  predicate HasRun(ran: seq<Ran>, v: int) {
    exists x <- ran :: x.version == v
  }

  /** The last migration that the runner has run itself or found recorded. */
  function RunTo(phase: Phase): int
    requires !phase.Entering? && !phase.Ended?
  {
    if phase.Migrating? then phase.i - 1 else phase.i
  }

  predicate Live(phase: Phase) {
    !phase.Entering? && !phase.Ended?
  }

  predicate PhaseFits(cfg: Config, r: nat, phase: Phase)
    requires r < |cfg.targets|
  {
    Live(phase) ==> First(cfg) < phase.i <= Goal(cfg, r)
  }

  /** The version is the initial one, or what the runner that wrote last has just recorded. */
  predicate CellFits(cfg: Config, s: State)
    requires |s.runners| == |cfg.targets|
  {
    match s.last
    case None => s.cell == Init(cfg).cell
    case Some(r) =>
      && r < |s.runners| && First(cfg) < Current(s.cell) <= Goal(cfg, r) && !s.runners[r].Entering?
      && (Live(s.runners[r]) ==> Current(s.cell) == s.runners[r].i - 1)
      && (s.runners[r] == Ended(Fine) ==> Current(s.cell) == Goal(cfg, r))
  }

  ghost predicate Inv(cfg: Config, s: State) {
    && |s.runners| == |cfg.targets|
    && (forall r | 0 <= r < |s.runners| :: PhaseFits(cfg, r, s.runners[r]))
    && CellFits(cfg, s)
    && (s.last.None? ==> forall r | 0 <= r < |s.runners| && s.runners[r] == Ended(Fine) :: Goal(cfg, r) <= First(cfg))
  }

  lemma InvNext(cfg: Config, s: State, step: Step)
    requires Inv(cfg, s) && Next(cfg, s, step).Some?
    ensures Inv(cfg, Next(cfg, s, step).value)
  {
    assert PhaseFits(cfg, step.r, s.runners[step.r]);
  }

  /** Every migration up to the recorded version has been run, and so has every one that a runner has
      behind it. */
  ghost predicate Covered(cfg: Config, s: State) {
    && (forall v | First(cfg) < v <= Current(s.cell) :: HasRun(s.ran, v))
    && (forall r, v | 0 <= r < |s.runners| && Live(s.runners[r]) && First(cfg) < v <= RunTo(s.runners[r]) ::
          HasRun(s.ran, v))
  }

  lemma CoveredNext(cfg: Config, s: State, step: Step)
    requires Inv(cfg, s) && Covered(cfg, s) && Next(cfg, s, step).Some?
    ensures Covered(cfg, Next(cfg, s, step).value)
  {
    var t := Next(cfg, s, step).value;
    forall v | HasRun(s.ran, v) ensures HasRun(t.ran, v) {
      var x :| x in s.ran && x.version == v;
      assert x in t.ran;
    }
    if step.Migrate? && step.ok {
      assert Ran(step.r, s.runners[step.r].i) in t.ran;
    }
  }

  /** A runner runs no migration twice, and none beyond its goal. */
  ghost predicate Once(cfg: Config, s: State) {
    && (forall x <- s.ran :: RanFits(cfg, s, x))
    && (forall p, q | 0 <= p < q < |s.ran| && s.ran[p].runner == s.ran[q].runner ::
          s.ran[p].version < s.ran[q].version)
  }

  predicate RanFits(cfg: Config, s: State, x: Ran) {
    && x.runner < |cfg.targets| && x.runner < |s.runners|
    && First(cfg) < x.version <= Goal(cfg, x.runner) && !s.runners[x.runner].Entering?
    && (Live(s.runners[x.runner]) ==> x.version <= RunTo(s.runners[x.runner]))
  }

  lemma OnceNext(cfg: Config, s: State, step: Step)
    requires Inv(cfg, s) && Once(cfg, s) && Next(cfg, s, step).Some?
    ensures Once(cfg, Next(cfg, s, step).value)
  {
    var t := Next(cfg, s, step).value;
    assert PhaseFits(cfg, step.r, s.runners[step.r]);
    forall x | x in t.ran ensures RanFits(cfg, t, x) {
      assert x in s.ran ==> RanFits(cfg, s, x);
    }
    forall p, q | 0 <= p < q < |t.ran| && t.ran[p].runner == t.ran[q].runner
      ensures t.ran[p].version < t.ran[q].version
    {
      assert s.ran[p] in s.ran && RanFits(cfg, s, s.ran[p]);
    }
  }

  lemma {:induction false} Kept(cfg: Config, steps: seq<Step>)
    requires Run(cfg, steps).Some?
    ensures var s := Run(cfg, steps).value; Inv(cfg, s) && Covered(cfg, s) && Once(cfg, s)
    decreases |steps|
  {
    if steps != [] {
      var front, last := steps[..|steps| - 1], steps[|steps| - 1];
      Kept(cfg, front);
      var s := Run(cfg, front).value;
      InvNext(cfg, s, last);
      CoveredNext(cfg, s, last);
      OnceNext(cfg, s, last);
    }
  }

  lemma ReachableKept(cfg: Config, s: State)
    requires Reachable(cfg, s)
    ensures Inv(cfg, s) && Covered(cfg, s) && Once(cfg, s)
  {
    var steps :| Run(cfg, steps) == Some(s);
    Kept(cfg, steps);
  }

  /** However runners race, the version never falls below the initial one, and every migration up to
      it has been run. */
  lemma NoneSkipped(cfg: Config, s: State, v: int)
    requires Reachable(cfg, s)
    ensures Current(s.cell) >= Current(Init(cfg).cell)
    ensures First(cfg) < v <= Current(s.cell) ==> HasRun(s.ran, v)
  {
    ReachableKept(cfg, s);
  }

  /** From a store without a version key: every migration from the first to the stored version has been
      run. */
  lemma NoneSkippedFromNothing(cfg: Config, s: State, v: int)
    requires Reachable(cfg, s) && cfg.stored.None? && s.cell.stored.Some? && 1 <= v <= s.cell.stored.value
    ensures HasRun(s.ran, v)
  {
    NoneSkipped(cfg, s, v);
  }

  /** From a stored version: every migration that follows it. */
  lemma NoneSkippedFrom(cfg: Config, s: State, v: int)
    requires Reachable(cfg, s) && cfg.stored.Some? && cfg.stored.value >= 0 && s.cell.stored.Some?
    requires cfg.stored.value < v <= s.cell.stored.value
    ensures HasRun(s.ran, v)
  {
    NoneSkipped(cfg, s, v);
  }

  /** A check that fails does so because of another runner's write. */
  lemma FatalIsAnothers(cfg: Config, s: State, r: nat)
    requires Reachable(cfg, s) && r < |s.runners|
    requires s.runners[r].Checking? && s.runners[r].i <= Current(s.cell)
    ensures s.last.Some? && s.last.value != r
  {
    ReachableKept(cfg, s);
    assert PhaseFits(cfg, r, s.runners[r]);
  }

  /** If all runners succeed, with one goal, then the version ends there, whatever it has been in
      between. */
  lemma AllFine(cfg: Config, s: State, goal: int)
    requires Reachable(cfg, s) && cfg.targets != []
    requires forall r | 0 <= r < |s.runners| :: s.runners[r] == Ended(Fine)
    requires forall r | 0 <= r < |cfg.targets| :: Goal(cfg, r) == goal
    ensures Current(s.cell) == if First(cfg) < goal then goal else Current(Init(cfg).cell)
  {
    ReachableKept(cfg, s);
    assert Goal(cfg, 0) == goal && s.runners[0] == Ended(Fine);
  }

  // ---- What can go wrong -----------------------------------------------------------------------

  /** Two runners that both have something to run. */
  predicate Rivals(cfg: Config, a: nat, b: nat) {
    && a < |cfg.targets| && b < |cfg.targets| && a != b
    && First(cfg) < Goal(cfg, a) && First(cfg) < Goal(cfg, b)
  }

  ghost predicate Lowers(cfg: Config) {
    exists s, step :: Reachable(cfg, s) && Next(cfg, s, step).Some?
      && Current(Next(cfg, s, step).value.cell) < Current(s.cell)
  }

  ghost predicate Collides(cfg: Config) {
    exists s, r :: Reachable(cfg, s) && 0 <= r < |s.runners| && s.runners[r] == Ended(Fatal)
  }

  ghost predicate Repeats(cfg: Config) {
    exists s, p, q :: Reachable(cfg, s) && 0 <= p < q < |s.ran| && s.ran[p].version == s.ran[q].version
  }

  // Runs of rivals

  lemma Begin(cfg: Config) returns (s: State)
    ensures Reachable(cfg, s) && s == Init(cfg)
  {
    s := Init(cfg);
    assert Run(cfg, []) == Some(s);
  }

  /** A runner runs its next migration without disturbance. */
  function Advanced(cfg: Config, s: State, r: nat): State
    requires r < |s.runners| && r < |cfg.targets| && s.runners[r].Migrating?
  {
    var i := s.runners[r].i;
    State(Recorded(s.cell, i), Some(r), s.runners[r := Onward(cfg, r, i + 1)], s.ran + [Ran(r, i)])
  }

  lemma Advance(cfg: Config, s: State, r: nat) returns (t: State)
    requires Reachable(cfg, s) && r < |s.runners| && r < |cfg.targets|
    requires s.runners[r].Migrating? && Current(s.cell) < s.runners[r].i
    ensures Reachable(cfg, t) && t == Advanced(cfg, s, r)
  {
    var i := s.runners[r].i;
    t := Go(cfg, s, Migrate(r, true));
    t := Go(cfg, t, Check(r, true));
    t := Go(cfg, t, Write(r, Served));
    assert t.runners == s.runners[r := Onward(cfg, r, i + 1)];
  }

  /** Both rivals have read the version, and the first has run its first migration. */
  lemma RivalsStart(cfg: Config, a: nat, b: nat) returns (s: State)
    requires Rivals(cfg, a, b)
    ensures Reachable(cfg, s) && |s.runners| == |cfg.targets|
    ensures var i := First(cfg) + 1;
      s.cell == Init(cfg).cell && s.ran == [Ran(a, i)] && s.runners[a] == Checking(i) && s.runners[b] == Migrating(i)
  {
    s := Begin(cfg);
    s := Go(cfg, s, Read(a, true));
    s := Go(cfg, s, Read(b, true));
    s := Go(cfg, s, Migrate(a, true));
  }

  lemma CollideRun(cfg: Config, a: nat, b: nat)
    requires Rivals(cfg, a, b)
    ensures Collides(cfg) && Repeats(cfg)
  {
    var s := RivalsStart(cfg, a, b);
    s := Advance(cfg, s, b);
    assert s.ran[0].version == s.ran[1].version;
    s := Go(cfg, s, Check(a, true));
    assert s.runners[a] == Ended(Fatal);
  }

  /** The first passes its check, the second runs two migrations, and the first writes. */
  lemma LowerRun(cfg: Config, a: nat, b: nat)
    requires Rivals(cfg, a, b) && First(cfg) + 1 < Goal(cfg, b)
    ensures Lowers(cfg)
  {
    var s := RivalsStart(cfg, a, b);
    s := Go(cfg, s, Check(a, true));
    s := Advance(cfg, s, b);
    s := Advance(cfg, s, b);
    var t := Go(cfg, s, Write(a, Served));
    assert Current(t.cell) < Current(s.cell);
  }

  // Exactly when

  /** In some run a recorded version is overwritten by a lower one exactly when there are two runners
      with something to run, one of which has two migrations or more. */
  lemma LoweredExactly(cfg: Config)
    ensures Lowers(cfg) <==> exists a, b :: Rivals(cfg, a, b) && First(cfg) + 1 < Goal(cfg, b)
  {
    if Lowers(cfg) {
      var s, step :| Reachable(cfg, s) && Next(cfg, s, step).Some?
        && Current(Next(cfg, s, step).value.cell) < Current(s.cell);
      ReachableKept(cfg, s);
      assert PhaseFits(cfg, step.r, s.runners[step.r]);
      assert Rivals(cfg, step.r, s.last.value);
    }
    if a, b :| Rivals(cfg, a, b) && First(cfg) + 1 < Goal(cfg, b) {
      LowerRun(cfg, a, b);
    }
  }

  /** In some run a runner meets the fatal check exactly when there are two runners with something to
      run. */
  lemma CollidesExactly(cfg: Config)
    ensures Collides(cfg) <==> exists a, b :: Rivals(cfg, a, b)
  {
    if Collides(cfg) {
      var s, r :| Reachable(cfg, s) && 0 <= r < |s.runners| && s.runners[r] == Ended(Fatal);
      var steps :| Run(cfg, steps) == Some(s);
      FatalHasRival(cfg, steps, r);
    }
    if a, b :| Rivals(cfg, a, b) {
      CollideRun(cfg, a, b);
    }
  }

  lemma {:induction false} FatalHasRival(cfg: Config, steps: seq<Step>, r: nat)
    requires Run(cfg, steps).Some? && r < |Run(cfg, steps).value.runners|
    requires Run(cfg, steps).value.runners[r] == Ended(Fatal)
    ensures exists a, b :: Rivals(cfg, a, b)
    decreases |steps|
  {
    if steps != [] {
      var front, last := steps[..|steps| - 1], steps[|steps| - 1];
      var s := Run(cfg, front).value;
      if s.runners[r] == Ended(Fatal) {
        FatalHasRival(cfg, front, r);
      } else {
        FatalIsAnothers(cfg, s, r);
        ReachableKept(cfg, s);
        assert PhaseFits(cfg, r, s.runners[r]);
        assert Rivals(cfg, r, s.last.value);
      }
    }
  }

  /** In some run a migration is run twice exactly when there are two runners with something to run. */
  lemma RepeatsExactly(cfg: Config)
    ensures Repeats(cfg) <==> exists a, b :: Rivals(cfg, a, b)
  {
    if Repeats(cfg) {
      var s, p, q :| Reachable(cfg, s) && 0 <= p < q < |s.ran| && s.ran[p].version == s.ran[q].version;
      ReachableKept(cfg, s);
      assert s.ran[p] in s.ran && s.ran[q] in s.ran;
      assert RanFits(cfg, s, s.ran[p]) && RanFits(cfg, s, s.ran[q]);
      assert Rivals(cfg, s.ran[p].runner, s.ran[q].runner);
    }
    if a, b :| Rivals(cfg, a, b) {
      CollideRun(cfg, a, b);
    }
  }

  // ---- Each runner's call ----------------------------------------------------------------------

  /** The versions that steps of other runners record, in order. */
  function OthersRecord(cfg: Config, r: nat, steps: seq<Step>): seq<int>
    requires Run(cfg, steps).Some?
    decreases |steps|
  {
    if steps == [] then [] else
    var front, last := steps[..|steps| - 1], steps[|steps| - 1];
    OthersRecord(cfg, r, front) + if last.r == r then [] else Records(Run(cfg, front).value, last)
  }

  /** What the step records. */
  function Records(s: State, step: Step): seq<int> {
    if step.Write? && !step.fate.Lost? && step.r < |s.runners| && s.runners[step.r].Writing? then
      [s.runners[step.r].i]
    else []
  }

  const Blank := Turn([], Works, [])

  ghost predicate BlankFrom(turns: int -> Turn, k: int) {
    forall j :: j >= k ==> turns(j) == Blank
  }

  function With(turns: int -> Turn, k: int, t: Turn): int -> Turn {
    j => if j == k then t else turns(j)
  }

  /** All that others record in the turns up to n. */
  function Flat(turns: int -> Turn, n: int): seq<int>
    decreases n + 1
  {
    if n < 0 then [] else Flat(turns, n - 1) + turns(n).before + turns(n).race
  }

  lemma {:induction false} FlatSame(turns: int -> Turn, k: int, t: Turn, n: int)
    requires n < k
    ensures Flat(With(turns, k, t), n) == Flat(turns, n)
    decreases n + 1
  {
    if n >= 0 {
      FlatSame(turns, k, t, n - 1);
    }
  }

  lemma {:induction false} FlatWith(turns: int -> Turn, k: int, t: Turn, n: int, more: seq<int>)
    requires 0 <= k <= n && BlankFrom(turns, k + 1)
    requires t.before + t.race == turns(k).before + turns(k).race + more
    ensures Flat(With(turns, k, t), n) == Flat(turns, n) + more
    decreases n
  {
    var a := Flat(turns, n - 1);
    if k < n {
      FlatWith(turns, k, t, n - 1, more);
      assert turns(n) == Blank && With(turns, k, t)(n) == Blank;
      assert a + more + [] + [] == a + [] + [] + more;
    } else {
      FlatSame(turns, k, t, n - 1);
      Regroup(a, t.before, t.race);
      Regroup(a, turns(k).before, turns(k).race);
      Regroup(a, turns(k).before + turns(k).race, more);
    }
  }

  lemma Regroup(a: seq<int>, b: seq<int>, c: seq<int>)
    ensures a + (b + c) == a + b + c
  {
  }

  lemma OthersAppend(c: Cell, a: seq<int>, b: seq<int>)
    ensures Others(Others(c, a), b) == Others(c, a + b)
  {
    if b == [] {
      assert a + b == a;
    } else {
      assert c.log + a + b == c.log + (a + b);
      assert [] + b == b;
    }
  }

  /** The cell after the migrations up to k, if all of them are fine; `start` is the last that need not
      run. */
  function Passed(c: Cell, start: int, k: int, turns: int -> Turn): Option<Cell>
    decreases k - start
  {
    if k <= start then Some(c) else
    match Passed(c, start, k - 1, turns)
    case None => None
    case Some(m) =>
      var (t, r) := RunOne(m, k, turns(k));
      if r == Fine then Some(t) else None
  }

  lemma {:induction false} PassedSame(c: Cell, start: int, k: int, turns: int -> Turn, j: int, t: Turn)
    requires k < j
    ensures Passed(c, start, k, With(turns, j, t)) == Passed(c, start, k, turns)
    decreases k - start
  {
    if k > start {
      PassedSame(c, start, k - 1, turns, j, t);
    }
  }

  /** A loop that has passed the migrations up to k goes on with the next. */
  lemma {:induction false} LoopFrom(c: Cell, k: int, latest: int, target: int, turns: int -> Turn)
    requires Base(c) <= k && (Base(c) < k ==> k <= Min(target, latest))
    requires Passed(c, Base(c), k, turns).Some?
    ensures Loop(c, Current(c), 1, latest, target, turns)
         == Loop(Passed(c, Base(c), k, turns).value, Current(c), k + 1, latest, target, turns)
    decreases k
  {
    if k == Base(c) {
      LoopSkips(c, 1, latest, target, turns);
    } else {
      LoopFrom(c, k - 1, latest, target, turns);
    }
  }

  lemma {:induction false} LoopSkips(c: Cell, i: int, latest: int, target: int, turns: int -> Turn)
    requires 1 <= i <= Base(c) + 1
    ensures Loop(c, Current(c), i, latest, target, turns) == Loop(c, Current(c), Base(c) + 1, latest, target, turns)
    decreases Base(c) + 1 - i
  {
    if i <= Base(c) {
      LoopSkips(c, i + 1, latest, target, turns);
    }
  }

  /** The runner has read the version and passed the migrations before i. */
  predicate Underway(cfg: Config, r: nat, turns: int -> Turn, i: int)
    requires r < |cfg.targets|
  {
    var c := Others(Init(cfg).cell, turns(0).before);
    && turns(0).luck == Works && turns(0).race == [] && Base(c) < i <= Goal(cfg, r)
    && Passed(c, Base(c), i - 1, turns).Some?
  }

  /** The cell when the runner came to migration i. */
  function Reached(cfg: Config, r: nat, turns: int -> Turn, i: int): Cell
    requires r < |cfg.targets| && Underway(cfg, r, turns, i)
  {
    var c := Others(Init(cfg).cell, turns(0).before);
    Passed(c, Base(c), i - 1, turns).value
  }

  /** The turns, and what others have recorded since the call ended, lead to the runner's phase and to
      the cell. */
  ghost predicate Tells(cfg: Config, r: nat, turns: int -> Turn, rest: seq<int>, phase: Phase, cell: Cell)
    requires r < |cfg.targets|
  {
    match phase
    case Entering =>
      rest == [] && BlankFrom(turns, 1) && turns(0).luck == Works && turns(0).race == []
      && cell == Others(Init(cfg).cell, turns(0).before)
    case Migrating(i) => AtMigration(cfg, r, turns, rest, i, cell) && turns(i).race == []
    case Checking(i) => AtMigration(cfg, r, turns, rest, i, cell) && turns(i).race == []
    case Writing(i) =>
      && AtMigration(cfg, r, turns, rest, i, cell)
      && Current(Others(Reached(cfg, r, turns, i), turns(i).before)) < i
    case Ended(v) =>
      var (m, w) := UpTo(Init(cfg).cell, cfg.latest, cfg.targets[r], turns);
      v == w && cell == Others(m, rest)
  }

  ghost predicate AtMigration(cfg: Config, r: nat, turns: int -> Turn, rest: seq<int>, i: int, cell: Cell)
    requires r < |cfg.targets|
  {
    && rest == [] && Underway(cfg, r, turns, i) && BlankFrom(turns, i + 1) && turns(i).luck == Works
    && cell == Others(Others(Reached(cfg, r, turns, i), turns(i).before), turns(i).race)
  }

  /** Others' records are added where the call has got to. */
  function Extend(phase: Phase, turns: int -> Turn, more: seq<int>): int -> Turn {
    match phase
    case Entering => With(turns, 0, turns(0).(before := turns(0).before + more))
    case Writing(i) => With(turns, i, turns(i).(race := turns(i).race + more))
    case Ended(_) => turns
    case _ => With(turns, phase.i, turns(phase.i).(before := turns(phase.i).before + more))
  }

  lemma UnderwaySame(cfg: Config, r: nat, turns: int -> Turn, i: int, t: Turn)
    requires r < |cfg.targets| && Underway(cfg, r, turns, i)
    ensures Underway(cfg, r, With(turns, i, t), i) && Reached(cfg, r, With(turns, i, t), i) == Reached(cfg, r, turns, i)
  {
    var c := Others(Init(cfg).cell, turns(0).before);
    PassedSame(c, Base(c), i - 1, turns, i, t);
  }

  lemma ExtendMigration(cfg: Config, r: nat, turns: int -> Turn, i: int, cell: Cell, more: seq<int>)
    requires r < |cfg.targets| && AtMigration(cfg, r, turns, [], i, cell)
    ensures var t := turns(i);
      && AtMigration(cfg, r, With(turns, i, t.(race := t.race + more)), [], i, Others(cell, more))
      && (t.race == [] ==>
            AtMigration(cfg, r, With(turns, i, t.(before := t.before + more)), [], i, Others(cell, more)))
  {
    var m, t := Reached(cfg, r, turns, i), turns(i);
    UnderwaySame(cfg, r, turns, i, t.(race := t.race + more));
    UnderwaySame(cfg, r, turns, i, t.(before := t.before + more));
    OthersAppend(m, t.before, more);
    OthersAppend(Others(m, t.before), t.race, more);
  }

  lemma ExtendTells(cfg: Config, r: nat, turns: int -> Turn, rest: seq<int>, phase: Phase, cell: Cell, more: seq<int>)
    requires r < |cfg.targets| && Tells(cfg, r, turns, rest, phase, cell)
    ensures Tells(cfg, r, Extend(phase, turns, more), if phase.Ended? then rest + more else rest, phase,
                  Others(cell, more))
  {
    match phase {
      case Entering => OthersAppend(Init(cfg).cell, turns(0).before, more);
      case Ended(_) => OthersAppend(UpTo(Init(cfg).cell, cfg.latest, cfg.targets[r], turns).0, rest, more);
      case Writing(i) =>
        ExtendMigration(cfg, r, turns, i, cell, more);
        UnderwaySame(cfg, r, turns, i, turns(i).(race := turns(i).race + more));
      case _ => ExtendMigration(cfg, r, turns, phase.i, cell, more);
    }
  }

  lemma ExtendFlat(cfg: Config, r: nat, turns: int -> Turn, rest: seq<int>, phase: Phase, cell: Cell, more: seq<int>)
    requires r < |cfg.targets| && Tells(cfg, r, turns, rest, phase, cell)
    ensures var n := Max(Goal(cfg, r), 0);
      Flat(Extend(phase, turns, more), n) + (if phase.Ended? then rest + more else rest) == Flat(turns, n) + rest + more
  {
    if !phase.Ended? {
      var n, k := Max(Goal(cfg, r), 0), if phase.Entering? then 0 else phase.i;
      var t := Extend(phase, turns, more)(k);
      assert t.before + t.race == turns(k).before + turns(k).race + more;
      FlatWith(turns, k, t, n, more);
    }
  }

  /** How the runner's own step shows in its turns. */
  function Luckily(phase: Phase, step: Step, turns: int -> Turn): int -> Turn
    requires phase.Entering? || Live(phase)
  {
    var k := if phase.Entering? then 0 else phase.i;
    var luck := match step
      case Read(_, ok) => if ok then Works else ReadFails
      case Migrate(_, ok) => if ok then Works else RunnerFails
      case Check(_, ok) => if ok then Works else ReadFails
      case Write(_, fate) =>
        if fate.Served? then Works else if fate.Lost? then WriteFails else WriteUnheard;
    With(turns, k, turns(k).(luck := luck))
  }

  lemma ReadTells(cfg: Config, s: State, r: nat, ok: bool, turns: int -> Turn)
    requires r < |cfg.targets| && r < |s.runners| && s.runners[r].Entering?
    requires Tells(cfg, r, turns, [], Entering, s.cell)
    ensures Tells(cfg, r, Luckily(Entering, Read(r, ok), turns), [],
                  if ok then Onward(cfg, r, Base(s.cell) + 1) else Ended(Unreadable), s.cell)
  {
    if ok {
      LoopFrom(s.cell, Base(s.cell), cfg.latest, cfg.targets[r], Luckily(Entering, Read(r, ok), turns));
    }
  }

  /** The call up to migration i, and the loop from there on. */
  lemma CallAt(cfg: Config, r: nat, turns: int -> Turn, i: int, luck: Luck)
    requires r < |cfg.targets| && Underway(cfg, r, turns, i)
    ensures var turns1 := With(turns, i, turns(i).(luck := luck));
      var (m, v) := RunOne(Reached(cfg, r, turns, i), i, turns1(i));
      && (v != Fine ==> UpTo(Init(cfg).cell, cfg.latest, cfg.targets[r], turns1) == (m, v))
      && (v == Fine && i == Goal(cfg, r) ==> UpTo(Init(cfg).cell, cfg.latest, cfg.targets[r], turns1) == (m, Fine))
      && (v == Fine && i < Goal(cfg, r) ==>
            Underway(cfg, r, turns1, i + 1) && Reached(cfg, r, turns1, i + 1) == m)
  {
    var c := Others(Init(cfg).cell, turns(0).before);
    var turns1 := With(turns, i, turns(i).(luck := luck));
    UnderwaySame(cfg, r, turns, i, turns1(i));
    LoopFrom(c, i - 1, cfg.latest, cfg.targets[r], turns1);
  }

  lemma OwnTells(cfg: Config, s: State, step: Step, turns: int -> Turn, rest: seq<int>)
    requires step.r < |cfg.targets| && step.r < |s.runners| && Next(cfg, s, step).Some?
    requires Tells(cfg, step.r, turns, rest, s.runners[step.r], s.cell)
    ensures var t := Next(cfg, s, step).value;
      rest == [] && Tells(cfg, step.r, Luckily(s.runners[step.r], step, turns), rest, t.runners[step.r], t.cell)
  {
    var r, phase := step.r, s.runners[step.r];
    if phase.Entering? {
      ReadTells(cfg, s, r, step.ok, turns);
    } else {
      MigrationTells(cfg, s, step, turns);
    }
  }

  lemma MigrationTells(cfg: Config, s: State, step: Step, turns: int -> Turn)
    requires step.r < |cfg.targets| && step.r < |s.runners| && Next(cfg, s, step).Some?
    requires Live(s.runners[step.r]) && Tells(cfg, step.r, turns, [], s.runners[step.r], s.cell)
    ensures var t := Next(cfg, s, step).value;
      Tells(cfg, step.r, Luckily(s.runners[step.r], step, turns), [], t.runners[step.r], t.cell)
  {
    match step {
      case Write(r, fate) => WriteTells(cfg, r, s.runners[r].i, s.cell, fate, turns);
      case _ => StayTells(cfg, s, step, turns);
    }
  }

  /** The runner's own step that writes nothing. */
  lemma StayTells(cfg: Config, s: State, step: Step, turns: int -> Turn)
    requires step.r < |cfg.targets| && step.r < |s.runners| && Next(cfg, s, step).Some? && !step.Write?
    requires Live(s.runners[step.r]) && Tells(cfg, step.r, turns, [], s.runners[step.r], s.cell)
    ensures var t := Next(cfg, s, step).value;
      Tells(cfg, step.r, Luckily(s.runners[step.r], step, turns), [], t.runners[step.r], s.cell)
  {
    var r, i := step.r, s.runners[step.r].i;
    var turns1 := Luckily(s.runners[r], step, turns);
    CallAt(cfg, r, turns, i, turns1(i).luck);
    UnderwaySame(cfg, r, turns, i, turns1(i));
  }

  lemma WriteTells(cfg: Config, r: nat, i: int, cell: Cell, fate: Fate, turns: int -> Turn)
    requires r < |cfg.targets| && Tells(cfg, r, turns, [], Writing(i), cell)
    ensures Tells(cfg, r, Luckily(Writing(i), Write(r, fate), turns), [],
                  if fate.Served? then Onward(cfg, r, i + 1) else Ended(Failed),
                  if fate.Lost? then cell else Recorded(cell, i))
  {
    CallAt(cfg, r, turns, i, Luckily(Writing(i), Write(r, fate), turns)(i).luck);
  }

  lemma OwnFlat(cfg: Config, s: State, step: Step, turns: int -> Turn, rest: seq<int>)
    requires step.r < |cfg.targets| && step.r < |s.runners| && Next(cfg, s, step).Some?
    requires Tells(cfg, step.r, turns, rest, s.runners[step.r], s.cell)
    ensures var n := Max(Goal(cfg, step.r), 0);
      Flat(Luckily(s.runners[step.r], step, turns), n) == Flat(turns, n)
  {
    var phase := s.runners[step.r];
    var n, k := Max(Goal(cfg, step.r), 0), if phase.Entering? then 0 else phase.i;
    FlatWith(turns, k, Luckily(phase, step, turns)(k), n, []);
  }

  lemma OthersStep(cfg: Config, s: State, step: Step, r: nat)
    requires r < |s.runners| && step.r != r && Next(cfg, s, step).Some?
    ensures var t := Next(cfg, s, step).value;
      r < |t.runners| && t.runners[r] == s.runners[r] && t.cell == Others(s.cell, Records(s, step))
  {
  }

  /** Whatever a runner does in any run is what the loop of runMigrationsUpTo does with exactly the
      other runners' records of that run in between, in order. */
  lemma {:induction false} RunnerIsCall(cfg: Config, r: nat, steps: seq<Step>)
    returns (turns: int -> Turn, rest: seq<int>)
    requires r < |cfg.targets| && Run(cfg, steps).Some?
    ensures var s := Run(cfg, steps).value;
      r < |s.runners| && Tells(cfg, r, turns, rest, s.runners[r], s.cell)
    ensures Flat(turns, Max(Goal(cfg, r), 0)) + rest == OthersRecord(cfg, r, steps)
    decreases |steps|
  {
    if steps == [] {
      turns, rest := Undisturbed, [];
      FlatNothing(Max(Goal(cfg, r), 0));
    } else {
      var front, last := steps[..|steps| - 1], steps[|steps| - 1];
      turns, rest := RunnerIsCall(cfg, r, front);
      var s := Run(cfg, front).value;
      if last.r == r {
        OwnTells(cfg, s, last, turns, rest);
        OwnFlat(cfg, s, last, turns, rest);
        turns := Luckily(s.runners[r], last, turns);
      } else {
        var more := Records(s, last);
        OthersStep(cfg, s, last, r);
        ExtendTells(cfg, r, turns, rest, s.runners[r], s.cell, more);
        ExtendFlat(cfg, r, turns, rest, s.runners[r], s.cell, more);
        turns, rest := Extend(s.runners[r], turns, more), if s.runners[r].Ended? then rest + more else rest;
      }
    }
  }

  /** So a call that has ended has done what UpTo says, and others may have recorded more since. */
  lemma EndedIsCall(cfg: Config, r: nat, steps: seq<Step>) returns (turns: int -> Turn, rest: seq<int>)
    requires r < |cfg.targets| && Run(cfg, steps).Some?
    requires var s := Run(cfg, steps).value; r < |s.runners| && s.runners[r].Ended?
    ensures var s := Run(cfg, steps).value;
      var (m, verdict) := UpTo(Init(cfg).cell, cfg.latest, cfg.targets[r], turns);
      s.runners[r] == Ended(verdict) && s.cell == Others(m, rest)
    ensures Flat(turns, Max(Goal(cfg, r), 0)) + rest == OthersRecord(cfg, r, steps)
  {
    turns, rest := RunnerIsCall(cfg, r, steps);
  }

  lemma {:induction false} FlatNothing(n: int)
    ensures Flat(Undisturbed, n) == []
    decreases n + 1
  {
    if n >= 0 {
      FlatNothing(n - 1);
    }
  }
}
