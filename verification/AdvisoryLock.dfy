/**
 * The lock file that keeps two servers from driving one pane, as steps that any number of
 * processes take in any order: create, write, read, liveness check, unlink.
 */
module AdvisoryLock {
  import opened Text

  const ATTEMPTS := 2

  /** Where a process stands in acquiring or releasing; `attempt` counts from 0. */
  datatype Phase =
    | Idle
    | Opening(attempt: nat)
    | Created(inode: nat)
    | Blocked(attempt: nat)
    | Checking(attempt: nat, recorded: nat)
    | Reclaiming(attempt: nat)
    | Holding(inode: nat)
    | Closed(inode: nat)
    | Dead
  {
    /** From the exclusive create until the release has unlinked the file. */
    predicate Owns() {
      Created? || Holding? || Closed?
    }
  }

  datatype Process = Process(pid: nat, phase: Phase)

  /** A lock file, linked or not: who created it, and the pid it records once written. */
  datatype File = File(creator: nat, recorded: nat)

  /** Processes are told apart by number, since the system may hand out a dead process's pid again. */
  datatype World = World(procs: map<nat, Process>, files: seq<File>, path: Option<nat>) {
    predicate Alive(pid: nat) {
      exists p :: p in procs && procs[p].pid == pid && procs[p].phase != Dead
    }

    predicate Owner(p: nat) {
      p in procs && procs[p].phase.Owns()
    }

    function Phase(p: nat): Phase {
      if p in procs then procs[p].phase else Dead
    }

    function To(p: nat, phase: Phase): World
      requires p in procs
    {
      this.(procs := procs[p := procs[p].(phase := phase)])
    }

    function Record(inode: nat, pid: nat): World {
      if inode < |files| then this.(files := files[inode := files[inode].(recorded := pid)]) else this
    }

    /** What reading the lock file at the path gives: 0 when there is no file or nothing in it. */
    function Recorded(): nat {
      if path.Some? && path.value < |files| then files[path.value].recorded else 0
    }
  }

  const EMPTY := World(map[], [], None)

  datatype Step =
    | Spawn(p: nat, pid: nat)
    | Die(p: nat)
    | Start(p: nat)
    | Create(p: nat)
    | CreateFails(p: nat)
    | Write(p: nat, written: bool)
    | Read(p: nat)
    | Check(p: nat)
    | Unlink(p: nat)
    | Close(p: nat)
    | Remove(p: nat)

  predicate Enabled(w: World, s: Step) {
    match s
    case Spawn(p, pid) => p !in w.procs && pid > 0 && !w.Alive(pid)
    case Die(p) => p in w.procs && w.Phase(p) != Dead
    case Start(p) => w.Phase(p).Idle?
    case Create(p) => w.Phase(p).Opening?
    case CreateFails(p) => w.Phase(p).Opening?
    case Write(p, _) => w.Phase(p).Created?
    case Read(p) => w.Phase(p).Blocked?
    case Check(p) => w.Phase(p).Checking?
    case Unlink(p) => w.Phase(p).Reclaiming?
    case Close(p) => w.Phase(p).Holding?
    case Remove(p) => w.Phase(p).Closed?
  }

  function Apply(w: World, s: Step): World
    requires Enabled(w, s)
  {
    match s
    case Spawn(p, pid) => w.(procs := w.procs[p := Process(pid, Idle)])
    case Die(p) => w.To(p, Dead)
    case Start(p) => w.To(p, Opening(0))
    case Create(p) =>
      if w.path.None? then
        w.To(p, Created(|w.files|)).(files := w.files + [File(p, 0)], path := Some(|w.files|))
      else
        w.To(p, Blocked(w.Phase(p).attempt))
    case CreateFails(p) => w.To(p, Idle)
    case Write(p, written) =>
      var held := w.To(p, Holding(w.Phase(p).inode));
      if written then held.Record(w.Phase(p).inode, w.procs[p].pid) else held
    case Read(p) => w.To(p, Checking(w.Phase(p).attempt, w.Recorded()))
    case Check(p) =>
      var phase := w.Phase(p);
      w.To(p, if phase.recorded > 0 && !w.Alive(phase.recorded) then Reclaiming(phase.attempt) else Idle)
    case Unlink(p) =>
      var next := w.Phase(p).attempt + 1;
      w.To(p, if next < ATTEMPTS then Opening(next) else Idle).(path := None)
    case Close(p) => w.To(p, Closed(w.Phase(p).inode))
    case Remove(p) => w.To(p, Idle).(path := None)
  }

  /** A run: every step is possible where it is taken. */
  predicate Runs(w: World, steps: seq<Step>)
    decreases |steps|, 0
  {
    steps == [] ||
    (var n := |steps| - 1; Runs(w, steps[..n]) && Enabled(After(w, steps[..n]), steps[n]))
  }

  function After(w: World, steps: seq<Step>): World
    requires Runs(w, steps)
    decreases |steps|, 1
  {
    if steps == [] then w else Apply(After(w, steps[..|steps| - 1]), steps[|steps| - 1])
  }

  // ----- Mutual exclusion -----

  ghost predicate Exclusive(w: World) {
    forall p, q | w.Owner(p) && w.Owner(q) :: p == q
  }

  /** Files know their creators, and record nothing but their creator's pid. */
  ghost predicate Sound(w: World) {
    && (forall i | 0 <= i < |w.files| :: RecordsCreator(w, w.files[i]))
    && (w.path.Some? ==> w.path.value < |w.files|)
    && (forall p | w.Owner(p) :: w.Phase(p).inode < |w.files| && w.files[w.Phase(p).inode].creator == p)
    && (forall p | p in w.procs :: w.procs[p].pid > 0)
  }

  predicate RecordsCreator(w: World, file: File) {
    file.creator in w.procs && (file.recorded == 0 || file.recorded == w.procs[file.creator].pid)
  }

  /** An owner's file is the one at the path. */
  ghost predicate Guarded(w: World) {
    Sound(w) && forall p | w.Owner(p) :: w.path == Some(w.Phase(p).inode)
  }

  /** A reclaiming process unlinks a file whose creator still owns it. */
  predicate Stray(w: World, s: Step) {
    && s.Unlink? && w.path.Some? && w.path.value < |w.files|
    && var creator := w.files[w.path.value].creator;
       w.Owner(creator) && w.Phase(creator).inode == w.path.value
  }

  predicate StrayFree(w: World, steps: seq<Step>)
    requires Runs(w, steps)
    decreases |steps|
  {
    steps == [] ||
    (var n := |steps| - 1; StrayFree(w, steps[..n]) && !Stray(After(w, steps[..n]), steps[n]))
  }

  lemma GuardedIsExclusive(w: World)
    requires Guarded(w)
    ensures Exclusive(w)
  {
  }

  lemma OthersStay(w: World, s: Step, q: nat)
    requires Enabled(w, s) && q != s.p
    ensures Apply(w, s).Phase(q) == w.Phase(q) && (Apply(w, s).Owner(q) <==> w.Owner(q))
  {
  }

  lemma StepKeepsSound(w: World, s: Step)
    requires Sound(w) && Enabled(w, s)
    ensures Sound(Apply(w, s))
  {
    hide World.Alive, World.Recorded;
    var v := Apply(w, s);
    forall q | v.Owner(q) ensures v.Phase(q).inode < |v.files| && v.files[v.Phase(q).inode].creator == q {
      if q != s.p {
        OthersStay(w, s, q);
      } else if !s.Create? {
        assert w.Owner(q);
      }
    }
  }

  lemma StepKeepsGuarded(w: World, s: Step)
    requires Guarded(w) && Enabled(w, s) && !Stray(w, s)
    ensures Guarded(Apply(w, s))
  {
    StepKeepsSound(w, s);
    var v := Apply(w, s);
    forall q | v.Owner(q) ensures v.path == Some(v.Phase(q).inode) {
      if q != s.p {
        OthersStay(w, s, q);
        assert s.Remove? ==> w.Owner(s.p);
      } else if !s.Create? {
        assert w.Owner(q);
      }
    }
  }

  lemma {:induction false} RunKeepsSound(w: World, steps: seq<Step>)
    requires Sound(w) && Runs(w, steps)
    ensures Sound(After(w, steps))
    decreases |steps|
  {
    hide Sound, Apply, Enabled;
    if steps != [] {
      var n := |steps| - 1;
      RunKeepsSound(w, steps[..n]);
      StepKeepsSound(After(w, steps[..n]), steps[n]);
    }
  }

  /** However many processes, and however they interleave and die: without a stray unlink, one owner. */
  lemma {:induction false} StrayFreeRunsExclude(w: World, steps: seq<Step>)
    requires Guarded(w) && Runs(w, steps) && StrayFree(w, steps)
    ensures Guarded(After(w, steps)) && Exclusive(After(w, steps))
    decreases |steps|
  {
    hide Guarded, Stray, Apply, Enabled;
    if steps != [] {
      var n := |steps| - 1;
      StrayFreeRunsExclude(w, steps[..n]);
      StepKeepsGuarded(After(w, steps[..n]), steps[n]);
    }
    GuardedIsExclusive(After(w, steps));
  }

  lemma EmptyIsGuarded()
    ensures Guarded(EMPTY) && Living(EMPTY)
  {
  }

  // ----- Nobody dies -----

  predicate NobodyDies(steps: seq<Step>) {
    forall s | s in steps :: !s.Die?
  }

  /** No process is gone, no record read names one that is, and so none is being reclaimed from. */
  ghost predicate Living(w: World) {
    forall p | p in w.procs :: ProcessLives(w, w.procs[p].phase)
  }

  predicate ProcessLives(w: World, phase: Phase) {
    && phase != Dead && !phase.Reclaiming?
    && (phase.Checking? && phase.recorded > 0 ==> w.Alive(phase.recorded))
  }

  lemma StepKeepsAlive(w: World, s: Step, pid: nat)
    requires Enabled(w, s) && !s.Die? && w.Alive(pid)
    ensures Apply(w, s).Alive(pid)
  {
    var p :| p in w.procs && w.procs[p].pid == pid && w.procs[p].phase != Dead;
    var v := Apply(w, s);
    assert p in v.procs && v.procs[p].pid == pid && v.procs[p].phase != Dead;
  }

  lemma RecordedIsAlive(w: World)
    requires Sound(w) && Living(w) && w.Recorded() > 0
    ensures w.Alive(w.Recorded())
  {
    var file := w.files[w.path.value];
    assert RecordsCreator(w, file);
    assert w.procs[file.creator].pid == w.Recorded() && ProcessLives(w, w.procs[file.creator].phase);
  }

  lemma StepKeepsLiving(w: World, s: Step)
    requires Sound(w) && Living(w) && Enabled(w, s) && !s.Die?
    ensures Living(Apply(w, s)) && !Stray(w, s)
  {
    hide Sound;
    var v := Apply(w, s);
    assert forall p | p in w.procs :: ProcessLives(w, w.procs[p].phase);
    forall p | p in v.procs ensures ProcessLives(v, v.procs[p].phase) {
      var phase := v.procs[p].phase;
      if p != s.p {
        assert phase == w.procs[p].phase;
      } else if s.Read? && w.Recorded() > 0 {
        RecordedIsAlive(w);
      }
      if phase.Checking? && phase.recorded > 0 {
        StepKeepsAlive(w, s, phase.recorded);
      }
    }
  }

  lemma {:induction false} WithoutDeathsNoStray(w: World, steps: seq<Step>)
    requires Sound(w) && Living(w) && Runs(w, steps) && NobodyDies(steps)
    ensures Living(After(w, steps)) && StrayFree(w, steps)
    decreases |steps|
  {
    hide Sound, Living, Stray, Apply, Enabled;
    if steps != [] {
      var n := |steps| - 1;
      WithoutDeathsNoStray(w, steps[..n]);
      RunKeepsSound(w, steps[..n]);
      StepKeepsLiving(After(w, steps[..n]), steps[n]);
    }
  }

  /** From an empty directory, while no process dies, at most one owns the lock. */
  lemma ExclusiveWithoutDeaths(steps: seq<Step>)
    requires Runs(EMPTY, steps) && NobodyDies(steps)
    ensures Exclusive(After(EMPTY, steps))
  {
    hide Runs, After, StrayFree, Exclusive;
    EmptyIsGuarded();
    WithoutDeathsNoStray(EMPTY, steps);
    StrayFreeRunsExclude(EMPTY, steps);
  }

  /** A file at the path is still owned by the process that created it. */
  ghost predicate InUse(w: World) {
    w.path.Some? ==>
      && w.path.value < |w.files|
      && var creator := w.files[w.path.value].creator;
         w.Owner(creator) && w.Phase(creator).inode == w.path.value
  }

  lemma StepKeepsInUse(w: World, s: Step)
    requires Guarded(w) && InUse(w) && Enabled(w, s) && !s.Die?
    ensures InUse(Apply(w, s))
  {
    hide World.Alive, World.Recorded;
    var v := Apply(w, s);
    StepKeepsSound(w, s);
    if v.path.Some? {
      var creator := v.files[v.path.value].creator;
      if creator != s.p {
        OthersStay(w, s, creator);
      }
      assert s.Remove? ==> w.Owner(s.p);
    }
  }

  /** While no process dies, the lock file is there exactly as long as a process owns the lock. */
  lemma {:induction false} NothingIsLeftBehind(steps: seq<Step>)
    requires Runs(EMPTY, steps) && NobodyDies(steps)
    ensures var w := After(EMPTY, steps);
      InUse(w) && (w.path.Some? <==> exists p :: w.Owner(p))
    decreases |steps|
  {
    hide Apply, Enabled, Living, Stray;
    EmptyIsGuarded();
    WithoutDeathsNoStray(EMPTY, steps);
    StrayFreeRunsExclude(EMPTY, steps);
    if steps != [] {
      var n := |steps| - 1;
      NothingIsLeftBehind(steps[..n]);
      StrayFreeRunsExclude(EMPTY, steps[..n]);
      StepKeepsInUse(After(EMPTY, steps[..n]), steps[n]);
    }
    var w := After(EMPTY, steps);
    assert w.path.Some? ==> w.Owner(w.files[w.path.value].creator);
  }

  // ----- Reclaiming at one stroke -----

  /** Reading, checking and unlinking follow one another with no other step between. */
  predicate ReclaimsAtOnce(steps: seq<Step>) {
    forall i | 0 <= i < |steps| && steps[i].Unlink? ::
      i >= 2 && steps[i - 2] == Read(steps[i].p) && steps[i - 1] == Check(steps[i].p)
  }

  lemma ImmediateUnlinkIsNotStray(w: World, p: nat)
    requires Sound(w) && Enabled(w, Read(p)) && Enabled(Apply(w, Read(p)), Check(p))
    ensures !Stray(Apply(Apply(w, Read(p)), Check(p)), Unlink(p))
      || !Enabled(Apply(Apply(w, Read(p)), Check(p)), Unlink(p))
  {
    var u := Apply(w, Read(p));
    var v := Apply(u, Check(p));
    if Enabled(v, Unlink(p)) && v.path.Some? && v.path.value < |v.files| {
      var file := v.files[v.path.value];
      assert RecordsCreator(w, w.files[w.path.value]);
      assert w.Recorded() > 0 && file.recorded == u.procs[file.creator].pid;
      assert !u.Alive(file.recorded);
      assert u.procs[file.creator].phase == Dead;
    }
  }

  lemma {:induction false} AtOnceNoStray(w: World, steps: seq<Step>)
    requires Sound(w) && Runs(w, steps) && ReclaimsAtOnce(steps)
    ensures StrayFree(w, steps)
    decreases |steps|
  {
    hide Sound, Apply, Enabled;
    if steps != [] {
      var n := |steps| - 1;
      var before := steps[..n];
      AtOnceNoStray(w, before);
      if steps[n].Unlink? {
        assert before[..n - 1][..n - 2] == steps[..n - 2];
        assert before[n - 1] == steps[n - 1] && before[..n - 1][n - 2] == steps[n - 2];
        RunKeepsSound(w, steps[..n - 2]);
        ImmediateUnlinkIsNotStray(After(w, steps[..n - 2]), steps[n].p);
      }
    }
  }

  /**
   * From an empty directory, with any processes dying at any point and pids handed out again, at
   * most one process owns the lock if reclaiming is one stroke.
   */
  lemma ExclusiveWhenReclaimingAtOnce(steps: seq<Step>)
    requires Runs(EMPTY, steps) && ReclaimsAtOnce(steps)
    ensures Exclusive(After(EMPTY, steps))
  {
    hide Runs, After, StrayFree, Exclusive, ReclaimsAtOnce;
    EmptyIsGuarded();
    AtOnceNoStray(EMPTY, steps);
    StrayFreeRunsExclude(EMPTY, steps);
  }

  // ----- The exact role of stray unlinks -----

  lemma Extend(w: World, steps: seq<Step>, s: Step)
    requires Runs(w, steps) && Enabled(After(w, steps), s)
    ensures Runs(w, steps + [s]) && After(w, steps + [s]) == Apply(After(w, steps), s)
    ensures StrayFree(w, steps) && !Stray(After(w, steps), s) ==> StrayFree(w, steps + [s])
  {
    hide Enabled, Apply;
    assert (steps + [s])[..|steps|] == steps;
  }

  lemma NoSteps(w: World)
    ensures Runs(w, []) && After(w, []) == w && StrayFree(w, [])
  {
  }

  ghost function Above(s: set<nat>): (n: nat)
    ensures n !in s && forall k | k in s :: k < n
  {
    if s == {} then 0
    else
      var k :| k in s;
      var n := Above(s - {k});
      assert s == (s - {k}) + {k};
      if k < n then n else k + 1
  }

  /** A newcomer can own the lock whenever the path is free. */
  lemma NewcomerAcquires(w: World, newcomer: nat)
    requires newcomer !in w.procs && w.path.None?
    ensures exists steps ::
      && Runs(w, steps) && StrayFree(w, steps) && After(w, steps).Owner(newcomer)
      && forall q | w.Owner(q) :: After(w, steps).Owner(q)
  {
    hide Runs, After, StrayFree;
    var pids := set p | p in w.procs :: w.procs[p].pid;
    var pid := Above(pids) + 1;
    forall p | p in w.procs ensures w.procs[p].pid != pid {
      assert w.procs[p].pid in pids;
    }
    NoSteps(w);
    Extend(w, [], Spawn(newcomer, pid));
    var one := [] + [Spawn(newcomer, pid)];
    Extend(w, one, Start(newcomer));
    var two := one + [Start(newcomer)];
    Extend(w, two, Create(newcomer));
    var three := two + [Create(newcomer)];
    assert Runs(w, three) && StrayFree(w, three) && After(w, three).Owner(newcomer);
  }

  /**
   * The hypothesis cannot be weakened: after a step that is a stray unlink some continuation
   * without further ones ends with two owners, and after any other step none does.
   */
  lemma StrayUnlinkIsExact(w: World, s: Step)
    requires Guarded(w) && Enabled(w, s)
    ensures Stray(w, s) <==>
      exists steps :: Runs(Apply(w, s), steps) && StrayFree(Apply(w, s), steps) && !Exclusive(After(Apply(w, s), steps))
  {
    hide Runs, After, StrayFree, Guarded;
    var v := Apply(w, s);
    if Stray(w, s) {
      var creator := w.files[w.path.value].creator;
      assert v.Owner(creator);
      var newcomer := Above(v.procs.Keys);
      NewcomerAcquires(v, newcomer);
      var steps :| Runs(v, steps) && StrayFree(v, steps) && After(v, steps).Owner(newcomer)
        && forall q | v.Owner(q) :: After(v, steps).Owner(q);
      assert After(v, steps).Owner(creator) && creator != newcomer;
    } else {
      StepKeepsGuarded(w, s);
      forall steps | Runs(v, steps) && StrayFree(v, steps) ensures Exclusive(After(v, steps)) {
        StrayFreeRunsExclude(v, steps);
      }
    }
  }

  /** While an owner neither dies nor removes its file, no acquire of another process touches the lock. */
  lemma {:induction false} LockSurvives(w: World, steps: seq<Step>, q: nat)
    requires Guarded(w) && Runs(w, steps) && StrayFree(w, steps) && w.Owner(q)
    requires Die(q) !in steps && Remove(q) !in steps
    ensures var v := After(w, steps);
      v.Owner(q) && v.path == w.path && v.Phase(q).inode == w.Phase(q).inode
    decreases |steps|
  {
    hide Guarded, Stray, Apply, Enabled, World.Owner, World.Phase;
    if steps != [] {
      var n := |steps| - 1;
      assert steps[n] in steps;
      LockSurvives(w, steps[..n], q);
      StrayFreeRunsExclude(w, steps[..n]);
      OwnerKeepsLock(After(w, steps[..n]), steps[n], q);
    }
  }

  lemma OwnerKeepsLock(w: World, s: Step, q: nat)
    requires Guarded(w) && Enabled(w, s) && !Stray(w, s) && w.Owner(q)
    requires s != Die(q) && s != Remove(q)
    ensures var v := Apply(w, s);
      v.Owner(q) && v.path == w.path && v.Phase(q).inode == w.Phase(q).inode
  {
    if s.Remove? && s.p != q {
      assert w.Owner(s.p);
    }
  }

  // ----- What goes wrong otherwise -----

  ghost predicate Reaches(w: World, v: World) {
    exists steps :: Runs(w, steps) && After(w, steps) == v
  }

  lemma {:induction false} ReachesFurther(w: World, steps: seq<Step>, more: seq<Step>)
    requires Runs(w, steps) && Runs(After(w, steps), more)
    ensures Runs(w, steps + more) && After(w, steps + more) == After(After(w, steps), more)
    decreases |more|
  {
    hide Enabled, Apply;
    if more == [] {
      assert steps + more == steps;
    } else {
      var n := |more| - 1;
      ReachesFurther(w, steps, more[..n]);
      Extend(w, steps + more[..n], more[n]);
      assert steps + more == steps + more[..n] + [more[n]];
    }
  }

  lemma ReachesBeyond(u: World, v: World, w: World)
    requires Reaches(u, v) && Reaches(v, w)
    ensures Reaches(u, w)
  {
    hide Runs, After;
    var a :| Runs(u, a) && After(u, a) == v;
    var b :| Runs(v, b) && After(v, b) == w;
    ReachesFurther(u, a, b);
  }

  lemma ReachesNext(w: World, v: World, s: Step, u: World)
    requires Reaches(w, v) && Enabled(v, s)
    requires Apply(v, s).procs == u.procs && Apply(v, s).files == u.files && Apply(v, s).path == u.path
    ensures Reaches(w, u)
  {
    hide Runs, After, Enabled, Apply;
    assert Apply(v, s) == u;
    var steps :| Runs(w, steps) && After(w, steps) == v;
    Extend(w, steps, s);
  }

  lemma ReachesItself(w: World)
    ensures Reaches(w, w)
  {
    NoSteps(w);
  }

  const THREE := map[1 := Process(101, Idle), 2 := Process(102, Idle), 3 := Process(103, Idle)]

  lemma ThreeStart()
    ensures Reaches(EMPTY, World(THREE, [], None))
  {
    hide Reaches;
    var a := World(map[1 := Process(101, Idle)], [], None);
    var b := World(map[1 := Process(101, Idle), 2 := Process(102, Idle)], [], None);
    ReachesItself(EMPTY);
    ReachesNext(EMPTY, EMPTY, Spawn(1, 101), a);
    ReachesNext(EMPTY, a, Spawn(2, 102), b);
    ReachesNext(EMPTY, b, Spawn(3, 103), World(THREE, [], None));
  }

  lemma HolderDies()
    ensures Reaches(World(THREE, [], None), World(THREE[1 := Process(101, Dead)], [File(1, 101)], Some(0)))
  {
    hide Reaches;
    var w := World(THREE, [], None);
    var a := World(THREE[1 := Process(101, Opening(0))], [], None);
    var b := World(THREE[1 := Process(101, Created(0))], [File(1, 0)], Some(0));
    var c := World(THREE[1 := Process(101, Holding(0))], [File(1, 101)], Some(0));
    ReachesItself(w);
    ReachesNext(w, w, Start(1), a);
    ReachesNext(w, a, Create(1), b);
    ReachesNext(w, b, Write(1, true), c);
    ReachesNext(w, c, Die(1), World(THREE[1 := Process(101, Dead)], [File(1, 101)], Some(0)));
  }

  function DeadHolder(two: Phase): World {
    World(THREE[1 := Process(101, Dead)][2 := Process(102, two)], [File(1, 101)], Some(0))
  }

  lemma HolderIsGone(p: nat, two: Phase, phase: Phase)
    requires (p == 2 || p == 3) && phase != Dead
    ensures !DeadHolder(two).To(p, phase).Alive(101)
  {
  }

  /** A process that finds the dead holder's file has made up its mind to unlink it. */
  lemma DecidesToReclaim(two: Phase, p: nat)
    requires (p == 2 && two == Idle) || (p == 3 && two == Reclaiming(0))
    ensures Reaches(DeadHolder(two), DeadHolder(two).To(p, Reclaiming(0)))
  {
    hide Reaches, World.Alive;
    var w := DeadHolder(two);
    ReachesItself(w);
    ReachesNext(w, w, Start(p), w.To(p, Opening(0)));
    ReachesNext(w, w.To(p, Opening(0)), Create(p), w.To(p, Blocked(0)));
    ReachesNext(w, w.To(p, Blocked(0)), Read(p), w.To(p, Checking(0, 101)));
    HolderIsGone(p, two, Checking(0, 101));
    ReachesNext(w, w.To(p, Checking(0, 101)), Check(p), w.To(p, Reclaiming(0)));
  }

  lemma TwoDecide()
    ensures Reaches(EMPTY, DeadHolder(Reclaiming(0)).To(3, Reclaiming(0)))
  {
    hide Reaches;
    var dead := World(THREE[1 := Process(101, Dead)], [File(1, 101)], Some(0));
    assert dead.procs[2 := Process(102, Idle)] == dead.procs;
    assert DeadHolder(Idle).To(2, Reclaiming(0)).procs == DeadHolder(Reclaiming(0)).procs;
    ThreeStart();
    HolderDies();
    ReachesBeyond(EMPTY, World(THREE, [], None), dead);
    DecidesToReclaim(Idle, 2);
    ReachesBeyond(EMPTY, dead, DeadHolder(Reclaiming(0)));
    DecidesToReclaim(Reclaiming(0), 3);
    ReachesBeyond(EMPTY, DeadHolder(Reclaiming(0)), DeadHolder(Reclaiming(0)).To(3, Reclaiming(0)));
  }

  /** Two processes find the same dead holder; the slower one then unlinks the faster one's lock. */
  lemma InterleavedReclaimBreaksExclusion()
    ensures exists w :: Reaches(EMPTY, w) && !Exclusive(w)
  {
    hide Reaches, World.Alive;
    TwoDecide();
    var w2 := DeadHolder(Reclaiming(0)).To(3, Reclaiming(0));
    var w3 := w2.To(3, Opening(1)).(path := None);
    ReachesNext(EMPTY, w2, Unlink(3), w3);
    var w4 := w3.To(3, Created(1)).(files := [File(1, 101), File(3, 0)], path := Some(1));
    ReachesNext(EMPTY, w3, Create(3), w4);
    var w5 := w4.To(2, Opening(1)).(path := None);
    ReachesNext(EMPTY, w4, Unlink(2), w5);
    var w6 := Apply(w5, Create(2));
    ReachesNext(EMPTY, w5, Create(2), w6);
    assert w6.Owner(2) && w6.Owner(3);
  }

  // ----- A lock that is blocked for good -----

  /** Some continuation ends with an owner. */
  ghost predicate CanBeOwned(w: World) {
    exists steps, p :: Runs(w, steps) && After(w, steps).Owner(p)
  }

  /** No owner, no reclaimer, and no checker whose check could fail: its own pid is alive while it checks. */
  predicate Harmless(process: Process) {
    && !process.phase.Owns() && !process.phase.Reclaiming?
    && (process.phase.Checking? ==> process.phase.recorded == 0 || process.phase.recorded == process.pid)
  }

  /** A file that records nothing, left by a process that is gone. */
  predicate Orphaned(w: World) {
    w.path.Some? && w.Recorded() == 0 && forall p | p in w.procs :: Harmless(w.procs[p])
  }

  predicate DistinctPids(w: World) {
    forall p, q | p in w.procs && q in w.procs && w.procs[p].phase != Dead && w.procs[q].phase != Dead ::
      w.procs[p].pid == w.procs[q].pid ==> p == q
  }

  lemma OrphanStays(w: World, s: Step)
    requires Orphaned(w) && Enabled(w, s)
    ensures Orphaned(Apply(w, s)) && Apply(w, s).path == w.path
  {
    assert forall p | p in w.procs :: Harmless(w.procs[p]);
    if s.Check? {
      var process := w.procs[s.p];
      assert process.phase != Dead && w.Alive(process.pid);
    }
  }

  /** A blocked lock stays so: the file is never reclaimed, and no process ever owns it. */
  lemma {:induction false} OrphanBlocksForever(w: World, steps: seq<Step>)
    requires Orphaned(w) && Runs(w, steps)
    ensures Orphaned(After(w, steps)) && After(w, steps).path == w.path
    ensures forall p :: !After(w, steps).Owner(p)
    decreases |steps|
  {
    hide Apply, Enabled, Orphaned, World.Owner;
    if steps != [] {
      var n := |steps| - 1;
      OrphanBlocksForever(w, steps[..n]);
      OrphanStays(After(w, steps[..n]), steps[n]);
    }
    OrphanHasNoOwner(After(w, steps));
  }

  lemma OrphanHasNoOwner(w: World)
    requires Orphaned(w)
    ensures forall p :: !w.Owner(p)
  {
    assert forall p | p in w.procs :: Harmless(w.procs[p]);
  }

  lemma OwnedSoon(w: World, s: Step)
    requires Enabled(w, s) && CanBeOwned(Apply(w, s))
    ensures CanBeOwned(w)
  {
    hide Enabled, Apply, Runs, After, World.Owner;
    var steps, p :| Runs(Apply(w, s), steps) && After(Apply(w, s), steps).Owner(p);
    NoSteps(w);
    Extend(w, [], s);
    ReachesFurther(w, [] + [s], steps);
  }

  lemma FreeCanBeOwned(w: World)
    requires w.path.None?
    ensures CanBeOwned(w)
  {
    hide Runs, After, StrayFree, World.Owner;
    NewcomerAcquires(w, Above(w.procs.Keys));
  }

  lemma ReclaimedCanBeOwned(w: World, p: nat)
    requires w.Phase(p).Reclaiming?
    ensures CanBeOwned(w)
  {
    hide CanBeOwned;
    FreeCanBeOwned(Apply(w, Unlink(p)));
    OwnedSoon(w, Unlink(p));
  }

  /** A checker finds the recorded process gone, once that has died. */
  lemma CheckedCanBeOwned(w: World, p: nat)
    requires DistinctPids(w) && w.Phase(p).Checking?
    requires w.Phase(p).recorded > 0 && w.Phase(p).recorded != w.procs[p].pid
    ensures CanBeOwned(w)
  {
    hide CanBeOwned;
    var recorded := w.Phase(p).recorded;
    if w.Alive(recorded) {
      var q :| q in w.procs && w.procs[q].pid == recorded && w.procs[q].phase != Dead;
      var v := Apply(w, Die(q));
      assert !v.Alive(recorded) && v.Phase(p) == w.Phase(p);
      GoneCanBeOwned(v, p);
      OwnedSoon(w, Die(q));
    } else {
      GoneCanBeOwned(w, p);
    }
  }

  lemma GoneCanBeOwned(w: World, p: nat)
    requires w.Phase(p).Checking? && w.Phase(p).recorded > 0 && !w.Alive(w.Phase(p).recorded)
    ensures CanBeOwned(w)
  {
    hide CanBeOwned;
    ReclaimedCanBeOwned(Apply(w, Check(p)), p);
    OwnedSoon(w, Check(p));
  }

  lemma StepKeepsDistinct(w: World, s: Step)
    requires DistinctPids(w) && Enabled(w, s)
    ensures DistinctPids(Apply(w, s))
  {
    hide World.Recorded;
  }

  /** A newcomer reads what is recorded, and some other pid it is. */
  lemma RecordedCanBeOwned(w: World)
    requires DistinctPids(w) && w.path.Some? && w.Recorded() > 0
    ensures CanBeOwned(w)
  {
    hide CanBeOwned, DistinctPids;
    var p := Above(w.procs.Keys);
    var pids := (set q | q in w.procs :: w.procs[q].pid) + {w.Recorded()};
    var pid := Above(pids) + 1;
    forall q | q in w.procs ensures w.procs[q].pid != pid {
      assert w.procs[q].pid in pids;
    }
    assert pid != w.Recorded();
    StepKeepsDistinct(w, Spawn(p, pid));
    var a := Apply(w, Spawn(p, pid));
    StepKeepsDistinct(a, Start(p));
    var b := Apply(a, Start(p));
    StepKeepsDistinct(b, Create(p));
    var c := Apply(b, Create(p));
    StepKeepsDistinct(c, Read(p));
    var d := Apply(c, Read(p));
    assert d.Phase(p) == Checking(0, w.Recorded()) && d.procs[p].pid == pid;
    CheckedCanBeOwned(d, p);
    OwnedSoon(c, Read(p));
    OwnedSoon(b, Create(p));
    OwnedSoon(a, Start(p));
    OwnedSoon(w, Spawn(p, pid));
  }

  /** Exactly when no continuation has an owner. */
  lemma OrphanIsExact(w: World)
    requires DistinctPids(w)
    ensures !CanBeOwned(w) <==> Orphaned(w)
  {
    hide CanBeOwned, DistinctPids, World.Recorded;
    if Orphaned(w) {
      OrphanCannotBeOwned(w);
    } else if w.path.None? {
      FreeCanBeOwned(w);
    } else if w.Recorded() > 0 {
      RecordedCanBeOwned(w);
    } else {
      var p :| p in w.procs && !Harmless(w.procs[p]);
      if w.procs[p].phase.Owns() {
        OwnedAlready(w, p);
      } else if w.procs[p].phase.Reclaiming? {
        ReclaimedCanBeOwned(w, p);
      } else {
        CheckedCanBeOwned(w, p);
      }
    }
  }

  lemma OrphanCannotBeOwned(w: World)
    requires Orphaned(w)
    ensures !CanBeOwned(w)
  {
    hide Runs, After, Orphaned, World.Owner;
    forall steps, p | Runs(w, steps) ensures !After(w, steps).Owner(p) {
      OrphanBlocksForever(w, steps);
    }
  }

  lemma OwnedAlready(w: World, p: nat)
    requires w.Owner(p)
    ensures CanBeOwned(w)
  {
    NoSteps(w);
    assert After(w, []).Owner(p);
  }

  /** Of every state that processes can bring about from an empty directory. */
  lemma {:induction false} OrphansExactly(steps: seq<Step>)
    requires Runs(EMPTY, steps)
    ensures DistinctPids(After(EMPTY, steps))
    ensures !CanBeOwned(After(EMPTY, steps)) <==> Orphaned(After(EMPTY, steps))
    decreases |steps|
  {
    hide Apply, Enabled, CanBeOwned, Orphaned, DistinctPids;
    if steps == [] {
      EmptyHasDistinctPids();
    } else {
      var n := |steps| - 1;
      OrphansExactly(steps[..n]);
      StepKeepsDistinct(After(EMPTY, steps[..n]), steps[n]);
    }
    OrphanIsExact(After(EMPTY, steps));
  }

  lemma EmptyHasDistinctPids()
    ensures DistinctPids(EMPTY)
  {
  }

  /** A process that dies between creating its lock file and writing it blocks the lock. */
  lemma DyingEarlyOrphans()
    ensures exists w :: Reaches(EMPTY, w) && Orphaned(w)
  {
    hide Reaches;
    var a := World(map[1 := Process(101, Idle)], [], None);
    var b := World(map[1 := Process(101, Opening(0))], [], None);
    var c := World(map[1 := Process(101, Created(0))], [File(1, 0)], Some(0));
    var d := World(map[1 := Process(101, Dead)], [File(1, 0)], Some(0));
    ReachesItself(EMPTY);
    ReachesNext(EMPTY, EMPTY, Spawn(1, 101), a);
    ReachesNext(EMPTY, a, Start(1), b);
    ReachesNext(EMPTY, b, Create(1), c);
    ReachesNext(EMPTY, c, Die(1), d);
    assert Orphaned(d);
  }

  lemma AtOnceSoFar(trace: seq<Step>, s: Step)
    requires ReclaimsAtOnce(trace)
    requires s.Unlink? ==> |trace| >= 2 && trace[|trace| - 2] == Read(s.p) && trace[|trace| - 1] == Check(s.p)
    ensures ReclaimsAtOnce(trace + [s])
  {
    var longer := trace + [s];
    forall i | 0 <= i < |longer| && longer[i].Unlink?
      ensures i >= 2 && longer[i - 2] == Read(longer[i].p) && longer[i - 1] == Check(longer[i].p)
    {
      if i < |trace| {
        assert trace[i].Unlink?;
      }
    }
  }

  // ----- Every try ends -----

  /** At most two attempts: the steps that a process can still take before it is idle again. */
  function StepsLeft(phase: Phase): nat {
    match phase
    case Opening(attempt) => if attempt == 0 then 8 else 4
    case Blocked(attempt) => if attempt == 0 then 7 else 3
    case Checking(attempt, _) => if attempt == 0 then 6 else 2
    case Reclaiming(attempt) => if attempt == 0 then 5 else 1
    case Created(_) => 3
    case Holding(_) => 2
    case Closed(_) => 1
    case _ => 0
  }

  predicate TriesTwice(phase: Phase) {
    phase.Opening? || phase.Blocked? || phase.Checking? || phase.Reclaiming? ==> phase.attempt < 2
  }

  ghost predicate AllTryTwice(w: World) {
    forall p | p in w.procs :: TriesTwice(w.procs[p].phase)
  }

  /** Whatever the others do, a step of its own brings a process nearer to the end, and theirs does not move it. */
  lemma StepEndsTry(w: World, s: Step)
    requires AllTryTwice(w) && Enabled(w, s)
    ensures AllTryTwice(Apply(w, s))
    ensures !s.Spawn? && !s.Die? && !s.Start? ==> StepsLeft(Apply(w, s).Phase(s.p)) < StepsLeft(w.Phase(s.p))
    ensures forall q | q != s.p :: Apply(w, s).Phase(q) == w.Phase(q)
  {
    hide World.Alive, World.Recorded;
    assert s.p in w.procs ==> TriesTwice(w.procs[s.p].phase);
    var v := Apply(w, s);
    forall q | q in v.procs ensures TriesTwice(v.procs[q].phase) {
      if q != s.p {
        OthersStay(w, s, q);
        assert TriesTwice(w.procs[q].phase);
      }
    }
    forall q | q != s.p ensures v.Phase(q) == w.Phase(q) {
      OthersStay(w, s, q);
    }
  }

  function OwnSteps(steps: seq<Step>, p: nat): nat {
    if steps == [] then 0
    else
      var last := steps[|steps| - 1];
      OwnSteps(steps[..|steps| - 1], p) + if last.p == p && !last.Spawn? && !last.Die? && !last.Start? then 1 else 0
  }

  function Starts(steps: seq<Step>, p: nat): nat {
    if steps == [] then 0
    else Starts(steps[..|steps| - 1], p) + if steps[|steps| - 1] == Start(p) then 1 else 0
  }

  /** Over any run, acquiring and releasing takes a process at most eight steps each time it starts. */
  lemma {:induction false} TriesAreBounded(steps: seq<Step>, p: nat)
    requires Runs(EMPTY, steps)
    ensures AllTryTwice(After(EMPTY, steps))
    ensures OwnSteps(steps, p) + StepsLeft(After(EMPTY, steps).Phase(p)) <= 8 * Starts(steps, p)
    decreases |steps|
  {
    hide Enabled, Apply, AllTryTwice;
    if steps == [] {
      NobodyTries();
    } else {
      var n := |steps| - 1;
      TriesAreBounded(steps[..n], p);
      var w := After(EMPTY, steps[..n]);
      StepEndsTry(w, steps[n]);
      if steps[n].Spawn? || steps[n].Die? || steps[n].Start? {
        StartsAfresh(w, steps[n]);
      }
    }
  }

  lemma NobodyTries()
    ensures AllTryTwice(EMPTY) && StepsLeft(Dead) == 0
  {
  }

  lemma StartsAfresh(w: World, s: Step)
    requires Enabled(w, s) && (s.Spawn? || s.Die? || s.Start?)
    ensures StepsLeft(Apply(w, s).Phase(s.p)) == if s.Start? then 8 else 0
    ensures s.Start? ==> StepsLeft(w.Phase(s.p)) == 0
  {
  }

  // ----- The code, as one process runs it while the others stand still -----

  predicate Stale(w: World) {
    w.Recorded() > 0 && !w.Alive(w.Recorded())
  }

  /** A process that keeps on living changes nobody's mind about who is alive. */
  lemma StaleIgnoresPhase(w: World, p: nat, phase: Phase)
    requires p in w.procs && w.procs[p].phase != Dead && phase != Dead
    ensures Stale(w.To(p, phase)) == Stale(w)
  {
    var v := w.To(p, phase);
    forall pid ensures v.Alive(pid) <==> w.Alive(pid) {
      if w.Alive(pid) {
        var q :| q in w.procs && w.procs[q].pid == pid && w.procs[q].phase != Dead;
        assert q in v.procs && v.procs[q].pid == pid && v.procs[q].phase != Dead;
      }
    }
  }

  /** What each step of an acquire does when its turn comes. */
  lemma TakenAlone(w: World, p: nat, written: bool)
    requires p in w.procs
    ensures w.Phase(p).Idle? ==> Enabled(w, Start(p)) && Apply(w, Start(p)) == w.To(p, Opening(0))
    ensures w.Phase(p).Opening? ==> Enabled(w, CreateFails(p)) && Apply(w, CreateFails(p)) == w.To(p, Idle)
    ensures w.Phase(p).Opening? ==>
      && Enabled(w, Create(p))
      && var v := Apply(w, Create(p));
         if w.path.Some? then v == w.To(p, Blocked(w.Phase(p).attempt))
         else v.Phase(p) == Created(|w.files|) && v.path == Some(|w.files|) && |v.files| == |w.files| + 1
              && v.files[|w.files|].recorded == 0 && v.procs[p].pid == w.procs[p].pid
    ensures w.Phase(p).Created? && w.path == Some(w.Phase(p).inode) && w.Phase(p).inode < |w.files| ==>
      && Enabled(w, Write(p, written))
      && var v := Apply(w, Write(p, written));
         && v.Recorded() == (if written then w.procs[p].pid else w.files[w.Phase(p).inode].recorded)
         && v.path == w.path && v.Phase(p) == Holding(w.Phase(p).inode)
  {
  }

  lemma ToTwice(w: World, p: nat, one: Phase, two: Phase)
    requires p in w.procs
    ensures w.To(p, one).To(p, two) == w.To(p, two) && w.To(p, one).(path := w.path) == w.To(p, one)
    ensures w.Phase(p) == two ==> w.To(p, two) == w
  {
    if w.Phase(p) == two {
      assert w.procs[p := w.procs[p].(phase := two)] == w.procs;
    }
    assert w.To(p, one).To(p, two).procs == w.To(p, two).procs;
  }

  class Lock {
    const me: nat
    var fd: Option<nat>
    var world: World
    ghost const start: World
    ghost var trace: seq<Step>

    /** What the object has done is a run of the steps above, with every reclaim at one stroke. */
    ghost predicate Traced()
      reads this`world, this`trace
    {
      && Runs(start, trace) && world == After(start, trace)
      && ReclaimsAtOnce(trace) && forall s | s in trace :: s.p == me
    }

    ghost predicate Valid()
      reads this
    {
      Traced() && world.Phase(me) == if fd.Some? then Holding(fd.value) else Idle
    }

    constructor (me: nat, world: World)
      requires world.Phase(me) == Idle
      ensures Valid() && fd == None && this.me == me && this.world == world && start == world
    {
      this.me, this.world, fd := me, world, None;
      start, trace := world, [];
    }

    method Take(s: Step)
      requires Traced() && Enabled(world, s) && s.p == me
      requires s.Unlink? ==> |trace| >= 2 && trace[|trace| - 2] == Read(me) && trace[|trace| - 1] == Check(me)
      modifies this`world, this`trace
      ensures Traced() && world == Apply(old(world), s) && trace == old(trace) + [s]
    {
      hide Apply, Enabled, Runs, After, ReclaimsAtOnce;
      Extend(start, trace, s);
      AtOnceSoFar(trace, s);
      world := Apply(world, s);
      trace := trace + [s];
    }

    /** The look at an existing lock file: reclaimed if and only if its recorded process is gone. */
    method ReclaimIfStale() returns (reclaimed: bool)
      requires Traced() && world.Phase(me).Blocked?
      modifies this`world, this`trace
      ensures Traced() && reclaimed == Stale(old(world))
      ensures world ==
        if !reclaimed then old(world).To(me, Idle)
        else
          var next := old(world).Phase(me).attempt + 1;
          old(world).To(me, if next < ATTEMPTS then Opening(next) else Idle).(path := None)
    {
      hide Runs, After, ReclaimsAtOnce;
      var attempt := world.Phase(me).attempt;
      Take(Read(me));
      assert world == old(world).To(me, Checking(attempt, old(world).Recorded()));
      StaleIgnoresPhase(old(world), me, Checking(attempt, old(world).Recorded()));
      Take(Check(me));
      reclaimed := world.Phase(me).Reclaiming?;
      if reclaimed {
        Take(Unlink(me));
      }
    }

    /** `acquire`: `errors[n]` is an open error other than "exists" at attempt n. */
    method Acquire(errors: seq<bool>, written: bool) returns (acquired: bool)
      requires Valid() && fd == None && |errors| == ATTEMPTS
      modifies this
      ensures Valid() && (acquired <==> fd.Some?)
      ensures acquired <==> !errors[0] && (old(world).path.None? || (Stale(old(world)) && !errors[1]))
      ensures acquired ==>
        && world.path == fd && fd.value == |old(world).files|
        && world.Recorded() == if written then old(world).procs[me].pid else 0
      ensures !acquired ==>
        world == if !errors[0] && Stale(old(world)) then old(world).(path := None) else old(world)
    {
      hide Runs, After, ReclaimsAtOnce, Traced, Enabled, Apply, World.Alive, World.Recorded, Stale;
      ghost var w := world;
      TakenAlone(w, me, written);
      Take(Start(me));
      var attempt := 0;
      while attempt < ATTEMPTS
        invariant Traced() && fd == None && attempt < ATTEMPTS
        invariant world == w.To(me, Opening(attempt)).(path := if attempt == 0 then w.path else None)
        invariant attempt == 1 ==> !errors[0] && w.path.Some? && Stale(w)
        decreases ATTEMPTS - attempt
      {
        TakenAlone(world, me, written);
        ToTwice(w, me, Opening(attempt), Idle);
        ToTwice(w, me, Opening(attempt), Blocked(attempt));
        ToTwice(w, me, Blocked(attempt), Idle);
        ToTwice(w, me, Blocked(attempt), Opening(attempt + 1));
        if errors[attempt] {
          Take(CreateFails(me));
          return false;
        }
        Take(Create(me));
        if world.Phase(me).Created? {
          TakenAlone(world, me, written);
          fd := Some(world.Phase(me).inode);
          Take(Write(me, written));
          return true;
        }
        assert world == w.To(me, Blocked(0));
        StaleIgnoresPhase(w, me, Blocked(0));
        var reclaimed := ReclaimIfStale();
        if !reclaimed {
          return false;
        }
        attempt := attempt + 1;
      }
      acquired := false;
    }

    /** `release`, which the destructor calls too: without a descriptor it touches nothing. */
    method Release()
      requires Valid()
      modifies this
      ensures Valid() && fd == None
      ensures old(fd) == None ==> world == old(world)
      ensures old(fd).Some? ==> world == old(world).To(me, Idle).(path := None)
    {
      hide Runs, After, ReclaimsAtOnce;
      if fd.Some? {
        Take(Close(me));
        Take(Remove(me));
        fd := None;
      }
    }
  }
}
