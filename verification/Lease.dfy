/** Runs that share a toolchain directory: a lock taken with `mkdir`, and trees that are frozen while cases run. */
module Lease {
  import opened ByteStrings

  /** A path below the toolchain directory, by components; the directory itself is the empty path. */
  type Path = seq<string>

  datatype Node = Node(link: bool, writable: bool)

  type Files = map<Path, Node>

  /** Which of the three shared trees a path lies in; three for none of them. */
  function TreeOf(p: Path): nat {
    if p == [] then 3 else if p[0] == "bin" then 0 else if p[0] == "python" then 1 else if p[0] == "uv" then 2 else 3
  }

  /** The shared trees are those that the lease freezes. */
  lemma {:induction false} TreesSpell(p: Path)
    ensures TreeOf(p) < 3 <==> p != [] && (p[0] == "bin" || p[0] == "python" || p[0] == "uv")
    ensures forall q: Path :: p != [] && q != [] && TreeOf(p) == TreeOf(q) < 3 ==> p[0] == q[0]
  {
  }

  const TREES: seq<string> := ["bin", "python", "uv"]

  /**
   * Where a run stands. `begun` counts the trees whose walk has begun, and `todo` are the paths
   * that the walk under way has still to visit.
   */
  datatype Phase =
    | Waiting
    | Thawing(begun: nat, todo: set<Path>)
    | Provisioning
    | Freezing(begun: nat, todo: set<Path>)
    | Cases
    | Releasing(todo: set<Path>)
    | Unlocking(thawed: bool)
    | Gone

  type Run = nat

  datatype State = State(locked: bool, files: Files, runs: map<Run, Phase>)

  datatype Step =
    | Acquire(run: Run)
    | GiveUp(run: Run)
    | Open(run: Run)
    | Visit(run: Run, path: Path)
    | Advance(run: Run)
    | Freeze(run: Run)
    | Install(run: Run, path: Path, node: Option<Node>)
    | WriteInCase(run: Run, path: Path)
    | Release(run: Run)
    | EndWalk(run: Run)
    | Unlock(run: Run, removed: bool)
    | Crash(run: Run)

  predicate IsHolder(p: Phase) {
    p.Thawing? || p.Provisioning? || p.Freezing? || p.Cases? || p.Releasing? || p.Unlocking?
  }

  predicate Allowed(s: State, st: Step) {
    st.run in s.runs
    && var p := s.runs[st.run];
       match st
       case Acquire(_) => p.Waiting? && !s.locked
       case GiveUp(_) => p.Waiting?
       case Open(_) => (p.Thawing? || p.Freezing?) && p.todo == {} && p.begun < 3
       case Visit(_, path) => (p.Thawing? || p.Freezing? || p.Releasing?) && path in p.todo
       case Advance(_) => (p.Thawing? || p.Freezing?) && p.todo == {} && p.begun == 3
       case Freeze(_) => p.Provisioning?
       case Install(_, _, _) => p.Provisioning?
       case WriteInCase(_, path) =>
         p.Cases? && TreeOf(path) < 3 && |path| >= 2 && MayWriteIn(s.files, path[..|path| - 1])
       case Release(_) => p.Thawing? || p.Provisioning? || p.Freezing? || p.Cases?
       case EndWalk(_) => p.Releasing?
       case Unlock(_, _) => p.Unlocking?
       case Crash(_) => true
  }

  predicate MayWriteIn(files: Files, directory: Path) {
    directory in files && !files[directory].link && files[directory].writable
  }

  function PathsOf(files: Files, tree: nat): set<Path> {
    set p | p in files && TreeOf(p) == tree
  }

  /** `os.Chmod` in a walk: links are passed over, and so is what has gone in the meantime. */
  function SetMode(files: Files, path: Path, writable: bool): Files {
    if path in files && !files[path].link then files[path := files[path].(writable := writable)] else files
  }

  function WithTree(files: Files, tree: nat): Files
    requires tree < 3
  {
    if [TREES[tree]] in files then files else files[[TREES[tree]] := Node(false, true)]
  }

  function After(s: State, st: Step): State
    requires Allowed(s, st)
  {
    var r := st.run;
    var p := s.runs[r];
    match st
    case Acquire(_) => s.(locked := true, runs := s.runs[r := Thawing(0, {})])
    case GiveUp(_) => s.(runs := s.runs[r := Gone])
    case Open(_) =>
      if p.Thawing? then
        var files := WithTree(s.files, p.begun);
        s.(files := files, runs := s.runs[r := Thawing(p.begun + 1, PathsOf(files, p.begun))])
      else s.(runs := s.runs[r := Freezing(p.begun + 1, PathsOf(s.files, p.begun))])
    case Visit(_, path) =>
      s.(files := SetMode(s.files, path, !p.Freezing?), runs := s.runs[r := p.(todo := p.todo - {path})])
    case Advance(_) => s.(runs := s.runs[r := if p.Thawing? then Provisioning else Cases])
    case Freeze(_) => s.(runs := s.runs[r := Freezing(0, {})])
    case Install(_, path, node) =>
      s.(files := if node.Some? then s.files[path := node.value] else s.files - {path})
    case WriteInCase(_, path) => s.(files := s.files[path := Node(false, true)])
    case Release(_) => s.(runs := s.runs[r := Releasing(s.files.Keys)])
    case EndWalk(_) => s.(runs := s.runs[r := Unlocking(p.todo == {})])
    case Unlock(_, removed) => s.(locked := s.locked && !removed, runs := s.runs[r := Gone])
    case Crash(_) => s.(runs := s.runs[r := Gone])
  }

  // ---- what every interleaving keeps ----

  ghost predicate OneHolder(s: State) {
    forall a, b :: a in s.runs && b in s.runs && IsHolder(s.runs[a]) && IsHolder(s.runs[b]) ==> a == b
  }

  /** The paths of the first `n` trees have that mode, apart from links and those still to visit. */
  ghost predicate TreesAre(files: Files, n: nat, todo: set<Path>, writable: bool) {
    forall p :: p in files && TreeOf(p) < n && p !in todo && !files[p].link ==> files[p].writable == writable
  }

  ghost predicate AllWritable(files: Files, todo: set<Path>) {
    forall p :: p in files && p !in todo && !files[p].link ==> files[p].writable
  }

  ghost predicate PhaseSound(files: Files, p: Phase) {
    match p
    case Thawing(n, todo) => TreesAre(files, n, todo, true)
    case Freezing(n, todo) => TreesAre(files, n, todo, false)
    case Cases => TreesAre(files, 3, {}, false)
    case Releasing(todo) => AllWritable(files, todo)
    case Unlocking(thawed) => thawed ==> AllWritable(files, {})
    case _ => true
  }

  ghost predicate Sound(s: State) {
    && OneHolder(s)
    && (forall r :: r in s.runs && IsHolder(s.runs[r]) ==> s.locked)
    && (forall r :: r in s.runs ==> PhaseSound(s.files, s.runs[r]))
  }

  /** The trees as every case sees them. */
  ghost predicate ReadOnly(files: Files) {
    forall p :: p in files && TreeOf(p) < 3 && !files[p].link ==> !files[p].writable
  }

  /** A step of a run that does not hold the lease changes no file and no mode, and takes no lock away. */
  lemma {:induction false} OthersChangeNothing(s: State, st: Step)
    requires Allowed(s, st) && !IsHolder(s.runs[st.run])
    ensures After(s, st).files == s.files && (s.locked ==> After(s, st).locked)
    ensures After(s, st).locked != s.locked ==> st.Acquire?
  {
  }

  lemma {:induction false} OwnPhaseStaysSound(s: State, st: Step)
    requires Allowed(s, st) && PhaseSound(s.files, s.runs[st.run])
    ensures PhaseSound(After(s, st).files, After(s, st).runs[st.run])
  {
  }

  lemma {:induction false} StepIsSound(s: State, st: Step)
    requires Sound(s) && Allowed(s, st)
    ensures Sound(After(s, st))
  {
    hide PhaseSound, SetMode, WithTree, PathsOf, MayWriteIn, TreeOf;
    var t := After(s, st);
    OwnPhaseStaysSound(s, st);
    HolderStays(s, st);
    forall r | r in t.runs ensures PhaseSound(t.files, t.runs[r]) {
      if r != st.run {
        assert t.runs[r] == s.runs[r];
        if IsHolder(s.runs[st.run]) {
          assert !IsHolder(s.runs[r]);
          NothingToHold(t.files, s.runs[r]);
        } else {
          OthersChangeNothing(s, st);
        }
      }
    }
  }

  lemma {:induction false} NothingToHold(files: Files, p: Phase)
    requires !IsHolder(p)
    ensures PhaseSound(files, p)
  {
  }

  /** Only a waiting run can become a holder, and only by taking a lock that nobody holds. */
  lemma {:induction false} HolderStays(s: State, st: Step)
    requires Allowed(s, st)
    ensures var t := After(s, st);
            && t.runs.Keys == s.runs.Keys && (forall r :: r in s.runs && r != st.run ==> t.runs[r] == s.runs[r])
            && (IsHolder(t.runs[st.run]) ==> t.locked || IsHolder(s.runs[st.run]))
            && (IsHolder(t.runs[st.run]) && !IsHolder(s.runs[st.run]) ==> !s.locked && t.locked)
            && (!st.Unlock? ==> s.locked ==> t.locked)
  {
    hide SetMode, WithTree, PathsOf, TreeOf;
  }

  // ---- whole histories ----

  ghost predicate Behavior(states: seq<State>, steps: seq<Step>) {
    && |states| == |steps| + 1
    && (forall r :: r in states[0].runs ==> states[0].runs[r] == Waiting)
    && forall i :: 0 <= i < |steps| ==> Allowed(states[i], steps[i]) && states[i + 1] == After(states[i], steps[i])
  }

  lemma {:induction false} HistoryIsSound(states: seq<State>, steps: seq<Step>, i: nat)
    requires Behavior(states, steps) && i < |states|
    ensures Sound(states[i])
  {
    hide After, Allowed;
    if i > 0 {
      HistoryIsSound(states, steps, i - 1);
      hide Sound;
      StepIsSound(states[i - 1], steps[i - 1]);
    }
  }

  /** In every history at most one run holds the lease, and the trees are read-only whenever any run executes cases. */
  lemma {:induction false} LeaseIsSafe(states: seq<State>, steps: seq<Step>, i: nat)
    requires Behavior(states, steps) && i < |states|
    ensures OneHolder(states[i])
    ensures forall r :: r in states[i].runs && states[i].runs[r] == Cases ==> ReadOnly(states[i].files)
  {
    HistoryIsSound(states, steps, i);
  }

  /** Whenever files or modes change, the run that changes them holds the lease, and no other run does. */
  lemma {:induction false} OnlyTheHolderChanges(states: seq<State>, steps: seq<Step>, i: nat)
    requires Behavior(states, steps) && i < |steps| && states[i + 1].files != states[i].files
    ensures steps[i].run in states[i].runs && IsHolder(states[i].runs[steps[i].run])
    ensures forall r :: r in states[i].runs && IsHolder(states[i].runs[r]) ==> r == steps[i].run
  {
    hide After;
    HistoryIsSound(states, steps, i);
    if !IsHolder(states[i].runs[steps[i].run]) {
      OthersChangeNothing(states[i], steps[i]);
    }
  }

  lemma {:induction false} NothingToWriteIn(s: State, st: Step)
    requires Sound(s) && Allowed(s, st)
    ensures !st.WriteInCase?
  {
  }

  lemma {:induction false} CaseStepChangesNothing(s: State, st: Step, r: Run)
    requires Sound(s) && Allowed(s, st) && r in s.runs && s.runs[r] == Cases && After(s, st).runs[r] == Cases
    ensures After(s, st).files == s.files
  {
    NothingToWriteIn(s, st);
    if st.run != r {
      OthersChangeNothing(s, st);
    }
  }

  /** From the moment a run begins its cases until it ends them, the files stay exactly as they are. */
  lemma {:induction false} CasesSeeOneTree(states: seq<State>, steps: seq<Step>, r: Run, i: nat, j: nat)
    requires Behavior(states, steps) && i <= j < |states|
    requires forall k :: i <= k <= j ==> r in states[k].runs && states[k].runs[r] == Cases
    ensures states[i].files == states[j].files && ReadOnly(states[j].files)
    decreases j
  {
    hide After, Sound, Allowed;
    LeaseIsSafe(states, steps, j);
    if i < j {
      CasesSeeOneTree(states, steps, r, i, j - 1);
      HistoryIsSound(states, steps, j - 1);
      CaseStepChangesNothing(states[j - 1], steps[j - 1], r);
    }
  }

  /** The run is not killed, and a walk that thaws the directory ends with nothing left to visit. */
  predicate IsOrderly(s: State, st: Step) {
    !st.Crash? && (st.EndWalk? ==> st.run in s.runs && s.runs[st.run].Releasing? && s.runs[st.run].todo == {})
  }

  /** When every run is orderly, the directory is writable all over whenever the lease is free. */
  lemma {:induction false} FreeMeansThawed(states: seq<State>, steps: seq<Step>, i: nat)
    requires Behavior(states, steps) && i < |states|
    requires !states[0].locked ==> AllWritable(states[0].files, {})
    requires forall k :: 0 <= k < |steps| ==> IsOrderly(states[k], steps[k])
    ensures !states[i].locked ==> AllWritable(states[i].files, {})
    ensures forall r :: r in states[i].runs && states[i].runs[r].Unlocking? ==> states[i].runs[r].thawed
  {
    if i > 0 {
      FreeMeansThawed(states, steps, i - 1);
      HistoryIsSound(states, steps, i - 1);
      ThawedStep(states[i - 1], steps[i - 1]);
    }
  }

  lemma {:induction false} ThawedStep(s: State, st: Step)
    requires Sound(s) && Allowed(s, st) && IsOrderly(s, st)
    requires !s.locked ==> AllWritable(s.files, {})
    requires forall r :: r in s.runs && s.runs[r].Unlocking? ==> s.runs[r].thawed
    ensures !After(s, st).locked ==> AllWritable(After(s, st).files, {})
    ensures forall r :: r in After(s, st).runs && After(s, st).runs[r].Unlocking? ==> After(s, st).runs[r].thawed
  {
    hide SetMode, WithTree, PathsOf, MayWriteIn, TreeOf, AllWritable;
    if !After(s, st).locked && s.locked {
      assert st.Unlock?;
      assert PhaseSound(s.files, s.runs[st.run]);
    }
    if !s.locked && !IsHolder(s.runs[st.run]) {
      OthersChangeNothing(s, st);
    }
  }

  // ---- one run among the others ----

  /** The directory and every run that shares it; what the others do is seen only where they are let in. */
  class Directory {
    var locked: bool
    var files: Files
    var runs: map<Run, Phase>

    function Now(): State
      reads this
    {
      State(locked, files, runs)
    }

    method Act(st: Step)
      requires Sound(Now()) && Allowed(Now(), st)
      modifies this
      ensures Now() == After(old(Now()), st) && Sound(Now())
    {
      StepIsSound(Now(), st);
      var next := After(Now(), st);
      locked, files, runs := next.locked, next.files, next.runs;
    }

    /** Any steps of the other runs, in any order. */
    method Others(me: Run)
      requires Sound(Now()) && me in runs
      modifies this
      ensures Sound(Now()) && me in runs && runs[me] == old(runs[me])
      ensures IsHolder(runs[me]) ==> files == old(files)
    {
      hide Sound, After, Allowed;
      var count: nat :| true;
      for i := 0 to count
        invariant Sound(Now()) && me in runs && runs[me] == old(runs[me])
        invariant IsHolder(runs[me]) ==> files == old(files)
      {
        var st: Step := *;
        if st.run != me && Allowed(Now(), st) {
          HolderStays(Now(), st);
          OnlyMine(Now(), st, me);
          Act(st);
        }
      }
    }

    /** `fenceToolMode`, once its walk has begun: it ends early when a change of mode fails. */
    method ToolMode(me: Run) returns (ok: bool)
      requires Sound(Now()) && me in runs && (runs[me].Thawing? || runs[me].Freezing? || runs[me].Releasing?)
      modifies this
      ensures Sound(Now()) && me in runs && SameWalk(old(runs[me]), runs[me])
      ensures ok ==> runs[me].todo == {}
    {
      hide Sound, After;
      while runs[me].todo != {}
        invariant Sound(Now()) && me in runs && SameWalk(old(runs[me]), runs[me])
        decreases runs[me].todo
      {
        Others(me);
        var fails: bool := *;
        if fails { return false; }
        var path :| path in runs[me].todo;
        VisitShrinks(Now(), me, path);
        Act(Visit(me, path));
      }
      return true;
    }

    /** The `release` closure of a run that owns the lease; `clean` when no change of mode and no removal failed. */
    method EndLease(me: Run) returns (clean: bool)
      requires Sound(Now()) && me in runs && Allowed(Now(), Release(me))
      modifies this
      ensures Sound(Now()) && me in runs && runs[me] == Gone
      ensures clean ==> AllWritable(files, {}) && !locked
    {
      hide Sound;
      Act(Release(me));
      var thawed := ToolMode(me);
      Act(EndWalk(me));
      if thawed { ThawedIsWritable(Now(), me); }
      Others(me);
      var removed: bool := *;
      Act(Unlock(me, removed));
      return thawed && removed;
    }

    /** `fenceProvision`: the run comes back with the lease and frozen trees, or it is gone. */
    method FenceProvision(me: Run) returns (good: bool)
      requires Sound(Now()) && me in runs && runs[me] == Waiting
      modifies this
      ensures Sound(Now()) && me in runs
      ensures good ==> runs[me] == Cases && ReadOnly(files)
      ensures !good ==> runs[me] == Gone
    {
      hide Sound;
      Others(me);
      if locked {
        Act(GiveUp(me));
        return false;
      }
      Act(Acquire(me));
      var ok := WalkTrees(me);
      if !ok {
        var _ := EndLease(me);
        return false;
      }
      Act(Advance(me));
      var tools: nat :| true;
      for i := 0 to tools
        invariant Sound(Now()) && me in runs && runs[me] == Provisioning
      {
        Others(me);
        var failed: bool := *;
        if failed {
          var _ := EndLease(me);
          return false;
        }
        var path: Path := *;
        var node: Option<Node> := *;
        Act(Install(me, path, node));
      }
      Act(Freeze(me));
      ok := WalkTrees(me);
      if !ok {
        var _ := EndLease(me);
        return false;
      }
      Act(Advance(me));
      assert ReadOnly(files) by { CasesAreReadOnly(Now(), me); }
      return true;
    }

    /** The loop over the three trees, thawing or freezing. */
    method WalkTrees(me: Run) returns (ok: bool)
      requires Sound(Now()) && me in runs && (runs[me].Thawing? || runs[me].Freezing?)
      requires runs[me].begun == 0 && runs[me].todo == {}
      modifies this
      ensures Sound(Now()) && me in runs
      ensures runs[me].Thawing? == old(runs[me]).Thawing? && runs[me].Freezing? == old(runs[me]).Freezing?
      ensures ok ==> runs[me].begun == 3 && runs[me].todo == {}
    {
      hide Sound;
      for d := 0 to 3
        invariant Sound(Now()) && me in runs
        invariant runs[me].Thawing? == old(runs[me]).Thawing? && runs[me].Freezing? == old(runs[me]).Freezing?
        invariant runs[me].begun == d && runs[me].todo == {}
      {
        Others(me);
        var made: bool := *;
        if !made { return false; }
        Act(Open(me));
        var walked := ToolMode(me);
        if !walked { return false; }
      }
      return true;
    }
  }

  /** The same walk of the same run, with perhaps less to visit. */
  predicate SameWalk(before: Phase, after: Phase) {
    match before
    case Thawing(n, todo) => after.Thawing? && after.begun == n && after.todo <= todo
    case Freezing(n, todo) => after.Freezing? && after.begun == n && after.todo <= todo
    case Releasing(todo) => after.Releasing? && after.todo <= todo
    case _ => false
  }

  lemma {:induction false} VisitShrinks(s: State, me: Run, path: Path)
    requires me in s.runs && (s.runs[me].Thawing? || s.runs[me].Freezing? || s.runs[me].Releasing?)
    requires path in s.runs[me].todo
    ensures Allowed(s, Visit(me, path))
    ensures var t := After(s, Visit(me, path));
            me in t.runs && SameWalk(s.runs[me], t.runs[me]) && t.runs[me].todo < s.runs[me].todo
  {
  }

  lemma {:induction false} OnlyMine(s: State, st: Step, me: Run)
    requires Sound(s) && Allowed(s, st) && me in s.runs && st.run != me
    ensures IsHolder(s.runs[me]) ==> After(s, st).files == s.files
  {
    if IsHolder(s.runs[me]) {
      OthersChangeNothing(s, st);
    }
  }

  lemma {:induction false} ThawedIsWritable(s: State, r: Run)
    requires Sound(s) && r in s.runs && s.runs[r] == Unlocking(true)
    ensures AllWritable(s.files, {})
  {
  }

  lemma {:induction false} CasesAreReadOnly(s: State, r: Run)
    requires Sound(s) && r in s.runs && s.runs[r] == Cases
    ensures ReadOnly(s.files)
  {
  }
}
