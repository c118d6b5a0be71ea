/** One case in three modes: the stages that the executor runs, and the acceptor that re-checks its record. */
module Pipeline {
  import opened ByteStrings
  import opened Kernel
  import Launcher
  import opened Lineage
  import opened Joins
  import opened Staging

  datatype Phase = ToRun | ToBuild | ToCompile

  datatype Stage = Stage(job: Job, receipt: Payload)

  datatype Standing = Complete | StageFailure | InputMutation | MissingArtifact | InvalidSourceMap

  /** One look at the inputs, before or after a job. */
  datatype Look = Look(job: Job, before: bool)

  datatype InputCheck = InputCheck(at: Look, valid: bool)

  datatype Product = Generated | SourceMapFile | Object | Native

  type Snapshot = map<string, string>

  /** A path of the runtime directory that the run changed: its digest before and after. */
  datatype Change = Change(before: Option<string>, after: Option<string>)

  datatype ModeResult = ModeResult(mode: Mode, phase: Phase, stages: seq<Stage>, standing: Standing,
                                   checks: seq<InputCheck>, products: set<Product>, integrity: bool,
                                   effects: Option<map<string, Change>>)

  function Jobs(stages: seq<Stage>): (js: seq<Job>)
    ensures |js| == |stages|
  {
    seq(|stages|, i requires 0 <= i < |stages| => stages[i].job)
  }

  // ---- the acceptor's shape checks ----

  function Producer(phase: Phase): Job {
    if phase == ToCompile then Compile else Build
  }

  /** The whole recipe of a mode. */
  function Recipe(mode: Mode, phase: Phase): seq<Job> {
    (match mode
     case Baseline => [Producer(phase)]
     case Compiled => [Transpile, Producer(phase)]
     case Interpreted => if phase == ToRun then [Run] else [Check])
    + if phase == ToRun && mode != Interpreted then [Run] else []
  }

  /** The looks at the inputs that go with the stages that ran: none around the native run. */
  function DemandedLooks(mode: Mode, jobs: seq<Job>): seq<Look> {
    if jobs == [] then []
    else
      (if jobs[0] == Run && mode != Interpreted then [] else [Look(jobs[0], true), Look(jobs[0], false)])
      + DemandedLooks(mode, jobs[1..])
  }

  function Looks(checks: seq<InputCheck>): (ls: seq<Look>)
    ensures |ls| == |checks|
  {
    seq(|checks|, i requires 0 <= i < |checks| => checks[i].at)
  }

  predicate AllValid(checks: seq<InputCheck>) {
    forall c :: c in checks ==> c.valid
  }

  /** A stage that succeeded left what it was to make. */
  predicate Made(s: Stage, r: ModeResult) {
    Success(s.receipt) ==>
      match s.job
      case Transpile => Generated in r.products && SourceMapFile in r.products
      case Build => Native in r.products
      case Compile => Object in r.products && Native !in r.products
      case _ => true
  }

  /** What `execution!` demands of one mode: of its stages, checks and products, and of each stage's streams. */
  predicate PhasesAccepted(r: ModeResult) {
    WellShaped(r) && forall s :: s in r.stages ==> HasBothStreams(s.receipt)
  }

  /** `stage!` fetches two streams, and the record of a combined capture has neither. */
  predicate HasBothStreams(p: Payload) {
    p.outputMode != COMBINED
  }

  predicate WellShaped(r: ModeResult) {
    var jobs := Jobs(r.stages);
    && r.integrity
    && jobs != [] && jobs <= Recipe(r.mode, r.phase)
    && (r.standing == Complete || r.standing == StageFailure)
    && (jobs != Recipe(r.mode, r.phase) ==>
          r.standing == StageFailure && !Success(r.stages[|r.stages| - 1].receipt))
    && Looks(r.checks) == DemandedLooks(r.mode, jobs)
    && AllValid(r.checks)
    && (r.mode != Interpreted && jobs[|jobs| - 1] == Run ==> Native in r.products)
    && (forall i :: 0 <= i < |r.stages| - 1 ==> Success(r.stages[i].receipt))
    && (forall s :: s in r.stages ==> Made(s, r))
  }

  // ---- the executor ----

  /** Every stage is launched under the one before it, the first under the caller's launch. */
  predicate Chained(stages: seq<Stage>, parent: Option<string>) {
    && (|stages| > 0 ==> stages[0].receipt.parentLaunchId == parent)
    && forall i :: 0 < i < |stages| ==> stages[i].receipt.parentLaunchId == Some(stages[i - 1].receipt.launchId)
  }

  /** Nothing was launched after a stage that failed. */
  predicate StopsAtFailure(stages: seq<Stage>) {
    forall i :: 0 <= i < |stages| - 1 ==> Success(stages[i].receipt)
  }

  function Commands(mode: Mode, phase: Phase): seq<Job> {
    match mode
    case Baseline => [Producer(phase)]
    case Interpreted => [if phase == ToRun then Run else Check]
    case Compiled => [Transpile, Producer(phase)]
  }

  function LastLaunch(stages: seq<Stage>, parent: Option<string>): Option<string> {
    if |stages| == 0 then parent else Some(stages[|stages| - 1].receipt.launchId)
  }

  // ---- what the executor sees of files on disk ----

  /** What a look at files may be about; `Recordable` is whether the products are plain files, and no links. */
  datatype Question =
    | Inputs(at: Look)
    | Output(job: Job)
    | Recordable
    | MapFits
    | InputsAtEnd
    | RuntimeClear

  datatype Answer = Answer(question: Question, fine: bool)

  /** All that was looked at, in order; a look may turn out either way. */
  class Eyes {
    ghost var seen: seq<Answer>

    constructor ()
      ensures seen == []
    {
      seen := [];
    }

    method Ask(question: Question) returns (fine: bool)
      modifies this
      ensures seen == old(seen) + [Answer(question, fine)]
    {
      fine := *;
      seen := seen + [Answer(question, fine)];
    }

    /** What is found at a path: `File.file?` and `File.size?` follow a link, and what it leads to may be empty. */
    method Filled(path: string, m: Machine) returns (filled: bool)
      ensures path in m.files ==> (filled <==> m.files[path].bytes > 0)
      ensures filled ==> path in m.files || path in m.links
    {
      var behind: bool := *;
      filled := if path in m.files then m.files[path].bytes > 0 else path in m.links && behind;
    }

    method Note(question: Question, fine: bool)
      modifies this
      ensures seen == old(seen) + [Answer(question, fine)]
    {
      seen := seen + [Answer(question, fine)];
    }
  }

  /** The looks at the inputs, as a record is to list them. */
  ghost function CheckList(seen: seq<Answer>): seq<InputCheck> {
    if seen == [] then []
    else
      var last := seen[|seen| - 1];
      CheckList(seen[..|seen| - 1]) + if last.question.Inputs? then [InputCheck(last.question.at, last.fine)] else []
  }

  lemma {:induction false} CheckListGrows(seen: seq<Answer>, a: Answer)
    ensures CheckList(seen + [a]) ==
            CheckList(seen) + if a.question.Inputs? then [InputCheck(a.question.at, a.fine)] else []
  {
    assert (seen + [a])[..|seen|] == seen;
  }

  /** The standing that the stages and the looks call for; a run counts as complete when it ended by itself. */
  ghost function RightStanding(r: ModeResult, seen: seq<Answer>): Standing {
    if !r.integrity then InputMutation
    else if r.stages != [] && r.stages[|r.stages| - 1].job == Run then
      var p := r.stages[|r.stages| - 1].receipt;
      if p.launch.pid.Some? && p.terminal.state == Ended then Complete else StageFailure
    else if r.stages != [] && !Success(r.stages[|r.stages| - 1].receipt) then StageFailure
    else if Answer(MapFits, false) in seen then InvalidSourceMap
    else if exists job :: Answer(Output(job), false) in seen then MissingArtifact
    else Complete
  }

  /** The record says what was seen, and stands as that calls for. */
  ghost predicate Witnessed(r: ModeResult, seen: seq<Answer>) {
    && r.checks == CheckList(seen)
    && (r.integrity <==> AllValid(r.checks) && Answer(InputsAtEnd, true) in seen)
    && r.standing == RightStanding(r, seen)
    && (r.mode != Interpreted && Run in Jobs(r.stages) ==> Answer(RuntimeClear, true) in seen)
  }

  /** During the commands: the looks so far are listed, and none but those at the inputs turned out badly. */
  ghost predicate AllWell(r: ModeResult, seen: seq<Answer>) {
    && r.checks == CheckList(seen) && Early(seen)
    && forall a :: a in seen && !a.question.Inputs? ==> a.fine
  }

  ghost predicate Early(seen: seq<Answer>) {
    forall a :: a in seen ==> a.question != InputsAtEnd && a.question != RuntimeClear
  }

  /** When the commands are over. */
  ghost predicate SeenOut(r: ModeResult, seen: seq<Answer>) {
    && r.checks == CheckList(seen) && Early(seen)
    && (AllValid(r.checks) ==> r.standing == RightStanding(r.(integrity := true), seen))
  }

  /** What holds after every command, as long as the standing is still `Complete`. */
  ghost predicate Going(r: ModeResult, mode: Mode, phase: Phase, parent: Option<string>, combined: bool, n: nat) {
    && n <= |Commands(mode, phase)| && Jobs(r.stages) == Commands(mode, phase)[..n]
    && Recorded(r, mode, phase, parent, combined)
    && Looks(r.checks) == DemandedLooks(mode, Jobs(r.stages))
    && AllValid(r.checks)
    && (forall s :: s in r.stages ==> Made(s, r))
    && (forall i :: 0 <= i < n - 1 ==> Success(r.stages[i].receipt))
    && (n > 0 && mode != Interpreted ==> Success(r.stages[n - 1].receipt))
  }

  /** What holds of the record of a mode at any moment. */
  ghost predicate Recorded(r: ModeResult, mode: Mode, phase: Phase, parent: Option<string>, combined: bool) {
    && r.mode == mode && r.phase == phase
    && Chained(r.stages, parent) && StopsAtFailure(r.stages)
    && (forall s :: s in r.stages ==> (s.receipt.outputMode == COMBINED <==> combined && s.job == Run))
    && (Native in r.products ==> phase != ToCompile)
    && r.effects == None
  }

  /** What is known when the commands are over, whichever way. */
  ghost predicate Ran(r: ModeResult, mode: Mode, phase: Phase, parent: Option<string>, combined: bool) {
    var jobs := Jobs(r.stages);
    && Recorded(r, mode, phase, parent, combined)
    && jobs <= Commands(mode, phase)
    && (r.standing == Complete ==> Going(r, mode, phase, parent, combined, |Commands(mode, phase)|))
    && (r.standing == InputMutation ==> !AllValid(r.checks))
    && (r.standing == StageFailure ==>
          && jobs != [] && !Success(r.stages[|jobs| - 1].receipt)
          && Looks(r.checks) == DemandedLooks(mode, jobs)
          && (forall s :: s in r.stages ==> Made(s, r)))
  }

  function ProductsOf(job: Job): set<Product> {
    match job
    case Transpile => {Generated, SourceMapFile}
    case Build => {Native}
    case Compile => {Object}
    case _ => {}
  }

  /** The products of a stage that succeeded; a source or a map that is a link cannot be recorded. */
  method MakeProduct(r: ModeResult, job: Job, m: Machine, desk: Desk, eyes: Eyes) returns (after: Option<ModeResult>)
    requires r.standing == Complete && AllWell(r, eyes.seen) && AllValid(r.checks)
    requires r.stages != [] && r.stages[|r.stages| - 1].job == job && Success(r.stages[|r.stages| - 1].receipt)
    modifies eyes
    ensures after.None? ==> Answer(Recordable, false) in eyes.seen
    ensures after.Some? ==> SeenOut(after.value, eyes.seen)
    ensures after.Some? && after.value.standing == Complete ==> AllWell(after.value, eyes.seen)
    ensures after.None? ==> job == Transpile && (desk.generated !in m.files || desk.sourceMap !in m.files)
    ensures after.None? ==> desk.generated in m.files.Keys + m.links && desk.sourceMap in m.files.Keys + m.links
    // Two regular files are recorded, and missing when one of them is empty.
    ensures job == Transpile && desk.generated in m.files && desk.sourceMap in m.files ==>
              after.Some? && (after.value.standing == MissingArtifact <==>
                                m.files[desk.generated].bytes == 0 || m.files[desk.sourceMap].bytes == 0)
    ensures job == Transpile && after.Some? && after.value.standing != MissingArtifact ==>
              desk.generated in m.files && desk.sourceMap in m.files
    ensures after.Some? ==>
              var a := after.value;
              && a.(standing := r.standing, products := r.products) == r
              && (a.standing == r.standing || a.standing == MissingArtifact || a.standing == InvalidSourceMap)
              && r.products <= a.products && (Native in a.products ==> Native in r.products || job == Build)
              && (a.standing == Complete ==> a.products == r.products + ProductsOf(job))
  {
    hide CheckList, Success, RightStanding;
    var made := r;
    if job == Transpile {
      ghost var before := eyes.seen;
      var source := eyes.Filled(desk.generated, m);
      var map' := eyes.Filled(desk.sourceMap, m);
      var filled := source && map';
      eyes.Note(Output(job), filled);
      Asked(r, before, Answer(Output(job), filled));
      if !filled { return Some(made.(standing := MissingArtifact)); }
      var plain := desk.generated in m.files && desk.sourceMap in m.files;
      eyes.Note(Recordable, plain);
      Asked(r, before + [Answer(Output(job), true)], Answer(Recordable, plain));
      if !plain { return None; }
      ghost var recorded := eyes.seen;
      made := made.(products := made.products + {Generated, SourceMapFile});
      var fits := eyes.Ask(MapFits);
      Asked(made, recorded, Answer(MapFits, fits));
      if !fits { return Some(made.(standing := InvalidSourceMap)); }
    } else if job == Compile || job == Build {
      ghost var before := eyes.seen;
      var filled := eyes.Ask(Output(job));
      Asked(r, before, Answer(Output(job), filled));
      if !filled { return Some(made.(standing := MissingArtifact)); }
      made := made.(products := made.products + if job == Compile then {Object} else {Native});
    }
    StillComplete(made, eyes.seen);
    return Some(made);
  }

  /** A look after a stage that succeeded: the record goes on, or takes the standing that the look calls for. */
  lemma {:induction false} Asked(r: ModeResult, seen: seq<Answer>, a: Answer)
    requires r.standing == Complete && AllWell(r, seen) && r.stages != []
    requires Success(r.stages[|r.stages| - 1].receipt)
    requires r.stages[|r.stages| - 1].job != Run
    requires a.question.Output? || a.question.Recordable? || a.question.MapFits?
    ensures a.fine ==> AllWell(r, seen + [a])
    ensures a.question.Output? && !a.fine ==> SeenOut(r.(standing := MissingArtifact), seen + [a])
    ensures a.question.MapFits? && !a.fine ==> SeenOut(r.(standing := InvalidSourceMap), seen + [a])
  {
    hide Success, RightStanding, CheckList;
    CheckListGrows(seen, a);
    if !a.fine { AskedInVain(r.(integrity := true), seen, a); }
    assert forall b :: b in seen + [a] ==> b in seen || b == a;
  }

  lemma {:induction false} AskedInVain(r: ModeResult, seen: seq<Answer>, a: Answer)
    requires r.integrity && AllWell(r, seen) && r.stages != [] && !a.fine
    requires Success(r.stages[|r.stages| - 1].receipt) && r.stages[|r.stages| - 1].job != Run
    ensures a.question.Output? ==> RightStanding(r.(standing := MissingArtifact), seen + [a]) == MissingArtifact
    ensures a.question.MapFits? ==> RightStanding(r.(standing := InvalidSourceMap), seen + [a]) == InvalidSourceMap
  {
    hide Success, CheckList, Early;
    var after := seen + [a];
    assert after[|seen|] == a && a in after;
    assert forall b :: b in after ==> b in seen || b == a;
    if a.question.Output? { assert Answer(Output(a.question.job), false) in after; }
  }

  lemma {:induction false} StillComplete(r: ModeResult, seen: seq<Answer>)
    requires r.standing == Complete && AllWell(r, seen)
    requires r.stages != [] ==> Success(r.stages[|r.stages| - 1].receipt)
    ensures SeenOut(r, seen)
  {
  }

  lemma {:induction false} JobsGrow(stages: seq<Stage>, s: Stage)
    ensures Jobs(stages + [s]) == Jobs(stages) + [s.job]
  {
  }

  lemma {:induction false} LooksGrow(checks: seq<InputCheck>, c: InputCheck)
    ensures Looks(checks + [c]) == Looks(checks) + [c.at]
  {
  }

  lemma {:induction false} DemandedGrow(mode: Mode, jobs: seq<Job>, job: Job)
    ensures DemandedLooks(mode, jobs + [job]) ==
            DemandedLooks(mode, jobs)
            + if job == Run && mode != Interpreted then [] else [Look(job, true), Look(job, false)]
  {
    if jobs == [] {
      assert [job][1..] == [];
    } else {
      assert (jobs + [job])[1..] == jobs[1..] + [job];
      DemandedGrow(mode, jobs[1..], job);
    }
  }

  function WithStage(r: ModeResult, stage: Stage, intact: bool): ModeResult {
    r.(stages := r.stages + [stage],
       checks := r.checks + [InputCheck(Look(stage.job, true), true)] + [InputCheck(Look(stage.job, false), intact)])
  }

  lemma {:induction false} StageIsRecorded(r: ModeResult, mode: Mode, phase: Phase, parent: Option<string>,
                                           combined: bool,
                                           n: nat, stage: Stage, intact: bool)
    requires Going(r, mode, phase, parent, combined, n)
    requires n < |Commands(mode, phase)| && stage.job == Commands(mode, phase)[n]
    requires stage.receipt.parentLaunchId == LastLaunch(r.stages, parent)
    requires stage.receipt.outputMode == COMBINED <==> combined && stage.job == Run
    ensures Recorded(WithStage(r, stage, intact), mode, phase, parent, combined)
    ensures Jobs(r.stages + [stage]) == Commands(mode, phase)[..n + 1]
  {
    hide DemandedLooks, Made, Commands, Success;
    JobsGrow(r.stages, stage);
    assert |r.stages| == n;
    var commands := Commands(mode, phase);
    assert commands[..n + 1] == commands[..n] + [commands[n]];
    assert n > 0 ==> commands[n - 1] != Run || mode == Interpreted by { CommandsByMode(mode, phase); }
    assert mode == Interpreted ==> n == 0 by { CommandsByMode(mode, phase); }
  }

  lemma {:induction false} CommandsByMode(mode: Mode, phase: Phase)
    ensures mode == Interpreted ==> |Commands(mode, phase)| == 1
    ensures mode != Interpreted ==> Run !in Commands(mode, phase)
    ensures phase == ToCompile ==> Build !in Commands(mode, phase)
  {
  }

  lemma {:induction false} LooksAreDemanded(r: ModeResult, mode: Mode, phase: Phase, n: nat, stage: Stage)
    requires Looks(r.checks) == DemandedLooks(mode, Jobs(r.stages)) && AllValid(r.checks)
    requires n < |Commands(mode, phase)| && stage.job == Commands(mode, phase)[n]
    ensures var after := WithStage(r, stage, true);
            Looks(after.checks) == DemandedLooks(mode, Jobs(after.stages)) && AllValid(after.checks)
  {
    hide Commands, DemandedLooks;
    CommandsByMode(mode, phase);
    var before := InputCheck(Look(stage.job, true), true);
    LooksGrow(r.checks, before);
    LooksGrow(r.checks + [before], InputCheck(Look(stage.job, false), true));
    JobsGrow(r.stages, stage);
    DemandedGrow(mode, Jobs(r.stages), stage.job);
  }

  lemma {:induction false} MadeStays(r: ModeResult, after: ModeResult)
    requires forall s :: s in r.stages ==> Made(s, r)
    requires r.products <= after.products
    requires Native in after.products ==> Native in r.products || Compile !in Jobs(r.stages)
    ensures forall s :: s in r.stages ==> Made(s, after)
  {
    forall s | s in r.stages ensures Made(s, after) {
      var i :| 0 <= i < |r.stages| && r.stages[i] == s;
      assert Jobs(r.stages)[i] == s.job;
    }
  }

  lemma {:induction false} NativeIsBuilt(r: ModeResult, made: ModeResult, phase: Phase, n: nat, mode: Mode)
    requires n < |Commands(mode, phase)| && Jobs(r.stages) == Commands(mode, phase)[..n]
    requires Native in r.products ==> phase != ToCompile
    requires Native in made.products ==> Native in r.products || Commands(mode, phase)[n] == Build
    ensures Native in made.products ==> phase != ToCompile
    ensures Native in made.products ==> Compile !in Jobs(r.stages) && Commands(mode, phase)[n] != Compile
  {
  }

  /** The round ends with the inputs changed: before the launch, or after it. */
  lemma {:induction false} RoundSpoiled(r: ModeResult, after: ModeResult, mode: Mode, phase: Phase,
                                        parent: Option<string>,
                                        combined: bool, n: nat)
    requires Going(r, mode, phase, parent, combined, n)
    requires after == r.(checks := after.checks, standing := InputMutation) && !AllValid(after.checks)
    ensures Ran(after, mode, phase, parent, combined)
  {
    hide Commands, DemandedLooks, Jobs, Looks;
  }

  lemma {:induction false} StageSpoiled(r: ModeResult, after: ModeResult, mode: Mode, phase: Phase,
                                        parent: Option<string>,
                                        combined: bool, n: nat, stage: Stage)
    requires Going(r, mode, phase, parent, combined, n)
    requires n < |Commands(mode, phase)| && stage.job == Commands(mode, phase)[n]
    requires Recorded(WithStage(r, stage, false), mode, phase, parent, combined)
    requires after == WithStage(r, stage, false).(standing := InputMutation)
    ensures Ran(after, mode, phase, parent, combined)
  {
    hide DemandedLooks, Success, Looks, Commands;
    JobsGrow(r.stages, stage);
    assert !after.checks[|r.checks| + 1].valid;
    var commands := Commands(mode, phase);
    assert commands[..n + 1] == commands[..n] + [commands[n]];
  }

  /** The stage failed: the standing is `Complete` only for a run that ended. */
  lemma {:induction false} RoundFailed(r: ModeResult, mode: Mode, phase: Phase, parent: Option<string>, combined: bool,
                                       n: nat, stage: Stage, standing: Standing)
    requires Going(r, mode, phase, parent, combined, n)
    requires n < |Commands(mode, phase)| && stage.job == Commands(mode, phase)[n]
    requires Recorded(WithStage(r, stage, true), mode, phase, parent, combined) && !Success(stage.receipt)
    requires standing == StageFailure || (standing == Complete && stage.job == Run)
    ensures Ran(WithStage(r, stage, true).(standing := standing), mode, phase, parent, combined)
  {
    hide DemandedLooks, Success, Looks, Commands;
    var after := WithStage(r, stage, true).(standing := standing);
    LooksAreDemanded(r, mode, phase, n, stage);
    JobsGrow(r.stages, stage);
    MadeStays(r, after);
    CommandsByMode(mode, phase);
    var commands := Commands(mode, phase);
    assert commands[..n + 1] == commands[..n] + [commands[n]];
  }

  /** The stage succeeded, and then its products were looked at. */
  lemma {:induction false} RoundMade(r: ModeResult, made: ModeResult, mode: Mode, phase: Phase, parent: Option<string>,
                                     combined: bool, n: nat, stage: Stage)
    requires Going(r, mode, phase, parent, combined, n)
    requires n < |Commands(mode, phase)| && stage.job == Commands(mode, phase)[n]
    requires Recorded(WithStage(r, stage, true), mode, phase, parent, combined) && Success(stage.receipt)
    requires made == WithStage(r, stage, true).(standing := made.standing, products := made.products)
    requires r.products <= made.products && (Native in made.products ==> Native in r.products || stage.job == Build)
    requires made.standing == Complete ==> made.products == r.products + ProductsOf(stage.job)
    ensures made.standing == Complete ==> Going(made, mode, phase, parent, combined, n + 1)
    ensures made.standing == MissingArtifact || made.standing == InvalidSourceMap ==>
            Ran(made, mode, phase, parent, combined)
  {
    hide DemandedLooks, Success, Looks, Commands;
    LooksAreDemanded(r, mode, phase, n, stage);
    JobsGrow(r.stages, stage);
    NativeIsBuilt(r, made, phase, n, mode);
    MadeStays(r, made);
    var commands := Commands(mode, phase);
    assert commands[..n + 1] == commands[..n] + [commands[n]];
  }

  // ---- what the stages are launched on ----

  /** Between two commands: the group is empty, and the launch to go on from is on the ledger. */
  ghost predicate Ready(r: ModeResult, m: Machine, j: Journal, desk: Desk, parent: Option<string>)
    reads m, j
  {
    && j.Valid() && m.group == {}
    && ParentLaunched(j.ledger, |j.ledger|, LastLaunch(r.stages, parent))
    && Traced(r.stages, j.ledger, m.files, desk)
  }

  /** After a transpilation its receipt is on the ledger and names the generated source, which is a regular file. */
  ghost predicate Traced(stages: seq<Stage>, ledger: seq<Payload>, files: map<string, File>, desk: Desk) {
    |stages| > 0 && stages[|stages| - 1].job == Transpile ==>
      var p := stages[|stages| - 1].receipt;
      p in ledger && GENERATED in p.artifacts && desk.generated in files
  }

  /** The launch before and the artifacts that the new one is made from are on the ledger; the source is a file. */
  ghost predicate DepartureSound(d: Departure, desk: Desk) {
    Entitled(d.known, d.order) && (d.order.artifactParents != map[] ==> desk.generated in d.files)
  }

  ghost predicate AllSound(departures: seq<Departure>, from: nat, desk: Desk) {
    forall k: nat :: from <= k < |departures| ==> DepartureSound(departures[k], desk)
  }

  /** The ledger is joined, unless others spoiled it or it is for another root. */
  ghost predicate KeptJoined(j: Journal, s: Setup)
    reads j
  {
    j.fair && s.base.rootId == j.root ==> j.Sealed()
  }

  lemma {:induction false} DepartureIsSound(stages: seq<Stage>, ledger: seq<Payload>, d: Departure, s: Setup,
                                            mode: Mode, job: Job, parent: Option<string>, combined: bool)
    requires d.order == OrderFor(s, mode, job, LastLaunch(stages, parent), combined)
    requires ledger <= d.known
    requires ParentLaunched(ledger, |ledger|, LastLaunch(stages, parent))
    requires Traced(stages, ledger, d.files, s.desk)
    requires mode == Compiled && (job == Build || job == Compile) ==>
               |stages| > 0 && stages[|stages| - 1].job == Transpile
    ensures DepartureSound(d, s.desk)
  {
    var last := LastLaunch(stages, parent);
    if last.Some? {
      var i: nat :| i < |ledger| && Holds(ledger, i, last.value);
      assert Holds(d.known, i, last.value);
    }
    if mode == Compiled && (job == Build || job == Compile) {
      var p := stages[|stages| - 1].receipt;
      var i :| 0 <= i < |ledger| && ledger[i] == p;
      assert d.known[i] == p && Holds(d.known, i, p.launchId);
      var q := Parent(p.launchId, GENERATED);
      assert MadeBefore(d.known, |d.known|, q);
      assert forall name :: name in d.order.artifactParents ==> d.order.artifactParents[name] == q;
    } else {
      assert d.order.artifactParents == map[];
    }
  }

  lemma {:induction false} TracedAfter(stages: seq<Stage>, stage: Stage, ledger: seq<Payload>, files: map<string, File>,
                                       s: Setup, mode: Mode, parent: Option<string>, combined: bool)
    requires stage.receipt in ledger
    requires Launcher.AllRecorded(stage.receipt.artifacts, OrderFor(s, mode, stage.job, parent, combined), files)
    requires stage.job == Transpile ==> s.desk.generated in files
    ensures Traced(stages + [stage], ledger, files, s.desk)
  {
    assert stage.job == Transpile ==> GENERATED in DeclaredPaths(s.desk, stage.job);
  }

  lemma {:induction false} OtherIsTraced(stages: seq<Stage>, ledger: seq<Payload>, files: map<string, File>, desk: Desk)
    ensures |stages| > 0 && stages[|stages| - 1].job != Transpile ==> Traced(stages, ledger, files, desk)
  {
  }

  lemma {:induction false} LastIsLaunched(stages: seq<Stage>, ledger: seq<Payload>, parent: Option<string>)
    requires |stages| > 0 && ledger != [] && ledger[|ledger| - 1] == stages[|stages| - 1].receipt
    ensures ParentLaunched(ledger, |ledger|, LastLaunch(stages, parent))
  {
    assert Holds(ledger, |ledger| - 1, stages[|stages| - 1].receipt.launchId);
  }

  /** The receipt of a stage records what that stage makes, where the desk has it, and what it was made from. */
  ghost predicate Filed(stage: Stage, s: Setup, mode: Mode) {
    var p := stage.receipt;
    && p.stageId == s.base.stageId + "/" + (match mode case Baseline => "baseline" case Interpreted => "interpreted"
                                            case Compiled => "compiled")
                    + "/" + (match stage.job case Transpile => "transpile" case Build => "build"
                             case Compile => "compile" case Check => "check" case Run => "run")
    && forall name :: name in p.artifacts && name !in STREAMS ==>
         var a := p.artifacts[name];
         && (match stage.job
             case Transpile =>
               (name == "generated_source" && a.path == s.desk.generated)
               || (name == "source_map" && a.path == s.desk.sourceMap)
             case Build => name == "native" && a.path == s.desk.native
             case Compile => name == "object" && a.path == s.desk.archive
             case _ => false)
         && a.parent == if mode == Compiled && stage.job != Transpile && p.parentLaunchId.Some?
                        then Some(Parent(p.parentLaunchId.value, "generated_source")) else None
  }

  lemma {:induction false} FollowerIsFiled(stage: Stage, s: Setup, mode: Mode, parent: Option<string>, combined: bool)
    requires var o := OrderFor(s, mode, stage.job, parent, combined);
             Launcher.Follows(stage.receipt, o, stage.receipt.launchId) && stage.receipt.stageId == o.stageId
    ensures Filed(stage, s, mode)
  {
    hide Launcher.ProducedBy;
  }

  ghost predicate AllFiled(stages: seq<Stage>, s: Setup, mode: Mode) {
    forall stage :: stage in stages ==> Filed(stage, s, mode)
  }

  /** One stage, launched on what the stages before it left. */
  method LaunchStage(stages: seq<Stage>, m: Machine, j: Journal, s: Setup, mode: Mode, job: Job, parent: Option<string>,
                     combined: bool)
    returns (receipt: Option<Payload>)
    requires ValidSetup(s) && j.Valid() && m.group == {}
    requires ParentLaunched(j.ledger, |j.ledger|, LastLaunch(stages, parent))
    requires Traced(stages, j.ledger, m.files, s.desk)
    requires mode == Compiled && (job == Build || job == Compile) ==>
               |stages| > 0 && stages[|stages| - 1].job == Transpile
    modifies m, j
    ensures j.Valid() && old(j.departures) <= j.departures && AllSound(j.departures, |old(j.departures)|, s.desk)
    ensures (j.fair ==> old(j.fair)) && (old(j.Sealed()) ==> KeptJoined(j, s))
    ensures receipt.Some? ==> j.refusals == old(j.refusals)
    ensures receipt.None? ==> old(j.refusals) < j.refusals
    ensures receipt.Some? ==> Filed(Stage(job, receipt.value), s, mode)
    ensures receipt.Some? && receipt.value.terminal.state == Ended ==> receipt.value.launch.pid.Some?
    ensures receipt.Some? ==>
              && receipt.value.parentLaunchId == LastLaunch(stages, parent)
              && (receipt.value.outputMode == COMBINED <==> combined)
    ensures receipt.Some? && Success(receipt.value) ==>
              && m.group == {}
              && ParentLaunched(j.ledger, |j.ledger|, Some(receipt.value.launchId))
              && (job == Transpile && s.desk.generated in m.files ==>
                    Traced(stages + [Stage(job, receipt.value)], j.ledger, m.files, s.desk))
  {
    hide Success, Traced, DepartureSound, Launcher.AllRecorded, DeclaredParents, DeclaredPaths, Filed;
    var order := OrderFor(s, mode, job, LastLaunch(stages, parent), combined);
    receipt := j.CaptureStage(m, order, s.parentPid);
    DepartureIsSound(stages, old(j.ledger), j.departures[|old(j.departures)|], s, mode, job, parent, combined);
    if receipt.Some? { FollowerIsFiled(Stage(job, receipt.value), s, mode, LastLaunch(stages, parent), combined); }
    if receipt.Some? && Success(receipt.value) {
      var stage := Stage(job, receipt.value);
      LastIsLaunched(stages + [stage], j.ledger, parent);
      if job == Transpile && s.desk.generated in m.files {
        TracedAfter(stages, stage, j.ledger, m.files, s, mode, LastLaunch(stages, parent), combined);
      }
    }
  }

  lemma {:induction false} GoingIsValid(r: ModeResult, mode: Mode, phase: Phase, parent: Option<string>, combined: bool,
                                        n: nat)
    requires Going(r, mode, phase, parent, combined, n)
    ensures AllValid(r.checks)
  {
  }

  /** The look before a stage. */
  lemma {:induction false} LookedBefore(r: ModeResult, seen: seq<Answer>, job: Job, fine: bool)
    requires AllWell(r, seen)
    ensures var after, at := seen + [Answer(Inputs(Look(job, true)), fine)], InputCheck(Look(job, true), fine);
            && (fine ==> AllWell(r.(checks := r.checks + [at]), after))
            && (!fine ==> SeenOut(r.(checks := r.checks + [at], standing := InputMutation), after))
  {
    hide CheckList;
    var a := Answer(Inputs(Look(job, true)), fine);
    CheckListGrows(seen, a);
    assert !fine ==> (r.checks + [InputCheck(Look(job, true), fine)])[|r.checks|].valid == false;
    assert forall b :: b in seen + [a] ==> b in seen || b == a;
  }

  /** The look after a stage, and the standing if the stage failed. */
  lemma {:induction false} LookedAfter(r: ModeResult, seen: seq<Answer>, stage: Stage, fine: bool)
    requires AllWell(r.(checks := r.checks + [InputCheck(Look(stage.job, true), true)]), seen)
    requires stage.receipt.terminal.state == Ended ==> stage.receipt.launch.pid.Some?
    ensures var after, done := seen + [Answer(Inputs(Look(stage.job, false)), fine)], WithStage(r, stage, fine);
            && AllWell(done, after)
            && (!fine ==> SeenOut(done.(standing := InputMutation), after))
            && (!Success(stage.receipt) ==>
                  var ended := stage.job == Run && stage.receipt.terminal.state == Ended;
                  SeenOut(done.(standing := if ended then Complete else StageFailure), after))
  {
    hide CheckList;
    var a := Answer(Inputs(Look(stage.job, false)), fine);
    CheckListGrows(seen, a);
    var done := WithStage(r, stage, fine);
    assert !fine ==> done.checks[|r.checks| + 1].valid == false;
    assert forall b :: b in seen + [a] ==> b in seen || b == a;
    assert done.stages[|done.stages| - 1] == stage;
  }

  lemma {:induction false} MoreFiled(stages: seq<Stage>, stage: Stage, s: Setup, mode: Mode)
    requires AllFiled(stages, s, mode) && Filed(stage, s, mode)
    ensures AllFiled(stages + [stage], s, mode)
  {
    hide Filed;
  }

  /** One round of the loop over the commands; `go` tells whether another one may follow. */
  method RunCommand(r: ModeResult, m: Machine, j: Journal, s: Setup, mode: Mode, phase: Phase, parent: Option<string>,
                    combined: bool, n: nat, eyes: Eyes)
    returns (after: Option<ModeResult>, go: bool)
    requires r.standing == Complete && Going(r, mode, phase, parent, combined, n) && n < |Commands(mode, phase)|
    requires ValidSetup(s) && Ready(r, m, j, s.desk, parent)
    requires AllWell(r, eyes.seen) && AllFiled(r.stages, s, mode)
    modifies m, j, eyes
    ensures go ==> after.Some? && AllWell(after.value, eyes.seen)
    ensures after.Some? ==> SeenOut(after.value, eyes.seen) && AllFiled(after.value.stages, s, mode)
    ensures after.None? ==> !go && (old(j.refusals) < j.refusals || Answer(Recordable, false) in eyes.seen)
    ensures old(j.refusals) <= j.refusals
    ensures go ==> after.Some? && after.value.standing == Complete
    ensures go ==> Going(after.value, mode, phase, parent, combined, n + 1)
    ensures !go && after.Some? ==> Ran(after.value, mode, phase, parent, combined)
    ensures go || (after.Some? && after.value.standing == Complete && mode != Interpreted) ==>
              Ready(after.value, m, j, s.desk, parent)
    ensures j.Valid() && old(j.departures) <= j.departures
    ensures AllSound(j.departures, |old(j.departures)|, s.desk)
    ensures (j.fair ==> old(j.fair)) && (old(j.Sealed()) ==> KeptJoined(j, s))
  {
    hide Commands, Going, Recorded, Ran, Success, Traced, DepartureSound, ParentLaunched, CheckList, RightStanding;
    hide AllWell, SeenOut, AllFiled, Filed, DemandedLooks, Looks;
    var job := Commands(mode, phase)[n];
    ghost var seen := eyes.seen;
    GoingIsValid(r, mode, phase, parent, combined, n);
    var intact := eyes.Ask(Inputs(Look(job, true)));
    LookedBefore(r, seen, job, intact);
    var result := r.(checks := r.checks + [InputCheck(Look(job, true), intact)]);
    if !intact {
      result := result.(standing := InputMutation);
      assert !result.checks[|r.checks|].valid;
      RoundSpoiled(r, result, mode, phase, parent, combined, n);
      return Some(result), false;
    }
    FollowsTranspile(r, mode, phase, parent, combined, n);
    var receipt := LaunchStage(r.stages, m, j, s, mode, job, parent, combined && job == Run);
    if receipt.None? { return None, false; }
    var stage := Stage(job, receipt.value);
    result := result.(stages := result.stages + [stage]);
    ghost var launched := eyes.seen;
    intact := eyes.Ask(Inputs(Look(job, false)));
    LookedAfter(r, launched, stage, intact);
    MoreFiled(r.stages, stage, s, mode);
    result := result.(checks := result.checks + [InputCheck(Look(job, false), intact)]);
    StageIsRecorded(r, mode, phase, parent, combined, n, stage, intact);
    if !intact {
      result := result.(standing := InputMutation);
      StageSpoiled(r, result, mode, phase, parent, combined, n, stage);
      return Some(result), false;
    }
    if !Success(receipt.value) {
      var ended := job == Run && receipt.value.terminal.state == Ended;
      result := result.(standing := if ended then Complete else StageFailure);
      RoundFailed(r, mode, phase, parent, combined, n, stage, result.standing);
      return Some(result), false;
    }
    var made := MakeProduct(result, job, m, s.desk, eyes);
    if made.None? { return None, false; }
    RoundMade(r, made.value, mode, phase, parent, combined, n, stage);
    if made.value.standing == Complete {
      OtherIsTraced(made.value.stages, j.ledger, m.files, s.desk);
    }
    return made, made.value.standing == Complete;
  }

  /** In compiled mode the producer comes after the transpilation. */
  lemma {:induction false} FollowsTranspile(r: ModeResult, mode: Mode, phase: Phase, parent: Option<string>,
                                            combined: bool, n: nat)
    requires Going(r, mode, phase, parent, combined, n) && n < |Commands(mode, phase)|
    ensures var job := Commands(mode, phase)[n];
            mode == Compiled && (job == Build || job == Compile) ==>
              |r.stages| > 0 && r.stages[|r.stages| - 1].job == Transpile
    ensures mode != Interpreted ==> Commands(mode, phase)[n] != Run
  {
    hide DemandedLooks, Looks, Made, Recorded;
    assert |Jobs(r.stages)| == n;
    assert n == 1 ==> Jobs(r.stages)[0] == Commands(mode, phase)[0];
  }

  method RunCommands(m: Machine, j: Journal, s: Setup, mode: Mode, phase: Phase, parent: Option<string>, combined: bool,
                     eyes: Eyes)
    returns (r: Option<ModeResult>)
    requires ValidSetup(s) && j.Valid() && m.group == {} && ParentLaunched(j.ledger, |j.ledger|, parent)
    requires eyes.seen == []
    modifies m, j, eyes
    ensures r.Some? ==> SeenOut(r.value, eyes.seen) && AllFiled(r.value.stages, s, mode)
    ensures r.None? ==> old(j.refusals) < j.refusals || Answer(Recordable, false) in eyes.seen
    ensures old(j.refusals) <= j.refusals
    ensures r.Some? ==> Ran(r.value, mode, phase, parent, combined)
    ensures r.Some? && r.value.standing == Complete && mode != Interpreted ==> Ready(r.value, m, j, s.desk, parent)
    ensures j.Valid() && old(j.departures) <= j.departures
    ensures AllSound(j.departures, |old(j.departures)|, s.desk)
    ensures (j.fair ==> old(j.fair)) && (old(j.Sealed()) ==> KeptJoined(j, s))
  {
    hide Going, Ran, Commands, DepartureSound, AllWell, SeenOut, Filed, RightStanding;
    var commands := Commands(mode, phase);
    var result := ModeResult(mode, phase, [], Complete, [], {}, false, None);
    NothingRan(result, mode, phase, parent, combined);
    NothingSeen(result);
    for i := 0 to |commands|
      invariant result.standing == Complete && Going(result, mode, phase, parent, combined, i)
      invariant Ready(result, m, j, s.desk, parent)
      invariant AllWell(result, eyes.seen) && SeenOut(result, eyes.seen) && AllFiled(result.stages, s, mode)
      invariant old(j.refusals) <= j.refusals
      invariant old(j.departures) <= j.departures
      invariant AllSound(j.departures, |old(j.departures)|, s.desk)
      invariant (j.fair ==> old(j.fair)) && (old(j.Sealed()) ==> KeptJoined(j, s))
    {
      var after, go := RunCommand(result, m, j, s, mode, phase, parent, combined, i, eyes);
      if !go { return after; }
      result := after.value;
    }
    AllRan(result, mode, phase, parent, combined);
    return Some(result);
  }

  lemma {:induction false} NothingSeen(r: ModeResult)
    requires r.standing == Complete && r.stages == [] && r.checks == []
    ensures AllWell(r, []) && SeenOut(r, [])
  {
  }

  lemma {:induction false} NothingRan(r: ModeResult, mode: Mode, phase: Phase, parent: Option<string>, combined: bool)
    requires r == ModeResult(mode, phase, [], Complete, [], {}, false, None)
    ensures Going(r, mode, phase, parent, combined, 0)
  {
  }

  lemma {:induction false} AllRan(r: ModeResult, mode: Mode, phase: Phase, parent: Option<string>, combined: bool)
    requires r.standing == Complete && Going(r, mode, phase, parent, combined, |Commands(mode, phase)|)
    ensures Ran(r, mode, phase, parent, combined)
  {
    hide Commands;
  }

  function Effects(before: Snapshot, after: Snapshot): map<string, Change> {
    map p | p in before.Keys + after.Keys && DigestAt(before, p) != DigestAt(after, p) ::
      Change(DigestAt(before, p), DigestAt(after, p))
  }

  function DigestAt(s: Snapshot, path: string): Option<string> {
    if path in s then Some(s[path]) else None
  }

  /** Runs from equal directories have equal effects exactly when they leave equal directories. */
  lemma {:induction false} EffectsTell(before: Snapshot, a: Snapshot, b: Snapshot)
    ensures Effects(before, a) == Effects(before, b) <==> a == b
    ensures Effects(before, a) == map[] <==> before == a
    // The effects are the paths that changed; putting each digest back undoes them.
    ensures var e := Effects(before, a);
            forall p ::
              && (p in e ==> e[p].before != e[p].after)
              && (if p in a then Some(a[p]) else None) == (if p in e then e[p].after else DigestAt(before, p))
              && (if p in before then Some(before[p]) else None) == (if p in e then e[p].before else DigestAt(a, p))
  {
    var ea, eb := Effects(before, a), Effects(before, b);
    if ea == eb {
      forall p ensures DigestAt(a, p) == DigestAt(b, p) {
        assert p in ea ==> ea[p].after == DigestAt(a, p);
        assert p in eb ==> eb[p].after == DigestAt(b, p);
      }
      SameEverywhere(a, b);
    }
    if ea == map[] {
      forall p ensures DigestAt(before, p) == DigestAt(a, p) {
        assert p !in ea;
      }
      SameEverywhere(before, a);
    }
  }

  lemma {:induction false} SameEverywhere(a: Snapshot, b: Snapshot)
    requires forall p :: DigestAt(a, p) == DigestAt(b, p)
    ensures a == b
  {
    forall p ensures p in a <==> p in b { assert DigestAt(a, p) == DigestAt(b, p); }
    forall p | p in a ensures a[p] == b[p] { assert DigestAt(a, p) == DigestAt(b, p); }
  }

  predicate RunStands(r: ModeResult)
    requires r.stages != []
  {
    var p := r.stages[|r.stages| - 1].receipt;
    r.standing == if p.launch.pid.Some? && p.terminal.state == Ended then Complete else StageFailure
  }

  /** What a returned record is worth, whatever the stages and the looks at the files turned out to be. */
  ghost predicate Executed(r: ModeResult, mode: Mode, phase: Phase, parent: Option<string>, combined: bool) {
    && r.mode == mode && r.phase == phase
    && Jobs(r.stages) <= Recipe(mode, phase)
    && StopsAtFailure(r.stages) && Chained(r.stages, parent)
    && (r.standing == Complete ==> Jobs(r.stages) == Recipe(mode, phase))
    && (r.standing == InputMutation <==> !r.integrity)
    // A run counts as complete exactly when it started and ended by itself, whatever its exit code.
    && (r.integrity && r.stages != [] && r.stages[|r.stages| - 1].job == Run ==> RunStands(r))
    && (r.standing == Complete || r.standing == StageFailure ==>
          WellShaped(r) && (PhasesAccepted(r) <==> !(combined && Run in Jobs(r.stages))))
    && (r.standing == Complete && phase == ToRun ==> r.effects.Some?)
    && (forall s :: s in r.stages ==> (s.receipt.outputMode == COMBINED <==> combined && s.job == Run))
  }

  /** `execute_mode`; the snapshots are of the runtime directory before the first command and after a run. */
  method ExecuteMode(m: Machine, j: Journal, s: Setup, mode: Mode, phase: Phase, parent: Option<string>, combined: bool,
                     before: Snapshot, after: Snapshot, eyes: Eyes)
    returns (r: Option<ModeResult>)
    requires ValidSetup(s) && j.Valid() && m.group == {} && ParentLaunched(j.ledger, |j.ledger|, parent)
    requires eyes.seen == []
    modifies m, j, eyes
    ensures r.Some? ==> Executed(r.value, mode, phase, parent, combined)
    ensures r.Some? ==> Witnessed(r.value, eyes.seen) && AllFiled(r.value.stages, s, mode)
    // No record: a launch was refused, a product was a link, or a source was left where the program runs.
    ensures r.None? ==> || old(j.refusals) < j.refusals
                        || Answer(Recordable, false) in eyes.seen || Answer(RuntimeClear, false) in eyes.seen
    ensures r.Some? && r.value.effects.Some? ==> r.value.effects.value == Effects(before, after)
    ensures r.Some? ==>
              (r.value.effects.Some? <==> phase == ToRun && (mode == Interpreted || Run in Jobs(r.value.stages)))
    ensures j.Valid() && old(j.departures) <= j.departures
    ensures AllSound(j.departures, |old(j.departures)|, s.desk)
    // A joined ledger passes the joins again, when the others' receipts are joined.
    ensures old(j.Sealed()) && j.fair && s.base.rootId == j.root ==>
              j.Sealed() && (j.ledger != [] ==> ValidJoins(j.ledger))
  {
    hide Ran, Recipe, Success, DepartureSound, Traced, ParentLaunched, Executed, ValidJoins, SeenOut, Witnessed;
    hide AllFiled, Filed;
    var ran := RunCommands(m, j, s, mode, phase, parent, combined, eyes);
    ghost var seen := eyes.seen;
    JoinedIsValid(j.ledger, j.root);
    if ran.None? { return None; }
    var result := ran.value;
    var intact := eyes.Ask(InputsAtEnd);
    result := result.(integrity := intact && AllValid(result.checks));
    if !result.integrity { result := result.(standing := InputMutation); }
    if phase == ToRun && mode != Interpreted && result.standing == Complete {
      r := RunNative(result, m, j, s, mode, parent, combined, before, after, eyes, ran.value, seen);
      JoinedIsValid(j.ledger, j.root);
      return;
    }
    if mode == Interpreted && phase == ToRun {
      result := result.(effects := Some(Effects(before, after)));
    }
    NoNativeRunSeen(ran.value, result, seen, intact, mode, phase, parent, combined);
    NoNativeRun(ran.value, result, mode, phase, parent, combined);
    return Some(result);
  }

  /** The run of what was built: the last stage, which only fails if it does not end by itself. */
  method RunNative(built: ModeResult, m: Machine, j: Journal, s: Setup, mode: Mode, parent: Option<string>,
                   combined: bool, before: Snapshot, after: Snapshot, eyes: Eyes, ghost ran: ModeResult,
                   ghost seen: seq<Answer>)
    returns (r: Option<ModeResult>)
    requires ValidSetup(s) && mode != Interpreted && ran.standing == Complete && built == ran.(integrity := true)
    requires Ran(ran, mode, ToRun, parent, combined) && Ready(ran, m, j, s.desk, parent) && AllValid(ran.checks)
    requires SeenOut(ran, seen) && eyes.seen == seen + [Answer(InputsAtEnd, true)] && AllFiled(ran.stages, s, mode)
    modifies m, j, eyes
    ensures r.Some? ==> Executed(r.value, mode, ToRun, parent, combined) && Run in Jobs(r.value.stages)
    ensures r.Some? ==> Witnessed(r.value, eyes.seen) && AllFiled(r.value.stages, s, mode)
    ensures r.Some? ==> r.value.effects == Some(Effects(before, after))
    ensures r.None? ==> old(j.refusals) < j.refusals || Answer(RuntimeClear, false) in eyes.seen
    ensures j.Valid() && old(j.departures) <= j.departures
    ensures AllSound(j.departures, |old(j.departures)|, s.desk)
    ensures (j.fair ==> old(j.fair)) && (old(j.Sealed()) ==> KeptJoined(j, s))
  {
    hide Ran, Success, DepartureSound, Traced, ParentLaunched, Executed, SeenOut, Witnessed, AllFiled, Filed;
    var result := built;
    var clear := eyes.Ask(RuntimeClear);
    if !clear { return None; }
    var receipt := LaunchStage(result.stages, m, j, s, mode, Run, parent, combined);
    if receipt.None? { return None; }
    var stage := Stage(Run, receipt.value);
    result := result.(stages := result.stages + [stage]);
    if !(receipt.value.launch.pid.Some? && receipt.value.terminal.state == Ended) {
      result := result.(standing := StageFailure);
    }
    result := result.(effects := Some(Effects(before, after)));
    NativeRun(ran, result, mode, parent, combined, receipt.value);
    NativeRunSeen(ran, result, seen, true);
    MoreFiled(ran.stages, stage, s, mode);
    assert Jobs(result.stages)[|ran.stages|] == Run;
    return Some(result);
  }

  lemma {:induction false} AtEnd(r: ModeResult, seen: seq<Answer>, intact: bool)
    requires SeenOut(r, seen)
    ensures var after := seen + [Answer(InputsAtEnd, intact)];
            && CheckList(after) == r.checks && (Answer(InputsAtEnd, true) in after <==> intact)
            && forall a :: a in after && a.question != InputsAtEnd ==> a in seen
  {
    hide CheckList, RightStanding;
    var a := Answer(InputsAtEnd, intact);
    CheckListGrows(seen, a);
    var after := seen + [a];
    assert after[|seen|] == a && forall b :: b in after ==> b in seen || b == a;
  }

  lemma {:induction false} NoNativeRunSeen(ran: ModeResult, r: ModeResult, seen: seq<Answer>, intact: bool, mode: Mode,
                                           phase: Phase, parent: Option<string>, combined: bool)
    requires Ran(ran, mode, phase, parent, combined) && SeenOut(ran, seen)
    requires r == ran.(integrity := intact && AllValid(ran.checks), standing := r.standing, effects := r.effects)
    requires r.standing == if r.integrity then ran.standing else InputMutation
    ensures Witnessed(r, seen + [Answer(InputsAtEnd, intact)])
    ensures r.integrity && r.stages != [] && r.stages[|r.stages| - 1].job == Run ==> RunStands(r)
  {
    hide CheckList, Success, Commands, DemandedLooks;
    CommandsByMode(mode, phase);
    AtEnd(ran, seen, intact);
    assert forall a :: a in seen ==> a in seen + [Answer(InputsAtEnd, intact)];
  }

  lemma {:induction false} NativeRunSeen(ran: ModeResult, r: ModeResult, seen: seq<Answer>, intact: bool)
    requires SeenOut(ran, seen) && intact && AllValid(ran.checks) && r.stages != []
    requires r == ran.(integrity := true, stages := r.stages, standing := r.standing, effects := r.effects)
    requires r.stages[|r.stages| - 1].job == Run
    requires var p := r.stages[|r.stages| - 1].receipt;
             r.standing == if p.launch.pid.Some? && p.terminal.state == Ended then Complete else StageFailure
    ensures Witnessed(r, seen + [Answer(InputsAtEnd, true)] + [Answer(RuntimeClear, true)])
  {
    hide CheckList, Success;
    AtEnd(ran, seen, intact);
    var ended := seen + [Answer(InputsAtEnd, true)];
    var after := ended + [Answer(RuntimeClear, true)];
    CheckListGrows(ended, Answer(RuntimeClear, true));
    assert after[|seen|] == Answer(InputsAtEnd, true) && after[|ended|] == Answer(RuntimeClear, true);
  }

  lemma {:induction false} NoNativeRun(ran: ModeResult, r: ModeResult, mode: Mode, phase: Phase, parent: Option<string>,
                                       combined: bool)
    requires Ran(ran, mode, phase, parent, combined)
    requires r == ran.(integrity := r.integrity, standing := r.standing, effects := r.effects)
    requires r.integrity ==> AllValid(ran.checks) && r.standing == ran.standing
    requires !r.integrity ==> r.standing == InputMutation
    requires phase == ToRun && mode == Interpreted ==> r.effects.Some?
    requires phase == ToRun && mode != Interpreted ==> r.standing != Complete
    requires r.integrity && r.stages != [] && r.stages[|r.stages| - 1].job == Run ==> RunStands(r)
    ensures Executed(r, mode, phase, parent, combined)
    ensures ran.effects == None && (mode != Interpreted ==> Run !in Jobs(r.stages))
  {
    hide Success, DemandedLooks, Looks;
    CommandsStartRecipe(mode, phase);
    CommandsByMode(mode, phase);
  }

  lemma {:induction false} CommandsStartRecipe(mode: Mode, phase: Phase)
    ensures Recipe(mode, phase) == Commands(mode, phase) + if phase == ToRun && mode != Interpreted then [Run] else []
  {
  }

  lemma {:induction false} ChainGrows(stages: seq<Stage>, s: Stage, parent: Option<string>)
    requires Chained(stages, parent) && s.receipt.parentLaunchId == LastLaunch(stages, parent)
    ensures Chained(stages + [s], parent)
  {
    var more := stages + [s];
    assert forall i :: 0 <= i < |stages| ==> more[i] == stages[i];
  }

  lemma {:induction false} NativeRun(ran: ModeResult, r: ModeResult, mode: Mode, parent: Option<string>, combined: bool,
                                     receipt: Payload)
    requires Ran(ran, mode, ToRun, parent, combined) && mode != Interpreted && ran.standing == Complete
    requires r == ran.(integrity := true, stages := ran.stages + [Stage(Run, receipt)], standing := r.standing,
                       effects := r.effects)
    requires r.standing == Complete || r.standing == StageFailure
    requires r.effects.Some? && AllValid(ran.checks) && RunStands(r)
    requires receipt.parentLaunchId == LastLaunch(ran.stages, parent) && (receipt.outputMode == COMBINED <==> combined)
    ensures Executed(r, mode, ToRun, parent, combined)
  {
    hide Success, Looks, DemandedLooks;
    CommandsStartRecipe(mode, ToRun);
    JobsGrow(ran.stages, Stage(Run, receipt));
    DemandedGrow(mode, Jobs(ran.stages), Run);
    MadeStays(ran, r);
    var n := |ran.stages|;
    assert ran.stages[n - 1].job == Jobs(ran.stages)[n - 1] == Build;
    assert Made(ran.stages[n - 1], ran);
    assert Going(ran, mode, ToRun, parent, combined, n);
    ChainGrows(ran.stages, Stage(Run, receipt), parent);
    assert forall s :: s in r.stages ==> s in ran.stages || s == Stage(Run, receipt);
  }
}
