/** Two judges of one case: the executor's verdict, and the one that re-checks a stored record. */
module Verdicts {
  import opened ByteStrings
  import opened Kernel
  import opened Lineage
  import opened Joins
  import opened Staging
  import opened Pipeline
  import opened SampleLaunches
  import Launcher

  /** The record of a case; its modes in the order in which they were entered. */
  datatype Record = Record(phase: Phase, modes: seq<(Mode, ModeResult)>)

  const MODES: seq<Mode> := [Baseline, Interpreted, Compiled]

  function Keys(record: Record): (ks: seq<Mode>)
    ensures |ks| == |record.modes|
  {
    seq(|record.modes|, i requires 0 <= i < |record.modes| => record.modes[i].0)
  }

  /** The digest of a stream in the stage record, which lists the streams of its output mode only. */
  function StreamDigest(p: Payload, name: string): Option<string> {
    if (name == "combined") == (p.outputMode == COMBINED) && name in p.artifacts
    then Some(p.artifacts[name].file.sha256) else None
  }

  predicate Finished(r: ModeResult) {
    r.standing == Complete && r.integrity
  }

  /** The last stage is a run that ended by itself, without a signal. */
  predicate RanOut(r: ModeResult)
    requires r.stages != []
  {
    var last := r.stages[|r.stages| - 1];
    && last.job == Run && last.receipt.terminal.state == Ended && last.receipt.launch.pid.Some?
    && last.receipt.terminal.signal == None
  }

  datatype Observation =
    | Separate(exit: Option<nat>, out: Option<string>, err: Option<string>, effects: map<string, Change>)
    | Together(exit: Option<nat>, combined: Option<string>, effects: map<string, Change>)

  /** A finished mode that ran has its last stage and its effects on record. */
  predicate Observable(r: ModeResult) {
    r.stages != [] && r.effects.Some?
  }

  function LastReceipt(r: ModeResult): Payload
    requires r.stages != []
  {
    r.stages[|r.stages| - 1].receipt
  }

  function ObserveExactly(r: ModeResult): Observation
    requires Observable(r)
  {
    var p := LastReceipt(r);
    if p.outputMode == COMBINED then Together(p.terminal.exit, StreamDigest(p, "combined"), r.effects.value)
    else Separate(p.terminal.exit, StreamDigest(p, "stdout"), StreamDigest(p, "stderr"), r.effects.value)
  }

  function ObserveStreams(r: ModeResult): Observation
    requires Observable(r)
  {
    var p := LastReceipt(r);
    Separate(p.terminal.exit, StreamDigest(p, "stdout"), StreamDigest(p, "stderr"), r.effects.value)
  }

  /** `uniq.length == 1`. */
  predicate OneOnly(observations: seq<Observation>) {
    |set o | o in observations| == 1
  }

  lemma {:induction false} OneOnlyIsAllEqual(os: seq<Observation>)
    ensures OneOnly(os) <==> os != [] && forall i, j :: 0 <= i < |os| && 0 <= j < |os| ==> os[i] == os[j]
  {
    var all := set o | o in os;
    if OneOnly(os) {
      var o :| o in all;
      assert all == {o} by { assert |all - {o}| == 0; }
      assert forall i :: 0 <= i < |os| ==> os[i] in all;
    }
    if os != [] && forall i, j :: 0 <= i < |os| && 0 <= j < |os| ==> os[i] == os[j] {
      assert all == {os[0]};
    }
  }

  predicate Judgeable(record: Record) {
    record.phase == ToRun ==>
      forall i :: 0 <= i < |record.modes| && Finished(record.modes[i].1) ==> Observable(record.modes[i].1)
  }

  /** `exact_verdict` says PASS. */
  predicate ExactPass(record: Record)
    requires Judgeable(record)
  {
    var modes := record.modes;
    && Keys(record) == MODES
    && (forall i :: 0 <= i < |modes| ==> Finished(modes[i].1))
    && (record.phase == ToRun ==>
          && (forall i :: 0 <= i < |modes| ==> RanOut(modes[i].1))
          && OneOnly(seq(|modes|, i requires 0 <= i < |modes| => ObserveExactly(modes[i].1))))
  }

  /** `execution_verdict` says PASS. */
  predicate ExecutionPass(record: Record)
    requires Judgeable(record)
  {
    var modes := record.modes;
    && (forall i :: 0 <= i < |modes| ==> Finished(modes[i].1))
    && (record.phase == ToRun ==>
          && (forall i :: 0 <= i < |modes| ==> RanOut(modes[i].1))
          && OneOnly(seq(|modes|, i requires 0 <= i < |modes| => ObserveStreams(modes[i].1))))
  }

  // ---- the verdicts, field by field ----

  /** The digest of a recorded stream. */
  function Sha(p: Payload, name: string): Option<string> {
    if name in p.artifacts then Some(p.artifacts[name].file.sha256) else None
  }

  /** The mode finished, and its last stage is a run that started and ended by itself. */
  predicate EndedWell(r: ModeResult) {
    && r.stages != []
    && var s := r.stages[|r.stages| - 1];
       && s.job == Run && s.receipt.launch.pid.Some?
       && s.receipt.terminal.state == Ended && s.receipt.terminal.signal.None?
  }

  /** The last stages ended alike, with the same effects and the same bytes in each stream. */
  predicate Alike(a: ModeResult, b: ModeResult)
    requires a.stages != [] && b.stages != []
  {
    var p, q := a.stages[|a.stages| - 1].receipt, b.stages[|b.stages| - 1].receipt;
    && p.terminal.exit == q.terminal.exit && a.effects == b.effects
    && (p.outputMode == "kernel-combined" <==> q.outputMode == "kernel-combined")
    && (if p.outputMode == "kernel-combined" then Sha(p, "combined") == Sha(q, "combined")
        else Sha(p, "stdout") == Sha(q, "stdout") && Sha(p, "stderr") == Sha(q, "stderr"))
  }

  /** What the other verdict compares: streams that were captured together are not there. */
  predicate AlikeApart(a: ModeResult, b: ModeResult)
    requires a.stages != [] && b.stages != []
  {
    var p, q := a.stages[|a.stages| - 1].receipt, b.stages[|b.stages| - 1].receipt;
    && p.terminal.exit == q.terminal.exit && a.effects == b.effects
    && ShaApart(p, "stdout") == ShaApart(q, "stdout") && ShaApart(p, "stderr") == ShaApart(q, "stderr")
  }

  function ShaApart(p: Payload, name: string): Option<string> {
    if p.outputMode == "kernel-combined" then None else Sha(p, name)
  }

  lemma {:induction false} ObservationsSpell(a: ModeResult, b: ModeResult)
    requires Observable(a) && Observable(b)
    ensures ObserveExactly(a) == ObserveExactly(b) <==> Alike(a, b)
    ensures ObserveStreams(a) == ObserveStreams(b) <==> AlikeApart(a, b)
  {
    assert "stdout"[0] == 's' && "stderr"[0] == 's' && "combined"[0] == 'c';
  }

  lemma {:induction false} KeysSpell(record: Record)
    ensures var m := record.modes;
            Keys(record) == MODES <==>
              |m| == 3 && m[0].0 == Baseline && m[1].0 == Interpreted && m[2].0 == Compiled
  {
    var ks := Keys(record);
    if |ks| == 3 { assert ks == [ks[0], ks[1], ks[2]]; }
  }

  /** The executor passes a record exactly in these cases. */
  lemma {:induction false} ExactPassSpells(record: Record)
    requires Judgeable(record)
    ensures var m := record.modes;
            ExactPass(record) <==>
              && |m| == 3 && m[0].0 == Baseline && m[1].0 == Interpreted && m[2].0 == Compiled
              && (forall i :: 0 <= i < |m| ==> m[i].1.standing == Complete && m[i].1.integrity)
              && (record.phase == ToRun ==>
                    && (forall i :: 0 <= i < |m| ==> EndedWell(m[i].1))
                    && (forall i, j :: 0 <= i < |m| && 0 <= j < |m| ==> Alike(m[i].1, m[j].1)))
  {
    hide ObserveExactly, Alike, Keys;
    var m := record.modes;
    KeysSpell(record);
    if record.phase == ToRun && forall i :: 0 <= i < |m| ==> Finished(m[i].1) {
      var os := seq(|m|, i requires 0 <= i < |m| => ObserveExactly(m[i].1));
      OneOnlyIsAllEqual(os);
      forall i, j | 0 <= i < |m| && 0 <= j < |m| ensures os[i] == os[j] <==> Alike(m[i].1, m[j].1) {
        ObservationsSpell(m[i].1, m[j].1);
      }
    }
  }

  /** The re-check passes a record exactly in these; it wants a mode at least, but no order of modes. */
  lemma {:induction false} ExecutionPassSpells(record: Record)
    requires Judgeable(record)
    ensures var m := record.modes;
            ExecutionPass(record) <==>
              && (forall i :: 0 <= i < |m| ==> m[i].1.standing == Complete && m[i].1.integrity)
              && (record.phase == ToRun ==>
                    && m != [] && (forall i :: 0 <= i < |m| ==> EndedWell(m[i].1))
                    && (forall i, j :: 0 <= i < |m| && 0 <= j < |m| ==> AlikeApart(m[i].1, m[j].1)))
  {
    hide ObserveStreams, AlikeApart;
    var m := record.modes;
    if record.phase == ToRun && forall i :: 0 <= i < |m| ==> Finished(m[i].1) {
      var os := seq(|m|, i requires 0 <= i < |m| => ObserveStreams(m[i].1));
      OneOnlyIsAllEqual(os);
      forall i, j | 0 <= i < |m| && 0 <= j < |m| ensures os[i] == os[j] <==> AlikeApart(m[i].1, m[j].1) {
        ObservationsSpell(m[i].1, m[j].1);
      }
    }
  }

  /** What the last stage left in one descriptor for both streams, if it ran that way. */
  function CombinedOf(r: ModeResult): (bool, Option<string>)
    requires r.stages != []
  {
    (LastReceipt(r).outputMode == COMBINED, StreamDigest(LastReceipt(r), "combined"))
  }

  /** The modes ran with the same kind of capture, and with the same bytes when it was one descriptor. */
  predicate SameCapture(record: Record)
  {
    var modes := record.modes;
    forall i, j :: 0 <= i < |modes| && 0 <= j < |modes| && modes[i].1.stages != [] && modes[j].1.stages != [] ==>
      CombinedOf(modes[i].1) == CombinedOf(modes[j].1)
  }

  /** How the verdicts differ, on every record of the three modes. */
  lemma {:induction false} VerdictsDiffer(record: Record)
    requires Judgeable(record)
    ensures ExactPass(record) <==>
              ExecutionPass(record) && Keys(record) == MODES && (record.phase == ToRun ==> SameCapture(record))
  {
    hide ObserveExactly, ObserveStreams, CombinedOf, RanOut, Finished;
    var modes := record.modes;
    if record.phase == ToRun && forall i :: 0 <= i < |modes| ==> Finished(modes[i].1) {
      var exact := seq(|modes|, i requires 0 <= i < |modes| => ObserveExactly(modes[i].1));
      var plain := seq(|modes|, i requires 0 <= i < |modes| => ObserveStreams(modes[i].1));
      OneOnlyIsAllEqual(exact);
      OneOnlyIsAllEqual(plain);
      forall i, j | 0 <= i < |modes| && 0 <= j < |modes|
        ensures exact[i] == exact[j] <==> plain[i] == plain[j] && CombinedOf(modes[i].1) == CombinedOf(modes[j].1)
      {
        ObservationsCompare(modes[i].1, modes[j].1);
      }
    }
  }

  lemma {:induction false} ObservationsCompare(a: ModeResult, b: ModeResult)
    requires Observable(a) && Observable(b)
    ensures ObserveExactly(a) == ObserveExactly(b) <==>
              ObserveStreams(a) == ObserveStreams(b) && CombinedOf(a) == CombinedOf(b)
  {
  }

  /** Modes that the executor ran with separate streams: the two judges agree. */
  lemma {:induction false} SeparateVerdictsAgree(record: Record, parent: Option<string>)
    requires Keys(record) == MODES
    requires forall i :: 0 <= i < |record.modes| ==>
               Executed(record.modes[i].1, record.modes[i].0, record.phase, parent, false)
    ensures Judgeable(record) && (ExactPass(record) <==> ExecutionPass(record))
  {
    hide Recipe, Chained, StopsAtFailure, ExactPass, ExecutionPass;
    var modes := record.modes;
    forall i | 0 <= i < |modes|
      ensures Finished(modes[i].1) && record.phase == ToRun ==> Observable(modes[i].1)
      ensures modes[i].1.stages != [] ==> CombinedOf(modes[i].1) == (false, None)
    {
      SeparateCapture(modes[i].1, modes[i].0, record.phase, parent);
    }
    assert SameCapture(record);
    VerdictsDiffer(record);
  }

  lemma {:induction false} SeparateCapture(r: ModeResult, mode: Mode, phase: Phase, parent: Option<string>)
    requires Executed(r, mode, phase, parent, false)
    ensures Finished(r) && phase == ToRun ==> Observable(r)
    ensures r.stages != [] ==> CombinedOf(r) == (false, None)
  {
    hide PhasesAccepted, Chained, StopsAtFailure, Success;
    if r.stages != [] {
      assert r.stages[|r.stages| - 1] in r.stages;
    }
    if Finished(r) && phase == ToRun {
      assert |Recipe(mode, phase)| > 0;
    }
  }

  /**
   The shape checks take what the executor writes and nothing else: a chained record of separate streams,
   whose run stands as it ended and whose effects are there if it is complete, passes them exactly when
   it is executed and complete, or failed at a stage.
   */
  lemma {:induction false} AcceptedIffExecuted(r: ModeResult, parent: Option<string>)
    requires Chained(r.stages, parent) && forall s :: s in r.stages ==> s.receipt.outputMode != "kernel-combined"
    requires r.integrity && r.stages != [] && r.stages[|r.stages| - 1].job == Run ==> RunStands(r)
    requires r.standing == Complete && r.phase == ToRun ==> r.effects.Some?
    ensures PhasesAccepted(r) <==>
              Executed(r, r.mode, r.phase, parent, false) && (r.standing == Complete || r.standing == StageFailure)
  {
    hide Recipe, DemandedLooks, Looks, Success, Made, Chained;
  }

  /** A record in which a stage that succeeded left too little, or a compilation a program, is refused. */
  lemma {:induction false} MissingProductIsRefused(r: ModeResult, s: Stage)
    requires s in r.stages && Success(s.receipt)
    requires || (s.job == Transpile && (Generated !in r.products || SourceMapFile !in r.products))
             || (s.job == Build && Native !in r.products)
             || (s.job == Compile && (Object !in r.products || Native in r.products))
    ensures !PhasesAccepted(r)
  {
    hide Success, DemandedLooks, Looks, Recipe, Jobs;
    assert !Made(s, r);
  }

  // ---- runs into one descriptor ----

  /** A complete run of the executor passes the shape checks exactly when its streams were captured apart. */
  lemma {:induction false} AcceptedIffSeparate(r: ModeResult, mode: Mode, parent: Option<string>, combined: bool)
    requires Executed(r, mode, ToRun, parent, combined) && Finished(r)
    ensures PhasesAccepted(r) <==> !combined
  {
    hide WellShaped, PhasesAccepted, Chained, StopsAtFailure;
    var recipe := Recipe(mode, ToRun);
    assert recipe[|recipe| - 1] == Run;
  }

  function StagesTogether(mode: Mode, digest: string): seq<Stage> {
    match mode
    case Baseline =>
      [WellDone(mode, Build, 1, None, "x"), WellDone(mode, Run, 2, Some(SampleId(1)), digest)]
    case Interpreted =>
      [WellDone(mode, Run, 3, None, digest)]
    case Compiled =>
      [WellDone(mode, Transpile, 4, None, "x"), WellDone(mode, Build, 5, Some(SampleId(4)), "x"),
       WellDone(mode, Run, 6, Some(SampleId(5)), digest)]
  }

  function Receipts(stages: seq<Stage>): (ps: seq<Payload>)
    ensures |ps| == |stages|
  {
    seq(|stages|, i requires 0 <= i < |stages| => stages[i].receipt)
  }

  /** The receipts of three such runs, in the order in which the modes ran. */
  function LedgerTogether(a: string, b: string, c: string): seq<Payload> {
    Receipts(StagesTogether(Baseline, a)) + Receipts(StagesTogether(Interpreted, b))
    + Receipts(StagesTogether(Compiled, c))
  }

  lemma {:induction false} FirstStage(records: seq<Payload>, mode: Mode, job: Job, n: byte, digest: string)
    requires SampleLedger(records, n) && n < 255
    ensures SampleLedger(records + [WellDone(mode, job, n, None, digest).receipt], n + 1)
  {
    hide WellDone, SampleLedger, SampleSetup;
    WellDoneJoins(records, mode, job, n, None, digest);
  }

  /** The next stage is launched under the last one. */
  lemma {:induction false} NextStage(records: seq<Payload>, mode: Mode, job: Job, n: byte, digest: string)
    requires SampleLedger(records, n) && 0 < n < 255
    requires records != [] && records[|records| - 1].launchId == SampleId(n - 1)
    requires mode == Compiled && (job == Build || job == Compile) ==> GENERATED in records[|records| - 1].artifacts
    ensures SampleLedger(records + [WellDone(mode, job, n, Some(SampleId(n - 1)), digest).receipt], n + 1)
  {
    hide WellDone, SampleLedger, SampleSetup, SampleId, IsLaunchId, DeclaredPaths;
    var parent := Some(SampleId(n - 1));
    SampleIdIsAccepted(n - 1);
    assert Holds(records, |records| - 1, SampleId(n - 1));
    var o := SampleOrder(mode, job, parent);
    assert forall name :: name in o.artifactParents ==> o.artifactParents[name] == Parent(SampleId(n - 1), GENERATED);
    WellDoneJoins(records, mode, job, n, parent, digest);
  }

  lemma {:induction false} BaselineJoins(records: seq<Payload>, digest: string)
    requires SampleLedger(records, 1)
    ensures SampleLedger(records + Receipts(StagesTogether(Baseline, digest)), 3)
  {
    hide WellDone, SampleLedger, SampleId, IsLaunchId, ValidPayload, Success, FilesOf, SampleOrder, Launcher.Follows;
    var p := Receipts(StagesTogether(Baseline, digest));
    WellDoneIsAccepted(Baseline, Build, 1, None, "x");
    FirstStage(records, Baseline, Build, 1, "x");
    NextStage(records + [p[0]], Baseline, Run, 2, digest);
    assert records + p == records + [p[0]] + [p[1]];
  }

  lemma {:induction false} InterpretedJoins(records: seq<Payload>, digest: string)
    requires SampleLedger(records, 3)
    ensures SampleLedger(records + Receipts(StagesTogether(Interpreted, digest)), 4)
  {
    hide WellDone, SampleLedger, SampleId;
    var p := Receipts(StagesTogether(Interpreted, digest));
    FirstStage(records, Interpreted, Run, 3, digest);
    assert records + p == records + [p[0]];
  }

  lemma {:induction false} CompiledJoins(records: seq<Payload>, digest: string)
    requires SampleLedger(records, 4)
    ensures SampleLedger(records + Receipts(StagesTogether(Compiled, digest)), 7)
  {
    hide WellDone, SampleLedger, SampleId, IsLaunchId, ValidPayload, Success, FilesOf, SampleSetup, Launcher.Follows;
    var p := Receipts(StagesTogether(Compiled, digest));
    SampleIdIsAccepted(4);
    WellDoneIsAccepted(Compiled, Transpile, 4, None, "x");
    WellDoneIsAccepted(Compiled, Build, 5, Some(SampleId(4)), "x");
    FirstStage(records, Compiled, Transpile, 4, "x");
    NextStage(records + [p[0]], Compiled, Build, 5, "x");
    NextStage(records + [p[0]] + [p[1]], Compiled, Run, 6, digest);
    assert records + p == records + [p[0]] + [p[1]] + [p[2]];
  }

  /** They make a ledger that the joins accept. */
  lemma {:induction false} TogetherJoins(a: string, b: string, c: string)
    ensures ValidJoins(LedgerTogether(a, b, c))
  {
    hide SampleLedger, StagesTogether, ValidJoins;
    EmptyIsSample();
    BaselineJoins([], a);
    var first := [] + Receipts(StagesTogether(Baseline, a));
    InterpretedJoins(first, b);
    var both := first + Receipts(StagesTogether(Interpreted, b));
    CompiledJoins(both, c);
    assert LedgerTogether(a, b, c) == both + Receipts(StagesTogether(Compiled, c));
    StagesAreSome(c);
    SampleIsJoined(LedgerTogether(a, b, c), 7);
  }

  lemma {:induction false} StagesAreSome(digest: string)
    ensures StagesTogether(Compiled, digest) != []
  {
    hide WellDone, SampleId;
  }

  lemma {:induction false} EmptyIsSample()
    ensures SampleLedger([], 1)
  {
  }

  lemma {:induction false} SampleIsJoined(records: seq<Payload>, n: byte)
    requires SampleLedger(records, n)
    ensures records != [] ==> ValidJoins(records)
  {
    JoinedIsValid(records, "root");
  }

  function Around(job: Job): seq<InputCheck> {
    [InputCheck(Look(job, true), true), InputCheck(Look(job, false), true)]
  }

  /** A complete run whose streams went into one file with that digest. */
  function RunTogether(mode: Mode, digest: string): ModeResult {
    var checks := match mode
      case Baseline => Around(Build)
      case Interpreted => Around(Run)
      case Compiled => Around(Transpile) + Around(Build);
    var products := match mode
      case Baseline => {Native}
      case Interpreted => {}
      case Compiled => {Generated, SourceMapFile, Native};
    ModeResult(mode, ToRun, StagesTogether(mode, digest), Complete, checks, products, true, Some(map[]))
  }

  lemma {:induction false} RunTogetherIsWatched(mode: Mode, digest: string)
    ensures var r := RunTogether(mode, digest);
            Finished(r) && Observable(r) && RanOut(r) && CombinedOf(r) == (true, Some(digest))
            && ObserveStreams(r) == Separate(Some(0), None, None, map[]) && RunStands(r)
  {
    hide WellDone, SampleId, SampleOrder, IsLaunchId, ValidPayload, FilesOf, Launcher.Follows;
    forall n: byte ensures IsLaunchId(SampleId(n)) { SampleIdIsAccepted(n); }
    match mode
    case Baseline => WellDoneIsAccepted(mode, Run, 2, Some(SampleId(1)), digest);
    case Interpreted => WellDoneIsAccepted(mode, Run, 3, None, digest);
    case Compiled => WellDoneIsAccepted(mode, Run, 6, Some(SampleId(5)), digest);
  }

  lemma {:induction false} StagesTogetherRun(mode: Mode, digest: string)
    ensures var stages := StagesTogether(mode, digest);
            && Jobs(stages) == Recipe(mode, ToRun) && Chained(stages, None)
            && forall s :: s in stages ==> Success(s.receipt) && (s.receipt.outputMode == COMBINED <==> s.job == Run)
  {
    hide StagesTogether, Jobs, Recipe, Success, Launcher.Follows, ValidPayload, SampleOrder;
    var stages := StagesTogether(mode, digest);
    JobsTogether(mode, digest);
    forall i: nat | i < |stages|
      ensures stages[i].receipt.parentLaunchId == LastLaunch(stages[..i], None)
      ensures Success(stages[i].receipt) && (stages[i].receipt.outputMode == COMBINED <==> stages[i].job == Run)
      ensures i > 0 ==> stages[..i][i - 1] == stages[i - 1]
    {
      StageIsLaunched(mode, digest, i);
    }
  }

  /** A stage of the run has a receipt that the acceptor takes, of a launch under the order of that stage. */
  ghost predicate Launched(mode: Mode, digest: string, i: nat)
    requires i < |StagesTogether(mode, digest)|
  {
    var stages := StagesTogether(mode, digest);
    var parent := LastLaunch(stages[..i], None);
    var p, o := stages[i].receipt, SampleOrder(mode, stages[i].job, parent);
    && Launcher.Follows(p, o, p.launchId) && p.parentLaunchId == parent
    && (p.outputMode == COMBINED <==> stages[i].job == Run)
    && Success(p) && exists files :: ValidPayload(p, files)
  }

  lemma {:induction false} StageIsLaunched(mode: Mode, digest: string, i: nat)
    requires i < |StagesTogether(mode, digest)|
    ensures Launched(mode, digest, i)
  {
    hide WellDone, SampleId, SampleOrder, IsLaunchId, ValidPayload, Success, FilesOf;
    forall n: byte ensures IsLaunchId(SampleId(n)) { SampleIdIsAccepted(n); }
    var stages := StagesTogether(mode, digest);
    assert i > 0 ==> stages[..i][i - 1] == stages[i - 1];
    match mode
    case Baseline =>
      WellDoneIsAccepted(mode, Build, 1, None, "x");
      WellDoneIsAccepted(mode, Run, 2, Some(SampleId(1)), digest);
    case Interpreted =>
      WellDoneIsAccepted(mode, Run, 3, None, digest);
    case Compiled =>
      WellDoneIsAccepted(mode, Transpile, 4, None, "x");
      WellDoneIsAccepted(mode, Build, 5, Some(SampleId(4)), "x");
      WellDoneIsAccepted(mode, Run, 6, Some(SampleId(5)), digest);
  }

  lemma {:induction false} JobsTogether(mode: Mode, digest: string)
    ensures Jobs(StagesTogether(mode, digest)) == Recipe(mode, ToRun)
  {
    hide WellDone, SampleId;
  }

  /** It is a record that the executor may write. */
  lemma {:induction false} RunTogetherIsExecuted(mode: Mode, digest: string)
    ensures Executed(RunTogether(mode, digest), mode, ToRun, None, true)
  {
    hide StagesTogether, DemandedLooks, Looks, Chained, Success;
    var r := RunTogether(mode, digest);
    var jobs := Jobs(r.stages);
    StagesTogetherRun(mode, digest);
    RunTogetherIsWatched(mode, digest);
    LooksTogether(mode, digest);
    assert jobs[|jobs| - 1] == Run && r.stages[|jobs| - 1] in r.stages && Run in jobs;
    forall s | s in r.stages ensures Made(s, r) {
      var i :| 0 <= i < |r.stages| && r.stages[i] == s;
      assert jobs[i] == s.job;
    }
  }

  lemma {:induction false} LooksTogether(mode: Mode, digest: string)
    ensures var r := RunTogether(mode, digest); Looks(r.checks) == DemandedLooks(mode, Jobs(r.stages))
  {
    hide WellDone, SampleId;
    var r := RunTogether(mode, digest);
    match mode
    case Baseline =>
      assert Jobs(r.stages) == [Build] + [Run];
      NativeRunHasNoLooks(mode, [Build]);
      OneJobLooks(mode, Build);
    case Interpreted =>
      assert Jobs(r.stages) == [Run];
      OneJobLooks(mode, Run);
    case Compiled =>
      assert Jobs(r.stages) == [Transpile, Build] + [Run];
      NativeRunHasNoLooks(mode, [Transpile, Build]);
      assert [Transpile, Build] == [Transpile] + [Build];
      DemandedGrow(mode, [Transpile], Build);
      OneJobLooks(mode, Transpile);
  }

  lemma {:induction false} NativeRunHasNoLooks(mode: Mode, jobs: seq<Job>)
    requires mode != Interpreted
    ensures DemandedLooks(mode, jobs + [Run]) == DemandedLooks(mode, jobs)
  {
    DemandedGrow(mode, jobs, Run);
  }

  lemma {:induction false} OneJobLooks(mode: Mode, job: Job)
    requires job != Run || mode == Interpreted
    ensures DemandedLooks(mode, [job]) == [Look(job, true), Look(job, false)]
  {
    assert [job][1..] == [];
  }

  /**
   With one descriptor for both streams the second verdict does not look at the output: a record that the
   executor may write, on which they differ. The shape checks refuse all its modes before it comes to that.
   */
  lemma {:induction false} CombinedVerdictsDiffer()
    ensures var record := Record(ToRun, [(Baseline, RunTogether(Baseline, "a")),
                                         (Interpreted, RunTogether(Interpreted, "b")),
                                         (Compiled, RunTogether(Compiled, "b"))]);
            && (forall i :: 0 <= i < 3 ==> Executed(record.modes[i].1, record.modes[i].0, ToRun, None, true))
            && Judgeable(record) && ExecutionPass(record) && !ExactPass(record)
            && (forall i :: 0 <= i < 3 ==> !PhasesAccepted(record.modes[i].1))
    ensures forall mode, digest, i: nat :: i < |StagesTogether(mode, digest)| ==> Launched(mode, digest, i)
    ensures ValidJoins(LedgerTogether("a", "b", "b"))
  {
    hide RunTogether, Finished, RanOut, ObserveStreams, ObserveExactly, CombinedOf, LastReceipt;
    hide Executed, PhasesAccepted, StagesTogether, Launched;
    TogetherJoins("a", "b", "b");
    forall mode, digest, i: nat | i < |StagesTogether(mode, digest)| ensures Launched(mode, digest, i) {
      StageIsLaunched(mode, digest, i);
    }
    var a, b, c := RunTogether(Baseline, "a"), RunTogether(Interpreted, "b"), RunTogether(Compiled, "b");
    var record := Record(ToRun, [(Baseline, a), (Interpreted, b), (Compiled, c)]);
    var modes := record.modes;
    forall i | 0 <= i < 3
      ensures Executed(modes[i].1, modes[i].0, ToRun, None, true) && !PhasesAccepted(modes[i].1)
      ensures Finished(modes[i].1) && Observable(modes[i].1) && RanOut(modes[i].1)
      ensures ObserveStreams(modes[i].1) == Separate(Some(0), None, None, map[])
    {
      var digest := if i == 0 then "a" else "b";
      RunTogetherIsWatched(modes[i].0, digest);
      RunTogetherIsExecuted(modes[i].0, digest);
      AcceptedIffSeparate(modes[i].1, modes[i].0, None, true);
    }
    OneOnlyIsAllEqual(seq(|modes|, i requires 0 <= i < |modes| => ObserveStreams(modes[i].1)));
    VerdictsDiffer(record);
    RunTogetherIsWatched(Baseline, "a");
    RunTogetherIsWatched(Interpreted, "b");
    assert modes[0].1 == a && modes[1].1 == b;
    assert "a"[0] != "b"[0];
  }
}
