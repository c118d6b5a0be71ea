/** The launch receipt and its acceptor: every clause that an authenticated payload has to meet. */
module Lineage {
  import opened ByteStrings
  import opened Kernel

  datatype State = Ended | Deadline | ProcessLeak | LaunchFailure

  datatype Reason = DeadlineKill | DescendantSweep | EnsureSweep

  datatype KillEvent = KillEvent(signal: string, target: Option<nat>, reason: Reason, delivered: bool,
                                 error: Option<string>, monotonic: int, wall: int)

  datatype ReapEvent = ReapEvent(waited: Option<nat>, exit: Option<nat>, signal: Option<nat>, monotonic: int, wall: int)

  /** The launch and the name of an artifact that another artifact was made from. */
  datatype Parent = Parent(launchId: string, artifact: string)

  datatype Artifact = Artifact(path: string, file: File, producer: string, parent: Option<Parent>)

  datatype Launch = Launch(argv: seq<string>, cwd: string, environmentKeys: seq<Bytes>, pid: Option<nat>,
                           parentPid: int,
                           pgid: Option<nat>, started: int, wallStarted: int, failure: Option<string>)

  datatype Terminal = Terminal(finished: int, wallFinished: int, state: State, exit: Option<nat>, signal: Option<nat>,
                               descendantObserved: bool, descendantsSurvived: bool)

  datatype Payload = Payload(schema: string, rootId: string, stageId: string, launchId: string, outputMode: string,
                             parentLaunchId: Option<string>, launch: Launch, clock: string, timeout: int, expires: int,
                             artifacts: map<string, Artifact>, kills: seq<KillEvent>, reaps: seq<ReapEvent>,
                             terminal: Terminal)

  const SCHEMA := "corpus-process-lineage/v3"
  const CLOCK := "CLOCK_MONOTONIC"
  const EPERM := "Errno::EPERM"
  const COMBINED := "kernel-combined"
  const SEPARATE := "separate-nonordering"

  predicate IsLowerHex(c: char) {
    '0' <= c <= '9' || 'a' <= c <= 'f'
  }

  /** The form of a random (version 4) UUID. */
  predicate IsLaunchId(s: string) {
    && |s| == 36
    && (forall k :: 0 <= k < 36 ==> if k == 8 || k == 13 || k == 18 || k == 23 then s[k] == '-' else IsLowerHex(s[k]))
    && s[14] == '4'
    && (s[19] == '8' || s[19] == '9' || s[19] == 'a' || s[19] == 'b')
  }

  predicate ValidHead(p: Payload) {
    && p.schema == SCHEMA
    && IsLaunchId(p.launchId)
    && p.rootId != "" && p.stageId != ""
    && p.clock == CLOCK
    && p.launch.argv != []
    && p.launch.cwd != "" && p.launch.cwd[0] == '/'
    && p.launch.parentPid > 0
  }

  predicate ValidTimes(p: Payload) {
    && p.launch.started + p.timeout == p.expires
    && p.terminal.finished >= p.launch.started
    && p.terminal.wallFinished >= p.launch.wallStarted
  }

  /** The keys are sorted and none is repeated. */
  ghost predicate ValidEnvironment(p: Payload) {
    Increasing(p.launch.environmentKeys)
  }

  predicate ValidOutcome(p: Payload) {
    if p.terminal.state == LaunchFailure then
      p.launch.pid.None? && p.launch.pgid.None? && p.launch.failure.Some? && p.reaps == []
    else
      && p.launch.pid.Some? && p.launch.pid.value > 0 && p.launch.pgid == p.launch.pid
      && p.reaps != []
      && (p.terminal.state == Ended ==> !p.terminal.descendantsSurvived)
      && p.terminal.exit == p.reaps[|p.reaps| - 1].exit && p.terminal.signal == p.reaps[|p.reaps| - 1].signal
  }

  predicate ValidKill(e: KillEvent, p: Payload) {
    && e.target == p.launch.pgid
    && e.signal == "KILL"
    && (if e.delivered then e.error == None else e.error == None || e.error == Some(EPERM))
    && e.monotonic >= p.launch.started
  }

  predicate ValidReap(e: ReapEvent, p: Payload) {
    && e.waited == p.launch.pid
    && (e.exit.Some? <==> e.signal.None?)
    && e.monotonic >= p.launch.started
  }

  predicate ValidEvents(p: Payload) {
    && (forall e :: e in p.kills ==> ValidKill(e, p))
    && (forall e :: e in p.reaps ==> ValidReap(e, p))
    && (p.terminal.state == Deadline ==> exists e :: e in p.kills && e.reason == DeadlineKill)
    && (p.terminal.state == ProcessLeak ==> exists e :: e in p.kills && e.reason == DescendantSweep)
  }

  const STREAMS: set<string> := {"stdout", "stderr", "combined"}

  /** The stream artifacts are those of the output mode. */
  predicate ValidStreams(p: Payload) {
    && (p.outputMode == COMBINED || p.outputMode == SEPARATE)
    && p.artifacts.Keys * STREAMS == if p.outputMode == COMBINED then {"combined"} else {"stdout", "stderr"}
  }

  /** Every artifact is a regular file on disk, with the size and digest that were recorded. */
  ghost predicate OnDisk(artifacts: map<string, Artifact>, files: map<string, File>) {
    forall name :: name in artifacts ==>
      artifacts[name].path in files && files[artifacts[name].path] == artifacts[name].file
  }

  /** No file has changed since it was recorded. */
  ghost predicate Unchanged(p: Payload, files: map<string, File>) {
    OnDisk(p.artifacts, files)
  }

  /** The clauses of `validate_payload!` on the receipt alone. */
  ghost predicate ValidReceipt(p: Payload) {
    ValidHead(p) && ValidTimes(p) && ValidEnvironment(p) && ValidOutcome(p) && ValidEvents(p) && ValidStreams(p)
  }

  /** `validate_payload!`: the receipt is valid, and its files are still as they were recorded. */
  ghost predicate ValidPayload(p: Payload, files: map<string, File>) {
    ValidReceipt(p) && Unchanged(p, files)
  }

  /** `Corpus.success?`, on the stage record that is made from the payload. */
  predicate Success(p: Payload) {
    p.launch.pid.Some? && p.terminal.state == Ended && p.terminal.exit == Some(0) && p.terminal.signal == None
  }
}
