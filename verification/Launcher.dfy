/** The launcher: spawn in an own process group, wait up to a deadline, sweep the group, write the receipt. */
module Launcher {
  import opened ByteStrings
  import opened Kernel
  import opened Lineage
  import opened JsonPrinter

  const REAP_GRACE: nat := 1_000_000_000
  const POLL: nat := 5_000_000

  datatype Order = Order(argv: seq<string>, cwd: string, realCwd: string, environment: set<Bytes>, timeout: int,
                         rootId: string, stageId: string, parentLaunchId: Option<string>, logPrefix: string,
                         artifactPaths: map<string, string>, artifactParents: map<string, Parent>, combined: bool)

  datatype Refusal = BadArguments | ReservedLabel(name: string) | NotRegularFile(path: string) | NoState

  predicate ValidOrder(o: Order) {
    && o.argv != [] && o.logPrefix != "" && o.rootId != "" && o.stageId != ""
    && (o.parentLaunchId.Some? ==> IsLaunchId(o.parentLaunchId.value))
    && "" !in o.artifactPaths
    && o.artifactParents.Keys <= o.artifactPaths.Keys
  }

  /** What the runner knows while a launch is under way. */
  class Run {
    var state: State
    var kills: seq<KillEvent>
    var reaps: seq<ReapEvent>
    var status: Option<Status>

    constructor ()
      ensures state == LaunchFailure && kills == [] && reaps == [] && status == None
    {
      state := LaunchFailure;
      kills := [];
      reaps := [];
      status := None;
    }

    /** The events so far are those of the group `pid`, and none is older than the launch or later than now. */
    ghost predicate Events(pid: nat, started: int, now: int)
      reads this
    {
      KillsFit(kills, pid, started, now) && ReapsFit(reaps, status, pid, started, now)
    }

    /** Each signal was sent once and noted once, and the note says how it was received. */
    ghost predicate Told(sent: seq<Delivery>)
      reads this
    {
      Tells(kills, sent)
    }

    ghost predicate Has(reason: Reason)
      reads this
    {
      HasReason(kills, reason)
    }

    method SignalGroup(m: Machine, pid: nat, reason: Reason, ghost started: int)
      requires m.monotonic >= started && Events(pid, started, m.monotonic) && Told(m.sent)
      modifies this`kills, m
      ensures m.Waitless() && Events(pid, started, m.monotonic) && Told(m.sent)
      ensures |kills| == |old(kills)| + 1 && kills[..|old(kills)|] == old(kills)
      ensures old(m.monotonic) <= kills[|old(kills)|].monotonic <= m.monotonic
      ensures kills[|old(kills)|].reason == reason && kills[|old(kills)|].target == Some(pid)
      ensures Has(reason) && (old(Has(DeadlineKill)) ==> Has(DeadlineKill))
      ensures old(Has(DescendantSweep)) ==> Has(DescendantSweep)
    {
      var error: Option<string> := None;
      var d := m.Kill();
      if d.Denied? { error := Some(EPERM); }
      var t := m.Clock();
      var w := m.WallClock();
      var e := KillEvent("KILL", Some(pid), reason, d.Delivered?, error, t, w);
      assert e in kills + [e];
      assert forall i :: 0 <= i < |kills| ==> m.sent[i] == old(m.sent)[i];
      kills := kills + [e];
    }

    /** A wait that gave no status leaves an event with neither exit code nor signal. */
    method NoteReap(m: Machine, pid: nat, s: Option<Status>, ghost started: int)
      requires m.monotonic >= started && Events(pid, started, m.monotonic)
      modifies this`reaps, this`status, m
      ensures m.Onward() && Events(pid, started, m.monotonic)
      ensures status == s && |reaps| == |old(reaps)| + 1
    {
      var t := m.Clock();
      var w := m.WallClock();
      status := s;
      reaps := reaps + [ReapEvent(Some(pid), ExitOf(status), SignalOf(status), t, w)];
    }
  }

  ghost predicate KillsFit(kills: seq<KillEvent>, pid: nat, started: int, now: int) {
    forall e :: e in kills ==>
      && e.signal == "KILL" && e.target == Some(pid) && started <= e.monotonic <= now
      && (if e.delivered then e.error == None else e.error == None || e.error == Some(EPERM))
  }

  ghost predicate ReapsFit(reaps: seq<ReapEvent>, status: Option<Status>, pid: nat, started: int, now: int) {
    && (forall e :: e in reaps ==> e.waited == Some(pid) && started <= e.monotonic <= now)
    && (status.Some? ==> reaps != [])
    && (reaps != [] ==> var e := reaps[|reaps| - 1]; e.exit == ExitOf(status) && e.signal == SignalOf(status))
  }

  lemma {:induction false} StillFit(r: Run, pid: nat, started: int, now: int, later: int)
    requires r.Events(pid, started, now) && now <= later
    ensures r.Events(pid, started, later)
  {
  }

  ghost predicate Tells(kills: seq<KillEvent>, sent: seq<Delivery>) {
    |kills| == |sent| && forall i :: 0 <= i < |sent| ==>
      && kills[i].delivered == sent[i].Delivered?
      && kills[i].error == if sent[i].Denied? then Some("Errno::EPERM") else None
  }

  ghost predicate HasReason(kills: seq<KillEvent>, reason: Reason) {
    exists e :: e in kills && e.reason == reason
  }

  function ExitOf(s: Option<Status>): Option<nat> {
    if s.Some? && s.value.Exited? then Some(s.value.code) else None
  }

  function SignalOf(s: Option<Status>): Option<nat> {
    if s.Some? && s.value.Signalled? then Some(s.value.signal) else None
  }

  method WaitGroupEmpty(m: Machine) returns (empty: bool)
    modifies m
    ensures m.Onward() && (empty ==> m.group == {}) && (old(m.group) == {} ==> empty)
    ensures !empty ==> m.monotonic >= old(m.monotonic) + REAP_GRACE
  {
    var t := m.Clock();
    var stop := t + REAP_GRACE;
    while true
      invariant m.Onward()
      decreases stop - m.monotonic
    {
      var alive := m.GroupAlive();
      if !alive { return true; }
      t := m.Clock();
      if t >= stop { return false; }
      m.Sleep(POLL);
    }
  }

  function Rank(reason: Reason): nat {
    match reason
    case DeadlineKill => 0
    case DescendantSweep => 1
    case EnsureSweep => 2
  }

  /** Each reason has one signal at most, and they come in this order. */
  ghost predicate InOrder(kills: seq<KillEvent>) {
    forall i, j :: 0 <= i < j < |kills| ==> Rank(kills[i].reason) < Rank(kills[j].reason)
  }

  /** A leader that was found running at its deadline or later was killed then; before it no leader is. */
  ghost predicate Overdue(state: State, kills: seq<KillEvent>, running: Option<int>, expires: int) {
    && (state != Deadline ==> running.Some? ==> running.value < expires)
    && (state == Deadline <==> HasReason(kills, DeadlineKill))
    && (forall e :: e in kills && e.reason == DeadlineKill ==> e.monotonic >= expires)
    && (state == Deadline ==> running.Some?)
  }

  /** The deadline has passed: kill the group, and wait for the leader. */
  method KillAndWait(m: Machine, r: Run, pid: nat, expires: int, ghost started: int) returns (w: Wait)
    requires r.state == Ended && r.kills == [] && r.reaps == [] && r.status == None
    requires m.monotonic >= started && m.monotonic >= expires && m.sent == [] && m.running.Some?
    modifies m, r`state, r`kills
    ensures m.Advanced() && m.failedWaits == old(m.failedWaits) + (if w.WaitFailed? then 1 else 0)
    ensures !w.StillRunning? && (w.Reaped? ==> m.ended == Some(w.status))
    ensures r.Events(pid, started, m.monotonic) && r.Told(m.sent) && r.state == Deadline && m.running.Some?
    ensures |r.kills| == 1 && r.kills[0].reason == DeadlineKill && r.kills[0].monotonic >= expires
  {
    r.state := Deadline;
    r.SignalGroup(m, pid, DeadlineKill, started);
    ghost var now := m.monotonic;
    hide KillsFit, ReapsFit, Tells;
    w := m.WaitForEnd();
    StillFit(r, pid, started, now, m.monotonic);
  }

  lemma {:induction false} KilledOnce(r: Run, running: Option<int>, expires: int)
    requires r.state == Deadline && running.Some?
    requires |r.kills| == 1 && r.kills[0].reason == DeadlineKill && r.kills[0].monotonic >= expires
    ensures Overdue(r.state, r.kills, running, expires) && InOrder(r.kills)
    ensures r.Has(DeadlineKill) && !r.Has(DescendantSweep)
  {
    assert r.kills[0] in r.kills;
  }

  lemma {:induction false} NeverKilled(r: Run, running: Option<int>, expires: int)
    requires r.state == Ended && r.kills == [] && (running.Some? ==> running.value < expires)
    ensures Overdue(r.state, r.kills, running, expires) && InOrder(r.kills) && !r.Has(DescendantSweep) && r.Told([])
  {
  }

  /** Poll for the end of the leader until the deadline, then kill the group and wait. */
  method AwaitLeader(m: Machine, r: Run, pid: nat, expires: int, ghost started: int) returns (failure: Option<string>)
    requires r.state == Ended && r.kills == [] && r.reaps == [] && r.status == None
    requires m.monotonic >= started && m.sent == [] && m.running == None
    modifies m, r
    ensures m.Advanced() && r.Events(pid, started, m.monotonic) && r.Told(m.sent)
    ensures Overdue(r.state, r.kills, m.running, expires)
    ensures InOrder(r.kills) && !r.Has(DescendantSweep) && forall e :: e in r.kills ==> e.reason == DeadlineKill
    ensures failure.None? <==> r.reaps != []
    ensures failure.None? <==> r.status.Some?
    ensures failure.None? <==> m.failedWaits == old(m.failedWaits)
    ensures |r.reaps| <= 1 && (r.status.Some? ==> r.status == m.ended)
    ensures r.state == Ended || r.state == Deadline
    ensures r.state == Ended ==> r.kills == []
    ensures r.state == Deadline ==> m.monotonic >= expires && r.Has(DeadlineKill)
  {
    hide Overdue, InOrder, HasReason, Tells;
    while true
      invariant m.Advanced() && m.failedWaits == old(m.failedWaits) && m.sent == []
      invariant r.Events(pid, started, m.monotonic)
      invariant m.running.Some? ==> m.running.value < expires
      invariant r.state == Ended && r.kills == [] && r.reaps == []
      decreases expires - m.monotonic
    {
      var w := m.TryWait();
      if w.WaitFailed? {
        NeverKilled(r, m.running, expires);
        return Some("Errno");
      }
      if w.Reaped? {
        NeverKilled(r, m.running, expires);
        r.NoteReap(m, pid, Some(w.status), started);
        return None;
      }
      var t := m.Clock();
      if t >= expires {
        w := KillAndWait(m, r, pid, expires, started);
        KilledOnce(r, m.running, expires);
        if w.WaitFailed? { return Some("Errno"); }
        r.NoteReap(m, pid, Some(w.status), started);
        return None;
      }
      m.Sleep(POLL);
    }
  }

  /** Look for descendants that outlived the leader, and kill what is left of the group. */
  method SweepDescendants(m: Machine, r: Run, pid: nat, ghost started: int) returns (observed: bool)
    requires m.monotonic >= started && r.Events(pid, started, m.monotonic) && r.Told(m.sent)
    requires r.state == Ended || r.state == Deadline
    modifies m, r`state, r`kills
    ensures m.Waitless() && r.Events(pid, started, m.monotonic) && r.Told(m.sent)
    ensures |r.kills| == |old(r.kills)| + (if observed then 1 else 0) && old(r.kills) <= r.kills
    ensures observed ==> r.kills[|old(r.kills)|].reason == DescendantSweep
    ensures old(r.Has(DeadlineKill)) ==> r.Has(DeadlineKill)
    ensures r.state == if observed && old(r.state) == Ended then ProcessLeak else old(r.state)
    ensures !observed ==> m.group == {} && r.kills == old(r.kills)
    ensures observed ==> r.Has(DescendantSweep)
  {
    observed := m.GroupAlive();
    if observed {
      if r.state == Ended { r.state := ProcessLeak; }
      r.SignalGroup(m, pid, DescendantSweep, started);
    }
  }

  /** The record of a regular file, or the refusal to make one. */
  method RecordFile(m: Machine, path: string, producer: string, parent: Option<Parent>)
    returns (a: Result<Artifact, Refusal>)
    ensures match a
            case Err(e) => path !in m.files && e == NotRegularFile(path)
            case Ok(a) => a == Artifact(path, a.file, producer, parent) && path in m.files && m.files[path] == a.file
  {
    if path !in m.files { return Err(NotRegularFile(path)); }
    return Ok(Artifact(path, m.files[path], producer, parent));
  }

  function StreamNames(combined: bool): set<string> {
    if combined then {"combined"} else {"stdout", "stderr"}
  }

  ghost predicate ProducedBy(artifacts: map<string, Artifact>, launchId: string) {
    forall name :: name in artifacts ==> artifacts[name].producer == launchId
  }

  /** Every artifact but the streams is declared, at its declared path and with its declared parent; a stream has
      none, and lies at the log prefix under its own name. */
  ghost predicate Declared(artifacts: map<string, Artifact>, o: Order) {
    forall name :: name in artifacts ==>
      if name in STREAMS then artifacts[name].parent == None && artifacts[name].path == o.logPrefix + "." + name
      else
        && name in o.artifactPaths && artifacts[name].path == o.artifactPaths[name]
        && artifacts[name].parent == if name in o.artifactParents then Some(o.artifactParents[name]) else None
  }

  /** The declared artifacts that exist are recorded: those that are regular files, and no others. */
  ghost predicate AllRecorded(artifacts: map<string, Artifact>, o: Order, files: map<string, File>) {
    forall name :: name in o.artifactPaths && name !in STREAMS ==>
      (name in artifacts <==> o.artifactPaths[name] in files)
  }

  /** The receipt joins the ledger the way the order said. */
  ghost predicate Follows(p: Payload, o: Order, launchId: string) {
    && p.launchId == launchId && p.rootId == o.rootId && p.parentLaunchId == o.parentLaunchId
    && p.outputMode == (if o.combined then COMBINED else SEPARATE)
    && ProducedBy(p.artifacts, launchId) && Declared(p.artifacts, o)
  }

  /** Why a launch is refused: its arguments, a label kept for streams, or a stream that is no plain file. */
  ghost predicate Grounds(e: Refusal, o: Order, files: map<string, File>) {
    match e
    case BadArguments => !ValidOrder(o)
    case ReservedLabel(name) => name in o.artifactPaths && (name == "stdout" || name == "stderr" || name == "combined")
    case NotRegularFile(path) =>
      path !in files && exists name :: name in StreamNames(o.combined) && path == o.logPrefix + "." + name
    case NoState => false
  }

  method RecordStreams(m: Machine, o: Order, launchId: string) returns (r: Result<map<string, Artifact>, Refusal>)
    modifies m
    ensures m.Onward()
    ensures r.Err? ==> r.error.NotRegularFile? && Grounds(r.error, o, m.files)
    ensures r.Ok? ==> r.value.Keys == StreamNames(o.combined) && ProducedBy(r.value, launchId) && Declared(r.value, o)
    ensures r.Ok? && old(m.group) == {} ==> OnDisk(r.value, m.files)
  {
    var artifacts: map<string, Artifact> := map[];
    var streams := StreamNames(o.combined);
    while streams != {}
      invariant m.Onward() && artifacts.Keys + streams == StreamNames(o.combined) && artifacts.Keys !! streams
      invariant ProducedBy(artifacts, launchId) && Declared(artifacts, o)
      invariant old(m.group) == {} ==> OnDisk(artifacts, m.files)
      decreases streams
    {
      var name :| name in streams;
      var a := RecordFile(m, o.logPrefix + "." + name, launchId, None);
      if a.Err? { return Err(a.error); }
      artifacts := artifacts[name := a.value];
      streams := streams - {name};
      m.Pass();
    }
    return Ok(artifacts);
  }

  /** The stream files, then the declared artifacts that exist. Processes that survived may write meanwhile. */
  method RecordArtifacts(m: Machine, o: Order, launchId: string) returns (r: Result<map<string, Artifact>, Refusal>)
    modifies m
    ensures m.Onward()
    ensures r.Ok? ==> r.value.Keys * STREAMS == StreamNames(o.combined) && o.artifactPaths.Keys !! STREAMS
    ensures r.Err? ==> (r.error.NotRegularFile? || r.error.ReservedLabel?) && Grounds(r.error, o, m.files)
    ensures r.Ok? ==> ProducedBy(r.value, launchId) && Declared(r.value, o)
    ensures r.Ok? && old(m.group) == {} ==> OnDisk(r.value, m.files) && AllRecorded(r.value, o, m.files)
  {
    hide ProducedBy, Declared, OnDisk;
    r := RecordStreams(m, o, launchId);
    if r.Err? { return; }
    var artifacts := r.value;
    var names := o.artifactPaths.Keys;
    while names != {}
      invariant m.Onward() && names <= o.artifactPaths.Keys
      invariant artifacts.Keys * STREAMS == StreamNames(o.combined)
      invariant forall name :: name in o.artifactPaths && name !in names ==> name !in STREAMS
      invariant ProducedBy(artifacts, launchId) && Declared(artifacts, o)
      invariant old(m.group) == {} ==> OnDisk(artifacts, m.files)
      invariant forall name :: name in names && name !in STREAMS ==> name !in artifacts
      invariant old(m.group) == {} ==> RecordedSoFar(artifacts, o, m.files, names)
      decreases names
    {
      var name :| name in names;
      if name in STREAMS { return Err(ReservedLabel(name)); }
      var path := o.artifactPaths[name];
      if path in m.files {
        var parent := if name in o.artifactParents then Some(o.artifactParents[name]) else None;
        AddDeclared(artifacts, o, launchId, m.files, name);
        artifacts := artifacts[name := Artifact(path, m.files[path], launchId, parent)];
      }
      names := names - {name};
      m.Pass();
    }
    return Ok(artifacts);
  }

  ghost predicate RecordedSoFar(artifacts: map<string, Artifact>, o: Order, files: map<string, File>,
                                names: set<string>) {
    forall name :: name in o.artifactPaths && name !in STREAMS && name !in names ==>
      (name in artifacts <==> o.artifactPaths[name] in files)
  }

  lemma {:induction false} AddDeclared(artifacts: map<string, Artifact>, o: Order, launchId: string,
                                       files: map<string, File>, name: string)
    requires name in o.artifactPaths && name !in STREAMS && o.artifactPaths[name] in files
    requires ProducedBy(artifacts, launchId) && Declared(artifacts, o)
    ensures var path := o.artifactPaths[name];
            var parent := if name in o.artifactParents then Some(o.artifactParents[name]) else None;
            var more := artifacts[name := Artifact(path, files[path], launchId, parent)];
            && ProducedBy(more, launchId) && Declared(more, o)
            && (OnDisk(artifacts, files) ==> OnDisk(more, files))
  {
  }

  /** The environment keys of a receipt, in order. */
  method SortedEnvironment(environment: set<Bytes>) returns (keys: seq<Bytes>)
    ensures Increasing(keys) && Elements(keys) == environment
  {
    var listed: seq<Bytes> := [];
    var rest := environment;
    while rest != {}
      invariant Distinct(listed) && Elements(listed) + rest == environment && Elements(listed) !! rest
      decreases rest
    {
      var key :| key in rest;
      listed := listed + [key];
      rest := rest - {key};
    }
    keys := SortStrings(listed);
  }

  /** What a launch left behind, before it is put into a receipt. */
  datatype Observation = Observation(pid: Option<nat>, started: int, wallStarted: int, expires: int,
                                     failure: Option<string>,
                                     state: State, kills: seq<KillEvent>, reaps: seq<ReapEvent>, status: Option<Status>,
                                     observed: bool, empty: bool, finished: int)

  predicate SoundEvents(v: Observation) {
    && (forall e :: e in v.kills ==>
          && e.signal == "KILL" && e.target == v.pid && e.monotonic >= v.started
          && (if e.delivered then e.error == None else e.error == None || e.error == Some(EPERM)))
    && (forall e :: e in v.reaps ==> e.waited == v.pid && e.monotonic >= v.started)
    && (v.status.Some? ==> v.reaps != [])
    && (v.reaps != [] ==> var e := v.reaps[|v.reaps| - 1]; e.exit == ExitOf(v.status) && e.signal == SignalOf(v.status))
  }

  /** What every launch guarantees, whatever the machine did. */
  ghost predicate Sound(v: Observation) {
    && v.finished >= v.started && InOrder(v.kills)
    && (forall e :: e in v.kills ==> e.monotonic <= v.finished)
    && (forall e :: e in v.reaps ==> e.monotonic <= v.finished)
    && (v.observed <==> HasReason(v.kills, DescendantSweep))
    && SoundEvents(v)
    && (if v.pid.None? then
          v.state == LaunchFailure && v.failure.Some? && v.kills == [] && v.reaps == [] && v.empty
        else
          && v.pid.value > 0 && v.state != LaunchFailure && |v.reaps| <= 1
          && (v.state == Ended && v.reaps != [] ==> v.kills == [] && !v.observed && v.empty)
          && (v.state == Deadline ==> v.finished >= v.expires && exists e :: e in v.kills && e.reason == DeadlineKill)
          && (v.state == ProcessLeak ==> v.observed && exists e :: e in v.kills && e.reason == DescendantSweep)
          // Survivors were signalled once more, and waited for during the whole grace.
          && (!v.empty ==> v.finished >= v.started + REAP_GRACE && exists e :: e in v.kills && e.reason == EnsureSweep))
  }

  /** From the spawned leader to the swept group. */
  method Attend(m: Machine, r: Run, pid: nat, expires: int, ghost started: int)
    returns (failure: Option<string>, observed: bool)
    requires r.state == Ended && r.kills == [] && r.reaps == [] && r.status == None
    requires m.monotonic >= started && m.sent == [] && m.running == None
    modifies m, r
    ensures m.Advanced() && r.Events(pid, started, m.monotonic) && r.state != LaunchFailure && |r.reaps| <= 1
    ensures failure.Some? <==> r.reaps == []
    ensures r.Told(m.sent) && InOrder(r.kills) && Overdue(r.state, r.kills, m.running, expires)
    ensures observed <==> r.Has(DescendantSweep)
    ensures r.reaps != [] <==> m.failedWaits == old(m.failedWaits)
    ensures r.reaps != [] <==> r.status.Some?
    ensures r.status.Some? ==> r.status == m.ended
    ensures r.state == Ended && r.reaps != [] ==> r.kills == [] && !observed && m.group == {}
    ensures r.state == Deadline ==> m.monotonic >= expires && r.Has(DeadlineKill)
    ensures r.state == ProcessLeak ==> observed && r.Has(DescendantSweep)
    ensures m.group != {} ==> r.Has(EnsureSweep)
  {
    hide Overdue, InOrder, HasReason, Tells, KillsFit, ReapsFit;
    observed := false;
    failure := AwaitLeader(m, r, pid, expires, started);
    if failure.None? {
      ghost var state, kills := r.state, r.kills;
      observed := SweepDescendants(m, r, pid, started);
      if observed { OverdueStays(state, r.state, kills, r.kills, m.running, expires); }
    }
    ghost var now := m.monotonic;
    var alive := m.GroupAlive();
    StillFit(r, pid, started, now, m.monotonic);
    if alive {
      ghost var kills := r.kills;
      r.SignalGroup(m, pid, EnsureSweep, started);
      OverdueStays(r.state, r.state, kills, r.kills, m.running, expires);
    }
  }

  /** A later signal for another reason changes nothing about the deadline. */
  lemma {:induction false} OverdueStays(state: State, after: State, kills: seq<KillEvent>, more: seq<KillEvent>,
                                        running: Option<int>, expires: int)
    requires Overdue(state, kills, running, expires) && InOrder(kills) && |more| == |kills| + 1 && kills <= more
    requires more[|kills|].reason != DeadlineKill
    requires forall e :: e in kills ==> Rank(e.reason) < Rank(more[|kills|].reason)
    requires after == state || (state == Ended && after == ProcessLeak)
    ensures Overdue(after, more, running, expires) && InOrder(more)
    ensures forall r :: HasReason(more, r) <==> HasReason(kills, r) || more[|kills|].reason == r
  {
    var last := more[|kills|];
    assert more == kills + [last];
    assert last in more;
    forall r ensures HasReason(more, r) <==> HasReason(kills, r) || last.reason == r {
    }
  }

  lemma {:induction false} NothingStarted(v: Observation)
    requires v.pid.None? && v.state == LaunchFailure && v.failure.Some? && v.kills == [] && v.reaps == [] && v.empty
    requires v.started <= v.finished && !v.observed && v.status.None?
    ensures Sound(v) && Overdue(v.state, v.kills, None, v.expires)
  {
  }

  lemma {:induction false} SoundWhen(v: Observation)
    requires v.pid.Some? && v.pid.value > 0 && v.state != LaunchFailure && |v.reaps| <= 1 && v.started <= v.finished
    requires KillsFit(v.kills, v.pid.value, v.started, v.finished) && InOrder(v.kills)
    requires ReapsFit(v.reaps, v.status, v.pid.value, v.started, v.finished)
    requires v.observed <==> HasReason(v.kills, DescendantSweep)
    requires v.state == Ended && v.reaps != [] ==> v.kills == [] && !v.observed && v.empty
    requires v.state == Deadline ==> v.finished >= v.expires && HasReason(v.kills, DeadlineKill)
    requires v.state == ProcessLeak ==> v.observed
    requires !v.empty ==> v.finished >= v.started + REAP_GRACE && HasReason(v.kills, EnsureSweep)
    ensures Sound(v)
  {
  }

  method Supervise(m: Machine, timeout: int) returns (v: Observation)
    requires m.group == {}
    modifies m
    ensures Sound(v) && v.expires == v.started + timeout && v.started >= old(m.monotonic)
    ensures Tells(v.kills, m.sent) && Overdue(v.state, v.kills, m.running, v.expires)
    ensures v.wallStarted == m.began
    ensures (v.pid.Some? ==> v.reaps != []) <==> m.failedWaits == old(m.failedWaits)
    ensures v.reaps != [] <==> v.status.Some?
    ensures v.failure.Some? <==> v.reaps == []
    ensures v.status.Some? ==> v.status == m.ended
    ensures v.empty ==> m.group == {}
    ensures m.monotonic >= v.finished
  {
    hide KillsFit, ReapsFit, InOrder, HasReason, Overdue;
    var started := m.Clock();
    var wallStarted := m.BeginLaunch();
    var expires := started + timeout;
    var run := new Run();
    var pid := m.Spawn();
    if pid.None? {
      var finished := m.Clock();
      v := Observation(None, started, wallStarted, expires, Some("SystemCallError"), run.state, run.kills, run.reaps,
                       run.status, false, true, finished);
      NothingStarted(v);
      return;
    }
    run.state := Ended;
    var failure, observed := Attend(m, run, pid.value, expires, started);
    ghost var now := m.monotonic;
    var empty := WaitGroupEmpty(m);
    var finished := m.Clock();
    StillFit(run, pid.value, started, now, finished);
    v := Observation(pid, started, wallStarted, expires, failure, run.state, run.kills, run.reaps, run.status,
                     observed, empty, finished);
    SoundWhen(v);
  }

  function PayloadOf(o: Order, launchId: string, parentPid: int, v: Observation, keys: seq<Bytes>,
                     artifacts: map<string, Artifact>, wallFinished: int): Payload
  {
    Payload(SCHEMA, o.rootId, o.stageId, launchId, if o.combined then COMBINED else SEPARATE, o.parentLaunchId,
            Lineage.Launch(o.argv, o.realCwd, keys, v.pid, parentPid, v.pid, v.started, v.wallStarted, v.failure),
            CLOCK, o.timeout, v.expires, artifacts, v.kills, v.reaps,
            Terminal(v.finished, wallFinished, v.state, ExitOf(v.status), SignalOf(v.status), v.observed, !v.empty))
  }

  /** The acceptor's clauses on the receipt alone, whatever happened during the launch. */
  lemma {:induction false} Verdict(o: Order, launchId: string, parentPid: int, v: Observation, keys: seq<Bytes>,
                                   artifacts: map<string, Artifact>, wallFinished: int)
    requires ValidOrder(o) && IsLaunchId(launchId) && parentPid > 0 && o.realCwd != "" && o.realCwd[0] == '/'
    requires Sound(v) && Increasing(keys)
    requires artifacts.Keys * STREAMS == StreamNames(o.combined)
    ensures ValidReceipt(PayloadOf(o, launchId, parentPid, v, keys, artifacts, wallFinished)) <==>
              && (v.pid.Some? ==> v.status.Some?)
              && wallFinished >= v.wallStarted
              && v.started + o.timeout == v.expires
  {
    hide IsLaunchId, Increasing;
    if v.reaps != [] {
      assert v.reaps[0] in v.reaps && forall e :: e in v.reaps ==> e == v.reaps[0];
    }
  }

  /** `ProcessLineage.run`, up to the receipt that it appends. */
  method Launch(m: Machine, o: Order, launchId: string, parentPid: int) returns (r: Result<Payload, Refusal>)
    requires m.group == {}
    requires IsLaunchId(launchId) && parentPid > 0 && o.realCwd != "" && o.realCwd[0] == '/'
    modifies m
    // The acceptor, reading the files as they are on return, takes the receipt exactly when no wait
    // for the leader failed, the wall clock is not behind where it stood when the launch began, and
    // no recorded file has changed since it was recorded.
    ensures r.Ok? ==> (ValidPayload(r.value, m.files) <==>
              && m.failedWaits == old(m.failedWaits)
              && m.wall >= m.began
              && Unchanged(r.value, m.files))
    // Without survivors no file can have changed.
    ensures r.Ok? && !r.value.terminal.descendantsSurvived ==> Unchanged(r.value, m.files)
    ensures r.Ok? ==> Reports(r.value, o, launchId, m) && Describes(r.value, o, parentPid)
    ensures r.Ok? ==> old(m.monotonic) <= r.value.launch.started
    ensures r.Ok? ==> ValidOrder(o) && o.artifactPaths.Keys !! STREAMS
    ensures r.Err? ==> Grounds(r.error, o, m.files)
  {
    hide IsLaunchId, Sound, ValidReceipt, AllRecorded, OnDisk, Overdue, Tells, HasReason;
    if !ValidOrder(o) { return Err(BadArguments); }
    var v := Supervise(m, o.timeout);
    var keys := SortedEnvironment(o.environment);
    var artifacts := RecordArtifacts(m, o, launchId);
    if artifacts.Err? { return Err(artifacts.error); }
    var wallFinished := m.WallClock();
    Verdict(o, launchId, parentPid, v, keys, artifacts.value, wallFinished);
    SuccessIsClean(v);
    return Ok(PayloadOf(o, launchId, parentPid, v, keys, artifacts.value, wallFinished));
  }

  /** A receipt names the order that was launched, and by whom. */
  ghost predicate Describes(p: Payload, o: Order, parentPid: int) {
    && p.schema == "corpus-process-lineage/v3" && p.clock == "CLOCK_MONOTONIC" && p.stageId == o.stageId
    && p.launch.argv == o.argv && p.launch.cwd == o.realCwd && p.launch.parentPid == parentPid
    && Increasing(p.launch.environmentKeys) && Elements(p.launch.environmentKeys) == o.environment
    && p.launch.pgid == p.launch.pid && p.timeout == o.timeout
    && (p.launch.failure.Some? <==> p.reaps == [])
  }

  /** A receipt tells the truth about the machine it was made on. */
  ghost predicate Reports(p: Payload, o: Order, launchId: string, m: Machine)
    reads m
  {
    && Follows(p, o, launchId)
    && p.expires == p.launch.started + o.timeout
    && p.launch.started <= p.terminal.finished <= m.monotonic
    && p.launch.wallStarted == m.began && p.terminal.wallFinished == m.wall
    // Each signal has an event. A leader that was found running when its time was up was killed then.
    && Tells(p.kills, m.sent) && Overdue(p.terminal.state, p.kills, m.running, p.expires)
    && (p.terminal.descendantObserved <==> HasReason(p.kills, DescendantSweep))
    && (p.terminal.state == LaunchFailure <==> p.launch.pid.None?)
    && (p.reaps != [] ==> p.terminal.exit == ExitOf(m.ended) && p.terminal.signal == SignalOf(m.ended))
    && (p.terminal.state == Deadline ==> m.monotonic >= p.expires)
    && (!p.terminal.descendantsSurvived ==>
          m.group == {} && Unchanged(p, m.files) && AllRecorded(p.artifacts, o, m.files))
    // Success means that nothing had to be killed and that nothing is left running.
    && (Success(p) ==>
          && m.ended == Some(Exited(0)) && m.group == {} && p.kills == [] && |p.reaps| == 1
          && !p.terminal.descendantObserved && !p.terminal.descendantsSurvived)
    && p.artifacts.Keys * STREAMS == StreamNames(o.combined)
  }

  lemma {:induction false} SuccessIsClean(v: Observation)
    requires Sound(v)
    ensures v.state == LaunchFailure <==> v.pid.None?
    ensures v.state == Deadline ==> v.finished >= v.expires
    ensures v.finished >= v.started && (v.observed <==> HasReason(v.kills, DescendantSweep))
    ensures v.pid.Some? && v.state == Ended && ExitOf(v.status) == Some(0) ==>
              v.status == Some(Exited(0)) && v.kills == [] && |v.reaps| == 1 && !v.observed && v.empty
    ensures v.status.Some? ==> v.reaps != []
  {
  }

  // ---- a survivor that keeps writing ----

  /** A leader that ended well, and a descendant that the runner was not allowed to kill, in the sweep and after it. */
  function Leak(timeout: int): Observation {
    Observation(Some(7), 0, 0, timeout, None, ProcessLeak,
                [KillEvent("KILL", Some(7), DescendantSweep, false, Some(EPERM), 0, 0),
                 KillEvent("KILL", Some(7), EnsureSweep, false, Some(EPERM), 0, 0)],
                [ReapEvent(Some(7), Some(0), None, 0, 0)], Some(Exited(0)), true, false, REAP_GRACE)
  }

  /** The files that hold these streams, all with the same contents. */
  function StreamFiles(o: Order, contents: File): map<string, File> {
    map name | name in StreamNames(o.combined) :: o.logPrefix + "." + name := contents
  }

  function StreamArtifacts(o: Order, launchId: string, contents: File): map<string, Artifact> {
    map name | name in StreamNames(o.combined) :: Artifact(o.logPrefix + "." + name, contents, launchId, None)
  }

  /** For every order there is a sound observation of a reaped leader whose receipt a surviving writer spoils. */
  lemma {:induction false} SurvivorSpoilsReceipt(o: Order, launchId: string, parentPid: int, recorded: File,
                                                 found: File)
    requires ValidOrder(o) && IsLaunchId(launchId) && parentPid > 0 && o.realCwd != "" && o.realCwd[0] == '/'
    requires recorded != found
    ensures var v := Leak(o.timeout);
            var p := PayloadOf(o, launchId, parentPid, v, [], StreamArtifacts(o, launchId, recorded), 0);
            && Sound(v) && v.reaps != [] && !v.empty
            && ValidPayload(p, StreamFiles(o, recorded)) && !ValidPayload(p, StreamFiles(o, found))
  {
    hide IsLaunchId, ValidReceipt;
    var v := Leak(o.timeout);
    var artifacts := StreamArtifacts(o, launchId, recorded);
    assert v.kills[0] in v.kills && v.kills[1] in v.kills;
    Verdict(o, launchId, parentPid, v, [], artifacts, 0);
    var names := StreamNames(o.combined);
    forall a, b | a in names && b in names && o.logPrefix + "." + a == o.logPrefix + "." + b
      ensures a == b
    {
      SamePrefix(o.logPrefix + ".", a, b);
    }
    var name := if o.combined then "combined" else "stdout";
    assert name in artifacts;
  }

  lemma {:induction false} SamePrefix(p: string, a: string, b: string)
    requires p + a == p + b
    ensures a == b
  {
    assert (p + a)[|p|..] == a && (p + b)[|p|..] == b;
  }
}
