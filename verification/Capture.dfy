/** The same launch in its Go form: a waiter beside the poll loop, and deadlines in 64-bit integers. */
module Capture {
  import opened ByteStrings
  import opened Kernel
  import opened Lineage
  import opened Launcher
  import opened Digits

  /** Addition of two `int64` values. */
  function Wrap64(n: int): (r: int)
    ensures IsInt64(r)
    ensures r == n <==> IsInt64(n)
  {
    (n + INT64_LIMIT) % (2 * INT64_LIMIT) - INT64_LIMIT
  }

  // ---- launch identifiers ----

  function LowerHex(n: nat): char
    requires n < 16
  {
    if n < 10 then '0' + n as char else 'a' + (n - 10) as char
  }

  function HexText(b: Bytes): (s: string)
    ensures |s| == 2 * |b|
    ensures forall k :: 0 <= k < |s| ==>
              s[k] == LowerHex(if k % 2 == 0 then b[k / 2] / 16 else b[k / 2] % 16)
  {
    seq(2 * |b|, k requires 0 <= k < 2 * |b| => LowerHex(if k % 2 == 0 then b[k / 2] / 16 else b[k / 2] % 16))
  }

  /** Sixteen random bytes as a version 4 UUID: the version and the variant overwrite six bits. */
  function NewLaunchId(random: Bytes): string
    requires |random| == 16
  {
    var b := random[6 := random[6] % 0x10 + 0x40][8 := random[8] % 0x40 + 0x80];
    var h := HexText(b);
    h[0..8] + "-" + h[8..12] + "-" + h[12..16] + "-" + h[16..20] + "-" + h[20..32]
  }

  /** Whatever the random bytes are, the acceptor's pattern takes the identifier. */
  lemma {:induction false} LaunchIdIsAccepted(random: Bytes)
    requires |random| == 16
    ensures IsLaunchId(NewLaunchId(random))
  {
    var b := random[6 := random[6] % 0x10 + 0x40][8 := random[8] % 0x40 + 0x80];
    var h := HexText(b);
    var s := NewLaunchId(random);
    assert forall k :: 0 <= k < 32 ==> IsLowerHex(h[k]);
    assert s[14] == h[12] == LowerHex(b[6] / 16) && b[6] / 16 == 4;
    assert s[19] == h[16] == LowerHex(b[8] / 16) && 8 <= b[8] / 16 <= 11;
    forall k | 0 <= k < 36
      ensures if k == 8 || k == 13 || k == 18 || k == 23 then s[k] == '-' else IsLowerHex(s[k])
    {
    }
  }

  // ---- the launch ----

  /** The state that a wait leaves behind; none when the wait failed. */
  function StatusOf(w: Wait): Option<Status> {
    if w.Reaped? then Some(w.status) else None
  }

  /** A waiter that fails is done, too: it leaves the leader without a status. */
  method AwaitWaiter(m: Machine, r: Run, pid: nat, expires: int, ghost started: int)
    requires r.state == Ended && r.kills == [] && r.reaps == [] && r.status == None
    requires m.monotonic >= started && m.sent == [] && m.running == None
    modifies m, r
    ensures m.Advanced() && r.Events(pid, started, m.monotonic) && |r.reaps| == 1 && r.Told(m.sent)
    ensures Overdue(r.state, r.kills, m.running, expires)
    ensures InOrder(r.kills) && !r.Has(DescendantSweep) && forall e :: e in r.kills ==> e.reason == DeadlineKill
    ensures r.status.Some? <==> m.failedWaits == old(m.failedWaits)
    ensures r.status.Some? ==> r.status == m.ended
    ensures r.state == Ended || r.state == Deadline
    ensures r.state == Ended ==> r.kills == []
    ensures r.state == Deadline ==> m.monotonic >= expires && r.Has(DeadlineKill)
  {
    hide Overdue, InOrder, HasReason, Tells;
    while true
      invariant m.Advanced() && m.failedWaits == old(m.failedWaits) && m.sent == []
      invariant r.Events(pid, started, m.monotonic)
      invariant m.running.Some? ==> m.running.value < expires
      invariant r.state == Ended && r.kills == [] && r.reaps == []
      decreases expires - m.monotonic
    {
      var done := m.Waited();
      if !done.StillRunning? {
        NeverKilled(r, m.running, expires);
        r.NoteReap(m, pid, StatusOf(done), started);
        return;
      }
      var t := m.Clock();
      if t >= expires {
        done := KillAndWait(m, r, pid, expires, started);
        KilledOnce(r, m.running, expires);
        r.NoteReap(m, pid, StatusOf(done), started);
        return;
      }
      m.Sleep(POLL);
    }
  }

  /** On Unix the missing state of a failed wait is read all the same, which ends the runner. */
  method AttendInGo(m: Machine, r: Run, pid: nat, expires: int, windows: bool, ghost started: int)
    returns (observed: Option<bool>)
    requires r.state == Ended && r.kills == [] && r.reaps == [] && r.status == None
    requires m.monotonic >= started && m.sent == [] && m.running == None
    modifies m, r
    ensures r.Told(m.sent) && InOrder(r.kills) && Overdue(r.state, r.kills, m.running, expires)
    ensures observed.Some? ==> (observed.value <==> r.Has(DescendantSweep))
    ensures m.Advanced() && r.Events(pid, started, m.monotonic) && r.state != LaunchFailure && |r.reaps| == 1
    ensures r.status.Some? <==> m.failedWaits == old(m.failedWaits)
    ensures observed.None? <==> !windows && r.status.None?
    ensures r.status.Some? ==> r.status == m.ended
    ensures observed.Some? ==>
              && (r.state == Ended ==> r.kills == [] && !observed.value && m.group == {})
              && (r.state == ProcessLeak ==> observed.value && r.Has(DescendantSweep))
              && (m.group != {} ==> r.Has(EnsureSweep))
    ensures r.state == Deadline ==> m.monotonic >= expires && r.Has(DeadlineKill)
  {
    hide Overdue, InOrder, HasReason, Tells, KillsFit, ReapsFit;
    AwaitWaiter(m, r, pid, expires, started);
    if r.status.None? && !windows { return None; }
    ghost var state, kills := r.state, r.kills;
    var found := SweepDescendants(m, r, pid, started);
    if found { OverdueStays(state, r.state, kills, r.kills, m.running, expires); }
    ghost var now := m.monotonic;
    var alive := m.GroupAlive();
    StillFit(r, pid, started, now, m.monotonic);
    if alive {
      kills := r.kills;
      r.SignalGroup(m, pid, EnsureSweep, started);
      OverdueStays(r.state, r.state, kills, r.kills, m.running, expires);
    }
    return Some(found);
  }

  /** Spawn, and take ownership of the tree. One that could not be registered has not run, and the launch failed. */
  method Start(m: Machine, windows: bool) returns (pid: Option<nat>)
    requires m.group == {}
    modifies m
    ensures old(m.monotonic) <= m.monotonic && m.failedWaits == old(m.failedWaits) && m.began == old(m.began)
    ensures m.sent == old(m.sent) && m.running == old(m.running)
    ensures if pid.Some? then pid.value > 0 else m.group == {}
  {
    pid := m.Spawn();
    if pid.Some? && windows {
      var registered := m.Register(pid.value);
      if !registered {
        m.EndSuspended(pid.value);
        return None;
      }
    }
  }

  method SuperviseInGo(m: Machine, timeout: int, windows: bool) returns (r: Option<Observation>)
    requires m.group == {} && IsInt64(timeout)
    modifies m
    ensures r.Some? ==>
              var v := r.value;
              && Sound(v) && v.expires == Wrap64(v.started + timeout) && v.started >= old(m.monotonic)
              && Tells(v.kills, m.sent) && Overdue(v.state, v.kills, m.running, v.expires)
              && (v.failure.Some? <==> v.reaps == [])
              && ((v.pid.Some? ==> v.status.Some?) <==> m.failedWaits == old(m.failedWaits))
              && (v.pid.Some? ==> v.reaps != [])
              && (v.status.Some? ==> v.status == m.ended)
              && (v.empty ==> m.group == {})
              && v.wallStarted == m.began
              && m.monotonic >= v.finished
    ensures !windows ==> (r.Some? <==> m.failedWaits == old(m.failedWaits))
    ensures windows ==> r.Some?
  {
    hide KillsFit, ReapsFit, InOrder, HasReason, Overdue;
    var started := m.Clock();
    var wallStarted := m.BeginLaunch();
    var expires := Wrap64(started + timeout);
    var run := new Run();
    var pid := Start(m, windows);
    if pid.None? {
      var finished := m.Clock();
      r := Some(Observation(None, started, wallStarted, expires, Some("Errno::ENOENT"), run.state, run.kills,
                            run.reaps, run.status, false, true, finished));
      NothingStarted(r.value);
      return;
    }
    run.state := Ended;
    var observed := AttendInGo(m, run, pid.value, expires, windows, started);
    if observed.None? { return None; }
    ghost var now := m.monotonic;
    var empty := WaitGroupEmpty(m);
    var finished := m.Clock();
    StillFit(run, pid.value, started, now, finished);
    r := Some(Observation(pid, started, wallStarted, expires, None, run.state, run.kills, run.reaps, run.status,
                          observed.value, empty, finished));
    SoundWhen(r.value);
  }

  /** The times and the signals of the receipt are those of the machine. */
  ghost predicate Traces(p: Payload, o: Order, m: Machine)
    reads m
  {
    && Follows(p, o, p.launchId) && IsLaunchId(p.launchId)
    && p.expires == Wrap64(p.launch.started + o.timeout)
    && p.launch.started <= p.terminal.finished <= m.monotonic
    && p.launch.wallStarted == m.began && p.terminal.wallFinished == m.wall
    && Tells(p.kills, m.sent) && Overdue(p.terminal.state, p.kills, m.running, p.expires)
    && (p.terminal.descendantObserved <==> HasReason(p.kills, DescendantSweep))
    && (p.terminal.state == LaunchFailure <==> p.launch.pid.None?)
  }

  lemma {:induction false} PayloadTraces(m: Machine, o: Order, id: string, parentPid: int, v: Observation,
                                         keys: seq<Bytes>, artifacts: map<string, Artifact>)
    requires Sound(v) && v.expires == Wrap64(v.started + o.timeout) && (v.failure.Some? <==> v.reaps == [])
    requires v.finished <= m.monotonic && v.wallStarted == m.began && IsLaunchId(id) && Tells(v.kills, m.sent)
    requires Overdue(v.state, v.kills, m.running, v.expires)
    requires Increasing(keys) && Elements(keys) == o.environment
    requires ProducedBy(artifacts, id) && Declared(artifacts, o)
    ensures var p := PayloadOf(o, id, parentPid, v, keys, artifacts, m.wall);
            Traces(p, o, m) && Describes(p, o, parentPid)
  {
    hide IsLaunchId, Tells, Overdue, HasReason, Wrap64, Elements, Increasing, ProducedBy, Declared;
  }

  /** The Go `Capture`: separate streams, no parent launch and no further artifacts. */
  method CaptureLaunch(m: Machine, o: Order, random: Bytes, parentPid: int, windows: bool)
    returns (r: Result<Payload, Refusal>)
    requires m.group == {} && IsInt64(o.timeout) && |random| == 16
    requires !o.combined && o.parentLaunchId.None? && o.artifactPaths == map[] && o.artifactParents == map[]
    requires o.rootId != "" && o.stageId != ""
    requires parentPid > 0 && o.realCwd != "" && o.realCwd[0] == '/'
    modifies m
    // The Ruby acceptor, reading the files as they are on return, takes the receipt exactly when no
    // wait for the leader failed, the deadline fits in 64 bits, the wall clock is not behind where it
    // stood when the launch began, and no recorded file has changed since it was recorded.
    ensures r.Ok? ==> (ValidPayload(r.value, m.files) <==>
              && m.failedWaits == old(m.failedWaits)
              && IsInt64(r.value.launch.started + o.timeout)
              && m.wall >= m.began
              && Unchanged(r.value, m.files))
    // Where a missing state cannot be read, a failed wait leaves no receipt.
    ensures !windows && m.failedWaits != old(m.failedWaits) ==> r == Err(NoState)
    ensures r == Err(NoState) ==> !windows && m.failedWaits != old(m.failedWaits)
    ensures r.Err? && r != Err(NoState) ==> Grounds(r.error, o, m.files)
    ensures r.Ok? ==> ValidOrder(o)
    ensures r.Ok? ==> Describes(r.value, o, parentPid) && Traces(r.value, o, m)
    ensures r.Ok? ==> old(m.monotonic) <= r.value.launch.started
    ensures r.Ok? && r.value.launch.pid.Some? && m.failedWaits == old(m.failedWaits) ==>
              r.value.terminal.exit == ExitOf(m.ended) && r.value.terminal.signal == SignalOf(m.ended)
    // A receipt without survivors tells the truth, after a failed registration, too.
    ensures r.Ok? && !r.value.terminal.descendantsSurvived ==> m.group == {} && Unchanged(r.value, m.files)
    ensures r.Ok? && Success(r.value) ==>
              && m.ended == Some(Exited(0)) && m.group == {} && r.value.kills == [] && |r.value.reaps| == 1
  {
    hide IsInt64, Wrap64, Sound, ValidReceipt, OnDisk, Overdue, Tells, HasReason, Traces, Describes;
    hide ProducedBy, Declared;
    if !ValidOrder(o) { return Err(BadArguments); }
    var launchId := NewLaunchId(random);
    LaunchIdIsAccepted(random);
    hide IsLaunchId, NewLaunchId;
    var observation := SuperviseInGo(m, o.timeout, windows);
    if observation.None? { return Err(NoState); }
    var v := observation.value;
    var streams := RecordStreams(m, o, launchId);
    if streams.Err? { return Err(streams.error); }
    var keys := SortedEnvironment(o.environment);
    var wallFinished := m.WallClock();
    Verdict(o, launchId, parentPid, v, keys, streams.value, wallFinished);
    SuccessIsClean(v);
    PayloadTraces(m, o, launchId, parentPid, v, keys, streams.value);
    return Ok(PayloadOf(o, launchId, parentPid, v, keys, streams.value, wallFinished));
  }

  // ---- a deadline past the last 64-bit nanosecond ----

  /** A leader that is found ended at the first poll, of a launch that began at `started`. */
  function Prompt(started: int, timeout: int): Observation {
    Observation(Some(7), started, 0, Wrap64(started + timeout), None, Ended, [],
                [ReapEvent(Some(7), Some(0), None, started, 0)], Some(Exited(0)), false, true, started)
  }

  /**
   The receipt of such a launch is refused just because the sum wrapped. A launch that begins 1024
   nanoseconds after the program, with a timeout of 2^63 - 1024 nanoseconds, is such a case.
   */
  lemma {:induction false} WrappedDeadlineIsRefused(o: Order, launchId: string, parentPid: int, started: int)
    requires ValidOrder(o) && IsLaunchId(launchId) && parentPid > 0 && o.realCwd != "" && o.realCwd[0] == '/'
    requires !o.combined && IsInt64(started) && IsInt64(o.timeout)
    ensures var v := Prompt(started, o.timeout);
            var p := PayloadOf(o, launchId, parentPid, v, [], StreamArtifacts(o, launchId, File(0, "")), 0);
            && Sound(v) && (ValidReceipt(p) <==> IsInt64(started + o.timeout))
            && ValidReceipt(p.(expires := started + o.timeout))
    ensures started == 1024 && o.timeout == INT64_LIMIT - 1024 ==> Wrap64(started + o.timeout) == -INT64_LIMIT
  {
    hide IsLaunchId, ValidReceipt;
    var v := Prompt(started, o.timeout);
    var unwrapped := v.(expires := started + o.timeout);
    var artifacts := StreamArtifacts(o, launchId, File(0, ""));
    Verdict(o, launchId, parentPid, v, [], artifacts, 0);
    Verdict(o, launchId, parentPid, unwrapped, [], artifacts, 0);
  }
}
