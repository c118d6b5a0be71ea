/** `invoke_subprocess`: run a child in its own group and observe its whole process tree to completion. */
module Invocation {
  import opened ByteStrings
  import opened Kernel
  import opened Host

  datatype Lifecycle = Clean | Timeout | Outlived | Unreapable

  const MS: nat := 1_000_000
  const FINAL_DRAIN: nat := 500 * MS
  const KILL_GRACE: nat := 250 * MS
  const GROUP_REAP_GRACE: nat := 2000 * MS

  datatype Outcome = Outcome(exit: nat, timedOut: bool, lifecycle: Lifecycle, groupKilled: bool, output: Both<Bytes>)

  method WaitGroupEmpty(h: System, grace: nat) returns (empty: bool)
    requires h.Valid()
    modifies h
    ensures h.Valid() && h.World() && h.Unread() && h.Unasked() && h.signals == old(h.signals)
    ensures (empty ==> h.group == {}) && (old(h.group) == {} ==> empty)
    ensures !empty ==> h.now >= old(h.now) + grace && h.alive.Some? && h.now <= h.alive.value + h.lag + 1
    ensures h.now <= old(h.now) + grace + 20 * MS + 4 * (h.lag + 1)
  {
    var t := h.Clock();
    var deadline := t + grace;
    ghost var first := true;
    while true
      invariant h.Valid() && h.World() && h.Unread() && h.Unasked() && h.signals == old(h.signals)
      invariant h.now <= deadline + 20 * MS + (h.lag + 1)
      invariant first ==> h.now == t
      decreases deadline + 20 * MS + h.lag + 1 - h.now
    {
      var alive := h.GroupAlive();
      if !alive { return true; }
      t := h.Clock();
      if t >= deadline { return false; }
      h.Sleep(20 * MS);
      first := false;
    }
  }

  /** The signals of one attempt on a group: none if it is gone, TERM, and KILL if it outlives the grace. */
  ghost predicate Attempt(sent: seq<Sent>, gone: bool) {
    && |sent| <= 2 && (|sent| < 2 ==> gone)
    && (|sent| > 0 ==> sent[0].sign == Term)
    && (|sent| == 2 ==> sent[1].sign == Kill && sent[1].at >= sent[0].at + 250 * MS)
  }

  /** TERM, a bounded wait, then KILL; false when there was nothing to signal. */
  method KillGroup(h: System) returns (killed: bool)
    requires h.Valid()
    modifies h
    ensures h.Valid() && h.World() && h.Unread() && h.Unasked()
    ensures old(h.signals) <= h.signals && Attempt(h.signals[|old(h.signals)|..], h.group == {})
    ensures killed <==> h.signals != old(h.signals)
    ensures killed ==> old(h.now) < h.signals[|old(h.signals)|].at <= old(h.now) + 2 * (h.lag + 1)
    ensures old(h.group) == {} ==> !killed
    ensures h.now <= old(h.now) + KILL_GRACE + 20 * MS + 8 * (h.lag + 1)
  {
    var alive := h.GroupAlive();
    if !alive { return false; }
    h.Signal(Term);
    var _ := WaitGroupEmpty(h, KILL_GRACE);
    alive := h.GroupAlive();
    if alive { h.Signal(Kill); }
    return true;
  }

  // ---- when a child may be cut short ----

  /** A turn of the loop takes no longer than this, apart from a kill; and a kill no longer than that. */
  function Turn(lag: nat): nat {
    50 * MS + 12 * (lag + 1)
  }

  function KillTime(lag: nat): nat {
    KILL_GRACE + 20 * MS + 8 * (lag + 1)
  }

  /** One invocation: its limits, what was seen as the child was cut short, if it was, and when the loop was over. */
  datatype Course = Course(started: int, timeout: nat, grace: nat, lag: nat, cut: Option<View>, loopEnd: int)

  /**
   The time is up: for a leader that was just waited for in vain, its timeout; after a leader that was
   joined, the grace, when a pipe is not over or the group was just found alive. Until then nothing was
   signalled, and no pipe that is not over was out of sight for more than a turn.
   */
  ghost predicate Due(v: View, started: int, timeout: nat, grace: nat, lag: nat) {
    && v.signals == []
    && (v.joined.None? ==>
          && started + timeout <= v.now <= started + timeout + 2 * Turn(lag)
          && v.running.Some? && v.now <= v.running.value + lag + 1)
    && (v.joined.Some? ==>
          && v.joined.value + grace <= v.now <= v.joined.value + grace + 2 * Turn(lag)
          && ((exists s: Stream :: s !in v.over) || v.alive == Some(v.now)))
    && (forall s: Stream :: s !in v.over ==> v.now <= v.looked.Of(s) + Turn(lag))
  }

  /** KILL comes only after TERM, when the grace has passed. */
  ghost predicate Escalates(signals: seq<Sent>) {
    forall i :: 0 <= i < |signals| && signals[i].sign == Kill ==>
      i > 0 && signals[i - 1].sign == Term && signals[i].at >= signals[i - 1].at + 250 * MS
  }

  /** What an invocation did to the child, against what it says; `v` is what was seen at its end. */
  ghost predicate Fair(o: Outcome, c: Course, v: View) {
    && (o.lifecycle == Clean <==> c.cut.None?)
    && (c.cut.None? ==> v.signals == [])
    && (c.cut.Some? ==>
          var at := c.cut.value;
          && Due(at, c.started, c.timeout, c.grace, c.lag)
          && o.lifecycle in {if at.joined.None? then Timeout else Outlived, Unreapable}
          // The final drain: output is collected until it is over.
          && c.loopEnd >= at.now + 500 * MS
          && (v.signals != [] ==> v.signals[0].at > at.now))
    && Escalates(v.signals) && (o.groupKilled <==> v.signals != [])
    && v.due == {} && (forall s: Stream :: s !in v.over ==> c.loopEnd <= v.looked.Of(s) + Turn(c.lag) + KillTime(c.lag))
    // Unreapable: the group was found alive when the last grace was over, and it had been sent KILL.
    && (o.lifecycle == Unreapable ==>
          && v.alive.Some? && v.alive.value + c.lag + 1 >= c.loopEnd + 2000 * MS
          && v.signals != [] && v.signals[|v.signals| - 1].sign == Kill)
  }

  /** The child was cut short when that was due, and was signalled only after that. */
  ghost predicate CutSound(c: Course, finalDeadline: Option<int>, groupKilled: bool, signals: seq<Sent>) {
    && Escalates(signals) && (groupKilled <==> signals != [])
    && (c.cut.None? ==> signals == [])
    && (c.cut.Some? ==>
          var at := c.cut.value;
          && Due(at, c.started, c.timeout, c.grace, c.lag)
          && finalDeadline.Some? && finalDeadline.value >= at.now + FINAL_DRAIN
          && (signals != [] ==> signals[0].at > at.now))
  }

  /** The variables of one invocation. */
  class Session {
    const h: System
    const started: int
    const timeout: nat
    const grace: nat
    var buffers: Both<Bytes>
    var pipes: set<Stream>
    var lifecycle: Lifecycle
    var groupKilled: bool
    var reaped: Option<Status>
    var groupDeadline: int
    var finalDeadline: Option<int>
    /** What was seen as the child was cut short. */
    ghost var cut: Option<View>

    /** The child has been spawned and nothing of it was observed yet. */
    constructor (h: System, timeout: nat, grace: nat)
      requires h.Valid() && h.Fresh()
      ensures this.h == h && this.timeout == timeout && this.grace == grace && started == h.now
      ensures Valid() && Watched() && reaped == None && finalDeadline == None
    {
      this.h := h;
      this.started := h.now;
      this.timeout := timeout;
      this.grace := grace;
      buffers := Both([], []);
      pipes := {Stdout, Stderr};
      lifecycle := Clean;
      groupKilled := false;
      reaped := None;
      groupDeadline := 0;
      finalDeadline := None;
      cut := None;
      new;
      forall s: Stream ensures s in pipes { OneOfTwo(s); }
    }

    ghost function Limits(): Course
      reads this
    {
      Course(started, timeout, grace, h.lag, cut, 0)
    }

    /** The pipe was read to its end, or it broke. */
    ghost predicate Drained(s: Stream)
      reads this, h
    {
      s in h.broke || (!h.held.Of(s) && buffers.Of(s) == h.written.Of(s))
    }

    ghost predicate Collected()
      reads this, h
    {
      forall s :: h.taken.Of(s) <= |h.written.Of(s)| && buffers.Of(s) == h.written.Of(s)[..h.taken.Of(s)]
    }

    ghost predicate Valid()
      reads this, h
    {
      && Kept()
      && lifecycle == if cut.None? then Clean else if cut.value.joined.None? then Timeout else Outlived
    }

    ghost predicate Kept()
      reads this, h
    {
      && h.Valid() && Reading() && (forall s: Stream :: s in pipes <==> s !in h.over)
      && (reaped.Some? ==> reaped == h.ended && h.joined.Some?)
      && (reaped.Some? && cut.None? ==> 0 <= groupDeadline - h.joined.value - grace <= 2 * (h.lag + 1))
      && (if cut.None? then finalDeadline.None? && h.signals == [] else finalDeadline.Some? && cut.value.now < h.now)
      && CutSound(Limits(), finalDeadline, groupKilled, h.signals)
    }

    ghost predicate Reading()
      reads this, h
    {
      Collected() && forall s: Stream :: s in h.over ==> Drained(s)
    }

    /** Whatever the processes do, what was read stays read. */
    twostate lemma StillReading()
      requires old(Reading()) && h.Valid() && h.World() && buffers == old(buffers)
      requires h.taken == old(h.taken) && h.broke == old(h.broke) && h.over == old(h.over)
      ensures Reading()
    {
      StillPrefix(old(h.written).Of(Stdout), h.written.Of(Stdout), h.taken.Of(Stdout));
      StillPrefix(old(h.written).Of(Stderr), h.written.Of(Stderr), h.taken.Of(Stderr));
    }

    /** Between two turns: every pipe that was ready was read, and none was out of sight for long. */
    ghost predicate Watched()
      reads this, h
    {
      && h.due == {} && (reaped.None? && h.joined.Some? ==> h.now == h.joined.value)
      && forall s: Stream :: s !in h.over ==> h.now <= h.looked.Of(s) + 50 * MS + 4 * (h.lag + 1)
    }

    // ---- time ----

    /** The loop is over by then, whatever the child does. */
    ghost function LoopBound(): int
    {
      started + timeout + grace + KillTime(h.lag) + FINAL_DRAIN + 6 * Turn(h.lag)
    }

    ghost predicate OnTime()
      reads this, h
    {
      && (finalDeadline.None? && reaped.None? ==> h.now <= started + timeout + Turn(h.lag))
      && (finalDeadline.None? && reaped.Some? ==>
            h.now <= groupDeadline + Turn(h.lag) && groupDeadline <= started + timeout + grace + 2 * Turn(h.lag))
      && (finalDeadline.Some? ==>
            h.now <= finalDeadline.value + Turn(h.lag) &&
            finalDeadline.value <= started + timeout + grace + KillTime(h.lag) + FINAL_DRAIN + 4 * Turn(h.lag))
    }

    // ---- one turn of the loop ----

    /** Notice the end of the leader, once, and start the drain grace. */
    method NoticeEnd() returns (now: int)
      requires Valid() && Watched()
      modifies this`reaped, this`groupDeadline, h
      ensures Valid() && h.now == now <= old(h.now) + 3 * (h.lag + 1)
      ensures old(reaped).Some? ==> reaped == old(reaped) && groupDeadline == old(groupDeadline)
      ensures old(reaped).None? && reaped.Some? ==> old(h.now) <= groupDeadline - grace <= old(h.now) + 2 * (h.lag + 1)
      ensures old(h.now) < h.now && h.Unread() && (reaped.Some? <==> h.joined.Some?)
      ensures reaped.None? ==> h.running.Some? && h.now <= h.running.value + h.lag + 1
    {
      hide CutSound, Reading;
      if reaped.None? {
        var s := h.Join(0);
        if s.Some? {
          reaped := s;
          var t := h.Clock();
          groupDeadline := t + grace;
        }
      }
      now := h.Clock();
      StillReading();
    }

    /** Kill the group for a reason, and start the final drain. */
    method CutShort(why: Lifecycle)
      requires Valid() && finalDeadline.None? && Due(h.Seen(), started, timeout, grace, h.lag)
      requires why == if h.joined.None? then Timeout else Outlived
      modifies this`lifecycle, this`groupKilled, this`finalDeadline, this`cut, h
      ensures Valid() && finalDeadline.Some? && h.Unread() && h.Unasked()
      ensures old(h.now) < h.now <= old(h.now) + KillTime(h.lag) + (h.lag + 1)
      ensures finalDeadline.value == h.now + FINAL_DRAIN
    {
      hide Due, Reading;
      cut := Some(h.Seen());
      lifecycle := why;
      var k := KillGroup(h);
      EscalateMore([], h.signals, h.group == {});
      groupKilled := k || groupKilled;
      var t := h.Clock();
      finalDeadline := Some(t + FINAL_DRAIN);
      StillReading();
    }

    /** Just after the leader was waited for: no deadline has passed for long, and no pipe was out of sight for long. */
    ghost predicate Timely()
      reads this, h
    {
      && (reaped.None? ==>
            h.now <= started + timeout + 2 * Turn(h.lag) && h.running.Some? && h.now <= h.running.value + h.lag + 1)
      && (reaped.Some? ==> h.now <= groupDeadline + Turn(h.lag) + 3 * (h.lag + 1))
      && forall s: Stream :: s !in h.over ==> h.now <= h.looked.Of(s) + 50 * MS + 7 * (h.lag + 1)
    }

    /** The deadlines and the end of the tree: is the loop over? */
    method Judge(now: int) returns (done: bool)
      requires Valid() && h.now == now && (reaped.Some? <==> h.joined.Some?)
      requires finalDeadline.None? ==> Timely()
      modifies this`lifecycle, this`groupKilled, this`finalDeadline, this`cut, h
      ensures Valid() && old(h.now) <= h.now && h.Unread() && h.Unasked()
      ensures old(finalDeadline).Some? ==> finalDeadline == old(finalDeadline) && h.now <= old(h.now) + 3 * (h.lag + 1)
      ensures old(finalDeadline).None? && finalDeadline.Some? ==>
                && h.now <= old(h.now) + KillTime(h.lag) + 4 * (h.lag + 1)
                && finalDeadline.value <= old(h.now) + KillTime(h.lag) + 3 * (h.lag + 1) + FINAL_DRAIN
      ensures finalDeadline.None? ==> h.now <= old(h.now) + (h.lag + 1)
      ensures finalDeadline.None? && !done ==> now < if reaped.Some? then groupDeadline else started + timeout
      ensures finalDeadline.Some? ==> (done <==> h.now >= finalDeadline.value)
      ensures done && finalDeadline.None? ==> reaped.Some? && pipes == {} && h.group == {}
    {
      hide CutSound, Reading;
      if finalDeadline.None? && reaped.None? && now >= started + timeout {
        CutShort(Timeout);
      }
      if finalDeadline.None? && reaped.Some? {
        var outstanding := pipes != {};
        if !outstanding {
          outstanding := h.GroupAlive();
          StillReading();
        }
        if !outstanding {
          return true;
        } else if now >= groupDeadline {
          CutShort(Outlived);
        }
      }
      done := false;
      label Cut:
      if finalDeadline.Some? {
        var t := h.Clock();
        done := t >= finalDeadline.value;
        StillReading@Cut();
      }
    }

    /** Wait for output, but not beyond the next deadline, and collect what is there. */
    method Pump()
      requires Valid() && h.due == {} && (reaped.Some? <==> h.joined.Some?)
      modifies this`buffers, this`pipes, h
      ensures Valid() && Watched() && old(h.now) < h.now <= old(h.now) + 50 * MS + 6 * (h.lag + 1)
    {
      hide CutSound, Reading;
      if pipes == {} {
        if reaped.Some? {
          h.Sleep(20 * MS);
        } else {
          var _ := h.Join(50 * MS);
        }
        StillReading();
        return;
      }
      var slice := 50 * MS;
      slice := Shorten(slice, started + timeout);
      if reaped.Some? { slice := Shorten(slice, groupDeadline); }
      if finalDeadline.Some? { slice := Shorten(slice, finalDeadline.value); }
      Gather(slice);
    }

    /** Watch every pipe, and read each that is ready. */
    method Gather(slice: nat)
      requires Valid() && h.due == {} && pipes != {} && slice <= 50 * MS && (reaped.Some? <==> h.joined.Some?)
      modifies this`buffers, this`pipes, h
      ensures Valid() && Watched() && old(h.now) < h.now <= old(h.now) + 50 * MS + 3 * (h.lag + 1)
    {
      hide CutSound, Reading;
      var ready := h.Select(pipes, slice);
      StillReading();
      forall s: Stream | s in h.due ensures s == Stdout || s == Stderr { OneOfTwo(s); }
      if Stdout in ready { Collect(Stdout); }
      if Stderr in ready { Collect(Stderr); }
      assert h.due == {};
    }

    method Shorten(slice: nat, deadline: int) returns (shorter: nat)
      requires Valid()
      modifies h
      ensures Valid() && h.Quiet() && h.now <= old(h.now) + h.lag + 1 && shorter <= slice
    {
      hide CutSound, Reading;
      var t := h.Clock();
      StillReading();
      shorter := if 0 < deadline - t < slice then deadline - t else slice;
    }

    method Collect(s: Stream)
      requires Valid() && s in pipes
      modifies this`buffers, this`pipes, h
      ensures Valid() && old(h.now) < h.now <= old(h.now) + h.lag + 1
      ensures h.due == old(h.due) - {s} && h.looked == old(h.looked) && h.Unasked()
      ensures pipes == old(pipes) || pipes == old(pipes) - {s}
    {
      hide CutSound, Reading;
      Take(s);
    }

    /** One read; its end, or an error, closes the pipe. */
    method Take(s: Stream)
      requires h.Valid() && Reading()
      modifies this`buffers, this`pipes, h
      ensures h.Valid() && Reading() && h.World() && h.Unasked() && h.now <= old(h.now) + h.lag + 1
      ensures h.due == old(h.due) - {s} && h.looked == old(h.looked) && h.signals == old(h.signals)
      ensures || (pipes == old(pipes) && h.over == old(h.over))
              || (pipes == old(pipes) - {s} && h.over == old(h.over) + {s})
    {
      ghost var before, from := h.written, h.taken;
      var r := h.ReadSome(s);
      StillPrefix(before.Of(Stdout), h.written.Of(Stdout), from.Of(Stdout));
      StillPrefix(before.Of(Stderr), h.written.Of(Stderr), from.Of(Stderr));
      if r.Data? {
        TakeMore(h.written.Of(s), from.Of(s), h.taken.Of(s));
        buffers := buffers.With(s, buffers.Of(s) + r.bytes);
      }
      if r.EndOfFile? || r.Broken? { pipes := pipes - {s}; }
    }

    /** The loop, until the tree is finished or the final drain is over. */
    method Observe()
      requires Valid() && Watched() && OnTime()
      modifies this, h
      ensures Valid() && h.now <= LoopBound() && h.due == {}
      ensures finalDeadline.None? ==> reaped.Some? && pipes == {} && h.group == {}
      ensures finalDeadline.Some? ==> h.now >= finalDeadline.value
      ensures forall s: Stream :: s !in h.over ==> h.now <= h.looked.Of(s) + Turn(h.lag) + KillTime(h.lag)
    {
      hide CutSound, Reading;
      while true
        invariant Valid() && Watched() && OnTime()
        decreases LoopBound() - h.now
      {
        ghost var at := h.now;
        var now := NoticeEnd();
        var done := Judge(now);
        if done { return; }
        Pump();
      }
    }

    /** A leader that outlived the loop is killed and reaped. */
    method ReapLate()
      requires Valid() && reaped.None? && cut.Some?
      modifies this`lifecycle, this`groupKilled, this`reaped, h
      ensures Valid() && reaped.Some? && h.Unread() && h.now > old(h.now)
    {
      hide Reading, Due;
      lifecycle := if lifecycle == Clean then Timeout else lifecycle;
      ghost var before := h.signals;
      var k := KillGroup(h);
      EscalateMore(before, h.signals, h.group == {});
      groupKilled := k || groupKilled;
      var s := h.JoinForever();
      reaped := Some(s);
      StillReading();
    }

    method Probe() returns (alive: bool)
      requires Valid()
      modifies h
      ensures Valid() && h.Unread() && h.now > old(h.now)
      ensures (alive <==> h.group != {}) && (old(h.group) == {} ==> !alive)
    {
      hide CutSound, Reading;
      alive := h.GroupAlive();
      StillReading();
    }

    /** What still runs in the group is killed; what cannot be is reported. */
    method Sweep()
      requires Valid() && reaped.Some? && cut.Some?
      modifies this`lifecycle, this`groupKilled, h
      ensures Kept() && h.Unread() && (h.group == {} || lifecycle == Unreapable)
      ensures lifecycle == old(lifecycle) || lifecycle == Unreapable
      ensures lifecycle == Unreapable ==>
                && h.alive.Some? && h.alive.value + h.lag + 1 >= old(h.now) + 2000 * MS
                && h.signals != [] && h.signals[|h.signals| - 1].sign == Kill
    {
      hide Reading, Due;
      lifecycle := if lifecycle == Clean then Outlived else lifecycle;
      ghost var before := h.signals;
      var k := KillGroup(h);
      EscalateMore(before, h.signals, h.group == {});
      groupKilled := k || groupKilled;
      var empty := WaitGroupEmpty(h, GROUP_REAP_GRACE);
      if !empty { lifecycle := Unreapable; }
      StillReading();
    }

    /** What is left after the loop: reap the leader, and leave nothing of the group running. */
    method Finish() returns (o: Outcome)
      requires Valid() && h.due == {} && (finalDeadline.None? ==> reaped.Some? && pipes == {} && h.group == {})
      requires finalDeadline.Some? ==> h.now >= finalDeadline.value
      requires forall s: Stream :: s !in h.over ==> h.now <= h.looked.Of(s) + Turn(h.lag) + KillTime(h.lag)
      modifies this, h
      ensures Reports(o, h.Seen()) && Fair(o, Limits().(loopEnd := old(h.now)), h.Seen())
      ensures cut == old(cut)
    {
      hide Due, Escalates;
      if reaped.None? {
        ReapLate();
      }
      var alive := Probe();
      if alive {
        Sweep();
      }
      var timedOut := lifecycle == Timeout;
      o := Outcome(if timedOut then 124 else ExitCode(reaped.value), timedOut, lifecycle, groupKilled, buffers);
      if o.lifecycle == Clean {
        forall s: Stream ensures s in h.broke || (!h.held.Of(s) && o.output.Of(s) == h.written.Of(s)) {
          assert s !in pipes && Drained(s);
        }
      }
    }
  }

  lemma {:induction false} EscalateMore(before: seq<Sent>, after: seq<Sent>, gone: bool)
    requires Escalates(before) && before <= after && Attempt(after[|before|..], gone)
    ensures Escalates(after) && (!gone ==> after[|after| - 1].sign == Kill)
  {
    var more := after[|before|..];
    assert forall i :: 0 <= i < |more| ==> more[i] == after[|before| + i];
    assert forall i :: 0 <= i < |before| ==> before[i] == after[i];
  }

  lemma {:induction false} OneOfTwo(s: Stream)
    ensures s == Stdout || s == Stderr
  {
  }

  lemma {:induction false} StillPrefix(before: Bytes, after: Bytes, n: nat)
    requires before <= after && n <= |before|
    ensures after[..n] == before[..n]
  {
  }

  lemma {:induction false} TakeMore(b: Bytes, from: nat, to: nat)
    requires from <= to <= |b|
    ensures b[..from] + b[from..to] == b[..to]
  {
  }

  function ExitCode(s: Status): nat {
    match s
    case Exited(code) => code
    case Signalled(signal) => 128 + signal
  }

  /** What an outcome says of the child; `v` is what was seen at the end. */
  ghost predicate Reports(o: Outcome, v: View) {
    && (v.group == {} || o.lifecycle == Unreapable)
    && (o.lifecycle == Clean ==>
          && v.group == {} && v.signals == [] && !o.groupKilled
          && forall s: Stream :: s in v.broke || (!v.held.Of(s) && o.output.Of(s) == v.written.Of(s)))
    // Whatever was read before a kill is kept, in order and without gaps.
    && (forall s: Stream :: v.taken.Of(s) <= |v.written.Of(s)| && o.output.Of(s) == v.written.Of(s)[..v.taken.Of(s)])
    && v.ended.Some? && (o.timedOut <==> o.lifecycle == Timeout)
    && o.exit == if o.timedOut then 124 else match v.ended.value case Exited(code) => code case Signalled(n) => 128 + n
  }

  /** A clean end with exit code 0 after a read that broke before anything was read: what was written is lost. */
  lemma {:induction false} BrokenReadLosesOutput(s: Stream, text: Bytes, c: Course)
    requires text != [] && c.cut == None
    ensures var nothing: Both<Bytes> := Both([], []);
            var v := View(1, {}, Some(Exited(0)), nothing.With(s, text), Both(0, 0), Both(false, false), {s},
                          {Stdout, Stderr}, {}, Both(0, 0), None, Some(1), None, []);
            var o := Outcome(0, false, Clean, false, nothing);
            Reports(o, v) && Fair(o, c, v) && o.output.Of(s) != v.written.Of(s)
  {
    var nothing: Both<Bytes> := Both([], []);
    assert forall t: Stream :: nothing.Of(t) == [];
    var both := {Stdout, Stderr};
    forall t: Stream ensures t in both { OneOfTwo(t); }
  }

  /**
   A child that was just spawned is observed to its end. It is cut short only when its time is up, and the
   loop's share of the time is bounded.
   */
  method InvokeSubprocess(h: System, timeout: nat, grace: nat) returns (o: Outcome, ghost c: Course)
    requires h.Valid() && h.Fresh()
    modifies h
    ensures c.started == old(h.now) && c.timeout == timeout && c.grace == grace && c.lag == h.lag
    ensures Reports(o, h.Seen()) && Fair(o, c, h.Seen())
    ensures c.loopEnd <= old(h.now) + timeout + grace + 250 * MS + 500 * MS + 320 * MS + 80 * (h.lag + 1)
  {
    hide Reports, Fair;
    var session := new Session(h, timeout, grace);
    session.Observe();
    ghost var loopEnd := h.now;
    o := session.Finish();
    c := session.Limits().(loopEnd := loopEnd);
  }
}
