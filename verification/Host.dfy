/**
 The operating system as an adversary for a runner that reads its child through pipes. Assumed:
 time does not run backwards, a call takes at least one tick and at most `lag` ticks longer than it
 was asked to, an empty process group stays empty, nothing is written once every write end of a pipe
 is closed, and end of file comes only after all that was written. A read may also simply break.
 Pipes may be held by processes outside the group.
 */
module Host {
  import opened ByteStrings
  import opened Kernel

  datatype Stream = Stdout | Stderr

  datatype Both<T> = Both(out: T, err: T) {
    function Of(s: Stream): T {
      match s case Stdout => out case Stderr => err
    }

    function With(s: Stream, v: T): (b: Both<T>)
      ensures b.Of(s) == v && forall t :: t != s ==> b.Of(t) == Of(t)
    {
      match s case Stdout => Both(v, err) case Stderr => Both(out, v)
    }
  }

  datatype Read = Data(bytes: Bytes) | WouldBlock | EndOfFile | Broken

  datatype Sign = Term | Kill

  datatype Sent = Sent(sign: Sign, at: int)

  /** The system at one moment: what the processes did, and what the runner has seen and done of it. */
  datatype View = View(now: int, group: set<nat>, ended: Option<Status>, written: Both<Bytes>, taken: Both<nat>,
                       held: Both<bool>, broke: set<Stream>, over: set<Stream>, due: set<Stream>, looked: Both<int>,
                       running: Option<int>, joined: Option<int>, alive: Option<int>, signals: seq<Sent>)

  class System {
    const lag: nat
    var now: int
    var group: set<nat>
    var ended: Option<Status>
    /** All that was ever written to each pipe, how much of it was read, and whether a write end is open. */
    var written: Both<Bytes>
    var taken: Both<nat>
    var held: Both<bool>
    /** The pipes on which a read broke, and those on which one broke or met the end. */
    ghost var broke: set<Stream>
    ghost var over: set<Stream>
    /** The pipes that were ready and have not been read since, and when each pipe was last watched. */
    ghost var due: set<Stream>
    ghost var looked: Both<int>
    /** When the leader was last waited for in vain, and when it was first joined. */
    var running: Option<int>
    var joined: Option<int>
    /** When the group was last found alive. */
    ghost var alive: Option<int>
    /** The signals that were sent to the group. */
    ghost var signals: seq<Sent>

    ghost function Seen(): View
      reads this
    {
      View(now, group, ended, written, taken, held, broke, over, due, looked, running, joined, alive, signals)
    }

    /** The runner has seen and done nothing yet. */
    ghost predicate Fresh()
      reads this
    {
      && taken == Both(0, 0) && broke == {} && over == {} && due == {} && looked == Both(now, now)
      && running == None && joined == None && alive == None && signals == []
    }

    ghost predicate Valid()
      reads this
    {
      (joined.Some? ==> ended.Some?) && forall s :: taken.Of(s) <= |written.Of(s)|
    }

    /** What the other processes and the clock can do; reading and signalling are the runner's. */
    twostate predicate World()
      reads this
    {
      && old(now) < now
      && (old(group) == {} ==> group == {})
      && (old(ended).Some? ==> ended == old(ended))
      && forall s: Stream ::
           && old(written).Of(s) <= written.Of(s)
           && (!old(held).Of(s) ==> !held.Of(s) && written.Of(s) == old(written).Of(s))
    }

    /** Nothing was read and no pipe was watched. */
    twostate predicate Unread()
      reads this
    {
      taken == old(taken) && broke == old(broke) && over == old(over) && due == old(due) && looked == old(looked)
    }

    /** The leader was not waited for. */
    twostate predicate Unasked()
      reads this
    {
      running == old(running) && joined == old(joined)
    }

    twostate predicate Quiet()
      reads this
    {
      World() && Unread() && Unasked() && alive == old(alive) && signals == old(signals)
    }

    /** Some call that takes about `ns` ticks. */
    method Pass(ns: nat)
      requires Valid()
      modifies this
      ensures Valid() && Quiet() && now <= old(now) + ns + lag + 1
    {
      var ticks :| 0 < ticks <= ns + lag + 1;
      now := now + ticks;
      if ended.None? { ended := *; }
      if group != {} { group := *; }
      WriteSome(Stdout);
      WriteSome(Stderr);
    }

    /** A process may append to a pipe and may close its last write end. */
    method WriteSome(s: Stream)
      requires Valid()
      modifies this`written, this`held
      ensures Valid() && old(written).Of(s) <= written.Of(s)
      ensures !old(held).Of(s) ==> !held.Of(s) && written.Of(s) == old(written).Of(s)
      ensures forall t :: t != s ==> written.Of(t) == old(written).Of(t) && held.Of(t) == old(held).Of(t)
    {
      if held.Of(s) {
        var more: Bytes := *;
        var still: bool := *;
        written := written.With(s, written.Of(s) + more);
        held := held.With(s, still);
      }
    }

    method Clock() returns (t: int)
      requires Valid()
      modifies this
      ensures Valid() && Quiet() && now <= old(now) + lag + 1 && t == now
    {
      Pass(0);
      t := now;
    }

    /** Wait up to `ns` for the leader; a leader that is already waited for is returned at once. */
    method Join(ns: nat) returns (s: Option<Status>)
      requires Valid()
      modifies this
      ensures Valid() && World() && Unread() && alive == old(alive) && signals == old(signals)
      ensures now <= old(now) + ns + lag + 1 && (s.Some? ==> s == ended) && (old(joined).Some? ==> old(ended) == s)
      ensures running == (if s.None? then Some(now) else old(running))
      ensures joined == (if s.Some? && old(joined).None? then Some(now) else old(joined))
    {
      Pass(ns);
      var noticed: bool := *;
      s := if noticed || joined.Some? then ended else None;
      if s.None? {
        running := Some(now);
      } else if joined.None? {
        joined := Some(now);
      }
    }

    /** Wait for the leader however long it takes. */
    method JoinForever() returns (s: Status)
      requires Valid()
      modifies this
      ensures Valid() && World() && Unread() && alive == old(alive) && signals == old(signals)
      ensures ended == Some(s) && running == old(running)
      ensures joined == (if old(joined).None? then Some(now) else old(joined))
    {
      Pass(0);
      var ticks :| 0 <= ticks;
      now := now + ticks;
      if ended.None? {
        var last: Status := *;
        ended := Some(last);
      }
      if joined.None? { joined := Some(now); }
      s := ended.value;
    }

    method GroupAlive() returns (found: bool)
      requires Valid()
      modifies this
      ensures Valid() && World() && Unread() && Unasked() && signals == old(signals)
      ensures now <= old(now) + lag + 1 && (found <==> group != {})
      ensures alive == if found then Some(now) else old(alive)
    {
      Pass(0);
      found := group != {};
      if found { alive := Some(now); }
    }

    method Signal(sign: Sign)
      requires Valid()
      modifies this
      ensures Valid() && World() && Unread() && Unasked() && alive == old(alive)
      ensures now <= old(now) + lag + 1 && signals == old(signals) + [Sent(sign, now)]
    {
      Pass(0);
      signals := signals + [Sent(sign, now)];
    }

    method Sleep(ns: nat)
      requires Valid()
      modifies this
      ensures Valid() && Quiet() && now <= old(now) + ns + lag + 1
    {
      Pass(ns);
    }

    /** Wait for one of the pipes: some of the watched pipes may be ready afterwards. */
    method Select(watched: set<Stream>, ns: nat) returns (ready: set<Stream>)
      requires Valid()
      modifies this
      ensures Valid() && World() && Unasked() && alive == old(alive) && signals == old(signals)
      ensures taken == old(taken) && broke == old(broke) && over == old(over)
      ensures now <= old(now) + ns + lag + 1 && ready <= watched && due == old(due) + ready
      ensures forall s: Stream :: looked.Of(s) == if s in watched then old(now) else old(looked).Of(s)
    {
      looked := Both(if Stdout in watched then now else looked.out, if Stderr in watched then now else looked.err);
      Pass(ns);
      var some: set<Stream> := *;
      ready := some * watched;
      due := due + ready;
    }

    method ReadSome(s: Stream) returns (r: Read)
      requires Valid()
      modifies this
      ensures Valid() && World() && Unasked() && now <= old(now) + lag + 1
      ensures alive == old(alive) && signals == old(signals) && looked == old(looked) && due == old(due) - {s}
      ensures forall t :: t != s ==> taken.Of(t) == old(taken).Of(t)
      ensures broke == if r.Broken? then old(broke) + {s} else old(broke)
      ensures over == if r.Broken? || r.EndOfFile? then old(over) + {s} else old(over)
      ensures match r
              case Data(b) => taken.Of(s) == old(taken).Of(s) + |b| && b == written.Of(s)[old(taken).Of(s)..taken.Of(s)]
              case WouldBlock => taken == old(taken)
              case EndOfFile => taken == old(taken) && !held.Of(s) && taken.Of(s) == |written.Of(s)|
              case Broken => taken == old(taken)
    {
      Pass(0);
      due := due - {s};
      var breaks: bool := *;
      if breaks {
        broke, over := broke + {s}, over + {s};
        return Broken;
      }
      var from, to := taken.Of(s), |written.Of(s)|;
      if from == to {
        if held.Of(s) { return WouldBlock; }
        over := over + {s};
        return EndOfFile;
      }
      var upto :| from < upto <= to;
      taken := taken.With(s, upto);
      return Data(written.Of(s)[from..upto]);
    }
  }
}
