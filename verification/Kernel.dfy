/**
 The operating system as an adversary. Between any two calls of a runner it may run the children,
 end them, let them fork, write files and let time pass, within these assumptions: the monotonic
 clock does not run backwards, a process group that is empty stays empty, only processes of the
 group write the files of a launch, and a reap yields one status. The wall clock may do anything.
 */
module Kernel {
  import opened ByteStrings

  datatype Status = Exited(code: nat) | Signalled(signal: nat)

  datatype Wait = StillRunning | Reaped(status: Status) | WaitFailed(errno: nat)

  datatype Delivery = Delivered | Gone | Denied

  /** The size and the contents of a regular file. */
  datatype File = File(bytes: nat, sha256: string)

  class Machine {
    var monotonic: int
    var wall: int
    /** The live members of the process group that was spawned, the leader among them until it ends. */
    var group: set<nat>
    /** How the leader ended, once it did. */
    var ended: Option<Status>
    /** The regular files, by path. */
    var files: map<string, File>
    /** The paths of symbolic links to regular files. */
    var links: set<string>
    /** How many calls that wait for the leader have failed. */
    ghost var failedWaits: nat
    /** When the leader was last found running, by a wait in vain or before a wait that blocked. */
    ghost var running: Option<int>
    /** How each signal of the launch under way was received. */
    ghost var sent: seq<Delivery>
    /** The wall clock as it stood when the launch under way read it first. */
    ghost var began: int

    /** Anything the other processes and the clocks can do, while the runner neither waits nor signals. */
    twostate predicate Onward()
      reads this
    {
      Waitless() && sent == old(sent)
    }

    /** The same, and signals may have been sent. */
    twostate predicate Waitless()
      reads this
    {
      Advanced() && failedWaits == old(failedWaits) && running == old(running) && old(sent) <= sent
    }

    twostate predicate Advanced()
      reads this
    {
      && old(monotonic) <= monotonic
      && (old(group) == {} ==> group == {} && files == old(files) && links == old(links))
      && (old(ended).Some? ==> ended == old(ended))
      && old(failedWaits) <= failedWaits && old(sent) <= sent
      && began == old(began)
    }

    method Pass()
      modifies this
      ensures Onward()
    {
      var time :| 0 <= time;
      monotonic := monotonic + time;
      wall := *;
      if ended.None? { ended := *; }
      if group != {} {
        group := *;
        files := *;
        links := *;
      }
    }

    method Clock() returns (t: int)
      modifies this
      ensures Onward() && t == monotonic
    {
      Pass();
      t := monotonic;
    }

    method WallClock() returns (t: int)
      modifies this
      ensures Onward() && t == wall
    {
      Pass();
      t := wall;
    }

    /** The reading of the wall clock with which a launch begins. */
    method BeginLaunch() returns (t: int)
      modifies this
      ensures old(monotonic) <= monotonic && failedWaits == old(failedWaits)
      ensures old(group) == {} ==> group == {} && files == old(files) && links == old(links)
      ensures t == wall == began && sent == [] && running == None
    {
      Pass();
      t := wall;
      began, sent, running := wall, [], None;
    }

    method Sleep(ns: nat)
      modifies this
      ensures Onward() && monotonic >= old(monotonic) + ns
    {
      Pass();
      monotonic := monotonic + ns;
    }

    /** Spawning either fails or starts a leader in a group of its own. */
    method Spawn() returns (pid: Option<nat>)
      requires group == {}
      modifies this
      ensures old(monotonic) <= monotonic && failedWaits == old(failedWaits) && began == old(began)
      ensures sent == old(sent) && running == old(running)
      ensures pid.Some? ==> pid.value > 0
      ensures pid.None? ==> group == {}
    {
      Pass();
      var ok: bool := *;
      if !ok { return None; }
      var p :| 0 < p;
      group := *;
      ended := *;
      files := *;
      links := *;
      return Some(p);
    }

    /**
     Take ownership of the spawned tree. That fails only for a leader that was created suspended and
     has not been resumed, so that it never ran and is alone in its group.
     */
    method Register(pid: nat) returns (ok: bool)
      modifies this
      ensures Onward() && (!ok ==> group == {pid})
    {
      Pass();
      ok := true;
      if group == {pid} { ok := *; }
    }

    /** A suspended leader is killed and waited for; nobody is left, and nothing was written. */
    method EndSuspended(pid: nat)
      requires group == {pid}
      modifies this
      ensures Onward() && group == {} && files == old(files) && links == old(links)
    {
      group := {};
      if ended.None? { ended := Some(Signalled(9)); }
    }

    /** Signal 0: is a member of the group alive? */
    method GroupAlive() returns (alive: bool)
      modifies this
      ensures Onward() && (alive <==> group != {})
    {
      Pass();
      alive := group != {};
    }

    method Kill() returns (d: Delivery)
      modifies this
      ensures Waitless() && sent == old(sent) + [d]
    {
      Pass();
      if group == {} {
        d := Gone;
      } else {
        d := *;
      }
      sent := sent + [d];
    }

    /** A wait that does not block reaps the leader only if it has ended; the call itself may fail. */
    method TryWait() returns (w: Wait)
      modifies this
      ensures Advanced() && failedWaits == old(failedWaits) + (if w.WaitFailed? then 1 else 0)
      ensures (w.Reaped? ==> ended == Some(w.status)) && sent == old(sent)
      ensures running == if w.StillRunning? then Some(monotonic) else old(running)
    {
      Pass();
      var failed: bool := *;
      if failed {
        var errno :| 0 < errno;
        failedWaits := failedWaits + 1;
        return WaitFailed(errno);
      }
      if ended.Some? { return Reaped(ended.value); }
      running := Some(monotonic);
      return StillRunning;
    }

    /** A wait that blocks returns once the leader has ended, or fails. */
    method WaitForEnd() returns (w: Wait)
      modifies this
      ensures Advanced() && failedWaits == old(failedWaits) + (if w.WaitFailed? then 1 else 0)
      ensures !w.StillRunning? && (w.Reaped? ==> ended == Some(w.status)) && sent == old(sent)
      ensures running == if old(ended).None? then Some(old(monotonic)) else old(running)
    {
      if ended.None? { running := Some(monotonic); }
      Pass();
      var failed: bool := *;
      if failed {
        var errno :| 0 < errno;
        failedWaits := failedWaits + 1;
        return WaitFailed(errno);
      }
      if ended.None? {
        var s: Status := *;
        ended := Some(s);
      }
      return Reaped(ended.value);
    }

    /** A waiter that runs beside the caller has reaped the leader, has failed to, or is not done yet. */
    method Waited() returns (w: Wait)
      modifies this
      ensures Advanced() && failedWaits == old(failedWaits) + (if w.WaitFailed? then 1 else 0)
      ensures (w.Reaped? ==> ended == Some(w.status)) && sent == old(sent)
      ensures running == if w.StillRunning? then Some(monotonic) else old(running)
    {
      var noticed: bool := *;
      if noticed {
        w := TryWait();
      } else {
        Pass();
        running := Some(monotonic);
        return StillRunning;
      }
    }
  }
}
