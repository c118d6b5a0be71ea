/** One ledger, many launchers: how receipts join, and why what concurrent launchers append is accepted. */
module Joins {
  import opened ByteStrings
  import opened Lineage
  import opened Launcher

  // ---- the acceptor ----

  /** Position `j` holds the launch `id`. */
  predicate Holds(records: seq<Payload>, j: nat, id: string) {
    j < |records| && records[j].launchId == id
  }

  ghost predicate LaunchedBefore(records: seq<Payload>, index: nat, id: string) {
    exists j: nat :: j < index && Holds(records, j, id)
  }

  ghost predicate MadeBefore(records: seq<Payload>, index: nat, parent: Parent) {
    exists j: nat :: j < index && Holds(records, j, parent.launchId) && parent.artifact in records[j].artifacts
  }

  ghost predicate ParentLaunched(records: seq<Payload>, index: nat, parent: Option<string>) {
    parent.Some? ==> LaunchedBefore(records, index, parent.value)
  }

  /** Every artifact that a recorded artifact was made from was itself recorded before. */
  ghost predicate ArtifactsMade(records: seq<Payload>, index: nat, artifacts: map<string, Artifact>) {
    forall name :: name in artifacts && artifacts[name].parent.Some? ==>
      MadeBefore(records, index, artifacts[name].parent.value)
  }

  /** Seen from `index`, the receipt names only earlier launches, and only artifacts that they recorded. */
  ghost predicate JoinsAt(records: seq<Payload>, index: nat, p: Payload) {
    && ParentLaunched(records, index, p.parentLaunchId)
    && ProducedBy(p.artifacts, p.launchId)
    && ArtifactsMade(records, index, p.artifacts)
  }

  ghost predicate Joined(records: seq<Payload>, index: nat)
    requires index < |records|
  {
    JoinsAt(records, index, records[index])
  }

  ghost predicate DistinctIds(records: seq<Payload>) {
    forall i, j :: 0 <= i < j < |records| ==> records[i].launchId != records[j].launchId
  }

  ghost predicate OneRoot(records: seq<Payload>) {
    forall i, j :: 0 <= i < j < |records| ==> records[i].rootId == records[j].rootId
  }

  /** `validate_joins!`, which an empty ledger never reaches. */
  ghost predicate ValidJoins(records: seq<Payload>) {
    records != [] && DistinctIds(records) && OneRoot(records) && forall i :: 0 <= i < |records| ==> Joined(records, i)
  }

  /** A ledger of one root on which every receipt is joined; it may be empty. */
  ghost predicate JoinedUnder(records: seq<Payload>, root: string) {
    DistinctIds(records) && forall i: nat :: i < |records| ==> records[i].rootId == root && Joined(records, i)
  }

  lemma {:induction false} JoinedIsValid(records: seq<Payload>, root: string)
    ensures JoinedUnder(records, root) && records != [] ==> ValidJoins(records)
  {
    hide Joined;
  }

  lemma {:induction false} JoinedGrows(records: seq<Payload>, root: string, p: Payload)
    requires JoinedUnder(records, root) && p.rootId == root && JoinsAt(records, |records|, p)
    requires forall q :: q in records ==> q.launchId != p.launchId
    ensures JoinedUnder(records + [p], root)
  {
    hide LaunchedBefore, MadeBefore;
    var more, n := records + [p], |records|;
    AppendKeeps(records, p, n);
    forall i: nat | i <= n ensures more[i].rootId == root && Joined(more, i) {
      if i < n {
        AppendKeeps(records, p, i);
        assert Joined(records, i);
      }
    }
  }

  /** What could be named stays nameable, and a receipt that follows such an order is joined. */
  lemma {:induction false} FollowerJoins(known: seq<Payload>, records: seq<Payload>, o: Order, p: Payload)
    requires known <= records && Entitled(known, o) && Follows(p, o, p.launchId)
    ensures JoinsAt(records, |records|, p)
  {
    if o.parentLaunchId.Some? {
      var j: nat :| j < |known| && Holds(known, j, o.parentLaunchId.value);
      assert Holds(records, j, o.parentLaunchId.value);
    }
    forall name | name in o.artifactParents ensures MadeBefore(records, |records|, o.artifactParents[name]) {
      var q := o.artifactParents[name];
      assert MadeBefore(known, |known|, q);
      var j: nat :| j < |known| && Holds(known, j, q.launchId) && q.artifact in known[j].artifacts;
      assert Holds(records, j, q.launchId);
    }
    SourcesOfFollower(records, o, p.launchId, p);
  }

  // ---- launchers that share a ledger ----

  /**
   What has been appended, which launches are under way, and every launch ID drawn so far. `entitled`:
   every launch that started named only artifacts recorded by then; `joined`: every receipt that was
   appended did.
   */
  datatype World = World(ledger: seq<Payload>, running: map<string, Order>, drawn: set<string>, entitled: bool,
                         joined: bool)

  datatype Step =
    | Start(id: string, order: Order)
    | Append(id: string, payload: Payload)
    | Abandon(id: string)

  /** The artifacts that the launch is to be made from are on the ledger. */
  ghost predicate SourcesRecorded(ledger: seq<Payload>, o: Order) {
    forall name :: name in o.artifactParents ==> MadeBefore(ledger, |ledger|, o.artifactParents[name])
  }

  /** A launch may name what finished launches have recorded. */
  ghost predicate Entitled(ledger: seq<Payload>, o: Order) {
    ParentLaunched(ledger, |ledger|, o.parentLaunchId) && SourcesRecorded(ledger, o)
  }

  /** A child starts only after its parent returned, and no launch ID is drawn twice. */
  ghost predicate Allowed(w: World, root: string, s: Step) {
    match s
    case Start(id, o) => id !in w.drawn && o.rootId == root && ParentLaunched(w.ledger, |w.ledger|, o.parentLaunchId)
    case Append(id, p) => id in w.running && Follows(p, w.running[id], id)
    case Abandon(id) => id in w.running
  }

  ghost function After(w: World, s: Step): World {
    match s
    case Start(id, o) =>
      w.(running := w.running[id := o], drawn := w.drawn + {id}, entitled := w.entitled && SourcesRecorded(w.ledger, o))
    case Append(id, p) =>
      w.(ledger := w.ledger + [p], running := w.running - {id},
         joined := w.joined && ArtifactsMade(w.ledger, |w.ledger|, p.artifacts))
    case Abandon(id) => w.(running := w.running - {id})
  }

  const BEGINNING := World([], map[], {}, true, true)

  ghost predicate Behavior(root: string, steps: seq<Step>, w: World)
  {
    if steps == [] then w == BEGINNING
    else
      var last := |steps| - 1;
      exists before ::
        Behavior(root, steps[..last], before) && Allowed(before, root, steps[last]) && w == After(before, steps[last])
  }

  /** The receipt at `i` is in order, its artifacts' sources apart. */
  ghost predicate Placed(w: World, root: string, i: nat)
    requires i < |w.ledger|
  {
    var p := w.ledger[i];
    && p.rootId == root && p.launchId in w.drawn && p.launchId !in w.running
    && ParentLaunched(w.ledger, i, p.parentLaunchId) && ProducedBy(p.artifacts, p.launchId)
  }

  ghost predicate Underway(w: World, root: string, id: string)
    requires id in w.running
  {
    var o := w.running[id];
    && id in w.drawn && o.rootId == root && ParentLaunched(w.ledger, |w.ledger|, o.parentLaunchId)
    && (w.entitled ==> SourcesRecorded(w.ledger, o))
  }

  ghost predicate Sound(w: World, root: string) {
    && DistinctIds(w.ledger)
    && (forall i: nat :: i < |w.ledger| ==> Placed(w, root, i))
    && (forall id :: id in w.running ==> Underway(w, root, id))
    && (w.joined <==> forall i: nat :: i < |w.ledger| ==> ArtifactsMade(w.ledger, i, w.ledger[i].artifacts))
    && (w.entitled ==> w.joined)
  }

  /** Appending a receipt changes nothing about what was recorded before it. */
  lemma {:induction false} AppendKeeps(records: seq<Payload>, p: Payload, index: nat)
    requires index <= |records|
    ensures forall id :: LaunchedBefore(records, index, id) <==> LaunchedBefore(records + [p], index, id)
    ensures forall q :: MadeBefore(records, index, q) <==> MadeBefore(records + [p], index, q)
    ensures index < |records| ==> (Joined(records, index) <==> Joined(records + [p], index))
  {
    var more := records + [p];
    assert forall j: nat, id :: j < |records| ==> (Holds(records, j, id) <==> Holds(more, j, id));
    forall q ensures MadeBefore(records, index, q) <==> MadeBefore(more, index, q) {
      if j: nat :| j < index && Holds(records, j, q.launchId) && q.artifact in records[j].artifacts {
        assert Holds(more, j, q.launchId);
      }
      if j: nat :| j < index && Holds(more, j, q.launchId) && q.artifact in more[j].artifacts {
        assert Holds(records, j, q.launchId);
      }
    }
  }

  /** What was recorded stays recorded. */
  lemma {:induction false} RecordedStays(records: seq<Payload>, p: Payload)
    ensures forall id :: LaunchedBefore(records, |records|, id) ==> LaunchedBefore(records + [p], |records| + 1, id)
    ensures forall q :: MadeBefore(records, |records|, q) ==> MadeBefore(records + [p], |records| + 1, q)
  {
    var more, n := records + [p], |records|;
    AppendKeeps(records, p, n);
    forall id | LaunchedBefore(records, n, id) ensures LaunchedBefore(more, n + 1, id) {
      var j: nat :| j < n && Holds(more, j, id);
    }
    forall q | MadeBefore(records, n, q) ensures MadeBefore(more, n + 1, q) {
      assert MadeBefore(more, n, q);
      var j: nat :| j < n && Holds(more, j, q.launchId) && q.artifact in more[j].artifacts;
    }
  }

  lemma {:induction false} AppendIsSound(w: World, root: string, id: string, p: Payload)
    requires Sound(w, root) && Allowed(w, root, Append(id, p))
    ensures Sound(After(w, Append(id, p)), root)
  {
    hide LaunchedBefore, MadeBefore;
    var next := After(w, Append(id, p));
    var n := |w.ledger|;
    AppendKeeps(w.ledger, p, n);
    RecordedStays(w.ledger, p);
    assert Underway(w, root, id);
    forall i: nat | i < n
      ensures Placed(next, root, i)
      ensures ArtifactsMade(w.ledger, i, w.ledger[i].artifacts) <==>
              ArtifactsMade(next.ledger, i, next.ledger[i].artifacts)
    {
      assert Placed(w, root, i);
      AppendKeeps(w.ledger, p, i);
    }
    forall i: nat | i < n ensures w.ledger[i].launchId != p.launchId { assert Placed(w, root, i); }
    assert DistinctIds(next.ledger);
    assert Placed(next, root, n);
    assert ArtifactsMade(next.ledger, n, p.artifacts) <==> ArtifactsMade(w.ledger, n, p.artifacts);
    forall other | other in next.running ensures Underway(next, root, other) {
      assert Underway(w, root, other);
    }
    assert w.entitled ==> ArtifactsMade(w.ledger, n, p.artifacts) by {
      SourcesOfFollower(w.ledger, w.running[id], id, p);
    }
    assert next.ledger[n] == p && forall i: nat :: i < n ==> next.ledger[i] == w.ledger[i];
    assert next.joined <==> forall i: nat :: i < n + 1 ==> ArtifactsMade(next.ledger, i, next.ledger[i].artifacts);
  }

  /** A receipt names as sources of its artifacts only what its order named. */
  lemma {:induction false} SourcesOfFollower(ledger: seq<Payload>, o: Order, id: string, p: Payload)
    requires Follows(p, o, id)
    ensures SourcesRecorded(ledger, o) ==> ArtifactsMade(ledger, |ledger|, p.artifacts)
  {
  }

  lemma {:induction false} BehaviorIsSound(root: string, steps: seq<Step>, w: World)
    requires Behavior(root, steps, w)
    ensures Sound(w, root)
    decreases |steps|
  {
    hide LaunchedBefore, MadeBefore;
    if steps != [] {
      var last := |steps| - 1;
      var before :|
        Behavior(root, steps[..last], before) && Allowed(before, root, steps[last]) && w == After(before, steps[last]);
      BehaviorIsSound(root, steps[..last], before);
      match steps[last]
      case Append(id, p) => AppendIsSound(before, root, id, p);
      case _ => OtherIsSound(before, root, steps[last]);
    }
  }

  lemma {:induction false} OtherIsSound(w: World, root: string, s: Step)
    requires Sound(w, root) && Allowed(w, root, s) && !s.Append?
    ensures Sound(After(w, s), root)
  {
    hide LaunchedBefore, MadeBefore;
    var next := After(w, s);
    forall i: nat | i < |w.ledger| ensures Placed(next, root, i) { assert Placed(w, root, i); }
    forall id | id in next.running ensures Underway(next, root, id) {
      assert id in w.running && next.running[id] == w.running[id] ==> Underway(w, root, id);
    }
  }

  /** Whatever the interleaving, the ledger passes exactly when every appended receipt found its artifacts' sources
      recorded. */
  lemma {:induction false} AcceptedIffJoined(root: string, steps: seq<Step>, w: World)
    requires Behavior(root, steps, w) && w.ledger != []
    ensures ValidJoins(w.ledger) <==> w.joined
  {
    hide LaunchedBefore, MadeBefore;
    BehaviorIsSound(root, steps, w);
    forall i: nat | i < |w.ledger|
      ensures Joined(w.ledger, i) <==> ArtifactsMade(w.ledger, i, w.ledger[i].artifacts)
    {
      assert Placed(w, root, i);
    }
    forall i, j | 0 <= i < j < |w.ledger| ensures w.ledger[i].rootId == w.ledger[j].rootId {
      assert Placed(w, root, i) && Placed(w, root, j);
    }
  }

  /** When launches name only artifacts that are recorded as they start, the ledger passes at every moment. */
  lemma {:induction false} EveryLedgerIsAccepted(root: string, steps: seq<Step>, w: World)
    requires Behavior(root, steps, w) && w.ledger != [] && w.entitled
    ensures ValidJoins(w.ledger)
  {
    BehaviorIsSound(root, steps, w);
    AcceptedIffJoined(root, steps, w);
  }

  // ---- what acceptance means ----

  /** Cutting an accepted ledger short leaves an accepted ledger. */
  lemma {:induction false} PrefixIsAccepted(records: seq<Payload>, n: nat)
    requires ValidJoins(records) && 0 < n <= |records|
    ensures ValidJoins(records[..n])
  {
    var short := records[..n];
    forall i | 0 <= i < n ensures Joined(short, i) {
      assert Joined(records, i);
      var p := records[i];
      if p.parentLaunchId.Some? {
        var j: nat :| j < i && Holds(records, j, p.parentLaunchId.value);
        assert Holds(short, j, p.parentLaunchId.value);
      }
      forall name | name in p.artifacts && p.artifacts[name].parent.Some?
        ensures MadeBefore(short, i, p.artifacts[name].parent.value)
      {
        var q := p.artifacts[name].parent.value;
        var j: nat :| j < i && Holds(records, j, q.launchId) && q.artifact in records[j].artifacts;
        assert Holds(short, j, q.launchId);
      }
    }
  }

  /** `chain` climbs from a launch to its parent, to the parent's parent, and so on up to a root. */
  ghost predicate ClimbsToRoot(records: seq<Payload>, chain: seq<nat>) {
    && chain != [] && chain[0] < |records|
    && var parent := records[chain[0]].parentLaunchId;
       if |chain| == 1 then parent.None?
       else chain[1] < chain[0] && parent == Some(records[chain[1]].launchId) && ClimbsToRoot(records, chain[1..])
  }

  /** Following parents always ends, at a launch that has none. */
  lemma {:induction false} ParentsReachRoot(records: seq<Payload>, i: nat) returns (chain: seq<nat>)
    requires ValidJoins(records) && i < |records|
    ensures ClimbsToRoot(records, chain) && chain[0] == i
    decreases i
  {
    if records[i].parentLaunchId.None? {
      chain := [i];
    } else {
      assert Joined(records, i);
      var j: nat :| j < i && Holds(records, j, records[i].parentLaunchId.value);
      var rest := ParentsReachRoot(records, j);
      chain := [i] + rest;
      assert chain[1..] == rest;
    }
  }

  /** The chain is the only one: a launch ID stands at one position. */
  lemma {:induction false} ChainIsUnique(records: seq<Payload>, a: seq<nat>, b: seq<nat>)
    requires DistinctIds(records) && ClimbsToRoot(records, a) && ClimbsToRoot(records, b) && a[0] == b[0]
    ensures a == b
    decreases |a|
  {
    if |a| > 1 && |b| > 1 {
      assert a[1] == b[1];
      ChainIsUnique(records, a[1..], b[1..]);
      assert a == [a[0]] + a[1..] && b == [b[0]] + b[1..];
    }
  }
}
