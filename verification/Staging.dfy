/** Launching the stages of one case: the orders that the executor gives, and the ledger that they join. */
module Staging {
  import opened ByteStrings
  import opened Kernel
  import opened Lineage
  import Launcher
  import opened Joins

  datatype Mode = Baseline | Interpreted | Compiled

  datatype Job = Transpile | Build | Compile | Check | Run

  /** Where the products of one mode are to lie. */
  datatype Desk = Desk(generated: string, sourceMap: string, archive: string, native: string)

  /** The case's own launch arguments, with its execution ID as stage and the mode's directory as log prefix, and the
      desk of the mode. */
  datatype Setup = Setup(base: Launcher.Order, desk: Desk, parentPid: int)

  predicate ValidSetup(s: Setup) {
    s.parentPid > 0 && s.base.realCwd != "" && s.base.realCwd[0] == '/'
  }

  const GENERATED := "generated_source"

  /** The artifacts that a stage declares. */
  function DeclaredPaths(desk: Desk, job: Job): map<string, string> {
    match job
    case Transpile => map[GENERATED := desk.generated, "source_map" := desk.sourceMap]
    case Compile => map["object" := desk.archive]
    case Build => map["native" := desk.native]
    case _ => map[]
  }

  /** In compiled mode a product is made from the generated source of the launch before. */
  function DeclaredParents(desk: Desk, mode: Mode, job: Job, parent: Option<string>): map<string, Parent> {
    if mode == Compiled && parent.Some? && (job == Compile || job == Build) then
      map name | name in DeclaredPaths(desk, job).Keys :: Parent(parent.value, GENERATED)
    else map[]
  }

  function ModeName(mode: Mode): string {
    match mode
    case Baseline => "baseline"
    case Interpreted => "interpreted"
    case Compiled => "compiled"
  }

  function JobName(job: Job): string {
    match job
    case Transpile => "transpile"
    case Build => "build"
    case Compile => "compile"
    case Check => "check"
    case Run => "run"
  }

  function OrderFor(s: Setup, mode: Mode, job: Job, parent: Option<string>, combined: bool): Launcher.Order {
    s.base.(stageId := s.base.stageId + "/" + ModeName(mode) + "/" + JobName(job),
            logPrefix := s.base.logPrefix + "/" + JobName(job),
            parentLaunchId := parent, artifactPaths := DeclaredPaths(s.desk, job),
            artifactParents := DeclaredParents(s.desk, mode, job, parent), combined := combined)
  }

  /** A stage as it was launched: the ledger and the regular files of that moment, and the order. */
  datatype Departure = Departure(known: seq<Payload>, files: map<string, File>, order: Launcher.Order)

  /** Why a launch came to nothing: the identifier that was drawn was no good, or the launcher refused. */
  datatype Why = Drawn(id: string) | Refused(order: Launcher.Order, error: Launcher.Refusal)

  /** The ledger of the case; other launchers append to it, too. */
  class Journal {
    var ledger: seq<Payload>
    /** The launch IDs that this executor has drawn. */
    var own: set<string>
    ghost var departures: seq<Departure>
    /** The root whose launches the ledger is for. */
    ghost const root: string
    /** Whatever others appended was of that root, and joined. */
    ghost var fair: bool
    /** The launches that came to nothing, not even a receipt. */
    ghost var refusals: seq<Why>

    constructor (root: string)
      ensures Valid() && Sealed() && ledger == [] && fair && this.root == root
    {
      ledger, own, departures, fair, refusals := [], {}, [], true, [];
      this.root := root;
    }

    /** No launch ID stands twice. */
    ghost predicate Valid()
      reads this
    {
      DistinctIds(ledger)
    }

    /** Every receipt so far is joined. */
    ghost predicate Sealed()
      reads this
    {
      JoinedUnder(ledger, root)
    }

    /** Others append receipts of launches of their own, under IDs that nobody drew before. */
    method Others()
      requires Valid()
      modifies this`ledger, this`fair
      ensures Valid() && old(ledger) <= ledger && forall q :: q in ledger && q.launchId in own ==> q in old(ledger)
      ensures fair ==> old(fair) && (old(Sealed()) ==> Sealed())
    {
      hide Joined, JoinsAt;
      var count: nat :| true;
      for i := 0 to count
        invariant Valid() && old(ledger) <= ledger && forall q :: q in ledger && q.launchId in own ==> q in old(ledger)
        invariant fair ==> old(fair) && (old(Sealed()) ==> Sealed())
      {
        var p: Payload := *;
        if p.launchId !in own && forall q :: q in ledger ==> q.launchId != p.launchId {
          fair := fair && p.rootId == root && JoinsAt(ledger, |ledger|, p);
          if fair && Sealed() { JoinedGrows(ledger, root, p); }
          ledger := ledger + [p];
        }
      }
    }

    /** The identifier is not one, or is taken; or the launcher had grounds to refuse the order. */
    ghost predicate Justified(why: Why, order: Launcher.Order, before: set<string>, files: map<string, File>)
      reads this
    {
      match why
      case Drawn(id) => !IsLaunchId(id) || id in before || exists q :: q in ledger && q.launchId == id
      case Refused(o, e) => o == order && Launcher.Grounds(e, o, files)
    }

    /** `capture_stage`: launch, and append the receipt; an ID that was drawn before is not drawn again. */
    method CaptureStage(m: Machine, order: Launcher.Order, parentPid: int) returns (r: Option<Payload>)
      requires Valid() && m.group == {} && parentPid > 0 && order.realCwd != "" && order.realCwd[0] == '/'
      modifies this, m
      ensures Valid() && old(ledger) <= ledger
      ensures |departures| == |old(departures)| + 1 && old(departures) <= departures
      ensures var s := departures[|old(departures)|];
              s.order == order && old(ledger) <= s.known && s.files == old(m.files)
              && DistinctIds(s.known)
      ensures r.Some? ==> ledger != [] && ledger[|ledger| - 1] == r.value
      ensures r.Some? ==> Launcher.Follows(r.value, order, r.value.launchId)
      ensures r.Some? ==> r.value.stageId == order.stageId
      ensures r.Some? && r.value.terminal.state == Ended ==> r.value.launch.pid.Some?
      ensures r.Some? ==> refusals == old(refusals)
      ensures r.None? ==> |refusals| == |old(refusals)| + 1 && old(refusals) < refusals
      ensures r.None? ==> Justified(refusals[|old(refusals)|], order, old(own), m.files)
      ensures r.Some? && Success(r.value) ==> m.group == {} && Launcher.AllRecorded(r.value.artifacts, order, m.files)
      // A launch that was entitled leaves every receipt joined.
      ensures fair ==> old(fair)
      ensures fair && old(Sealed()) && order.rootId == root && Entitled(departures[|old(departures)|].known, order) ==>
                Sealed()
    {
      hide Launcher.AllRecorded, Launcher.Grounds, Success, Entitled, JoinedUnder, Launcher.Follows;
      Others();
      departures := departures + [Departure(ledger, m.files, order)];
      var id: string := *;
      if !IsLaunchId(id) || id in own || exists q :: q in ledger && q.launchId == id {
        refusals := refusals + [Drawn(id)];
        return None;
      }
      r := LaunchAs(m, id, order, parentPid, ledger);
    }

    /** Launch under a new identifier, and append the receipt. */
    method LaunchAs(m: Machine, id: string, order: Launcher.Order, parentPid: int, ghost known: seq<Payload>)
      returns (r: Option<Payload>)
      requires Valid() && m.group == {} && parentPid > 0 && order.realCwd != "" && order.realCwd[0] == '/'
      requires IsLaunchId(id) && id !in own && (forall q :: q in ledger ==> q.launchId != id) && known == ledger
      modifies this`ledger, this`own, this`fair, this`refusals, m
      ensures Valid() && old(ledger) <= ledger
      ensures r.Some? ==> refusals == old(refusals)
      ensures r.None? ==> |refusals| == |old(refusals)| + 1 && old(refusals) < refusals
      ensures r.None? ==> Justified(refusals[|old(refusals)|], order, old(own), m.files)
      ensures r.Some? ==> ledger != [] && ledger[|ledger| - 1] == r.value
      ensures r.Some? ==> Launcher.Follows(r.value, order, r.value.launchId) && r.value.stageId == order.stageId
      ensures r.Some? && r.value.terminal.state == Ended ==> r.value.launch.pid.Some?
      ensures r.Some? && Success(r.value) ==> m.group == {} && Launcher.AllRecorded(r.value.artifacts, order, m.files)
      ensures fair ==> old(fair)
      ensures fair && old(Sealed()) && order.rootId == root && Entitled(known, order) ==> Sealed()
    {
      hide Launcher.AllRecorded, Launcher.Grounds, Success, Entitled, JoinedUnder;
      own := own + {id};
      var receipt := Launcher.Launch(m, order, id, parentPid);
      if receipt.Err? {
        refusals := refusals + [Refused(order, receipt.error)];
        return None;
      }
      Others();
      var p := receipt.value;
      assert p.launchId == id && Launcher.Follows(p, order, id);
      Append(p, known, order);
      return Some(p);
    }

    /** A receipt whose order was entitled when it departed leaves every receipt joined. */
    method Append(p: Payload, ghost known: seq<Payload>, ghost order: Launcher.Order)
      requires Valid() && known <= ledger && forall q :: q in ledger ==> q.launchId != p.launchId
      requires Launcher.Follows(p, order, p.launchId)
      modifies this`ledger
      ensures Valid() && ledger == old(ledger) + [p]
      ensures old(Sealed()) && order.rootId == root && Entitled(known, order) ==> Sealed()
    {
      hide Entitled, JoinsAt;
      if Sealed() && order.rootId == root && Entitled(known, order) {
        FollowerJoins(known, ledger, order, p);
        JoinedGrows(ledger, root, p);
      }
      ledger := ledger + [p];
    }
  }
}
