/** Launches in which everything goes well, written out. */
module SampleLaunches {
  import opened ByteStrings
  import opened Kernel
  import opened Lineage
  import Launcher
  import Capture
  import opened Digits
  import opened Joins
  import opened Staging
  import opened Pipeline

  // ---- the receipt of such a launch ----

  /** The identifier drawn from sixteen equal random bytes. */
  function SampleId(n: byte): string {
    Capture.NewLaunchId(seq(16, _ => n))
  }

  lemma {:induction false} SampleIdIsAccepted(n: byte)
    ensures IsLaunchId(SampleId(n))
  {
    Capture.LaunchIdIsAccepted(seq(16, _ => n));
  }

  lemma {:induction false} SampleIdsDiffer(m: byte, n: byte)
    requires m != n
    ensures SampleId(m) != SampleId(n)
  {
    hide Capture.LowerHex;
    assert SampleId(m)[0] == Capture.LowerHex(m / 16) && SampleId(m)[1] == Capture.LowerHex(m % 16);
    assert SampleId(n)[0] == Capture.LowerHex(n / 16) && SampleId(n)[1] == Capture.LowerHex(n % 16);
    if SampleId(m)[..2] == SampleId(n)[..2] {
      assert SampleId(m)[0] == SampleId(m)[..2][0] && SampleId(m)[1] == SampleId(m)[..2][1];
      assert SampleId(n)[0] == SampleId(n)[..2][0] && SampleId(n)[1] == SampleId(n)[..2][1];
      HexDiffers(m / 16, n / 16);
      HexDiffers(m % 16, n % 16);
    }
  }

  lemma {:induction false} HexDiffers(a: nat, b: nat)
    requires a < 16 && b < 16 && Capture.LowerHex(a) == Capture.LowerHex(b)
    ensures a == b
  {
  }

  function PathOf(o: Launcher.Order, name: string): string {
    if name in STREAMS || name !in o.artifactPaths then o.logPrefix + "." + name else o.artifactPaths[name]
  }

  function Names(o: Launcher.Order): set<string> {
    Launcher.StreamNames(o.combined) + o.artifactPaths.Keys
  }

  /** The streams and the declared artifacts of an order on disk, all with one digest. */
  function FilesOf(o: Launcher.Order, digest: string): map<string, File> {
    map name | name in Names(o) :: PathOf(o, name) := File(1, digest)
  }

  /** What the launcher records of these files. */
  function RecordedOf(o: Launcher.Order, id: string, files: map<string, File>): map<string, Artifact> {
    map name | name in Names(o) && PathOf(o, name) in files ::
      Artifact(PathOf(o, name), files[PathOf(o, name)], id,
               if name in o.artifactParents && name !in STREAMS then Some(o.artifactParents[name]) else None)
  }

  /** The receipt of a leader that ended at once, with exit code 0. */
  function WellEnded(o: Launcher.Order, id: string, files: map<string, File>): Payload {
    Launcher.PayloadOf(o, id, 1, Capture.Prompt(0, o.timeout), [], RecordedOf(o, id, files), 0)
  }

  /** The order can be launched, its deadline fits, and it declares no stream. */
  predicate Sensible(o: Launcher.Order) {
    && Launcher.ValidOrder(o) && o.realCwd != "" && o.realCwd[0] == '/' && IsInt64(o.timeout)
    && o.artifactPaths.Keys !! STREAMS
  }

  /** The acceptor takes the receipt, which follows its order and records exactly what is there. */
  lemma {:induction false} WellEndedIsAccepted(o: Launcher.Order, id: string, files: map<string, File>)
    requires Sensible(o) && IsLaunchId(id)
    requires forall name :: name in Launcher.StreamNames(o.combined) ==> o.logPrefix + "." + name in files
    ensures var p := WellEnded(o, id, files);
            && ValidPayload(p, files) && Success(p) && Launcher.Follows(p, o, id)
            && Launcher.AllRecorded(p.artifacts, o, files)
  {
    hide IsLaunchId, ValidReceipt;
    Launcher.Verdict(o, id, 1, Capture.Prompt(0, o.timeout), [], RecordedOf(o, id, files), 0);
  }

  // ---- stages of a case ----

  function SampleDesk(dir: string): Desk {
    Desk(dir + "/artifacts/generated.go", dir + "/artifacts/generated.go.map", dir + "/artifacts/object.o",
         dir + "/artifacts/program")
  }

  /** A case whose modes lie side by side. */
  function SampleSetup(mode: Mode): Setup {
    var dir := "/case/" + ModeName(mode);
    Setup(Launcher.Order(["program"], "/case", "/case", {}, 60_000_000_000, "root", "case", None, dir, map[], map[],
                         false),
          SampleDesk(dir), 1)
  }

  function SampleOrder(mode: Mode, job: Job, parent: Option<string>): Launcher.Order {
    OrderFor(SampleSetup(mode), mode, job, parent, job == Run)
  }

  /** A stage that left what it was to make; a run has one stream. */
  function WellDone(mode: Mode, job: Job, n: byte, parent: Option<string>, digest: string): (s: Stage)
    ensures s.job == job
  {
    var o := SampleOrder(mode, job, parent);
    Stage(job, WellEnded(o, SampleId(n), FilesOf(o, digest)))
  }

  lemma {:induction false} SampleIsSensible(mode: Mode, job: Job, parent: Option<string>)
    requires parent.Some? ==> IsLaunchId(parent.value)
    ensures var o := SampleOrder(mode, job, parent);
            Sensible(o) && (o.combined <==> job == Run) && o.parentLaunchId == parent
  {
    hide IsLaunchId;
  }

  /** Its receipt is one that a launch under its order writes, and the acceptor takes it. */
  lemma {:induction false} WellDoneIsAccepted(mode: Mode, job: Job, n: byte, parent: Option<string>, digest: string)
    requires parent.Some? ==> IsLaunchId(parent.value)
    ensures var o, p := SampleOrder(mode, job, parent), WellDone(mode, job, n, parent, digest).receipt;
            && ValidPayload(p, FilesOf(o, digest)) && Success(p) && Launcher.Follows(p, o, SampleId(n))
            && p.launchId == SampleId(n) && p.parentLaunchId == parent && (p.outputMode == COMBINED <==> job == Run)
            && o.artifactPaths.Keys <= p.artifacts.Keys
            && (job == Run ==> "combined" in p.artifacts && p.artifacts["combined"].file == File(1, digest))
  {
    hide IsLaunchId, SampleId, ValidPayload, Success, Launcher.Follows, SampleSetup, OrderFor, SampleOrder, FilesOf;
    hide Launcher.ValidOrder;
    var o := SampleOrder(mode, job, parent);
    SampleIsSensible(mode, job, parent);
    SampleIdIsAccepted(n);
    FilesAreThere(o, digest);
    WellEndedIsAccepted(o, SampleId(n), FilesOf(o, digest));
    if job == Run { assert "combined" in Names(o); }
    assert forall name :: name in o.artifactPaths ==> name in Names(o) && name !in STREAMS;
  }

  lemma {:induction false} FilesAreThere(o: Launcher.Order, digest: string)
    ensures forall name :: name in Names(o) ==>
              PathOf(o, name) in FilesOf(o, digest) && FilesOf(o, digest)[PathOf(o, name)] == File(1, digest)
    ensures forall name :: name in Launcher.StreamNames(o.combined) ==> o.logPrefix + "." + name in FilesOf(o, digest)
  {
    hide PathOf;
    forall name | name in Launcher.StreamNames(o.combined) ensures o.logPrefix + "." + name in FilesOf(o, digest) {
      StreamsKeepTheirPath(o, name);
      assert name in Names(o);
    }
  }

  lemma {:induction false} StreamsKeepTheirPath(o: Launcher.Order, name: string)
    requires name in Launcher.StreamNames(o.combined)
    ensures PathOf(o, name) == o.logPrefix + "." + name
  {
  }

  /** The launches so far have the identifiers below `n`, and every receipt is joined. */
  ghost predicate SampleLedger(records: seq<Payload>, n: byte) {
    JoinedUnder(records, "root") && forall q :: q in records ==> exists k: byte :: k < n && q.launchId == SampleId(k)
  }

  /** A stage whose sources are on the ledger joins it. */
  lemma {:induction false} WellDoneJoins(records: seq<Payload>, mode: Mode, job: Job, n: byte, parent: Option<string>,
                                         digest: string)
    requires SampleLedger(records, n) && n < 255 && (parent.Some? ==> IsLaunchId(parent.value))
    requires Entitled(records, SampleOrder(mode, job, parent))
    ensures SampleLedger(records + [WellDone(mode, job, n, parent, digest).receipt], n + 1)
  {
    hide IsLaunchId, SampleId, ValidPayload, Success, WellDone, FilesOf, Entitled, JoinedUnder, JoinsAt;
    var o, p := SampleOrder(mode, job, parent), WellDone(mode, job, n, parent, digest).receipt;
    WellDoneIsAccepted(mode, job, n, parent, digest);
    FollowerJoins(records, records, o, p);
    forall q | q in records ensures q.launchId != p.launchId {
      var k: byte :| k < n && q.launchId == SampleId(k);
      SampleIdsDiffer(k, n);
    }
    JoinedGrows(records, "root", p);
  }
}
