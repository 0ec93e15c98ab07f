/**
 The installation pipeline run once the wizard is confirmed: a fixed sequence of fallible
 stages, two of them only for ZFS, stopped by the first failure, whose error is prefixed with
 the stage's label. The world outside (processes, files) is an oracle that answers each call
 given every call made before it.
 */
module Pipeline {
  import opened Wrappers
  import opened Text
  import opened Types

  // ---------------------------------------------------------------------------
  // Calls into the world

  /** The stages, in the order the pipeline runs them. */
  datatype Stage =
    | HostConfig | FormatDisk | HardwareConfig | InstallNixos | ZfsBoot
    | CopyFlake | UserFlake | CopyLog | FinalizePool

  /** A process run with its arguments, or a whole stage whose inner calls are not modelled. */
  datatype Call = Exec(program: string, args: seq<string>) | Opaque(stage: Stage)

  /** A call succeeds with its output or fails with a cause. */
  datatype Outcome = Ok(output: string) | Fail(cause: string)

  /** The world answers a call given every call made before it, so the same command may
      succeed once and fail the next time. */
  type World = (seq<Call>, Call) -> Outcome

  /** What one stage did: the calls it made, in order, and its error if it failed. */
  datatype Report = Report(calls: seq<Call>, err: Option<string>)

  // ---------------------------------------------------------------------------
  // Setting the boot file system

  /** The dataset the pool boots from. */
  function BootFs(pool: string): string {
    pool + "/root"
  }

  function SetBootFs(pool: string): Call {
    Exec("zpool", ["set", "bootfs=" + BootFs(pool), pool])
  }

  function GetBootFs(pool: string): Call {
    Exec("zpool", ["get", "-H", "-o", "value", "bootfs", pool])
  }

  /** Sets the pool's boot file system and reads it back. The read-back is made only when
      the setting succeeded, and the stage succeeds only when both calls do and the trimmed
      read-back names the root dataset. */
  function ConfigureZfsBoot(c: Config, w: World, history: seq<Call>): (r: Report)
    ensures var pool := c.zfsPoolName; var readback := w(history + [SetBootFs(pool)], GetBootFs(pool));
      && 1 <= |r.calls| && r.calls <= [SetBootFs(pool), GetBootFs(pool)]
      && (|r.calls| == 1 <==> w(history, SetBootFs(pool)).Fail?)
      && (r.err == None <==>
            w(history, SetBootFs(pool)).Ok? && readback.Ok? && TrimSpace(readback.output) == BootFs(pool))
    ensures var pool := c.zfsPoolName; var setting := w(history, SetBootFs(pool));
      var readback := w(history + [SetBootFs(pool)], GetBootFs(pool));
      && (setting.Fail? ==> r.err == Some("set bootfs: " + setting.cause))
      && (setting.Ok? && readback.Fail? ==> r.err == Some("get bootfs: " + readback.cause))
      && (setting.Ok? && readback.Ok? && TrimSpace(readback.output) != BootFs(pool) ==>
            r.err == Some("bootfs not set correctly, got: " + readback.output))
  {
    var pool := c.zfsPoolName;
    var setCall := SetBootFs(pool);
    var getCall := GetBootFs(pool);
    match w(history, setCall)
    case Fail(e) => Report([setCall], Some("set bootfs: " + e))
    case Ok(_) =>
      match w(history + [setCall], getCall)
      case Fail(e) => Report([setCall, getCall], Some("get bootfs: " + e))
      case Ok(out) =>
        if TrimSpace(out) != BootFs(pool) then Report([setCall, getCall], Some("bootfs not set correctly, got: " + out))
        else Report([setCall, getCall], None)
  }

  /** A read-back padded with white space, such as the newline `zpool get` ends with, is
      accepted; one naming just the pool is not. */
  lemma ReadbackCheck(pool: string, pre: string, post: string)
    requires pool != "" && !IsSpace(pool[0])
    requires AllSpace(pre) && AllSpace(post)
    ensures TrimSpace(pre + BootFs(pool) + post) == BootFs(pool)
    ensures TrimSpace(pool) != BootFs(pool)
  {
    var t := BootFs(pool);
    assert t[0] == pool[0] && t[|t| - 1] == 't';
    TrimSpacePadded(pre, t, post);
  }

  // ---------------------------------------------------------------------------
  // Finalising the pool

  const Unmount: Call := Exec("umount", ["-R", "/mnt"])

  function ExportPool(pool: string): Call {
    Exec("zpool", ["export", pool])
  }

  function ImportPool(pool: string): Call {
    Exec("zpool", ["import", "-f", pool])
  }

  /** Every call the stage can make, in order. */
  function FinalizeCalls(pool: string): seq<Call> {
    [Unmount, ExportPool(pool), ImportPool(pool), ExportPool(pool)]
  }

  /** Unmounts, then exports, force-imports and exports the pool again, stopping at the
      first pool call that fails. The unmount's outcome is never looked at. */
  function FinalizeZfsPool(c: Config, w: World, history: seq<Call>): (r: Report)
    ensures var pool := c.zfsPoolName;
      var h1 := history + [Unmount];
      var h2 := h1 + [ExportPool(pool)];
      var h3 := h2 + [ImportPool(pool)];
      && 2 <= |r.calls| && r.calls <= FinalizeCalls(pool)
      && (|r.calls| == 2 <==> w(h1, ExportPool(pool)).Fail?)
      && (|r.calls| == 3 <==> w(h1, ExportPool(pool)).Ok? && w(h2, ImportPool(pool)).Fail?)
      && (r.err == None <==> w(h1, ExportPool(pool)).Ok? && w(h2, ImportPool(pool)).Ok? && w(h3, ExportPool(pool)).Ok?)
    ensures var pool := c.zfsPoolName;
      var h1 := history + [Unmount];
      var h2 := h1 + [ExportPool(pool)];
      var h3 := h2 + [ImportPool(pool)];
      var exported := w(h1, ExportPool(pool));
      var imported := w(h2, ImportPool(pool));
      var reexported := w(h3, ExportPool(pool));
      && (exported.Fail? ==> r.err == Some("export pool: " + exported.cause))
      && (exported.Ok? && imported.Fail? ==> r.err == Some("import pool: " + imported.cause))
      && (exported.Ok? && imported.Ok? && reexported.Fail? ==> r.err == Some("final export: " + reexported.cause))
  {
    var pool := c.zfsPoolName;
    var calls := FinalizeCalls(pool);
    var h1 := history + [Unmount];
    var h2 := h1 + [ExportPool(pool)];
    var h3 := h2 + [ImportPool(pool)];
    match w(h1, ExportPool(pool))
    case Fail(e) => Report(calls[..2], Some("export pool: " + e))
    case Ok(_) =>
      match w(h2, ImportPool(pool))
      case Fail(e) => Report(calls[..3], Some("import pool: " + e))
      case Ok(_) =>
        match w(h3, ExportPool(pool))
        case Fail(e) => Report(calls, Some("final export: " + e))
        case Ok(_) => Report(calls, None)
  }

  /** Changing what the unmount answers changes nothing about the stage. */
  lemma UnmountIgnored(c: Config, w: World, history: seq<Call>, answer: Outcome)
    ensures var w2 := (h: seq<Call>, call: Call) => if h == history && call == Unmount then answer else w(h, call);
      FinalizeZfsPool(c, w2, history) == FinalizeZfsPool(c, w, history)
  {
    var w2 := (h: seq<Call>, call: Call) => if h == history && call == Unmount then answer else w(h, call);
    var pool := c.zfsPoolName;
    var h1 := history + [Unmount];
    var h2 := h1 + [ExportPool(pool)];
    var h3 := h2 + [ImportPool(pool)];
    assert |history| < |h1| < |h2| < |h3|;
    assert w2(h1, ExportPool(pool)) == w(h1, ExportPool(pool));
    assert w2(h2, ImportPool(pool)) == w(h2, ImportPool(pool));
    assert w2(h3, ExportPool(pool)) == w(h3, ExportPool(pool));
  }

  // ---------------------------------------------------------------------------
  // Copying the log

  /** Where the log lands on the new system. */
  function LogTarget(c: Config): string {
    "/mnt/home/" + c.username + "/tuinix-install.log"
  }

  /** Copies the install log into the user's home and hands it to the user; a failed copy is
      only logged, so this stage never fails. */
  function CopyInstallLog(c: Config, w: World, history: seq<Call>, logFile: string): (r: Report)
    ensures r.err == None
    ensures var copy := Exec("cp", [logFile, LogTarget(c)]);
      && |r.calls| >= 1
      && r.calls <= [copy, Exec("chown", ["1000:100", LogTarget(c)])]
      && (|r.calls| == 2 <==> w(history, copy).Ok?)
  {
    var copy := Exec("cp", [logFile, LogTarget(c)]);
    match w(history, copy)
    case Fail(_) => Report([copy], None)
    case Ok(_) => Report([copy, Exec("chown", ["1000:100", LogTarget(c)])], None)
  }

  // ---------------------------------------------------------------------------
  // The stages

  /** The text an error of the stage is prefixed with. */
  function Label(s: Stage): string {
    match s
    case HostConfig => "generate host config"
    case FormatDisk => "format disk"
    case HardwareConfig => "generate hardware config"
    case InstallNixos => "install nixos"
    case ZfsBoot => "configure zfs boot"
    case CopyFlake => "copy flake"
    case UserFlake => "setup user flake"
    case CopyLog => "copy install log"
    case FinalizePool => "finalize zfs pool"
  }

  /** Position of a stage in the fixed order. */
  function Rank(s: Stage): nat {
    match s
    case HostConfig => 0
    case FormatDisk => 1
    case HardwareConfig => 2
    case InstallNixos => 3
    case ZfsBoot => 4
    case CopyFlake => 5
    case UserFlake => 6
    case CopyLog => 7
    case FinalizePool => 8
  }

  /** The stages a mode runs. */
  function Plan(mode: StorageMode): (p: seq<Stage>)
    ensures |p| == (if mode.IsZfs() then 9 else 7)
    ensures ZfsBoot in p <==> mode.IsZfs()
    ensures FinalizePool in p <==> mode.IsZfs()
  {
    var zfs := mode.IsZfs();
    [HostConfig, FormatDisk, HardwareConfig, InstallNixos]
      + (if zfs then [ZfsBoot] else [])
      + [CopyFlake, UserFlake, CopyLog]
      + (if zfs then [FinalizePool] else [])
  }

  /** Each plan runs its stages in the fixed order, so none twice; XFS runs the ZFS plan
      without its fifth and last stage; the log is copied right after the user flake and,
      with ZFS, right before the pool is finalised. */
  lemma PlanOrder(mode: StorageMode)
    ensures forall i :: 0 <= i < |Plan(mode)| - 1 ==> Rank(Plan(mode)[i]) < Rank(Plan(mode)[i + 1])
    ensures Plan(Xfs) == Plan(ZfsEncryptedSingle)[..4] + Plan(ZfsEncryptedSingle)[5..8]
    ensures var p := Plan(mode); var k := if mode.IsZfs() then 7 else 6;
      p[k] == CopyLog && p[k - 1] == UserFlake && (mode.IsZfs() ==> p[k + 1] == FinalizePool)
  {
    var z := [HostConfig, FormatDisk, HardwareConfig, InstallNixos, ZfsBoot, CopyFlake, UserFlake, CopyLog, FinalizePool];
    var x := [HostConfig, FormatDisk, HardwareConfig, InstallNixos, CopyFlake, UserFlake, CopyLog];
    assert Plan(ZfsEncryptedSingle) == z;
    assert Plan(Xfs) == x;
    assert Plan(mode) == if mode.IsZfs() then z else x;
    assert x == z[..4] + z[5..8];
  }

  /** One stage run after `history`. The stages whose inner calls are not modelled make a
      single opaque call. */
  function RunStage(c: Config, w: World, logFile: string, s: Stage, history: seq<Call>): (r: Report)
    ensures s == CopyLog ==> r.err == None
  {
    match s
    case ZfsBoot => ConfigureZfsBoot(c, w, history)
    case FinalizePool => FinalizeZfsPool(c, w, history)
    case CopyLog => CopyInstallLog(c, w, history, logFile)
    case _ =>
      match w(history, Opaque(s))
      case Fail(e) => Report([Opaque(s)], Some(e))
      case Ok(_) => Report([Opaque(s)], None)
  }

  // ---------------------------------------------------------------------------
  // The pipeline

  /** All the calls of the reports, in order. */
  function Flatten(reports: seq<Report>): seq<Call> {
    if reports == [] then [] else reports[0].calls + Flatten(reports[1..])
  }

  /** How the installation ended: the message the wizard receives. */
  datatype Ending = Done | Failed(err: string)

  /** A run: the stages that executed, what each of them did, the counter of completed
      stages, and how it ended. */
  datatype Run = Run(executed: seq<Stage>, reports: seq<Report>, step: nat, ending: Ending)

  /** Runs one stage after the calls made so far. */
  type Runner = (Stage, seq<Call>) -> Report

  /** Runs the stages in order, stopping at the first that fails. */
  function RunStages(run: Runner, stages: seq<Stage>, history: seq<Call>): (r: Run)
    ensures |r.reports| == |r.executed|
    decreases |stages|
  {
    if stages == [] then Run([], [], 0, Done)
    else
      var report := run(stages[0], history);
      match report.err
      case Some(e) => Run([stages[0]], [report], 0, Failed(Label(stages[0]) + ": " + e))
      case None =>
        var rest := RunStages(run, stages[1..], history + report.calls);
        Run([stages[0]] + rest.executed, [report] + rest.reports, rest.step + 1, rest.ending)
  }

  /** No report carries an error. */
  predicate Passed(reports: seq<Report>) {
    forall i :: 0 <= i < |reports| ==> reports[i].err == None
  }

  /** The run stopped at the first failing stage, or ran every stage. */
  predicate FailFast(stages: seq<Stage>, r: Run)
    requires |r.reports| == |r.executed|
  {
    && r.executed <= stages
    && (r.ending.Done? <==> r.executed == stages && Passed(r.reports))
    && (r.ending.Done? ==> r.step == |stages|)
    && (r.ending.Failed? ==>
          && |r.executed| >= 1 && r.step == |r.executed| - 1
          && Passed(r.reports[..r.step])
          && r.reports[r.step].err.Some?
          && r.ending.err == Label(r.executed[r.step]) + ": " + r.reports[r.step].err.value)
  }

  lemma {:induction false} RunStagesFailFast(run: Runner, stages: seq<Stage>, history: seq<Call>)
    ensures FailFast(stages, RunStages(run, stages, history))
    decreases |stages|
  {
    var r := RunStages(run, stages, history);
    if stages != [] {
      var report := run(stages[0], history);
      if report.err.None? {
        var rest := RunStages(run, stages[1..], history + report.calls);
        RunStagesFailFast(run, stages[1..], history + report.calls);
        assert r == Run([stages[0]] + rest.executed, [report] + rest.reports, rest.step + 1, rest.ending);
        assert stages == [stages[0]] + stages[1..];
        assert r.executed <= stages by {
          assert rest.executed == stages[1..][..|rest.executed|];
          assert r.executed == stages[..|r.executed|];
        }
        assert r.executed == stages <==> rest.executed == stages[1..];
        assert Passed(r.reports) <==> Passed(rest.reports) by {
          if Passed(rest.reports) {
            forall i | 0 <= i < |r.reports| ensures r.reports[i].err == None {
              if i > 0 { assert r.reports[i] == rest.reports[i - 1]; }
            }
          }
          if Passed(r.reports) {
            forall i | 0 <= i < |rest.reports| ensures rest.reports[i].err == None {
              assert rest.reports[i] == r.reports[i + 1];
            }
          }
        }
        if r.ending.Failed? {
          assert r.reports[..r.step] == [report] + rest.reports[..rest.step];
          assert r.reports[r.step] == rest.reports[rest.step] && r.executed[r.step] == rest.executed[rest.step];
          forall i | 0 <= i < r.step ensures r.reports[..r.step][i].err == None {
            if i > 0 { assert r.reports[..r.step][i] == rest.reports[..rest.step][i - 1]; }
          }
        }
      } else {
        assert r == Run([stages[0]], [report], 0, Failed(Label(stages[0]) + ": " + report.err.value));
        assert r.executed == stages[..1];
        assert !Passed(r.reports) by { assert r.reports[0].err.Some?; }
        assert r.reports[..0] == [];
      }
    }
  }

  /** Each executed stage ran after every call of the stages before it. */
  predicate Replays(run: Runner, history: seq<Call>, r: Run)
    requires |r.reports| == |r.executed|
  {
    forall i :: 0 <= i < |r.executed| ==> r.reports[i] == run(r.executed[i], history + Flatten(r.reports[..i]))
  }

  lemma {:induction false} RunStagesReplays(run: Runner, stages: seq<Stage>, history: seq<Call>)
    ensures Replays(run, history, RunStages(run, stages, history))
    decreases |stages|
  {
    var r := RunStages(run, stages, history);
    if stages != [] {
      var report := run(stages[0], history);
      assert r.reports[..0] == [];
      assert history + Flatten(r.reports[..0]) == history;
      if report.err.None? {
        var h := history + report.calls;
        var rest := RunStages(run, stages[1..], h);
        RunStagesReplays(run, stages[1..], h);
        assert r.reports == [report] + rest.reports && r.executed == [stages[0]] + rest.executed;
        forall i | 1 <= i < |r.executed|
          ensures r.reports[i] == run(r.executed[i], history + Flatten(r.reports[..i]))
        {
          FlattenPrefixCons(report, rest.reports, i);
          assert history + (report.calls + Flatten(rest.reports[..i - 1])) == h + Flatten(rest.reports[..i - 1]);
        }
      }
    }
  }

  lemma FlattenPrefixCons(x: Report, rs: seq<Report>, i: nat)
    requires 1 <= i <= |rs| + 1
    ensures Flatten(([x] + rs)[..i]) == x.calls + Flatten(rs[..i - 1])
  {
    assert ([x] + rs)[..i] == [x] + rs[..i - 1];
    assert ([x] + rs[..i - 1])[1..] == rs[..i - 1];
  }

  /** The installation: the mode's plan, run from scratch. `logFile` is where the log is being written. */
  function RunInstallation(c: Config, w: World, logFile: string): (r: Run)
    ensures |r.reports| == |r.executed|
  {
    RunStages(StageRunner(c, w, logFile), Plan(c.storageMode), [])
  }

  /** The stages of this model, run against the world. */
  function StageRunner(c: Config, w: World, logFile: string): Runner {
    (s: Stage, h: seq<Call>) => RunStage(c, w, logFile, s, h)
  }

  /** The installation follows the mode's plan up to the first failing stage; it is done only
      when every stage of the plan succeeded, with the counter at 9 for ZFS and 7 for XFS;
      a failure names the failing stage, which is never the log copy. */
  lemma InstallationFailsFast(c: Config, w: World, logFile: string)
    ensures var r := RunInstallation(c, w, logFile);
      && FailFast(Plan(c.storageMode), r)
      && Replays(StageRunner(c, w, logFile), [], r)
      && (r.ending.Done? ==> r.step == (if c.storageMode.IsZfs() then 9 else 7))
      && (r.ending.Failed? ==> r.executed[r.step] != CopyLog)
  {
    var r := RunInstallation(c, w, logFile);
    RunStagesFailFast(StageRunner(c, w, logFile), Plan(c.storageMode), []);
    RunStagesReplays(StageRunner(c, w, logFile), Plan(c.storageMode), []);
    if r.ending.Failed? {
      assert r.reports[r.step] == RunStage(c, w, logFile, r.executed[r.step], [] + Flatten(r.reports[..r.step]));
    }
  }

  /** A stage runs only when every stage before it in the plan succeeded. */
  lemma LaterStagesNeedEarlierOnes(c: Config, w: World, logFile: string, k: nat)
    requires k < |RunInstallation(c, w, logFile).executed|
    ensures var r := RunInstallation(c, w, logFile);
      && k < |Plan(c.storageMode)| && r.executed[k] == Plan(c.storageMode)[k]
      && forall i :: 0 <= i < k ==> r.reports[i].err == None
  {
    var r := RunInstallation(c, w, logFile);
    InstallationFailsFast(c, w, logFile);
    if r.ending.Failed? {
      assert k <= r.step;
      forall i | 0 <= i < k ensures r.reports[i].err == None {
        assert r.reports[..r.step][i] == r.reports[i];
      }
    }
  }

  /** A world where every call succeeds and the boot file system reads back as set. */
  function Cooperative(pool: string): World {
    (h: seq<Call>, call: Call) => Ok(BootFs(pool) + "\n")
  }

  /** In a cooperative world every stage succeeds. */
  lemma CooperativeStage(c: Config, logFile: string, s: Stage, history: seq<Call>)
    requires c.zfsPoolName != "" && !IsSpace(c.zfsPoolName[0])
    ensures RunStage(c, Cooperative(c.zfsPoolName), logFile, s, history).err == None
  {
    var pool := c.zfsPoolName;
    ReadbackCheck(pool, "", "\n");
    assert "" + BootFs(pool) + "\n" == BootFs(pool) + "\n";
  }

  /** In a cooperative world every mode installs to the end. */
  lemma CooperativeWorldCompletes(c: Config, logFile: string)
    requires c.zfsPoolName != "" && !IsSpace(c.zfsPoolName[0])
    ensures var r := RunInstallation(c, Cooperative(c.zfsPoolName), logFile);
      r.ending == Done && r.executed == Plan(c.storageMode)
  {
    var w := Cooperative(c.zfsPoolName);
    var r := RunInstallation(c, w, logFile);
    InstallationFailsFast(c, w, logFile);
    if r.ending.Failed? {
      CooperativeStage(c, logFile, r.executed[r.step], Flatten(r.reports[..r.step]));
      assert [] + Flatten(r.reports[..r.step]) == Flatten(r.reports[..r.step]);
    }
  }

  /** A disk that cannot be formatted stops the run after the host configuration, with the
      formatter's cause behind the stage label. */
  lemma FormatFailureStops(c: Config, w: World, logFile: string, cause: string)
    requires w([], Opaque(HostConfig)).Ok?
    requires w([Opaque(HostConfig)], Opaque(FormatDisk)) == Fail(cause)
    ensures var r := RunInstallation(c, w, logFile);
      && r.ending == Failed("format disk: " + cause)
      && r.executed == [HostConfig, FormatDisk]
      && r.step == 1
  {
    var p := Plan(c.storageMode);
    assert p[0] == HostConfig && p[1..][0] == FormatDisk;
    var first := RunStage(c, w, logFile, HostConfig, []);
    assert first == Report([Opaque(HostConfig)], None);
    var second := RunStage(c, w, logFile, FormatDisk, [Opaque(HostConfig)]);
    assert second == Report([Opaque(FormatDisk)], Some(cause));
    var rest := RunStages(StageRunner(c, w, logFile), p[1..], [] + first.calls);
    assert [] + first.calls == [Opaque(HostConfig)];
    assert rest.ending == Failed("format disk: " + cause) && rest.executed == [FormatDisk] && rest.step == 0;
  }
}
