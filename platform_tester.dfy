/**
 The `platformtestTest` goal: install the `android:apk` dependencies on the
 device, run `adb shell am instrument -w <package>/<runner>`, and decide from
 the command's standard output whether the tests on the device passed.

 Everything that talks to Maven or to the device is a parameter here: the
 dependency artifacts, the package name read from the manifest, the
 uninstall-before-install setting and the result of running `adb`. What the
 goal does with them is an action trace and an outcome.
 */
module PlatformTester {
  import opened Wrappers
  import OutputVerdict

  /** The Maven type of the dependencies that are installed on the device. */
  const ApkType := "android:apk"

  /** The message of the failure raised when the tests on the device did not pass. */
  const TestsFailedMessage := "Tests failed on device."

  /** Stands for a Maven artifact; resolving it to a local apk file is not modelled. */
  type ArtifactId = string

  /** A direct dependency of the project: its declared type and the artifact. */
  datatype Dependency = Dependency(artifactType: string, artifact: ArtifactId)

  /** A command line handed to the command executor. */
  datatype Command = Command(executable: string, args: seq<string>)

  /** What the goal does to the device, in order. */
  datatype Action =
    | Uninstall(artifact: ArtifactId)
    | Install(artifact: ArtifactId)
    | Instrument(command: Command)

  /** What running the instrument command produced: its standard output (Java may give null), or an `ExecutionException`. */
  datatype ExecResult = Ok(stdout: Option<string>) | ExecError

  /** Normal return of the goal, or the `MojoFailureException` it raises. */
  datatype Outcome = Pass | TestFailure(message: string)

  // ---------------------------------------------------------------------------
  // Install plan

  /** The artifacts of the `android:apk` dependencies, in iteration order. */
  function ApkArtifacts(deps: seq<Dependency>): (r: seq<ArtifactId>)
    ensures |r| <= |deps|
    ensures forall a :: a in r <==>
      exists i :: 0 <= i < |deps| && deps[i].artifactType == ApkType && deps[i].artifact == a
  {
    if deps == [] then []
    else
      var rest := ApkArtifacts(deps[1..]);
      assert forall i :: 1 <= i < |deps| ==> deps[i] == deps[1..][i - 1];
      if deps[0].artifactType == ApkType then [deps[0].artifact] + rest else rest
  }

  /** The device actions for one dependency: nothing unless it is an apk, else an optional uninstall and an install. */
  function StepsFor(d: Dependency, uninstallFirst: bool): (r: seq<Action>)
    ensures d.artifactType != ApkType ==> r == []
    ensures d.artifactType == ApkType ==>
      |r| == (if uninstallFirst then 2 else 1) && r[|r| - 1] == Install(d.artifact) &&
      (uninstallFirst ==> r[0] == Uninstall(d.artifact))
  {
    if d.artifactType == ApkType then
      (if uninstallFirst then [Uninstall(d.artifact)] else []) + [Install(d.artifact)]
    else []
  }

  /** The device actions of the install loop over a sequence of dependencies. */
  function PlanFor(deps: seq<Dependency>, uninstallFirst: bool): (r: seq<Action>)
    ensures forall k :: 0 <= k < |r| ==> r[k].Install? || r[k].Uninstall?
  {
    if deps == [] then [] else StepsFor(deps[0], uninstallFirst) + PlanFor(deps[1..], uninstallFirst)
  }

  /** The install loop, which is skipped when Maven gives no dependency set (null). */
  function InstallPlan(deps: Option<seq<Dependency>>, uninstallFirst: bool): (r: seq<Action>)
    ensures deps.None? ==> r == []
    ensures deps.Some? ==> |r| == (if uninstallFirst then 2 else 1) * |ApkArtifacts(deps.value)|
  {
    match deps
    case None => []
    case Some(ds) =>
      PlanShape(ds, uninstallFirst);
      PlanFor(ds, uninstallFirst)
  }

  /** The plan of a concatenation is the concatenation of the plans: each dependency is handled on its own. */
  lemma {:induction false} PlanForAppend(a: seq<Dependency>, b: seq<Dependency>, uninstallFirst: bool)
    ensures PlanFor(a + b, uninstallFirst) == PlanFor(a, uninstallFirst) + PlanFor(b, uninstallFirst)
  {
    if a == [] {
      assert a + b == b;
    } else {
      assert (a + b)[1..] == a[1..] + b;
      PlanForAppend(a[1..], b, uninstallFirst);
    }
  }

  /** A dependency whose type is not exactly `android:apk` contributes nothing, wherever it stands. */
  lemma NonApkIgnored(a: seq<Dependency>, d: Dependency, b: seq<Dependency>, uninstallFirst: bool)
    requires d.artifactType != ApkType
    ensures PlanFor(a + [d] + b, uninstallFirst) == PlanFor(a + b, uninstallFirst)
  {
    assert PlanFor([d], uninstallFirst) == [] by {
      assert [d][1..] == [];
    }
    PlanForAppend(a + [d], b, uninstallFirst);
    PlanForAppend(a, [d], uninstallFirst);
    PlanForAppend(a, b, uninstallFirst);
  }

  /**
   The plan, position by position: for the k-th apk artifact, an install, and
   directly before it an uninstall exactly when the flag is set. Nothing else
   is in the plan, so its length is the number of apk artifacts, doubled when
   the flag is set.
   */
  lemma {:induction false} PlanShape(deps: seq<Dependency>, uninstallFirst: bool)
    ensures |PlanFor(deps, uninstallFirst)| == (if uninstallFirst then 2 else 1) * |ApkArtifacts(deps)|
    ensures uninstallFirst ==> forall k :: 0 <= k < |ApkArtifacts(deps)| ==>
      PlanFor(deps, uninstallFirst)[2 * k] == Uninstall(ApkArtifacts(deps)[k]) &&
      PlanFor(deps, uninstallFirst)[2 * k + 1] == Install(ApkArtifacts(deps)[k])
    ensures !uninstallFirst ==> forall k :: 0 <= k < |ApkArtifacts(deps)| ==>
      PlanFor(deps, uninstallFirst)[k] == Install(ApkArtifacts(deps)[k])
  {
    if deps != [] {
      PlanShape(deps[1..], uninstallFirst);
      var plan, apks := PlanFor(deps, uninstallFirst), ApkArtifacts(deps);
      var rest, restApks := PlanFor(deps[1..], uninstallFirst), ApkArtifacts(deps[1..]);
      var a := deps[0].artifact;
      if deps[0].artifactType == ApkType {
        assert apks == [a] + restApks;
        if uninstallFirst {
          assert plan == [Uninstall(a), Install(a)] + rest;
          forall k | 0 <= k < |apks|
            ensures plan[2 * k] == Uninstall(apks[k]) && plan[2 * k + 1] == Install(apks[k])
          {
            if k > 0 {
              assert apks[k] == restApks[k - 1];
              assert plan[2 * k] == rest[2 * (k - 1)];
              assert plan[2 * k + 1] == rest[2 * (k - 1) + 1];
            }
          }
        } else {
          assert plan == [Install(a)] + rest;
          forall k | 0 <= k < |apks|
            ensures plan[k] == Install(apks[k])
          {
            if k > 0 {
              assert apks[k] == restApks[k - 1];
              assert plan[k] == rest[k - 1];
            }
          }
        }
      } else {
        assert plan == rest;
      }
    }
  }

  /** Every action of the plan installs or uninstalls the artifact of some `android:apk` dependency. */
  lemma PlanOnlyTouchesApks(deps: seq<Dependency>, uninstallFirst: bool, k: nat)
    requires k < |PlanFor(deps, uninstallFirst)|
    ensures var act := PlanFor(deps, uninstallFirst)[k];
      (act.Install? || act.Uninstall?) &&
      exists i :: 0 <= i < |deps| && deps[i].artifactType == ApkType && deps[i].artifact == act.artifact
  {
    PlanShape(deps, uninstallFirst);
    var plan, apks := PlanFor(deps, uninstallFirst), ApkArtifacts(deps);
    var j := if uninstallFirst then k / 2 else k;
    assert j < |apks|;
    assert apks[j] in apks;
    if uninstallFirst {
      if k == 2 * j {
        assert plan[k] == Uninstall(apks[j]);
      } else {
        assert k == 2 * j + 1;
        assert plan[k] == Install(apks[j]);
      }
    } else {
      assert plan[k] == Install(apks[j]);
    }
  }

  /** Performs the install loop, one dependency at a time, and reports the actions it issued. */
  method InstallDependencies(deps: Option<seq<Dependency>>, uninstallFirst: bool) returns (performed: seq<Action>)
    ensures performed == InstallPlan(deps, uninstallFirst)
  {
    performed := [];
    if deps.Some? {
      var ds := deps.value;
      for i := 0 to |ds|
        invariant performed == PlanFor(ds[..i], uninstallFirst)
      {
        if ds[i].artifactType == ApkType {
          if uninstallFirst {
            performed := performed + [Uninstall(ds[i].artifact)];
          }
          performed := performed + [Install(ds[i].artifact)];
        }
        assert ds[..i + 1] == ds[..i] + [ds[i]];
        PlanForAppend(ds[..i], [ds[i]], uninstallFirst);
        assert PlanFor([ds[i]], uninstallFirst) == StepsFor(ds[i], uninstallFirst) + PlanFor([], uninstallFirst);
      }
      assert ds[..|ds|] == ds;
    }
  }

  // ---------------------------------------------------------------------------
  // Instrument command

  /** Builds the argument list for `adb` by successive additions, as the goal does. */
  method BuildInstrumentCommand(testsPackage: string, testRunner: string) returns (cmd: Command)
    ensures cmd.executable == "adb"
    ensures cmd.args == ["shell", "am", "instrument", "-w", testsPackage + "/" + testRunner]
  {
    var commands: seq<string> := [];
    commands := commands + ["shell"];
    commands := commands + ["am"];
    commands := commands + ["instrument"];
    commands := commands + ["-w"];
    commands := commands + [testsPackage + "/" + testRunner];
    cmd := Command("adb", commands);
  }

  /** Splits an instrumentation target `<package>/<runner>` at its first `/`. */
  function SplitTarget(target: string): (r: Option<(string, string)>)
    ensures r.Some? ==> r.value.0 + "/" + r.value.1 == target && '/' !in r.value.0
    ensures r.None? ==> '/' !in target
  {
    if target == [] then None
    else if target[0] == '/' then Some(([], target[1..]))
    else match SplitTarget(target[1..])
      case None => None
      case Some((p, q)) => Some(([target[0]] + p, q))
  }

  /** A package name without `/` (every Java package name) can be read back from the target argument, together with the runner. */
  lemma {:induction false} TargetNamesPackageAndRunner(testsPackage: string, testRunner: string)
    requires '/' !in testsPackage
    ensures SplitTarget(testsPackage + "/" + testRunner) == Some((testsPackage, testRunner))
  {
    var target := testsPackage + "/" + testRunner;
    if testsPackage == [] {
      assert target == "/" + testRunner;
    } else {
      assert target[0] == testsPackage[0];
      assert target[1..] == testsPackage[1..] + "/" + testRunner;
      assert testsPackage == [testsPackage[0]] + testsPackage[1..];
      TargetNamesPackageAndRunner(testsPackage[1..], testRunner);
    }
  }

  // ---------------------------------------------------------------------------
  // Outcome

  /**
   The goal's verdict on the instrument run: it passes exactly when the run
   completed with a standard output that matches the success pattern; a null
   output, a non-matching output and an execution error all give the same
   "Tests failed on device." failure.
   */
  function Verdict(run: ExecResult): (o: Outcome)
    ensures o == Pass <==> run.Ok? && run.stdout.Some? && OutputVerdict.HasSuccessForm(run.stdout.value)
    ensures o != Pass ==> o == TestFailure(TestsFailedMessage)
    ensures run == Ok(None) ==> o == TestFailure(TestsFailedMessage)
    ensures run == ExecError ==> o == TestFailure(TestsFailedMessage)
  {
    match run
    case ExecError => TestFailure(TestsFailedMessage)
    case Ok(None) => TestFailure(TestsFailedMessage)
    case Ok(Some(out)) =>
      if OutputVerdict.Matches(out) then Pass else TestFailure(TestsFailedMessage)
  }

  // ---------------------------------------------------------------------------
  // The goal

  /** The goal's configuration: the test package (null unless configured) and the test runner class. */
  class PlatformTesterMojo {
    var testsPackage: Option<string>
    var testRunner: string

    constructor (testsPackage: Option<string>, testRunner: string)
      ensures this.testsPackage == testsPackage && this.testRunner == testRunner
    {
      this.testsPackage := testsPackage;
      this.testRunner := testRunner;
    }

    /**
     `execute()`: resolve the test package, install the apk dependencies, run
     the instrument command and judge its output. `manifestPackage` is what
     reading the manifest would give; `run` is what the executor reports.
     */
    method Execute(manifestPackage: string, deps: Option<seq<Dependency>>, uninstallFirst: bool, run: ExecResult)
      returns (trace: seq<Action>, outcome: Outcome)
      modifies this
      ensures old(testsPackage).Some? ==> testsPackage == old(testsPackage)
      ensures old(testsPackage).None? ==> testsPackage == Some(manifestPackage)
      ensures testRunner == old(testRunner)
      ensures trace == InstallPlan(deps, uninstallFirst) +
        [Instrument(Command("adb", ["shell", "am", "instrument", "-w", testsPackage.value + "/" + testRunner]))]
      ensures outcome == Verdict(run)
    {
      if testsPackage.None? {
        testsPackage := Some(manifestPackage);
      }
      trace := InstallDependencies(deps, uninstallFirst);
      var cmd := BuildInstrumentCommand(testsPackage.value, testRunner);
      trace := trace + [Instrument(cmd)];
      match run
      case ExecError =>
        outcome := TestFailure(TestsFailedMessage);
      case Ok(stdout) =>
        if stdout.None? || !OutputVerdict.Matches(stdout.value) {
          outcome := TestFailure(TestsFailedMessage);
        } else {
          outcome := Pass;
        }
    }
  }
}
