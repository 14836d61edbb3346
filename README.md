# platformtestTest goal of the Android Maven plugin, modelled in Dafny

`PlatformTesterMojo` is the Maven goal `platformtestTest` (phase `integration-test`).
When it runs, it:

1. uses the configured `testsPackage`, or reads it from the Android manifest when none is configured;
2. goes through the project's direct dependencies and, for each dependency of type `android:apk`, optionally uninstalls it from the device and then installs it;
3. runs `adb shell am instrument -w <testsPackage>/<testRunner>`;
4. decides pass or fail from the command's standard output. The whole output must match the Java regular expression `.*?OK \([0-9]+ tests?\)\s*`. `adb` does not report failing device tests through its exit code, so this text check is the only signal.

The model has three modules:

- `OutputVerdict` (`output_verdict.dfy`) is the success check on the standard output.
  - `Matches` is a hand-written matcher that follows the regular expression piece by piece. The lazy `.*?` becomes a left-to-right scan over characters that Java's default `.` accepts. `[0-9]+` is the maximal digit run `DigitRun`.
  - `HasSuccessForm` describes the same language declaratively: a `Decomposition` into leading text without line terminators, `OK (`, one or more ASCII digits, ` test` or ` tests`, `)`, and trailing `[ \t\n\x0B\f\r]`.
  - The contract of `Matches` states that the two are equal.
  - Further lemmas cover how appending whitespace, appending other text, adding leading text and line breaks affect the verdict, plus concrete examples.
- `PlatformTester` (`platform_tester.dfy`) holds the rest of the goal:
  - the install plan as a function (`InstallPlan`, `PlanFor`) and as the loop that performs it (`InstallDependencies`);
  - the instrument command, built by successive additions (`BuildInstrumentCommand`);
  - the mapping from the command's result to the outcome (`Verdict`);
  - the class `PlatformTesterMojo`, whose `Execute` overwrites the `testsPackage` field when it is null and returns the action trace and the outcome.
- `Wrappers` (`wrappers.dfy`) defines `Option`, which stands for Java's null.

Everything that touches Maven or the device is an input to the model:

- the dependency set, as `Option<seq<Dependency>>`, because Maven may return null;
- the package name the manifest would give;
- the uninstall-before-install setting;
- the result of running `adb`, as `Ok(stdout)` or `ExecError`, where `stdout` may be null.

The install and uninstall calls and the `adb` run appear as `Action`s in a trace. A failed test run ends as `TestFailure("Tests failed on device.")`, which stands for the `MojoFailureException`. A normal return is `Pass`.

## Notes on the success pattern

These are facts about the pattern at line 98, kept as written:

- The summary reads `OK (<digits> test)` or `OK (<digits> tests)`. The optional `s` comes before the `)`, and the word ` test` is required.
- The text before `OK (` may not contain a line terminator: `\n`, `\r`, U+0085, U+2028 or U+2029. Java's `.` does not match these without DOTALL.
- So an output whose `OK (...)` line comes after another line fails (`SummaryOnLaterLineFails`). A line break can appear only in the trailing whitespace (`LineTerminatorOnlyInTrailingSpace`).

## Model

| member | source | states |
|---|---|---|
| `OutputVerdict.DigitRun` | maven-android-plugin/src/main/java/org/jvending/masa/plugin/platformtest/PlatformTesterMojo.java:98 | the greedy `[0-9]+`: the result is the length of a prefix made only of ASCII digits, and the next character, if there is one, is not a digit |
| `OutputVerdict.MatchesFrom` | maven-android-plugin/src/main/java/org/jvending/masa/plugin/platformtest/PlatformTesterMojo.java:98 | the lazy `.*?` scan from position i succeeds exactly when some later position starts a full summary match and only characters that `.` accepts lie between |
| `OutputVerdict.Matches` | maven-android-plugin/src/main/java/org/jvending/masa/plugin/platformtest/PlatformTesterMojo.java:98 | `standardOut.matches(...)`: the output matches exactly when it is leading text without a line terminator, then `OK (`, one or more digits, ` test` or ` tests`, `)`, then only `[ \t\n\x0B\f\r]` (the language `HasSuccessForm`) |
| `OutputVerdict.SummaryMatches` | maven-android-plugin/src/main/java/org/jvending/masa/plugin/platformtest/PlatformTesterMojo.java:98 | the part `OK \([0-9]+ tests?\)\s*` of the pattern, matched against a whole suffix: `OK (`, the maximal digit run (at least one digit), then `CountSuffixMatches` on the rest |
| `OutputVerdict.CountSuffixMatches` | maven-android-plugin/src/main/java/org/jvending/masa/plugin/platformtest/PlatformTesterMojo.java:98 | the part ` tests?\)\s*` of the pattern, matched against a whole suffix: ` test`, an optional `s`, `)`, then only `\s` characters |
| `OutputVerdict.HasSuccessForm` | maven-android-plugin/src/main/java/org/jvending/masa/plugin/platformtest/PlatformTesterMojo.java:98 | the language of the pattern stated without a matcher: some valid `Decomposition` (leading text without line terminator, digits, singular or plural, `\s` tail) produces the text |
| `OutputVerdict.AppendSpaceKeepsMatch` | maven-android-plugin/src/main/java/org/jvending/masa/plugin/platformtest/PlatformTesterMojo.java:98 | appending any amount of `\s` whitespace to a passing output keeps it passing |
| `OutputVerdict.AppendNonSpaceBreaksMatch` | maven-android-plugin/src/main/java/org/jvending/masa/plugin/platformtest/PlatformTesterMojo.java:98 | appending any non-whitespace character to a passing output makes it fail |
| `OutputVerdict.PrependLineTextKeepsMatch` | maven-android-plugin/src/main/java/org/jvending/masa/plugin/platformtest/PlatformTesterMojo.java:98 | prefixing a passing output with text that has no line terminator keeps it passing |
| `OutputVerdict.LineTerminatorOnlyInTrailingSpace` | maven-android-plugin/src/main/java/org/jvending/masa/plugin/platformtest/PlatformTesterMojo.java:98 | in a passing output, everything from any line terminator to the end is whitespace |
| `OutputVerdict.TextAfterLineBreakFails` | maven-android-plugin/src/main/java/org/jvending/masa/plugin/platformtest/PlatformTesterMojo.java:98 | an output with a non-whitespace character anywhere after a line terminator fails |
| `OutputVerdict.UnicodeLineBreakRejects` | maven-android-plugin/src/main/java/org/jvending/masa/plugin/platformtest/PlatformTesterMojo.java:98 | an output containing U+0085, U+2028 or U+2029 anywhere fails |
| `OutputVerdict.PluralSummaryPasses` | maven-android-plugin/src/main/java/org/jvending/masa/plugin/platformtest/PlatformTesterMojo.java:98 | `OK (12 tests)` passes |
| `OutputVerdict.SingularSummaryPasses` | maven-android-plugin/src/main/java/org/jvending/masa/plugin/platformtest/PlatformTesterMojo.java:98 | `OK (1 test)` passes |
| `OutputVerdict.SummaryWithLeadingTextAndNewlinePasses` | maven-android-plugin/src/main/java/org/jvending/masa/plugin/platformtest/PlatformTesterMojo.java:98 | leading text on the summary line followed by a final `\r\n` passes |
| `OutputVerdict.FailuresBannerFails` | maven-android-plugin/src/main/java/org/jvending/masa/plugin/platformtest/PlatformTesterMojo.java:98 | the plain output `FAILURES!!!` fails |
| `OutputVerdict.FailureReportFails` | maven-android-plugin/src/main/java/org/jvending/masa/plugin/platformtest/PlatformTesterMojo.java:98 | `FAILURES!!!` followed by a `Tests run:` line fails |
| `OutputVerdict.SummaryOnLaterLineFails` | maven-android-plugin/src/main/java/org/jvending/masa/plugin/platformtest/PlatformTesterMojo.java:98 | a two-line output whose second line is `OK (2 tests)` fails |
| `PlatformTester.ApkArtifacts` | maven-android-plugin/src/main/java/org/jvending/masa/plugin/platformtest/PlatformTesterMojo.java:64-66 | an artifact is selected exactly when some dependency has type exactly `android:apk` and that artifact |
| `PlatformTester.StepsFor` | maven-android-plugin/src/main/java/org/jvending/masa/plugin/platformtest/PlatformTesterMojo.java:66-74 | one loop iteration: nothing for a dependency whose type is not `android:apk`; otherwise exactly one or two actions, ending in `Install` of its artifact and starting with `Uninstall` of it when the flag is set |
| `PlatformTester.PlanFor` | maven-android-plugin/src/main/java/org/jvending/masa/plugin/platformtest/PlatformTesterMojo.java:64-76 | the loop over the dependencies: every action it yields is an `Install` or an `Uninstall` (the instrument command is not part of it) |
| `PlatformTester.InstallPlan` | maven-android-plugin/src/main/java/org/jvending/masa/plugin/platformtest/PlatformTesterMojo.java:62-77 | no actions when the dependency set is null; otherwise as many actions as there are `android:apk` dependencies, doubled when the flag is set |
| `PlatformTester.PlanForAppend` | maven-android-plugin/src/main/java/org/jvending/masa/plugin/platformtest/PlatformTesterMojo.java:64-76 | the plan for a concatenation of dependencies is the concatenation of their plans, so each dependency is handled independently |
| `PlatformTester.NonApkIgnored` | maven-android-plugin/src/main/java/org/jvending/masa/plugin/platformtest/PlatformTesterMojo.java:64-66 | inserting a dependency whose type is not `android:apk` anywhere leaves the plan unchanged |
| `PlatformTester.PlanShape` | maven-android-plugin/src/main/java/org/jvending/masa/plugin/platformtest/PlatformTesterMojo.java:64-76 | for the k-th apk artifact the plan holds an `Install`, directly preceded by an `Uninstall` exactly when the flag is set; the plan length is the apk count, doubled when the flag is set |
| `PlatformTester.PlanOnlyTouchesApks` | maven-android-plugin/src/main/java/org/jvending/masa/plugin/platformtest/PlatformTesterMojo.java:64-74 | every plan action is an install or uninstall of the artifact of an `android:apk` dependency |
| `PlatformTester.InstallDependencies` | maven-android-plugin/src/main/java/org/jvending/masa/plugin/platformtest/PlatformTesterMojo.java:62-77 | the loop issues exactly the install plan, and issues nothing when the dependency set is null |
| `PlatformTester.BuildInstrumentCommand` | maven-android-plugin/src/main/java/org/jvending/masa/plugin/platformtest/PlatformTesterMojo.java:83-88 | the command is `adb` with arguments `shell`, `am`, `instrument`, `-w`, `<testsPackage>/<testRunner>`, in that order |
| `PlatformTester.SplitTarget` | maven-android-plugin/src/main/java/org/jvending/masa/plugin/platformtest/PlatformTesterMojo.java:88 | splitting at the first `/` gives a slash-free part and a rest that join back to the target; with no `/`, there is no split |
| `PlatformTester.TargetNamesPackageAndRunner` | maven-android-plugin/src/main/java/org/jvending/masa/plugin/platformtest/PlatformTesterMojo.java:88 | for a package name without `/`, the last argument determines both the package and the runner |
| `PlatformTester.Verdict` | maven-android-plugin/src/main/java/org/jvending/masa/plugin/platformtest/PlatformTesterMojo.java:91-105 | the outcome is Pass exactly when the run completed with a non-null output of success form; null output, a mismatch and an `ExecutionException` all give the one "Tests failed on device." failure |
| `PlatformTester.PlatformTesterMojo.Execute` | maven-android-plugin/src/main/java/org/jvending/masa/plugin/platformtest/PlatformTesterMojo.java:56-106 | `testsPackage` is set from the manifest only when it was null; the trace is the install plan followed by the single instrument command; the outcome is `Verdict` of the run |

## Left out

- Maven plumbing is not modelled: injecting parameters, the `testRunner` default value, `project.getDependencyArtifacts()` and `project.getBasedir()`. The dependency set and the runner name are inputs.
- `resolveArtifactToFile` is not modelled. The actions name the artifact whose resolved apk file would be installed or uninstalled.
- The helpers inherited from `AbstractAndroidMojo` are not part of this model.
  - `extractPackageNameFromAndroidManifest` becomes the `manifestPackage` input.
  - `isUninstallApkBeforeInstallingToDevice` becomes a boolean input, assumed to give the same answer for every artifact.
  - `installApkToDevice` and `uninstallApkFromDevice` become `Install` and `Uninstall` actions.
- `CommandExecutor` and the `adb` subprocess are not modelled. Their effect is the `ExecResult` input. Standard error is only logged, so it is not part of that input.
- Logging is not modelled: the debug, info and error calls do not affect the outcome.
- Exceptions thrown by the helpers (an unreadable manifest, a resolution or install failure) are not modelled. They propagate as build errors and are outside the test-failure outcome.
- The iteration order of the dependency `Set` is not modelled. The model takes the dependencies in one arbitrary order as a sequence, and no lemma orders different artifacts relative to each other.
- A null artifact type is not modelled. Java would fail with a null-dereference exception at the type comparison. Types are always strings here.
- A null `testRunner`, which Java would concatenate as `null`, is not modelled, because the parameter has a default value.
- Java strings are UTF-16, while Dafny `char` is a Unicode scalar value. The matcher depends only on the characters listed above, so this does not change any verdict.
- `PlatformTester.PlatformTesterMojo.Execute`: the outcome is returned as a value, not raised as a `MojoFailureException`.

