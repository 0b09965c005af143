/**
 * src/commands/runScenario.ts: the run commands, which hand over to the
 * controller, and the debug command, which builds a launch configuration
 * for cucumber-js from the scenario on a line.
 */
module ScenarioCommands {
  import opened Wrappers
  import opened Text
  import opened RegexEscape
  import opened Paths
  import opened FeatureTests
  import opened TestRuns
  import opened FeatureParse
  import opened CucumberTests

  // ----- the run commands -----

  /** flight.runScenario: `runScenarioAtLine(document, line)` with no profile. */
  method RunScenario(controller: CucumberTestController, uri: string, fileId: string, text: string, line: nat,
                     defaultProfile: string, profiles: seq<string>, env: RunEnv)
    returns (log: Option<seq<RunEvent>>)
    requires controller.Valid()
    modifies controller
    ensures controller.Valid()
    ensures var first := FindScenario(old(controller.items), uri, line, defaultProfile);
      && (first.Some? ==> controller.items == old(controller.items))
      && (first.None? ==> controller.items == AfterParse(old(controller.items), fileId, ParsedFeature(text, uri, fileId, profiles)))
      && var found := FindScenario(controller.items, uri, line, defaultProfile);
         log == if found.Some? then Some(RunLog([found.value], None, env)) else None
  {
    log := controller.RunScenarioAtLine(uri, fileId, text, line, None, defaultProfile, profiles, env);
  }

  /** flight.runScenarioWithProfile: the profile is passed on unchanged. */
  method RunScenarioWithProfile(controller: CucumberTestController, uri: string, fileId: string, text: string,
                                line: nat, profile: string, defaultProfile: string, profiles: seq<string>, env: RunEnv)
    returns (log: Option<seq<RunEvent>>)
    requires controller.Valid()
    modifies controller
    ensures controller.Valid()
    ensures var p := ProfileToUse(Some(profile), defaultProfile);
      var first := FindScenario(old(controller.items), uri, line, p);
      && (first.Some? ==> controller.items == old(controller.items))
      && (first.None? ==> controller.items == AfterParse(old(controller.items), fileId, ParsedFeature(text, uri, fileId, profiles)))
      && var found := FindScenario(controller.items, uri, line, p);
         log == if found.Some? then Some(RunLog([found.value], None, env)) else None
  {
    log := controller.RunScenarioAtLine(uri, fileId, text, line, Some(profile), defaultProfile, profiles, env);
  }

  // ----- the debug command -----

  /** `lines[line]?.trim()` matched against `^Scenario:\s*(.+)`; a line outside the text has no scenario. */
  function ScenarioNameAt(text: string, line: int): Option<string> {
    var lines := Lines(text);
    if 0 <= line < |lines| then ScenarioName(Trim(lines[line])) else None
  }

  /**
   * The debug command reads the scenario the feature parser files for the
   * same line: a line with a name is classified as that scenario's title.
   */
  lemma DebuggedScenarioIsParsedScenario(text: string, line: int)
    requires ScenarioNameAt(text, line).Some?
    ensures 0 <= line < |Lines(text)|
    ensures var t := Trim(Lines(text)[line]);
      Classify(Lines(text)[line]) == ScenarioTitle(ScenarioNameAt(text, line).value, |t|)
  {
    var t := Trim(Lines(text)[line]);
    assert StartsWith(t, "Scenario:");
    assert t[0] == 'S';
    assert !StartsWith(t, "@");
    assert !StartsWith(t, "Feature:");
  }

  /** `config.get('defaultProfile', 'cqrs')`. */
  function DefaultProfile(setting: Option<string>): string {
    if setting.Some? then setting.value else "cqrs"
  }

  const CucumberProgram := "${workspaceFolder}/node_modules/.bin/cucumber-js"

  /** The parts of the launch configuration that depend on the scenario (type `node`, request `launch`). */
  datatype LaunchConfig = LaunchConfig(name: string, program: string, args: seq<string>, cwd: string)

  datatype DebugOutcome =
    | NoWorkspaceFolder
    | NoScenarioAtLine
    | Launch(config: LaunchConfig)

  /**
   * With the workspace root as fallback, the upward walk always ends in a
   * directory: the nearest in-scope ancestor holding a `package.json`, or
   * the root when there is none.
   */
  lemma WalkWithRootHasAnswer(dir: string, root: string, packageDirs: set<string>)
    ensures var r := PackageJsonWalk(dir, Some(root), packageDirs);
      var chain := Ancestors(dir);
      && r.Some?
      && (r.value == root || (r.value in packageDirs && StartsWith(r.value, root) && r.value in chain))
      && (forall k | FirstPackageDirAt(chain, k, Some(root), packageDirs) :: r.value == chain[k])
      && ((forall k :: !FirstPackageDirAt(chain, k, Some(root), packageDirs)) ==> r.value == root)
  {
    WalkResultByIndex(dir, Some(root), packageDirs);
  }

  /**
   * flight.debugScenario for the document at `fsPath`: `root` is the path of
   * its workspace folder, `setting` the configured default profile and
   * `packageDirs` the directories holding a `package.json`.
   */
  method DebugScenario(fsPath: string, text: string, line: int, root: Option<string>, setting: Option<string>,
                       packageDirs: set<string>)
    returns (outcome: DebugOutcome)
    ensures outcome.NoWorkspaceFolder? <==> root.None?
    ensures outcome.NoScenarioAtLine? <==> root.Some? && ScenarioNameAt(text, line).None?
    ensures outcome.Launch? ==>
              && root.Some? && ScenarioNameAt(text, line).Some?
              && var name := ScenarioNameAt(text, line).value;
                 && outcome.config.name == "Debug Scenario: " + name
                 && outcome.config.program == CucumberProgram
                 && outcome.config.args == ["-p", DefaultProfile(setting), "--name", Escape(name)]
                 && Unescape(outcome.config.args[3]) == name
                 && PackageJsonWalk(Dirname(fsPath), root, packageDirs) == Some(outcome.config.cwd)
                 && (outcome.config.cwd == root.value
                     || (outcome.config.cwd in packageDirs && StartsWith(outcome.config.cwd, root.value)))
                 && var chain := Ancestors(Dirname(fsPath));
                    && (forall k | FirstPackageDirAt(chain, k, root, packageDirs) :: outcome.config.cwd == chain[k])
                    && ((forall k :: !FirstPackageDirAt(chain, k, root, packageDirs)) ==> outcome.config.cwd == root.value)
  {
    if root.None? {
      return NoWorkspaceFolder;
    }
    var lines := Lines(text);
    var scenarioMatch := if 0 <= line < |lines| then ScenarioName(Trim(lines[line])) else None;
    if scenarioMatch.None? {
      return NoScenarioAtLine;
    }
    var scenarioName := scenarioMatch.value;
    var defaultProfile := DefaultProfile(setting);
    var escapedScenarioName := Escape(scenarioName);
    UnescapeEscape(scenarioName);

    var currentDir := Dirname(fsPath);
    var packageJsonDir := root.value;
    WalkWithRootHasAnswer(currentDir, root.value, packageDirs);
    while currentDir != "" && StartsWith(currentDir, root.value)
      invariant PackageJsonWalk(currentDir, root, packageDirs) == PackageJsonWalk(Dirname(fsPath), root, packageDirs)
      invariant packageJsonDir == root.value
      decreases WalkMeasure(currentDir)
    {
      if currentDir in packageDirs {
        packageJsonDir := currentDir;
        break;
      }
      var parentDir := Dirname(currentDir);
      if parentDir == currentDir {
        break;
      }
      DirnameShrinks(currentDir);
      currentDir := parentDir;
    }

    var config := LaunchConfig("Debug Scenario: " + scenarioName, CucumberProgram,
                               ["-p", defaultProfile, "--name", escapedScenarioName], packageJsonDir);
    return Launch(config);
  }
}
