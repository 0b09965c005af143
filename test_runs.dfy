/**
 * A test run of `CucumberTestController` (src/test/cucumberTestController.ts):
 * the queue walk of `runTests`, the outcome of one scenario (`runScenario`,
 * `executeCucumber`) and the events they report to VS Code. The process, the
 * file system and the workspace folders are the parameters of a `RunEnv`.
 */
module TestRuns {
  import opened Wrappers
  import opened Text
  import RegexEscape
  import opened Paths
  import opened FeatureTests

  // ----- sizes and leaves of the test tree -----

  function TreeSize(t: TestItem): nat
    decreases t, 1
  {
    1 + ForestSize(t.children)
  }

  function ForestSize(ts: seq<TestItem>): nat
    decreases ts, 0
  {
    if ts == [] then 0 else TreeSize(ts[0]) + ForestSize(ts[1..])
  }

  lemma {:induction false} ForestSizeAppend(a: seq<TestItem>, b: seq<TestItem>)
    ensures ForestSize(a + b) == ForestSize(a) + ForestSize(b)
  {
    if a == [] {
      assert a + b == b;
    } else {
      ForestSizeAppend(a[1..], b);
      assert (a + b)[1..] == a[1..] + b;
    }
  }

  /** The scenarios under a test item: the item itself when it has no children. */
  function TreeLeaves(t: TestItem): seq<TestItem>
    decreases t, 1
  {
    if t.children == [] then [t] else ForestLeaves(t.children)
  }

  function ForestLeaves(ts: seq<TestItem>): seq<TestItem>
    decreases ts, 0
  {
    if ts == [] then [] else TreeLeaves(ts[0]) + ForestLeaves(ts[1..])
  }

  lemma {:induction false} ForestLeavesAppend(a: seq<TestItem>, b: seq<TestItem>)
    ensures ForestLeaves(a + b) == ForestLeaves(a) + ForestLeaves(b)
  {
    if a == [] {
      assert a + b == b;
    } else {
      ForestLeavesAppend(a[1..], b);
      assert (a + b)[1..] == a[1..] + b;
      AppendAssoc(TreeLeaves(a[0]), ForestLeaves(a[1..]), ForestLeaves(b));
    }
  }

  lemma QueueSplit(queue: seq<TestItem>, pos: nat)
    requires pos < |queue|
    ensures queue[pos..][0] == queue[pos] && queue[pos..][1..] == queue[pos + 1..]
    ensures ForestSize(queue[pos..]) == TreeSize(queue[pos]) + ForestSize(queue[pos + 1..])
    ensures ForestLeaves(queue[pos..]) == TreeLeaves(queue[pos]) + ForestLeaves(queue[pos + 1..])
  {
    assert queue[pos..][1..] == queue[pos + 1..];
  }

  /** Expanding the item at `pos`: the rest of the queue followed by the item's children. */
  lemma QueueExpand(queue: seq<TestItem>, pos: nat)
    requires pos < |queue|
    ensures (queue + queue[pos].children)[pos + 1..] == queue[pos + 1..] + queue[pos].children
    ensures ForestSize((queue + queue[pos].children)[pos + 1..]) + 1 == ForestSize(queue[pos..])
  {
    var t := queue[pos];
    assert (queue + t.children)[pos + 1..] == queue[pos + 1..] + t.children;
    ForestSizeAppend(queue[pos + 1..], t.children);
    QueueSplit(queue, pos);
  }

  // ----- the queue walk -----

  /** What `runTests` does with one queued item. */
  datatype Visit = Skip(item: TestItem) | Run(item: TestItem)

  /**
   * Cancellation: the token is first seen cancelled at queue position
   * `cancelAt` (never, when `None`), and stays cancelled.
   */
  predicate Cancelled(cancelAt: Option<nat>, pos: nat) {
    cancelAt.Some? && cancelAt.value <= pos
  }

  /**
   * The loop `for (const test of queue)` from position `pos`: a cancelled run
   * skips the item; an item with children appends them to the queue; an item
   * without children is run as a scenario.
   */
  function Walk(queue: seq<TestItem>, pos: nat, cancelAt: Option<nat>): seq<Visit>
    requires pos <= |queue|
    decreases ForestSize(queue[pos..])
  {
    if pos == |queue| then []
    else
      var t := queue[pos];
      QueueSplit(queue, pos);
      if Cancelled(cancelAt, pos) then [Skip(t)] + Walk(queue, pos + 1, cancelAt)
      else if t.children != [] then
        QueueExpand(queue, pos);
        Walk(queue + t.children, pos + 1, cancelAt)
      else [Run(t)] + Walk(queue, pos + 1, cancelAt)
  }

  /** One iteration of the walk, as events: a cancelled item is reported skipped. */
  lemma WalkSkips(queue: seq<TestItem>, pos: nat, cancelAt: Option<nat>, env: RunEnv)
    requires pos < |queue| && Cancelled(cancelAt, pos)
    ensures Events(Walk(queue, pos, cancelAt), env) == [Skipped(queue[pos].id)] + Events(Walk(queue, pos + 1, cancelAt), env)
  {
    var rest := Walk(queue, pos + 1, cancelAt);
    assert Walk(queue, pos, cancelAt) == [Skip(queue[pos])] + rest;
    assert ([Skip(queue[pos])] + rest)[1..] == rest;
  }

  /** One iteration of the walk, as events: an item with children is replaced by them at the end of the queue. */
  lemma WalkExpands(queue: seq<TestItem>, pos: nat, cancelAt: Option<nat>, env: RunEnv)
    requires pos < |queue| && !Cancelled(cancelAt, pos) && queue[pos].children != []
    ensures Events(Walk(queue, pos, cancelAt), env) == Events(Walk(queue + queue[pos].children, pos + 1, cancelAt), env)
    ensures ForestSize((queue + queue[pos].children)[pos + 1..]) < ForestSize(queue[pos..])
  {
    QueueExpand(queue, pos);
  }

  /** One iteration of the walk, as events: an item without children is run. */
  lemma WalkRuns(queue: seq<TestItem>, pos: nat, cancelAt: Option<nat>, env: RunEnv)
    requires pos < |queue| && !Cancelled(cancelAt, pos) && queue[pos].children == []
    ensures Events(Walk(queue, pos, cancelAt), env) == ScenarioEvents(queue[pos], env) + Events(Walk(queue, pos + 1, cancelAt), env)
  {
    var rest := Walk(queue, pos + 1, cancelAt);
    assert Walk(queue, pos, cancelAt) == [Run(queue[pos])] + rest;
    assert ([Run(queue[pos])] + rest)[1..] == rest;
  }

  function SkipAll(items: seq<TestItem>): (r: seq<Visit>)
    ensures |r| == |items| && forall k | 0 <= k < |items| :: r[k] == Skip(items[k])
  {
    seq(|items|, k requires 0 <= k < |items| => Skip(items[k]))
  }

  /** Once the run is cancelled, every item still queued is reported skipped and none is expanded. */
  lemma {:induction false} CancelledRunSkipsTheRest(queue: seq<TestItem>, pos: nat, cancelAt: Option<nat>)
    requires pos <= |queue| && Cancelled(cancelAt, pos)
    ensures Walk(queue, pos, cancelAt) == SkipAll(queue[pos..])
    decreases |queue| - pos
  {
    if pos < |queue| {
      CancelledRunSkipsTheRest(queue, pos + 1, cancelAt);
      QueueSplit(queue, pos);
    }
  }

  function RunItems(vs: seq<Visit>): seq<TestItem> {
    if vs == [] then []
    else (if vs[0].Run? then [vs[0].item] else []) + RunItems(vs[1..])
  }

  /**
   * Without cancellation every item is expanded or run: the scenarios run are
   * exactly the leaves under the queued items (as a multiset: children are
   * queued behind the rest, so the order is breadth-first), and nothing is
   * skipped.
   */
  lemma {:induction false} UncancelledRunRunsEveryLeaf(queue: seq<TestItem>, pos: nat)
    requires pos <= |queue|
    ensures multiset(RunItems(Walk(queue, pos, None))) == multiset(ForestLeaves(queue[pos..]))
    ensures forall v | v in Walk(queue, pos, None) :: v.Run?
    decreases ForestSize(queue[pos..])
  {
    if pos < |queue| {
      var t := queue[pos];
      QueueSplit(queue, pos);
      if t.children != [] {
        QueueExpand(queue, pos);
        UncancelledRunRunsEveryLeaf(queue + t.children, pos + 1);
        ForestLeavesAppend(queue[pos + 1..], t.children);
      } else {
        UncancelledRunRunsEveryLeaf(queue, pos + 1);
        var rest := Walk(queue, pos + 1, None);
        assert Walk(queue, pos, None) == [Run(t)] + rest;
        assert ([Run(t)] + rest)[1..] == rest;
      }
    }
  }

  /** Only items without children are run as scenarios. */
  lemma {:induction false} OnlyLeavesRun(queue: seq<TestItem>, pos: nat, cancelAt: Option<nat>)
    requires pos <= |queue|
    ensures forall v | v in Walk(queue, pos, cancelAt) && v.Run? :: v.item.children == []
    decreases ForestSize(queue[pos..])
  {
    if pos < |queue| {
      var t := queue[pos];
      QueueSplit(queue, pos);
      if !Cancelled(cancelAt, pos) && t.children != [] {
        QueueExpand(queue, pos);
        OnlyLeavesRun(queue + t.children, pos + 1, cancelAt);
      } else {
        OnlyLeavesRun(queue, pos + 1, cancelAt);
      }
    }
  }

  // ----- one scenario -----

  /** How the `cucumber-js` process ended: it closed (with `null` when killed), failed to spawn, or the spawn threw. */
  datatype ProcessOutcome =
    | Closed(code: Option<int>, stdout: string, stderr: string)
    | SpawnError(stdout: string, message: string)
    | Threw(message: string)

  /**
   * The outside world of a run: the workspace folder of a file, the
   * directories holding a `package.json`, and what a process started in a
   * directory with a program and arguments does.
   */
  datatype RunEnv = RunEnv(
    workspaceRoot: string -> Option<string>,
    packageDirs: set<string>,
    spawn: (string, string, seq<string>) -> ProcessOutcome)

  /** The result `executeCucumber` resolves with. */
  datatype CucumberResult = CucumberResult(exitCode: int, stdout: string, stderr: string)

  /** The arguments given to `npx`: the name is regular-expression escaped, as `--name` takes a pattern. */
  function CucumberArgs(profile: string, scenarioName: string): (r: seq<string>)
    ensures |r| == 5 && r[0] == "cucumber-js" && r[1] == "-p" && r[2] == profile && r[3] == "--name"
    ensures RegexEscape.Unescape(r[4]) == scenarioName
  {
    RegexEscape.UnescapeEscape(scenarioName);
    ["cucumber-js", "-p", profile, "--name", RegexEscape.Escape(scenarioName)]
  }

  /** `close` resolves with `code ?? 0`; `error` resolves with exit code 1 and the error's message as stderr. */
  function ResultOf(outcome: ProcessOutcome): (r: CucumberResult)
    requires !outcome.Threw?
    ensures r.exitCode == 0 <==> ExitedCleanly(outcome)
    ensures r.stdout == outcome.stdout
    ensures outcome.Closed? ==> r.stderr == outcome.stderr
    ensures outcome.SpawnError? ==> r.exitCode == 1 && r.stderr == outcome.message
  {
    match outcome
    case Closed(code, out, err) => CucumberResult(if code.Some? then code.value else 0, out, err)
    case SpawnError(out, message) => CucumberResult(1, out, message)
  }

  /** `result.stderr || result.stdout || 'Test failed'`. */
  function FailureMessage(r: CucumberResult): (m: string)
    ensures m != ""
  {
    if r.stderr != "" then r.stderr else if r.stdout != "" then r.stdout else "Test failed"
  }

  datatype RunEvent =
    | Started(id: string)
    | Passed(id: string)
    | Failed(id: string, message: string)
    | Errored(id: string, message: string)
    | Skipped(id: string)
    | Ended

  /** `test.description || 'cqrs'`. */
  function ProfileOf(test: TestItem): string {
    if test.description.Some? && test.description.value != "" then test.description.value else "cqrs"
  }

  /** The directory the scenario's process runs in: the nearest `package.json` folder, else the workspace folder. */
  function ScenarioCwd(test: TestItem, env: RunEnv): Option<string>
    requires test.uri.Some?
  {
    PackageJsonWalk(Dirname(test.uri.value), env.workspaceRoot(test.uri.value), env.packageDirs)
  }

  /** The events `runScenario` reports for one scenario. */
  function ScenarioEvents(test: TestItem, env: RunEnv): seq<RunEvent> {
    [Started(test.id)] +
    if test.uri.None? then [Errored(test.id, "No URI found for test")]
    else if test.range.None? then [Errored(test.id, "No line number found for scenario")]
    else
      var cwd := ScenarioCwd(test, env);
      if cwd.None? || cwd.value == "" then [Errored(test.id, "No package.json folder found")]
      else
        var outcome := env.spawn(cwd.value, "npx", CucumberArgs(ProfileOf(test), test.labelText));
        if outcome.Threw? then [Errored(test.id, outcome.message)]
        else
          var r := ResultOf(outcome);
          if r.exitCode == 0 then [Passed(test.id)] else [Failed(test.id, FailureMessage(r))]
  }

  /** The process that ran cleanly: it closed with code 0, or was closed without a code. */
  predicate ExitedCleanly(outcome: ProcessOutcome) {
    outcome.Closed? && (outcome.code.None? || outcome.code.value == 0)
  }

  /** The scenario is started and then gets exactly one verdict: passed exactly when cucumber exited cleanly. */
  lemma ScenarioVerdict(test: TestItem, env: RunEnv)
    ensures var events := ScenarioEvents(test, env);
      && |events| == 2 && events[0] == Started(test.id) && events[1].id == test.id
      && !events[1].Skipped? && !events[1].Ended? && !events[1].Started?
      && (events[1].Passed? <==>
            && test.uri.Some? && test.range.Some?
            && var cwd := ScenarioCwd(test, env);
               && cwd.Some? && cwd.value != ""
               && ExitedCleanly(env.spawn(cwd.value, "npx", CucumberArgs(ProfileOf(test), test.labelText))))
      && (events[1].Failed? ==> events[1].message != "")
  {
  }

  /** The events of a sequence of visits, in order. */
  function Events(vs: seq<Visit>, env: RunEnv): seq<RunEvent> {
    if vs == [] then []
    else
      (match vs[0] case Skip(t) => [Skipped(t.id)] case Run(t) => ScenarioEvents(t, env)) + Events(vs[1..], env)
  }

  /** The whole log of `runTests` on an initial queue. */
  function RunLog(initial: seq<TestItem>, cancelAt: Option<nat>, env: RunEnv): seq<RunEvent> {
    Events(Walk(initial, 0, cancelAt), env) + [Ended]
  }

  lemma {:induction false} NoEndBeforeTheEnd(vs: seq<Visit>, env: RunEnv)
    ensures Ended !in Events(vs, env)
  {
    if vs != [] {
      NoEndBeforeTheEnd(vs[1..], env);
      if vs[0].Run? {
        ScenarioVerdict(vs[0].item, env);
      }
    }
  }

  /** `run.end()` is reported once, as the last event. */
  lemma RunEndsOnce(initial: seq<TestItem>, cancelAt: Option<nat>, env: RunEnv)
    ensures var log := RunLog(initial, cancelAt, env);
      |log| > 0 && log[|log| - 1] == Ended && Ended !in log[..|log| - 1]
  {
    var log := RunLog(initial, cancelAt, env);
    NoEndBeforeTheEnd(Walk(initial, 0, cancelAt), env);
    assert log[..|log| - 1] == Events(Walk(initial, 0, cancelAt), env);
  }

  /** Running one scenario on its own: started, its verdict, the end of the run. */
  lemma SingleScenarioRun(test: TestItem, env: RunEnv)
    requires test.children == []
    ensures RunLog([test], None, env) == ScenarioEvents(test, env) + [Ended]
  {
    assert Walk([test], 1, None) == [];
    assert Walk([test], 0, None) == [Run(test)];
    assert Events([Run(test)], env) == ScenarioEvents(test, env) + Events([], env);
  }
}
