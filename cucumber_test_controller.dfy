/**
 * `CucumberTestController` (src/test/cucumberTestController.ts): the test
 * items of the workspace's feature files, kept in the controller's item
 * collection and in a map from file id to the file's item, and the commands
 * that run them.
 */
module CucumberTests {
  import opened Wrappers
  import opened Text
  import opened Paths
  import opened FeatureTests
  import opened TestRuns
  import opened FeatureParse
  import Workspaces

  // ----- the root collection -----

  /** `items.delete(id)`: every item but the one with that id, in order. */
  function WithoutId(items: seq<TestItem>, id: string): seq<TestItem> {
    if items == [] then []
    else (if items[0].id == id then [] else [items[0]]) + WithoutId(items[1..], id)
  }

  /** Exactly the items with another id remain. */
  lemma {:induction false} WithoutIdMembers(items: seq<TestItem>, id: string)
    ensures forall x :: x in WithoutId(items, id) <==> x in items && x.id != id
  {
    if items != [] {
      WithoutIdMembers(items[1..], id);
      assert items == [items[0]] + items[1..];
    }
  }

  predicate UniqueIds(items: seq<TestItem>) {
    forall i, j | 0 <= i < j < |items| :: items[i].id != items[j].id
  }

  lemma {:induction false} WithoutIdKeepsIdsUnique(items: seq<TestItem>, id: string)
    requires UniqueIds(items)
    ensures UniqueIds(WithoutId(items, id))
  {
    if items != [] {
      WithoutIdKeepsIdsUnique(items[1..], id);
      WithoutIdMembers(items[1..], id);
      var rest := WithoutId(items[1..], id);
      var head := if items[0].id == id then [] else [items[0]];
      forall x | x in rest
        ensures x.id != items[0].id
      {
        var k :| 0 <= k < |items[1..]| && items[1..][k] == x;
        assert items[k + 1] == x;
      }
      var r := head + rest;
      forall i, j | 0 <= i < j < |r|
        ensures r[i].id != r[j].id
      {
        if i < |head| {
          assert r[j] == rest[j - |head|] && r[j] in rest;
        } else {
          assert r[i] == rest[i - |head|] && r[j] == rest[j - |head|];
        }
      }
    }
  }

  lemma {:induction false} WithoutAbsentId(items: seq<TestItem>, id: string)
    requires forall k | 0 <= k < |items| :: items[k].id != id
    ensures WithoutId(items, id) == items
  {
    if items != [] {
      WithoutAbsentId(items[1..], id);
      assert items == [items[0]] + items[1..];
    }
  }

  /** The root collection after a file is parsed again: its old item removed, its new one, if any, at the end. */
  function AfterParse(items: seq<TestItem>, fileId: string, parsed: Option<TestItem>): seq<TestItem> {
    WithoutId(items, fileId) + (if parsed.Some? then [parsed.value] else [])
  }

  /** The map after a file is parsed again: the file's entry is its new item, or gone. */
  function MapAfterParse(byId: map<string, TestItem>, fileId: string, parsed: Option<TestItem>): map<string, TestItem> {
    if parsed.Some? then byId[fileId := parsed.value] else byId - {fileId}
  }

  /** The collection after a parse does not depend on whether the file's item was removed first. */
  lemma ItemsAfterRemoval(items: seq<TestItem>, fileId: string, parsed: Option<TestItem>)
    ensures AfterParse(WithoutId(items, fileId), fileId, parsed) == AfterParse(items, fileId, parsed)
  {
    WithoutIdMembers(items, fileId);
    WithoutAbsentId(WithoutId(items, fileId), fileId);
  }

  /** The map after a parse does not depend on whether the file's entry was removed first. */
  lemma MapAfterRemoval(byId: map<string, TestItem>, fileId: string, parsed: Option<TestItem>)
    ensures MapAfterParse(byId - {fileId}, fileId, parsed) == MapAfterParse(byId, fileId, parsed)
  {
    if parsed.Some? {
      assert (byId - {fileId})[fileId := parsed.value] == byId[fileId := parsed.value];
    } else {
      assert byId - {fileId} - {fileId} == byId - {fileId};
    }
  }

  /** Parsing the same file twice leaves the collection as parsing it once. */
  lemma {:induction false} ReparseIsIdempotent(items: seq<TestItem>, fileId: string, parsed: Option<TestItem>)
    requires parsed.Some? ==> parsed.value.id == fileId
    ensures AfterParse(AfterParse(items, fileId, parsed), fileId, parsed) == AfterParse(items, fileId, parsed)
  {
    var once := AfterParse(items, fileId, parsed);
    WithoutIdAppend(WithoutId(items, fileId), if parsed.Some? then [parsed.value] else [], fileId);
    WithoutIdMembers(items, fileId);
    WithoutAbsentId(WithoutId(items, fileId), fileId);
    if parsed.Some? {
      assert WithoutId([parsed.value], fileId) == [] by {
        assert [parsed.value][1..] == [];
      }
    }
  }

  /** Deleting a file after parsing it leaves the collection as deleting it at once. */
  lemma RemoveAfterParse(items: seq<TestItem>, fileId: string, parsed: Option<TestItem>)
    requires parsed.Some? ==> parsed.value.id == fileId
    ensures WithoutId(AfterParse(items, fileId, parsed), fileId) == WithoutId(items, fileId)
  {
    WithoutIdAppend(WithoutId(items, fileId), if parsed.Some? then [parsed.value] else [], fileId);
    WithoutIdMembers(items, fileId);
    WithoutAbsentId(WithoutId(items, fileId), fileId);
    if parsed.Some? {
      assert WithoutId([parsed.value], fileId) == [] by {
        assert [parsed.value][1..] == [];
      }
    }
  }

  lemma {:induction false} WithoutIdAppend(a: seq<TestItem>, b: seq<TestItem>, id: string)
    ensures WithoutId(a + b, id) == WithoutId(a, id) + WithoutId(b, id)
  {
    if a == [] {
      assert a + b == b;
    } else {
      WithoutIdAppend(a[1..], b, id);
      assert (a + b)[0] == a[0] && (a + b)[1..] == a[1..] + b;
      var head := if a[0].id == id then [] else [a[0]];
      AppendAssoc(head, WithoutId(a[1..], id), WithoutId(b, id));
    }
  }

  /** The item a parse produces belongs to the file: its id is the file id and its uri the file's. */
  lemma ParsedFeatureBelongsToFile(text: string, uri: string, fileId: string, profiles: seq<string>)
    ensures var p := ParsedFeature(text, uri, fileId, profiles);
      p.Some? ==> p.value.id == fileId && p.value.uri == Some(uri)
  {
    var kinds := Classified(Lines(text));
    FirstFeatureLineWins(kinds, |kinds|, uri, fileId, profiles);
  }

  // ----- finding a scenario's item -----

  /** `runScenarioAtLine`'s test on an item two levels down. */
  predicate IsScenarioAt(child: TestItem, uri: string, line: nat, profile: string) {
    child.uri == Some(uri) && child.range.Some? && child.range.value.line == line && child.description == Some(profile)
  }

  /** The children of the items, in order. */
  function ChildrenOf(items: seq<TestItem>): seq<TestItem> {
    if items == [] then [] else ChildrenOf(items[..|items| - 1]) + items[|items| - 1].children
  }

  /** The items two levels below the roots, in the order of the nested `forEach` calls. */
  function Grandchildren(items: seq<TestItem>): seq<TestItem> {
    if items == [] then [] else Grandchildren(items[..|items| - 1]) + ChildrenOf(items[|items| - 1].children)
  }

  /** The last of `xs` matching the test, `acc` when none does: the nested `forEach` with its assignment. */
  function LastScenarioAt(acc: Option<TestItem>, xs: seq<TestItem>, uri: string, line: nat, profile: string): (r: Option<TestItem>)
    ensures NoScenarioFrom(xs, 0, uri, line, profile) ==> r == acc
    ensures !NoScenarioFrom(xs, 0, uri, line, profile) ==> r.Some? && r.value in xs && IsScenarioAt(r.value, uri, line, profile)
  {
    if xs == [] then acc
    else if IsScenarioAt(xs[|xs| - 1], uri, line, profile) then Some(xs[|xs| - 1])
    else LastScenarioAt(acc, xs[..|xs| - 1], uri, line, profile)
  }

  /** The item `runScenarioAtLine` runs, looked up in the root collection `items`. */
  function FindScenario(items: seq<TestItem>, uri: string, line: nat, profile: string): Option<TestItem> {
    LastScenarioAt(None, Grandchildren(items), uri, line, profile)
  }

  /** No item of `xs` from index `from` on passes `runScenarioAtLine`'s test. */
  predicate NoScenarioFrom(xs: seq<TestItem>, from: nat, uri: string, line: nat, profile: string) {
    forall j | from <= j < |xs| :: !IsScenarioAt(xs[j], uri, line, profile)
  }

  /** The search finds the last grandchild that is a scenario of the file at that line for that profile, if any. */
  lemma {:induction false} FoundScenarioIsTheLastMatch(xs: seq<TestItem>, uri: string, line: nat, profile: string)
    ensures var r := LastScenarioAt(None, xs, uri, line, profile);
      && (r.None? <==> NoScenarioFrom(xs, 0, uri, line, profile))
      && (r.Some? ==> exists k | 0 <= k < |xs| :: xs[k] == r.value && IsScenarioAt(xs[k], uri, line, profile)
                        && NoScenarioFrom(xs, k + 1, uri, line, profile))
  {
    if xs != [] {
      var init, last := xs[..|xs| - 1], xs[|xs| - 1];
      FoundScenarioIsTheLastMatch(init, uri, line, profile);
      var r := LastScenarioAt(None, xs, uri, line, profile);
      if !IsScenarioAt(last, uri, line, profile) {
        assert r == LastScenarioAt(None, init, uri, line, profile);
        NoScenarioFromSnoc(xs, 0, uri, line, profile);
        if r.Some? {
          var k :| 0 <= k < |init| && init[k] == r.value && IsScenarioAt(init[k], uri, line, profile)
            && NoScenarioFrom(init, k + 1, uri, line, profile);
          NoScenarioFromSnoc(xs, k + 1, uri, line, profile);
          assert xs[k] == init[k];
          assert 0 <= k < |xs| && xs[k] == r.value && IsScenarioAt(xs[k], uri, line, profile)
                 && NoScenarioFrom(xs, k + 1, uri, line, profile);
        }
      } else {
        var k := |xs| - 1;
        assert r == Some(last);
        assert NoScenarioFrom(xs, k + 1, uri, line, profile);
        assert 0 <= k < |xs| && xs[k] == r.value && IsScenarioAt(xs[k], uri, line, profile)
               && NoScenarioFrom(xs, k + 1, uri, line, profile);
      }
    }
  }

  lemma NoScenarioFromSnoc(xs: seq<TestItem>, from: nat, uri: string, line: nat, profile: string)
    requires from < |xs|
    ensures NoScenarioFrom(xs, from, uri, line, profile)
        <==> NoScenarioFrom(xs[..|xs| - 1], from, uri, line, profile) && !IsScenarioAt(xs[|xs| - 1], uri, line, profile)
  {
    var init := xs[..|xs| - 1];
    assert forall j | from <= j < |init| :: xs[j] == init[j];
  }

  lemma LastScenarioAtSnoc(xs: seq<TestItem>, x: TestItem, uri: string, line: nat, profile: string)
    ensures LastScenarioAt(None, xs + [x], uri, line, profile)
         == if IsScenarioAt(x, uri, line, profile) then Some(x) else LastScenarioAt(None, xs, uri, line, profile)
  {
    assert (xs + [x])[..|xs|] == xs;
  }

  lemma TakeNone(u: seq<TestItem>, s: seq<TestItem>)
    ensures u + ChildrenOf(s[..0]) == u && u + s[..0] == u
  {
    assert s[..0] == [];
  }

  lemma TakeAll(s: seq<TestItem>)
    ensures s[..|s|] == s
  {
  }

  /** One more item's children, behind a fixed head `u`. */
  lemma ChildrenOfSnoc(u: seq<TestItem>, items: seq<TestItem>, b: nat)
    requires b < |items|
    ensures u + ChildrenOf(items[..b + 1]) == (u + ChildrenOf(items[..b])) + items[b].children[..|items[b].children|]
  {
    assert items[..b + 1][..b] == items[..b];
    TakeAll(items[b].children);
    AppendAssoc(u, ChildrenOf(items[..b]), items[b].children);
  }

  /** One more root's grandchildren. */
  lemma GrandchildrenSnoc(items: seq<TestItem>, a: nat)
    requires a < |items|
    ensures Grandchildren(items[..a + 1])
         == Grandchildren(items[..a]) + ChildrenOf(items[a].children[..|items[a].children|])
  {
    assert items[..a + 1][..a] == items[..a];
    TakeAll(items[a].children);
  }

  lemma {:induction false} LastScenarioAtAppend(acc: Option<TestItem>, xs: seq<TestItem>, ys: seq<TestItem>,
                                               uri: string, line: nat, profile: string)
    ensures LastScenarioAt(acc, xs + ys, uri, line, profile)
         == LastScenarioAt(LastScenarioAt(acc, xs, uri, line, profile), ys, uri, line, profile)
    decreases |ys|
  {
    if ys == [] {
      assert xs + ys == xs;
    } else {
      var init := ys[..|ys| - 1];
      assert (xs + ys)[..|xs + ys| - 1] == xs + init;
      LastScenarioAtAppend(acc, xs, init, uri, line, profile);
    }
  }

  /** `profile || config.get('defaultProfile', 'cqrs')`. */
  function ProfileToUse(profile: Option<string>, defaultProfile: string): (r: string)
    ensures r == defaultProfile || (profile.Some? && r == profile.value)
    ensures profile.Some? && profile.value != "" ==> r == profile.value
    ensures r == "" <==> (profile.None? || profile.value == "") && defaultProfile == ""
  {
    if profile.Some? && profile.value != "" then profile.value else defaultProfile
  }

  // ----- the controller -----

  /** The map holds exactly the collection's items, each under its own id, and the ids are distinct. */
  ghost predicate Indexed(items: seq<TestItem>, byId: map<string, TestItem>) {
    && UniqueIds(items)
    && (forall k | 0 <= k < |items| :: items[k].id in byId && byId[items[k].id] == items[k])
    && (forall f | f in byId :: byId[f].id == f && byId[f] in items)
  }

  /** Removing an id from both sides keeps them in step. */
  lemma IndexedWithout(items: seq<TestItem>, byId: map<string, TestItem>, id: string)
    requires Indexed(items, byId)
    ensures Indexed(WithoutId(items, id), byId - {id})
  {
    WithoutIdKeepsIdsUnique(items, id);
    WithoutIdMembers(items, id);
    var rest := WithoutId(items, id);
    forall k | 0 <= k < |rest|
      ensures rest[k].id in byId - {id} && (byId - {id})[rest[k].id] == rest[k]
    {
      assert rest[k] in items;
      var j :| 0 <= j < |items| && items[j] == rest[k];
    }
  }

  /** Adding an item with a fresh id to both sides keeps them in step. */
  lemma IndexedAppend(items: seq<TestItem>, byId: map<string, TestItem>, f: TestItem)
    requires Indexed(items, byId) && f.id !in byId
    ensures Indexed(items + [f], byId[f.id := f])
  {
    var r := items + [f];
    forall i, j | 0 <= i < j < |r|
      ensures r[i].id != r[j].id
    {
      if j == |items| {
        assert r[i] == items[i];
      }
    }
  }

  class CucumberTestController {
    /** `testController.items`, in insertion order. */
    var items: seq<TestItem>
    /** `testItemsMap`: the item of each parsed file, by file id. */
    var itemsByFile: map<string, TestItem>

    /** The map and the collection hold the same items, each under its own id, and the ids are distinct. */
    ghost predicate Valid()
      reads this
    {
      Indexed(items, itemsByFile)
    }

    constructor()
      ensures Valid() && items == [] && itemsByFile == map[]
    {
      items := [];
      itemsByFile := map[];
    }

    /** removeTestsFromDocument: the file's item leaves the collection and the map. */
    method RemoveTestsFromDocument(fileId: string)
      requires Valid()
      modifies this
      ensures Valid()
      ensures items == WithoutId(old(items), fileId)
      ensures itemsByFile == old(itemsByFile) - {fileId}
    {
      IndexedWithout(items, itemsByFile, fileId);
      if fileId in itemsByFile {
        var testItem := itemsByFile[fileId];
        items := WithoutId(items, testItem.id);
        itemsByFile := itemsByFile - {fileId};
      } else {
        WithoutAbsentId(items, fileId);
        itemsByFile := itemsByFile - {fileId};
      }
    }

    /**
     * parseFeatureFile: the file's old item is removed, the lines are read
     * in one pass, and the file's new item, when it has a `Feature:` line, is
     * added to the collection and the map.
     */
    method ParseFeatureFile(uri: string, fileId: string, text: string, profiles: seq<string>)
      requires Valid()
      modifies this
      ensures Valid()
      ensures items == AfterParse(old(items), fileId, ParsedFeature(text, uri, fileId, profiles))
      ensures itemsByFile == MapAfterParse(old(itemsByFile), fileId, ParsedFeature(text, uri, fileId, profiles))
    {
      RemoveTestsFromDocument(fileId);
      var featureItem := ReadFeature(Lines(text), uri, fileId, profiles);
      ParsedFeatureBelongsToFile(text, uri, fileId, profiles);
      AddFeatureItem(fileId, featureItem);
      ghost var parsed := ParsedFeature(text, uri, fileId, profiles);
      ItemsAfterRemoval(old(items), fileId, parsed);
      MapAfterRemoval(old(itemsByFile), fileId, parsed);
    }

    /** The end of parseFeatureFile: the file's new item, if any, joins the collection and the map. */
    method AddFeatureItem(fileId: string, featureItem: Option<TestItem>)
      requires Valid() && fileId !in itemsByFile
      requires featureItem.Some? ==> featureItem.value.id == fileId
      modifies this
      ensures Valid()
      ensures items == AfterParse(old(items), fileId, featureItem)
      ensures itemsByFile == MapAfterParse(old(itemsByFile), fileId, featureItem)
    {
      IndexedWithout(items, itemsByFile, fileId);
      WithoutAbsentId(items, fileId);
      assert itemsByFile - {fileId} == itemsByFile;
      if featureItem.Some? {
        IndexedAppend(items, itemsByFile, featureItem.value);
        items := items + [featureItem.value];
        itemsByFile := itemsByFile[fileId := featureItem.value];
      }
    }

    /** runTests: the queue walk over the requested items, or over all of them. */
    method RunTests(requested: Option<seq<TestItem>>, cancelAt: Option<nat>, env: RunEnv) returns (log: seq<RunEvent>)
      ensures log == RunLog(if requested.Some? then requested.value else items, cancelAt, env)
    {
      var queue := if requested.Some? then requested.value else items;
      ghost var initial := queue;
      var pos := 0;
      log := [];
      while pos < |queue|
        invariant pos <= |queue|
        invariant log + Events(Walk(queue, pos, cancelAt), env) == Events(Walk(initial, 0, cancelAt), env)
        decreases ForestSize(queue[pos..])
      {
        var test := queue[pos];
        QueueSplit(queue, pos);
        if Cancelled(cancelAt, pos) {
          WalkSkips(queue, pos, cancelAt, env);
          AppendAssoc(log, [Skipped(test.id)], Events(Walk(queue, pos + 1, cancelAt), env));
          log := log + [Skipped(test.id)];
        } else if test.children != [] {
          WalkExpands(queue, pos, cancelAt, env);
          queue := queue + test.children;
        } else {
          WalkRuns(queue, pos, cancelAt, env);
          var events := RunScenario(test, env);
          AppendAssoc(log, events, Events(Walk(queue, pos + 1, cancelAt), env));
          log := log + events;
        }
        pos := pos + 1;
      }
      log := log + [Ended];
    }

    /** runScenario: started, then one verdict from the process's outcome. */
    method RunScenario(test: TestItem, env: RunEnv) returns (events: seq<RunEvent>)
      ensures events == ScenarioEvents(test, env)
    {
      events := [Started(test.id)];
      if test.uri.None? {
        return events + [Errored(test.id, "No URI found for test")];
      }
      if test.range.None? {
        return events + [Errored(test.id, "No line number found for scenario")];
      }
      var scenarioName := test.labelText;
      var profile := ProfileOf(test);
      var uri := test.uri.value;
      var cwd := ClosestPackageJsonFolder(uri, env.workspaceRoot(uri), env.packageDirs);
      if cwd.None? || cwd.value == "" {
        return events + [Errored(test.id, "No package.json folder found")];
      }
      var outcome := env.spawn(cwd.value, "npx", CucumberArgs(profile, scenarioName));
      if outcome.Threw? {
        return events + [Errored(test.id, outcome.message)];
      }
      var result := ResultOf(outcome);
      if result.exitCode == 0 {
        events := events + [Passed(test.id)];
      } else {
        events := events + [Failed(test.id, FailureMessage(result))];
      }
    }

    /** The nested `forEach` over the roots, their children and their grandchildren. */
    method FindScenarioItem(uri: string, line: nat, profile: string) returns (testItem: Option<TestItem>)
      ensures testItem == FindScenario(items, uri, line, profile)
    {
      testItem := None;
      for a := 0 to |items|
        invariant testItem == LastScenarioAt(None, Grandchildren(items[..a]), uri, line, profile)
      {
        var item := items[a];
        ghost var before := Grandchildren(items[..a]);
        TakeNone(before, item.children);
        for b := 0 to |item.children|
          invariant testItem == LastScenarioAt(None, before + ChildrenOf(item.children[..b]), uri, line, profile)
        {
          var profileItem := item.children[b];
          ghost var upTo := before + ChildrenOf(item.children[..b]);
          TakeNone(upTo, profileItem.children);
          for c := 0 to |profileItem.children|
            invariant testItem == LastScenarioAt(None, upTo + profileItem.children[..c], uri, line, profile)
          {
            var child := profileItem.children[c];
            AppendTakeNext(upTo, profileItem.children, c);
            LastScenarioAtSnoc(upTo + profileItem.children[..c], child, uri, line, profile);
            if IsScenarioAt(child, uri, line, profile) {
              testItem := Some(child);
            }
          }
          ChildrenOfSnoc(before, item.children, b);
        }
        GrandchildrenSnoc(items, a);
      }
      TakeAll(items);
    }

    /**
     * runScenarioAtLine: the scenario's item is looked up; when it is missing
     * the file is parsed again and the lookup repeated. A found item is run on
     * its own with a token that is never cancelled; `None` stands for the
     * error message shown when none is found.
     */
    method RunScenarioAtLine(uri: string, fileId: string, text: string, line: nat, profile: Option<string>,
                             defaultProfile: string, profiles: seq<string>, env: RunEnv)
      returns (log: Option<seq<RunEvent>>)
      requires Valid()
      modifies this
      ensures Valid()
      ensures var p := ProfileToUse(profile, defaultProfile);
        var first := FindScenario(old(items), uri, line, p);
        && (first.Some? ==> items == old(items) && itemsByFile == old(itemsByFile))
        && (first.None? ==> items == AfterParse(old(items), fileId, ParsedFeature(text, uri, fileId, profiles)))
        && var found := FindScenario(items, uri, line, p);
           log == if found.Some? then Some(RunLog([found.value], None, env)) else None
    {
      var profileToUse := ProfileToUse(profile, defaultProfile);
      var testItem := FindScenarioItem(uri, line, profileToUse);
      if testItem.None? {
        ParseFeatureFile(uri, fileId, text, profiles);
        testItem := FindScenarioItem(uri, line, profileToUse);
      }
      if testItem.Some? {
        var events := RunTests(Some([testItem.value]), None, env);
        log := Some(events);
      } else {
        log := None;
      }
    }
  }
}
