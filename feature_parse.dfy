/**
 * The line-by-line pass of `parseFeatureFile`
 * (src/test/cucumberTestController.ts), proved to compute the fold
 * `FeatureTests.ParseUpTo` over the classified lines.
 */
module FeatureParse {
  import opened Wrappers
  import opened Text
  import opened FeatureTests
  import Workspaces

  /** The body of parseFeatureFile's loop on the `i`th line. */
  method ReadLine(featureTags: seq<string>, currentTags: seq<string>, featureItem: Option<TestItem>, lines: seq<string>, i: nat,
                  uri: string, fileId: string, profiles: seq<string>)
    returns (featureTags': seq<string>, currentTags': seq<string>, featureItem': Option<TestItem>)
    requires i < |lines|
    requires ParseState(featureTags, currentTags, featureItem) == ParseUpTo(Classified(lines), i, uri, fileId, profiles)
    ensures ParseState(featureTags', currentTags', featureItem') == ParseUpTo(Classified(lines), i + 1, uri, fileId, profiles)
  {
    ClassifiedAt(lines, i);
    featureTags', currentTags', featureItem' := featureTags, currentTags, featureItem;
    var line := Trim(lines[i]);
    if StartsWith(line, "@") {
      currentTags' := currentTags + TagsOf(line);
      return;
    }
    var featureMatch := FeatureName(line);
    if featureMatch.Some? && featureItem.None? {
      featureTags' := currentTags;
      currentTags' := [];
      featureItem' := Some(FeatureItem(fileId, uri, i, |line|, featureMatch.value));
      return;
    }
    var scenarioMatch := ScenarioName(line);
    if featureMatch.Some? {
      FeatureLineIsNoScenarioLine(line);
    }
    if scenarioMatch.Some? && featureItem.Some? {
      var allTags := Workspaces.Dedup(featureTags + currentTags);
      var matching := MatchingProfiles(profiles, allTags);
      var s := ScenarioLine(fileId, uri, i, |line|, scenarioMatch.value);
      var children := FileScenario(featureItem.value.children, s, matching);
      featureItem' := Some(featureItem.value.(children := children));
      currentTags' := [];
    }
  }

  /** A line that opens a feature is never a scenario line. */
  lemma FeatureLineIsNoScenarioLine(line: string)
    requires FeatureName(line).Some?
    ensures ScenarioName(line).None?
  {
    assert line[0] == 'F';
  }

  /** The inner loop of parseFeatureFile: the scenario filed under each matching profile in turn. */
  method FileScenario(children: seq<TestItem>, s: ScenarioLine, matching: seq<string>) returns (r: seq<TestItem>)
    ensures r == AddUnderProfiles(children, s, matching)
  {
    r := children;
    for k := 0 to |matching|
      invariant r == AddUnderProfiles(children, s, matching[..k])
    {
      var profile := matching[k];
      var profileId := ProfileId(s.fileId, profile);
      var scenario := ScenarioItem(s, profile);
      var profileIndex := IndexOfId(r, profileId);
      if profileIndex.Some? {
        var j := profileIndex.value;
        r := r[j := r[j].(children := Upsert(r[j].children, scenario))];
      } else {
        r := r + [TestItem(profileId, "@" + profile, Some(s.uri), None, None, [scenario])];
      }
      assert matching[..k + 1][..k] == matching[..k];
    }
    assert matching[..|matching|] == matching;
  }

  /** The pass of parseFeatureFile over the lines of `text`, yielding the file's item if it has a feature. */
  method ReadFeature(lines: seq<string>, uri: string, fileId: string, profiles: seq<string>) returns (featureItem: Option<TestItem>)
    ensures featureItem == ParseUpTo(Classified(lines), |lines|, uri, fileId, profiles).feature
  {
    var featureTags: seq<string> := [];
    var currentTags: seq<string> := [];
    featureItem := None;
    var i := 0;
    while i < |lines|
      invariant i <= |lines|
      invariant ParseState(featureTags, currentTags, featureItem) == ParseUpTo(Classified(lines), i, uri, fileId, profiles)
    {
      featureTags, currentTags, featureItem := ReadLine(featureTags, currentTags, featureItem, lines, i, uri, fileId, profiles);
      i := i + 1;
    }
  }

}
