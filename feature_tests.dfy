/**
 * The test tree that `CucumberTestController.parseFeatureFile`
 * (src/test/cucumberTestController.ts) builds from a feature file: one item
 * per file, one child per matching profile, one grandchild per scenario and
 * profile. The parse is specified here as a fold over the file's lines; the
 * controller's loop is proved equal to it.
 */
module FeatureTests {
  import opened Wrappers
  import opened Text
  import Workspaces

  /** `new vscode.Range(line, 0, line, length)`: a whole line of `length` characters. */
  datatype LineRange = LineRange(line: nat, length: nat)

  /** A `vscode.TestItem`: its children in insertion order. */
  datatype TestItem = TestItem(
    id: string,
    labelText: string,
    uri: Option<string>,
    range: Option<LineRange>,
    description: Option<string>,
    children: seq<TestItem>)

  /** The `flight.cucumber.profiles` setting when it is not set. */
  const DefaultProfiles: seq<string> := ["cqrs", "api"]

  function ConfiguredProfiles(setting: Option<seq<string>>): seq<string> {
    if setting.Some? then setting.value else DefaultProfiles
  }

  function DigitChar(d: nat): char
    requires d < 10
  {
    ('0' as int + d) as char
  }

  /** `${n}` for a line index. */
  function DecimalString(n: nat): (s: string)
    ensures |s| >= 1
    ensures forall m | 0 <= m < |s| :: '0' <= s[m] <= '9'
  {
    if n < 10 then [DigitChar(n)] else DecimalString(n / 10) + [DigitChar(n % 10)]
  }

  // ----- tag lines -----

  /** `.filter(t => t.startsWith('@')).map(t => t.substring(1))`. */
  function TagsIn(tokens: seq<string>): (r: seq<string>)
    ensures |r| <= |tokens|
  {
    if tokens == [] then []
    else (if StartsWith(tokens[0], "@") then [tokens[0][1..]] else []) + TagsIn(tokens[1..])
  }

  /** The tags a line starting with `@` declares: `line.split(/\s+/)` then the filter above. */
  function TagsOf(line: string): seq<string> {
    TagsIn(SplitWhere(line, IsSpace))
  }

  /** No tag read from a line holds white space, as the line is split on it. */
  lemma TagsOfHaveNoSpaces(line: string)
    ensures forall t | t in TagsOf(line) :: NoSpaces(t)
  {
    TagsInKeepsNoSpaces(SplitWhere(line, IsSpace));
  }

  /** Tags are tokens without their `@`, so tokens free of white space give tags free of it. */
  lemma {:induction false} TagsInKeepsNoSpaces(tokens: seq<string>)
    requires forall k, c | 0 <= k < |tokens| && c in tokens[k] :: !IsSpace(c)
    ensures forall t | t in TagsIn(tokens) :: NoSpaces(t)
  {
    if tokens != [] {
      TagsInKeepsNoSpaces(tokens[1..]);
      var tok := tokens[0];
      if StartsWith(tok, "@") {
        forall m | 0 <= m < |tok| - 1
          ensures !IsSpace(tok[1..][m])
        {
          assert tok[1..][m] in tokens[0];
        }
      }
    }
  }

  /** A tag line as it is written: each tag after an `@`, one space between them. */
  function TagLine(tags: seq<string>): string {
    if tags == [] then ""
    else if |tags| == 1 then "@" + tags[0]
    else "@" + tags[0] + " " + TagLine(tags[1..])
  }

  predicate NoSpaces(s: string) {
    forall m | 0 <= m < |s| :: !IsSpace(s[m])
  }

  // ----- Feature: and Scenario: lines -----

  predicate IsPlainChar(c: char) { !IsLineTerminator(c) }

  /** The last character of `line[lo..hi]` that is not a line terminator, as a one-character text. */
  function LastPlainChar(line: string, lo: nat, hi: nat): (r: Option<string>)
    requires lo <= hi <= |line|
    ensures r.Some? ==> |r.value| == 1 && IsPlainChar(r.value[0])
    decreases hi
  {
    if hi <= lo then None
    else if IsPlainChar(line[hi - 1]) then Some([line[hi - 1]])
    else LastPlainChar(line, lo, hi - 1)
  }

  /**
   * The capture of `^<label>\s*(.+)`: after the label and the spaces, the run
   * of characters up to the first line terminator. When only spaces follow the
   * label, `\s*` gives back its last character that `.` matches.
   */
  function LabelledName(line: string, prefix: string): (r: Option<string>)
    ensures r.Some? ==> r.value != [] && forall m | 0 <= m < |r.value| :: IsPlainChar(r.value[m])
  {
    if !StartsWith(line, prefix) then None
    else
      var k := SpacesEnd(line, |prefix|);
      if k < |line| then Some(line[k..SkipWhile(line, k, IsPlainChar)])
      else LastPlainChar(line, |prefix|, |line|)
  }

  function FeatureName(line: string): Option<string> { LabelledName(line, "Feature:") }

  function ScenarioName(line: string): Option<string> { LabelledName(line, "Scenario:") }

  // ----- the tree -----

  function ProfileId(fileId: string, profile: string): string {
    fileId + ":profile:" + profile
  }

  function ScenarioId(fileId: string, profile: string, line: nat): string {
    fileId + ":" + profile + ":" + DecimalString(line)
  }

  /** What a `Scenario:` line contributes, whatever the profiles. */
  datatype ScenarioLine = ScenarioLine(fileId: string, uri: string, line: nat, length: nat, name: string)

  function ScenarioItem(s: ScenarioLine, profile: string): TestItem {
    TestItem(ScenarioId(s.fileId, profile, s.line), s.name, Some(s.uri),
      Some(LineRange(s.line, s.length)), Some(profile), [])
  }

  function FeatureItem(fileId: string, uri: string, line: nat, length: nat, name: string): TestItem {
    TestItem(fileId, name, Some(uri), Some(LineRange(line, length)), None, [])
  }

  /** `children.get(id)`: the position of the child with that id. */
  function IndexOfId(children: seq<TestItem>, id: string): (r: Option<nat>)
    ensures r.Some? ==> r.value < |children| && children[r.value].id == id
    ensures r.None? ==> forall j | 0 <= j < |children| :: children[j].id != id
    ensures r.Some? ==> forall j | 0 <= j < r.value :: children[j].id != id
  {
    if children == [] then None
    else if children[0].id == id then Some(0)
    else
      var r := IndexOfId(children[1..], id);
      if r.Some? then Some(r.value + 1) else None
  }

  /** `children.add(item)`: an item with the same id is replaced where it stands, otherwise it is appended. */
  function Upsert(children: seq<TestItem>, item: TestItem): (r: seq<TestItem>)
    ensures item in r
    ensures IndexOfId(children, item.id).Some? ==> r == children[IndexOfId(children, item.id).value := item]
    ensures IndexOfId(children, item.id).None? ==> r == children + [item]
  {
    match IndexOfId(children, item.id)
    case Some(k) =>
      assert children[k := item][k] == item;
      children[k := item]
    case None => children + [item]
  }

  /** The first child carrying `id` is the one `IndexOfId` finds. */
  lemma {:induction false} IndexOfIdIs(children: seq<TestItem>, id: string, k: nat)
    requires k < |children| && children[k].id == id
    requires forall j | 0 <= j < k :: children[j].id != id
    ensures IndexOfId(children, id) == Some(k)
  {
    if k > 0 {
      IndexOfIdIs(children[1..], id, k - 1);
    }
  }

  /** One pass of the inner loop: file the scenario under `profile`, creating the profile's item if needed. */
  function AddScenario(children: seq<TestItem>, s: ScenarioLine, profile: string): (r: seq<TestItem>)
    ensures |children| <= |r| <= |children| + 1
    ensures forall k | 0 <= k < |children| :: r[k].id == children[k].id
  {
    var scenario := ScenarioItem(s, profile);
    match IndexOfId(children, ProfileId(s.fileId, profile))
    case Some(k) => children[k := children[k].(children := Upsert(children[k].children, scenario))]
    case None => children + [ProfileItem(s, profile)]
  }

  /** The item made for a profile that has none yet: labelled `@profile`, holding just the scenario. */
  function ProfileItem(s: ScenarioLine, profile: string): TestItem {
    TestItem(ProfileId(s.fileId, profile), "@" + profile, Some(s.uri), None, None, [ScenarioItem(s, profile)])
  }

  /** The inner loop over the matching profiles, in order. */
  function AddUnderProfiles(children: seq<TestItem>, s: ScenarioLine, profiles: seq<string>): (r: seq<TestItem>)
    ensures |children| <= |r| <= |children| + |profiles|
    ensures forall k | 0 <= k < |children| :: r[k].id == children[k].id
    decreases |profiles|
  {
    if profiles == [] then children
    else AddScenario(AddUnderProfiles(children, s, profiles[..|profiles| - 1]), s, profiles[|profiles| - 1])
  }

  /** `profiles.filter(profile => allTags.includes(profile))`. */
  function MatchingProfiles(profiles: seq<string>, tags: seq<string>): (r: seq<string>)
    ensures forall p :: p in r <==> p in profiles && p in tags
  {
    if profiles == [] then []
    else (if profiles[0] in tags then [profiles[0]] else []) + MatchingProfiles(profiles[1..], tags)
  }

  // ----- the fold -----

  /** What the loop's body recognises on a line, once trimmed. */
  datatype LineKind =
    | TagsLine(tags: seq<string>)
    | FeatureTitle(name: string, length: nat)
    | ScenarioTitle(name: string, length: nat)
    | OtherLine

  /**
   * The loop body's tests, in its order, on the trimmed line. A `Feature:`
   * line met once the feature exists changes nothing, since the `Scenario:`
   * test that follows fails on it.
   */
  function Classify(raw: string): (k: LineKind)
    ensures k.TagsLine? <==> StartsWith(Trim(raw), "@")
    ensures (k.FeatureTitle? || k.ScenarioTitle?) ==> k.length == |Trim(raw)|
  {
    ClassifyTrimmed(Trim(raw))
  }

  function ClassifyTrimmed(line: string): LineKind {
    if StartsWith(line, "@") then TagsLine(TagsOf(line))
    else if FeatureName(line).Some? then FeatureTitle(FeatureName(line).value, |line|)
    else if ScenarioName(line).Some? then ScenarioTitle(ScenarioName(line).value, |line|)
    else OtherLine
  }

  function Classified(lines: seq<string>): (kinds: seq<LineKind>)
    ensures |kinds| == |lines|
  {
    if lines == [] then [] else [Classify(lines[0])] + Classified(lines[1..])
  }

  /** Each line is classified on its own. */
  lemma {:induction false} ClassifiedAt(lines: seq<string>, k: nat)
    requires k < |lines|
    ensures Classified(lines)[k] == Classify(lines[k])
  {
    if k > 0 {
      ClassifiedAt(lines[1..], k - 1);
    }
  }

  /** The loop's variables: the feature's tags, the tags pending for the next scenario, the feature item. */
  datatype ParseState = ParseState(featureTags: seq<string>, currentTags: seq<string>, feature: Option<TestItem>)

  const Start := ParseState([], [], None)

  /** One iteration of the loop over the lines, the `i`th line being of kind `kind`. */
  function Step(st: ParseState, kind: LineKind, i: nat, uri: string, fileId: string, profiles: seq<string>): ParseState {
    match kind
    case TagsLine(tags) => st.(currentTags := st.currentTags + tags)
    case FeatureTitle(name, length) =>
      if st.feature.None? then ParseState(st.currentTags, [], Some(FeatureItem(fileId, uri, i, length, name)))
      else st
    case ScenarioTitle(name, length) =>
      if st.feature.Some? then
        var allTags := Workspaces.Dedup(st.featureTags + st.currentTags);
        var s := ScenarioLine(fileId, uri, i, length, name);
        var f := st.feature.value;
        ParseState(st.featureTags, [], Some(f.(children := AddUnderProfiles(f.children, s, MatchingProfiles(profiles, allTags)))))
      else st
    case OtherLine => st
  }

  /** The state after the first `n` lines. */
  function ParseUpTo(kinds: seq<LineKind>, n: nat, uri: string, fileId: string, profiles: seq<string>): ParseState
    requires n <= |kinds|
  {
    if n == 0 then Start
    else Step(ParseUpTo(kinds, n - 1, uri, fileId, profiles), kinds[n - 1], n - 1, uri, fileId, profiles)
  }

  /** The item a feature file contributes, if it has a `Feature:` line. */
  function ParsedFeature(text: string, uri: string, fileId: string, profiles: seq<string>): Option<TestItem> {
    var kinds := Classified(Lines(text));
    ParseUpTo(kinds, |kinds|, uri, fileId, profiles).feature
  }

  // ----- properties -----

  lemma {:induction false} SplitWhereOfPlain(w: string, isSep: char -> bool)
    requires forall m | 0 <= m < |w| :: !isSep(w[m])
    ensures SplitWhere(w, isSep) == [w]
  {
    if w != [] {
      SplitWhereOfPlain(w[1..], isSep);
      assert [w[0]] + w[1..] == w;
    }
  }

  lemma {:induction false} SplitWhereAtSeparator(a: string, c: char, b: string, isSep: char -> bool)
    requires isSep(c)
    ensures SplitWhere(a + [c] + b, isSep) == SplitWhere(a, isSep) + SplitWhere(b, isSep)
  {
    var s := a + [c] + b;
    if a == [] {
      assert s[0] == c && s[1..] == b;
    } else {
      assert s[0] == a[0] && s[1..] == a[1..] + [c] + b;
      SplitWhereAtSeparator(a[1..], c, b, isSep);
      var left := SplitWhere(a[1..], isSep);
      var rest := SplitWhere(s[1..], isSep);
      assert rest == left + SplitWhere(b, isSep);
      if !isSep(a[0]) {
        assert rest[0] == left[0];
        assert rest[1..] == left[1..] + SplitWhere(b, isSep);
      }
    }
  }

  lemma {:induction false} TagsInAppend(xs: seq<string>, ys: seq<string>)
    ensures TagsIn(xs + ys) == TagsIn(xs) + TagsIn(ys)
  {
    if xs == [] {
      assert xs + ys == ys;
    } else {
      TagsInAppend(xs[1..], ys);
      var h := if StartsWith(xs[0], "@") then [xs[0][1..]] else [];
      assert (xs + ys)[0] == xs[0];
      assert (xs + ys)[1..] == xs[1..] + ys;
      assert TagsIn(xs + ys) == h + TagsIn(xs[1..] + ys);
      assert TagsIn(xs) == h + TagsIn(xs[1..]);
      AppendAssoc(h, TagsIn(xs[1..]), TagsIn(ys));
    }
  }

  /** A tag line reads back as the tags it was written from. */
  lemma {:induction false} TagLineRoundTrip(tags: seq<string>)
    requires forall k | 0 <= k < |tags| :: NoSpaces(tags[k])
    ensures TagsOf(TagLine(tags)) == tags
  {
    if tags == [] {
      assert SplitWhere("", IsSpace) == [""];
      assert TagsIn([""]) == [] + TagsIn([]);
    } else if |tags| == 1 {
      var head := "@" + tags[0];
      SplitWhereOfPlain(head, IsSpace);
      assert StartsWith(head, "@") && head[1..] == tags[0];
      assert TagsIn([head]) == [head[1..]] + TagsIn([]);
    } else {
      var head := "@" + tags[0];
      SplitWhereOfPlain(head, IsSpace);
      assert TagLine(tags) == head + [' '] + TagLine(tags[1..]);
      SplitWhereAtSeparator(head, ' ', TagLine(tags[1..]), IsSpace);
      TagsInAppend([head], SplitWhere(TagLine(tags[1..]), IsSpace));
      assert head[1..] == tags[0];
      TagLineRoundTrip(tags[1..]);
    }
  }

  lemma {:induction false} TagLineIsTrimmed(tags: seq<string>)
    requires tags != []
    requires forall k | 0 <= k < |tags| :: NoSpaces(tags[k])
    ensures |TagLine(tags)| > 0 && TagLine(tags)[0] == '@' && IsTrimmed(TagLine(tags))
  {
    if |tags| > 1 {
      TagLineIsTrimmed(tags[1..]);
      var rest := TagLine(tags[1..]);
      assert TagLine(tags) == "@" + tags[0] + " " + rest;
      assert TagLine(tags)[|TagLine(tags)| - 1] == rest[|rest| - 1];
    } else {
      var t := tags[0];
      assert TagLine(tags) == "@" + t;
      if t != [] {
        assert TagLine(tags)[|TagLine(tags)| - 1] == t[|t| - 1];
      }
    }
  }

  /** A line of tags is read as exactly those tags. */
  lemma TagLineIsClassifiedAsTags(tags: seq<string>)
    requires tags != []
    requires forall k | 0 <= k < |tags| :: NoSpaces(tags[k])
    ensures Classify(TagLine(tags)) == TagsLine(tags)
  {
    var line := TagLine(tags);
    TagLineIsTrimmed(tags);
    TrimmedTagsLine(line);
    TagLineRoundTrip(tags);
  }

  lemma TrimmedTagsLine(line: string)
    requires |line| > 0 && line[0] == '@' && IsTrimmed(line)
    ensures Classify(line) == TagsLine(TagsOf(line))
  {
    TrimOfTrimmed(line);
    assert StartsWith(line, "@") by { assert line[..1] == [line[0]]; }
  }

  /** A label, some spaces and a name without line terminators: the name is what the pattern captures. */
  lemma LabelledNameRoundTrip(prefix: string, gap: string, name: string)
    requires forall m | 0 <= m < |gap| :: IsSpace(gap[m])
    requires name != [] && !IsSpace(name[0])
    requires forall m | 0 <= m < |name| :: IsPlainChar(name[m])
    ensures LabelledName(prefix + gap + name, prefix) == Some(name)
  {
    var line := prefix + gap + name;
    var k := |prefix| + |gap|;
    assert line[..|prefix|] == prefix;
    assert line[k..] == name;
    assert line[k] == name[0];
    forall m | |prefix| <= m < k
      ensures IsSpace(line[m])
    {
      assert line[m] == gap[m - |prefix|];
    }
    SpacesEndStopsAt(line, |prefix|, k);
    forall m | k <= m < |line|
      ensures IsPlainChar(line[m])
    {
      assert line[m] == name[m - k];
    }
    SkipWhileStopsAt(line, k, IsPlainChar, |line|);
    assert StartsWith(line, prefix);
    assert line[k..|line|] == name;
  }

  /** A `Feature:` line with one space before a plain name is read as that name. */
  lemma FeatureLineRoundTrip(name: string)
    requires name != [] && IsTrimmed(name)
    requires forall m | 0 <= m < |name| :: IsPlainChar(name[m])
    ensures Classify("Feature: " + name) == FeatureTitle(name, 9 + |name|)
  {
    FeatureLineOf("Feature: " + name, name);
  }

  lemma FeatureLineOf(line: string, name: string)
    requires line == "Feature: " + name
    requires name != [] && IsTrimmed(name)
    requires forall m | 0 <= m < |name| :: IsPlainChar(name[m])
    ensures Classify(line) == FeatureTitle(name, 9 + |name|)
  {
    assert Trim(line) == line by {
      assert line[|line| - 1] == name[|name| - 1];
      TrimOfTrimmed(line);
    }
    assert FeatureName(line) == Some(name) by {
      assert line == "Feature:" + " " + name;
      LabelledNameRoundTrip("Feature:", " ", name);
    }
    assert !StartsWith(line, "@") by {
      assert line[0] == 'F';
    }
  }

  /** A `Scenario:` line with one space before a plain name is read as that name. */
  lemma ScenarioLineRoundTrip(name: string)
    requires name != [] && IsTrimmed(name)
    requires forall m | 0 <= m < |name| :: IsPlainChar(name[m])
    ensures Classify("Scenario: " + name) == ScenarioTitle(name, 10 + |name|)
  {
    ScenarioLineOf("Scenario: " + name, name);
  }

  lemma ScenarioLineOf(line: string, name: string)
    requires line == "Scenario: " + name
    requires name != [] && IsTrimmed(name)
    requires forall m | 0 <= m < |name| :: IsPlainChar(name[m])
    ensures Classify(line) == ScenarioTitle(name, 10 + |name|)
  {
    assert Trim(line) == line by {
      assert line[|line| - 1] == name[|name| - 1];
      TrimOfTrimmed(line);
    }
    assert ScenarioName(line) == Some(name) by {
      assert line == "Scenario:" + " " + name;
      LabelledNameRoundTrip("Scenario:", " ", name);
    }
    assert !StartsWith(line, "@") && !StartsWith(line, "Feature:") by {
      assert line[0] == 'S';
    }
  }

  /** The index of the first of the first `n` elements satisfying `p`. */
  function FirstWhere<T>(xs: seq<T>, n: nat, p: T -> bool): (k: Option<nat>)
    requires n <= |xs|
    ensures k.Some? ==> k.value < n && p(xs[k.value])
  {
    if n == 0 then None
    else
      var k := FirstWhere(xs, n - 1, p);
      if k.Some? then k else if p(xs[n - 1]) then Some(n - 1) else None
  }

  /** `FirstWhere` finds an element exactly when there is one, and no earlier element satisfies `p`. */
  lemma {:induction false} FirstWhereIsFirst<T>(xs: seq<T>, n: nat, p: T -> bool)
    requires n <= |xs|
    ensures FirstWhere(xs, n, p).None? <==> forall j | 0 <= j < n :: !p(xs[j])
    ensures FirstWhere(xs, n, p).Some? ==> forall j | 0 <= j < FirstWhere(xs, n, p).value :: !p(xs[j])
  {
    if n > 0 {
      FirstWhereIsFirst(xs, n - 1, p);
    }
  }

  predicate IsFeatureTitle(kind: LineKind) { kind.FeatureTitle? }

  /**
   * The file's item exists exactly when some line is a `Feature:` line; it is
   * then made from the first such line: its id is the file id, its label the
   * line's name, its range that line. Later `Feature:` lines are ignored.
   */
  lemma {:induction false} FirstFeatureLineWins(kinds: seq<LineKind>, n: nat, uri: string, fileId: string, profiles: seq<string>)
    requires n <= |kinds|
    ensures var f := ParseUpTo(kinds, n, uri, fileId, profiles).feature;
      var k := FirstWhere(kinds, n, IsFeatureTitle);
      && f.Some? == k.Some?
      && (f.Some? ==>
            f.value.(children := []) == FeatureItem(fileId, uri, k.value, kinds[k.value].length, kinds[k.value].name))
  {
    if n > 0 {
      FirstFeatureLineWins(kinds, n - 1, uri, fileId, profiles);
    }
  }

  /** Lines before the `Feature:` line, scenarios included, only collect tags. */
  lemma {:induction false} NothingBeforeTheFeature(kinds: seq<LineKind>, n: nat, uri: string, fileId: string, profiles: seq<string>)
    requires n <= |kinds|
    requires forall j | 0 <= j < n :: !kinds[j].FeatureTitle?
    ensures ParseUpTo(kinds, n, uri, fileId, profiles) == ParseState([], PendingTags(kinds[..n]), None)
  {
    if n > 0 {
      NothingBeforeTheFeature(kinds, n - 1, uri, fileId, profiles);
      assert kinds[..n] == kinds[..n - 1] + [kinds[n - 1]];
      PendingTagsAppend(kinds[..n - 1], kinds[n - 1]);
    }
  }

  /** The tags of the tag lines among `kinds`, in order. */
  function PendingTags(kinds: seq<LineKind>): seq<string> {
    if kinds == [] then []
    else PendingTags(kinds[..|kinds| - 1]) + (if kinds[|kinds| - 1].TagsLine? then kinds[|kinds| - 1].tags else [])
  }

  lemma PendingTagsAppend(kinds: seq<LineKind>, kind: LineKind)
    ensures PendingTags(kinds + [kind]) == PendingTags(kinds) + (if kind.TagsLine? then kind.tags else [])
  {
    assert (kinds + [kind])[..|kinds|] == kinds;
  }

  /**
   * A `Scenario:` line inside the feature files the scenario under every
   * configured profile that is among the feature's tags and the pending tags,
   * and clears the pending tags.
   */
  lemma ScenarioLineFilesUnderMatchingProfiles(st: ParseState, name: string, length: nat, i: nat,
                                                uri: string, fileId: string, profiles: seq<string>)
    requires st.feature.Some?
    ensures var next := Step(st, ScenarioTitle(name, length), i, uri, fileId, profiles);
      && next.currentTags == [] && next.featureTags == st.featureTags && next.feature.Some?
      && forall p | p in profiles && (p in st.featureTags || p in st.currentTags) ::
           FiledUnder(next.feature.value.children, ScenarioLine(fileId, uri, i, length, name), p)
  {
    var allTags := Workspaces.Dedup(st.featureTags + st.currentTags);
    var matching := MatchingProfiles(profiles, allTags);
    FiledUnderEveryMatchingProfile(st.feature.value.children, ScenarioLine(fileId, uri, i, length, name), matching);
  }

  /**
   * ... and nowhere else: the feature item itself is unchanged, the items of
   * profiles that do not match stay as they were, the items created are those
   * of the matching profiles that had none, in configuration order, and with
   * no matching profile the scenario is recorded nowhere.
   */
  lemma ScenarioLineFilesOnlyUnderMatchingProfiles(st: ParseState, name: string, length: nat, i: nat,
                                                    uri: string, fileId: string, profiles: seq<string>)
    requires st.feature.Some?
    ensures var next := Step(st, ScenarioTitle(name, length), i, uri, fileId, profiles);
      var matching := MatchingProfiles(profiles, Workspaces.Dedup(st.featureTags + st.currentTags));
      var s := ScenarioLine(fileId, uri, i, length, name);
      var before := st.feature.value.children;
      var after := next.feature.value.children;
      && next.feature.Some?
      && next.feature.value.(children := []) == st.feature.value.(children := [])
      && (matching == [] ==> next.feature == st.feature)
      && |before| <= |after|
      && (forall k | 0 <= k < |before| :: after[k].id == before[k].id)
      && (forall p, k | p in profiles && p !in matching && 0 <= k < |before| && before[k].id == ProfileId(fileId, p) ::
            after[k] == before[k])
      && after[|before|..] == ProfileItems(s, Workspaces.Dedup(NewProfiles(before, fileId, matching)))
      && (forall p | p in NewProfiles(before, fileId, matching) :: p in profiles && p in st.featureTags + st.currentTags)
  {
    var matching := MatchingProfiles(profiles, Workspaces.Dedup(st.featureTags + st.currentTags));
    var s := ScenarioLine(fileId, uri, i, length, name);
    var before := st.feature.value.children;
    AddUnderProfilesShape(before, s, matching);
    NewProfilesAreAmong(before, fileId, matching);
    var after := AddUnderProfiles(before, s, matching);
    forall p, k | p in profiles && p !in matching && 0 <= k < |before| && before[k].id == ProfileId(fileId, p)
      ensures after[k] == before[k]
    {
      forall q | q in matching
        ensures before[k].id != ProfileId(fileId, q)
      {
        ProfileIdsDiffer(fileId, p, q);
      }
    }
    if matching == [] {
      assert NewProfiles(before, fileId, matching) == [];
      assert after == after[..|before|] + after[|before|..];
      assert after[..|before|] == before;
    }
  }

  /**
   * ... an item that a matching profile already had keeps its place and
   * every field, and only gets the scenario `add`ed to its children ...
   */
  lemma ScenarioLineUpdatesExistingProfiles(st: ParseState, name: string, length: nat, i: nat,
                                             uri: string, fileId: string, profiles: seq<string>)
    requires st.feature.Some?
    ensures var next := Step(st, ScenarioTitle(name, length), i, uri, fileId, profiles);
      var matching := MatchingProfiles(profiles, Workspaces.Dedup(st.featureTags + st.currentTags));
      var s := ScenarioLine(fileId, uri, i, length, name);
      var before := st.feature.value.children;
      && next.feature.Some?
      && |before| <= |next.feature.value.children|
      && forall p | p in matching && IndexOfId(before, ProfileId(fileId, p)).Some? ::
           var k := IndexOfId(before, ProfileId(fileId, p)).value;
           next.feature.value.children[k] == before[k].(children := Upsert(before[k].children, ScenarioItem(s, p)))
  {
    var matching := MatchingProfiles(profiles, Workspaces.Dedup(st.featureTags + st.currentTags));
    AddUnderProfilesUpdates(st.feature.value.children, ScenarioLine(fileId, uri, i, length, name), matching);
  }

  /** ... so a scenario of another line filed under a profile stays filed under it. */
  lemma ScenarioLineKeepsEarlierScenarios(st: ParseState, name: string, length: nat, i: nat,
                                          uri: string, fileId: string, profiles: seq<string>, s0: ScenarioLine, p: string)
    requires st.feature.Some? && s0.fileId == fileId && s0.line != i && FiledUnder(st.feature.value.children, s0, p)
    ensures var next := Step(st, ScenarioTitle(name, length), i, uri, fileId, profiles);
      next.feature.Some? && FiledUnder(next.feature.value.children, s0, p)
  {
    var matching := MatchingProfiles(profiles, Workspaces.Dedup(st.featureTags + st.currentTags));
    AddUnderProfilesKeepsFiled(st.feature.value.children, s0, ScenarioLine(fileId, uri, i, length, name), matching, p);
  }

  /** `ProfileItem` for each profile, in order. */
  function ProfileItems(s: ScenarioLine, ps: seq<string>): (r: seq<TestItem>)
    ensures |r| == |ps| && forall j | 0 <= j < |ps| :: r[j] == ProfileItem(s, ps[j])
  {
    seq(|ps|, j requires 0 <= j < |ps| => ProfileItem(s, ps[j]))
  }

  /** The profiles among `ps` that have no item among `children`, in order. */
  function NewProfiles(children: seq<TestItem>, fileId: string, ps: seq<string>): seq<string> {
    if ps == [] then []
    else NewProfiles(children, fileId, ps[..|ps| - 1])
         + (if IndexOfId(children, ProfileId(fileId, ps[|ps| - 1])).None? then [ps[|ps| - 1]] else [])
  }

  lemma {:induction false} NewProfilesAreAmong(children: seq<TestItem>, fileId: string, ps: seq<string>)
    ensures forall p | p in NewProfiles(children, fileId, ps) :: p in ps && IndexOfId(children, ProfileId(fileId, p)).None?
  {
    if ps != [] {
      NewProfilesAreAmong(children, fileId, ps[..|ps| - 1]);
    }
  }

  /**
   * What the inner loop over `ps` makes of `children`: the existing children
   * keep their ids, only the items of profiles in `ps` change, and one new
   * profile item is appended per profile without one, in the order of `ps`,
   * each profile once.
   */
  ghost predicate Shaped(children: seq<TestItem>, s: ScenarioLine, ps: seq<string>, r: seq<TestItem>) {
    && |children| <= |r|
    && (forall k | 0 <= k < |children| :: r[k].id == children[k].id)
    && (forall k | 0 <= k < |children| && (forall p | p in ps :: children[k].id != ProfileId(s.fileId, p)) ::
          r[k] == children[k])
    && r[|children|..] == ProfileItems(s, Workspaces.Dedup(NewProfiles(children, s.fileId, ps)))
  }

  lemma {:induction false} AddUnderProfilesShape(children: seq<TestItem>, s: ScenarioLine, ps: seq<string>)
    ensures Shaped(children, s, ps, AddUnderProfiles(children, s, ps))
    decreases |ps|
  {
    if ps == [] {
      assert AddUnderProfiles(children, s, ps)[|children|..] == [];
    } else {
      var init := ps[..|ps| - 1];
      var last := ps[|ps| - 1];
      AddUnderProfilesShape(children, s, init);
      assert ps == init + [last];
      AddScenarioKeepsShape(children, s, init, last, AddUnderProfiles(children, s, init));
    }
  }

  lemma AddScenarioKeepsShape(children: seq<TestItem>, s: ScenarioLine, init: seq<string>, last: string, before: seq<TestItem>)
    requires Shaped(children, s, init, before)
    ensures Shaped(children, s, init + [last], AddScenario(before, s, last))
  {
    var ps := init + [last];
    assert ps[..|init|] == init;
    var id := ProfileId(s.fileId, last);
    if IndexOfId(children, id).Some? {
      AddToExistingProfile(children, s, init, last, before);
    } else if last in NewProfiles(children, s.fileId, init) {
      AddToNewProfileAgain(children, s, init, last, before);
    } else {
      AddToFreshProfile(children, s, init, last, before);
    }
  }

  /** A profile that already had an item: that item is updated in place, nothing is appended. */
  lemma AddToExistingProfile(children: seq<TestItem>, s: ScenarioLine, init: seq<string>, last: string, before: seq<TestItem>)
    requires Shaped(children, s, init, before)
    requires IndexOfId(children, ProfileId(s.fileId, last)).Some?
    ensures Shaped(children, s, init + [last], AddScenario(before, s, last))
  {
    var ps := init + [last];
    assert ps[..|init|] == init;
    var n := |children|;
    var id := ProfileId(s.fileId, last);
    var k := IndexOfId(children, id).value;
    assert NewProfiles(children, s.fileId, ps) == NewProfiles(children, s.fileId, init);
    IndexOfIdIs(before, id, k);
    var r := AddScenario(before, s, last);
    assert r == before[k := before[k].(children := Upsert(before[k].children, ScenarioItem(s, last)))];
    assert r[n..] == before[n..];
    assert last in ps;
    forall p | p in init ensures p in ps { }
  }

  /** A profile met again in the same loop: its new item already holds the scenario, nothing changes. */
  lemma AddToNewProfileAgain(children: seq<TestItem>, s: ScenarioLine, init: seq<string>, last: string, before: seq<TestItem>)
    requires Shaped(children, s, init, before)
    requires IndexOfId(children, ProfileId(s.fileId, last)).None?
    requires last in NewProfiles(children, s.fileId, init)
    ensures Shaped(children, s, init + [last], AddScenario(before, s, last))
  {
    NewProfileAgainHasItem(children, s, init, last, before);
    SameNewProfilesAgain(children, s.fileId, init, last);
    ShapedUnderRepeat(children, s, init, last, before);
  }

  /** The item made for a profile already met holds the scenario, so adding it again changes nothing. */
  lemma NewProfileAgainHasItem(children: seq<TestItem>, s: ScenarioLine, init: seq<string>, last: string, before: seq<TestItem>)
    requires Shaped(children, s, init, before)
    requires IndexOfId(children, ProfileId(s.fileId, last)).None?
    requires last in NewProfiles(children, s.fileId, init)
    ensures AddScenario(before, s, last) == before
  {
    var n := |children|;
    var id := ProfileId(s.fileId, last);
    var d := Workspaces.Dedup(NewProfiles(children, s.fileId, init));
    var j :| 0 <= j < |d| && d[j] == last;
    assert before[n + j] == before[n..][j];
    forall m | 0 <= m < n + j
      ensures before[m].id != id
    {
      if m >= n {
        assert before[m] == before[n..][m - n];
        ProfileIdsDiffer(s.fileId, d[m - n], last);
      }
    }
    IndexOfIdIs(before, id, n + j);
    assert Upsert([ScenarioItem(s, last)], ScenarioItem(s, last)) == [ScenarioItem(s, last)];
  }

  /** Meeting a new profile a second time adds nothing to the deduplicated new profiles. */
  lemma SameNewProfilesAgain(children: seq<TestItem>, fileId: string, init: seq<string>, last: string)
    requires IndexOfId(children, ProfileId(fileId, last)).None?
    requires last in NewProfiles(children, fileId, init)
    ensures Workspaces.Dedup(NewProfiles(children, fileId, init + [last])) == Workspaces.Dedup(NewProfiles(children, fileId, init))
  {
    var ps := init + [last];
    assert ps[..|init|] == init;
    var newInit := NewProfiles(children, fileId, init);
    var newAll := NewProfiles(children, fileId, ps);
    assert newAll == newInit + [last];
    assert newAll[..|newAll| - 1] == newInit;
  }

  /** A shape that holds for `init` holds for `init + [last]` when `last` brings no new profile item. */
  lemma ShapedUnderRepeat(children: seq<TestItem>, s: ScenarioLine, init: seq<string>, last: string, r: seq<TestItem>)
    requires Shaped(children, s, init, r)
    requires Workspaces.Dedup(NewProfiles(children, s.fileId, init + [last])) == Workspaces.Dedup(NewProfiles(children, s.fileId, init))
    ensures Shaped(children, s, init + [last], r)
  {
    var ps := init + [last];
    forall p | p in init ensures p in ps { }
  }

  /** A profile with no item yet: its item is appended. */
  lemma AddToFreshProfile(children: seq<TestItem>, s: ScenarioLine, init: seq<string>, last: string, before: seq<TestItem>)
    requires Shaped(children, s, init, before)
    requires IndexOfId(children, ProfileId(s.fileId, last)).None?
    requires last !in NewProfiles(children, s.fileId, init)
    ensures Shaped(children, s, init + [last], AddScenario(before, s, last))
  {
    var ps := init + [last];
    assert ps[..|init|] == init;
    var n := |children|;
    var id := ProfileId(s.fileId, last);
    var newInit := NewProfiles(children, s.fileId, init);
    var d := Workspaces.Dedup(newInit);
    var newAll := NewProfiles(children, s.fileId, ps);
    assert newAll == newInit + [last];
    assert newAll[..|newAll| - 1] == newInit;
    assert Workspaces.Dedup(newAll) == d + [last];
    forall m | 0 <= m < |before|
      ensures before[m].id != id
    {
      if m >= n {
        assert before[m] == before[n..][m - n];
        ProfileIdsDiffer(s.fileId, d[m - n], last);
      }
    }
    var r := AddScenario(before, s, last);
    assert r == before + [ProfileItem(s, last)];
    assert r[n..] == before[n..] + [ProfileItem(s, last)];
    forall p | p in init ensures p in ps { }
  }

  lemma ProfileIdsDiffer(fileId: string, p: string, q: string)
    requires p != q
    ensures ProfileId(fileId, p) != ProfileId(fileId, q)
  {
    var prefix := fileId + ":profile:";
    assert ProfileId(fileId, p) == prefix + p && ProfileId(fileId, q) == prefix + q;
    assert (prefix + p)[|prefix|..] == p && (prefix + q)[|prefix|..] == q;
  }

  /** The scenario sits under the item of `profile`, which is that profile's first child with its id. */
  ghost predicate FiledUnder(children: seq<TestItem>, s: ScenarioLine, profile: string) {
    var k := IndexOfId(children, ProfileId(s.fileId, profile));
    k.Some? && ScenarioItem(s, profile) in children[k.value].children
  }

  /** Filing a scenario of the same file under another profile leaves a filing under `p` in place. */
  lemma AddScenarioKeepsOtherProfiles(children: seq<TestItem>, s0: ScenarioLine, s: ScenarioLine, p: string, q: string)
    requires p != q && s0.fileId == s.fileId && FiledUnder(children, s0, p)
    ensures FiledUnder(AddScenario(children, s, q), s0, p)
  {
    ProfileIdsDiffer(s.fileId, p, q);
    var r := AddScenario(children, s, q);
    var k := IndexOfId(children, ProfileId(s.fileId, p)).value;
    assert r[k] == children[k];
    IndexOfIdIs(r, ProfileId(s.fileId, p), k);
  }

  /** Filing the scenario of another line under `p` keeps what was filed under `p` before. */
  lemma AddScenarioKeepsEarlierScenarios(children: seq<TestItem>, s0: ScenarioLine, s: ScenarioLine, p: string)
    requires s0.fileId == s.fileId && s0.line != s.line && FiledUnder(children, s0, p)
    ensures FiledUnder(AddScenario(children, s, p), s0, p)
  {
    var id := ProfileId(s.fileId, p);
    var k := IndexOfId(children, id).value;
    var r := AddScenario(children, s, p);
    ScenarioIdsDiffer(s.fileId, p, s0.line, s.line);
    UpsertKeepsOthers(children[k].children, ScenarioItem(s, p), ScenarioItem(s0, p));
    assert r == children[k := children[k].(children := Upsert(children[k].children, ScenarioItem(s, p)))];
    IndexOfIdIs(r, id, k);
  }

  /** The whole inner loop keeps a scenario of another line filed under `p`, whichever profiles it visits. */
  lemma {:induction false} AddUnderProfilesKeepsFiled(children: seq<TestItem>, s0: ScenarioLine, s: ScenarioLine,
                                                      ps: seq<string>, p: string)
    requires s0.fileId == s.fileId && s0.line != s.line && FiledUnder(children, s0, p)
    ensures FiledUnder(AddUnderProfiles(children, s, ps), s0, p)
    decreases |ps|
  {
    if ps != [] {
      var init := ps[..|ps| - 1];
      var last := ps[|ps| - 1];
      AddUnderProfilesKeepsFiled(children, s0, s, init, p);
      var before := AddUnderProfiles(children, s, init);
      if last == p {
        AddScenarioKeepsEarlierScenarios(before, s0, s, p);
      } else {
        AddScenarioKeepsOtherProfiles(before, s0, s, p, last);
      }
    }
  }

  /** Distinct line indexes are written as distinct decimal strings. */
  lemma {:induction false} DecimalStringInjective(n: nat, m: nat)
    requires DecimalString(n) == DecimalString(m)
    ensures n == m
    decreases n
  {
    var a, b := DecimalString(n), DecimalString(m);
    if n >= 10 && m >= 10 {
      assert a[..|a| - 1] == DecimalString(n / 10);
      assert b[..|b| - 1] == DecimalString(m / 10);
      DecimalStringInjective(n / 10, m / 10);
      assert DigitChar(n % 10) == a[|a| - 1] == DigitChar(m % 10);
    }
  }

  /** Scenario ids of one file and profile name their line. */
  lemma ScenarioIdDeterminesLine(fileId: string, profile: string, l1: nat, l2: nat)
    requires ScenarioId(fileId, profile, l1) == ScenarioId(fileId, profile, l2)
    ensures l1 == l2
  {
    var prefix := fileId + ":" + profile + ":";
    assert ScenarioId(fileId, profile, l1) == prefix + DecimalString(l1);
    assert ScenarioId(fileId, profile, l2) == prefix + DecimalString(l2);
    assert (prefix + DecimalString(l1))[|prefix|..] == DecimalString(l1);
    assert (prefix + DecimalString(l2))[|prefix|..] == DecimalString(l2);
    DecimalStringInjective(l1, l2);
  }

  lemma ScenarioIdsDiffer(fileId: string, profile: string, l1: nat, l2: nat)
    requires l1 != l2
    ensures ScenarioId(fileId, profile, l1) != ScenarioId(fileId, profile, l2)
  {
    if ScenarioId(fileId, profile, l1) == ScenarioId(fileId, profile, l2) {
      ScenarioIdDeterminesLine(fileId, profile, l1, l2);
    }
  }

  /** `add` with a new id keeps every child that has another id. */
  lemma UpsertKeepsOthers(children: seq<TestItem>, item: TestItem, x: TestItem)
    requires x in children && x.id != item.id
    ensures x in Upsert(children, item)
  {
    var j :| 0 <= j < |children| && children[j] == x;
    assert Upsert(children, item)[j] == x;
  }

  /** `add` of the same item twice is `add` once. */
  lemma UpsertTwice(children: seq<TestItem>, item: TestItem)
    ensures Upsert(Upsert(children, item), item) == Upsert(children, item)
  {
    var r := Upsert(children, item);
    match IndexOfId(children, item.id)
    case Some(k) => IndexOfIdIs(r, item.id, k);
    case None => IndexOfIdIs(r, item.id, |children|);
  }

  /**
   * The item an existing matching profile already had is the one updated:
   * it keeps every field, and its children get the scenario `add`ed.
   */
  ghost predicate UpdatedInPlace(children: seq<TestItem>, s: ScenarioLine, ps: seq<string>, r: seq<TestItem>) {
    && |children| <= |r|
    && forall p | p in ps && IndexOfId(children, ProfileId(s.fileId, p)).Some? ::
         var k := IndexOfId(children, ProfileId(s.fileId, p)).value;
         r[k] == children[k].(children := Upsert(children[k].children, ScenarioItem(s, p)))
  }

  lemma {:induction false} AddUnderProfilesUpdates(children: seq<TestItem>, s: ScenarioLine, ps: seq<string>)
    ensures UpdatedInPlace(children, s, ps, AddUnderProfiles(children, s, ps))
    decreases |ps|
  {
    if ps != [] {
      var init := ps[..|ps| - 1];
      var last := ps[|ps| - 1];
      AddUnderProfilesUpdates(children, s, init);
      AddUnderProfilesShape(children, s, init);
      assert ps == init + [last];
      AddScenarioUpdates(children, s, init, last, AddUnderProfiles(children, s, init));
    }
  }

  lemma AddScenarioUpdates(children: seq<TestItem>, s: ScenarioLine, init: seq<string>, last: string, before: seq<TestItem>)
    requires Shaped(children, s, init, before) && UpdatedInPlace(children, s, init, before)
    ensures UpdatedInPlace(children, s, init + [last], AddScenario(before, s, last))
  {
    var id := ProfileId(s.fileId, last);
    if IndexOfId(children, id).Some? {
      UpdateExistingProfile(children, s, init, last, before);
    } else {
      UpdateWithoutExistingProfile(children, s, init, last, before);
    }
  }

  /** `last` had an item among `children`: that item, at the same place, is the one updated. */
  lemma UpdateExistingProfile(children: seq<TestItem>, s: ScenarioLine, init: seq<string>, last: string, before: seq<TestItem>)
    requires Shaped(children, s, init, before) && UpdatedInPlace(children, s, init, before)
    requires IndexOfId(children, ProfileId(s.fileId, last)).Some?
    ensures UpdatedInPlace(children, s, init + [last], AddScenario(before, s, last))
  {
    var ps := init + [last];
    var id := ProfileId(s.fileId, last);
    var item := ScenarioItem(s, last);
    var k := IndexOfId(children, id).value;
    IndexOfIdIs(before, id, k);
    var r := AddScenario(before, s, last);
    assert r == before[k := before[k].(children := Upsert(before[k].children, item))];
    if last in init {
      UpsertTwice(children[k].children, item);
    } else {
      forall p | p in init
        ensures children[k].id != ProfileId(s.fileId, p)
      {
        ProfileIdsDiffer(s.fileId, last, p);
      }
    }
    assert r[k] == children[k].(children := Upsert(children[k].children, item));
    forall p | p in ps && IndexOfId(children, ProfileId(s.fileId, p)).Some?
      ensures var j := IndexOfId(children, ProfileId(s.fileId, p)).value;
              r[j] == children[j].(children := Upsert(children[j].children, ScenarioItem(s, p)))
    {
      if p != last {
        ProfileIdsDiffer(s.fileId, p, last);
        assert p in init;
      }
    }
  }

  /** `last` had no item among `children`: the existing items are left as they were. */
  lemma UpdateWithoutExistingProfile(children: seq<TestItem>, s: ScenarioLine, init: seq<string>, last: string, before: seq<TestItem>)
    requires Shaped(children, s, init, before) && UpdatedInPlace(children, s, init, before)
    requires IndexOfId(children, ProfileId(s.fileId, last)).None?
    ensures UpdatedInPlace(children, s, init + [last], AddScenario(before, s, last))
  {
    var ps := init + [last];
    var id := ProfileId(s.fileId, last);
    var n := |children|;
    var r := AddScenario(before, s, last);
    assert forall j | 0 <= j < n :: before[j].id != id;
    assert forall j | 0 <= j < n :: r[j] == before[j];
    forall p | p in ps && IndexOfId(children, ProfileId(s.fileId, p)).Some?
      ensures p in init
    {
    }
  }


  lemma AddScenarioFiles(children: seq<TestItem>, s: ScenarioLine, p: string)
    ensures FiledUnder(AddScenario(children, s, p), s, p)
  {
    var r := AddScenario(children, s, p);
    var id := ProfileId(s.fileId, p);
    match IndexOfId(children, id)
    case Some(k) =>
      IndexOfIdIs(r, id, k);
    case None =>
      IndexOfIdIs(r, id, |children|);
  }

  /** After the inner loop the scenario is filed under every matching profile. */
  lemma {:induction false} FiledUnderEveryMatchingProfile(children: seq<TestItem>, s: ScenarioLine, profiles: seq<string>)
    ensures forall p | p in profiles :: FiledUnder(AddUnderProfiles(children, s, profiles), s, p)
    decreases |profiles|
  {
    if profiles != [] {
      var init := profiles[..|profiles| - 1];
      var last := profiles[|profiles| - 1];
      FiledUnderEveryMatchingProfile(children, s, init);
      var before := AddUnderProfiles(children, s, init);
      AddScenarioFiles(before, s, last);
      forall p | p in profiles
        ensures FiledUnder(AddUnderProfiles(children, s, profiles), s, p)
      {
        if p != last {
          assert p in init by {
            var j :| 0 <= j < |profiles| && profiles[j] == p;
            assert init[j] == p;
          }
          AddScenarioKeepsOtherProfiles(before, s, s, p, last);
        }
      }
    }
  }
}
