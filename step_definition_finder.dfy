/**
 * src/services/stepDefinitionFinder.ts: grading a Gherkin step against the
 * patterns of `@given/@when/@then` decorators, picking the best decorator in a
 * file, searching the step files in order, and parsing a step line.
 */
module StepDefinitionFinder {
  import opened Wrappers
  import opened Text
  import opened Workspaces

  /**
   * The JavaScript RegExp engine applied to the pattern that matchesStepPattern
   * builds from a normalised step pattern (placeholders rewritten to groups,
   * anchored with `^`/`$`, flag `i`). Both answers are inputs of the model.
   */
  datatype RegexEngine = RegexEngine(
    /** Building `new RegExp('^' + built + '$', 'i')` from this normalised pattern does not throw. */
    compiles: string -> bool,
    /** That regular expression's `test` of the normalised step succeeds. */
    fullMatch: (string, string) -> bool)

  /* ---------------- Normalisation ---------------- */

  /** `pattern.replace(/^\^/, '').replace(/\$$/, '').trim()`, then one trailing `:` removed. */
  function NormalisePattern(pattern: string): (r: string)
    ensures |r| <= |pattern| && (r == [] || !IsSpace(r[0]))
  {
    var noCaret := if |pattern| > 0 && pattern[0] == '^' then pattern[1..] else pattern;
    DropLast(Trim(DropLast(noCaret, '$')), ':')
  }

  /** `stepText.trim()`, then one trailing `:` removed. */
  function NormaliseStep(step: string): (r: string)
    ensures |r| <= |step| && (r == [] || !IsSpace(r[0]))
  {
    DropLast(Trim(step), ':')
  }

  /* ---------------- hasParameters ---------------- */

  /**
   * A Cucumber placeholder: `{` at `i` closed by the first `}` after it, at `j`.
   * The twelve placeholder rewrites all match such a span (`{}`, `{int}`,
   * `\{word\}`, `{anything}`), and one of them fires whenever one exists.
   */
  predicate PlaceholderAt(p: string, i: int, j: int) {
    0 <= i < j < |p| && p[i] == '{' && p[j] == '}' && forall k | i < k < j :: p[k] != '}'
  }

  /** A match of `\(([^)]+)\)`: `(` at `i`, the first `)` after it at `j`, a non-empty body between. */
  predicate GroupAt(p: string, i: int, j: int) {
    0 <= i && i + 1 < j < |p| && p[i] == '(' && p[j] == ')' && forall k | i < k < j :: p[k] != ')'
  }

  /**
   * The flag `hasParameters` after the rewrites. The group scan runs on the
   * rewritten text, but that text differs from `p` only when a placeholder
   * rewrite fired, and then the flag is already set.
   */
  predicate HasParameters(p: string) {
    (exists i, j | 0 <= i < j < |p| :: PlaceholderAt(p, i, j))
    || (exists i, j | 0 <= i < j < |p| :: GroupAt(p, i, j))
  }

  /* ---------------- The score ---------------- */

  /**
   * `matchesStepPattern`: 3 for equality ignoring case, then 2 or 1 for a
   * regular-expression match without or with parameters, 0 for a regular
   * expression that does not match; a substring test in either direction
   * (score 1) only when the regular expression cannot be built.
   */
  function MatchesStepPattern(step: string, pattern: string, re: RegexEngine): (score: nat)
    ensures score <= 3
    ensures score == 3 <==> ToLower(NormalisePattern(pattern)) == ToLower(NormaliseStep(step))
    ensures score == 2 ==> re.compiles(NormalisePattern(pattern)) && !HasParameters(NormalisePattern(pattern))
    ensures var p := NormalisePattern(pattern); var s := NormaliseStep(step);
      ToLower(p) != ToLower(s) && re.compiles(p) ==>
        && (score == 0 <==> !re.fullMatch(p, s))
        && (score == 1 <==> re.fullMatch(p, s) && HasParameters(p))
        && (score == 2 <==> re.fullMatch(p, s) && !HasParameters(p))
    ensures var p := NormalisePattern(pattern); var s := NormaliseStep(step);
      ToLower(p) != ToLower(s) && !re.compiles(p) ==>
        && score <= 1
        && (score == 1 <==> Contains(ToLower(s), ToLower(p)) || Contains(ToLower(p), ToLower(s)))
  {
    var p := NormalisePattern(pattern);
    var s := NormaliseStep(step);
    if ToLower(p) == ToLower(s) then 3
    else if re.compiles(p) then
      if re.fullMatch(p, s) then (if HasParameters(p) then 1 else 2) else 0
    else if ToLower(p) == ToLower(s) || Contains(ToLower(s), ToLower(p)) || Contains(ToLower(p), ToLower(s)) then 1
    else 0
  }

  /** A step compared with itself as a pattern is an exact match, provided it carries no anchors. */
  lemma SelfMatchIsExact(s: string, re: RegexEngine)
    requires !StartsWith(s, "^") && !EndsWith(s, "$")
    ensures MatchesStepPattern(s, s, re) == 3
  {
    assert NormalisePattern(s) == NormaliseStep(s);
  }

  /** A trimmed text without anchors or a final colon is its own normal form, as a step and as a pattern. */
  lemma NormalFormOfPlainText(t: string)
    requires IsTrimmed(t) && !StartsWith(t, "^") && !EndsWith(t, "$") && !EndsWith(t, ":")
    ensures NormalisePattern(t) == t && NormaliseStep(t) == t
  {
    TrimOfTrimmed(t);
  }

  /**
   * An anchored step is not exact against itself: the leading `^` is stripped
   * from the pattern and kept in the step.
   */
  lemma AnchoredSelfMatchIsNotExact(t: string, re: RegexEngine)
    requires IsTrimmed(t) && !EndsWith(t, "$") && !EndsWith(t, ":")
    ensures MatchesStepPattern("^" + t, "^" + t, re) != 3
  {
    var a := "^" + t;
    assert a[0] == '^' && a[1..] == t;
    assert !IsSpace('^');
    assert IsTrimmed(a) by {
      if |t| > 0 { assert a[|a| - 1] == t[|t| - 1]; }
    }
    TrimOfTrimmed(a);
    TrimOfTrimmed(t);
    assert DropLast(a, ':') == a by {
      if |t| > 0 { assert a[|a| - 1] == t[|t| - 1]; assert t[|t| - 1..] == [t[|t| - 1]]; }
    }
    assert DropLast(t, '$') == t && DropLast(t, ':') == t by {
      if |t| > 0 { assert t[|t| - 1..] == [t[|t| - 1]]; }
    }
    assert |NormalisePattern(a)| != |NormaliseStep(a)|;
  }

  lemma ColonIsNotSpace()
    ensures !IsSpace(':')
  {
  }

  /** With a colon added, a plain text normalises back to itself. */
  lemma ColonNormalForm(t: string)
    requires IsTrimmed(t) && !StartsWith(t, "^") && !EndsWith(t, "$") && !EndsWith(t, ":")
    ensures NormalisePattern(t + ":") == t && NormaliseStep(t + ":") == t
  {
    var tc := t + ":";
    assert tc[..|t|] == t;
    ColonTextIsTrimmed(tc, t);
    ColonTextNormalForm(tc, t);
  }

  /** `t:` is trimmed and starts like `t`. */
  lemma ColonTextIsTrimmed(tc: string, t: string)
    requires |tc| == |t| + 1 && tc[..|t|] == t && tc[|t|] == ':'
    requires IsTrimmed(t) && !StartsWith(t, "^")
    ensures IsTrimmed(tc) && tc[0] != '^'
  {
    ColonIsNotSpace();
    if |t| > 0 {
      assert tc[0] == t[0];
      assert t[..1] == [t[0]];
    }
  }

  /** Both normalisations of a trimmed `t:` drop exactly the colon. */
  lemma ColonTextNormalForm(tc: string, t: string)
    requires |tc| == |t| + 1 && tc[..|t|] == t && tc[|t|] == ':'
    requires IsTrimmed(tc) && tc[0] != '^'
    ensures NormalisePattern(tc) == t && NormaliseStep(tc) == t
  {
    assert DropLast(tc, '$') == tc;
    TrimOfTrimmed(tc);
    assert DropLast(tc, ':') == t;
  }

  /** One trailing colon on either side does not affect the grade. */
  lemma TrailingColonIgnored(t: string, re: RegexEngine)
    requires IsTrimmed(t) && !StartsWith(t, "^") && !EndsWith(t, "$") && !EndsWith(t, ":")
    ensures MatchesStepPattern(t + ":", t, re) == 3
    ensures MatchesStepPattern(t, t + ":", re) == 3
  {
    NormalFormOfPlainText(t);
    ColonNormalForm(t);
  }

  /** Any `{` followed later by a `}` is a placeholder: the first `}` after it closes one. */
  lemma {:induction false} BracePairIsPlaceholder(p: string, i: int, j: int)
    requires 0 <= i < j < |p| && p[i] == '{' && p[j] == '}'
    ensures exists j' | i < j' <= j :: PlaceholderAt(p, i, j')
    decreases j
  {
    if exists k | i < k < j :: p[k] == '}' {
      var k :| i < k < j && p[k] == '}';
      BracePairIsPlaceholder(p, i, k);
    } else {
      assert PlaceholderAt(p, i, j);
    }
  }

  /** A `(` whose next character is not `)`, with a `)` later on, is a group. */
  lemma {:induction false} ParenPairIsGroup(p: string, i: int, j: int)
    requires 0 <= i && i + 1 < j < |p| && p[i] == '(' && p[i + 1] != ')' && p[j] == ')'
    ensures exists j' | i + 1 < j' <= j :: GroupAt(p, i, j')
    decreases j
  {
    if exists k | i < k < j :: p[k] == ')' {
      var k :| i < k < j && p[k] == ')';
      ParenPairIsGroup(p, i, k);
    } else {
      assert GroupAt(p, i, j);
    }
  }

  /**
   * A pattern with a `{…}` placeholder or a non-empty `(…)` group never grades 2:
   * a regular-expression match grades 1.
   */
  lemma ParameterisedMatchScoresOne(step: string, pattern: string, re: RegexEngine, i: int, j: int)
    requires var p := NormalisePattern(pattern);
      0 <= i < j < |p| &&
      ((p[i] == '{' && p[j] == '}') || (p[i] == '(' && i + 1 < j && p[i + 1] != ')' && p[j] == ')'))
    ensures HasParameters(NormalisePattern(pattern))
    ensures MatchesStepPattern(step, pattern, re) != 2
    ensures var p := NormalisePattern(pattern); var s := NormaliseStep(step);
      ToLower(p) != ToLower(s) && re.compiles(p) && re.fullMatch(p, s) ==> MatchesStepPattern(step, pattern, re) == 1
  {
    var p := NormalisePattern(pattern);
    if p[i] == '{' && p[j] == '}' {
      BracePairIsPlaceholder(p, i, j);
    } else {
      ParenPairIsGroup(p, i, j);
    }
  }

  /* ---------------- The defensive escape ---------------- */

  /** The class `[.+*?^$[\]{}|\\]` of the defensive escape (it does not contain the parentheses). */
  predicate IsPatternMeta(c: char) {
    c == '.' || c == '+' || c == '*' || c == '?' || c == '^' || c == '$' || c == '[' || c == ']'
    || c == '{' || c == '}' || c == '|' || c == '\\'
  }

  /** `replace(/[.+*?^$[\]{}|\\]/g, '\\$&')`. */
  function EscapePatternMeta(q: string): string
  {
    if q == [] then []
    else (if IsPatternMeta(q[0]) then ['\\', q[0]] else [q[0]]) + EscapePatternMeta(q[1..])
  }

  /** The escape step: applied only when `needsEscaping.test` finds no metacharacter. */
  function DefensiveEscape(q: string): string
  {
    if exists k | 0 <= k < |q| :: IsPatternMeta(q[k]) then q else EscapePatternMeta(q)
  }

  /** The defensive escape never changes the pattern it is given. */
  lemma {:induction false} DefensiveEscapeIsIdentity(q: string)
    ensures DefensiveEscape(q) == q
  {
    if !exists k | 0 <= k < |q| :: IsPatternMeta(q[k]) {
      EscapeWithoutMetaIsIdentity(q);
    }
  }

  lemma {:induction false} EscapeWithoutMetaIsIdentity(q: string)
    requires forall k | 0 <= k < |q| :: !IsPatternMeta(q[k])
    ensures EscapePatternMeta(q) == q
  {
    if q != [] {
      EscapeWithoutMetaIsIdentity(q[1..]);
    }
  }

  /* ---------------- Decorator scanning ---------------- */

  /** The two decorator regular expressions of searchInFile. */
  datatype PatternForm =
    | SlashRegex  // `@kw\s*\(\s*/([^/]+)/[gim]*`
    | Quoted      // `@kw\s*\(\s*(['"])([^'"]+)\1`

  /** One `exec` result: where the `@` is, the captured pattern, and where `lastIndex` moves to. */
  datatype DecoratorHit = DecoratorHit(start: nat, pattern: string, end: nat)

  predicate IsNotSlash(c: char) { c != '/' }

  predicate IsNotQuote(c: char) { c != '\'' && c != '"' }

  /** `[gim]` under the `i` flag. */
  predicate IsFlagChar(c: char) { c == 'g' || c == 'i' || c == 'm' || c == 'G' || c == 'I' || c == 'M' }

  /**
   * `@<keyword>\s*\(\s*` at `i`, the keyword compared ignoring ASCII case (the
   * only case folding the `i` flag applies to these letters): the index after it.
   */
  function ArgumentStart(text: string, i: nat, keyword: string): (a: Option<nat>)
    requires i <= |text|
    ensures a.Some? ==> i + 1 + |keyword| < a.value <= |text|
  {
    var k := i + 1 + |keyword|;
    if k <= |text| && text[i] == '@' && ToLower(text[i + 1..k]) == keyword then
      var open := SpacesEnd(text, k);
      if open < |text| && text[open] == '(' then Some(SpacesEnd(text, open + 1)) else None
    else None
  }

  /**
   * The decorator regular expression of the given form matched at exactly `i`.
   * `[^/]+` and `[^'"]+` are greedy and stop only at a slash or quote, so the
   * captured body is the whole run up to the next one.
   */
  function HitAt(text: string, i: nat, keyword: string, form: PatternForm): (r: Option<DecoratorHit>)
    requires i <= |text|
    ensures r.Some? ==> r.value.start == i && i < r.value.end <= |text| && text[i] == '@'
  {
    match ArgumentStart(text, i, keyword)
    case None => None
    case Some(a) =>
      if a >= |text| then None
      else if form == SlashRegex then
        if text[a] != '/' then None
        else
          var b := SkipWhile(text, a + 1, IsNotSlash);
          if b == |text| || b == a + 1 then None
          else Some(DecoratorHit(i, text[a + 1..b], SkipWhile(text, b + 1, IsFlagChar)))
      else
        if IsNotQuote(text[a]) then None
        else
          var b := SkipWhile(text, a + 1, IsNotQuote);
          if b == |text| || b == a + 1 || text[b] != text[a] then None
          else Some(DecoratorHit(i, text[a + 1..b], b + 1))
  }

  /** A decorator of the form starts at `i`. */
  predicate StartsHit(text: string, i: nat, keyword: string, form: PatternForm) {
    i <= |text| && HitAt(text, i, keyword, form).Some?
  }

  /** The first index from `from` up to `n` where `p` holds. */
  function NextIndex(n: nat, from: nat, p: nat -> bool): (r: Option<nat>)
    requires from <= n
    ensures r.Some? ==> from <= r.value <= n && p(r.value)
    decreases n - from
  {
    if p(from) then Some(from)
    else if from == n then None
    else NextIndex(n, from + 1, p)
  }

  /** `NextIndex` finds the leftmost index: `p` fails everywhere before it. */
  lemma {:induction false} NextIndexIsLeftmost(n: nat, from: nat, p: nat -> bool)
    requires from <= n
    ensures var r := NextIndex(n, from, p);
      forall i | from <= i <= n && (r.None? || i < r.value) :: !p(i)
    decreases n - from
  {
    if !p(from) && from < n {
      NextIndexIsLeftmost(n, from + 1, p);
    }
  }

  /** `regex.exec(text)` with `lastIndex == from`: the leftmost hit at or after `from`. */
  function NextHit(text: string, from: nat, keyword: string, form: PatternForm): (r: Option<DecoratorHit>)
    requires from <= |text|
    ensures r.Some? ==> from <= r.value.start <= |text|
    ensures r.Some? ==> HitAt(text, r.value.start, keyword, form) == r
  {
    match NextIndex(|text|, from, (i: nat) => StartsHit(text, i, keyword, form))
    case None => None
    case Some(i) => HitAt(text, i, keyword, form)
  }

  /** `exec` finds the leftmost match: no decorator starts between `lastIndex` and the hit. */
  lemma NextHitIsLeftmost(text: string, from: nat, keyword: string, form: PatternForm)
    requires from <= |text|
    ensures var r := NextHit(text, from, keyword, form);
      (r.Some? ==> forall i | from <= i < r.value.start :: HitAt(text, i, keyword, form).None?)
      && (r.None? ==> forall i | from <= i <= |text| :: HitAt(text, i, keyword, form).None?)
  {
    var p := (i: nat) => StartsHit(text, i, keyword, form);
    NextIndexIsLeftmost(|text|, from, p);
    var r := NextIndex(|text|, from, p);
    forall i | from <= i <= |text| && (r.None? || i < r.value)
      ensures HitAt(text, i, keyword, form).None?
    {
      assert !p(i);
    }
  }

  /** A decorator of the file with the grade of its pattern. */
  datatype Candidate = Candidate(offset: nat, score: nat)

  /**
   * The `while ((match = regex.exec(text)) !== null)` loop from `lastIndex == from`:
   * the hits of one form, graded, those grading 0 dropped.
   */
  function GradedFrom(text: string, from: nat, keyword: string, form: PatternForm, step: string, re: RegexEngine)
    : (r: seq<Candidate>)
    requires from <= |text|
    decreases |text| - from
  {
    match NextHit(text, from, keyword, form)
    case None => []
    case Some(h) =>
      var score := MatchesStepPattern(step, h.pattern, re);
      (if score > 0 then [Candidate(h.start, score)] else []) + GradedFrom(text, h.end, keyword, form, step, re)
  }

  /** The keyword families searched whatever the step's own keyword is. */
  const AllKeywords: seq<string> := ["given", "when", "then"]

  /** The candidates of one keyword: the `/regex/` forms, then the quoted forms. */
  function KeywordCandidates(text: string, keyword: string, step: string, re: RegexEngine): seq<Candidate>
  {
    GradedFrom(text, 0, keyword, SlashRegex, step, re) + GradedFrom(text, 0, keyword, Quoted, step, re)
  }

  /** The `matches` array of searchInFile after its keyword loop. */
  function CandidatesFor(text: string, keywords: seq<string>, step: string, re: RegexEngine): (r: seq<Candidate>)
  {
    if keywords == [] then []
    else CandidatesFor(text, keywords[..|keywords| - 1], step, re)
         + KeywordCandidates(text, keywords[|keywords| - 1], step, re)
  }

  /** `k` holds a highest grade, and no earlier candidate has that grade. */
  predicate IsFirstBest(cands: seq<Candidate>, k: int) {
    && 0 <= k < |cands|
    && (forall j | 0 <= j < |cands| :: cands[j].score <= cands[k].score)
    && (forall j | 0 <= j < k :: cands[j].score < cands[k].score)
  }

  /**
   * The element that `matches.sort((a, b) => b.score - a.score)` puts first: the
   * sort is stable, so it is the first candidate of the highest grade.
   */
  function FirstBest(cands: seq<Candidate>): (k: nat)
    requires |cands| > 0
    ensures IsFirstBest(cands, k)
  {
    if |cands| == 1 then 0
    else
      var k := FirstBest(cands[..|cands| - 1]);
      if cands[|cands| - 1].score > cands[k].score then |cands| - 1 else k
  }

  /**
   * One `while ((match = regex.exec(text)) !== null)` loop of searchInFile:
   * every hit of the form appended to `matches` with its grade, unless it grades 0.
   */
  method ScanDecorators(doc: string, keyword: string, form: PatternForm, stepText: string, re: RegexEngine,
                        matches: seq<Candidate>)
    returns (r: seq<Candidate>)
    ensures r == matches + GradedFrom(doc, 0, keyword, form, stepText, re)
  {
    r := matches;
    var lastIndex := 0;
    while true
      invariant lastIndex <= |doc|
      invariant r + GradedFrom(doc, lastIndex, keyword, form, stepText, re)
        == matches + GradedFrom(doc, 0, keyword, form, stepText, re)
      decreases |doc| - lastIndex
    {
      var m := NextHit(doc, lastIndex, keyword, form);
      if m.None? {
        break;
      }
      var score := MatchesStepPattern(stepText, m.value.pattern, re);
      var found := if score > 0 then [Candidate(m.value.start, score)] else [];
      ghost var rest := GradedFrom(doc, m.value.end, keyword, form, stepText, re);
      assert GradedFrom(doc, lastIndex, keyword, form, stepText, re) == found + rest;
      AppendAssoc(r, found, rest);
      r := r + found;
      lastIndex := m.value.end;
    }
  }

  /**
   * searchInFile: the offset of the `@` of the best decorator of the file, or
   * `None` when the file cannot be opened or no pattern grades above 0.
   */
  method SearchInFile(text: Option<string>, stepText: string, keywords: seq<string>, re: RegexEngine)
    returns (r: Option<nat>)
    ensures text.None? ==> r.None?
    ensures text.Some? ==>
      var cands := CandidatesFor(text.value, keywords, stepText, re);
      (r.None? <==> cands == []) && (r.Some? ==> r.value == cands[FirstBest(cands)].offset)
  {
    if text.None? {
      return None;
    }
    var doc := text.value;
    var matches: seq<Candidate> := [];
    for k := 0 to |keywords|
      invariant matches == CandidatesFor(doc, keywords[..k], stepText, re)
    {
      assert keywords[..k + 1][..k] == keywords[..k];
      assert CandidatesFor(doc, keywords[..k + 1], stepText, re)
        == CandidatesFor(doc, keywords[..k], stepText, re) + KeywordCandidates(doc, keywords[k], stepText, re);
      var before := matches;
      matches := ScanDecorators(doc, keywords[k], SlashRegex, stepText, re, matches);
      matches := ScanDecorators(doc, keywords[k], Quoted, stepText, re, matches);
      ghost var slash := GradedFrom(doc, 0, keywords[k], SlashRegex, stepText, re);
      ghost var quoted := GradedFrom(doc, 0, keywords[k], Quoted, stepText, re);
      assert matches == before + slash + quoted;
      AppendAssoc(before, slash, quoted);
    }
    assert keywords[..|keywords|] == keywords;
    if |matches| > 0 {
      var best := matches[FirstBest(matches)];
      return Some(best.offset);
    }
    return None;
  }

  /* ---------------- The file search ---------------- */

  const StepFilePatterns: seq<string> := [
    "**/features/**/steps/**/*.ts",
    "**/step-definitions/**/*.ts",
    "**/step_definitions/**/*.ts",
    "**/*-steps.ts",
    "**/*_steps.ts",
    "**/*.steps.ts"]

  const StepFileExclude := "{**/node_modules/**,**/dist/**,**/out/**,**/*.js}"

  /** findStepFiles: every pattern's first 500 files, concatenated, de-duplicated by path. */
  method FindStepFiles(ws: Workspace) returns (files: seq<string>)
    ensures files == Dedup(AllMatches(ws, StepFilePatterns, StepFileExclude, 500))
    ensures NoDuplicates(files)
  {
    var allFiles := CollectFiles(ws, StepFilePatterns, StepFileExclude, 500);
    files := Dedup(allFiles);
  }

  /** The file opens and has a decorator grading above 0. */
  predicate Yields(ws: Workspace, file: string, keywords: seq<string>, step: string, re: RegexEngine) {
    ws.read(file).Some? && CandidatesFor(ws.read(file).value, keywords, step, re) != []
  }

  /** The answer of the loop over `files`: the best decorator of the first file that has one. */
  function FirstStepHit(ws: Workspace, files: seq<string>, keywords: seq<string>, step: string, re: RegexEngine)
    : (r: Option<Location>)
  {
    if files == [] then None
    else if Yields(ws, files[0], keywords, step, re) then
      var cands := CandidatesFor(ws.read(files[0]).value, keywords, step, re);
      Some(Location(files[0], cands[FirstBest(cands)].offset))
    else FirstStepHit(ws, files[1..], keywords, step, re)
  }

  /**
   * findStepDefinition. The step's keyword is accepted and not used: all three
   * keyword families are searched.
   */
  method FindStepDefinition(ws: Workspace, stepText: string, stepKeyword: string, re: RegexEngine)
    returns (r: Option<Location>)
    ensures r == FirstStepHit(ws, Dedup(AllMatches(ws, StepFilePatterns, StepFileExclude, 500)), AllKeywords, stepText, re)
  {
    var stepFiles := FindStepFiles(ws);
    for k := 0 to |stepFiles|
      invariant FirstStepHit(ws, stepFiles[k..], AllKeywords, stepText, re)
        == FirstStepHit(ws, stepFiles, AllKeywords, stepText, re)
    {
      assert stepFiles[k..][1..] == stepFiles[k + 1..];
      var location := SearchInFile(ws.read(stepFiles[k]), stepText, AllKeywords, re);
      if location.Some? {
        return Some(Location(stepFiles[k], location.value));
      }
    }
    return None;
  }

  /**
   * File-level short-circuit: the answer is a decorator of the first file that
   * has one, every earlier file having none, and there is no answer exactly
   * when no file has one.
   */
  lemma {:induction false} FirstStepHitIsFirstYieldingFile(ws: Workspace, files: seq<string>, keywords: seq<string>,
                                                           step: string, re: RegexEngine)
    ensures FirstStepHit(ws, files, keywords, step, re).None? <==> forall f | f in files :: !Yields(ws, f, keywords, step, re)
    ensures FirstStepHit(ws, files, keywords, step, re).Some? ==>
      exists i | 0 <= i < |files| ::
        && files[i] == FirstStepHit(ws, files, keywords, step, re).value.path
        && Yields(ws, files[i], keywords, step, re)
        && (forall j | 0 <= j < i :: !Yields(ws, files[j], keywords, step, re))
  {
    if files != [] {
      FirstStepHitIsFirstYieldingFile(ws, files[1..], keywords, step, re);
      var r := FirstStepHit(ws, files, keywords, step, re);
      if !Yields(ws, files[0], keywords, step, re) {
        assert r == FirstStepHit(ws, files[1..], keywords, step, re);
        assert forall f | f in files :: f == files[0] || f in files[1..];
        if r.Some? {
          var i :| 0 <= i < |files[1..]| && files[1..][i] == r.value.path && Yields(ws, files[1..][i], keywords, step, re)
            && (forall j | 0 <= j < i :: !Yields(ws, files[1..][j], keywords, step, re));
          NoneYieldBefore(ws, files, i, keywords, step, re);
          assert files[i + 1] == files[1..][i];
        }
      } else {
        assert files[0] in files;
      }
    }
  }

  /** No file before `i + 1` yields, when the first does not and none before `i` in the rest does. */
  lemma NoneYieldBefore(ws: Workspace, files: seq<string>, i: nat, keywords: seq<string>, step: string, re: RegexEngine)
    requires i < |files| - 1 && !Yields(ws, files[0], keywords, step, re)
    requires forall j | 0 <= j < i :: !Yields(ws, files[1..][j], keywords, step, re)
    ensures forall j | 0 <= j < i + 1 :: !Yields(ws, files[j], keywords, step, re)
  {
    var hits := (f: string) => Yields(ws, f, keywords, step, re);
    NoneBeforeShift(files, i, hits);
  }

  lemma NoneBeforeShift<T>(xs: seq<T>, i: nat, p: T -> bool)
    requires i < |xs| - 1 && !p(xs[0])
    requires forall j | 0 <= j < i :: !p(xs[1..][j])
    ensures forall j | 0 <= j < i + 1 :: !p(xs[j])
  {
    forall j | 0 <= j < i + 1 ensures !p(xs[j]) {
      if j > 0 { assert xs[j] == xs[1..][j - 1]; }
    }
  }



  /** Every candidate of one form sits on the `@` of a decorator and grades between 1 and 3. */
  lemma {:induction false} GradedCandidatesAreDecorators(text: string, from: nat, keyword: string, form: PatternForm,
                                                         step: string, re: RegexEngine)
    requires from <= |text|
    ensures forall c | c in GradedFrom(text, from, keyword, form, step, re) ::
      1 <= c.score <= 3 && from <= c.offset < |text| && text[c.offset] == '@'
    decreases |text| - from
  {
    match NextHit(text, from, keyword, form)
    case None =>
    case Some(h) =>
      GradedCandidatesAreDecorators(text, h.end, keyword, form, step, re);
      assert HitAt(text, h.start, keyword, form) == Some(h);
      var score := MatchesStepPattern(step, h.pattern, re);
      var rest := GradedFrom(text, h.end, keyword, form, step, re);
      assert GradedFrom(text, from, keyword, form, step, re)
          == (if score > 0 then [Candidate(h.start, score)] else []) + rest;
      GradedHitThenRest(text, from, h.start, h.end, score, rest);
  }

  /** One graded hit on an `@`, followed by candidates further on. */
  lemma GradedHitThenRest(text: string, from: nat, start: nat, end: nat, score: nat, rest: seq<Candidate>)
    requires from <= start < end <= |text| && text[start] == '@' && score <= 3
    requires forall c | c in rest :: 1 <= c.score <= 3 && end <= c.offset < |text| && text[c.offset] == '@'
    ensures forall c | c in (if score > 0 then [Candidate(start, score)] else []) + rest ::
      1 <= c.score <= 3 && from <= c.offset < |text| && text[c.offset] == '@'
  {
  }

  /** Every candidate of a file sits on the `@` of a decorator and grades between 1 and 3. */
  lemma {:induction false} CandidatesAreDecorators(text: string, keywords: seq<string>, step: string, re: RegexEngine)
    ensures forall c | c in CandidatesFor(text, keywords, step, re) ::
      1 <= c.score <= 3 && c.offset < |text| && text[c.offset] == '@'
  {
    if keywords != [] {
      var kw := keywords[|keywords| - 1];
      CandidatesAreDecorators(text, keywords[..|keywords| - 1], step, re);
      GradedCandidatesAreDecorators(text, 0, kw, SlashRegex, step, re);
      GradedCandidatesAreDecorators(text, 0, kw, Quoted, step, re);
    }
  }

  /** The location found points at the `@` of a decorator whose pattern grades at least 1. */
  lemma {:induction false} FoundLocationIsDecorator(ws: Workspace, files: seq<string>, keywords: seq<string>,
                                                    step: string, re: RegexEngine)
    requires FirstStepHit(ws, files, keywords, step, re).Some?
    ensures var loc := FirstStepHit(ws, files, keywords, step, re).value;
      ws.read(loc.path).Some? && loc.offset < |ws.read(loc.path).value| && ws.read(loc.path).value[loc.offset] == '@'
  {
    if !Yields(ws, files[0], keywords, step, re) {
      FoundLocationIsDecorator(ws, files[1..], keywords, step, re);
    } else {
      var cands := CandidatesFor(ws.read(files[0]).value, keywords, step, re);
      CandidatesAreDecorators(ws.read(files[0]).value, keywords, step, re);
      assert cands[FirstBest(cands)] in cands;
    }
  }

  /* ---------------- Step lines ---------------- */

  /** A parsed step line: the keyword as written and the step text. */
  datatype GherkinStep = GherkinStep(keyword: string, text: string)

  /** `Given|When|Then|And|But|\*`, compared in lower case (the pattern carries the `i` flag). */
  const GherkinKeywords: seq<string> := ["given", "when", "then", "and", "but", "*"]

  /** The length of the first alternative that matches at `i`, if any. */
  function KeywordLengthAt(line: string, i: nat, keywords: seq<string>): (r: Option<nat>)
    requires i <= |line|
    ensures r.Some? ==> i + r.value <= |line| && ToLower(line[i..i + r.value]) in keywords
  {
    if keywords == [] then None
    else if i + |keywords[0]| <= |line| && ToLower(line[i..i + |keywords[0]|]) == keywords[0] then Some(|keywords[0]|)
    else KeywordLengthAt(line, i, keywords[1..])
  }

  /** The captured text trimmed, and one trailing colon with the spaces before it removed. */
  function CleanStepText(body: string): (r: string)
    ensures IsTrimmed(r)
    ensures IsTrimmed(body) && !EndsWith(body, ":") ==> r == body
  {
    var t := Trim(body);
    if EndsWith(t, ":") then Trim(t[..|t| - 1]) else t
  }

  /**
   * The text `\s+(.+?)(:)?$` captures when it is matched from `k`. After the
   * spaces, the rest must be free of line terminators (`.` does not match them);
   * the lazy `(.+?)` leaves out one final colon when something precedes it.
   * When nothing but spaces follows, the engine gives the last space back to
   * `(.+?)`, which needs two spaces and a last character that is not a line
   * terminator.
   */
  function StepBodyAfter(line: string, k: nat): (r: Option<string>)
    requires k <= |line|
  {
    var t0 := SpacesEnd(line, k);
    if t0 == k then None
    else if t0 < |line| then
      var t := line[t0..];
      if !FreeOfLineTerminators(t) then None
      else Some(if |t| >= 2 && t[|t| - 1] == ':' then t[..|t| - 1] else t)
    else if t0 - k >= 2 && !IsLineTerminator(line[|line| - 1]) then Some(line[|line| - 1..])
    else None
  }

  /** No character of `t` is a line terminator, checked from the front. */
  predicate FreeOfLineTerminators(t: string)
    decreases |t|
  {
    t == [] || (!IsLineTerminator(t[0]) && FreeOfLineTerminators(t[1..]))
  }

  lemma {:induction false} FreeOfLineTerminatorsMeansEveryChar(t: string)
    ensures FreeOfLineTerminators(t) <==> forall m | 0 <= m < |t| :: !IsLineTerminator(t[m])
    decreases |t|
  {
    if t != [] {
      FreeOfLineTerminatorsMeansEveryChar(t[1..]);
      if FreeOfLineTerminators(t) {
        forall m | 0 <= m < |t| ensures !IsLineTerminator(t[m]) {
          if m > 0 { assert t[m] == t[1..][m - 1]; }
        }
      }
    }
  }

  /** Whatever `\s+(.+?)(:)?$` captures holds no line terminator. */
  lemma StepBodyIsOneLine(line: string, k: nat)
    requires k <= |line| && StepBodyAfter(line, k).Some?
    ensures var b := StepBodyAfter(line, k).value;
      forall m | 0 <= m < |b| :: !IsLineTerminator(b[m])
  {
    var t0 := SpacesEnd(line, k);
    if t0 < |line| {
      FreeOfLineTerminatorsMeansEveryChar(line[t0..]);
    }
  }

  /** extractStepText: `/^\s*(Given|When|Then|And|But|\*)\s+(.+?)(:)?$/i`, the keyword as written. */
  function ExtractStepText(line: string): (r: Option<GherkinStep>)
    ensures r.Some? ==>
      var i, kw := SpacesEnd(line, 0), r.value.keyword;
      && i + |kw| <= |line| && line[i..i + |kw|] == kw
      && ToLower(kw) in GherkinKeywords && IsTrimmed(r.value.text)
  {
    StepAfterIndentShape(line, SpacesEnd(line, 0));
    StepAfterIndent(line, SpacesEnd(line, 0))
  }

  /** The rest of the pattern, matched from the end `i` of the indentation. */
  function StepAfterIndent(line: string, i: nat): (r: Option<GherkinStep>)
    requires i <= |line|
  {
    match KeywordLengthAt(line, i, GherkinKeywords)
    case None => None
    case Some(n) => StepOf(line[i..i + n], StepBodyAfter(line, i + n))
  }

  /** The step made of a keyword and what the rest of the pattern captured, if it matched. */
  function StepOf(keyword: string, body: Option<string>): (r: Option<GherkinStep>)
  {
    match body
    case None => None
    case Some(b) => Some(GherkinStep(keyword, CleanStepText(b)))
  }

  /**
   * A step found after the indentation starts with its keyword as written,
   * one of the alternatives in any case, and its text is trimmed.
   */
  lemma StepAfterIndentShape(line: string, i: nat)
    requires i <= |line|
    ensures var r := StepAfterIndent(line, i);
      r.Some? ==>
        var kw := r.value.keyword;
        && i + |kw| <= |line| && line[i..i + |kw|] == kw
        && ToLower(kw) in GherkinKeywords && IsTrimmed(r.value.text)
  {
    match KeywordLengthAt(line, i, GherkinKeywords)
    case None =>
    case Some(n) =>
      StepOfShape(line[i..i + n], StepBodyAfter(line, i + n));
  }

  /** A step made from a match keeps the captured keyword and has a trimmed text. */
  lemma StepOfShape(keyword: string, body: Option<string>)
    ensures var r := StepOf(keyword, body);
      r.Some? ==> r.value.keyword == keyword && IsTrimmed(r.value.text)
  {
  }

  /** A text ending in a line terminator never completes `\s+(.+?)(:)?$`. */
  lemma NoStepBodyBeforeTerminator(l: string, k: nat)
    requires k <= |l| && |l| > 0 && IsLineTerminator(l[|l| - 1])
    ensures StepBodyAfter(l, k) == None
  {
    var t0 := SpacesEnd(l, k);
    if t0 != k && t0 < |l| {
      var t := l[t0..];
      assert IsLineTerminator(t[|t| - 1]);
      FreeOfLineTerminatorsMeansEveryChar(t);
    }
  }

  /** Whatever a line holds, the same line ending in a carriage return is never a step line. */
  lemma CarriageReturnLineIsNeverAStep(line: string)
    ensures ExtractStepText(line + "\r") == None
  {
    var l := line + "\r";
    assert IsLineTerminator(l[|l| - 1]);
    TerminatedLineIsNeverAStep(l);
  }

  /** A line whose last character is a line terminator is never a step line. */
  lemma TerminatedLineIsNeverAStep(l: string)
    requires |l| > 0 && IsLineTerminator(l[|l| - 1])
    ensures ExtractStepText(l) == None
  {
    var i := SpacesEnd(l, 0);
    var n := KeywordLengthAt(l, i, GherkinKeywords);
    if n.Some? {
      NoStepBodyBeforeTerminator(l, i + n.value);
    }
  }

  /** Distinct alternatives start with distinct characters. */
  lemma GherkinKeywordsHaveDistinctInitials()
    ensures forall u, w | u in GherkinKeywords && w in GherkinKeywords :: |u| > 0 && (u[0] == w[0] ==> u == w)
  {
  }

  /** When the alternatives have distinct initials, the one that occurs is the one found. */
  lemma {:induction false} KeywordFound(line: string, i: nat, keywords: seq<string>, w: string)
    requires |w| > 0 && i + |w| <= |line| && ToLower(line[i..i + |w|]) == w
    requires w in keywords
    requires forall u | u in keywords :: |u| > 0 && (u[0] == w[0] ==> u == w)
    ensures KeywordLengthAt(line, i, keywords) == Some(|w|)
  {
    var u := keywords[0];
    assert w[0] == LowerChar(line[i]) by {
      assert ToLower(line[i..i + |w|])[0] == LowerChar(line[i..i + |w|][0]);
    }
    if i + |u| <= |line| && ToLower(line[i..i + |u|]) == u {
      assert u[0] == LowerChar(line[i]) by {
        assert ToLower(line[i..i + |u|])[0] == LowerChar(line[i..i + |u|][0]);
      }
    } else {
      assert u != w;
      assert w in keywords[1..];
      KeywordFound(line, i, keywords[1..], w);
    }
  }

  /** One space then a plain text: the text is what `\s+(.+?)(:)?$` captures. */
  lemma BodyAfterOneSpace(line: string, k: nat, text: string)
    requires k < |line| && line[k] == ' ' && line[k + 1..] == text
    requires text != [] && IsTrimmed(text) && !EndsWith(text, ":")
    requires forall m | 0 <= m < |text| :: !IsLineTerminator(text[m])
    ensures StepBodyAfter(line, k) == Some(text)
  {
    assert line[k + 1] == text[0];
    SpacesEndStopsAt(line, k, k + 1);
    FreeOfLineTerminatorsMeansEveryChar(text);
    assert text[|text| - 1..] == [text[|text| - 1]];
  }

  /**
   * A well-formed step line parses back to its keyword and its text: any
   * indentation, a keyword in any letter case, one space, and a trimmed text
   * without line terminators or a final colon.
   */
  lemma StepLineRoundTrip(indent: string, keyword: string, text: string)
    requires forall m | 0 <= m < |indent| :: IsSpace(indent[m])
    requires ToLower(keyword) in GherkinKeywords
    requires text != [] && IsTrimmed(text) && !EndsWith(text, ":")
    requires forall m | 0 <= m < |text| :: !IsLineTerminator(text[m])
    ensures ExtractStepText(indent + keyword + " " + text) == Some(GherkinStep(keyword, text))
  {
    StepLineParts(indent, keyword, text);
    StepLineOfParts(indent + keyword + " " + text, |indent|, keyword, text);
  }

  /** Where the indentation, the keyword, the space and the text sit in a step line. */
  lemma StepLineParts(indent: string, keyword: string, text: string)
    ensures var line := indent + keyword + " " + text;
      var k := |indent| + |keyword|;
      && |line| == k + 1 + |text|
      && (forall m | 0 <= m < |indent| :: line[m] == indent[m])
      && line[|indent|..k] == keyword && line[k] == ' ' && line[k + 1..] == text
  {
    var a := indent + keyword;
    var b := a + " ";
    var line := b + text;
    assert line[..|b|] == b && b[..|a|] == a;
  }

  /** A line made of spaces, a keyword, one space and a plain text is that keyword's step. */
  lemma StepLineOfParts(line: string, i: nat, keyword: string, text: string)
    requires |line| == i + |keyword| + 1 + |text|
    requires forall m | 0 <= m < i :: IsSpace(line[m])
    requires line[i..i + |keyword|] == keyword && line[i + |keyword|] == ' ' && line[i + |keyword| + 1..] == text
    requires ToLower(keyword) in GherkinKeywords
    requires text != [] && IsTrimmed(text) && !EndsWith(text, ":")
    requires forall m | 0 <= m < |text| :: !IsLineTerminator(text[m])
    ensures ExtractStepText(line) == Some(GherkinStep(keyword, text))
  {
    ParsedStepLine(line, i, |keyword|, text);
  }

  /** The same, with the keyword read off the line. */
  lemma ParsedStepLine(line: string, i: nat, n: nat, text: string)
    requires |line| == i + n + 1 + |text|
    requires forall m | 0 <= m < i :: IsSpace(line[m])
    requires line[i + n] == ' ' && line[i + n + 1..] == text
    requires ToLower(line[i..i + n]) in GherkinKeywords
    requires text != [] && IsTrimmed(text) && !EndsWith(text, ":")
    requires forall m | 0 <= m < |text| :: !IsLineTerminator(text[m])
    ensures ExtractStepText(line) == Some(GherkinStep(line[i..i + n], text))
  {
    KeywordAfterIndent(line, i, line[i..i + n]);
    BodyAfterOneSpace(line, i + n, text);
    StepFromParts(line, i, n, text);
    PlainBodyIsTheText(line[i..i + n], text);
  }

  /** After the indentation the scan stops at the keyword, and the keyword's alternative is found. */
  lemma KeywordAfterIndent(line: string, i: nat, keyword: string)
    requires i + |keyword| <= |line|
    requires forall m | 0 <= m < i :: IsSpace(line[m])
    requires line[i..i + |keyword|] == keyword
    requires ToLower(keyword) in GherkinKeywords
    ensures SpacesEnd(line, 0) == i
    ensures KeywordLengthAt(line, i, GherkinKeywords) == Some(|keyword|)
  {
    GherkinKeywordsHaveDistinctInitials();
    assert !IsSpace(line[i]) by {
      assert line[i] == line[i..i + |keyword|][0];
      assert ToLower(keyword)[0] == LowerChar(keyword[0]);
    }
    SpacesEndStopsAt(line, 0, i);
    KeywordFound(line, i, GherkinKeywords, ToLower(keyword));
  }

  /** The parsed pieces of a line assemble into its step. */
  lemma StepFromParts(line: string, i: nat, n: nat, text: string)
    requires i + n <= |line|
    requires SpacesEnd(line, 0) == i
    requires KeywordLengthAt(line, i, GherkinKeywords) == Some(n)
    requires StepBodyAfter(line, i + n) == Some(text)
    ensures ExtractStepText(line) == StepOf(line[i..i + n], Some(text))
  {
    IndentThenKeyword(line, i, n);
  }

  lemma IndentThenKeyword(line: string, i: nat, n: nat)
    requires i + n <= |line|
    requires SpacesEnd(line, 0) == i
    requires KeywordLengthAt(line, i, GherkinKeywords) == Some(n)
    ensures ExtractStepText(line) == StepOf(line[i..i + n], StepBodyAfter(line, i + n))
  {
    assert ExtractStepText(line) == StepAfterIndent(line, i);
  }

  /** A captured text that is trimmed and has no final colon is the step text unchanged. */
  lemma PlainBodyIsTheText(keyword: string, text: string)
    requires IsTrimmed(text) && !EndsWith(text, ":")
    ensures StepOf(keyword, Some(text)) == Some(GherkinStep(keyword, text))
  {
    assert CleanStepText(text) == text;
  }
}
