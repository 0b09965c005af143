/**
 * The handler search of src/services/handlerFinder.ts: the workspace symbol
 * provider first, then a scan of likely files for a CQRS decorator naming
 * the command, then a file named after the handler in kebab case.
 */
module HandlerFinder {
  import opened Wrappers
  import opened Text
  import opened Workspaces
  import opened ClassSearch

  /**
   * A search that may also fail: `ReadFailed` is an `openTextDocument` error
   * that nothing catches, so the caller's promise is rejected.
   */
  datatype Lookup = Found(location: Location) | NotFound | ReadFailed(path: string)

  // ----- the decorator strategy -----

  const DecoratorExclude := "{**/node_modules/**,**/dist/**,**/out/**}"

  function DecoratorGlobs(): seq<string> {
    ["**/*handler*.ts", "**/*handlers*.ts", "**/*subscriber*.ts", "**/*subscribers*.ts",
     "**/commands/**/*.ts", "**/queries/**/*.ts", "**/events/**/*.ts", "**/cqrs/**/*.ts"]
  }

  /** The decorator texts looked for, in order: without spaces, then with one space inside each parenthesis. */
  function DecoratorPatterns(commandName: string): seq<string> {
    ["@CommandHandler(" + commandName + ")", "@QueryHandler(" + commandName + ")",
     "@EventsHandler(" + commandName + ")", "@CommandHandler( " + commandName + " )",
     "@QueryHandler( " + commandName + " )", "@EventsHandler( " + commandName + " )"]
  }

  /** The index of the first of `patterns`, from `from` on, that occurs in `text`. */
  function FirstOccurring(text: string, patterns: seq<string>, from: nat): (r: Option<nat>)
    ensures r.Some? ==> from <= r.value < |patterns| && Contains(text, patterns[r.value])
    ensures forall j | from <= j < |patterns| && (r.None? || j < r.value) :: !Contains(text, patterns[j])
    decreases |patterns| - from
  {
    if from >= |patterns| then None
    else if Contains(text, patterns[from]) then Some(from)
    else FirstOccurring(text, patterns, from + 1)
  }

  /**
   * The inner `for (const pattern of decoratorPatterns)` loop: the flag says
   * whether some pattern occurs, and the index is the first occurrence of
   * the first one that does.
   */
  method FindDecorator(text: string, patterns: seq<string>) returns (foundDecorator: bool, decoratorIndex: int)
    ensures foundDecorator <==> exists k | 0 <= k < |patterns| :: Contains(text, patterns[k])
    ensures foundDecorator ==> var k := FirstOccurring(text, patterns, 0).value;
      decoratorIndex == IndexOfFrom(text, patterns[k], 0).value
    ensures !foundDecorator ==> decoratorIndex == -1
  {
    foundDecorator := false;
    decoratorIndex := -1;
    var k := 0;
    while k < |patterns|
      invariant k <= |patterns|
      invariant FirstOccurring(text, patterns, k) == FirstOccurring(text, patterns, 0)
    {
      if Contains(text, patterns[k]) {
        foundDecorator := true;
        decoratorIndex := IndexOfFrom(text, patterns[k], 0).value;
        return;
      }
      k := k + 1;
    }
  }

  /**
   * `/export\s+class\s+(\w+)/` matched at exactly `p`. Giving back a space
   * from either greedy `\s+` never helps, since a space would then have to
   * match `c` or `\w`.
   */
  predicate ExportClassAt(text: string, p: nat) {
    && OccursAt(text, "export", p)
    && var a := SkipWhile(text, p + 6, IsSpace);
       a > p + 6 && ClassWordAt(text, a)
  }

  /** The `class\s+\w` part of the match, at `a`. */
  predicate ClassWordAt(text: string, a: nat) {
    && OccursAt(text, "class", a)
    && var b := SkipWhile(text, a + 5, IsSpace);
       b > a + 5 && b < |text| && IsWordChar(text[b])
  }

  /** The leftmost `export class` match at or after `from`. */
  function NextExportClass(text: string, from: nat): (r: Option<nat>)
    ensures r.Some? ==> from <= r.value && ExportClassAt(text, r.value)
    ensures forall i | from <= i && (r.None? || i < r.value) :: !ExportClassAt(text, i)
    decreases |text| - from
  {
    if from + 6 > |text| then None
    else if ExportClassAt(text, from) then Some(from)
    else NextExportClass(text, from + 1)
  }

  lemma {:induction false} SkipWhileShift(text: string, d: nat, i: nat, keep: char -> bool)
    requires d <= |text| && i <= |text| - d
    ensures SkipWhile(text[d..], i, keep) + d == SkipWhile(text, d + i, keep)
    decreases |text| - d - i
  {
    if i < |text| - d {
      assert text[d..][i] == text[d + i];
      if keep(text[d + i]) {
        SkipWhileShift(text, d, i + 1, keep);
      }
    }
  }

  lemma OccursAtShift(text: string, d: nat, w: string, i: nat)
    requires d <= |text|
    ensures OccursAt(text[d..], w, i) <==> OccursAt(text, w, d + i)
  {
    if i + |w| <= |text| - d {
      assert text[d..][i..i + |w|] == text[d + i..d + i + |w|];
    }
  }

  /** The regular expression looks at nothing before its match, so searching a suffix is searching the text. */
  lemma ExportClassAtShift(text: string, d: nat, m: nat)
    requires d <= |text|
    ensures ExportClassAt(text[d..], m) <==> ExportClassAt(text, d + m)
  {
    OccursAtShift(text, d, "export", m);
    if OccursAt(text[d..], "export", m) {
      ExportShiftRest(text, text[d..], d, m);
    }
    ExportClassAtMoved(text[d..], m, text, d + m);
  }

  /** Where the spaces after `export` end, and `class\s+\w` there, agree between the suffix `t` from `d` and the text. */
  lemma ExportShiftRest(text: string, t: string, d: nat, m: nat)
    requires d <= |text| && t == text[d..] && m + 6 <= |t|
    ensures SkipWhile(t, m + 6, IsSpace) + (d + m) == SkipWhile(text, d + m + 6, IsSpace) + m
    ensures ClassWordAt(t, SkipWhile(t, m + 6, IsSpace)) <==> ClassWordAt(text, SkipWhile(text, d + m + 6, IsSpace))
  {
    SkipWhileShift(text, d, m + 6, IsSpace);
    ClassWordMoved(text, t, d, SkipWhile(t, m + 6, IsSpace), SkipWhile(text, d + m + 6, IsSpace));
  }

  lemma ClassWordMoved(text: string, t: string, d: nat, b: nat, c: nat)
    requires d <= |text| && t == text[d..] && c == d + b
    ensures ClassWordAt(t, b) <==> ClassWordAt(text, c)
  {
    ClassWordAtShift(text, d, b);
  }

  /** Two places that agree on `export`, on where the spaces after it end and on `class\s+\w` there. */
  lemma ExportClassAtMoved(t: string, m: nat, text: string, p: nat)
    requires OccursAt(t, "export", m) <==> OccursAt(text, "export", p)
    requires OccursAt(t, "export", m) ==>
      && SkipWhile(t, m + 6, IsSpace) + p == SkipWhile(text, p + 6, IsSpace) + m
      && (ClassWordAt(t, SkipWhile(t, m + 6, IsSpace)) <==> ClassWordAt(text, SkipWhile(text, p + 6, IsSpace)))
    ensures ExportClassAt(t, m) <==> ExportClassAt(text, p)
  {
  }

  lemma ClassWordAtShift(text: string, d: nat, a: nat)
    requires d <= |text|
    ensures ClassWordAt(text[d..], a) <==> ClassWordAt(text, d + a)
  {
    var t := text[d..];
    OccursAtShift(text, d, "class", a);
    if OccursAt(t, "class", a) {
      SkipWhileShift(text, d, a + 5, IsSpace);
      var b := SkipWhile(t, a + 5, IsSpace);
      if b < |t| {
        assert t[b] == text[d + b];
      }
    }
  }

  lemma {:induction false} NextExportClassShift(text: string, d: nat, from: nat)
    requires d <= |text|
    ensures NextExportClass(text[d..], from).Some? <==> NextExportClass(text, d + from).Some?
    ensures NextExportClass(text[d..], from).Some? ==>
      NextExportClass(text[d..], from).value + d == NextExportClass(text, d + from).value
    decreases |text| - d - from
  {
    if from + 6 <= |text| - d {
      ExportClassAtShift(text, d, from);
      if !ExportClassAt(text[d..], from) {
        NextExportClassShift(text, d, from + 1);
      }
    }
  }

  /** The index of the decorator that wins in `text`, as `indexOf` gives it. */
  function DecoratorIndex(text: string, commandName: string): (r: Option<nat>)
    ensures r.Some? ==> r.value <= |text|
  {
    var patterns := DecoratorPatterns(commandName);
    match FirstOccurring(text, patterns, 0)
    case None => None
    case Some(k) => IndexOfFrom(text, patterns[k], 0)
  }

  /**
   * The offset `decoratorIndex + classMatch.index` that a file with a
   * decorator yields: the `export` keyword of the first `export class`
   * starting at or after the decorator (`SuffixSearch` shows that searching
   * `text.substring(decoratorIndex)` finds the same match).
   */
  function DecoratorHit(text: string, commandName: string): (r: Option<nat>)
    ensures r.Some? ==> ExportClassAt(text, r.value)
    ensures r.Some? ==> var d := DecoratorIndex(text, commandName);
      d.Some? && d.value <= r.value && forall i | d.value <= i < r.value :: !ExportClassAt(text, i)
    ensures r.None? && DecoratorIndex(text, commandName).Some? ==>
      forall i | DecoratorIndex(text, commandName).value <= i :: !ExportClassAt(text, i)
  {
    match DecoratorIndex(text, commandName)
    case None => None
    case Some(d) => NextExportClass(text, d)
  }

  /** `exec` on `text.substring(d)`, shifted back by `d`, is the search of `text` from `d`. */
  lemma SuffixSearch(text: string, d: nat)
    requires d <= |text|
    ensures NextExportClass(text[d..], 0).Some? <==> NextExportClass(text, d).Some?
    ensures NextExportClass(text[d..], 0).Some? ==> d + NextExportClass(text[d..], 0).value == NextExportClass(text, d).value
  {
    NextExportClassShift(text, d, 0);
  }

  /** The body of the file loop: reading the file, the decorator, then the class after it. */
  method ScanForDecorator(ws: Workspace, file: string, commandName: string) returns (outcome: FileOutcome)
    ensures outcome == DecoratorOutcome(ws, file, commandName)
  {
    var doc := ws.read(file);
    if doc.None? {
      return Miss;
    }
    var text := doc.value;
    var foundDecorator, decoratorIndex := FindDecorator(text, DecoratorPatterns(commandName));
    if foundDecorator && decoratorIndex >= 0 {
      var afterDecorator := text[decoratorIndex..];
      var classMatch := NextExportClass(afterDecorator, 0);
      SuffixSearch(text, decoratorIndex);
      if classMatch.Some? {
        return Hit(Location(file, decoratorIndex + classMatch.value));
      }
    }
    return Miss;
  }

  /** One candidate file: unreadable files and files without a hit are passed over. */
  function DecoratorOutcome(ws: Workspace, path: string, commandName: string): (r: FileOutcome)
    ensures r != Abort
    ensures r.Hit? ==>
      r.location.path == path && ws.read(path).Some? && ExportClassAt(ws.read(path).value, r.location.offset)
  {
    match ws.read(path)
    case None => Miss
    case Some(text) =>
      match DecoratorHit(text, commandName)
      case None => Miss
      case Some(offset) => Hit(Location(path, offset))
  }

  function DecoratorSearch(ws: Workspace, files: seq<string>, from: nat, commandName: string): Option<Location> {
    FirstDecisive(files, from, f => DecoratorOutcome(ws, f, commandName))
  }

  /** The candidate files: every glob's files, each path once, in first-seen order. */
  function DecoratorCandidates(ws: Workspace): seq<string> {
    Dedup(AllMatches(ws, DecoratorGlobs(), DecoratorExclude, 500))
  }

  /** findByDecorator. */
  method FindByDecorator(ws: Workspace, commandName: string) returns (r: Option<Location>)
    ensures r == DecoratorSearch(ws, DecoratorCandidates(ws), 0, commandName)
    ensures r.Some? ==>
      && r.value.path in DecoratorCandidates(ws) && ws.read(r.value.path).Some?
      && ExportClassAt(ws.read(r.value.path).value, r.value.offset)
  {
    var allFiles := CollectFiles(ws, DecoratorGlobs(), DecoratorExclude, 500);
    var uniqueFiles := Dedup(allFiles);
    var i := 0;
    while i < |uniqueFiles|
      invariant i <= |uniqueFiles|
      invariant DecoratorSearch(ws, uniqueFiles, i, commandName) == DecoratorSearch(ws, uniqueFiles, 0, commandName)
    {
      var outcome := ScanForDecorator(ws, uniqueFiles[i], commandName);
      if outcome.Hit? {
        return Some(outcome.location);
      }
      i := i + 1;
    }
    return None;
  }

  // ----- the file-name strategy -----

  /** `.replace(/([a-z])([A-Z])/g, '$1-$2')`: matches are taken left to right and do not overlap. */
  function Hyphenate(s: string): string
    decreases |s|
  {
    if |s| >= 2 && IsLowerAscii(s[0]) && IsUpperAscii(s[1]) then [s[0], '-', s[1]] + Hyphenate(s[2..])
    else if s == [] then []
    else [s[0]] + Hyphenate(s[1..])
  }

  /** Reference: a hyphen between every lower-case letter and the upper-case letter right after it. */
  function HyphenAtEveryBoundary(s: string): string
    decreases |s|
  {
    if |s| < 2 then s
    else [s[0]] + (if IsLowerAscii(s[0]) && IsUpperAscii(s[1]) then "-" else "") + HyphenAtEveryBoundary(s[1..])
  }

  /**
   * No boundary is missed although matches cannot overlap: the character a
   * match consumes second is upper case, so no match could start there.
   */
  lemma {:induction false} HyphenateMarksEveryBoundary(s: string)
    ensures Hyphenate(s) == HyphenAtEveryBoundary(s)
    decreases |s|
  {
    if |s| >= 2 && IsLowerAscii(s[0]) && IsUpperAscii(s[1]) {
      HyphenateMarksEveryBoundary(s[2..]);
      var t := s[1..];
      assert t[1..] == s[2..];
      if |t| >= 2 {
        assert HyphenAtEveryBoundary(t) == [s[1]] + HyphenAtEveryBoundary(s[2..]);
      } else {
        assert HyphenAtEveryBoundary(t) == [s[1]] + HyphenAtEveryBoundary(s[2..]);
      }
    } else if s != [] {
      HyphenateMarksEveryBoundary(s[1..]);
    }
  }

  /** The handler's file name: hyphens at the case boundaries, then everything in lower case. */
  function KebabCase(name: string): (r: string)
    ensures r == ToLower(HyphenAtEveryBoundary(name))
    ensures forall i | 0 <= i < |r| :: !IsUpperAscii(r[i])
  {
    HyphenateMarksEveryBoundary(name);
    ToLower(Hyphenate(name))
  }

  const NodeModulesExclude := "**/node_modules/**"

  /** The six probes of `findHandlerFile`, in order. */
  function HandlerFilePatterns(handlerName: string): seq<string> {
    var fileName := KebabCase(handlerName);
    ["**/" + fileName + ".ts", "**/" + fileName + ".handler.ts", "**/" + fileName + ".subscriber.ts",
     "**/handlers/" + fileName + ".ts", "**/subscribers/" + fileName + ".ts", "**/*" + handlerName + "*.ts"]
  }

  predicate ProbeHits(ws: Workspace, pattern: string) {
    FindFiles(ws, pattern, NodeModulesExclude, 1) != []
  }

  /** The index of the first probe, from `from` on, that finds a file. */
  function FirstNonEmptyProbe(ws: Workspace, patterns: seq<string>, from: nat): (r: Option<nat>)
    ensures r.Some? ==> from <= r.value < |patterns| && ProbeHits(ws, patterns[r.value])
    ensures forall j | from <= j < |patterns| && (r.None? || j < r.value) :: !ProbeHits(ws, patterns[j])
    decreases |patterns| - from
  {
    if from >= |patterns| then None
    else if ProbeHits(ws, patterns[from]) then Some(from)
    else FirstNonEmptyProbe(ws, patterns, from + 1)
  }

  /** The file the probes settle on: the first file of the first probe that finds any. */
  function ProbedFile(ws: Workspace, patterns: seq<string>): (r: Option<string>)
    ensures r.Some? <==> exists k | 0 <= k < |patterns| :: ProbeHits(ws, patterns[k])
    ensures r.Some? ==> exists k | 0 <= k < |patterns| ::
              && ProbeHits(ws, patterns[k]) && r.value == ws.findFiles(patterns[k], NodeModulesExclude)[0]
              && forall j | 0 <= j < k :: !ProbeHits(ws, patterns[j])
  {
    match FirstNonEmptyProbe(ws, patterns, 0)
    case None => None
    case Some(k) => Some(FindFiles(ws, patterns[k], NodeModulesExclude, 1)[0])
  }

  /** The probe loop of `findHandlerFile`; the probe list is a parameter, as src/extension.ts has its own. */
  method FindHandlerFile(ws: Workspace, patterns: seq<string>) returns (file: Option<string>)
    ensures file == ProbedFile(ws, patterns)
  {
    var i := 0;
    while i < |patterns|
      invariant i <= |patterns|
      invariant FirstNonEmptyProbe(ws, patterns, i) == FirstNonEmptyProbe(ws, patterns, 0)
    {
      var files := FindFiles(ws, patterns[i], NodeModulesExclude, 1);
      if |files| > 0 {
        return Some(files[0]);
      }
      i := i + 1;
    }
    return None;
  }

  /**
   * findByFileName: only the probed file is looked at; a file without the
   * class gives nothing, and a file that cannot be opened is an error.
   */
  function FileNameLookup(ws: Workspace, handlerName: string): (r: Lookup)
    ensures r.Found? ==>
      && ProbedFile(ws, HandlerFilePatterns(handlerName)) == Some(r.location.path)
      && ws.read(r.location.path).Some?
      && UnescapedClassAt(ws.read(r.location.path).value, r.location.offset, handlerName)
      && forall i: nat | i < r.location.offset :: !UnescapedClassAt(ws.read(r.location.path).value, i, handlerName)
    ensures r.ReadFailed? ==> ProbedFile(ws, HandlerFilePatterns(handlerName)) == Some(r.path) && ws.read(r.path).None?
    ensures r.NotFound? ==> match ProbedFile(ws, HandlerFilePatterns(handlerName))
      case None => true
      case Some(f) =>
        ws.read(f).Some? && forall i: nat :: !UnescapedClassAt(ws.read(f).value, i, handlerName)
  {
    match ProbedFile(ws, HandlerFilePatterns(handlerName))
    case None => NotFound
    case Some(f) =>
      match ws.read(f)
      case None => ReadFailed(f)
      case Some(text) =>
        match UnescapedClassInDocument(f, text, handlerName)
        case None => NotFound
        case Some(l) => Found(l)
  }

  method FindByFileName(ws: Workspace, handlerName: string) returns (r: Lookup)
    ensures r == FileNameLookup(ws, handlerName)
  {
    var handlerFile := FindHandlerFile(ws, HandlerFilePatterns(handlerName));
    if handlerFile.None? {
      return NotFound;
    }
    var doc := ws.read(handlerFile.value);
    if doc.None? {
      return ReadFailed(handlerFile.value);
    }
    var location := UnescapedClassInDocument(handlerFile.value, doc.value, handlerName);
    if location.Some? {
      return Found(location.value);
    }
    return NotFound;
  }

  // ----- the three strategies in order -----

  function HandlerLookup(ws: Workspace, handlerName: string, commandName: string): Lookup {
    match ClassSymbol(ws, handlerName)
    case Some(l) => Found(l)
    case None =>
      match DecoratorSearch(ws, DecoratorCandidates(ws), 0, commandName)
      case Some(l) => Found(l)
      case None => FileNameLookup(ws, handlerName)
  }

  /** findHandler. */
  method FindHandler(ws: Workspace, handlerName: string, commandName: string) returns (r: Lookup)
    ensures r == HandlerLookup(ws, handlerName, commandName)
  {
    var symbolResult := ClassSymbol(ws, handlerName);
    if symbolResult.Some? {
      return Found(symbolResult.value);
    }
    var decoratorResult := FindByDecorator(ws, commandName);
    if decoratorResult.Some? {
      return Found(decoratorResult.value);
    }
    r := FindByFileName(ws, handlerName);
  }

  /**
   * The first strategy with an answer wins; nothing is found only when all
   * three come back empty, and only the file-name strategy can fail.
   */
  lemma FindHandlerPrecedence(ws: Workspace, handlerName: string, commandName: string)
    ensures var r := HandlerLookup(ws, handlerName, commandName);
      var bySymbol := ClassSymbol(ws, handlerName);
      var byDecorator := DecoratorSearch(ws, DecoratorCandidates(ws), 0, commandName);
      && (bySymbol.Some? ==> r == Found(bySymbol.value))
      && (bySymbol.None? && byDecorator.Some? ==> r == Found(byDecorator.value))
      && (r.NotFound? <==> bySymbol.None? && byDecorator.None? && FileNameLookup(ws, handlerName).NotFound?)
      && (r.ReadFailed? ==> bySymbol.None? && byDecorator.None?)
  {
  }
}
