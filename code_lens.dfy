/** What a CodeLens provider hands to the editor, reduced to what the providers decide. */
module CodeLenses {
  /**
   * A lens of a feature file: the index of the line it sits on (column 0),
   * its title and its command. Every lens carries an empty argument list,
   * which is not represented.
   */
  datatype LineLens = LineLens(line: nat, title: string, command: string)

  /** A lens of a TypeScript document: the text offset of its match, its title and its command. */
  datatype OffsetLens = OffsetLens(offset: nat, title: string, command: string)

  const GoToHandlerCommand := "nestjs-cqrs-navigator.goToHandler"
  const GoToProviderCommand := "nestjs-cqrs-navigator.goToProvider"
  const GoToStepDefinitionCommand := "nestjs-cqrs-navigator.goToStepDefinition"

  /** A lens title: the arrow, a space, then the text. */
  function Arrow(s: string): string { "\U{2192} " + s }

  /** One regular-expression match of a scanner: where it starts, its capture, where `lastIndex` moves to. */
  datatype ScanHit = ScanHit(start: nat, capture: string, end: nat)

  /** Strictly increasing lines. */
  predicate LinesIncreasing(lenses: seq<LineLens>) {
    forall i, j | 0 <= i < j < |lenses| :: lenses[i].line < lenses[j].line
  }

  /** Strictly increasing offsets. */
  predicate OffsetsIncreasing(lenses: seq<OffsetLens>) {
    forall i, j | 0 <= i < j < |lenses| :: lenses[i].offset < lenses[j].offset
  }
}

/**
 * src/providers/featureFileCodeLensProvider.ts: one lens per step line of a
 * `.feature` document.
 */
module FeatureFileCodeLens {
  import opened Wrappers
  import opened Text
  import opened CodeLenses
  import opened StepDefinitionFinder

  function StepLens(line: nat): LineLens {
    LineLens(line, Arrow("Go to step definition"), GoToStepDefinitionCommand)
  }

  /** Which lines `extractStepText` accepts. */
  function StepLineFlags(lines: seq<string>): (r: seq<bool>)
    ensures |r| == |lines| && forall i | 0 <= i < |lines| :: r[i] == ExtractStepText(lines[i]).Some?
  {
    seq(|lines|, i requires 0 <= i < |lines| => ExtractStepText(lines[i]).Some?)
  }

  /** The lenses for the flagged lines, in line order, each at column 0 of a flagged line. */
  function LensesAt(isStep: seq<bool>): (r: seq<LineLens>)
    ensures forall k | 0 <= k < |r| :: r[k].line < |isStep| && isStep[r[k].line] && r[k] == StepLens(r[k].line)
    ensures LinesIncreasing(r)
  {
    if isStep == [] then []
    else
      var n := |isStep| - 1;
      var front := LensesAt(isStep[..n]);
      if isStep[n] then
        var r := front + [StepLens(n)];
        assert r[|front|].line == n;
        r
      else front
  }

  /** Every flagged line has a lens. */
  predicate Covers(lenses: seq<LineLens>, isStep: seq<bool>) {
    forall i | 0 <= i < |isStep| && isStep[i] :: exists k | 0 <= k < |lenses| :: lenses[k].line == i
  }

  /** No flagged line is missed. */
  lemma {:induction false} LensesAtCoverFlags(isStep: seq<bool>)
    ensures Covers(LensesAt(isStep), isStep)
  {
    if isStep != [] {
      var n := |isStep| - 1;
      var front := LensesAt(isStep[..n]);
      LensesAtCoverFlags(isStep[..n]);
      var r := LensesAt(isStep);
      assert r == if isStep[n] then front + [StepLens(n)] else front;
      forall i | 0 <= i < |isStep| && isStep[i] ensures exists k | 0 <= k < |r| :: r[k].line == i {
        if i < n {
          assert isStep[..n][i];
          var k :| 0 <= k < |front| && front[k].line == i;
          assert r[k] == front[k];
        } else {
          assert r[|front|].line == n;
        }
      }
      assert Covers(r, isStep);
    }
  }

  /** One more line adds its lens, when it is flagged, at the end. */
  lemma LensesAtExtend(isStep: seq<bool>, i: nat)
    requires i < |isStep|
    ensures LensesAt(isStep[..i + 1]) == LensesAt(isStep[..i]) + (if isStep[i] then [StepLens(i)] else [])
  {
    assert isStep[..i + 1][..i] == isStep[..i];
  }

  /** The lenses of a document's lines. */
  function StepLenses(lines: seq<string>): seq<LineLens>
  {
    LensesAt(StepLineFlags(lines))
  }

  /** provideCodeLenses as written: the text is split on `\n` alone. */
  method ProvideCodeLenses(fileName: string, text: string) returns (lenses: seq<LineLens>)
    ensures lenses == if EndsWith(fileName, ".feature") then StepLenses(Lines(text)) else []
  {
    if !EndsWith(fileName, ".feature") {
      return [];
    }
    var lines := Lines(text);
    ghost var flags := StepLineFlags(lines);
    lenses := [];
    var i := 0;
    while i < |lines|
      invariant i <= |lines|
      invariant lenses == LensesAt(flags[..i])
    {
      var stepInfo := ExtractStepText(lines[i]);
      LensesAtExtend(flags, i);
      if stepInfo.Some? {
        lenses := lenses + [StepLens(i)];
      }
      i := i + 1;
    }
    assert flags[..|lines|] == flags;
  }

  /** The lines of a file saved with Windows line endings, as `split('\n')` leaves them. */
  function WithCarriageReturns(lines: seq<string>): (r: seq<string>)
    ensures |r| == |lines| && forall i | 0 <= i < |lines| :: r[i] == lines[i] + "\r"
  {
    seq(|lines|, i requires 0 <= i < |lines| => lines[i] + "\r")
  }

  /** The empty line is not a step line. */
  lemma EmptyLineIsNotAStep()
    ensures ExtractStepText("") == None
  {
    assert SpacesEnd("", 0) == 0;
  }

  /**
   * As written, a feature file with Windows line endings gets no lens at all:
   * every line but a final empty one keeps its carriage return.
   */
  lemma CrlfFeatureFileGetsNoLenses(text: string)
    requires forall k | 0 <= k < |Lines(text)| :: Lines(text)[k] == "" || Lines(text)[k][|Lines(text)[k]| - 1] == '\r'
    ensures StepLenses(Lines(text)) == []
  {
    var lines := Lines(text);
    forall k | 0 <= k < |lines|
      ensures ExtractStepText(lines[k]).None?
    {
      CrlfLineIsNotAStep(lines[k]);
    }
    NoFlagNoLens(StepLineFlags(lines));
  }

  lemma NoFlagNoLens(isStep: seq<bool>)
    requires forall i | 0 <= i < |isStep| :: !isStep[i]
    ensures LensesAt(isStep) == []
  {
  }

  lemma CrlfLineIsNotAStep(l: string)
    requires l == "" || l[|l| - 1] == '\r'
    ensures ExtractStepText(l).None?
  {
    if l == "" {
      EmptyLineIsNotAStep();
    } else {
      assert l == l[..|l| - 1] + "\r";
      CarriageReturnLineIsNeverAStep(l[..|l| - 1]);
    }
  }

  /** One final carriage return removed from every line. */
  function StripCarriageReturns(lines: seq<string>): (r: seq<string>)
    ensures |r| == |lines| && forall i | 0 <= i < |lines| :: r[i] == DropLast(lines[i], '\r')
  {
    seq(|lines|, i requires 0 <= i < |lines| => DropLast(lines[i], '\r'))
  }

  /** provideCodeLenses with the line ending taken off each line before it is parsed. */
  method ProvideCodeLensesAnyLineEnding(fileName: string, text: string) returns (lenses: seq<LineLens>)
    ensures lenses == if EndsWith(fileName, ".feature") then StepLenses(StripCarriageReturns(Lines(text))) else []
  {
    if !EndsWith(fileName, ".feature") {
      return [];
    }
    var lines := StripCarriageReturns(Lines(text));
    ghost var flags := StepLineFlags(lines);
    lenses := [];
    var i := 0;
    while i < |lines|
      invariant i <= |lines|
      invariant lenses == LensesAt(flags[..i])
    {
      var stepInfo := ExtractStepText(lines[i]);
      LensesAtExtend(flags, i);
      if stepInfo.Some? {
        lenses := lenses + [StepLens(i)];
      }
      i := i + 1;
    }
    assert flags[..|lines|] == flags;
  }

  /** With the correction, the same lines get the same lenses whatever the line ending. */
  lemma LensesIgnoreLineEndings(lines: seq<string>)
    requires forall i | 0 <= i < |lines| :: !EndsWith(lines[i], "\r")
    ensures StepLenses(StripCarriageReturns(WithCarriageReturns(lines))) == StepLenses(lines)
    ensures StepLenses(StripCarriageReturns(lines)) == StepLenses(lines)
  {
    var crlf := WithCarriageReturns(lines);
    forall i | 0 <= i < |lines|
      ensures DropLast(crlf[i], '\r') == lines[i] && DropLast(lines[i], '\r') == lines[i]
    {
      assert crlf[i][..|crlf[i]| - 1] == lines[i];
      if |lines[i]| > 0 {
        assert lines[i][|lines[i]| - 1..] == [lines[i][|lines[i]| - 1]];
      }
    }
    assert StripCarriageReturns(crlf) == lines;
    assert StripCarriageReturns(lines) == lines;
  }
}

/**
 * The command-class scanners: src/providers/cqrsCodeLensProvider.ts with
 * `class\s+(\w+(?:Command|Query))\b`, and the older provider in
 * src/extension.ts with `class\s+(\w+Command)\b`.
 */
module CqrsCodeLens {
  import opened Wrappers
  import opened Text
  import opened CodeLenses

  const CommandOrQuery: seq<string> := ["Command", "Query"]
  const CommandOnly: seq<string> := ["Command"]

  /** The word ends with one of the suffixes and has at least one character before it. */
  predicate EndsWithSuffix(word: string, suffixes: seq<string>) {
    exists k | 0 <= k < |suffixes| :: EndsWith(word, suffixes[k]) && |word| > |suffixes[k]|
  }

  /**
   * The scanner's regular expression matched at exactly `p`. The greedy `\w+`
   * can only give characters back to the suffix, and `\b` then needs the
   * suffix to end the word, so the capture is the whole word after the spaces.
   */
  function CommandClassAt(text: string, p: nat, suffixes: seq<string>): (r: Option<ScanHit>)
    requires p <= |text|
    ensures r.Some? ==> r.value.start == p < r.value.end <= |text|
  {
    if p + 5 <= |text| && text[p..p + 5] == "class" then
      var q := SkipWhile(text, p + 5, IsSpace);
      var e := SkipWhile(text, q, IsWordChar);
      if q > p + 5 && EndsWithSuffix(text[q..e], suffixes) then Some(ScanHit(p, text[q..e], e)) else None
    else None
  }

  /** A match is a whole word after `class` and spaces, ending with a suffix. */
  lemma CommandClassIsWholeWord(text: string, p: nat, suffixes: seq<string>)
    requires p <= |text| && CommandClassAt(text, p, suffixes).Some?
    ensures var h := CommandClassAt(text, p, suffixes).value;
      && OccursAt(text, "class", p)
      && IsSpace(text[p + 5])
      && AllWordChars(h.capture) && EndsWithSuffix(h.capture, suffixes)
      && OccursAt(text, h.capture, h.end - |h.capture|)
      && IsSpace(text[h.end - |h.capture| - 1])
      && (h.end == |text| || !IsWordChar(text[h.end]))
  {
  }

  /** `exec` from `lastIndex == from`: the leftmost match at or after `from`. */
  function NextCommandClass(text: string, from: nat, suffixes: seq<string>): (r: Option<ScanHit>)
    requires from <= |text|
    ensures r.Some? ==> from <= r.value.start <= |text| && CommandClassAt(text, r.value.start, suffixes) == r
    decreases |text| - from
  {
    if CommandClassAt(text, from, suffixes).Some? then CommandClassAt(text, from, suffixes)
    else if from == |text| then None
    else NextCommandClass(text, from + 1, suffixes)
  }

  lemma {:induction false} NextCommandClassIsLeftmost(text: string, from: nat, suffixes: seq<string>)
    requires from <= |text|
    ensures var r := NextCommandClass(text, from, suffixes);
      forall i | from <= i <= |text| && (r.None? || i < r.value.start) :: CommandClassAt(text, i, suffixes).None?
    decreases |text| - from
  {
    if CommandClassAt(text, from, suffixes).None? && from < |text| {
      NextCommandClassIsLeftmost(text, from + 1, suffixes);
    }
  }

  function HandlerLens(offset: nat, name: string): OffsetLens {
    OffsetLens(offset, Arrow("Go to " + name + "Handler"), GoToHandlerCommand)
  }

  /** The lenses of the `while (exec)` loop from `lastIndex == from`: one per match, in text order. */
  function CommandLensesFrom(text: string, from: nat, suffixes: seq<string>): (r: seq<OffsetLens>)
    requires from <= |text|
    ensures OffsetsIncreasing(r)
    ensures forall k | 0 <= k < |r| ::
              && from <= r[k].offset <= |text|
              && CommandClassAt(text, r[k].offset, suffixes).Some?
              && r[k] == HandlerLens(r[k].offset, CommandClassAt(text, r[k].offset, suffixes).value.capture)
    decreases |text| - from
  {
    match NextCommandClass(text, from, suffixes)
    case None => []
    case Some(h) =>
      var rest := CommandLensesFrom(text, h.end, suffixes);
      [HandlerLens(h.start, h.capture)] + rest
  }

  /** provideCodeLenses of either provider, `suffixes` being its alternatives. */
  method ProvideCodeLenses(text: string, suffixes: seq<string>) returns (lenses: seq<OffsetLens>)
    ensures lenses == CommandLensesFrom(text, 0, suffixes)
  {
    lenses := [];
    var lastIndex := 0;
    while true
      invariant lastIndex <= |text|
      invariant lenses + CommandLensesFrom(text, lastIndex, suffixes) == CommandLensesFrom(text, 0, suffixes)
      decreases |text| - lastIndex
    {
      var m := NextCommandClass(text, lastIndex, suffixes);
      if m.None? {
        break;
      }
      var lens := HandlerLens(m.value.start, m.value.capture);
      ghost var rest := CommandLensesFrom(text, m.value.end, suffixes);
      assert CommandLensesFrom(text, lastIndex, suffixes) == [lens] + rest;
      AppendAssoc(lenses, [lens], rest);
      lenses := lenses + [lens];
      lastIndex := m.value.end;
    }
  }

  /** Every lens of the older provider is also a lens of the newer one's scan at the same place. */
  lemma CommandOnlyIsNarrower(text: string, p: nat)
    requires p <= |text| && CommandClassAt(text, p, CommandOnly).Some?
    ensures CommandClassAt(text, p, CommandOrQuery) == CommandClassAt(text, p, CommandOnly)
  {
    var q := SkipWhile(text, p + 5, IsSpace);
    var e := SkipWhile(text, q, IsWordChar);
    assert EndsWith(text[q..e], CommandOnly[0]);
    assert EndsWith(text[q..e], CommandOrQuery[0]);
  }
}

/** src/providers/injectionCodeLensProvider.ts: one lens per `@Inject(<token>)`. */
module InjectionCodeLens {
  import opened Wrappers
  import opened Text
  import opened CodeLenses

  /**
   * `@Inject\(([\w_]+)\)` matched at exactly `p`: a non-empty word run right
   * after the parenthesis, closed at once (no spaces inside the parentheses).
   */
  function InjectAt(text: string, p: nat): (r: Option<ScanHit>)
    requires p <= |text|
    ensures r.Some? ==> r.value.start == p < r.value.end <= |text|
    ensures r.Some? ==> r.value.capture != [] && AllWordChars(r.value.capture)
    ensures r.Some? ==> OccursAt(text, "@Inject(" + r.value.capture + ")", p) && r.value.end == p + |r.value.capture| + 9
  {
    if p + 8 <= |text| && text[p..p + 8] == "@Inject(" then
      var e := SkipWhile(text, p + 8, IsWordChar);
      if e > p + 8 && e < |text| && text[e] == ')' then
        assert text[p..e + 1] == text[p..p + 8] + text[p + 8..e] + [text[e]];
        Some(ScanHit(p, text[p + 8..e], e + 1))
      else None
    else None
  }

  function NextInject(text: string, from: nat): (r: Option<ScanHit>)
    requires from <= |text|
    ensures r.Some? ==> from <= r.value.start <= |text| && InjectAt(text, r.value.start) == r
    decreases |text| - from
  {
    if InjectAt(text, from).Some? then InjectAt(text, from)
    else if from == |text| then None
    else NextInject(text, from + 1)
  }

  lemma {:induction false} NextInjectIsLeftmost(text: string, from: nat)
    requires from <= |text|
    ensures var r := NextInject(text, from);
      forall i | from <= i <= |text| && (r.None? || i < r.value.start) :: InjectAt(text, i).None?
    decreases |text| - from
  {
    if InjectAt(text, from).None? && from < |text| {
      NextInjectIsLeftmost(text, from + 1);
    }
  }

  function ProviderLens(offset: nat, token: string): OffsetLens {
    OffsetLens(offset, Arrow("Go to provider of " + token), GoToProviderCommand)
  }

  /** The lenses of the `while (exec)` loop from `lastIndex == from`. */
  function InjectLensesFrom(text: string, from: nat): (r: seq<OffsetLens>)
    requires from <= |text|
    ensures OffsetsIncreasing(r)
    ensures forall k | 0 <= k < |r| ::
              && from <= r[k].offset <= |text|
              && InjectAt(text, r[k].offset).Some?
              && r[k] == ProviderLens(r[k].offset, InjectAt(text, r[k].offset).value.capture)
    decreases |text| - from
  {
    match NextInject(text, from)
    case None => []
    case Some(h) => [ProviderLens(h.start, h.capture)] + InjectLensesFrom(text, h.end)
  }

  method ProvideCodeLenses(text: string) returns (lenses: seq<OffsetLens>)
    ensures lenses == InjectLensesFrom(text, 0)
  {
    lenses := [];
    var lastIndex := 0;
    while true
      invariant lastIndex <= |text|
      invariant lenses + InjectLensesFrom(text, lastIndex) == InjectLensesFrom(text, 0)
      decreases |text| - lastIndex
    {
      var m := NextInject(text, lastIndex);
      if m.None? {
        break;
      }
      var lens := ProviderLens(m.value.start, m.value.capture);
      ghost var rest := InjectLensesFrom(text, m.value.end);
      assert InjectLensesFrom(text, lastIndex) == [lens] + rest;
      AppendAssoc(lenses, [lens], rest);
      lenses := lenses + [lens];
      lastIndex := m.value.end;
    }
  }

  /** A space inside the parentheses is not accepted. */
  lemma SpaceInsideIsRejected(text: string, p: nat)
    requires p + 9 <= |text| && text[p..p + 8] == "@Inject(" && text[p + 8] == ' '
    ensures InjectAt(text, p).None?
  {
  }
}
