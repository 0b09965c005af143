/**
 * src/commands/goToProvider.ts: the injection token under the cursor, and
 * the command that looks up the provider registered for it.
 */
module ProviderCommand {
  import opened Wrappers
  import opened Text
  import opened Workspaces
  import opened CodeLenses
  import opened InjectionCodeLens
  import opened ProviderFinder

  // ----- one line -----

  /**
   * `/@Inject\(([\w_]+)\)/.exec(line)[1]` behind the `includes('@Inject')`
   * test: the token of the first `@Inject(<word characters>)` on the line.
   */
  function InjectToken(line: string): (r: Option<string>)
    ensures r.Some? ==> r.value != [] && AllWordChars(r.value)
  {
    if Contains(line, "@Inject") then
      match NextInject(line, 0)
      case None => None
      case Some(h) => Some(h.capture)
    else None
  }

  /**
   * The line has a token exactly when `@Inject(<token>)` occurs on it, and the
   * token is the one of the leftmost occurrence; the `includes` test in front
   * of the regular expression never changes the answer.
   */
  lemma InjectTokenIsFirstMatch(line: string)
    ensures InjectToken(line).Some? <==> exists p | 0 <= p <= |line| :: InjectAt(line, p).Some?
    ensures InjectToken(line).Some? ==> exists p | 0 <= p <= |line| ::
              && InjectAt(line, p).Some? && InjectAt(line, p).value.capture == InjectToken(line).value
              && OccursAt(line, "@Inject(" + InjectToken(line).value + ")", p)
              && forall i | 0 <= i < p :: InjectAt(line, i).None?
  {
    NextInjectIsLeftmost(line, 0);
    var m := NextInject(line, 0);
    if m.Some? {
      var p := m.value.start;
      var c := m.value.capture;
      assert OccursAt(line, "@Inject(" + c + ")", p);
      assert line[p..p + 7] == ("@Inject(" + c + ")")[..7];
      assert OccursAt(line, "@Inject", p);
      assert Contains(line, "@Inject");
    }
  }

  // ----- the upward scan -----

  /** `Math.max(0, position.line - 5)`: the last line the upward scan looks at. */
  function ScanFloor(line: nat): (r: nat)
    ensures r <= line && line - r <= 5
    ensures line >= 5 ==> line - r == 5
  {
    if line >= 5 then line - 5 else 0
  }

  /** The scan from line `hi` down to line `lo`: the nearest line with a token. */
  function NearestInjectLine(lines: seq<string>, hi: int, lo: nat): (r: Option<nat>)
    requires hi < |lines|
    ensures r.Some? ==> lo <= r.value <= hi && InjectToken(lines[r.value]).Some?
    ensures forall j | lo <= j <= hi && (r.None? || r.value < j) :: InjectToken(lines[j]).None?
    decreases hi + 1 - lo
  {
    if hi < lo then None
    else if InjectToken(lines[hi]).Some? then Some(hi)
    else NearestInjectLine(lines, hi - 1, lo)
  }

  /**
   * getInjectionToken for the cursor on `line`, `word` being the word at the
   * cursor when there is one. The cursor line's own `@Inject` comes first;
   * without a word nothing more is tried; then the nearest `@Inject` among
   * the cursor line and the five above it; then the word itself.
   */
  function InjectionToken(lines: seq<string>, line: nat, word: Option<string>): Option<string>
    requires line < |lines|
  {
    if InjectToken(lines[line]).Some? then InjectToken(lines[line])
    else if word.None? then None
    else
      match NearestInjectLine(lines, line, ScanFloor(line))
      case Some(k) => InjectToken(lines[k])
      case None => word
  }

  /**
   * What the token is: the cursor line's own `@Inject` when it has one;
   * nothing exactly when there is neither such a token nor a word; the word
   * when none of the six lines has an `@Inject`; otherwise the token of the
   * nearest line with one, made of word characters only.
   */
  lemma InjectionTokenChoice(lines: seq<string>, line: nat, word: Option<string>)
    requires line < |lines|
    ensures var r := InjectionToken(lines, line, word);
      && (InjectToken(lines[line]).Some? ==> r == InjectToken(lines[line]))
      && (r.None? <==> word.None? && InjectToken(lines[line]).None?)
      && ((forall k | ScanFloor(line) <= k <= line :: InjectToken(lines[k]).None?) ==> r == word)
      && ((exists k | ScanFloor(line) <= k <= line :: InjectToken(lines[k]).Some?) && r.Some? ==>
            && r.value != [] && AllWordChars(r.value)
            && exists k | ScanFloor(line) <= k <= line ::
                 InjectToken(lines[k]) == r && forall j | k < j <= line :: InjectToken(lines[j]).None?)
  {
    var lo := ScanFloor(line);
    var n := NearestInjectLine(lines, line, lo);
    if InjectToken(lines[line]).None? && word.Some? && n.Some? {
      assert InjectToken(lines[n.value]) == InjectionToken(lines, line, word);
    }
  }

  /** The scan loop, from the cursor line down to `ScanFloor(line)`, returning at the first token. */
  method GetInjectionToken(lines: seq<string>, line: nat, word: Option<string>) returns (token: Option<string>)
    requires line < |lines|
    ensures token == InjectionToken(lines, line, word)
  {
    var lineToken := InjectToken(lines[line]);
    if lineToken.Some? {
      return lineToken;
    }
    if word.None? {
      return None;
    }
    var floor := if line >= 5 then line - 5 else 0;
    var i: int := line;
    while i >= floor
      invariant floor - 1 <= i <= line
      invariant NearestInjectLine(lines, i, floor) == NearestInjectLine(lines, line, floor)
      decreases i + 1
    {
      var checkLine := InjectToken(lines[i]);
      if checkLine.Some? {
        return checkLine;
      }
      i := i - 1;
    }
    return word;
  }

  /** Lines further than five above the cursor, and lines below it, never matter. */
  lemma {:induction false} NearestInjectLineReadsOnlyItsRange(lines: seq<string>, other: seq<string>, hi: int, lo: nat)
    requires hi < |lines| && hi < |other|
    requires forall k | lo <= k <= hi :: lines[k] == other[k]
    ensures NearestInjectLine(lines, hi, lo) == NearestInjectLine(other, hi, lo)
    decreases hi + 1 - lo
  {
    if hi >= lo && InjectToken(lines[hi]).None? {
      NearestInjectLineReadsOnlyItsRange(lines, other, hi - 1, lo);
    }
  }

  /** The token depends on at most six lines: the cursor line and the five above it. */
  lemma InjectionTokenReadsSixLines(lines: seq<string>, other: seq<string>, line: nat, word: Option<string>)
    requires line < |lines| && line < |other|
    requires forall k | ScanFloor(line) <= k <= line :: lines[k] == other[k]
    ensures InjectionToken(lines, line, word) == InjectionToken(other, line, word)
  {
    NearestInjectLineReadsOnlyItsRange(lines, other, line, ScanFloor(line));
  }

  // ----- the command -----

  /** The active editor: its lines, the cursor line and the word at the cursor, if any. */
  datatype Editor = Editor(lines: seq<string>, line: nat, word: Option<string>)

  predicate ValidEditor(e: Option<Editor>) {
    e.Some? ==> e.value.line < |e.value.lines|
  }

  datatype ProviderOutcome =
    | NoEditor
    | NoTokenMessage
    | Reveal(location: Location)
    | ProviderNotFound(token: string)

  /**
   * nestjs-cqrs-navigator.goToProvider: nothing without an editor; a message
   * when there is no token (an empty word counts as none); otherwise the
   * provider search, which either reveals a location or reports the token.
   */
  method GoToProvider(ws: Workspace, editor: Option<Editor>) returns (outcome: ProviderOutcome)
    requires ValidEditor(editor)
    ensures outcome.NoEditor? <==> editor.None?
    ensures outcome.NoTokenMessage? <==>
              editor.Some? && var t := InjectionToken(editor.value.lines, editor.value.line, editor.value.word);
                              t.None? || t.value == ""
    ensures outcome.Reveal? ==>
              && editor.Some?
              && var t := InjectionToken(editor.value.lines, editor.value.line, editor.value.word);
                 t.Some? && t.value != "" && ProviderLookup(ws, t.value) == Some(outcome.location)
    ensures outcome.ProviderNotFound? ==>
              && editor.Some?
              && InjectionToken(editor.value.lines, editor.value.line, editor.value.word) == Some(outcome.token)
              && outcome.token != "" && ProviderLookup(ws, outcome.token).None?
  {
    if editor.None? {
      return NoEditor;
    }
    var token := GetInjectionToken(editor.value.lines, editor.value.line, editor.value.word);
    if token.None? || token.value == "" {
      return NoTokenMessage;
    }
    var providerLocation := FindProviderImplementation(ws, token.value);
    if providerLocation.Some? {
      return Reveal(providerLocation.value);
    }
    return ProviderNotFound(token.value);
  }
}
