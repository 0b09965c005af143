/**
 * src/commands/goToHandler.ts: from a Command or Query class name under the
 * cursor to its handler, found by `HandlerFinder.FindHandler`.
 */
module HandlerCommand {
  import opened Wrappers
  import opened Text
  import opened Workspaces
  import opened CodeLenses
  import opened CqrsCodeLens
  import opened HandlerFinder

  /** `isCommand || isQuery`: the same gate as the suffixes the CQRS lenses look for. */
  predicate IsCommandOrQuery(word: string)
    ensures IsCommandOrQuery(word) <==> exists k | 0 <= k < |CommandOrQuery| :: EndsWith(word, CommandOrQuery[k])
  {
    assert CommandOrQuery == ["Command", "Query"];
    assert EndsWith(word, "Command") ==> EndsWith(word, CommandOrQuery[0]);
    assert EndsWith(word, "Query") ==> EndsWith(word, CommandOrQuery[1]);
    EndsWith(word, "Command") || EndsWith(word, "Query")
  }

  /** `${word}Handler`: the word followed by the suffix, never itself a command or query name. */
  function HandlerNameFor(word: string): (h: string)
    ensures |h| == |word| + 7 && h[..|word|] == word && EndsWith(h, "Handler")
    ensures !IsCommandOrQuery(h)
  {
    var h := word + "Handler";
    assert h[|h| - 1] == 'r' && h[..|word|] == word && h[|word|..] == "Handler";
    assert !EndsWith(h, "Command") by { assert "Command"[6] == 'd'; }
    assert !EndsWith(h, "Query") by { assert "Query"[4] == 'y'; }
    h
  }

  /** `isCommand ? 'Command' : 'Query'`: for an accepted word, the suffix it ends with. */
  function TypeLabel(word: string): (l: string)
    ensures l == "Command" || l == "Query"
    ensures IsCommandOrQuery(word) ==> EndsWith(word, l)
  {
    if EndsWith(word, "Command") then "Command" else "Query"
  }

  /**
   * No word ends with both suffixes (their last letters differ), so for an
   * accepted word the label is exactly the suffix it ends with.
   */
  lemma TypeLabelIsTheSuffix(word: string)
    requires IsCommandOrQuery(word)
    ensures !(EndsWith(word, "Command") && EndsWith(word, "Query"))
    ensures EndsWith(word, TypeLabel(word))
    ensures TypeLabel(word) == "Command" <==> EndsWith(word, "Command")
  {
    if EndsWith(word, "Command") {
      assert word[|word| - 7..][6] == 'd';
      assert word[|word| - 1] != 'y';
      if |word| >= 5 {
        assert word[|word| - 5..][4] == word[|word| - 1];
      }
    }
  }

  /** The handler name is the word followed by `Handler`, and the word can be read back from it. */
  lemma HandlerNameRoundTrip(word: string)
    ensures EndsWith(HandlerNameFor(word), "Handler")
    ensures HandlerNameFor(word)[..|HandlerNameFor(word)| - 7] == word
  {
    var h := HandlerNameFor(word);
    assert h[|h| - 7..] == "Handler";
    assert h[..|h| - 7] == word;
  }

  /**
   * A lens of the CQRS lens provider is titled with the handler name this
   * command derives from the same class name, and the command accepts that
   * name.
   */
  lemma LensNamesTheSearchedHandler(text: string, p: nat)
    requires p <= |text| && CommandClassAt(text, p, CommandOrQuery).Some?
    ensures var c := CommandClassAt(text, p, CommandOrQuery).value.capture;
      && IsCommandOrQuery(c)
      && HandlerLens(p, c).title == Arrow("Go to " + HandlerNameFor(c))
      && HandlerLens(p, c).command == GoToHandlerCommand
  {
    var c := CommandClassAt(text, p, CommandOrQuery).value.capture;
    CommandClassIsWholeWord(text, p, CommandOrQuery);
    var k :| 0 <= k < |CommandOrQuery| && EndsWith(c, CommandOrQuery[k]) && |c| > |CommandOrQuery[k]|;
    assert k == 0 || k == 1;
    AppendAssoc("Go to ", c, "Handler");
  }

  datatype HandlerOutcome =
    | NoEditor
    | NoWordMessage
    | NotCommandOrQueryMessage
    | Reveal(location: Location)
    | HandlerNotFound(typeLabel: string, handlerName: string)
    | Failed(path: string)

  /**
   * nestjs-cqrs-navigator.goToHandler, `word` being the word at the cursor
   * when there is one. Nothing happens without an editor; no search happens
   * without a word or for a word that is neither a Command nor a Query;
   * otherwise the handler of `word + "Handler"` is searched for with `word`
   * as the command name. A handler file that cannot be opened makes the
   * command fail, as the exception is not caught.
   */
  method GoToHandler(ws: Workspace, editorOpen: bool, word: Option<string>) returns (outcome: HandlerOutcome)
    ensures outcome.NoEditor? <==> !editorOpen
    ensures outcome.NoWordMessage? <==> editorOpen && word.None?
    ensures outcome.NotCommandOrQueryMessage? <==> editorOpen && word.Some? && !IsCommandOrQuery(word.value)
    ensures outcome.Reveal? ==>
              && editorOpen && word.Some? && IsCommandOrQuery(word.value)
              && HandlerLookup(ws, HandlerNameFor(word.value), word.value) == Found(outcome.location)
    ensures outcome.HandlerNotFound? ==>
              && editorOpen && word.Some? && IsCommandOrQuery(word.value)
              && outcome.handlerName == HandlerNameFor(word.value) && outcome.typeLabel == TypeLabel(word.value)
              && HandlerLookup(ws, outcome.handlerName, word.value).NotFound?
    ensures outcome.Failed? ==>
              && editorOpen && word.Some? && IsCommandOrQuery(word.value)
              && HandlerLookup(ws, HandlerNameFor(word.value), word.value) == ReadFailed(outcome.path)
  {
    if !editorOpen {
      return NoEditor;
    }
    if word.None? {
      return NoWordMessage;
    }
    var isCommand := EndsWith(word.value, "Command");
    var isQuery := EndsWith(word.value, "Query");
    if !isCommand && !isQuery {
      return NotCommandOrQueryMessage;
    }
    var handlerName := word.value + "Handler";
    var typeLabel := if isCommand then "Command" else "Query";
    var handlerLocation := FindHandler(ws, handlerName, word.value);
    match handlerLocation
    case Found(l) => outcome := Reveal(l);
    case NotFound => outcome := HandlerNotFound(typeLabel, handlerName);
    case ReadFailed(f) => outcome := Failed(f);
  }
}
