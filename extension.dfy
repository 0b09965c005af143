/**
 * The older go-to-handler command of src/extension.ts, with its own probe
 * list and its own jump to the class. Its lens provider is
 * `CqrsCodeLens.ProvideCodeLenses` with the suffixes `CommandOnly`.
 */
module LegacyExtension {
  import opened Wrappers
  import opened Text
  import opened Workspaces
  import opened ClassSearch
  import opened HandlerFinder
  import HandlerCommand

  /** The four probes of the older `findHandlerFile`, in order. */
  function LegacyHandlerFilePatterns(handlerName: string): seq<string> {
    var fileName := KebabCase(handlerName);
    ["**/" + fileName + ".ts", "**/" + fileName + ".handler.ts",
     "**/handlers/" + fileName + ".ts", "**/*" + handlerName + "*.ts"]
  }

  /** The older probes are the newer ones without the two subscriber probes, in the same order. */
  lemma LegacyProbesAreNewerProbes(handlerName: string)
    ensures var newer := HandlerFilePatterns(handlerName);
      LegacyHandlerFilePatterns(handlerName) == [newer[0], newer[1], newer[3], newer[5]]
  {
  }

  /**
   * jumpToClassDefinition: the selection moves to the first match of
   * `class\s+<name>\b`, the name put in unescaped, and stays where it was
   * when there is none.
   */
  function JumpToClassDefinition(text: string, className: string, selection: nat): (r: nat)
    ensures (exists i: nat :: UnescapedClassAt(text, i, className)) ==>
              && UnescapedClassAt(text, r, className)
              && forall i: nat | i < r :: !UnescapedClassAt(text, i, className)
    ensures (forall i: nat :: !UnescapedClassAt(text, i, className)) ==> r == selection
  {
    match UnescapedClassInDocument("", text, className)
    case Some(l) => l.offset
    case None => selection
  }

  /** The older command accepts fewer words, and for those it searches the same handler name. */
  lemma LegacyGatingIsNarrower(word: string)
    requires EndsWith(word, "Command")
    ensures HandlerCommand.IsCommandOrQuery(word) && HandlerCommand.TypeLabel(word) == "Command"
  {
  }

  datatype LegacyOutcome =
    | NoEditor
    | NoWordMessage
    | NotCommandMessage
    | Opened(path: string, selection: nat)
    | HandlerNotFound(handlerName: string)
    | Failed(path: string)

  /**
   * The older nestjs-cqrs-navigator.goToHandler: only words ending with
   * `Command` are searched; the first file of the first probe that finds one
   * is opened, and the selection, initially `shownAt`, jumps to the class.
   * A file that cannot be opened makes the command fail.
   */
  method LegacyGoToHandler(ws: Workspace, editorOpen: bool, word: Option<string>, shownAt: nat)
    returns (outcome: LegacyOutcome)
    ensures outcome.NoEditor? <==> !editorOpen
    ensures outcome.NoWordMessage? <==> editorOpen && word.None?
    ensures outcome.NotCommandMessage? <==> editorOpen && word.Some? && !EndsWith(word.value, "Command")
    ensures outcome.Opened? ==>
              && editorOpen && word.Some? && EndsWith(word.value, "Command")
              && ProbedFile(ws, LegacyHandlerFilePatterns(HandlerCommand.HandlerNameFor(word.value))) == Some(outcome.path)
              && ws.read(outcome.path).Some?
              && outcome.selection == JumpToClassDefinition(ws.read(outcome.path).value, HandlerCommand.HandlerNameFor(word.value), shownAt)
    ensures outcome.HandlerNotFound? ==>
              && editorOpen && word.Some? && EndsWith(word.value, "Command")
              && outcome.handlerName == HandlerCommand.HandlerNameFor(word.value)
              && ProbedFile(ws, LegacyHandlerFilePatterns(outcome.handlerName)).None?
    ensures outcome.Failed? ==>
              && editorOpen && word.Some? && EndsWith(word.value, "Command")
              && ProbedFile(ws, LegacyHandlerFilePatterns(HandlerCommand.HandlerNameFor(word.value))) == Some(outcome.path)
              && ws.read(outcome.path).None?
  {
    if !editorOpen {
      return NoEditor;
    }
    if word.None? {
      return NoWordMessage;
    }
    if !EndsWith(word.value, "Command") {
      return NotCommandMessage;
    }
    var handlerName := word.value + "Handler";
    var handlerFile := FindHandlerFile(ws, LegacyHandlerFilePatterns(handlerName));
    if handlerFile.None? {
      return HandlerNotFound(handlerName);
    }
    var doc := ws.read(handlerFile.value);
    if doc.None? {
      return Failed(handlerFile.value);
    }
    var selection := JumpToClassDefinition(doc.value, handlerName, shownAt);
    return Opened(handlerFile.value, selection);
  }
}
