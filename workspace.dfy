/**
 * The editor's workspace as the finders see it: file enumeration by glob,
 * document text, and the workspace symbol provider. None of these is
 * implemented here; they are inputs, and the model fixes only the order in
 * which the finders consult them and what they do with the answers.
 */
module Workspaces {
  import opened Wrappers

  /** `vscode.SymbolKind`, reduced to the two kinds the finders test for. */
  datatype SymbolKind = Class | Interface | OtherKind

  /** A position in a file, as an offset into its text (`document.positionAt` is left out). */
  datatype Location = Location(path: string, offset: nat)

  /** One answer of `vscode.executeWorkspaceSymbolProvider`. */
  datatype SymbolInfo = SymbolInfo(name: string, kind: SymbolKind, location: Location)

  datatype Workspace = Workspace(
    /** `workspace.findFiles(pattern, exclude)` without a cap: the matching paths, in enumeration order. */
    findFiles: (string, string) -> seq<string>,
    /** `openTextDocument(path).getText()`; `None` when opening the document throws. */
    read: string -> Option<string>,
    /** The workspace symbol provider's answers to a query, in its order. */
    symbols: string -> seq<SymbolInfo>)

  /** `workspace.findFiles(pattern, exclude, maxResults)`: the enumeration cut to `maxResults`. */
  function FindFiles(ws: Workspace, pattern: string, exclude: string, maxResults: nat): (r: seq<string>)
    ensures |r| <= maxResults
    ensures r <= ws.findFiles(pattern, exclude)
    ensures |r| == maxResults || r == ws.findFiles(pattern, exclude)
  {
    var all := ws.findFiles(pattern, exclude);
    if |all| <= maxResults then all else all[..maxResults]
  }

  /** All files of every pattern in pattern order, each pattern's list cut to `maxResults`. */
  function AllMatches(ws: Workspace, patterns: seq<string>, exclude: string, maxResults: nat): seq<string>
  {
    if patterns == [] then []
    else AllMatches(ws, patterns[..|patterns| - 1], exclude, maxResults)
         + FindFiles(ws, patterns[|patterns| - 1], exclude, maxResults)
  }

  /**
   * The loop `for (const pattern of patterns) allFiles.push(...await findFiles(pattern, exclude, max))`
   * shared by the step-file and decorator searches.
   */
  method CollectFiles(ws: Workspace, patterns: seq<string>, exclude: string, maxResults: nat)
    returns (allFiles: seq<string>)
    ensures allFiles == AllMatches(ws, patterns, exclude, maxResults)
    ensures forall k | 0 <= k < |patterns| :: forall f | f in FindFiles(ws, patterns[k], exclude, maxResults) :: f in allFiles
  {
    allFiles := [];
    for k := 0 to |patterns|
      invariant allFiles == AllMatches(ws, patterns[..k], exclude, maxResults)
      invariant forall m | 0 <= m < k :: forall f | f in FindFiles(ws, patterns[m], exclude, maxResults) :: f in allFiles
    {
      assert patterns[..k + 1][..k] == patterns[..k];
      allFiles := allFiles + FindFiles(ws, patterns[k], exclude, maxResults);
    }
    assert patterns[..|patterns|] == patterns;
  }

  predicate NoDuplicates(xs: seq<string>) {
    forall i, j | 0 <= i < j < |xs| :: xs[i] != xs[j]
  }

  /**
   * `Array.from(new Set(paths))`: every path once, at the place where it was
   * first seen (a `Set` keeps insertion order and ignores repeated insertions).
   */
  function Dedup(paths: seq<string>): (r: seq<string>)
    ensures NoDuplicates(r)
    ensures forall p :: p in r <==> p in paths
  {
    if paths == [] then []
    else
      var d := Dedup(paths[..|paths| - 1]);
      var last := paths[|paths| - 1];
      assert paths == paths[..|paths| - 1] + [last];
      if last in d then d else d + [last]
  }

  /** First-seen order: de-duplicating a prefix gives a prefix of the whole result. */
  lemma {:induction false} DedupPrefix(paths: seq<string>, k: nat)
    requires k <= |paths|
    ensures Dedup(paths[..k]) <= Dedup(paths)
    decreases |paths| - k
  {
    if k < |paths| {
      DedupPrefix(paths, k + 1);
      var q := paths[..k + 1];
      assert q[..|q| - 1] == paths[..k];
      assert Dedup(paths[..k]) <= Dedup(q);
    } else {
      assert paths[..k] == paths;
    }
  }

  /** A path found by several patterns is kept once, at its first position. */
  lemma {:induction false} DedupKeepsFirst(paths: seq<string>, i: nat)
    requires i < |paths| && paths[i] !in paths[..i]
    ensures Dedup(paths[..i + 1]) == Dedup(paths[..i]) + [paths[i]]
    ensures paths[i] in Dedup(paths) && paths[i] !in Dedup(paths[..i])
  {
    var q := paths[..i + 1];
    assert q[..|q| - 1] == paths[..i];
    DedupPrefix(paths, i + 1);
  }

  /**
   * What looking at one candidate file gives a search loop: a location (the
   * loop returns it), nothing (the loop goes on with the next file), or an
   * error that ends the whole search with nothing.
   */
  datatype FileOutcome = Hit(location: Location) | Miss | Abort

  /**
   * `for (const file of files) { ... }` with early returns: the first file, in
   * order, whose outcome is not a miss decides the answer.
   */
  function FirstDecisive(files: seq<string>, from: nat, outcome: string -> FileOutcome): (r: Option<Location>)
    ensures r.Some? ==> exists k | from <= k < |files| ::
              outcome(files[k]) == Hit(r.value) && forall j | from <= j < k :: outcome(files[j]) == Miss
    ensures r.None? ==> forall k | from <= k < |files| && outcome(files[k]).Hit? ::
              exists j | from <= j < k :: outcome(files[j]) == Abort
    decreases |files| - from
  {
    if from >= |files| then None
    else
      match outcome(files[from])
      case Hit(l) => Some(l)
      case Abort => None
      case Miss => FirstDecisive(files, from + 1, outcome)
  }
}
