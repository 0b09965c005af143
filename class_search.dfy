/**
 * The two ways the finders locate a class: the workspace symbol provider's
 * `find(kind && name ===)`, and the first match of `class\s+<name>\b` in a
 * document. src/services/providerFinder.ts escapes the name before building
 * the pattern, so its search is literal (`FindClassInDocument`);
 * src/services/handlerFinder.ts and src/extension.ts put the name in
 * unescaped, where a `$` is the end-of-input anchor (`UnescapedClassInDocument`).
 */
module ClassSearch {
  import opened Wrappers
  import opened Text
  import opened Workspaces

  // ----- symbol lookups -----

  predicate IsSymbol(s: SymbolInfo, kind: SymbolKind, name: string) {
    s.kind == kind && s.name == name
  }

  /** `symbols.find(s => s.kind === kind && s.name === name)` from index `from`, as an index. */
  function FirstSymbolIndex(symbols: seq<SymbolInfo>, kind: SymbolKind, name: string, from: nat): (r: Option<nat>)
    ensures r.Some? ==> from <= r.value < |symbols| && IsSymbol(symbols[r.value], kind, name)
    ensures forall j | from <= j < |symbols| && (r.None? || j < r.value) :: !IsSymbol(symbols[j], kind, name)
    decreases |symbols| - from
  {
    if from >= |symbols| then None
    else if IsSymbol(symbols[from], kind, name) then Some(from)
    else FirstSymbolIndex(symbols, kind, name, from + 1)
  }

  /** The location of the first symbol of the kind with exactly the name, if any. */
  function SymbolLocation(symbols: seq<SymbolInfo>, kind: SymbolKind, name: string): (r: Option<Location>)
    ensures r.Some? <==> exists k | 0 <= k < |symbols| :: IsSymbol(symbols[k], kind, name)
    ensures r.Some? ==> exists k | 0 <= k < |symbols| ::
              && IsSymbol(symbols[k], kind, name) && r.value == symbols[k].location
              && forall j | 0 <= j < k :: !IsSymbol(symbols[j], kind, name)
  {
    match FirstSymbolIndex(symbols, kind, name, 0)
    case None => None
    case Some(k) => Some(symbols[k].location)
  }

  /**
   * The class symbol search of `findBySymbol` and `findClassDefinition`: the
   * provider is asked for `className` and its first answer of kind Class
   * whose name is exactly `className` gives the location.
   */
  function ClassSymbol(ws: Workspace, className: string): (r: Option<Location>)
    ensures r.Some? ==> exists s | s in ws.symbols(className) :: IsSymbol(s, Class, className) && s.location == r.value
    ensures r.None? ==> forall s | s in ws.symbols(className) :: !IsSymbol(s, Class, className)
  {
    SymbolLocation(ws.symbols(className), Class, className)
  }

  // ----- `class\s+<name>\b` -----

  /** `\b` at `q`: exactly one of the characters on either side of `q` is a word character. */
  predicate WordBoundary(text: string, q: nat)
    requires q <= |text|
  {
    (q > 0 && IsWordChar(text[q - 1])) != (q < |text| && IsWordChar(text[q]))
  }

  /** `name` occurs at `k` and a word boundary follows it. */
  predicate NameEndsWordAt(text: string, name: string, k: nat) {
    OccursAt(text, name, k) && WordBoundary(text, k + |name|)
  }

  /**
   * `class\s+<name>\b` matches at `p`: `class`, then at least one space, then
   * the name and a word boundary. The greedy `\s+` may give spaces back, so
   * the name may start anywhere after the first space and up to the end of
   * the run of spaces.
   */
  predicate ClassNamedAt(text: string, p: nat, name: string) {
    && OccursAt(text, "class", p)
    && var e := SpacesEnd(text, p + 5);
       exists k | p + 5 < k <= e :: NameEndsWordAt(text, name, k)
  }

  /** The leftmost match at or after `from`, as `exec` with a global regex from `lastIndex == from` finds it. */
  function NextClassNamed(text: string, from: nat, name: string): (r: Option<nat>)
    ensures r.Some? ==> from <= r.value && ClassNamedAt(text, r.value, name)
    ensures forall i | from <= i && (r.None? || i < r.value) :: !ClassNamedAt(text, i, name)
    decreases |text| - from
  {
    if from + 5 > |text| then None
    else if ClassNamedAt(text, from, name) then Some(from)
    else NextClassNamed(text, from + 1, name)
  }

  /** providerFinder's `findClassInDocument`, the name escaped: the offset of the first `class\s+<name>\b`. */
  function FindClassInDocument(path: string, text: string, className: string): (r: Option<Location>)
    ensures r.Some? ==> r.value.path == path && ClassNamedAt(text, r.value.offset, className)
    ensures r.Some? ==> forall i: nat | i < r.value.offset :: !ClassNamedAt(text, i, className)
    ensures r.None? ==> forall i: nat :: !ClassNamedAt(text, i, className)
  {
    match NextClassNamed(text, 0, className)
    case None => None
    case Some(p) => Some(Location(path, p))
  }

  /** The name up to its first `$`, or all of it when it has none. */
  function DollarBase(name: string): (b: string)
    ensures |b| <= |name| && b == name[..|b|] && '$' !in b
    ensures |b| < |name| ==> name[|b|] == '$'
  {
    if name == [] || name[0] == '$' then [] else [name[0]] + DollarBase(name[1..])
  }

  /** A pattern character put in unescaped: `.` stands for any character but a line terminator. */
  predicate CharMatches(pc: char, c: char) {
    if pc == '.' then !IsLineTerminator(c) else pc == c
  }

  /** The unescaped `pat` matches the text from `k` on, character by character. */
  predicate PatternAt(text: string, pat: string, k: nat) {
    k + |pat| <= |text| && forall j | 0 <= j < |pat| :: CharMatches(pat[j], text[k + j])
  }

  /** ... and a word boundary follows it. */
  predicate PatternEndsWordAt(text: string, pat: string, k: nat) {
    PatternAt(text, pat, k) && WordBoundary(text, k + |pat|)
  }

  /** `class\s+<pat>\b` with `pat` unescaped and holding no `$`, as `ClassNamedAt` for the literal name. */
  predicate PatternClassAt(text: string, p: nat, pat: string) {
    && OccursAt(text, "class", p)
    && var e := SpacesEnd(text, p + 5);
       exists k | p + 5 < k <= e :: PatternEndsWordAt(text, pat, k)
  }

  /**
   * `class\s+<base>$\b` with no `m` flag: `$` only matches at the end of the
   * input, so the base must end the text, and the `\b` then needs a word
   * character as the text's last character.
   */
  predicate EndAnchoredClassAt(text: string, p: nat, base: string) {
    && OccursAt(text, "class", p)
    && var e := SpacesEnd(text, p + 5);
       exists k | p + 5 < k <= e :: PatternEndsWordAt(text, base, k) && k + |base| == |text|
  }

  /**
   * `class\s+${name}\b` with the name put in unescaped matches at `p`. The
   * name is the word under the cursor plus a suffix: letters, digits, `_`
   * and `$` as in an identifier, and `-` and `.` from the editor's pattern
   * for numbers such as `1.5`. Of these only `.` and `$` are
   * regular-expression metacharacters. A `.` matches any character but a
   * line terminator. The first `$` anchors the end of the input: any `$`s
   * after it match there too, but any other character after it can never
   * match.
   */
  predicate UnescapedClassAt(text: string, p: nat, name: string) {
    var base := DollarBase(name);
    if |base| == |name| then PatternClassAt(text, p, name)
    else (forall j | |base| <= j < |name| :: name[j] == '$') && EndAnchoredClassAt(text, p, base)
  }

  /** The leftmost `p` at or after `from` where the unescaped pattern matches, as `exec` finds it. */
  function NextUnescapedClass(text: string, from: nat, name: string): (r: Option<nat>)
    ensures r.Some? ==> from <= r.value && UnescapedClassAt(text, r.value, name)
    ensures forall i | from <= i && (r.None? || i < r.value) :: !UnescapedClassAt(text, i, name)
    decreases |text| - from
  {
    if from + 5 > |text| then None
    else if UnescapedClassAt(text, from, name) then Some(from)
    else NextUnescapedClass(text, from + 1, name)
  }

  /**
   * handlerFinder's `findClassInDocument`, with `className` put into
   * `class\s+${className}\b` unescaped: the first match, or nothing.
   */
  function UnescapedClassInDocument(path: string, text: string, className: string): (r: Option<Location>)
    ensures r.Some? ==> && r.value.path == path && UnescapedClassAt(text, r.value.offset, className)
                        && forall i: nat | i < r.value.offset :: !UnescapedClassAt(text, i, className)
    ensures r.None? <==> forall i: nat :: !UnescapedClassAt(text, i, className)
  {
    match NextUnescapedClass(text, 0, className)
    case None => None
    case Some(p) => Some(Location(path, p))
  }

  /** Without a `.` the unescaped pattern is the literal text. */
  lemma PatternWithoutDotIsLiteral(text: string, pat: string, k: nat)
    requires '.' !in pat
    ensures PatternAt(text, pat, k) <==> OccursAt(text, pat, k)
  {
    if k + |pat| <= |text| {
      if PatternAt(text, pat, k) {
        forall j | 0 <= j < |pat|
          ensures text[k..k + |pat|][j] == pat[j]
        {
          assert pat[j] != '.';
        }
        assert text[k..k + |pat|] == pat;
      }
      if OccursAt(text, pat, k) {
        forall j | 0 <= j < |pat|
          ensures CharMatches(pat[j], text[k + j])
        {
          assert text[k..k + |pat|][j] == pat[j];
        }
      }
    }
  }

  /** Without a `$` or a `.` in the name, the unescaped search is the literal one. */
  lemma UnescapedSearchIsLiteralWithoutDollar(path: string, text: string, className: string)
    requires '$' !in className && '.' !in className
    ensures UnescapedClassInDocument(path, text, className) == FindClassInDocument(path, text, className)
  {
    forall i: nat
      ensures UnescapedClassAt(text, i, className) == ClassNamedAt(text, i, className)
    {
      UnescapedIsNamedWithoutMeta(text, i, className);
    }
    SameMatchesSameSearch(path, text, className);
  }

  lemma UnescapedIsNamedWithoutMeta(text: string, p: nat, name: string)
    requires '$' !in name && '.' !in name
    ensures UnescapedClassAt(text, p, name) == ClassNamedAt(text, p, name)
  {
    DollarFreeBase(name);
    forall k: nat
      ensures PatternEndsWordAt(text, name, k) <==> NameEndsWordAt(text, name, k)
    {
      PatternWithoutDotIsLiteral(text, name, k);
    }
  }

  /** Two searches for the leftmost match of the same places agree. */
  lemma SameMatchesSameSearch(path: string, text: string, name: string)
    requires forall i: nat :: UnescapedClassAt(text, i, name) == ClassNamedAt(text, i, name)
    ensures UnescapedClassInDocument(path, text, name) == FindClassInDocument(path, text, name)
  {
    var a := NextUnescapedClass(text, 0, name);
    var b := NextClassNamed(text, 0, name);
    if a.Some? {
      assert ClassNamedAt(text, a.value, name);
    }
    if b.Some? {
      assert UnescapedClassAt(text, b.value, name);
    }
    assert a == b;
  }

  /** A `.` in the name matches another character: `1.5H` finds `class 1x5H`. */
  lemma DotMatchesAnyCharacter(path: string)
    ensures UnescapedClassInDocument(path, "class 1x5H {}", "1.5H") == Some(Location(path, 0))
  {
    DottedNameAtStart("class 1x5H {}", "1.5H");
    FoundAtStart(path, "class 1x5H {}", "1.5H");
  }

  /** A match at offset 0 is the one found. */
  lemma FoundAtStart(path: string, text: string, name: string)
    requires UnescapedClassAt(text, 0, name)
    ensures UnescapedClassInDocument(path, text, name) == Some(Location(path, 0))
  {
  }

  lemma DottedNameAtStart(text: string, name: string)
    requires text == "class 1x5H {}" && name == "1.5H"
    ensures UnescapedClassAt(text, 0, name)
  {
    DollarFreeBase(name);
    OneSpaceAfterClass(text);
    DottedNameMatches(text, name);
    PatternClassFrom(text, 0, name, 6);
  }

  lemma OneSpaceAfterClass(text: string)
    requires text == "class 1x5H {}"
    ensures OccursAt(text, "class", 0) && SpacesEnd(text, 5) == 6
  {
    assert text[..5] == "class";
    assert IsSpace(text[5]) && !IsSpace(text[6]);
  }

  lemma DottedNameMatches(text: string, name: string)
    requires text == "class 1x5H {}" && name == "1.5H"
    ensures PatternEndsWordAt(text, name, 6)
  {
    assert text[6..10] == "1x5H";
    PatternWithOneDot(text, "1", "5H", 'x', 6);
    assert "1" + "." + "5H" == name;
    assert text[9] == 'H' && text[10] == ' ';
  }

  /** A name without `$` found after `class` and its spaces is a match of the unescaped pattern. */
  lemma PatternClassFrom(text: string, p: nat, name: string, k: nat)
    requires DollarBase(name) == name && OccursAt(text, "class", p)
    requires p + 5 < k <= SpacesEnd(text, p + 5) && PatternEndsWordAt(text, name, k)
    ensures UnescapedClassAt(text, p, name)
  {
  }

  /** `a.b` matches the text `a`, any character but a line terminator, then `b`. */
  lemma PatternWithOneDot(text: string, a: string, b: string, c: char, k: nat)
    requires '.' !in a && '.' !in b && !IsLineTerminator(c) && OccursAt(text, a + [c] + b, k)
    ensures PatternAt(text, a + "." + b, k)
  {
    var pat := a + "." + b;
    var seen := a + [c] + b;
    forall j | 0 <= j < |pat|
      ensures CharMatches(pat[j], text[k + j])
    {
      assert text[k + j] == text[k..k + |seen|][j] == seen[j];
      if j < |a| {
        assert pat[j] == a[j] == seen[j];
      } else if j > |a| {
        assert pat[j] == b[j - |a| - 1] == seen[j];
      }
    }
  }

  /** A name without `$` is its own base. */
  lemma {:induction false} DollarFreeBase(name: string)
    requires '$' !in name
    ensures DollarBase(name) == name
  {
    if name != [] {
      assert name[1..] == name[1..];
      assert forall c | c in name[1..] :: c in name;
      DollarFreeBase(name[1..]);
      assert [name[0]] + name[1..] == name;
    }
  }

  /** A `$` followed anywhere later by another character: the unescaped search never finds anything. */
  lemma DollarBeforeOtherCharNeverMatches(path: string, text: string, className: string, i: nat, j: nat)
    requires i < j < |className| && className[i] == '$' && className[j] != '$'
    ensures UnescapedClassInDocument(path, text, className).None?
  {
    var b := DollarBase(className);
    assert !(forall k | |b| <= k < |className| :: className[k] == '$');
    assert forall p: nat :: !UnescapedClassAt(text, p, className);
  }

  /** A trailing `$` is the end anchor: `Foo$` finds `class Foo` at the end of the text ... */
  lemma TrailingDollarAnchorsAtEnd(path: string)
    ensures UnescapedClassInDocument(path, "class Foo", "Foo$") == Some(Location(path, 0))
  {
    var text := "class Foo";
    assert DollarBase("Foo$") == "Foo" by {
      assert DollarBase("$") == [];
      assert "Foo$"[1..] == "oo$" && "oo$"[1..] == "o$" && "o$"[1..] == "$";
    }
    assert SpacesEnd(text, 5) == 6 by {
      assert IsSpace(text[5]) && !IsSpace(text[6]);
    }
    assert text[6..9] == "Foo";
    PatternWithoutDotIsLiteral(text, "Foo", 6);
    assert PatternEndsWordAt(text, "Foo", 6);
    assert UnescapedClassAt(text, 0, "Foo$");
  }

  /** ... and never matches a literal `Foo$`. */
  lemma TrailingDollarIsNoLiteral(path: string)
    ensures UnescapedClassInDocument(path, "class Foo$x", "Foo$").None?
  {
    var text := "class Foo$x";
    assert DollarBase("Foo$") == "Foo" by {
      assert DollarBase("$") == [];
      assert "Foo$"[1..] == "oo$" && "oo$"[1..] == "o$" && "o$"[1..] == "$";
    }
    forall p: nat
      ensures !UnescapedClassAt(text, p, "Foo$")
    {
      if OccursAt(text, "class", p) {
        assert SpacesEnd(text, 5) == 6 by {
          assert IsSpace(text[5]) && !IsSpace(text[6]);
        }
      }
    }
  }

  /**
   * A written-out declaration is found: in `pre + "class" + gap + name + post`,
   * with a non-empty run of spaces as `gap`, a name ending in a word character
   * and `post` not continuing the word, the search reports an offset no later
   * than the declaration's.
   */
  lemma ClassDeclarationIsFound(pre: string, gap: string, name: string, post: string)
    requires gap != [] && forall i | 0 <= i < |gap| :: IsSpace(gap[i])
    requires name != [] && !IsSpace(name[0]) && IsWordChar(name[|name| - 1])
    requires post == [] || !IsWordChar(post[0])
    ensures var text := pre + "class" + gap + name + post;
      NextClassNamed(text, 0, name).Some? && NextClassNamed(text, 0, name).value <= |pre|
  {
    ClassDeclarationInText(pre + "class" + gap + name + post, pre, gap, name, post);
  }

  /** The same declaration, with the text as a variable. */
  lemma ClassDeclarationInText(text: string, pre: string, gap: string, name: string, post: string)
    requires text == pre + "class" + gap + name + post
    requires gap != [] && forall i | 0 <= i < |gap| :: IsSpace(gap[i])
    requires name != [] && !IsSpace(name[0]) && IsWordChar(name[|name| - 1])
    requires post == [] || !IsWordChar(post[0])
    ensures NextClassNamed(text, 0, name).Some? && NextClassNamed(text, 0, name).value <= |pre|
  {
    var p := |pre|;
    var k := p + 5 + |gap|;
    DeclarationParts(pre, gap, name, post);
    SliceOfSpaces(text, p + 5, k);
    assert k + |name| == |text| || !IsWordChar(text[k + |name|]) by {
      if post != [] {
        assert text[k + |name|] == text[k + |name|..][0];
      }
    }
    ClassDeclarationAt(text, p, k, name);
  }

  /** A slice made of spaces has a space at each of its indices. */
  lemma SliceOfSpaces(text: string, a: nat, b: nat)
    requires a <= b <= |text| && forall i | 0 <= i < b - a :: IsSpace(text[a..b][i])
    ensures forall i | a <= i < b :: IsSpace(text[i])
  {
    forall i | a <= i < b
      ensures IsSpace(text[i])
    {
      assert text[i] == text[a..b][i - a];
    }
  }

  /** `class`, spaces up to `k`, then the name ending a word: a match at `p`, so the first one is no later. */
  lemma ClassDeclarationAt(text: string, p: nat, k: nat, name: string)
    requires OccursAt(text, "class", p) && p + 5 < k && k + |name| <= |text|
    requires forall i | p + 5 <= i < k :: IsSpace(text[i])
    requires text[k..k + |name|] == name && name != [] && !IsSpace(name[0]) && IsWordChar(name[|name| - 1])
    requires k + |name| == |text| || !IsWordChar(text[k + |name|])
    ensures NextClassNamed(text, 0, name).Some? && NextClassNamed(text, 0, name).value <= p
  {
    assert SpacesEnd(text, p + 5) == k by {
      assert text[k] == text[k..k + |name|][0];
      SpacesEndStopsAt(text, p + 5, k);
    }
    assert WordBoundary(text, k + |name|) by {
      assert text[k + |name| - 1] == text[k..k + |name|][|name| - 1];
    }
    ClassNamedAtFromParts(text, p, k, name);
  }

  /** Where each part of the written-out declaration sits in the text. */
  lemma DeclarationParts(pre: string, gap: string, name: string, post: string)
    ensures var text := pre + "class" + gap + name + post;
      var k := |pre| + 5 + |gap|;
      && |text| == k + |name| + |post|
      && text[|pre|..|pre| + 5] == "class" && text[|pre| + 5..k] == gap
      && text[k..k + |name|] == name && text[k + |name|..] == post
  {
    var a := pre + "class";
    var b := a + gap;
    var c := b + name;
    var text := c + post;
    assert text[..|c|] == c && c[..|b|] == b && b[..|a|] == a;
  }

  lemma ClassNamedAtFromParts(text: string, p: nat, k: nat, name: string)
    requires OccursAt(text, "class", p) && p + 5 < k && SpacesEnd(text, p + 5) == k
    requires NameEndsWordAt(text, name, k)
    ensures ClassNamedAt(text, p, name)
  {
  }
}
