/**
 * The provider search of src/services/providerFinder.ts: a `{ provide:
 * TOKEN, useClass: X }` mapping in a module file, resolved through the
 * symbol provider, then a class that `implements` the token when the token
 * is an interface. Both patterns are built from `escapeRegex(token)`, which
 * matches the token literally (`RegexEscape.UnescapeEscape`), so the model
 * looks for the token itself.
 */
module ProviderFinder {
  import opened Wrappers
  import opened Text
  import opened Workspaces
  import opened ClassSearch

  const ProviderExclude := "{**/node_modules/**,**/dist/**,**/out/**}"

  // ----- `\{[^}]*provide:\s*TOKEN[^}]*useClass:\s*(\w+)[^}]*\}` -----

  /**
   * `useClass:\s*(\w+)` at `u`: the class after the spaces. Giving back a
   * space from `\s*` never helps, since `\w+` would then start on a space.
   */
  function UseClassAt(text: string, u: nat): (r: Option<string>)
    ensures r.Some? ==> OccursAt(text, "useClass:", u) && r.value != [] && AllWordChars(r.value)
  {
    if OccursAt(text, "useClass:", u) then
      var w := SkipWhile(text, u + 9, IsSpace);
      var e := SkipWhile(text, w, IsWordChar);
      if e > w then Some(text[w..e]) else None
    else None
  }

  /** The last `u` in `[lo, hi)` with a class after `useClass:`. */
  function LastUseClass(text: string, lo: nat, hi: nat): (r: Option<nat>)
    ensures r.Some? ==> lo <= r.value < hi && UseClassAt(text, r.value).Some?
    ensures forall u | lo <= u < hi && (r.None? || r.value < u) :: UseClassAt(text, u).None?
    decreases hi
  {
    if hi <= lo then None
    else if UseClassAt(text, hi - 1).Some? then Some(hi - 1)
    else LastUseClass(text, lo, hi - 1)
  }

  /**
   * `provide:\s*TOKEN` at `q`, the token ending no later than `limit`; the
   * token may start anywhere in the run of spaces, as `\s*` gives spaces back.
   */
  predicate ProvideAt(text: string, q: nat, token: string, limit: nat) {
    && OccursAt(text, "provide:", q)
    && var s := SkipWhile(text, q + 8, IsSpace);
       exists j | q + 8 <= j <= s :: OccursAt(text, token, j) && j + |token| <= limit
  }

  /**
   * `[^}]*useClass:\s*(\w+)[^}]*\}` matched from `t`, where the token ends:
   * the `useClass:` whose class is captured. Neither `[^}]*` can pass a `}`,
   * so the match ends at the first `}` from `t`; the greedy `[^}]*` before
   * `useClass:` tries the longest stretch first, so it is the last
   * `useClass:` with a class before that brace.
   */
  function UseClassAfter(text: string, t: nat): (r: Option<nat>)
    ensures r.Some? ==>
      && IndexOfFrom(text, "}", t).Some?
      && t <= r.value < IndexOfFrom(text, "}", t).value
      && UseClassAt(text, r.value).Some?
  {
    match IndexOfFrom(text, "}", t)
    case None => None
    case Some(e) => LastUseClass(text, t, e)
  }

  /** The token at `k`, and after it the rest of the pattern up to a `}`. */
  predicate TokenThenClassAt(text: string, token: string, k: nat) {
    OccursAt(text, token, k) && UseClassAfter(text, k + |token|).Some?
  }

  /**
   * The last index in `[lo, hi)` that `ok` accepts: where a greedy
   * quantifier that gives back one character at a time settles.
   */
  function LastWhere(lo: nat, hi: nat, ok: nat -> bool): (r: Option<nat>)
    ensures r.Some? ==> lo <= r.value < hi && ok(r.value)
    ensures forall j | lo <= j < hi && (r.None? || r.value < j) :: !ok(j)
    decreases hi
  {
    if hi <= lo then None
    else if ok(hi - 1) then Some(hi - 1)
    else LastWhere(lo, hi - 1, ok)
  }

  /** An accepted index with none accepted after it is the one `LastWhere` finds. */
  lemma {:induction false} LastWhereIs(lo: nat, hi: nat, ok: nat -> bool, q: nat)
    requires lo <= q < hi && ok(q)
    requires forall v | q < v < hi :: !ok(v)
    ensures LastWhere(lo, hi, ok).Some? && LastWhere(lo, hi, ok).value == q
    decreases hi
  {
    if hi - 1 > q {
      LastWhereIs(lo, hi - 1, ok, q);
    }
  }

  /** The token starts at `j` and the rest of the pattern matches after it. */
  function TokenThere(text: string, token: string): nat -> bool {
    (j: nat) => TokenThenClassAt(text, token, j)
  }

  /**
   * `\s*TOKEN` and the rest of the pattern from `k`: where the token starts.
   * The greedy `\s*` first takes every space from `k` on and gives them back
   * one at a time, so the start that wins is the last one in the run of
   * spaces after which the rest matches.
   */
  function TokenFrom(text: string, token: string, k: nat): (r: Option<nat>)
    requires k <= |text|
    ensures r.Some? ==> k <= r.value <= SkipWhile(text, k, IsSpace) && TokenThenClassAt(text, token, r.value)
    ensures forall j | k <= j <= SkipWhile(text, k, IsSpace) && (r.None? || r.value < j) :: !TokenThenClassAt(text, token, j)
  {
    var r := LastWhere(k, SkipWhile(text, k, IsSpace) + 1, TokenThere(text, token));
    forall j | k <= j <= SkipWhile(text, k, IsSpace) && (r.None? || r.value < j)
      ensures !TokenThenClassAt(text, token, j)
    {
      assert !TokenThere(text, token)(j);
    }
    r
  }

  /**
   * The `useClass:` captured by `provide:\s*TOKEN` and the rest of the
   * pattern at `q`.
   */
  function ProvideUseClass(text: string, q: nat, token: string): (r: Option<nat>)
    ensures r.Some? ==> OccursAt(text, "provide:", q) && q + 8 <= r.value && UseClassAt(text, r.value).Some?
  {
    if OccursAt(text, "provide:", q) then
      match TokenFrom(text, token, q + 8)
      case None => None
      case Some(k) => UseClassAfter(text, k + |token|)
    else None
  }

  /** A `provide:` of the token that leads to a capture starts at `q`. */
  function ProvideThere(text: string, token: string): nat -> bool {
    (q: nat) => ProvideUseClass(text, q, token).Some?
  }

  /** The last `q` in `[lo, hi)` where a `provide:` of the token leads to a capture: the greedy first `[^}]*`. */
  function LastProvide(text: string, token: string, lo: nat, hi: nat): (r: Option<nat>)
    ensures r.Some? ==> lo <= r.value < hi && ProvideUseClass(text, r.value, token).Some?
    ensures forall q | lo <= q < hi && (r.None? || r.value < q) :: ProvideUseClass(text, q, token).None?
  {
    var r := LastWhere(lo, hi, ProvideThere(text, token));
    forall q | lo <= q < hi && (r.None? || r.value < q)
      ensures ProvideUseClass(text, q, token).None?
    {
      assert !ProvideThere(text, token)(q);
    }
    r
  }

  /**
   * The `useClass:` a match starting at the brace at `p` captures. The
   * `[^}]*` before `provide:` cannot pass the first `}` after `p`. The token
   * is matched literally and may itself hold a `}`; the rest of the match
   * then ends at the first `}` after the token.
   */
  function MatchedUseClass(text: string, p: nat, token: string): (r: Option<nat>)
    ensures r.Some? ==>
      && p < |text| && text[p] == '{' && IndexOfFrom(text, "}", p + 1).Some?
      && exists q | p < q < IndexOfFrom(text, "}", p + 1).value :: ProvideUseClass(text, q, token) == r
  {
    if p < |text| && text[p] == '{' then
      match IndexOfFrom(text, "}", p + 1)
      case None => None
      case Some(e) =>
        match LastProvide(text, token, p + 1, e)
        case None => None
        case Some(q) => ProvideUseClass(text, q, token)
    else None
  }

  /** The class a match starting at `p` captures. */
  function MappingAt(text: string, p: nat, token: string): (r: Option<string>)
    ensures r.Some? ==> r.value != [] && AllWordChars(r.value)
    ensures r.Some? <==> MatchedUseClass(text, p, token).Some?
  {
    match MatchedUseClass(text, p, token)
    case None => None
    case Some(u) => UseClassAt(text, u)
  }

  /** The capture is the class after the `useClass:` the match ends with. */
  lemma MappingAtIs(text: string, p: nat, token: string, u: nat)
    requires MatchedUseClass(text, p, token).Some? && MatchedUseClass(text, p, token).value == u
    ensures MappingAt(text, p, token) == UseClassAt(text, u)
  {
  }

  /** The leftmost brace at or after `from` where a mapping matches. */
  function NextMapping(text: string, from: nat, token: string): (r: Option<nat>)
    ensures r.Some? ==> from <= r.value && MappingAt(text, r.value, token).Some?
    decreases |text| - from
  {
    if from >= |text| then None
    else if MappingAt(text, from, token).Some? then Some(from)
    else NextMapping(text, from + 1, token)
  }

  /** No mapping matches between `from` and the one `NextMapping` returns. */
  lemma {:induction false} NextMappingIsLeftmost(text: string, from: nat, token: string)
    ensures forall p | from <= p && (NextMapping(text, from, token).None? || p < NextMapping(text, from, token).value) ::
              MappingAt(text, p, token).None?
    decreases |text| - from
  {
    var r := NextMapping(text, from, token);
    if from >= |text| {
      forall p | from <= p ensures MappingAt(text, p, token).None? {
        assert !(p < |text|);
      }
    } else if MappingAt(text, from, token).None? {
      NextMappingIsLeftmost(text, from + 1, token);
      assert r == NextMapping(text, from + 1, token);
      forall p | from <= p && (r.None? || p < r.value) ensures MappingAt(text, p, token).None? {
        if p != from {
          assert from + 1 <= p;
        }
      }
    }
  }

  /** `providePattern.exec(text)[1]`: the implementation class of the first mapping of the token. */
  function FirstMapping(text: string, token: string): (r: Option<string>)
    ensures r.Some? ==> r.value != [] && AllWordChars(r.value)
  {
    match NextMapping(text, 0, token)
    case None => None
    case Some(p) => MappingAt(text, p, token)
  }

  /**
   * For a token without `}` the whole match lies inside the first pair of
   * braces: a `provide:` of the token, then a `useClass:` whose class is the
   * capture, both before the first `}` after `p`.
   */
  lemma BraceFreeMappingInsideBraces(text: string, p: nat, token: string)
    requires '}' !in token && MappingAt(text, p, token).Some?
    ensures var e := IndexOfFrom(text, "}", p + 1).value;
      exists q, u | p < q < u < e :: ProvideAt(text, q, token, u) && UseClassAt(text, u) == MappingAt(text, p, token)
  {
    var e, q, k, u := MappingParts(text, p, token);
    var t := k + |token|;
    TokenEndsBeforeBrace(text, p, q, SkipWhile(text, q + 8, IsSpace), k, e, token);
    FirstCharAt(text, '}', t, e);
    assert t <= u < e;
    MappingAtIs(text, p, token, u);
    ProvideBefore(text, q, token, k, u);
    assert p < q < u < e;
  }

  /** `provide:` at `q` and the token at `k` in the spaces after it, ending by `u`. */
  lemma ProvideBefore(text: string, q: nat, token: string, k: nat, u: nat)
    requires OccursAt(text, "provide:", q) && q + 8 <= k <= SkipWhile(text, q + 8, IsSpace)
    requires OccursAt(text, token, k) && k + |token| <= u
    ensures ProvideAt(text, q, token, u)
  {
  }

  /**
   * A match at `p`: the first `}` after it at `e`, the `provide:` at `q`, the
   * token at `k` and the captured `useClass:` at `u`, after the token.
   */
  lemma MappingParts(text: string, p: nat, token: string) returns (e: nat, q: nat, k: nat, u: nat)
    requires MappingAt(text, p, token).Some?
    ensures IndexOfFrom(text, "}", p + 1) == Some(e) && p < q < e
    ensures OccursAt(text, "provide:", q) && q + 8 <= k <= SkipWhile(text, q + 8, IsSpace)
    ensures OccursAt(text, token, k) && UseClassAfter(text, k + |token|).Some? && UseClassAfter(text, k + |token|).value == u
    ensures MatchedUseClass(text, p, token).Some? && MatchedUseClass(text, p, token).value == u
  {
    e, q := MappingProvidePart(text, p, token);
    u := MatchedUseClass(text, p, token).value;
    k := ProvideTokenPart(text, q, token);
  }

  /** A match at `p`: the first `}` after it at `e` and the `provide:` whose capture it is, at `q`. */
  lemma MappingProvidePart(text: string, p: nat, token: string) returns (e: nat, q: nat)
    requires MappingAt(text, p, token).Some?
    ensures IndexOfFrom(text, "}", p + 1) == Some(e) && p < q < e
    ensures ProvideUseClass(text, q, token) == MatchedUseClass(text, p, token)
  {
    e := IndexOfFrom(text, "}", p + 1).value;
    q := LastProvide(text, token, p + 1, e).value;
  }

  /** A capture at the `provide:` at `q`: the token at `k`, within the spaces after it. */
  lemma ProvideTokenPart(text: string, q: nat, token: string) returns (k: nat)
    requires ProvideUseClass(text, q, token).Some?
    ensures OccursAt(text, "provide:", q) && q + 8 <= k <= SkipWhile(text, q + 8, IsSpace)
    ensures OccursAt(text, token, k) && UseClassAfter(text, k + |token|).Some?
    ensures UseClassAfter(text, k + |token|).value == ProvideUseClass(text, q, token).value
  {
    k := TokenFrom(text, token, q + 8).value;
  }

  /** The first `}` after the brace at `p` is neither in `provide:`, in the spaces after it nor in a `}`-free token. */
  lemma TokenEndsBeforeBrace(text: string, p: nat, q: nat, s: nat, k: nat, e: nat, token: string)
    requires '}' !in token && p < q < e && IndexOfFrom(text, "}", p + 1) == Some(e)
    requires OccursAt(text, "provide:", q) && s == SkipWhile(text, q + 8, IsSpace)
    requires q + 8 <= k <= s && OccursAt(text, token, k)
    ensures k + |token| <= e < |text| && text[e] == '}'
    ensures forall j | k + |token| <= j < e :: text[j] != '}'
  {
    OccursAtChar(text, "}", e, 0);
    forall j | q <= j < q + 8
      ensures text[j] != '}'
    {
      assert text[j] == text[q..q + 8][j - q];
    }
    forall j | k <= j < k + |token|
      ensures text[j] != '}'
    {
      assert text[j] == text[k..k + |token|][j - k];
    }
    forall j | k + |token| <= j < e
      ensures text[j] != '}'
    {
      OneCharOccursAt(text, '}', j);
    }
  }

  /**
   * A mapping written out as `{ provide: TOKEN, useClass: X }` is found, and
   * its class is `X`. The token is any text without a colon that does not
   * start with a space; it may hold a `}`.
   */
  lemma MappingRoundTrip(token: string, cls: string)
    requires token != [] && !IsSpace(token[0]) && ':' !in token
    requires cls != [] && AllWordChars(cls)
    ensures FirstMapping("{ provide: " + token + ", useClass: " + cls + " }", token) == Some(cls)
  {
    FiveParts("{ provide: ", token, ", useClass: ", cls, " }");
    MappingInText("{ provide: " + token + ", useClass: " + cls + " }", token, cls);
  }

  /**
   * A `}` in the token is the first `}` after the opening brace, and the
   * match runs past it to the class, as the escaped token matches it
   * literally.
   */
  lemma MappingRunsPastBraceInToken(token: string, cls: string)
    requires token != [] && !IsSpace(token[0]) && ':' !in token && '}' in token
    requires cls != [] && AllWordChars(cls)
    ensures var text := "{ provide: " + token + ", useClass: " + cls + " }";
      && IndexOfFrom(text, "}", 1).Some? && 11 <= IndexOfFrom(text, "}", 1).value < 11 + |token|
      && FirstMapping(text, token) == Some(cls)
  {
    MappingRoundTrip(token, cls);
    BraceInToken(token, cls);
  }

  /** The first `}` after the opening brace of the mapping is one in the token. */
  lemma BraceInToken(token: string, cls: string)
    requires token != [] && !IsSpace(token[0]) && ':' !in token && '}' in token
    requires cls != [] && AllWordChars(cls)
    ensures var text := "{ provide: " + token + ", useClass: " + cls + " }";
      IndexOfFrom(text, "}", 1).Some? && 11 <= IndexOfFrom(text, "}", 1).value < 11 + |token|
  {
    var text := "{ provide: " + token + ", useClass: " + cls + " }";
    FiveParts("{ provide: ", token, ", useClass: ", cls, " }");
    MappingFirstBrace(text, token, cls);
    var j :| 0 <= j < |token| && token[j] == '}';
    assert text[11 + j] == text[11..11 + |token|][j];
    OneCharOccursAt(text, '}', 11 + j);
  }

  lemma MappingInText(text: string, token: string, cls: string)
    requires MappingLayout(text, token, cls)
    ensures MappingAt(text, 0, token) == Some(cls)
  {
    MappingFirstBrace(text, token, cls);
    MappingProvideUseClass(text, token, cls);
    NoLaterProvide(text, token, cls);
    MappingUseClass(text, token, cls);
    MappingFromFacts(text, token, IndexOfFrom(text, "}", 1).value, 13 + |token|);
  }

  /** The `provide:` at 2 leads to the `useClass:` of the mapping. */
  lemma MappingProvideUseClass(text: string, token: string, cls: string)
    requires MappingLayout(text, token, cls)
    ensures ProvideUseClass(text, 2, token).Some? && ProvideUseClass(text, 2, token).value == 13 + |token|
  {
    var t, x := |token|, |cls|;
    MappingProvide(text, token, cls);
    MappingClosingBrace(text, token, cls);
    MappingUseClass(text, token, cls);
    MappingLastUseClass(text, token, cls);
    ProvideFromFacts(text, token, 11 + t, 24 + t + x, 13 + t);
  }

  /** `provide:` at 2, one space, the token at 11, then the last `useClass:` before the closing brace at `u`. */
  lemma ProvideFromFacts(text: string, token: string, t: nat, e2: nat, u: nat)
    requires OccursAt(text, "provide:", 2) && SkipWhile(text, 10, IsSpace) == 11
    requires OccursAt(text, token, 11) && t == 11 + |token|
    requires IndexOfFrom(text, "}", t) == Some(e2) && LastUseClass(text, t, e2) == Some(u) && UseClassAt(text, u).Some?
    ensures ProvideUseClass(text, 2, token).Some? && ProvideUseClass(text, 2, token).value == u
  {
    assert UseClassAfter(text, t).Some? && UseClassAfter(text, t).value == u;
    TokenFromIs(text, token, 10, 11);
  }

  /** A match at the opening brace whose only `provide:` is the one at 2. */
  lemma MappingFromFacts(text: string, token: string, e1: nat, u: nat)
    requires 0 < |text| && text[0] == '{' && IndexOfFrom(text, "}", 1) == Some(e1) && 2 < e1
    requires ProvideUseClass(text, 2, token).Some? && ProvideUseClass(text, 2, token).value == u
    requires forall q | 2 < q :: !OccursAt(text, "provide:", q)
    ensures MappingAt(text, 0, token) == UseClassAt(text, u)
  {
    LastProvideIs(text, token, 1, e1, 2);
    MappingAtIs(text, 0, token, u);
  }

  /** The mapping `{ provide: TOKEN, useClass: X }` laid out in `text`. */
  ghost predicate MappingLayout(text: string, token: string, cls: string) {
    var t, x := |token|, |cls|;
    && token != [] && !IsSpace(token[0]) && ':' !in token && cls != [] && AllWordChars(cls)
    && |text| == 25 + t + x
    && text[..11] == "{ provide: " && text[11..11 + t] == token && text[11 + t..23 + t] == ", useClass: "
    && text[23 + t..23 + t + x] == cls && text[23 + t + x..] == " }"
  }

  /** There is a `}` after the opening brace, and the first one is not before the token. */
  lemma MappingFirstBrace(text: string, token: string, cls: string)
    requires MappingLayout(text, token, cls)
    ensures 0 < |text| && text[0] == '{'
    ensures IndexOfFrom(text, "}", 1).Some? && IndexOfFrom(text, "}", 1).value >= 11
  {
    var t, x := |token|, |cls|;
    assert text[0] == text[..11][0];
    assert text[24 + t + x] == text[23 + t + x..][1];
    OneCharOccursAt(text, '}', 24 + t + x);
    forall j | 1 <= j < 11
      ensures !OccursAt(text, "}", j)
    {
      OneCharOccursAt(text, '}', j);
      assert text[j] == text[..11][j];
    }
  }

  /** `provide:` at 2, one space, and the token right after it. */
  lemma MappingProvide(text: string, token: string, cls: string)
    requires MappingLayout(text, token, cls)
    ensures OccursAt(text, "provide:", 2) && SkipWhile(text, 10, IsSpace) == 11 && OccursAt(text, token, 11)
  {
    var t := |token|;
    assert "{ provide: "[2..10] == "provide:";
    assert text[2..10] == text[..11][2..10];
    assert text[10] == text[..11][10];
    assert text[11] == text[11..11 + t][0];
    SkipWhileStopsAt(text, 10, IsSpace, 11);
  }

  /** The one `useClass:` of the mapping is the last one between the token and the closing brace. */
  lemma MappingLastUseClass(text: string, token: string, cls: string)
    requires MappingLayout(text, token, cls)
    ensures LastUseClass(text, 11 + |token|, 24 + |token| + |cls|) == Some(13 + |token|)
  {
    MappingUseClass(text, token, cls);
    MappingColons(text, token, cls);
    LastUseClassBeforeColons(text, 11 + |token|, 24 + |token| + |cls|, 13 + |token|, 22 + |token|);
  }

  /** The first `}` after the token closes the mapping. */
  lemma MappingClosingBrace(text: string, token: string, cls: string)
    requires MappingLayout(text, token, cls)
    ensures IndexOfFrom(text, "}", 11 + |token|) == Some(24 + |token| + |cls|)
  {
    var t, x := |token|, |cls|;
    var e := 24 + t + x;
    assert '}' !in ", useClass: ";
    CharNotInSlice(text, 11 + t, 23 + t, '}');
    WordHasNo(cls, '}');
    CharNotInSlice(text, 23 + t, 23 + t + x, '}');
    assert text[e - 1] == text[23 + t + x..][0] && text[e] == text[23 + t + x..][1];
    FirstCharAt(text, '}', 11 + t, e);
  }

  /** The only colons of the mapping are those of `provide:` and `useClass:`. */
  lemma MappingColonsAt(text: string, token: string, cls: string)
    requires MappingLayout(text, token, cls)
    ensures forall j | 0 <= j < |text| && j != 9 && j != 21 + |token| :: text[j] != ':'
  {
    var t := |token|;
    assert text[..9] == text[..11][..9] && text[..11][..9] == "{ provide";
    CharNotInSlice(text, 0, 9, ':');
    assert text[10] == text[..11][10];
    CharNotInSlice(text, 11, 11 + t, ':');
    assert text[11 + t..21 + t] == text[11 + t..23 + t][..10] && ", useClass: "[..10] == ", useClass";
    CharNotInSlice(text, 11 + t, 21 + t, ':');
    MappingColons(text, token, cls);
  }

  /** No `provide:` starts after the one at 2. */
  lemma NoLaterProvide(text: string, token: string, cls: string)
    requires MappingLayout(text, token, cls)
    ensures forall q | 2 < q :: !OccursAt(text, "provide:", q)
  {
    var t := |token|;
    MappingColonsAt(text, token, cls);
    assert text[14 + t] == text[11 + t..23 + t][3];
    forall q | 2 < q
      ensures !OccursAt(text, "provide:", q)
    {
      OccursAtChar(text, "provide:", q, 7);
      OccursAtChar(text, "provide:", q, 0);
    }
  }

  /** `LastProvide` finds a `provide:` leading to a capture with none later. */
  lemma LastProvideIs(text: string, token: string, lo: nat, hi: nat, q: nat)
    requires lo <= q < hi && ProvideUseClass(text, q, token).Some?
    requires forall v | q < v < hi :: ProvideUseClass(text, v, token).None?
    ensures LastProvide(text, token, lo, hi).Some? && LastProvide(text, token, lo, hi).value == q
  {
    LastWhereIs(lo, hi, ProvideThere(text, token), q);
  }

  /** `TokenFrom` picks a start in the run of spaces after which the rest matches, with none later. */
  lemma TokenFromIs(text: string, token: string, k: nat, j: nat)
    requires k <= |text| && k <= j <= SkipWhile(text, k, IsSpace) && TokenThenClassAt(text, token, j)
    requires forall v | j < v <= SkipWhile(text, k, IsSpace) :: !TokenThenClassAt(text, token, v)
    ensures TokenFrom(text, token, k).Some? && TokenFrom(text, token, k).value == j
  {
    LastWhereIs(k, SkipWhile(text, k, IsSpace) + 1, TokenThere(text, token), j);
  }

  /** A `useClass:` with no colon from `c` on, where `c` is within its own colon, is the last one. */
  lemma LastUseClassBeforeColons(text: string, lo: nat, hi: nat, u: nat, c: nat)
    requires lo <= u < hi && c <= u + 9 && UseClassAt(text, u).Some?
    requires forall j | c <= j < |text| :: text[j] != ':'
    ensures LastUseClass(text, lo, hi) == Some(u)
  {
    NoUseClassAfter(text, c);
    LastUseClassIs(text, lo, hi, u);
  }

  /** `LastUseClass` finds a `useClass:` with a class after it and none later. */
  lemma LastUseClassIs(text: string, lo: nat, hi: nat, u: nat)
    requires lo <= u < hi && UseClassAt(text, u).Some?
    requires forall v | u < v < hi :: UseClassAt(text, v).None?
    ensures LastUseClass(text, lo, hi) == Some(u)
  {
  }

  /** No `:` follows the one of `useClass:`. */
  lemma MappingColons(text: string, token: string, cls: string)
    requires MappingLayout(text, token, cls)
    ensures forall j | 22 + |token| <= j < |text| :: text[j] != ':'
  {
    var t, x := |token|, |cls|;
    WordHasNo(cls, ':');
    CharNotInSlice(text, 23 + t, 23 + t + x, ':');
    assert text[22 + t] == text[11 + t..23 + t][11];
    assert text[23 + t + x] == text[23 + t + x..][0] && text[24 + t + x] == text[23 + t + x..][1];
  }

  /** A character missing from a slice is at none of its indices. */
  lemma CharNotInSlice(text: string, a: nat, b: nat, c: char)
    requires a <= b <= |text| && c !in text[a..b]
    ensures forall j | a <= j < b :: text[j] != c
  {
    forall j | a <= j < b
      ensures text[j] != c
    {
      assert text[j] == text[a..b][j - a];
    }
  }

  lemma WordHasNo(w: string, c: char)
    requires AllWordChars(w) && !IsWordChar(c)
    ensures c !in w
  {
  }

  /** The one `useClass:` of the mapping and the class after it. */
  lemma MappingUseClass(text: string, token: string, cls: string)
    requires MappingLayout(text, token, cls)
    ensures UseClassAt(text, 13 + |token|) == Some(cls)
  {
    var t, x := |token|, |cls|;
    var u := 13 + t;
    assert ", useClass: "[2..11] == "useClass:";
    assert text[u..u + 9] == text[11 + t..23 + t][2..11];
    assert text[u + 9] == text[11 + t..23 + t][11];
    assert text[u + 10..u + 10 + x] == cls;
    assert text[u + 10 + x] == text[23 + t + x..][0];
    UseClassOfWord(text, u, cls);
  }

  /** `useClass:`, one space and a whole word: the word is the class. */
  lemma UseClassOfWord(text: string, u: nat, cls: string)
    requires cls != [] && AllWordChars(cls)
    requires OccursAt(text, "useClass:", u) && u + 10 + |cls| < |text| && text[u + 9] == ' '
    requires text[u + 10..u + 10 + |cls|] == cls && text[u + 10 + |cls|] == ' '
    ensures UseClassAt(text, u) == Some(cls)
  {
    var x := |cls|;
    assert text[u + 10] == cls[0];
    SkipWhileStopsAt(text, u + 9, IsSpace, u + 10);
    forall j | u + 10 <= j < u + 10 + x
      ensures IsWordChar(text[j])
    {
      assert text[j] == text[u + 10..u + 10 + x][j - u - 10];
    }
    SkipWhileStopsAt(text, u + 10, IsWordChar, u + 10 + x);
  }

  /** With no colon from `c` on, no `useClass:` starts after `c - 9`. */
  lemma NoUseClassAfter(text: string, c: nat)
    requires forall j | c <= j < |text| :: text[j] != ':'
    ensures forall v: nat | c <= v + 8 :: UseClassAt(text, v).None?
  {
    forall v: nat | c <= v + 8
      ensures UseClassAt(text, v).None?
    {
      OccursAtChar(text, "useClass:", v, 8);
    }
  }

  /** Where the five parts of `a + b + c + d + e` sit. */
  lemma FiveParts(a: string, b: string, c: string, d: string, e: string)
    ensures var text := a + b + c + d + e;
      var i, j, k, l := |a|, |a| + |b|, |a| + |b| + |c|, |a| + |b| + |c| + |d|;
      && |text| == l + |e|
      && text[..i] == a && text[i..j] == b && text[j..k] == c && text[k..l] == d && text[l..] == e
  {
    var ab := a + b;
    var abc := ab + c;
    var abcd := abc + d;
    var text := abcd + e;
    assert text[..|abcd|] == abcd && abcd[..|abc|] == abc && abc[..|ab|] == ab && ab[..|a|] == a;
  }

  // ----- `class\s+(\w+)[^{]*implements[^{]*\bNAME\b` -----

  predicate BoundedNameAt(text: string, name: string, n: nat) {
    OccursAt(text, name, n) && WordBoundary(text, n) && WordBoundary(text, n + |name|)
  }

  /** `implements[^{]*\bNAME\b` at `i`, with no `{` before the name starts (`f` is the first `{`). */
  predicate ImplementsAt(text: string, i: nat, f: nat, name: string) {
    && OccursAt(text, "implements", i) && i + 10 <= f
    && exists n | i + 10 <= n <= f :: BoundedNameAt(text, name, n)
  }

  /** The last `i` in `[lo, hi)` where `ImplementsAt` holds. */
  function LastImplements(text: string, lo: nat, hi: nat, f: nat, name: string): (r: Option<nat>)
    ensures r.Some? ==> lo <= r.value < hi && ImplementsAt(text, r.value, f, name)
    ensures forall i | lo <= i < hi && (r.None? || r.value < i) :: !ImplementsAt(text, i, f, name)
    decreases hi
  {
    if hi <= lo then None
    else if ImplementsAt(text, hi - 1, f, name) then Some(hi - 1)
    else LastImplements(text, lo, hi - 1, f, name)
  }

  /** The first `{` at or after `w`, or the end of the text. */
  function BraceFrom(text: string, w: nat): (f: nat)
    ensures f <= |text| || f == w
  {
    match IndexOfFrom(text, "{", w)
    case None => |text|
    case Some(x) => x
  }

  /**
   * The class a match starting at `p` captures. The greedy `\w+` gives
   * characters back until `implements` can follow, so the capture ends at
   * the end of the word or at the last usable `implements`, whichever comes
   * first.
   */
  function ImplementerAt(text: string, p: nat, name: string): (r: Option<string>)
    ensures r.Some? ==> r.value != [] && AllWordChars(r.value)
    ensures r.Some? ==>
      && OccursAt(text, "class", p)
      && var w := SkipWhile(text, p + 5, IsSpace);
         && p + 5 < w && OccursAt(text, r.value, w)
         && exists i | w < i :: ImplementsAt(text, i, BraceFrom(text, w), name)
  {
    if OccursAt(text, "class", p) then
      var w := SkipWhile(text, p + 5, IsSpace);
      var e := SkipWhile(text, w, IsWordChar);
      if w > p + 5 && e > w then
        var f := BraceFrom(text, w);
        match LastImplements(text, w + 1, f, f, name)
        case None => None
        case Some(i) =>
          var c := if i < e then i else e;
          Some(text[w..c])
      else None
    else None
  }

  function NextImplementer(text: string, from: nat, name: string): (r: Option<nat>)
    ensures r.Some? ==> from <= r.value && ImplementerAt(text, r.value, name).Some?
    decreases |text| - from
  {
    if from >= |text| then None
    else if ImplementerAt(text, from, name).Some? then Some(from)
    else NextImplementer(text, from + 1, name)
  }

  /** No class implementing the interface starts between `from` and the one `NextImplementer` returns. */
  lemma {:induction false} NextImplementerIsLeftmost(text: string, from: nat, name: string)
    ensures forall p | from <= p && (NextImplementer(text, from, name).None? || p < NextImplementer(text, from, name).value) ::
              ImplementerAt(text, p, name).None?
    decreases |text| - from
  {
    var r := NextImplementer(text, from, name);
    if from >= |text| {
      forall p | from <= p ensures ImplementerAt(text, p, name).None? {
        assert !(p < |text|);
      }
    } else if ImplementerAt(text, from, name).None? {
      NextImplementerIsLeftmost(text, from + 1, name);
      assert r == NextImplementer(text, from + 1, name);
      forall p | from <= p && (r.None? || p < r.value) ensures ImplementerAt(text, p, name).None? {
        if p != from {
          assert from + 1 <= p;
        }
      }
    }
  }

  /** `implementsPattern.exec(text)[1]`: the class captured by the first match. */
  function FirstImplementer(text: string, name: string): (r: Option<string>)
    ensures r.Some? ==> r.value != [] && AllWordChars(r.value)
  {
    match NextImplementer(text, 0, name)
    case None => None
    case Some(p) => ImplementerAt(text, p, name)
  }

  /** A class written out as `class X implements I {` is found as the implementer of `I`. */
  lemma ImplementerRoundTrip(cls: string, iface: string)
    requires cls != [] && AllWordChars(cls)
    requires iface != [] && AllWordChars(iface)
    ensures FirstImplementer("class " + cls + " implements " + iface + " {", iface) == Some(cls)
  {
    FiveParts("class ", cls, " implements ", iface, " {");
    ImplementerInText("class " + cls + " implements " + iface + " {", cls, iface);
  }

  lemma ImplementerInText(text: string, cls: string, iface: string)
    requires ImplementerLayout(text, cls, iface)
    ensures ImplementerAt(text, 0, iface) == Some(cls)
  {
    ImplementerBrace(text, cls, iface);
    ImplementerName(text, cls, iface);
    ImplementerClause(text, cls, iface);
  }

  /** `class X implements I {` laid out in `text`. */
  ghost predicate ImplementerLayout(text: string, cls: string, iface: string) {
    var x, m := |cls|, |iface|;
    && cls != [] && AllWordChars(cls) && iface != [] && AllWordChars(iface)
    && |text| == 20 + x + m
    && text[..6] == "class " && text[6..6 + x] == cls && text[6 + x..18 + x] == " implements "
    && text[18 + x..18 + x + m] == iface && text[18 + x + m..] == " {"
  }

  /** The only `{` ends the declaration's head. */
  lemma ImplementerBrace(text: string, cls: string, iface: string)
    requires ImplementerLayout(text, cls, iface)
    ensures BraceFrom(text, 6) == 19 + |cls| + |iface|
  {
    var x, m := |cls|, |iface|;
    var f := 19 + x + m;
    assert '{' !in " implements ";
    WordHasNo(cls, '{');
    CharNotInSlice(text, 6, 6 + x, '{');
    CharNotInSlice(text, 6 + x, 18 + x, '{');
    WordHasNo(iface, '{');
    CharNotInSlice(text, 18 + x, 18 + x + m, '{');
    assert text[f - 1] == text[18 + x + m..][0] && text[f] == text[18 + x + m..][1];
    FirstCharAt(text, '{', 6, f);
  }

  /** `class`, one space, then the class name as a whole word. */
  lemma ImplementerName(text: string, cls: string, iface: string)
    requires ImplementerLayout(text, cls, iface)
    ensures OccursAt(text, "class", 0)
    ensures SkipWhile(text, 5, IsSpace) == 6 && SkipWhile(text, 6, IsWordChar) == 6 + |cls|
    ensures text[6..6 + |cls|] == cls
  {
    var x := |cls|;
    assert "class "[..5] == "class";
    assert text[..5] == text[..6][..5];
    assert text[5] == text[..6][5] && text[6] == text[6..6 + x][0];
    SkipWhileStopsAt(text, 5, IsSpace, 6);
    forall j | 6 <= j < 6 + x
      ensures IsWordChar(text[j])
    {
      assert text[j] == text[6..6 + x][j - 6];
    }
    assert text[6 + x] == text[6 + x..18 + x][0];
    SkipWhileStopsAt(text, 6, IsWordChar, 6 + x);
  }

  /** The `implements` before the interface name is the last usable one. */
  lemma ImplementerClause(text: string, cls: string, iface: string)
    requires ImplementerLayout(text, cls, iface)
    ensures var f := 19 + |cls| + |iface|; LastImplements(text, 7, f, f, iface) == Some(7 + |cls|)
  {
    var x, m := |cls|, |iface|;
    var f := 19 + x + m;
    ImplementsKeyword(text, cls, iface);
    var i0 := 7 + x;
    assert text[17 + x] == text[6 + x..18 + x][11] && text[18 + x] == text[18 + x..18 + x + m][0];
    assert text[17 + x + m] == text[18 + x..18 + x + m][m - 1] && text[18 + x + m] == text[18 + x + m..][0];
    assert BoundedNameAt(text, iface, 18 + x);
    assert ImplementsAt(text, i0, f, iface);
    forall i | i0 < i < f
      ensures !ImplementsAt(text, i, f, iface)
    {
      NoLaterImplements(text, cls, iface, i);
    }
    LastImplementsIs(text, 7, f, f, iface, i0);
  }

  /** `LastImplements` finds a usable `implements` with none later. */
  lemma LastImplementsIs(text: string, lo: nat, hi: nat, f: nat, name: string, i: nat)
    requires lo <= i < hi && ImplementsAt(text, i, f, name)
    requires forall j | i < j < hi :: !ImplementsAt(text, j, f, name)
    ensures LastImplements(text, lo, hi, f, name) == Some(i)
  {
  }

  lemma ImplementsKeyword(text: string, cls: string, iface: string)
    requires ImplementerLayout(text, cls, iface)
    ensures OccursAt(text, "implements", 7 + |cls|) && text[8 + |cls|] == 'm'
  {
    var x := |cls|;
    var sub := text[6 + x..18 + x];
    assert sub == " implements ";
    assert " implements "[1..11] == "implements";
    SliceOfSlice(text, 6 + x, 18 + x, 1, 11);
    assert text[8 + x] == sub[2];
  }

  lemma NoLaterImplements(text: string, cls: string, iface: string, i: nat)
    requires ImplementerLayout(text, cls, iface)
    requires 7 + |cls| < i
    ensures !ImplementsAt(text, i, 19 + |cls| + |iface|, iface)
  {
    var x, m := |cls|, |iface|;
    if i == 8 + x {
      ImplementsKeyword(text, cls, iface);
      OccursAtChar(text, "implements", i, 0);
    } else {
      forall n | i + 10 <= n <= 19 + x + m
        ensures !BoundedNameAt(text, iface, n)
      {
        NoLaterName(text, cls, iface, n);
      }
    }
  }

  /** Past its start, the interface name occurs nowhere as a whole word. */
  lemma NoLaterName(text: string, cls: string, iface: string, n: nat)
    requires ImplementerLayout(text, cls, iface)
    requires 18 + |cls| < n <= 19 + |cls| + |iface|
    ensures !BoundedNameAt(text, iface, n)
  {
    var x, m := |cls|, |iface|;
    if n < 18 + x + m {
      assert text[n - 1] == text[18 + x..18 + x + m][n - 19 - x];
      assert text[n] == text[18 + x..18 + x + m][n - 18 - x];
    } else {
      OccursAtChar(text, iface, n, 0);
      assert text[n] == text[18 + x + m..][n - 18 - x - m];
    }
  }

  // ----- the module strategy -----

  /**
   * One module file. A file that cannot be opened ends the strategy (the
   * outer `catch`); a mapping counts only when the symbol provider knows a
   * class of that exact name; there is no textual fallback.
   */
  function ModuleOutcome(ws: Workspace, path: string, token: string): (r: FileOutcome)
    ensures r.Abort? <==> ws.read(path).None?
    ensures r.Hit? ==>
      && ws.read(path).Some? && FirstMapping(ws.read(path).value, token).Some?
      && var c := FirstMapping(ws.read(path).value, token).value;
         exists s | s in ws.symbols(c) :: IsSymbol(s, Class, c) && s.location == r.location
  {
    match ws.read(path)
    case None => Abort
    case Some(text) =>
      match FirstMapping(text, token)
      case None => Miss
      case Some(c) =>
        match ClassSymbol(ws, c)
        case None => Miss
        case Some(l) => Hit(l)
  }

  function ModuleFiles(ws: Workspace): seq<string> {
    FindFiles(ws, "**/*.module.ts", ProviderExclude, 100)
  }

  function ModuleSearch(ws: Workspace, files: seq<string>, from: nat, token: string): Option<Location> {
    FirstDecisive(files, from, f => ModuleOutcome(ws, f, token))
  }

  /** The body of the module-file loop. */
  method ScanModuleFile(ws: Workspace, file: string, token: string) returns (outcome: FileOutcome)
    ensures outcome == ModuleOutcome(ws, file, token)
  {
    var doc := ws.read(file);
    if doc.None? {
      return Abort;
    }
    var implementationClass := FirstMapping(doc.value, token);
    if implementationClass.Some? {
      var classLocation := ClassSymbol(ws, implementationClass.value);
      if classLocation.Some? {
        return Hit(classLocation.value);
      }
    }
    return Miss;
  }

  /** findInModuleProviders. */
  method FindInModuleProviders(ws: Workspace, token: string) returns (r: Option<Location>)
    ensures r == ModuleSearch(ws, ModuleFiles(ws), 0, token)
  {
    var moduleFiles := FindFiles(ws, "**/*.module.ts", ProviderExclude, 100);
    var i := 0;
    while i < |moduleFiles|
      invariant i <= |moduleFiles|
      invariant ModuleSearch(ws, moduleFiles, i, token) == ModuleSearch(ws, moduleFiles, 0, token)
    {
      var outcome := ScanModuleFile(ws, moduleFiles[i], token);
      if outcome.Abort? {
        return None;
      }
      if outcome.Hit? {
        return Some(outcome.location);
      }
      i := i + 1;
    }
    return None;
  }

  // ----- the interface strategy -----

  /**
   * One TypeScript file. A file that cannot be opened ends the strategy; a
   * captured class counts only when `class\s+<it>\b` occurs in the same file.
   */
  function InterfaceOutcome(ws: Workspace, path: string, name: string): (r: FileOutcome)
    ensures r.Abort? <==> ws.read(path).None?
    ensures r.Hit? ==>
      && ws.read(path).Some? && FirstImplementer(ws.read(path).value, name).Some?
      && r.location.path == path
      && ClassNamedAt(ws.read(path).value, r.location.offset, FirstImplementer(ws.read(path).value, name).value)
  {
    match ws.read(path)
    case None => Abort
    case Some(text) =>
      match FirstImplementer(text, name)
      case None => Miss
      case Some(c) =>
        match FindClassInDocument(path, text, c)
        case None => Miss
        case Some(l) => Hit(l)
  }

  function TypeScriptFiles(ws: Workspace): seq<string> {
    FindFiles(ws, "**/*.ts", ProviderExclude, 200)
  }

  /** The interface strategy: nothing unless the symbol provider reports an interface of exactly that name. */
  function InterfaceSearch(ws: Workspace, name: string): (r: Option<Location>)
    ensures r.Some? ==> exists s | s in ws.symbols(name) :: IsSymbol(s, Interface, name)
  {
    if SymbolLocation(ws.symbols(name), Interface, name).None? then None
    else ImplementerSearch(ws, TypeScriptFiles(ws), 0, name)
  }

  function ImplementerSearch(ws: Workspace, files: seq<string>, from: nat, name: string): Option<Location> {
    FirstDecisive(files, from, f => InterfaceOutcome(ws, f, name))
  }

  /** The body of the implementer loop. */
  method ScanForImplementer(ws: Workspace, file: string, name: string) returns (outcome: FileOutcome)
    ensures outcome == InterfaceOutcome(ws, file, name)
  {
    var doc := ws.read(file);
    if doc.None? {
      return Abort;
    }
    var className := FirstImplementer(doc.value, name);
    if className.Some? {
      var classLocation := FindClassInDocument(file, doc.value, className.value);
      if classLocation.Some? {
        return Hit(classLocation.value);
      }
    }
    return Miss;
  }

  /** findInterfaceImplementation. */
  method FindInterfaceImplementation(ws: Workspace, interfaceName: string) returns (r: Option<Location>)
    ensures r == InterfaceSearch(ws, interfaceName)
  {
    var symbols := ws.symbols(interfaceName);
    if |symbols| == 0 {
      return None;
    }
    var interfaceSymbol := SymbolLocation(symbols, Interface, interfaceName);
    if interfaceSymbol.None? {
      return None;
    }
    var files := FindFiles(ws, "**/*.ts", ProviderExclude, 200);
    var i := 0;
    while i < |files|
      invariant i <= |files|
      invariant ImplementerSearch(ws, files, i, interfaceName) == ImplementerSearch(ws, files, 0, interfaceName)
    {
      var fileOutcome := ScanForImplementer(ws, files[i], interfaceName);
      if fileOutcome.Abort? {
        return None;
      }
      if fileOutcome.Hit? {
        return Some(fileOutcome.location);
      }
      i := i + 1;
    }
    return None;
  }

  // ----- the two strategies in order -----

  function ProviderLookup(ws: Workspace, token: string): Option<Location> {
    match ModuleSearch(ws, ModuleFiles(ws), 0, token)
    case Some(l) => Some(l)
    case None => InterfaceSearch(ws, token)
  }

  /** findProviderImplementation. */
  method FindProviderImplementation(ws: Workspace, token: string) returns (r: Option<Location>)
    ensures r == ProviderLookup(ws, token)
  {
    var moduleResult := FindInModuleProviders(ws, token);
    if moduleResult.Some? {
      return moduleResult;
    }
    r := FindInterfaceImplementation(ws, token);
  }

  /**
   * A module mapping wins over an implementer; nothing is found only when
   * both strategies come back empty.
   */
  lemma ProviderPrecedence(ws: Workspace, token: string)
    ensures var r := ProviderLookup(ws, token);
      var byModule := ModuleSearch(ws, ModuleFiles(ws), 0, token);
      && (byModule.Some? ==> r == byModule)
      && (r.None? <==> byModule.None? && InterfaceSearch(ws, token).None?)
  {
  }
}
