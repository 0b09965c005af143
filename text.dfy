/** The usual optional value, for the source's `null` / `undefined` results. */
module Wrappers {
  datatype Option<+T> = None | Some(value: T)
}

/**
 * Character classes and string helpers shared by the hand-written scanners.
 * A Dafny `char` is one Unicode scalar value, so a JavaScript string is
 * modelled as its sequence of code points: an index counts a character
 * outside the Basic Multilingual Plane once where JavaScript counts two code
 * units, and lone surrogates cannot occur.
 */
module Text {
  import opened Wrappers

  /** JavaScript's `\s` class; `String.prototype.trim` removes exactly the same characters. */
  predicate IsSpace(c: char) {
    c == ' ' || c == '\t' || c == '\n' || c == '\r' || c == '\U{0B}' || c == '\U{0C}'
    || c == '\U{A0}' || c == '\U{1680}' || ('\U{2000}' <= c <= '\U{200A}')
    || c == '\U{2028}' || c == '\U{2029}' || c == '\U{202F}' || c == '\U{205F}'
    || c == '\U{3000}' || c == '\U{FEFF}'
  }

  /** The line terminators: the characters that a regular-expression `.` does not match. */
  predicate IsLineTerminator(c: char) {
    c == '\n' || c == '\r' || c == '\U{2028}' || c == '\U{2029}'
  }

  /** JavaScript's `\w` class. */
  predicate IsWordChar(c: char) {
    ('a' <= c <= 'z') || ('A' <= c <= 'Z') || ('0' <= c <= '9') || c == '_'
  }

  predicate IsLowerAscii(c: char) { 'a' <= c <= 'z' }

  predicate IsUpperAscii(c: char) { 'A' <= c <= 'Z' }

  predicate AllWordChars(s: string) {
    forall i | 0 <= i < |s| :: IsWordChar(s[i])
  }

  /** `toLowerCase` restricted to ASCII letters. */
  function LowerChar(c: char): (d: char)
    ensures !IsUpperAscii(d)
  {
    if IsUpperAscii(c) then (c as int + 32) as char else c
  }

  function ToLower(s: string): (r: string)
    ensures |r| == |s|
    ensures forall i | 0 <= i < |s| :: r[i] == LowerChar(s[i])
  {
    seq(|s|, i requires 0 <= i < |s| => LowerChar(s[i]))
  }

  /** The first index at or after `i` whose character does not satisfy `keep` (|s| when there is none). */
  function SkipWhile(s: string, i: nat, keep: char -> bool): (j: nat)
    requires i <= |s|
    ensures i <= j <= |s|
    ensures forall k | i <= k < j :: keep(s[k])
    ensures j == |s| || !keep(s[j])
    decreases |s| - i
  {
    if i < |s| && keep(s[i]) then SkipWhile(s, i + 1, keep) else i
  }

  /** The index where `SkipWhile` stops is the first one at or after `i` that `keep` rejects. */
  lemma {:induction false} SkipWhileStopsAt(s: string, i: nat, keep: char -> bool, j: nat)
    requires i <= j <= |s|
    requires forall k | i <= k < j :: keep(s[k])
    requires j == |s| || !keep(s[j])
    ensures SkipWhile(s, i, keep) == j
    decreases j - i
  {
    if i < j {
      SkipWhileStopsAt(s, i + 1, keep, j);
    }
  }

  /** The index just after the spaces that start at `i`. */
  function SpacesEnd(s: string, i: nat): (j: nat)
    requires i <= |s|
    ensures i <= j <= |s| && (j == |s| || !IsSpace(s[j]))
    decreases |s| - i
  {
    if i < |s| && IsSpace(s[i]) then SpacesEnd(s, i + 1) else i
  }

  /** The index where the spaces that end at `j` begin. */
  function SpacesStart(s: string, j: nat): (i: nat)
    requires j <= |s|
    ensures i <= j && (i == 0 || !IsSpace(s[i - 1]))
  {
    if j > 0 && IsSpace(s[j - 1]) then SpacesStart(s, j - 1) else j
  }

  /** Everything from `SpacesEnd` on is kept, and only spaces come before it. */
  lemma {:induction false} SpacesEndSkipsSpaces(s: string, i: nat)
    requires i <= |s|
    ensures forall k | i <= k < SpacesEnd(s, i) :: IsSpace(s[k])
    decreases |s| - i
  {
    if i < |s| && IsSpace(s[i]) {
      SpacesEndSkipsSpaces(s, i + 1);
    }
  }

  /** `SpacesEnd` stops at the first character from `i` on that is not a space. */
  lemma {:induction false} SpacesEndStopsAt(s: string, i: nat, j: nat)
    requires i <= j <= |s|
    requires forall k | i <= k < j :: IsSpace(s[k])
    requires j == |s| || !IsSpace(s[j])
    ensures SpacesEnd(s, i) == j
    decreases j - i
  {
    if i < j {
      SpacesEndStopsAt(s, i + 1, j);
    }
  }

  /** Only spaces come after `SpacesStart`. */
  lemma {:induction false} SpacesStartSkipsSpaces(s: string, j: nat)
    requires j <= |s|
    ensures forall k | SpacesStart(s, j) <= k < j :: IsSpace(s[k])
  {
    if j > 0 && IsSpace(s[j - 1]) {
      SpacesStartSkipsSpaces(s, j - 1);
    }
  }

  /** `String.prototype.trimStart`: the leading white space removed. */
  function TrimStart(s: string): (r: string)
    ensures r == [] || !IsSpace(r[0])
  {
    s[SpacesEnd(s, 0)..]
  }

  /** `String.prototype.trimEnd`: the trailing white space removed. */
  function TrimEnd(s: string): (r: string)
    ensures r == [] || !IsSpace(r[|r| - 1])
  {
    s[..SpacesStart(s, |s|)]
  }

  /** `String.prototype.trim`. */
  function Trim(s: string): (r: string)
    ensures IsTrimmed(r)
  {
    var u := TrimStart(s);
    assert TrimEnd(u) == [] || TrimEnd(u)[0] == u[0];
    TrimEnd(u)
  }

  /** Trimming removes white space only: what is left is a slice of the input between runs of spaces. */
  lemma TrimRemovesOnlySpaces(s: string)
    ensures var a := SpacesEnd(s, 0);
      var u := s[a..];
      var b := SpacesStart(u, |u|);
      && Trim(s) == s[a..a + b]
      && (forall k | 0 <= k < a :: IsSpace(s[k]))
      && (forall k | a + b <= k < |s| :: IsSpace(s[k]))
  {
    var a := SpacesEnd(s, 0);
    var u := s[a..];
    var b := SpacesStart(u, |u|);
    SpacesEndSkipsSpaces(s, 0);
    SpacesStartSkipsSpaces(u, |u|);
    forall k | a + b <= k < |s| ensures IsSpace(s[k]) {
      assert s[k] == u[k - a];
    }
  }

  predicate IsTrimmed(s: string) {
    s == [] || (!IsSpace(s[0]) && !IsSpace(s[|s| - 1]))
  }

  lemma TrimOfTrimmed(s: string)
    requires IsTrimmed(s)
    ensures Trim(s) == s
  {
  }

  predicate StartsWith(s: string, p: string) {
    |p| <= |s| && s[..|p|] == p
  }

  predicate EndsWith(s: string, p: string) {
    |p| <= |s| && s[|s| - |p|..] == p
  }

  lemma AppendAssoc<T>(a: seq<T>, b: seq<T>, c: seq<T>)
    ensures a + b + c == a + (b + c)
  {
  }

  /** Extending a prefix `s[..c]` by one element, behind a fixed head `u`. */
  lemma AppendTakeNext<T>(u: seq<T>, s: seq<T>, c: nat)
    requires c < |s|
    ensures u + s[..c + 1] == (u + s[..c]) + [s[c]]
  {
    assert s[..c + 1] == s[..c] + [s[c]];
  }

  /** `p` occurs in `s` at index `i`. */
  predicate OccursAt(s: string, p: string, i: int) {
    0 <= i && i + |p| <= |s| && s[i..i + |p|] == p
  }

  /** `s.indexOf(p, from)` as an option: the leftmost occurrence at or after `from`. */
  function IndexOfFrom(s: string, p: string, from: nat): (r: Option<nat>)
    ensures r.Some? ==> from <= r.value && OccursAt(s, p, r.value)
    ensures forall j | from <= j && (r.None? || j < r.value) :: !OccursAt(s, p, j)
    decreases |s| - from
  {
    if from + |p| > |s| then None
    else if s[from..from + |p|] == p then Some(from)
    else IndexOfFrom(s, p, from + 1)
  }

  /** `indexOf` finds an occurrence with none before it. */
  lemma IndexOfFromIs(s: string, p: string, from: nat, k: nat)
    requires from <= k && OccursAt(s, p, k)
    requires forall j | from <= j < k :: !OccursAt(s, p, j)
    ensures IndexOfFrom(s, p, from) == Some(k)
  {
  }

  /** A one-character text occurs exactly where that character stands. */
  lemma OneCharOccursAt(s: string, c: char, j: int)
    ensures OccursAt(s, [c], j) <==> 0 <= j < |s| && s[j] == c
  {
    if 0 <= j < |s| {
      assert s[j..j + 1] == [s[j]];
    }
  }

  /** `indexOf` of a single character finds its first occurrence. */
  lemma FirstCharAt(s: string, c: char, from: nat, k: nat)
    requires from <= k < |s| && s[k] == c
    requires forall j | from <= j < k :: s[j] != c
    ensures IndexOfFrom(s, [c], from) == Some(k)
  {
    forall j | from <= j < k
      ensures !OccursAt(s, [c], j)
    {
      OneCharOccursAt(s, c, j);
    }
    OneCharOccursAt(s, c, k);
    IndexOfFromIs(s, [c], from, k);
  }

  /** Where `p` occurs, its characters stand one by one. */
  lemma OccursAtChar(s: string, p: string, i: int, k: nat)
    requires k < |p|
    ensures OccursAt(s, p, i) ==> s[i + k] == p[k]
  {
    if OccursAt(s, p, i) {
      assert s[i + k] == s[i..i + |p|][k];
    }
  }

  lemma SliceOfSlice<T>(s: seq<T>, a: nat, b: nat, c: nat, d: nat)
    requires a <= b <= |s| && c <= d <= b - a
    ensures s[a..b][c..d] == s[a + c..a + d]
  {
    forall k | 0 <= k < d - c
      ensures s[a..b][c..d][k] == s[a + c..a + d][k]
    {
      assert s[a..b][c..d][k] == s[a..b][c + k] == s[a + c + k];
    }
  }

  /** `s.includes(p)`. */
  predicate Contains(s: string, p: string) {
    IndexOfFrom(s, p, 0).Some?
  }

  /** Dropping one final character `c`, as `replace(/c$/, '')` does. */
  function DropLast(s: string, c: char): (r: string)
  {
    if |s| > 0 && s[|s| - 1] == c then s[..|s| - 1] else s
  }

  /**
   * `s.split(sep)` for a one-character separator: the pieces between the
   * separators, in order, always at least one.
   */
  function Split(s: string, sep: char): (r: seq<string>)
    ensures |r| >= 1
    ensures forall k | 0 <= k < |r| :: sep !in r[k]
  {
    if |s| == 0 then [""]
    else
      var rest := Split(s[1..], sep);
      if s[0] == sep then [""] + rest
      else [[s[0]] + rest[0]] + rest[1..]
  }

  /** `parts.join(sep)`. */
  function Join(parts: seq<string>, sep: char): string
  {
    if |parts| == 0 then ""
    else if |parts| == 1 then parts[0]
    else parts[0] + [sep] + Join(parts[1..], sep)
  }

  /** Splitting and joining with the same separator gives back the text. */
  lemma {:induction false} JoinSplit(s: string, sep: char)
    ensures Join(Split(s, sep), sep) == s
  {
    if |s| > 0 {
      var rest := Split(s[1..], sep);
      JoinSplit(s[1..], sep);
      if s[0] == sep {
        assert Split(s, sep) == [""] + rest;
        assert ([""] + rest)[1..] == rest;
      } else {
        var r := [[s[0]] + rest[0]] + rest[1..];
        assert Split(s, sep) == r;
        if |rest| == 1 {
          assert Join(r, sep) == [s[0]] + rest[0];
        } else {
          assert r[1..] == rest[1..];
          assert Join(rest, sep) == rest[0] + [sep] + Join(rest[1..], sep);
          assert Join(r, sep) == [s[0]] + rest[0] + [sep] + Join(rest[1..], sep);
        }
      }
    }
  }

  /** `text.split('\n')`: the text's lines. */
  function Lines(text: string): (r: seq<string>)
    ensures |r| >= 1
    ensures forall k | 0 <= k < |r| :: '\n' !in r[k]
  {
    Split(text, '\n')
  }

  /**
   * The pieces of `s` between single characters satisfying `isSep`, empty
   * pieces included. `line.split(/\s+/)` differs only by the empty pieces, and
   * the callers discard those.
   */
  function SplitWhere(s: string, isSep: char -> bool): (r: seq<string>)
    ensures |r| >= 1
    ensures forall k, c | 0 <= k < |r| && c in r[k] :: !isSep(c)
  {
    if |s| == 0 then [""]
    else
      var rest := SplitWhere(s[1..], isSep);
      if isSep(s[0]) then [""] + rest
      else [[s[0]] + rest[0]] + rest[1..]
  }
}

/**
 * The regular-expression escape `str.replace(/[.*+?^${}()|[\]\\]/g, '\\$&')`,
 * written out in providerFinder.ts, cucumberTestController.ts and runScenario.ts.
 */
module RegexEscape {

  /** The characters the escape prefixes with a backslash. */
  predicate IsRegexMeta(c: char) {
    c == '.' || c == '*' || c == '+' || c == '?' || c == '^' || c == '$' || c == '{' || c == '}'
    || c == '(' || c == ')' || c == '|' || c == '[' || c == ']' || c == '\\'
  }

  function Escape(s: string): (r: string)
    ensures |r| >= |s|
  {
    if s == [] then []
    else (if IsRegexMeta(s[0]) then ['\\', s[0]] else [s[0]]) + Escape(s[1..])
  }

  /** The literal text a pattern of plain characters and `\`-escapes stands for. */
  function Unescape(r: string): string
  {
    if r == [] then []
    else if r[0] == '\\' && |r| >= 2 then [r[1]] + Unescape(r[2..])
    else [r[0]] + Unescape(r[1..])
  }

  /** The escaped text matches exactly the original name: unescaping gives it back. */
  lemma {:induction false} UnescapeEscape(s: string)
    ensures Unescape(Escape(s)) == s
  {
    if s != [] {
      UnescapeEscape(s[1..]);
      var head := if IsRegexMeta(s[0]) then ['\\', s[0]] else [s[0]];
      assert Escape(s) == head + Escape(s[1..]);
      if IsRegexMeta(s[0]) {
        assert (head + Escape(s[1..]))[2..] == Escape(s[1..]);
      } else {
        assert (head + Escape(s[1..]))[1..] == Escape(s[1..]);
      }
    }
  }

  /** Only metacharacters are rewritten: text without any is left as it is. */
  lemma {:induction false} EscapeWithoutMeta(s: string)
    requires forall i | 0 <= i < |s| :: !IsRegexMeta(s[i])
    ensures Escape(s) == s
  {
    if s != [] {
      EscapeWithoutMeta(s[1..]);
    }
  }

  /** The escape works character by character: it distributes over concatenation. */
  lemma {:induction false} EscapeConcat(a: string, b: string)
    ensures Escape(a + b) == Escape(a) + Escape(b)
  {
    if a != [] {
      EscapeConcat(a[1..], b);
      assert (a + b)[1..] == a[1..] + b;
      var head := if IsRegexMeta(a[0]) then ['\\', a[0]] else [a[0]];
      assert Escape(a + b) == head + Escape(a[1..] + b);
      assert Escape(a) == head + Escape(a[1..]);
    } else {
      assert a + b == b;
    }
  }
}
