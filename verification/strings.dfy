/** String primitives of the JavaScript runtime that the composables rely on:
    the whitespace class shared by `String.prototype.trim` and the regular
    expression escape `\s`, ASCII case folding (what the `i` flag does for the
    ASCII patterns used here), substring search, prefix/suffix tests, and
    joining/splitting lines.  A `char` stands for one UTF-16 code unit. */
module Strings {
  import opened Wrappers

  /** ECMAScript WhiteSpace and LineTerminator code points: the set removed by
      `trim()` and matched by `\s`. */
  predicate IsWhitespace(c: char) {
    || c == '\t' || c == '\U{000B}' || c == '\U{000C}' || c == ' '
    || c == '\U{00A0}' || c == '\U{FEFF}' || c == '\U{1680}'
    || ('\U{2000}' <= c <= '\U{200A}')
    || c == '\U{202F}' || c == '\U{205F}' || c == '\U{3000}'
    || c == '\n' || c == '\r' || c == '\U{2028}' || c == '\U{2029}'
  }

  /** Every character of `s` is whitespace (the empty string included). */
  predicate IsBlank(s: string) {
    forall i :: 0 <= i < |s| ==> IsWhitespace(s[i])
  }

  /** Leading whitespace removed: the longest suffix of `s` that starts with a
      non-whitespace character (or is empty). */
  function TrimStart(s: string): (r: string)
    ensures |r| <= |s| && r == s[|s| - |r|..]
    ensures r == [] || !IsWhitespace(r[0])
    ensures forall i :: 0 <= i < |s| - |r| ==> IsWhitespace(s[i])
  {
    if s != [] && IsWhitespace(s[0]) then TrimStart(s[1..]) else s
  }

  /** Trailing whitespace removed: the longest prefix of `s` that ends with a
      non-whitespace character (or is empty). */
  function TrimEnd(s: string): (r: string)
    ensures |r| <= |s| && r == s[..|r|]
    ensures r == [] || !IsWhitespace(r[|r| - 1])
    ensures forall i :: |r| <= i < |s| ==> IsWhitespace(s[i])
  {
    if s != [] && IsWhitespace(s[|s| - 1]) then TrimEnd(s[..|s| - 1]) else s
  }

  /** `String.prototype.trim`. */
  function Trim(s: string): string {
    TrimEnd(TrimStart(s))
  }

  /** `s.trim()` is the empty (falsy) string exactly when `s` is blank. */
  lemma TrimEmptyIffBlank(s: string)
    ensures Trim(s) == [] <==> IsBlank(s)
  {
    var t := TrimStart(s);
    if Trim(s) == [] {
      assert t == [];
    } else {
      var e := Trim(s);
      assert !IsWhitespace(t[|e| - 1]);
      assert s[|s| - |t| + |e| - 1] == t[|e| - 1];
    }
  }

  predicate IsAsciiUpper(c: char) { 'A' <= c <= 'Z' }

  /** ASCII lower-casing of one character; every other character is kept. */
  function LowerChar(c: char): (r: char)
    ensures !IsAsciiUpper(r)
    ensures IsAsciiUpper(c) ==> r as int == c as int + 32
    ensures !IsAsciiUpper(c) ==> r == c
  {
    if IsAsciiUpper(c) then (c as int + 32) as char else c
  }

  /** ASCII lower-casing of a string, character by character. */
  function LowerAscii(s: string): (r: string)
    ensures |r| == |s|
    ensures forall i :: 0 <= i < |s| ==> r[i] == LowerChar(s[i])
  {
    seq(|s|, i requires 0 <= i < |s| => LowerChar(s[i]))
  }

  /** Case-insensitive character equality as the `i` regular-expression flag
      applies it to the ASCII patterns of the source. */
  predicate CharEqIgnoreCase(a: char, b: char) {
    LowerChar(a) == LowerChar(b)
  }

  /** `needle` occurs in `s` at position `i`, ignoring ASCII case. */
  predicate MatchesAtIgnoreCase(s: string, i: int, needle: string) {
    0 <= i && i + |needle| <= |s|
    && forall j :: 0 <= j < |needle| ==> CharEqIgnoreCase(s[i + j], needle[j])
  }

  /** `sub` occurs in `s` at position `i` (exact, case-sensitive). */
  predicate OccursAt(s: string, sub: string, i: int) {
    0 <= i && i + |sub| <= |s| && s[i..i + |sub|] == sub
  }

  /** Reference meaning of `s.includes(sub)`. */
  ghost predicate Contains(s: string, sub: string) {
    exists i :: OccursAt(s, sub, i)
  }

  /** `String.prototype.includes`, by a left-to-right scan. */
  function Includes(s: string, sub: string): (r: bool)
    ensures r <==> Contains(s, sub)
    decreases |s|
  {
    if |sub| > |s| then false
    else if s[..|sub|] == sub then (assert OccursAt(s, sub, 0); true)
    else
      var tail := s[1..];
      var r := Includes(tail, sub);
      if r then
        var i :| OccursAt(tail, sub, i);
        assert OccursAt(s, sub, i + 1) by { assert tail[i..i + |sub|] == s[i + 1..i + 1 + |sub|]; }
        r
      else
        assert forall i :: OccursAt(s, sub, i) ==> OccursAt(tail, sub, i - 1) by {
          forall i | OccursAt(s, sub, i) ensures OccursAt(tail, sub, i - 1) {
            assert i != 0;
            assert tail[i - 1..i - 1 + |sub|] == s[i..i + |sub|];
          }
        }
        r
  }

  /** A substring of a slice is a substring of the whole string. */
  lemma ContainsInSlice(s: string, a: int, b: int, sub: string)
    requires 0 <= a <= b <= |s| && Contains(s[a..b], sub)
    ensures Contains(s, sub)
  {
    var t := s[a..b];
    var i :| OccursAt(t, sub, i);
    assert forall k :: 0 <= k < |sub| ==> s[a + i + k] == t[i + k] == sub[k];
    assert s[a + i..a + i + |sub|] == sub;
    assert OccursAt(s, sub, a + i);
  }

  /** A string misses every substring that uses a character it lacks. */
  lemma MissingCharNotContained(s: string, sub: string, j: int)
    requires 0 <= j < |sub|
    requires forall i :: 0 <= i < |s| ==> s[i] != sub[j]
    ensures !Contains(s, sub)
  {
    forall i | 0 <= i && i + |sub| <= |s| ensures !OccursAt(s, sub, i) {
      assert s[i..i + |sub|][j] == s[i + j] != sub[j];
    }
  }

  /** No character of `s[a..b]` equals `c`. */
  predicate NoCharIn(s: string, a: int, b: int, c: char) {
    forall k :: a <= k < b && 0 <= k < |s| ==> s[k] != c
  }

  /** The least index at or after `from` holding `c`. */
  function FindChar(s: string, from: nat, c: char): (r: Option<nat>)
    requires from <= |s|
    ensures r.Some? ==> from <= r.value < |s| && s[r.value] == c && NoCharIn(s, from, r.value, c)
    ensures r.None? ==> NoCharIn(s, from, |s|, c)
    decreases |s| - from
  {
    if from == |s| then None
    else if s[from] == c then Some(from)
    else FindChar(s, from + 1, c)
  }

  /** `String.prototype.startsWith`. */
  predicate StartsWith(s: string, prefix: string) {
    |prefix| <= |s| && s[..|prefix|] == prefix
  }

  /** `String.prototype.endsWith`. */
  predicate EndsWith(s: string, suffix: string) {
    |suffix| <= |s| && s[|s| - |suffix|..] == suffix
  }

  /** `Array.prototype.join` with separator character `sep`. */
  function Join(lines: seq<string>, sep: char): (r: string)
    ensures lines == [] ==> r == []
    decreases |lines|
  {
    if lines == [] then []
    else if |lines| == 1 then lines[0]
    else lines[0] + [sep] + Join(lines[1..], sep)
  }

  /** Joining two non-empty runs of pieces puts one separator between them. */
  lemma {:induction false} JoinAppend(a: seq<string>, b: seq<string>, sep: char)
    requires |a| >= 1 && |b| >= 1
    ensures Join(a + b, sep) == Join(a, sep) + [sep] + Join(b, sep)
    decreases |a|
  {
    if |a| == 1 {
      assert (a + b)[1..] == b;
    } else {
      assert (a + b)[1..] == a[1..] + b;
      JoinAppend(a[1..], b, sep);
    }
  }

  /** A join of three or more pieces opens with the first two pieces, each
      followed by the separator, and closes with the separator and the last. */
  lemma JoinFrame(lines: seq<string>, sep: char)
    requires |lines| >= 3
    ensures StartsWith(Join(lines, sep), lines[0] + [sep] + lines[1] + [sep])
    ensures EndsWith(Join(lines, sep), [sep] + lines[|lines| - 1])
  {
    var last := lines[|lines| - 1];
    assert Join(lines, sep) == lines[0] + [sep] + (lines[1] + [sep] + Join(lines[2..], sep));
    assert lines == lines[..|lines| - 1] + [last];
    JoinAppend(lines[..|lines| - 1], [last], sep);
  }

  /** `String.prototype.split` on one separator character; always yields at
      least one piece. */
  function Split(s: string, sep: char): (r: seq<string>)
    ensures |r| >= 1
    ensures forall k, i :: 0 <= k < |r| && 0 <= i < |r[k]| ==> r[k][i] != sep
    decreases |s|
  {
    if s == [] then [[]]
    else
      var rest := Split(s[1..], sep);
      if s[0] == sep then [[]] + rest
      else [[s[0]] + rest[0]] + rest[1..]
  }

  /** No piece contains the separator. */
  predicate NoneContains(lines: seq<string>, sep: char) {
    forall k, i :: 0 <= k < |lines| && 0 <= i < |lines[k]| ==> lines[k][i] != sep
  }

  lemma NoneContainsAppend(a: seq<string>, b: seq<string>, sep: char)
    requires NoneContains(a, sep) && NoneContains(b, sep)
    ensures NoneContains(a + b, sep)
  {
    forall k, i | 0 <= k < |a + b| && 0 <= i < |(a + b)[k]| ensures (a + b)[k][i] != sep {
      if k < |a| {
        assert (a + b)[k] == a[k];
      } else {
        assert (a + b)[k] == b[k - |a|];
      }
    }
  }

  /** Splitting a separator-free line up to the next separator. */
  lemma {:induction false} SplitPrefix(a: string, b: string, sep: char)
    requires forall i :: 0 <= i < |a| ==> a[i] != sep
    ensures Split(a + [sep] + b, sep) == [a] + Split(b, sep)
    decreases |a|
  {
    if a == [] {
      assert a + [sep] + b == [sep] + b;
      assert ([sep] + b)[1..] == b;
    } else {
      assert (a + [sep] + b)[1..] == a[1..] + [sep] + b;
      SplitPrefix(a[1..], b, sep);
      assert [a[0]] + a[1..] == a;
    }
  }

  /** Splitting a separator-free string yields it back whole. */
  lemma {:induction false} SplitNoSep(a: string, sep: char)
    requires forall i :: 0 <= i < |a| ==> a[i] != sep
    ensures Split(a, sep) == [a]
    decreases |a|
  {
    if a != [] {
      SplitNoSep(a[1..], sep);
      assert [a[0]] + a[1..] == a;
    }
  }

  /** `split` undoes `join` when no piece contains the separator. */
  lemma {:induction false} SplitJoin(lines: seq<string>, sep: char)
    requires |lines| >= 1
    requires NoneContains(lines, sep)
    ensures Split(Join(lines, sep), sep) == lines
    decreases |lines|
  {
    if |lines| == 1 {
      SplitNoSep(lines[0], sep);
    } else {
      assert NoneContains(lines[1..], sep) by {
        forall k, i | 0 <= k < |lines[1..]| && 0 <= i < |lines[1..][k]|
          ensures lines[1..][k][i] != sep
        {
          assert lines[1..][k] == lines[k + 1];
        }
      }
      SplitJoin(lines[1..], sep);
      assert forall i :: 0 <= i < |lines[0]| ==> lines[0][i] != sep;
      SplitPrefix(lines[0], Join(lines[1..], sep), sep);
    }
  }
}
