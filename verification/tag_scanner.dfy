/** The two regular expressions the tracking-script sanitizer applies, written
    out as scanners with the backtracking semantics of JavaScript's engine:
      - `/<script[^>]*>[\s\S]*?<\/script>|<script[^>]*\/>/gi` with
        `String.prototype.match` (all non-overlapping matches, left to right);
      - `/NAME=["']([^"']+)["']/i` (first match, capture group 1).
    The `i` flag folds only ASCII letters here: every pattern character is
    ASCII and, without the `u` flag, no non-ASCII character canonicalizes to
    an ASCII one. */
module TagScanner {
  import opened Wrappers
  import opened Strings

  const OpenTag: string := "<script"
  const CloseTag: string := "</script>"

  predicate IsQuote(c: char) { c == '"' || c == '\'' }

  /** The least index at or after `from` holding a quote character. */
  function FindQuote(s: string, from: nat): (r: Option<nat>)
    requires from <= |s|
    ensures r.Some? ==> from <= r.value < |s| && IsQuote(s[r.value])
    ensures r.Some? ==> forall k :: from <= k < r.value ==> !IsQuote(s[k])
    ensures r.None? ==> forall k :: from <= k < |s| ==> !IsQuote(s[k])
    decreases |s| - from
  {
    if from == |s| then None
    else if IsQuote(s[from]) then Some(from)
    else FindQuote(s, from + 1)
  }

  /** The least index at or after `from` where `needle` occurs, ignoring case. */
  function FindIgnoreCase(s: string, from: nat, needle: string): (r: Option<nat>)
    requires from <= |s|
    ensures r.Some? ==> from <= r.value && MatchesAtIgnoreCase(s, r.value, needle)
    ensures r.Some? ==> forall k :: from <= k < r.value ==> !MatchesAtIgnoreCase(s, k, needle)
    ensures r.None? ==> forall k :: from <= k ==> !MatchesAtIgnoreCase(s, k, needle)
    decreases |s| - from
  {
    if from + |needle| > |s| then None
    else if MatchesAtIgnoreCase(s, from, needle) then Some(from)
    else FindIgnoreCase(s, from + 1, needle)
  }

  // ---------------------------------------------------------------------
  // The script-tag pattern

  /** The first alternative `<script[^>]*>[\s\S]*?<\/script>` matches exactly
      `s[p..e]`, with its `>` at `g`. */
  ghost predicate PairedAt(s: string, p: int, g: int, e: int) {
    && MatchesAtIgnoreCase(s, p, OpenTag)
    && p + |OpenTag| <= g && g + 1 + |CloseTag| <= e <= |s|
    && NoCharIn(s, p + |OpenTag|, g, '>') && s[g] == '>'
    && MatchesAtIgnoreCase(s, e - |CloseTag|, CloseTag)
  }

  ghost predicate Paired(s: string, p: int, e: int) {
    exists g :: PairedAt(s, p, g, e)
  }

  /** The second alternative `<script[^>]*\/>` matches exactly `s[p..e]`. */
  ghost predicate SelfClosing(s: string, p: int, e: int) {
    && MatchesAtIgnoreCase(s, p, OpenTag)
    && p + |OpenTag| + 2 <= e <= |s|
    && NoCharIn(s, p + |OpenTag|, e - 2, '>')
    && s[e - 2] == '/' && s[e - 1] == '>'
  }

  /** The match the engine reports at `p`: the shortest paired match (the lazy
      body), or, when no paired match exists, the self-closing one. */
  ghost predicate PreferredMatch(s: string, p: int, e: int) {
    || (Paired(s, p, e) && forall e' :: Paired(s, p, e') ==> e <= e')
    || ((forall e' :: !Paired(s, p, e')) && SelfClosing(s, p, e))
  }

  /** The end of the script-tag match that starts at `p`, if any. */
  function TagAt(s: string, p: nat): (r: Option<nat>)
    requires p <= |s|
    ensures r.Some? ==> p + |OpenTag| + 2 <= r.value <= |s|
    ensures r.Some? ==> MatchesAtIgnoreCase(s, p, OpenTag)
  {
    if !MatchesAtIgnoreCase(s, p, OpenTag) then None
    else match FindChar(s, p + |OpenTag|, '>')
      case None => None
      case Some(g) => TagEndAfter(s, p, g)
  }

  /** The end of the match at `p` once the first `>` after `<script` is known
      to be at `g`: just after the first `</script>` that follows it, or,
      when there is none, just after `g` itself if a `/` precedes it. */
  function TagEndAfter(s: string, p: nat, g: nat): (r: Option<nat>)
    requires p + |OpenTag| <= g < |s|
    ensures r.Some? ==> p + |OpenTag| + 2 <= r.value <= |s|
  {
    match FindIgnoreCase(s, g + 1, CloseTag)
    case Some(k) => Some(k + |CloseTag|)
    case None => if g >= p + |OpenTag| + 1 && s[g - 1] == '/' then Some(g + 1) else None
  }

  /** The `>` that closes a paired match is the first one after `<script`. */
  lemma PairedGreaterIsFirst(s: string, p: nat, g: int, e: int, g0: nat)
    requires PairedAt(s, p, g, e)
    requires p + |OpenTag| <= g0 < |s| && s[g0] == '>' && NoCharIn(s, p + |OpenTag|, g0, '>')
    ensures g == g0
  {
  }

  /** With its `>` fixed, a paired match ends just after any case-insensitive
      `</script>` that starts after that `>`. */
  lemma PairedEnds(s: string, p: nat, g: nat, e: int)
    requires MatchesAtIgnoreCase(s, p, OpenTag)
    requires p + |OpenTag| <= g < |s| && s[g] == '>' && NoCharIn(s, p + |OpenTag|, g, '>')
    ensures Paired(s, p, e) <==> g + 1 <= e - |CloseTag| && MatchesAtIgnoreCase(s, e - |CloseTag|, CloseTag)
  {
    if Paired(s, p, e) {
      var g' :| PairedAt(s, p, g', e);
      PairedGreaterIsFirst(s, p, g', e, g);
    }
    if g + 1 <= e - |CloseTag| && MatchesAtIgnoreCase(s, e - |CloseTag|, CloseTag) {
      assert PairedAt(s, p, g, e);
    }
  }

  /** With its `>` fixed, the self-closing alternative can only end just after
      that `>`, and needs a `/` right before it. */
  lemma SelfClosingEnds(s: string, p: nat, g: nat, e: int)
    requires MatchesAtIgnoreCase(s, p, OpenTag)
    requires p + |OpenTag| <= g < |s| && s[g] == '>' && NoCharIn(s, p + |OpenTag|, g, '>')
    ensures SelfClosing(s, p, e) <==> e == g + 1 && g >= p + |OpenTag| + 1 && s[g - 1] == '/'
  {
  }

  /** Without a `>` after `<script` neither alternative matches. */
  lemma NoGreaterNoMatch(s: string, p: nat, e: int)
    requires MatchesAtIgnoreCase(s, p, OpenTag)
    requires NoCharIn(s, p + |OpenTag|, |s|, '>')
    ensures !Paired(s, p, e) && !SelfClosing(s, p, e)
  {
  }

  /** When a `</script>` follows the first `>`, every paired match ends at or
      after the end of the first such `</script>`, and one ends there. */
  lemma ShortestPaired(s: string, p: nat, g: nat, k: nat)
    requires MatchesAtIgnoreCase(s, p, OpenTag)
    requires p + |OpenTag| <= g < |s| && s[g] == '>' && NoCharIn(s, p + |OpenTag|, g, '>')
    requires FindIgnoreCase(s, g + 1, CloseTag) == Some(k)
    ensures Paired(s, p, k + |CloseTag|)
    ensures forall e' :: Paired(s, p, e') ==> k + |CloseTag| <= e'
  {
    PairedEnds(s, p, g, k + |CloseTag|);
    forall e' | Paired(s, p, e') ensures k + |CloseTag| <= e' {
      PairedEnds(s, p, g, e');
    }
  }

  /** When paired matches exist, the engine prefers the shortest. */
  lemma ShortestIsPreferred(s: string, p: nat, shortest: int, e: int)
    requires Paired(s, p, shortest)
    requires forall e' :: Paired(s, p, e') ==> shortest <= e'
    ensures PreferredMatch(s, p, e) <==> e == shortest
  {
    if PreferredMatch(s, p, e) {
      assert Paired(s, p, e) && e <= shortest;
    }
  }

  /** With a `</script>` after the first `>`, the match ends just after it. */
  lemma ClosedEndValue(s: string, p: nat, g: nat, k: nat)
    requires p + |OpenTag| <= g < |s|
    requires FindIgnoreCase(s, g + 1, CloseTag) == Some(k)
    ensures TagEndAfter(s, p, g) == Some(k + |CloseTag|)
  {
  }

  /** When a `</script>` follows the first `>`, the engine reports the paired
      match that ends at the first such `</script>`. */
  lemma ClosedTagEnd(s: string, p: nat, g: nat, k: nat, e: int)
    requires MatchesAtIgnoreCase(s, p, OpenTag)
    requires p + |OpenTag| <= g < |s| && s[g] == '>' && NoCharIn(s, p + |OpenTag|, g, '>')
    requires FindIgnoreCase(s, g + 1, CloseTag) == Some(k)
    ensures TagEndAfter(s, p, g) == Some(e) <==> PreferredMatch(s, p, e)
  {
    ClosedEndValue(s, p, g, k);
    ShortestPaired(s, p, g, k);
    ShortestIsPreferred(s, p, k + |CloseTag|, e);
  }

  /** When no `</script>` follows the first `>`, only the self-closing
      alternative can match. */
  lemma UnclosedTagEnd(s: string, p: nat, g: nat, e: int)
    requires MatchesAtIgnoreCase(s, p, OpenTag)
    requires p + |OpenTag| <= g < |s| && s[g] == '>' && NoCharIn(s, p + |OpenTag|, g, '>')
    requires FindIgnoreCase(s, g + 1, CloseTag).None?
    ensures TagEndAfter(s, p, g) == Some(e) <==> PreferredMatch(s, p, e)
  {
    SelfClosingEnds(s, p, g, e);
    forall e' ensures !Paired(s, p, e') {
      PairedEnds(s, p, g, e');
    }
  }

  /** `TagAt` reports exactly the match the regular-expression engine finds
      at `p`. */
  lemma TagAtIsPreferredMatch(s: string, p: nat, e: int)
    requires p <= |s|
    ensures TagAt(s, p) == Some(e) <==> PreferredMatch(s, p, e)
  {
    if MatchesAtIgnoreCase(s, p, OpenTag) {
      var fg := FindChar(s, p + |OpenTag|, '>');
      if fg.None? {
        NoGreaterNoMatch(s, p, e);
      } else {
        var g := fg.value;
        var fk := FindIgnoreCase(s, g + 1, CloseTag);
        if fk.Some? {
          ClosedTagEnd(s, p, g, fk.value, e);
        } else {
          UnclosedTagEnd(s, p, g, e);
        }
      }
    }
  }

  // ---------------------------------------------------------------------
  // Global matching: the leftmost, non-overlapping matches of a pattern

  /** `m` is a pattern's matcher over a text of length `n`: `m(p)` is the end
      of the match the engine reports at `p`, if any, and such a match is
      non-empty and ends inside the text. */
  ghost predicate Advances(m: nat -> Option<nat>, n: nat) {
    forall p: nat :: p <= n && m(p).Some? ==> p < m(p).value <= n
  }

  /** The matches of a global regular expression from `from` on: the engine
      tries each position in turn and, after a match, resumes at its end. */
  function Scan(m: nat -> Option<nat>, n: nat, from: nat): (r: seq<(nat, nat)>)
    requires from <= n && Advances(m, n)
    ensures forall i :: 0 <= i < |r| ==> from <= r[i].0 < r[i].1 <= n
    ensures forall i :: 0 <= i < |r| - 1 ==> r[i].1 <= r[i + 1].0
    decreases n - from
  {
    if from == n then []
    else match m(from)
      case Some(e) => [(from, e)] + Scan(m, n, e)
      case None => Scan(m, n, from + 1)
  }

  /** Whether position `q` lies inside one of the listed matches. */
  ghost predicate Covered(matches: seq<(nat, nat)>, q: int) {
    exists i :: 0 <= i < |matches| && matches[i].0 <= q < matches[i].1
  }

  /** A position inside the remaining matches lies inside the whole list. */
  lemma CoveredCons(first: (nat, nat), rest: seq<(nat, nat)>, q: int)
    requires Covered(rest, q)
    ensures Covered([first] + rest, q)
  {
    var i :| 0 <= i < |rest| && rest[i].0 <= q < rest[i].1;
    assert ([first] + rest)[i + 1] == rest[i];
  }

  /** Every listed pair is a match the matcher reports. */
  lemma {:induction false} ScanAreMatches(m: nat -> Option<nat>, n: nat, from: nat)
    requires from <= n && Advances(m, n)
    ensures forall i :: 0 <= i < |Scan(m, n, from)| ==> m(Scan(m, n, from)[i].0) == Some(Scan(m, n, from)[i].1)
    decreases n - from
  {
    if from < n {
      match m(from)
      case Some(e) =>
        ScanAreMatches(m, n, e);
        var rest := Scan(m, n, e);
        forall i | 0 < i < |[(from, e)] + rest| ensures ([(from, e)] + rest)[i] == rest[i - 1] {
        }
      case None =>
        ScanAreMatches(m, n, from + 1);
    }
  }

  /** No match is skipped: every position at which the pattern matches lies
      inside one of the listed matches (it is either listed itself or
      swallowed by an earlier, overlapping match). */
  lemma {:induction false} ScanCoversEveryMatch(m: nat -> Option<nat>, n: nat, from: nat, q: nat)
    requires from <= q < n && Advances(m, n) && m(q).Some?
    ensures Covered(Scan(m, n, from), q)
    decreases n - from
  {
    match m(from)
    case Some(e) =>
      if q < e {
        assert Scan(m, n, from)[0] == (from, e);
      } else {
        ScanCoversEveryMatch(m, n, e, q);
        CoveredCons((from, e), Scan(m, n, e), q);
      }
    case None =>
      ScanCoversEveryMatch(m, n, from + 1, q);
  }

  /** A pattern that matches nowhere yields no matches. */
  lemma {:induction false} ScanNoMatch(m: nat -> Option<nat>, n: nat, from: nat)
    requires from <= n && Advances(m, n)
    requires forall p: nat :: from <= p <= n ==> m(p).None?
    ensures Scan(m, n, from) == []
    decreases n - from
  {
    if from < n {
      ScanNoMatch(m, n, from + 1);
    }
  }

  // ---------------------------------------------------------------------
  // The script-tag matches

  /** The script-tag pattern's matcher over `s`. */
  function TagMatcher(s: string): (m: nat -> Option<nat>)
    ensures Advances(m, |s|)
  {
    (p: nat) => if p <= |s| then TagAt(s, p) else None
  }

  /** All matches of the global script-tag pattern in `s[from..]`, as
      `(start, end)` pairs: what `s.match(regex)` returns with the `g` flag. */
  function AllTags(s: string, from: nat): (r: seq<(nat, nat)>)
    requires from <= |s|
    ensures forall i :: 0 <= i < |r| ==> from <= r[i].0 < r[i].1 <= |s|
    ensures forall i :: 0 <= i < |r| - 1 ==> r[i].1 <= r[i + 1].0
  {
    Scan(TagMatcher(s), |s|, from)
  }

  /** Every pair of `r` is a match of the pattern in `s`. */
  ghost predicate AllMatch(s: string, r: seq<(nat, nat)>) {
    forall i :: 0 <= i < |r| ==> r[i].0 <= |s| && TagAt(s, r[i].0) == Some(r[i].1)
  }

  /** Every listed pair is a match of the pattern. */
  lemma AllTagsAreMatches(s: string, from: nat)
    requires from <= |s|
    ensures AllMatch(s, AllTags(s, from))
  {
    var r := AllTags(s, from);
    ScanAreMatches(TagMatcher(s), |s|, from);
    forall i | 0 <= i < |r| ensures r[i].0 <= |s| && TagAt(s, r[i].0) == Some(r[i].1) {
      assert TagMatcher(s)(r[i].0) == Some(r[i].1);
    }
  }

  /** No script-tag match is skipped. */
  lemma AllTagsCoverEveryMatch(s: string, from: nat, q: nat)
    requires from <= q < |s| && TagAt(s, q).Some?
    ensures Covered(AllTags(s, from), q)
  {
    assert TagMatcher(s)(q).Some?;
    ScanCoversEveryMatch(TagMatcher(s), |s|, from, q);
  }

  /** Text without `<script` (in any letter case) holds no script tag. */
  lemma NoOpenTagNoMatch(s: string, from: nat)
    requires from <= |s|
    requires forall q :: !MatchesAtIgnoreCase(s, q, OpenTag)
    ensures AllTags(s, from) == []
  {
    forall p | from <= p <= |s| ensures TagMatcher(s)(p).None? {
      assert TagAt(s, p).None?;
    }
    ScanNoMatch(TagMatcher(s), |s|, from);
  }

  // ---------------------------------------------------------------------
  // The quoted-attribute pattern

  /** The capture of `NAME=["']([^"']+)["']` anchored at `p`, if it matches. */
  function QuotedAt(s: string, p: nat, name: string): (r: Option<string>)
    requires p <= |s|
    ensures r.Some? ==> r.value != [] && forall k :: 0 <= k < |r.value| ==> !IsQuote(r.value[k])
  {
    var v := p + |name| + 2;
    if !MatchesAtIgnoreCase(s, p, name + "=") || v > |s| || !IsQuote(s[v - 1]) then None
    else match FindQuote(s, v)
      case None => None
      case Some(q) => if q == v then None else Some(s[v..q])
  }

  /** Reference meaning of "the pattern matches at `p` capturing `val`". */
  ghost predicate QuotedMatch(s: string, p: int, name: string, val: string) {
    var v := p + |name| + 2;
    && MatchesAtIgnoreCase(s, p, name + "=")
    && v <= |s| && IsQuote(s[v - 1])
    && val != [] && v + |val| < |s| && s[v..v + |val|] == val
    && (forall k :: 0 <= k < |val| ==> !IsQuote(val[k]))
    && IsQuote(s[v + |val|])
  }

  /** `QuotedAt` finds the match whenever there is one, and the capture is
      unique: the greedy class cannot stop before the first quote. */
  lemma QuotedAtIsMatch(s: string, p: nat, name: string, val: string)
    requires p <= |s|
    ensures QuotedAt(s, p, name) == Some(val) <==> QuotedMatch(s, p, name, val)
  {
    var v := p + |name| + 2;
    if QuotedMatch(s, p, name, val) {
      var q := FindQuote(s, v);
      assert q.Some?;
    }
  }

  /** The leftmost position at or after `from` where the quoted-attribute
      pattern matches. */
  function FindQuoted(s: string, name: string, from: nat): (r: Option<nat>)
    requires from <= |s|
    ensures r.Some? ==> from <= r.value <= |s| && QuotedAt(s, r.value, name).Some?
    ensures r.Some? ==> forall k :: from <= k < r.value ==> QuotedAt(s, k, name).None?
    ensures r.None? ==> forall k :: from <= k <= |s| ==> QuotedAt(s, k, name).None?
    decreases |s| - from
  {
    if QuotedAt(s, from, name).Some? then Some(from)
    else if from == |s| then None
    else FindQuoted(s, name, from + 1)
  }

  /** `s.match(/NAME=["']([^"']+)["']/i)?.[1]`. */
  function QuotedValue(s: string, name: string): (r: Option<string>)
    ensures r.Some? ==> r.value != [] && forall k :: 0 <= k < |r.value| ==> !IsQuote(r.value[k])
    ensures r.Some? ==> Contains(s, r.value)
    ensures r.Some? <==> exists p :: 0 <= p <= |s| && QuotedAt(s, p, name).Some?
    ensures r.Some? ==> exists p :: 0 <= p <= |s| && QuotedAt(s, p, name) == Some(r.value)
                                && forall k :: 0 <= k < p ==> QuotedAt(s, k, name).None?
  {
    match FindQuoted(s, name, 0)
    case None => None
    case Some(p) =>
      var val := QuotedAt(s, p, name).value;
      QuotedAtIsMatch(s, p, name, val);
      assert OccursAt(s, val, p + |name| + 2);
      Some(val)
  }
}
