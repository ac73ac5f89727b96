/** The few JavaScript string operations the rules rely on: the newline
    strip of space_around_comma.js, `indexOf`, `String.prototype.replace`
    with a string pattern, and `%s` formatting with one, two or three
    arguments as `sprintf` and `util.format` do it. */
module JsStrings {

  /** `s.replace(/\n/g, '')`: every newline character removed. */
  function StripNewlines(s: string): (r: string)
    ensures |r| <= |s|
    ensures forall k :: 0 <= k < |r| ==> r[k] != '\n'
  {
    if s == [] then []
    else (if s[0] == '\n' then [] else [s[0]]) + StripNewlines(s[1..])
  }

  /** A string without newlines is left as it is. */
  lemma {:induction false} StripWithoutNewlines(s: string)
    requires forall k :: 0 <= k < |s| ==> s[k] != '\n'
    ensures StripNewlines(s) == s
  {
    if s != [] {
      StripWithoutNewlines(s[1..]);
    }
  }

  /** Stripping twice is stripping once. */
  lemma StripIdempotent(s: string)
    ensures StripNewlines(StripNewlines(s)) == StripNewlines(s)
  {
    StripWithoutNewlines(StripNewlines(s));
  }

  /** The strip works character by character, so it distributes over
      concatenation and keeps the order of what it does not remove. */
  lemma {:induction false} StripConcat(a: string, b: string)
    ensures StripNewlines(a + b) == StripNewlines(a) + StripNewlines(b)
  {
    if a == [] {
      assert a + b == b;
    } else {
      assert (a + b)[0] == a[0];
      assert (a + b)[1..] == a[1..] + b;
      StripConcat(a[1..], b);
    }
  }

  /** Only newlines are removed: every other character keeps its count. */
  lemma {:induction false} StripKeepsOtherCharacters(s: string, c: char)
    requires c != '\n'
    ensures multiset(StripNewlines(s))[c] == multiset(s)[c]
    ensures multiset(StripNewlines(s))['\n'] == 0
  {
    if s != [] {
      StripKeepsOtherCharacters(s[1..], c);
      assert s == [s[0]] + s[1..];
    }
  }

  predicate OccursAt(s: string, pat: string, k: int)
  {
    0 <= k && k + |pat| <= |s| && s[k..k + |pat|] == pat
  }

  /** Character-by-character comparison of `pat[j..]` with the text of `s`
      at `i + j`. */
  predicate MatchFrom(s: string, pat: string, i: nat, j: nat)
    requires i + |pat| <= |s| && j <= |pat|
    decreases |pat| - j
  {
    j == |pat| || (s[i + j] == pat[j] && MatchFrom(s, pat, i, j + 1))
  }

  lemma {:induction false} MatchFromIsOccurrence(s: string, pat: string, i: nat, j: nat)
    requires i + |pat| <= |s| && j <= |pat|
    ensures MatchFrom(s, pat, i, j) <==> s[i + j..i + |pat|] == pat[j..]
    decreases |pat| - j
  {
    if j < |pat| {
      MatchFromIsOccurrence(s, pat, i, j + 1);
      assert s[i + j..i + |pat|] == [s[i + j]] + s[i + j + 1..i + |pat|];
      assert pat[j..] == [pat[j]] + pat[j + 1..];
    }
  }

  /** The search behind `indexOf`, started at position `i`. */
  function IndexFrom(s: string, pat: string, i: nat): (r: int)
    ensures r == -1 || (i <= r && OccursAt(s, pat, r))
    ensures r != -1 ==> forall k :: i <= k < r ==> !OccursAt(s, pat, k)
    ensures r == -1 ==> forall k :: i <= k ==> !OccursAt(s, pat, k)
    decreases |s| - i
  {
    if i + |pat| > |s| then -1
    else if MatchFrom(s, pat, i, 0) then
      MatchFromIsOccurrence(s, pat, i, 0);
      i
    else
      MatchFromIsOccurrence(s, pat, i, 0);
      IndexFrom(s, pat, i + 1)
  }

  /** `s.indexOf(pat)`: the first position at which `pat` occurs, or -1. */
  function IndexOf(s: string, pat: string): int
  {
    IndexFrom(s, pat, 0)
  }

  /** `s.replace(pat, rep)` with a string pattern: only the first occurrence
      is replaced; without one the string is returned unchanged. */
  function ReplaceFirst(s: string, pat: string, rep: string): string
  {
    var i := IndexOf(s, pat);
    if i == -1 then s else s[..i] + rep + s[i + |pat|..]
  }

  /** What `replace` does, stated against the occurrences of the pattern
      rather than against the search: without one the string is returned
      as it is; otherwise the occurrence with none before it is replaced. */
  lemma ReplaceFirstMeaning(s: string, pat: string, rep: string)
    ensures (forall k :: !OccursAt(s, pat, k)) ==> ReplaceFirst(s, pat, rep) == s
    ensures forall i :: OccursAt(s, pat, i) && (forall k :: 0 <= k < i ==> !OccursAt(s, pat, k)) ==>
              ReplaceFirst(s, pat, rep) == s[..i] + rep + s[i + |pat|..]
  {
    LeastOccurrence(s, pat);
  }

  /** The occurrence `indexOf` finds is the only one with none before it. */
  lemma LeastOccurrence(s: string, pat: string)
    ensures IndexOf(s, pat) == -1 <==> forall k :: !OccursAt(s, pat, k)
    ensures forall i :: OccursAt(s, pat, i) && (forall k :: 0 <= k < i ==> !OccursAt(s, pat, k)) ==>
              i == IndexOf(s, pat)
  {
    var j := IndexOf(s, pat);
    forall i | OccursAt(s, pat, i) && (forall k :: 0 <= k < i ==> !OccursAt(s, pat, k))
      ensures i == j
    {
    }
  }

  /** `sprintf(template, arg)` for a template with one `%s` directive. */
  function Sprintf1(template: string, arg: string): string
  {
    ReplaceFirst(template, "%s", arg)
  }

  /** `sprintf(template, a1, a2)` for a template with two `%s` directives:
      the first is replaced by `a1` and the second, searched for only after
      it, by `a2`. */
  function Sprintf2(template: string, a1: string, a2: string): string
  {
    var i := IndexOf(template, "%s");
    if i == -1 then template else template[..i] + a1 + Sprintf1(template[i + 2..], a2)
  }

  /** `util.format(template, a1, a2, a3)` for a template with three `%s`
      directives, filled from left to right. */
  function Format3(template: string, a1: string, a2: string, a3: string): string
  {
    var i := IndexOf(template, "%s");
    if i == -1 then template else template[..i] + a1 + Sprintf2(template[i + 2..], a2, a3)
  }

  // The lemmas below let a search over a string written as a concatenation
  // of known pieces be followed piece by piece.

  /** A piece that does not contain the first character of the pattern is
      skipped by the search. */
  lemma {:induction false} SearchSkipsPiece(p: string, x: string, q: string, pat: string)
    requires pat != [] && pat[0] !in x
    ensures IndexFrom(p + x + q, pat, |p|) == IndexFrom(p + x + q, pat, |p| + |x|)
    decreases |x|
  {
    if x != [] {
      var s := p + x + q;
      assert s[|p|] == x[0];
      if |p| + |pat| <= |s| {
        assert s[|p|..|p| + |pat|][0] == x[0];
      }
      assert s == (p + [x[0]]) + x[1..] + q;
      SearchSkipsPiece(p + [x[0]], x[1..], q, pat);
    }
  }

  /** A position where some character of the pattern does not match is
      passed over. */
  lemma SearchSkipsMismatch(s: string, pat: string, i: nat, k: nat)
    requires k < |pat| && i + k < |s| && s[i + k] != pat[k]
    ensures IndexFrom(s, pat, i) == IndexFrom(s, pat, i + 1)
  {
    if i + |pat| <= |s| {
      assert s[i..i + |pat|][k] == s[i + k];
    }
  }

  /** The search stops at an occurrence. */
  lemma SearchFindsPiece(p: string, pat: string, q: string)
    ensures IndexFrom(p + pat + q, pat, |p|) == |p|
  {
    assert (p + pat + q)[|p|..|p| + |pat|] == pat;
    MatchFromIsOccurrence(p + pat + q, pat, |p|, 0);
  }

  /** Replacing the first occurrence of `pat` in `p + pat + q`, when that
      occurrence is the first one, gives `p + rep + q`. */
  lemma ReplaceAt(p: string, pat: string, q: string, rep: string)
    requires IndexOf(p + pat + q, pat) == |p|
    ensures ReplaceFirst(p + pat + q, pat, rep) == p + rep + q
  {
    var s := p + pat + q;
    assert s[..|p|] == p;
    assert s[|p| + |pat|..] == q;
  }

  /** In `p + "%s" + rest`, with no `%` in `p`, the first directive is
      the one after `p`. */
  lemma FirstDirective(p: string, rest: string)
    requires '%' !in p
    ensures IndexOf(p + "%s" + rest, "%s") == |p|
    ensures (p + "%s" + rest)[..|p|] == p && (p + "%s" + rest)[|p| + 2..] == rest
  {
    SearchSkipsPiece([], p, "%s" + rest, "%s");
    assert [] + p + ("%s" + rest) == p + "%s" + rest;
    SearchFindsPiece(p, "%s", rest);
  }

  /** `sprintf(p + "%s" + q, arg)` when `p` holds no `%`. */
  lemma Sprintf1Piece(p: string, q: string, arg: string)
    requires '%' !in p
    ensures Sprintf1(p + "%s" + q, arg) == p + arg + q
  {
    FirstDirective(p, q);
  }

  /** The same, for a template and a result given whole. */
  lemma Sprintf1Text(template: string, p: string, q: string, arg: string, result: string)
    requires template == p + "%s" + q && '%' !in p && result == p + arg + q
    ensures Sprintf1(template, arg) == result
  {
    Sprintf1Piece(p, q, arg);
  }

  /** In `pre + c + p2 + rest`, where `c` is one character, the character
      after it differs from `pat[1]` and `p2` does not contain `pat[0]`, no
      occurrence starts in `c + p2`. */
  lemma SearchSkipsSegment(pre: string, c: string, p2: string, rest: string, pat: string)
    requires |c| == 1 && |pat| >= 2 && pat[0] !in p2
    requires p2 != [] && p2[0] != pat[1]
    ensures IndexFrom(pre + c + p2 + rest, pat, |pre|) == IndexFrom(pre + c + p2 + rest, pat, |pre| + 1 + |p2|)
  {
    var s := pre + c + p2 + rest;
    assert s[|pre| + 1] == p2[0];
    SearchSkipsMismatch(s, pat, |pre|, 1);
    assert s == (pre + c) + p2 + rest;
    SearchSkipsPiece(pre + c, p2, rest, pat);
  }

  /** `replace` on `p1 + c + p2 + pat + q` when no occurrence starts in
      `p1` (it lacks `pat[0]`) or in `c + p2` (as in SearchSkipsSegment). */
  lemma ReplaceFirstText(template: string, p1: string, c: string, p2: string, pat: string, q: string,
                         rep: string, result: string)
    requires template == p1 + c + p2 + pat + q
    requires |c| == 1 && |pat| >= 2 && pat[0] !in p1 && pat[0] !in p2 && p2 != [] && p2[0] != pat[1]
    requires result == p1 + c + p2 + rep + q
    ensures ReplaceFirst(template, pat, rep) == result
  {
    assert template == [] + p1 + (c + p2 + pat + q);
    SearchSkipsPiece([], p1, c + p2 + pat + q, pat);
    assert template == p1 + c + p2 + (pat + q);
    SearchSkipsSegment(p1, c, p2, pat + q, pat);
    assert template == (p1 + c + p2) + pat + q;
    SearchFindsPiece(p1 + c + p2, pat, q);
    ReplaceAt(p1 + c + p2, pat, q, rep);
  }

  /** `replace` on `p1 + c1 + p2 + c2 + p3`, a text shown to hold no
      occurrence of `pat` segment by segment, returns it unchanged. */
  lemma ReplaceFirstAbsent(text: string, p1: string, c1: string, p2: string, c2: string, p3: string,
                           pat: string, rep: string)
    requires text == p1 + c1 + p2 + c2 + p3
    requires |c1| == 1 && |c2| == 1 && |pat| >= 2
    requires pat[0] !in p1 && pat[0] !in p2 && pat[0] !in p3
    requires p2 != [] && p2[0] != pat[1] && p3 != [] && p3[0] != pat[1]
    ensures ReplaceFirst(text, pat, rep) == text
  {
    assert text == [] + p1 + (c1 + p2 + c2 + p3);
    SearchSkipsPiece([], p1, c1 + p2 + c2 + p3, pat);
    assert text == p1 + c1 + p2 + (c2 + p3);
    SearchSkipsSegment(p1, c1, p2, c2 + p3, pat);
    assert text == (p1 + c1 + p2) + c2 + p3 + [];
    SearchSkipsSegment(p1 + c1 + p2, c2, p3, [], pat);
  }

  /** `sprintf(p + "%s" + (q + "%s" + r), a1, a2)` when `p` and `q` hold
      no `%`. */
  lemma Sprintf2Piece(p: string, q: string, r: string, a1: string, a2: string)
    requires '%' !in p && '%' !in q
    ensures Sprintf2(p + "%s" + (q + "%s" + r), a1, a2) == p + a1 + (q + a2 + r)
  {
    FirstDirective(p, q + "%s" + r);
    Sprintf1Piece(q, r, a2);
  }

  /** `sprintf("%s" + (q + "%s" + r), a1, a2)` when `q` holds no `%`. */
  lemma Sprintf2Lead(q: string, r: string, a1: string, a2: string)
    requires '%' !in q
    ensures Sprintf2("%s" + (q + "%s" + r), a1, a2) == a1 + (q + a2 + r)
  {
    Sprintf2Piece("", q, r, a1, a2);
    assert "" + "%s" + (q + "%s" + r) == "%s" + (q + "%s" + r);
    assert "" + a1 + (q + a2 + r) == a1 + (q + a2 + r);
  }

  /** The same, for a template and a result given whole. */
  lemma Sprintf2Text(template: string, p: string, q: string, r: string, a1: string, a2: string, result: string)
    requires template == p + "%s" + (q + "%s" + r)
    requires '%' !in p && '%' !in q
    requires result == p + a1 + (q + a2 + r)
    ensures Sprintf2(template, a1, a2) == result
  {
    Sprintf2Piece(p, q, r, a1, a2);
  }

  /** `util.format(p + "%s" + (q + "%s" + (r + "%s" + t)), a1, a2, a3)` when
      `p`, `q` and `r` hold no `%`. */
  lemma Format3Piece(p: string, q: string, r: string, t: string, a1: string, a2: string, a3: string)
    requires '%' !in p && '%' !in q && '%' !in r
    ensures Format3(p + "%s" + (q + "%s" + (r + "%s" + t)), a1, a2, a3) == p + a1 + (q + a2 + (r + a3 + t))
  {
    FirstDirective(p, q + "%s" + (r + "%s" + t));
    Sprintf2Piece(q, r, t, a2, a3);
  }

  /** The same, for a template and a result given whole. */
  lemma Format3Text(template: string, p: string, q: string, r: string, t: string,
                    a1: string, a2: string, a3: string, result: string)
    requires template == p + "%s" + (q + "%s" + (r + "%s" + t))
    requires '%' !in p && '%' !in q && '%' !in r
    requires result == p + a1 + (q + a2 + (r + a3 + t))
    ensures Format3(template, a1, a2, a3) == result
  {
    Format3Piece(p, q, r, t, a1, a2, a3);
  }
}
