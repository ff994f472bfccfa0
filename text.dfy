/** The parts of Rust's `str` API that the output parsers and the boot-config
    scan rely on: `lines`, `trim`, `split_whitespace`, `contains`, `split` and
    `to_lowercase`, each stated over `seq<char>`. */
module Text {
  import opened Wrappers

  /** Unicode `White_Space`, the set `char::is_whitespace` tests (and so the set
      `trim` and `split_whitespace` remove). */
  predicate IsWhitespace(c: char) {
    ('\t' <= c <= '\r') || c == ' ' || c == '\U{85}' || c == '\U{A0}' || c == '\U{1680}'
    || ('\U{2000}' <= c <= '\U{200A}') || c == '\U{2028}' || c == '\U{2029}'
    || c == '\U{202F}' || c == '\U{205F}' || c == '\U{3000}'
  }

  predicate AllWhitespace(s: string) {
    forall i :: 0 <= i < |s| ==> IsWhitespace(s[i])
  }

  predicate NoWhitespace(s: string) {
    forall i :: 0 <= i < |s| ==> !IsWhitespace(s[i])
  }

  // ---------------------------------------------------------------------------
  // trim

  /** `trim_start`: the longest suffix that does not start with whitespace. */
  function TrimStart(s: string): (r: string)
    ensures |r| <= |s| && r == s[|s| - |r|..]
    ensures AllWhitespace(s[..|s| - |r|])
    ensures |r| > 0 ==> !IsWhitespace(r[0])
    decreases |s|
  {
    if |s| > 0 && IsWhitespace(s[0]) then TrimStart(s[1..]) else s
  }

  /** `trim_end`: the longest prefix that does not end with whitespace. */
  function TrimEnd(s: string): (r: string)
    ensures |r| <= |s| && r == s[..|r|]
    ensures AllWhitespace(s[|r|..])
    ensures |r| > 0 ==> !IsWhitespace(r[|r| - 1])
    decreases |s|
  {
    if |s| > 0 && IsWhitespace(s[|s| - 1]) then TrimEnd(s[..|s| - 1]) else s
  }

  /** `trim`: whitespace removed at both ends, so what is left neither starts
      nor ends with whitespace. */
  function Trim(s: string): (r: string)
    ensures |r| <= |s|
    ensures |r| > 0 ==> !IsWhitespace(r[0]) && !IsWhitespace(r[|r| - 1])
  {
    TrimEnd(TrimStart(s))
  }

  /** What `trim` returns is a contiguous part of its input, and only
      whitespace is cut away. */
  lemma {:induction false} TrimIsSlice(s: string)
    ensures exists i, j :: 0 <= i <= j <= |s| && Trim(s) == s[i..j]
              && AllWhitespace(s[..i]) && AllWhitespace(s[j..])
  {
    var t := TrimStart(s);
    var r := TrimEnd(t);
    var i := |s| - |t|;
    var j := i + |r|;
    assert Trim(s) == r;
    assert t == s[i..] && r == t[..|r|];
    assert r == s[i..j];
    assert AllWhitespace(s[..i]);
    assert s[j..] == t[|r|..];
    assert AllWhitespace(s[j..]);
  }

  /** The result of `trim` neither starts nor ends with whitespace, and it is
      empty exactly when the input is all whitespace. */
  lemma {:induction false} TrimEnds(s: string)
    ensures |Trim(s)| > 0 ==> !IsWhitespace(Trim(s)[0]) && !IsWhitespace(Trim(s)[|Trim(s)| - 1])
    ensures Trim(s) == [] <==> AllWhitespace(s)
  {
    var t := TrimStart(s);
    var r := TrimEnd(t);
    if r != [] {
      assert !IsWhitespace(t[0]);
      assert r[0] == t[0];
      assert s[|s| - |t|] == t[0];
    }
  }

  /** Text that neither starts nor ends with whitespace is its own trim. */
  lemma {:induction false} TrimOfTrimmed(s: string)
    requires |s| > 0 ==> !IsWhitespace(s[0]) && !IsWhitespace(s[|s| - 1])
    ensures Trim(s) == s
  {
    assert TrimStart(s) == s;
  }

  /** Trimming is idempotent. */
  lemma {:induction false} TrimIdempotent(s: string)
    ensures Trim(Trim(s)) == Trim(s)
  {
    var r := Trim(s);
    TrimEnds(s);
    if |r| > 0 {
      assert TrimStart(r) == r;
      assert TrimEnd(r) == r;
    }
  }

  // ---------------------------------------------------------------------------
  // lines

  /** The first position of `c` in `s`, or `|s|` when `c` does not occur. */
  function IndexOf(s: string, c: char): (i: nat)
    ensures i <= |s| && (i < |s| ==> s[i] == c)
    ensures forall k :: 0 <= k < i ==> s[k] != c
    decreases |s|
  {
    if |s| == 0 then 0 else if s[0] == c then 0 else 1 + IndexOf(s[1..], c)
  }

  /** One line of `str::lines` without its terminator: a `'\r'` directly before
      the `'\n'` belongs to the terminator. */
  function StripCr(s: string): string {
    if |s| > 0 && s[|s| - 1] == '\r' then s[..|s| - 1] else s
  }

  /** `str::lines`: the text split at each `'\n'` (a `"\r\n"` counts as one
      terminator), with the final terminator optional, so that a text ending in
      a terminator has no empty line after it. */
  function Lines(s: string): (ls: seq<string>)
    ensures forall k :: 0 <= k < |ls| ==> '\n' !in ls[k]
    decreases |s|
  {
    if |s| == 0 then []
    else
      var i := IndexOf(s, '\n');
      if i == |s| then [s] else [StripCr(s[..i])] + Lines(s[i + 1..])
  }

  /** The text a writer produces when it ends each line with `'\n'`. */
  function Terminated(ls: seq<string>): string {
    if |ls| == 0 then [] else ls[0] + "\n" + Terminated(ls[1..])
  }

  /** A line that `str::lines` can return unchanged. */
  predicate PlainLine(l: string) {
    '\n' !in l && (|l| == 0 || l[|l| - 1] != '\r')
  }

  /** `str::lines` recovers the lines of a `'\n'`-terminated text. */
  lemma {:induction false} LinesOfTerminated(ls: seq<string>)
    requires forall k :: 0 <= k < |ls| ==> PlainLine(ls[k])
    ensures Lines(Terminated(ls)) == ls
    decreases |ls|
  {
    if |ls| > 0 {
      var l := ls[0];
      var rest := Terminated(ls[1..]);
      var s := l + "\n" + rest;
      assert s == Terminated(ls);
      assert s[|l|] == '\n';
      assert forall k :: 0 <= k < |l| ==> s[k] == l[k];
      assert IndexOf(s, '\n') == |l|;
      assert s[..|l|] == l;
      assert s[|l| + 1..] == rest;
      LinesOfTerminated(ls[1..]);
    }
  }

  // ---------------------------------------------------------------------------
  // split_whitespace

  /** The first position of a whitespace character, or `|s|`. */
  function WhitespaceAt(s: string): (i: nat)
    ensures i <= |s| && (i < |s| ==> IsWhitespace(s[i]))
    ensures NoWhitespace(s[..i])
    decreases |s|
  {
    if |s| == 0 then 0
    else if IsWhitespace(s[0]) then 0
    else
      var i := 1 + WhitespaceAt(s[1..]);
      assert s[..i] == [s[0]] + s[1..][..i - 1];
      i
  }

  /** `split_whitespace`: the maximal non-empty runs of non-whitespace, in
      order; every token is a non-empty run of non-whitespace characters. */
  function Tokens(s: string): (ts: seq<string>)
    ensures Words(ts)
    decreases |s|
  {
    var t := TrimStart(s);
    if |t| == 0 then []
    else
      var i := WhitespaceAt(t);
      var rest := Tokens(t[i..]);
      WordsCons(t[..i], rest);
      [t[..i]] + rest
  }

  /** Non-empty runs of non-whitespace characters. */
  predicate Words(ts: seq<string>) {
    forall k :: 0 <= k < |ts| ==> |ts[k]| > 0 && NoWhitespace(ts[k])
  }

  lemma {:induction false} WordsCons(w: string, ts: seq<string>)
    requires |w| > 0 && NoWhitespace(w) && Words(ts)
    ensures Words([w] + ts)
  {
    var ws := [w] + ts;
    forall k | 1 <= k < |ws| ensures ws[k] == ts[k - 1] {
    }
  }

  /** The tokens joined with a single space each. */
  function Spaced(ts: seq<string>): string {
    if |ts| == 0 then [] else ts[0] + " " + Spaced(ts[1..])
  }

  /** A token followed by a space is split off first. */
  lemma {:induction false} TokensCons(w: string, rest: string)
    requires |w| > 0 && NoWhitespace(w)
    ensures Tokens(w + " " + rest) == [w] + Tokens(rest)
  {
    var s := w + " " + rest;
    assert s[0] == w[0];
    assert TrimStart(s) == s;
    assert s[|w|] == ' ';
    assert forall k :: 0 <= k < |w| ==> s[k] == w[k];
    assert WhitespaceAt(s) == |w|;
    assert s[..|w|] == w;
    var tail := s[|w|..];
    assert tail[1..] == rest;
    assert TrimStart(tail) == TrimStart(rest);
  }

  /** `split_whitespace` recovers the tokens of a space-separated text. */
  lemma {:induction false} TokensOfSpaced(ts: seq<string>)
    requires Words(ts)
    ensures Tokens(Spaced(ts)) == ts
    decreases |ts|
  {
    if |ts| > 0 {
      TokensCons(ts[0], Spaced(ts[1..]));
      TokensOfSpaced(ts[1..]);
    }
  }

  // ---------------------------------------------------------------------------
  // to_lowercase

  /** `char::to_lowercase` restricted to the characters whose lowercase form is
      an ASCII letter: `'A'..'Z'` and KELVIN SIGN (U+212A, lowercase `'k'`).
      Every other character is returned unchanged: the result is never an
      ASCII capital or KELVIN SIGN, and differs from `c` exactly when `c` is one. */
  function LowerChar(c: char): (d: char)
    ensures 'a' <= d <= 'z' ==> ('a' <= c <= 'z' || 'A' <= c <= 'Z' || c == '\U{212A}')
    ensures !('A' <= d <= 'Z') && d != '\U{212A}'
    ensures d != c <==> 'A' <= c <= 'Z' || c == '\U{212A}'
  {
    if 'A' <= c <= 'Z' then (c as int + 32) as char
    else if c == '\U{212A}' then 'k'
    else c
  }

  /** `to_lowercase` on a string, one character at a time: no ASCII capital
      and no KELVIN SIGN is left, and (by `LowerChar`) only those characters
      change. */
  function Lower(s: string): (r: string)
    ensures |r| == |s| && forall i :: 0 <= i < |s| ==> r[i] == LowerChar(s[i])
    ensures forall i :: 0 <= i < |r| ==> !('A' <= r[i] <= 'Z') && r[i] != '\U{212A}'
  {
    seq(|s|, i requires 0 <= i < |s| => LowerChar(s[i]))
  }

  predicate IsLowerAscii(s: string) {
    forall i :: 0 <= i < |s| ==> 'a' <= s[i] <= 'z'
  }

  /** A string lowercases to a lower-case ASCII word `w` exactly when it
      spells `w` letter by letter in either case (with KELVIN SIGN for `'k'`). */
  lemma {:induction false} LowerMatches(s: string, w: string)
    requires IsLowerAscii(w)
    ensures Lower(s) == w <==>
              |s| == |w| && forall i :: 0 <= i < |s| ==>
                s[i] == w[i] || s[i] as int == w[i] as int - 32 || (w[i] == 'k' && s[i] == '\U{212A}')
  {
    if |s| == |w| && forall i :: 0 <= i < |s| ==>
         s[i] == w[i] || s[i] as int == w[i] as int - 32 || (w[i] == 'k' && s[i] == '\U{212A}') {
      forall i | 0 <= i < |s| ensures Lower(s)[i] == w[i] {
        assert 'a' <= w[i] <= 'z';
      }
    }
  }

  /** Lowercasing is idempotent. */
  lemma {:induction false} LowerIdempotent(s: string)
    ensures Lower(Lower(s)) == Lower(s)
  {
    forall i | 0 <= i < |s| ensures Lower(Lower(s))[i] == Lower(s)[i] {
      assert LowerChar(LowerChar(s[i])) == LowerChar(s[i]);
    }
  }

  // ---------------------------------------------------------------------------
  // contains / split

  predicate OccursAt(s: string, pat: string, i: nat) {
    i + |pat| <= |s| && s[i..i + |pat|] == pat
  }

  /** The first occurrence of `pat` in `s` at or after `from`, if any. */
  function Find(s: string, pat: string, from: nat): (r: Option<nat>)
    requires from <= |s|
    ensures r.Some? ==> from <= r.value && OccursAt(s, pat, r.value)
    ensures forall k :: from <= k && (r.None? || k < r.value) ==> !OccursAt(s, pat, k)
    decreases |s| - from
  {
    if OccursAt(s, pat, from) then Some(from)
    else if from == |s| then None
    else Find(s, pat, from + 1)
  }

  /** `s.contains(pat)`. */
  predicate Contains(s: string, pat: string) {
    exists i: nat | i <= |s| :: OccursAt(s, pat, i)
  }

  lemma {:induction false} ContainsIsFound(s: string, pat: string)
    ensures Contains(s, pat) <==> Find(s, pat, 0).Some?
  {
    if Find(s, pat, 0).Some? {
      assert OccursAt(s, pat, Find(s, pat, 0).value);
    }
  }

  /** `s.split(pat).next()`: the text before the first occurrence, or all of `s`. */
  function BeforeFirst(s: string, pat: string): (r: string)
    requires |pat| > 0
    ensures r <= s
  {
    match Find(s, pat, 0)
    case Some(i) => s[..i]
    case None => s
  }

  /** `s.split(pat).nth(1)`: the text between the first and the second
      occurrence (or the end), when `pat` occurs at all. The search for the
      second occurrence starts after the first one, as `split`'s matches do
      not overlap. */
  function SecondPiece(s: string, pat: string): (r: Option<string>)
    requires |pat| > 0
    ensures r.Some? <==> Contains(s, pat)
  {
    ContainsIsFound(s, pat);
    match Find(s, pat, 0)
    case None => None
    case Some(i) =>
      var start := i + |pat|;
      match Find(s, pat, start)
      case Some(j) => Some(s[start..j])
      case None => Some(s[start..])
  }

  /** The second piece of `split` starts right after the first occurrence of
      the pattern, holds no occurrence of its own, and ends at the end of the
      text or where the pattern occurs again. */
  lemma {:induction false} SecondPieceFollowsFirst(s: string, pat: string, i: nat)
    requires |pat| > 0 && OccursAt(s, pat, i)
    requires forall k: nat :: k < i ==> !OccursAt(s, pat, k)
    ensures SecondPiece(s, pat).Some?
    ensures SecondPiece(s, pat).value <= s[i + |pat|..]
    ensures forall k: nat :: k + |pat| <= |SecondPiece(s, pat).value| ==>
              !OccursAt(SecondPiece(s, pat).value, pat, k)
    ensures i + |pat| + |SecondPiece(s, pat).value| == |s|
            || OccursAt(s, pat, i + |pat| + |SecondPiece(s, pat).value|)
  {
    ContainsIsFound(s, pat);
    assert Find(s, pat, 0).value == i;
    var start := i + |pat|;
    var end;
    match Find(s, pat, start) {
      case Some(j) =>
        end := j;
      case None =>
        end := |s|;
        assert s[start..] == s[start..end];
    }
    assert SecondPiece(s, pat) == Some(s[start..end]);
    NoOccurrenceInside(s, pat, start, end);
  }

  /** When the text starts with the pattern and the pattern's first character
      does not occur again, the second piece is all the rest. */
  lemma {:induction false} SecondPieceOfPrefixed(pat: string, rest: string)
    requires |pat| > 0 && pat[0] !in rest
    ensures SecondPiece(pat + rest, pat) == Some(rest)
  {
    var s := pat + rest;
    assert s[0..|pat|] == pat;
    assert Find(s, pat, 0) == Some(0);
    forall k | |pat| <= k && k + |pat| <= |s| ensures !OccursAt(s, pat, k) {
      assert s[k..k + |pat|][0] == rest[k - |pat|];
    }
    assert Find(s, pat, |pat|).None?;
    assert s[|pat|..] == rest;
  }

  /** The first piece of `split` ends where the pattern first occurs, which is
      right after `a` when the pattern's first character is not in `a`. */
  lemma {:induction false} BeforeFirstOfPrefixed(a: string, pat: string, tail: string)
    requires |pat| > 0 && pat[0] !in a
    ensures BeforeFirst(a + (pat + tail), pat) == a
  {
    var s := a + (pat + tail);
    assert s[|a|..|a| + |pat|] == pat;
    assert OccursAt(s, pat, |a|);
    forall k: nat | k < |a| && k + |pat| <= |s| ensures !OccursAt(s, pat, k) {
      assert s[k..k + |pat|][0] == a[k];
    }
    var r := Find(s, pat, 0);
    assert r.Some? && r.value <= |a|;
    assert s[..|a|] == a;
  }

  /** No occurrence lies wholly inside a stretch that `Find` skipped over. */
  lemma {:induction false} NoOccurrenceInside(s: string, pat: string, start: nat, end: nat)
    requires start <= end <= |s| && |pat| > 0
    requires forall k :: start <= k && k + |pat| <= end ==> !OccursAt(s, pat, k)
    ensures forall k: nat :: k + |pat| <= end - start ==> !OccursAt(s[start..end], pat, k)
  {
    var p := s[start..end];
    assert |p| == end - start;
    forall k: nat | k + |pat| <= |p| ensures !OccursAt(p, pat, k) {
      var inner, outer := p[k..k + |pat|], s[start + k..start + k + |pat|];
      assert forall t :: 0 <= t < |pat| ==> inner[t] == outer[t];
      assert inner == outer;
      assert !OccursAt(s, pat, start + k);
    }
  }
}
