/** `str::parse::<f64>`: the decimal grammar Rust accepts, with the value of a
    decimal literal taken exactly (no rounding to the nearest `f64`). */
module FloatText {
  import opened Wrappers
  import Text

  /** A parsed `f64`: a finite value, an infinity, or NaN. */
  datatype Float = Finite(value: real) | Infinity(negative: bool) | NotANumber

  predicate IsDigit(c: char) {
    '0' <= c <= '9'
  }

  predicate AllDigits(s: string) {
    forall i :: 0 <= i < |s| ==> IsDigit(s[i])
  }

  /** The length of the run of digits at the start of `s`. */
  function DigitRun(s: string): (n: nat)
    ensures n <= |s| && AllDigits(s[..n]) && (n < |s| ==> !IsDigit(s[n]))
    decreases |s|
  {
    if |s| > 0 && IsDigit(s[0]) then
      var n := 1 + DigitRun(s[1..]);
      assert s[..n] == [s[0]] + s[1..][..n - 1];
      n
    else 0
  }

  function Pow10(k: nat): (p: nat)
    ensures p >= 1
  {
    if k == 0 then 1 else 10 * Pow10(k - 1)
  }

  /** The number a string of decimal digits denotes. */
  function Natural(ds: string): nat
    requires AllDigits(ds)
  {
    if |ds| == 0 then 0
    else Natural(ds[..|ds| - 1]) * 10 + (ds[|ds| - 1] as int - '0' as int)
  }

  /** `s` spells the lower-case ASCII word `w`, ignoring ASCII case (the test
      Rust applies to `inf`, `infinity` and `nan`). */
  predicate SpellsIgnoringCase(s: string, w: string) {
    |s| == |w| && forall i :: 0 <= i < |s| ==> s[i] == w[i] || s[i] as int == w[i] as int - 32
  }

  /** Optional exponent: empty, or `e`/`E`, an optional sign and at least one digit. */
  function Exponent(s: string): Option<int> {
    if |s| == 0 then Some(0)
    else if s[0] != 'e' && s[0] != 'E' then None
    else
      var t := s[1..];
      var neg := |t| > 0 && t[0] == '-';
      var ds := if |t| > 0 && (t[0] == '+' || t[0] == '-') then t[1..] else t;
      if |ds| > 0 && DigitRun(ds) == |ds| then
        assert ds[..|ds|] == ds;
        var magnitude: int := Natural(ds);
        Some(if neg then -magnitude else magnitude)
      else None
  }

  function Scale(m: real, e: int): real {
    if e >= 0 then m * Pow10(e) as real else m / Pow10(-e) as real
  }

  /** An unsigned decimal: `digits`, `digits.`, `digits.digits` or `.digits`,
      then an optional exponent; at least one digit before the exponent. */
  function Decimal(s: string): Option<real> {
    var i := DigitRun(s);
    AfterWhole(s[..i], s[i..])
  }

  /** The part of `Decimal` after the integer digits: an optional point and
      fraction digits. */
  function AfterWhole(whole: string, rest: string): Option<real>
    requires AllDigits(whole)
  {
    if |rest| > 0 && rest[0] == '.' then
      var f := DigitRun(rest[1..]);
      WithExponent(whole, rest[1..][..f], rest[1..][f..])
    else WithExponent(whole, [], rest)
  }

  /** The value of `whole.fraction` scaled by the exponent written in `tail`. */
  function WithExponent(whole: string, fraction: string, tail: string): Option<real>
    requires AllDigits(whole) && AllDigits(fraction)
  {
    if |whole| + |fraction| == 0 then None
    else
      match Exponent(tail)
      case None => None
      case Some(e) =>
        assert AllDigits(whole + fraction);
        Some(Scale(Natural(whole + fraction) as real / Pow10(|fraction|) as real, e))
  }

  /** `s.parse::<f64>()`, with `None` for Rust's `Err`. */
  function Parse(s: string): (r: Option<Float>)
    ensures r.Some? ==> |s| > 0
    ensures r.Some? ==> Text.NoWhitespace(s)
  {
    var negative := |s| > 0 && s[0] == '-';
    var body := if |s| > 0 && (s[0] == '+' || s[0] == '-') then s[1..] else s;
    assert IsLiteral(s, body) ==> Text.NoWhitespace(s) by {
      if IsLiteral(s, body) {
        LiteralHasNoWhitespace(s, body);
      }
    }
    if SpellsIgnoringCase(body, "inf") || SpellsIgnoringCase(body, "infinity") then
      Some(Infinity(negative))
    else if SpellsIgnoringCase(body, "nan") then Some(NotANumber)
    else
      match Decimal(body)
      case None => None
      case Some(v) => Some(Finite(if negative then -v else v))
  }

  // ---------------------------------------------------------------------------
  // Properties

  /** The characters a parseable literal can contain. */
  predicate LiteralChar(c: char) {
    IsDigit(c) || c == '+' || c == '-' || c == '.' || ('a' <= c <= 'z') || ('A' <= c <= 'Z')
  }

  lemma {:induction false} LiteralCharIsNotWhitespace(c: char)
    requires LiteralChar(c)
    ensures !Text.IsWhitespace(c)
  {
  }

  lemma {:induction false} ExponentChars(t: string)
    requires Exponent(t).Some?
    ensures forall k :: 0 <= k < |t| ==> LiteralChar(t[k])
  {
    if |t| > 0 {
      var u := t[1..];
      var off := if |u| > 0 && (u[0] == '+' || u[0] == '-') then 1 else 0;
      var ds := u[off..];
      assert DigitRun(ds) == |ds|;
      assert ds[..|ds|] == ds;
      forall k | 1 + off <= k < |t| ensures IsDigit(t[k]) {
        assert t[k] == ds[k - 1 - off];
      }
    }
  }

  lemma {:induction false} DigitRunChars(s: string)
    ensures forall k :: 0 <= k < DigitRun(s) ==> IsDigit(s[k])
  {
    var n := DigitRun(s);
    forall k | 0 <= k < n ensures IsDigit(s[k]) {
      assert s[k] == s[..n][k];
    }
  }

  lemma {:induction false} DecimalChars(s: string)
    requires Decimal(s).Some?
    ensures forall k :: 0 <= k < |s| ==> LiteralChar(s[k])
  {
    var i := DigitRun(s);
    var rest := s[i..];
    DigitRunChars(s);
    if |rest| > 0 && rest[0] == '.' {
      var r := rest[1..];
      var f := DigitRun(r);
      DigitRunChars(r);
      ExponentChars(r[f..]);
      forall k | i < k < |s| ensures LiteralChar(s[k]) {
        assert s[k] == r[k - i - 1];
        if k - i - 1 >= f { assert r[k - i - 1] == r[f..][k - i - 1 - f]; }
      }
    } else {
      ExponentChars(rest);
      forall k | i <= k < |s| ensures LiteralChar(s[k]) {
        assert s[k] == rest[k - i];
      }
    }
  }

  lemma {:induction false} SpelledChars(w: string, word: string)
    requires SpellsIgnoringCase(w, word) && Text.IsLowerAscii(word)
    ensures forall k :: 0 <= k < |w| ==> LiteralChar(w[k])
  {
  }

  /** The special literals are spelled in lowercase ASCII. */
  lemma {:induction false} SpecialWordsLower()
    ensures Text.IsLowerAscii("inf") && Text.IsLowerAscii("infinity") && Text.IsLowerAscii("nan")
  {
    assert "inf" == ['i', 'n', 'f'];
    assert "infinity" == ['i', 'n', 'f', 'i', 'n', 'i', 't', 'y'];
    assert "nan" == ['n', 'a', 'n'];
  }

  /** `s` is an optional sign followed by `body`, and `body` is a special
      word or a decimal literal: what `Parse` accepts. */
  predicate IsLiteral(s: string, body: string) {
    && body == (if |s| > 0 && (s[0] == '+' || s[0] == '-') then s[1..] else s)
    && (|| SpellsIgnoringCase(body, "inf") || SpellsIgnoringCase(body, "infinity")
        || SpellsIgnoringCase(body, "nan") || Decimal(body).Some?)
  }

  /** A literal is made of literal characters only, so it contains no
      whitespace: a value with a space before or after it does not parse. */
  lemma {:induction false} LiteralHasNoWhitespace(s: string, body: string)
    requires IsLiteral(s, body)
    ensures Text.NoWhitespace(s)
  {
    var off := if |s| > 0 && (s[0] == '+' || s[0] == '-') then 1 else 0;
    SpecialWordsLower();
    if SpellsIgnoringCase(body, "inf") {
      SpelledChars(body, "inf");
    } else if SpellsIgnoringCase(body, "infinity") {
      SpelledChars(body, "infinity");
    } else if SpellsIgnoringCase(body, "nan") {
      SpelledChars(body, "nan");
    } else {
      DecimalChars(body);
    }
    forall k | 0 <= k < |s| ensures !Text.IsWhitespace(s[k]) {
      if k >= off {
        assert s[k] == body[k - off];
      }
      LiteralCharIsNotWhitespace(s[k]);
    }
  }

  /** The digits of a natural number, most significant first (`"0"` for 0). */
  function NatText(n: nat): (s: string)
    ensures |s| > 0 && AllDigits(s)
  {
    if n < 10 then [('0' as int + n) as char]
    else NatText(n / 10) + [('0' as int + n % 10) as char]
  }

  /** `k` digits for `m < 10^k`, with leading zeros. */
  function Padded(m: nat, k: nat): (s: string)
    ensures |s| == k && AllDigits(s)
  {
    if k == 0 then [] else Padded(m / 10, k - 1) + [('0' as int + m % 10) as char]
  }

  lemma {:induction false} NaturalOfNatText(n: nat)
    ensures Natural(NatText(n)) == n
  {
    if n >= 10 {
      var s := NatText(n);
      assert s[..|s| - 1] == NatText(n / 10);
      NaturalOfNatText(n / 10);
    }
  }

  lemma {:induction false} NaturalOfPadded(m: nat, k: nat)
    requires m < Pow10(k)
    ensures Natural(Padded(m, k)) == m
  {
    if k > 0 {
      var s := Padded(m, k);
      assert s[..|s| - 1] == Padded(m / 10, k - 1);
      NaturalOfPadded(m / 10, k - 1);
    }
  }

  lemma {:induction false} ShiftDigit(x: int, p: int, y: int, d: int)
    ensures (x * p + y) * 10 + d == x * (10 * p) + (y * 10 + d)
  {
  }

  lemma {:induction false} NaturalAppend(a: string, b: string)
    requires AllDigits(a) && AllDigits(b)
    ensures AllDigits(a + b)
    ensures Natural(a + b) == Natural(a) * Pow10(|b|) + Natural(b)
    decreases |b|
  {
    if |b| > 0 {
      var ab := a + b;
      var b' := b[..|b| - 1];
      var d := b[|b| - 1] as int - '0' as int;
      assert ab[..|ab| - 1] == a + b';
      assert ab[|ab| - 1] == b[|b| - 1];
      NaturalAppend(a, b');
      assert Pow10(|b|) == 10 * Pow10(|b'|);
      ShiftDigit(Natural(a), Pow10(|b'|), Natural(b'), d);
    } else {
      assert a + b == a;
    }
  }

  /** A run of digits starts a text of digits, then `'.'` ends the run. */
  lemma {:induction false} DigitRunUpTo(ds: string, rest: string)
    requires AllDigits(ds) && (|rest| == 0 || !IsDigit(rest[0]))
    ensures DigitRun(ds + rest) == |ds|
    decreases |ds|
  {
    if |ds| > 0 {
      assert (ds + rest)[1..] == ds[1..] + rest;
      DigitRunUpTo(ds[1..], rest);
    } else {
      assert ds + rest == rest;
    }
  }

  /** A text that starts with a digit parses as an unsigned decimal. */
  lemma {:induction false} ParseUnsigned(s: string)
    requires |s| > 0 && IsDigit(s[0])
    ensures Parse(s) == if Decimal(s).Some? then Some(Finite(Decimal(s).value)) else None
  {
    assert !SpellsIgnoringCase(s, "inf") && !SpellsIgnoringCase(s, "infinity")
        && !SpellsIgnoringCase(s, "nan");
  }

  lemma {:induction false} DecimalOfDigits(w: string)
    requires |w| > 0 && AllDigits(w)
    ensures Decimal(w) == Some(Natural(w) as real)
  {
    DigitRunUpTo(w, []);
    assert w + [] == w;
    assert DigitRun(w) == |w|;
    assert w[..|w|] == w && w[|w|..] == [];
    assert Decimal(w) == AfterWhole(w, []) == WithExponent(w, [], []);
    var none: string := [];
    assert Exponent(none) == Some(0);
    assert |none| == 0 && Pow10(|none|) as real == 1.0;
    assert w + none == w;
    var m := Natural(w) as real;
    assert Natural(w + none) as real / Pow10(|none|) as real == m;
    assert Scale(m, 0) == m;
    assert WithExponent(w, none, none) == Some(Scale(m, 0));
  }

  lemma {:induction false} DecimalOfFixedPoint(w: string, fr: string)
    requires |w| > 0 && AllDigits(w) && AllDigits(fr)
    ensures Decimal(w + "." + fr) == WithExponent(w, fr, [])
  {
    var s := w + "." + fr;
    assert s == w + ("." + fr);
    DigitRunUpTo(w, "." + fr);
    assert s[..|w|] == w;
    var rest := s[|w|..];
    assert rest == "." + fr;
    assert rest[1..] == fr;
    DigitRunUpTo(fr, []);
    assert fr + [] == fr;
    assert rest[1..][..|fr|] == fr && rest[1..][|fr|..] == [];
  }

  /** The decimal text of a natural number parses to that number. */
  lemma {:induction false} ParseNatText(n: nat)
    ensures Parse(NatText(n)) == Some(Finite(n as real))
  {
    var s := NatText(n);
    ParseUnsigned(s);
    DecimalOfDigits(s);
    NaturalOfNatText(n);
  }

  lemma {:induction false} FixedPointValue(a: nat, b: nat, p: nat)
    requires p >= 1
    ensures (a * p + b) as real / p as real == a as real + b as real / p as real
  {
  }

  /** Digits, a point and more digits parse to the fixed-point value they spell. */
  lemma {:induction false} ParsePointed(w: string, fr: string)
    requires |w| > 0 && AllDigits(w) && AllDigits(fr)
    ensures Parse(w + "." + fr)
              == Some(Finite((Natural(w) * Pow10(|fr|) + Natural(fr)) as real / Pow10(|fr|) as real))
  {
    var s := w + "." + fr;
    assert s[0] == w[0];
    ParseUnsigned(s);
    DecimalOfFixedPoint(w, fr);
    NaturalAppend(w, fr);
    assert WithExponent(w, fr, []) == Some(Scale(Natural(w + fr) as real / Pow10(|fr|) as real, 0));
  }

  /** Digits spelling `a`, a point and `k` digits spelling `b` parse to `a + b/10^k`. */
  lemma {:induction false} ParseSpelledFixedPoint(w: string, fr: string, a: nat, b: nat, k: nat)
    requires |w| > 0 && AllDigits(w) && AllDigits(fr)
    requires Natural(w) == a && Natural(fr) == b && |fr| == k
    ensures Parse(w + "." + fr) == Some(Finite(a as real + b as real / Pow10(k) as real))
  {
    ParsePointed(w, fr);
    SpelledFixedPointValue(Natural(w), Natural(fr), |fr|, a, b, k);
  }

  lemma {:induction false} SpelledFixedPointValue(nw: nat, nf: nat, n: nat, a: nat, b: nat, k: nat)
    requires nw == a && nf == b && n == k
    ensures (nw * Pow10(n) + nf) as real / Pow10(n) as real == a as real + b as real / Pow10(k) as real
  {
    FixedPointValue(a, b, Pow10(k));
  }

  /** The fixed-point text `a.b` with `k` fraction digits parses to `a + b/10^k`. */
  lemma {:induction false} ParseFixedPoint(a: nat, b: nat, k: nat)
    requires b < Pow10(k)
    ensures Parse(NatText(a) + "." + Padded(b, k))
              == Some(Finite(a as real + b as real / Pow10(k) as real))
  {
    NaturalOfNatText(a);
    NaturalOfPadded(b, k);
    ParseSpelledFixedPoint(NatText(a), Padded(b, k), a, b, k);
  }
}
