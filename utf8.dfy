/** `std::str::from_utf8`: the well-formed UTF-8 byte sequences of the Unicode
    standard (Table 3-7), decoded to Unicode scalar values. */
module Utf8 {
  import opened Wrappers

  type Byte = b: int | 0 <= b < 256

  predicate Continuation(b: Byte) {
    0x80 <= b <= 0xBF
  }

  /** Byte `i` of `bs` as an integer, or -1 past the end (a value no range
      test below accepts). */
  function At(bs: seq<Byte>, i: nat): int {
    if i < |bs| then bs[i] else -1
  }

  /** The scalar value at the start of `bs` and the number of bytes it takes,
      when `bs` starts with a well-formed sequence. */
  function DecodeFirst(bs: seq<Byte>): (r: Option<(char, nat)>)
    requires |bs| > 0
    ensures r.Some? ==> 1 <= r.value.1 <= 4 && r.value.1 <= |bs|
  {
    var b0, b1, b2, b3 := At(bs, 0), At(bs, 1), At(bs, 2), At(bs, 3);
    if b0 < 0x80 then Some((b0 as char, 1))
    else if 0xC2 <= b0 <= 0xDF then
      if 0x80 <= b1 <= 0xBF then Some((((b0 - 0xC0) * 64 + (b1 - 0x80)) as char, 2))
      else None
    else if 0xE0 <= b0 <= 0xEF then
      var lo := if b0 == 0xE0 then 0xA0 else 0x80;
      var hi := if b0 == 0xED then 0x9F else 0xBF;
      if lo <= b1 <= hi && 0x80 <= b2 <= 0xBF then
        Some((((b0 - 0xE0) * 4096 + (b1 - 0x80) * 64 + (b2 - 0x80)) as char, 3))
      else None
    else if 0xF0 <= b0 <= 0xF4 then
      var lo := if b0 == 0xF0 then 0x90 else 0x80;
      var hi := if b0 == 0xF4 then 0x8F else 0xBF;
      if lo <= b1 <= hi && 0x80 <= b2 <= 0xBF && 0x80 <= b3 <= 0xBF then
        Some((((b0 - 0xF0) * 262144 + (b1 - 0x80) * 4096 + (b2 - 0x80) * 64
               + (b3 - 0x80)) as char, 4))
      else None
    else None
  }

  /** `from_utf8`: the decoded text, or `None` for Rust's `Utf8Error`. */
  function Decode(bs: seq<Byte>): (r: Option<string>)
    ensures r.Some? ==> |r.value| <= |bs|
    decreases |bs|
  {
    if |bs| == 0 then Some([])
    else
      match DecodeFirst(bs)
      case None => None
      case Some((c, n)) =>
        match Decode(bs[n..])
        case None => None
        case Some(rest) => Some([c] + rest)
  }

  /** The UTF-8 encoding of one scalar value. */
  function EncodeChar(c: char): (bs: seq<Byte>)
    ensures 1 <= |bs| <= 4
  {
    var v := c as int;
    if v < 0x80 then [v]
    else if v < 0x800 then [0xC0 + v / 64, 0x80 + v % 64]
    else if v < 0x10000 then [0xE0 + v / 4096, 0x80 + (v / 64) % 64, 0x80 + v % 64]
    else [0xF0 + v / 262144, 0x80 + (v / 4096) % 64, 0x80 + (v / 64) % 64, 0x80 + v % 64]
  }

  function Encode(s: string): seq<Byte> {
    if |s| == 0 then [] else EncodeChar(s[0]) + Encode(s[1..])
  }

  lemma {:induction false} TwoByteDigits(v: int)
    requires 0x80 <= v < 0x800
    ensures 0xC2 <= 0xC0 + v / 64 <= 0xDF && 0 <= v % 64 < 64
    ensures v == (v / 64) * 64 + v % 64
  {
  }

  lemma {:induction false} ThreeByteDigits(v: int)
    requires 0x800 <= v < 0x10000 && !(0xD800 <= v < 0xE000)
    ensures 0xE0 <= 0xE0 + v / 4096 <= 0xEF && 0 <= (v / 64) % 64 < 64 && 0 <= v % 64 < 64
    ensures v / 4096 == 0 ==> (v / 64) % 64 >= 0x20
    ensures v / 4096 == 0xD ==> (v / 64) % 64 < 0x20
    ensures v == (v / 4096) * 4096 + ((v / 64) % 64) * 64 + v % 64
  {
  }

  lemma {:induction false} FourByteDigits(v: int)
    requires 0x10000 <= v < 0x110000
    ensures 0xF0 <= 0xF0 + v / 262144 <= 0xF4
    ensures 0 <= (v / 4096) % 64 < 64 && 0 <= (v / 64) % 64 < 64 && 0 <= v % 64 < 64
    ensures v / 262144 == 0 ==> (v / 4096) % 64 >= 0x10
    ensures v / 262144 == 4 ==> (v / 4096) % 64 < 0x10
    ensures v == (v / 262144) * 262144 + ((v / 4096) % 64) * 4096 + ((v / 64) % 64) * 64 + v % 64
  {
    var a, r1 := v / 262144, v % 262144;
    var b, r2 := r1 / 4096, r1 % 4096;
    var c, d := r2 / 64, r2 % 64;
    assert r2 == c * 64 + d && 0 <= c < 64 && 0 <= d < 64;
    assert r1 == b * 4096 + r2 && 0 <= b < 64;
    assert v == a * 262144 + r1;
    assert v == (a * 64 + b) * 4096 + r2 && 0 <= r2 < 4096;
    assert v / 4096 == a * 64 + b;
    assert (v / 4096) % 64 == b;
    assert v == (a * 4096 + b * 64 + c) * 64 + d;
    assert v / 64 == a * 4096 + b * 64 + c && v % 64 == d;
    assert (v / 64) % 64 == c;
    assert v == a * 262144 + b * 4096 + c * 64 + d;
  }

  lemma {:induction false} DecodeFirstOfEncoded(c: char, rest: seq<Byte>)
    ensures DecodeFirst(EncodeChar(c) + rest) == Some((c, |EncodeChar(c)|))
  {
    var v := c as int;
    var bs := EncodeChar(c) + rest;
    if v < 0x80 {
      assert At(bs, 0) == v;
    } else if v < 0x800 {
      TwoByteDigits(v);
      assert At(bs, 0) == 0xC0 + v / 64 && At(bs, 1) == 0x80 + v % 64;
    } else if v < 0x10000 {
      ThreeByteDigits(v);
      assert At(bs, 0) == 0xE0 + v / 4096;
      assert At(bs, 1) == 0x80 + (v / 64) % 64 && At(bs, 2) == 0x80 + v % 64;
    } else {
      FourByteDigits(v);
      assert At(bs, 0) == 0xF0 + v / 262144;
      assert At(bs, 1) == 0x80 + (v / 4096) % 64;
      assert At(bs, 2) == 0x80 + (v / 64) % 64 && At(bs, 3) == 0x80 + v % 64;
    }
  }

  /** Decoding inverts encoding: every text survives the round trip. */
  lemma {:induction false} DecodeEncode(s: string)
    ensures Decode(Encode(s)) == Some(s)
  {
    if |s| > 0 {
      var e := EncodeChar(s[0]);
      var bs := Encode(s);
      assert bs == e + Encode(s[1..]);
      DecodeFirstOfEncoded(s[0], Encode(s[1..]));
      assert bs[|e|..] == Encode(s[1..]);
      DecodeEncode(s[1..]);
      assert [s[0]] + s[1..] == s;
    }
  }

  /** A lone continuation byte, or a lead byte that UTF-8 never uses, makes the
      whole input undecodable. */
  lemma {:induction false} InvalidLeadRejected(bs: seq<Byte>)
    requires |bs| > 0 && (Continuation(bs[0]) || bs[0] == 0xC0 || bs[0] == 0xC1 || bs[0] >= 0xF5)
    ensures Decode(bs) == None
  {
  }

  /** A decoded text is never longer than its bytes; ASCII bytes decode one to one. */
  lemma {:induction false} DecodeAscii(bs: seq<Byte>)
    requires forall i :: 0 <= i < |bs| ==> bs[i] < 0x80
    ensures Decode(bs).Some? && |Decode(bs).value| == |bs|
    ensures forall i :: 0 <= i < |bs| ==> Decode(bs).value[i] as int == bs[i]
    decreases |bs|
  {
    if |bs| > 0 {
      DecodeAscii(bs[1..]);
      var rest := Decode(bs[1..]).value;
      assert Decode(bs).value == [bs[0] as char] + rest;
    }
  }
}
