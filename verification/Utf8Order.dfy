/** Ordering UTF-16 strings by the bytes of their UTF-8 encodings, without encoding them. */
module Utf8Order {
  import opened Wrappers

  type CodeUnit = u: nat | u < 0x10000
  type Text = seq<CodeUnit>
  type Byte = b: nat | b < 0x100

  /** What an encoder writes: no surrogates (section 3 of RFC 3629). */
  type Scalar = c: nat | c < 0xD800 || 0xE000 <= c < 0x110000

  predicate IsHigh(u: nat) { 0xD800 <= u < 0xDC00 }

  predicate IsLow(u: nat) { 0xDC00 <= u < 0xE000 }

  predicate IsSurrogate(c: nat) { 0xD800 <= c <= 0xDFFF }

  /** The code point at an index: a surrogate pair, or the unit itself (section 2.2 of RFC 2781). */
  function CodePointAt(s: Text, i: nat): nat
    requires i < |s|
  {
    var unit: nat := s[i];
    if IsHigh(unit) && i + 1 < |s| && IsLow(s[i + 1]) then
      var next: nat := s[i + 1];
      0x10000 + (unit - 0xD800) * 0x400 + (next - 0xDC00)
    else unit
  }

  function Width(code: nat): nat { if code > 0xffff then 2 else 1 }

  /** Unpaired surrogates are encoded as U+FFFD. */
  function ScalarOf(code: nat): Scalar
    requires code < 0x110000
  {
    if IsSurrogate(code) then 0xFFFD else code
  }

  function Scalars(s: Text): seq<Scalar> {
    if s == [] then []
    else
      var code := CodePointAt(s, 0);
      [ScalarOf(code)] + Scalars(s[Width(code)..])
  }

  /** The UTF-8 encoding of one scalar value (section 3 of RFC 3629). */
  function EncodeScalar(c: Scalar): seq<Byte> {
    if c < 0x80 then [c]
    else if c < 0x800 then [0xC0 + c / 0x40, 0x80 + c % 0x40]
    else if c < 0x10000 then [0xE0 + c / 0x1000, 0x80 + c / 0x40 % 0x40, 0x80 + c % 0x40]
    else [0xF0 + c / 0x40000, 0x80 + c / 0x1000 % 0x40, 0x80 + c / 0x40 % 0x40, 0x80 + c % 0x40]
  }

  predicate Continues(b: nat) { 0x80 <= b < 0xC0 }

  /** The scalar a whole sequence stands for: the lead byte past its marker, then six bits a byte. */
  function Decoded(bytes: seq<nat>): Option<int> {
    if |bytes| == 1 && bytes[0] < 0x80 then Some(bytes[0])
    else if |bytes| == 2 && 0xC0 <= bytes[0] < 0xE0 && Continues(bytes[1])
    then Some(bytes[0] * 64 + bytes[1] - 0xC0 * 64 - 0x80)
    else if |bytes| == 3 && 0xE0 <= bytes[0] < 0xF0 && Continues(bytes[1]) && Continues(bytes[2])
    then Some(bytes[0] * 4096 + bytes[1] * 64 + bytes[2] - 0xE0 * 4096 - 0x80 * 65)
    else if |bytes| == 4 && 0xF0 <= bytes[0] < 0xF8 && Continues(bytes[1]) && Continues(bytes[2]) && Continues(bytes[3])
    then Some(bytes[0] * 262144 + bytes[1] * 4096 + bytes[2] * 64 + bytes[3] - 0xF0 * 262144 - 0x80 * 4161)
    else None
  }

  /** Encoding one scalar is undone by decoding, in the shortest form that holds it. */
  lemma EncodingDecodes(c: Scalar)
    ensures Decoded(EncodeScalar(c)) == Some(c)
    ensures |EncodeScalar(c)| == if c < 0x80 then 1 else if c < 0x800 then 2 else if c < 0x10000 then 3 else 4
  {
    assert c == c / 64 * 64 + c % 64;
    assert c / 64 == c / 4096 * 64 + c / 64 % 64;
    assert c / 4096 == c / 262144 * 64 + c / 4096 % 64;
  }

  function Encode(scalars: seq<Scalar>): seq<Byte> {
    if scalars == [] then [] else EncodeScalar(scalars[0]) + Encode(scalars[1..])
  }

  function Utf8(s: Text): seq<Byte> {
    Encode(Scalars(s))
  }

  /** Lexicographic order; a proper prefix comes first. */
  function Compare(a: seq<nat>, b: seq<nat>): int {
    if a == [] && b == [] then 0
    else if a == [] then -1
    else if b == [] then 1
    else if a[0] != b[0] then (if a[0] < b[0] then -1 else 1)
    else Compare(a[1..], b[1..])
  }

  function Sign(n: int): int { if n < 0 then -1 else if n > 0 then 1 else 0 }

  lemma {:induction false} CommonPrefix(p: seq<nat>, a: seq<nat>, b: seq<nat>)
    ensures Compare(p + a, p + b) == Compare(a, b)
  {
    if p == [] {
      assert p + a == a && p + b == b;
    } else {
      assert (p + a)[1..] == p[1..] + a && (p + b)[1..] == p[1..] + b;
      CommonPrefix(p[1..], a, b);
    }
  }

  /** Base-64 digits compare like the numbers. */
  lemma DigitsOrder(c: nat, d: nat)
    requires c < d
    ensures c / 0x40 < d / 0x40 || (c / 0x40 == d / 0x40 && c % 0x40 < d % 0x40)
  {
  }

  lemma LeadBytes(c: Scalar, d: Scalar)
    requires c < d && |EncodeScalar(c)| != |EncodeScalar(d)|
    ensures EncodeScalar(c)[0] < EncodeScalar(d)[0]
  {
  }

  /** Encodings of different scalars first differ inside both, in scalar order. */
  lemma EncodingsDiffer(c: Scalar, d: Scalar) returns (k: nat)
    requires c < d
    ensures k < |EncodeScalar(c)| && k < |EncodeScalar(d)|
    ensures EncodeScalar(c)[..k] == EncodeScalar(d)[..k]
    ensures EncodeScalar(c)[k] < EncodeScalar(d)[k]
  {
    if |EncodeScalar(c)| != |EncodeScalar(d)| {
      LeadBytes(c, d);
      return 0;
    }
    if c < 0x80 { return 0; }
    if c < 0x800 {
      k := TwoByteDifference(c, d);
    } else if c < 0x10000 {
      k := ThreeByteDifference(c, d);
    } else {
      k := FourByteDifference(c, d);
    }
  }

  lemma TwoByteDifference(c: Scalar, d: Scalar) returns (k: nat)
    requires 0x80 <= c < d < 0x800
    ensures k < 2 && EncodeScalar(c)[..k] == EncodeScalar(d)[..k] && EncodeScalar(c)[k] < EncodeScalar(d)[k]
  {
    DigitsOrder(c, d);
    k := if c / 0x40 < d / 0x40 then 0 else 1;
  }

  lemma ThreeByteDifference(c: Scalar, d: Scalar) returns (k: nat)
    requires 0x800 <= c < d < 0x10000
    ensures k < 3 && EncodeScalar(c)[..k] == EncodeScalar(d)[..k] && EncodeScalar(c)[k] < EncodeScalar(d)[k]
  {
    DigitsOrder(c, d);
    assert c / 0x1000 == c / 0x40 / 0x40 && d / 0x1000 == d / 0x40 / 0x40;
    if c / 0x40 == d / 0x40 { return 2; }
    DigitsOrder(c / 0x40, d / 0x40);
    k := if c / 0x1000 < d / 0x1000 then 0 else 1;
  }

  lemma FourByteDifference(c: Scalar, d: Scalar) returns (k: nat)
    requires 0x10000 <= c < d
    ensures k < 4 && EncodeScalar(c)[..k] == EncodeScalar(d)[..k] && EncodeScalar(c)[k] < EncodeScalar(d)[k]
  {
    DigitsOrder(c, d);
    assert c / 0x1000 == c / 0x40 / 0x40 && d / 0x1000 == d / 0x40 / 0x40;
    assert c / 0x40000 == c / 0x1000 / 0x40 && d / 0x40000 == d / 0x1000 / 0x40;
    if c / 0x40 == d / 0x40 { return 3; }
    DigitsOrder(c / 0x40, d / 0x40);
    if c / 0x1000 == d / 0x1000 { return 2; }
    DigitsOrder(c / 0x1000, d / 0x1000);
    k := if c / 0x40000 < d / 0x40000 then 0 else 1;
  }

  lemma FirstDifference(a: seq<nat>, b: seq<nat>, k: nat)
    requires k < |a| && k < |b| && a[..k] == b[..k] && a[k] < b[k]
    ensures Compare(a, b) == -1 && Compare(b, a) == 1
  {
    assert a == a[..k] + a[k..] && b == b[..k] + b[k..];
    CommonPrefix(a[..k], a[k..], b[k..]);
    CommonPrefix(a[..k], b[k..], a[k..]);
  }

  lemma SmallerHead(a: seq<Scalar>, b: seq<Scalar>)
    requires a != [] && b != [] && a[0] < b[0]
    ensures Compare(Encode(a), Encode(b)) == -1 && Compare(Encode(b), Encode(a)) == 1
  {
    var x, y := EncodeScalar(a[0]), EncodeScalar(b[0]);
    var k := EncodingsDiffer(a[0], b[0]);
    assert Encode(a)[..k] == x[..k] && Encode(b)[..k] == y[..k];
    FirstDifference(Encode(a), Encode(b), k);
  }

  /** UTF-8 keeps the order of scalar sequences (section 1 of RFC 3629). */
  lemma {:induction false} EncodingKeepsOrder(a: seq<Scalar>, b: seq<Scalar>)
    ensures Compare(Encode(a), Encode(b)) == Compare(a, b)
  {
    if a != [] && b != [] {
      if a[0] == b[0] {
        CommonPrefix(EncodeScalar(a[0]), Encode(a[1..]), Encode(b[1..]));
        EncodingKeepsOrder(a[1..], b[1..]);
      } else if a[0] < b[0] {
        SmallerHead(a, b);
      } else {
        SmallerHead(b, a);
      }
    }
  }

  /** The source's loop over code points, with its numeric result. */
  method CompareUtf8(left: Text, right: Text) returns (r: int)
    ensures Sign(r) == Compare(Utf8(left), Utf8(right))
  {
    EncodingKeepsOrder(Scalars(left), Scalars(right));
    if left == right {
      CompareSelf(Scalars(left));
      return 0;
    }
    r := CompareCodePoints(left, right);
  }

  method CompareCodePoints(left: Text, right: Text) returns (r: int)
    ensures Sign(r) == Compare(Scalars(left), Scalars(right))
  {
    var i: nat, j: nat := 0, 0;
    ghost var goal := Compare(Scalars(left), Scalars(right));
    assert left[0..] == left && right[0..] == right;
    while i < |left| && j < |right|
      invariant i <= |left| && j <= |right|
      invariant goal == Compare(Scalars(left[i..]), Scalars(right[j..]))
    {
      var c, d := CodePointAt(left, i), CodePointAt(right, j);
      CompareHeads(left, i, right, j);
      if c != d {
        var x: int, y: int := ScalarOf(c), ScalarOf(d);
        if x != y { return x - y; }
      }
      i := i + Width(c);
      j := j + Width(d);
    }
    TailsDecide(left[i..], right[j..]);
    return (if i < |left| then 1 else 0) - (if j < |right| then 1 else 0);
  }

  lemma TailsDecide(a: Text, b: Text)
    requires a == [] || b == []
    ensures Compare(Scalars(a), Scalars(b)) == (if a != [] then 1 else 0) - (if b != [] then 1 else 0)
  {
  }

  /** The first scalars decide, or the tails do. */
  lemma CompareHeads(left: Text, i: nat, right: Text, j: nat)
    requires i < |left| && j < |right|
    ensures var c, d := CodePointAt(left, i), CodePointAt(right, j);
            && i + Width(c) <= |left| && j + Width(d) <= |right|
            && Compare(Scalars(left[i..]), Scalars(right[j..])) ==
               if ScalarOf(c) < ScalarOf(d) then -1
               else if ScalarOf(c) > ScalarOf(d) then 1
               else Compare(Scalars(left[i + Width(c)..]), Scalars(right[j + Width(d)..]))
  {
    TailScalars(left, i);
    TailScalars(right, j);
  }

  lemma TailScalars(s: Text, i: nat)
    requires i < |s|
    ensures i + Width(CodePointAt(s, i)) <= |s|
    ensures Scalars(s[i..]) == [ScalarOf(CodePointAt(s, i))] + Scalars(s[i + Width(CodePointAt(s, i))..])
  {
    assert CodePointAt(s[i..], 0) == CodePointAt(s, i);
    assert s[i..][Width(CodePointAt(s, i))..] == s[i + Width(CodePointAt(s, i))..];
  }

  lemma {:induction false} CompareSelf(a: seq<nat>)
    ensures Compare(a, a) == 0
  {
    if a != [] { CompareSelf(a[1..]); }
  }

  lemma {:induction false} CompareZero(a: seq<nat>, b: seq<nat>)
    ensures Compare(a, b) == 0 <==> a == b
  {
    if a != [] && b != [] && a[0] == b[0] {
      CompareZero(a[1..], b[1..]);
      assert a == [a[0]] + a[1..] && b == [b[0]] + b[1..];
    }
  }

  lemma {:induction false} CompareAntisymmetric(a: seq<nat>, b: seq<nat>)
    ensures Compare(a, b) == -Compare(b, a)
  {
    if a != [] && b != [] && a[0] == b[0] { CompareAntisymmetric(a[1..], b[1..]); }
  }

  lemma {:induction false} CompareTransitive(a: seq<nat>, b: seq<nat>, c: seq<nat>)
    requires Compare(a, b) <= 0 && Compare(b, c) <= 0
    ensures Compare(a, c) <= 0
    ensures Compare(a, b) < 0 || Compare(b, c) < 0 ==> Compare(a, c) < 0
  {
    if a != [] && b != [] && c != [] && a[0] == b[0] == c[0] { CompareTransitive(a[1..], b[1..], c[1..]); }
  }

  // ---- Well-formed text is determined by its encoding ----

  /** Every surrogate is half of a pair. */
  predicate IsWellFormed(s: Text) {
    if s == [] then true
    else
      var code := CodePointAt(s, 0);
      !IsSurrogate(code) && IsWellFormed(s[Width(code)..])
  }

  function Units(c: Scalar): Text {
    if c < 0x10000 then [c] else [0xD800 + (c - 0x10000) / 0x400, 0xDC00 + (c - 0x10000) % 0x400]
  }

  function EncodeUtf16(scalars: seq<Scalar>): Text {
    if scalars == [] then [] else Units(scalars[0]) + EncodeUtf16(scalars[1..])
  }

  lemma {:induction false} Utf16RoundTrip(s: Text)
    requires IsWellFormed(s)
    ensures EncodeUtf16(Scalars(s)) == s
  {
    if s != [] {
      var code := CodePointAt(s, 0);
      Utf16RoundTrip(s[Width(code)..]);
      assert Units(code) == s[..Width(code)];
      assert Scalars(s)[1..] == Scalars(s[Width(code)..]);
    }
  }

  /** Two texts compare equal exactly when they have the same scalars. */
  lemma EqualExactly(a: Text, b: Text)
    ensures Compare(Utf8(a), Utf8(b)) == 0 <==> Scalars(a) == Scalars(b)
  {
    EncodingKeepsOrder(Scalars(a), Scalars(b));
    CompareZero(Scalars(a), Scalars(b));
  }

  /** On well-formed text the order identifies only equal strings. */
  lemma EqualOnlyWhenSame(a: Text, b: Text)
    requires IsWellFormed(a) && IsWellFormed(b)
    ensures Compare(Utf8(a), Utf8(b)) == 0 <==> a == b
  {
    EqualExactly(a, b);
    Utf16RoundTrip(a);
    Utf16RoundTrip(b);
  }

  /** A lone surrogate is not told apart from the replacement character. */
  lemma LoneSurrogatesCollide()
    ensures Compare(Utf8([0xD800]), Utf8([0xFFFD])) == 0 && [0xD800] != [0xFFFD]
  {
    assert Scalars([0xD800]) == [0xFFFD] && Scalars([0xFFFD]) == [0xFFFD];
    CompareSelf(Utf8([0xFFFD]));
  }

  // ---- Exactly which texts are told apart from every other ----

  /** Well-formed text whose scalars lack U+FFFD lacks it itself. */
  lemma {:induction false} ReplacementInScalars(s: Text)
    ensures 0xFFFD !in Scalars(s) <==> IsWellFormed(s) && 0xFFFD !in s
  {
    if s != [] {
      var code := CodePointAt(s, 0);
      var tail := s[Width(code)..];
      ReplacementInScalars(tail);
      assert Scalars(s) == [ScalarOf(code)] + Scalars(tail);
      assert s == s[..Width(code)] + tail;
      assert code <= 0xffff ==> s[..Width(code)] == [s[0]];
      assert code > 0xffff ==> s[..Width(code)] == [s[0], s[1]];
    }
  }

  /** Text with a lone surrogate or U+FFFD has a twin: another text of the same scalars. */
  lemma {:induction false} Twin(s: Text) returns (t: Text)
    requires !IsWellFormed(s) || 0xFFFD in s
    ensures t != s && Scalars(t) == Scalars(s)
    decreases |s|
  {
    var code := CodePointAt(s, 0);
    var tail := s[Width(code)..];
    assert s == s[..Width(code)] + tail;
    if IsSurrogate(code) {
      t := [0xFFFD] + tail;
      assert t[1..] == tail && s[1..] == tail;
    } else if !IsWellFormed(tail) || 0xFFFD in tail {
      var other := Twin(tail);
      t := s[..Width(code)] + other;
      PrefixedScalars(s, code, other);
      assert t[Width(code)..] == other;
    } else {
      assert s == [0xFFFD] + tail;
      t := [0xD800] + tail;
      assert t[1..] == tail && t[0] == 0xD800;
      if tail != [] { assert CodePointAt(tail, 0) == tail[0] || IsHigh(tail[0]); }
    }
  }

  /** A leading code point other than a lone surrogate is read alike before any tail. */
  lemma PrefixedScalars(s: Text, code: nat, other: Text)
    requires s != [] && code == CodePointAt(s, 0) && !IsSurrogate(code)
    ensures Scalars(s[..Width(code)] + other) == [ScalarOf(code)] + Scalars(other)
  {
    var t := s[..Width(code)] + other;
    assert t[Width(code)..] == other;
    assert t[0] == s[0];
    if code > 0xffff { assert t[1] == s[1]; }
  }

  /** The order tells a text apart from every other exactly when it is well formed and lacks U+FFFD. */
  lemma ToldApartExactly(a: Text)
    ensures (forall b: Text :: Compare(Utf8(a), Utf8(b)) == 0 ==> a == b) <==> IsWellFormed(a) && 0xFFFD !in a
  {
    if IsWellFormed(a) && 0xFFFD !in a {
      forall b: Text | Compare(Utf8(a), Utf8(b)) == 0 ensures a == b {
        EqualExactly(a, b);
        ReplacementInScalars(a);
        ReplacementInScalars(b);
        EqualOnlyWhenSame(a, b);
      }
    } else {
      var b := Twin(a);
      EqualExactly(a, b);
      assert Compare(Utf8(a), Utf8(b)) == 0 && a != b;
    }
  }
}
