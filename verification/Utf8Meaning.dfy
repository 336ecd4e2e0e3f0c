/** What valid UTF-8 means: a row of Unicode scalar values, encoded in numbers by section 3 of RFC 3629. */
module Utf8Meaning {
  import opened Bytes
  import opened Utf8

  /** A Unicode scalar value: up to 10FFFF, and no surrogate. */
  predicate Scalar(n: nat) { n < 0xD800 || 0xE000 <= n < 0x110000 }

  function Encode(n: nat): (s: seq<nat>)
    ensures 1 <= |s| <= 4
  {
    if n < 0x80 then [n]
    else if n < 0x800 then [0xC0 + n / 64, 0x80 + n % 64]
    else if n < 0x10000 then [0xE0 + n / 4096, 0x80 + n / 64 % 64, 0x80 + n % 64]
    else [0xF0 + n / 262144, 0x80 + n / 4096 % 64, 0x80 + n / 64 % 64, 0x80 + n % 64]
  }

  /** The octets `c` are the encoding of `n`. */
  predicate Encodes(c: seq<byte>, n: nat) {
    |c| == |Encode(n)| && forall i :: 0 <= i < |c| ==> c[i] as nat == Encode(n)[i]
  }

  predicate EncodesAll(s: seq<byte>, ns: seq<nat>)
    decreases |ns|
  {
    if ns == [] then s == []
    else
      var k := |Encode(ns[0])|;
      k <= |s| && Scalar(ns[0]) && Encodes(s[..k], ns[0]) && EncodesAll(s[k..], ns[1..])
  }

  /** The grammar of a character in numbers. */
  predicate CharInNumbers(c: seq<nat>) {
    match |c|
    case 1 => c[0] <= 0x7F
    case 2 => 0xC2 <= c[0] <= 0xDF && 0x80 <= c[1] <= 0xBF
    case 3 =>
      0x80 <= c[2] <= 0xBF &&
      ( || (c[0] == 0xE0 && 0xA0 <= c[1] <= 0xBF)
        || (0xE1 <= c[0] <= 0xEC && 0x80 <= c[1] <= 0xBF)
        || (c[0] == 0xED && 0x80 <= c[1] <= 0x9F)
        || (0xEE <= c[0] <= 0xEF && 0x80 <= c[1] <= 0xBF))
    case 4 =>
      0x80 <= c[2] <= 0xBF && 0x80 <= c[3] <= 0xBF &&
      ( || (c[0] == 0xF0 && 0x90 <= c[1] <= 0xBF)
        || (0xF1 <= c[0] <= 0xF3 && 0x80 <= c[1] <= 0xBF)
        || (c[0] == 0xF4 && 0x80 <= c[1] <= 0x8F))
    case _ => false
  }

  lemma CharIsInNumbers(c: seq<byte>)
    ensures Utf8Char(c) <==> CharInNumbers(Numbers(c))
  {
  }

  lemma EncodedIsChar(n: nat)
    requires Scalar(n)
    ensures CharInNumbers(Encode(n))
  {
  }

  /** The scalar value of a character. */
  function Decoded(c: seq<nat>): (n: nat)
    requires CharInNumbers(c)
  {
    match |c|
    case 1 => c[0]
    case 2 => (c[0] - 0xC0) * 64 + (c[1] - 0x80)
    case 3 => (c[0] - 0xE0) * 4096 + (c[1] - 0x80) * 64 + (c[2] - 0x80)
    case _ => (c[0] - 0xF0) * 262144 + (c[1] - 0x80) * 4096 + (c[2] - 0x80) * 64 + (c[3] - 0x80)
  }

  lemma FourParts(a: nat, b: nat, c: nat, d: nat)
    requires b < 64 && c < 64 && d < 64
    ensures var n := a * 262144 + b * 4096 + c * 64 + d;
            n / 262144 == a && n / 4096 % 64 == b && n / 64 % 64 == c && n % 64 == d
  {
    var n := a * 262144 + b * 4096 + c * 64 + d;
    assert n / 4096 == a * 64 + b;
    assert n / 64 == (a * 64 + b) * 64 + c;
  }

  lemma ThreeAreEncoded(c: seq<nat>)
    requires CharInNumbers(c) && |c| == 3
    ensures Scalar(Decoded(c)) && Encode(Decoded(c)) == c
  {
    var n := Decoded(c);
    FourParts(0, c[0] - 0xE0, c[1] - 0x80, c[2] - 0x80);
    assert n / 4096 == c[0] - 0xE0;
    assert 0x800 <= n < 0x10000;
    assert c == [c[0], c[1], c[2]];
  }

  lemma FourAreEncoded(c: seq<nat>)
    requires CharInNumbers(c) && |c| == 4
    ensures Scalar(Decoded(c)) && Encode(Decoded(c)) == c
  {
    FourParts(c[0] - 0xF0, c[1] - 0x80, c[2] - 0x80, c[3] - 0x80);
    assert 0x10000 <= Decoded(c) < 0x110000;
    assert c == [c[0], c[1], c[2], c[3]];
  }

  lemma CharIsEncoded(c: seq<nat>)
    requires CharInNumbers(c)
    ensures Scalar(Decoded(c)) && Encode(Decoded(c)) == c
  {
    if |c| == 3 {
      ThreeAreEncoded(c);
    } else if |c| == 4 {
      FourAreEncoded(c);
    } else {
      assert c == if |c| == 1 then [c[0]] else [c[0], c[1]];
    }
  }

  lemma EncodesIsNumbers(c: seq<byte>, n: nat)
    ensures Encodes(c, n) <==> Numbers(c) == Encode(n)
  {
    if Numbers(c) == Encode(n) {
      forall i | 0 <= i < |c| ensures c[i] as nat == Encode(n)[i] {
        assert Numbers(c)[i] == c[i] as nat;
      }
    }
  }

  lemma {:induction false} ValidIsEncoded(s: seq<byte>) returns (ns: seq<nat>)
    requires ValidUtf8(s)
    ensures EncodesAll(s, ns)
    decreases |s|
  {
    hide Utf8Char, CharLength, CharInNumbers, Decoded, Encode, Encodes, Scalar;
    if s == [] {
      ns := [];
    } else {
      var k := CharLength(s[0]);
      var more := ValidIsEncoded(s[k..]);
      CharIsInNumbers(s[..k]);
      var c := Numbers(s[..k]);
      CharIsEncoded(c);
      EncodesIsNumbers(s[..k], Decoded(c));
      ns := [Decoded(c)] + more;
      assert ns[1..] == more;
    }
  }

  lemma {:induction false} EncodedIsValid(s: seq<byte>, ns: seq<nat>)
    requires EncodesAll(s, ns)
    ensures ValidUtf8(s)
    decreases |ns|
  {
    hide Utf8Char, CharInNumbers, Encode, Encodes, Scalar;
    if ns != [] {
      var k := |Encode(ns[0])|;
      EncodedIsValid(s[k..], ns[1..]);
      EncodedIsChar(ns[0]);
      EncodesIsNumbers(s[..k], ns[0]);
      CharIsInNumbers(s[..k]);
      OneWayToPeel(s, k);
    }
  }

  /** Octets are valid exactly when they are the encodings of scalar values, one after the other. */
  lemma ValidMeans(s: seq<byte>)
    ensures ValidUtf8(s) <==> exists ns :: EncodesAll(s, ns)
  {
    hide ValidUtf8, EncodesAll;
    if ValidUtf8(s) {
      var ns := ValidIsEncoded(s);
    }
    forall ns | EncodesAll(s, ns) ensures ValidUtf8(s) {
      EncodedIsValid(s, ns);
    }
  }
}
