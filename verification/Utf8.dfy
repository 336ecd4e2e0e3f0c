/** The UTF-8 validator of the WebSocket protocol and the grammar it decides. */
module Utf8 {
  import opened Bytes

  predicate Tail(b: byte) { 0x80 <= b <= 0xBF }

  /** UTF8-char, the four alternatives of section 4 of RFC 3629, written out. */
  predicate Utf8Char(c: seq<byte>) {
    match |c|
    case 1 => c[0] <= 0x7F
    case 2 => 0xC2 <= c[0] <= 0xDF && Tail(c[1])
    case 3 =>
      Tail(c[2]) &&
      ( || (c[0] == 0xE0 && 0xA0 <= c[1] <= 0xBF)
        || (0xE1 <= c[0] <= 0xEC && Tail(c[1]))
        || (c[0] == 0xED && 0x80 <= c[1] <= 0x9F)
        || (0xEE <= c[0] <= 0xEF && Tail(c[1])))
    case 4 =>
      Tail(c[2]) && Tail(c[3]) &&
      ( || (c[0] == 0xF0 && 0x90 <= c[1] <= 0xBF)
        || (0xF1 <= c[0] <= 0xF3 && Tail(c[1]))
        || (c[0] == 0xF4 && 0x80 <= c[1] <= 0x8F))
    case _ => false
  }

  /** How many octets the character has that begins with `b`. */
  function CharLength(b: byte): (n: nat)
    ensures 1 <= n <= 4
  {
    if b < 0x80 then 1 else if b < 0xE0 then 2 else if b < 0xF0 then 3 else 4
  }

  /** `s` begins with a character. */
  predicate CharFirst(s: seq<byte>)
    requires s != []
  {
    CharLength(s[0]) <= |s| && Utf8Char(s[..CharLength(s[0])])
  }

  /** UTF8-octets: any concatenation of characters. */
  predicate ValidUtf8(s: seq<byte>) {
    s == [] || (CharFirst(s) && ValidUtf8(s[CharLength(s[0])..]))
  }

  /** The first octet fixes the length of the character, so only one prefix can be peeled off. */
  lemma OneWayToPeel(s: seq<byte>, n: nat)
    requires 1 <= n <= |s| && n <= 4 && Utf8Char(s[..n])
    ensures n == CharLength(s[0]) && (ValidUtf8(s) <==> ValidUtf8(s[n..]))
  {
    assert s[..n][0] == s[0];
  }

  lemma NothingLeft()
    ensures ValidUtf8([])
  {
  }

  lemma AsciiPrefix(s: seq<byte>)
    requires |s| >= 1 && s[0] & 0x80 == 0
    ensures ValidUtf8(s) <==> ValidUtf8(s[1..])
  {
    assert s[0] <= 0x7F;
    OneWayToPeel(s, 1);
  }

  lemma FourAscii(s: seq<byte>)
    requires |s| >= 4 && s[0] & 0x80 == 0 && s[1] & 0x80 == 0 && s[2] & 0x80 == 0 && s[3] & 0x80 == 0
    ensures ValidUtf8(s) <==> ValidUtf8(s[4..])
  {
    AsciiPrefix(s);
    AsciiPrefix(s[1..]);
    assert s[1..][1..] == s[2..];
    AsciiPrefix(s[2..]);
    assert s[2..][1..] == s[3..];
    AsciiPrefix(s[3..]);
    assert s[3..][1..] == s[4..];
  }

  /** Four octets loaded as one 32-bit word, as memcpy does on a little-endian machine. */
  function Word(b0: byte, b1: byte, b2: byte, b3: byte): bv32 {
    (b0 as bv32) | ((b1 as bv32) << 8) | ((b2 as bv32) << 16) | ((b3 as bv32) << 24)
  }

  lemma WordTest(b0: byte, b1: byte, b2: byte, b3: byte)
    ensures Word(b0, b1, b2, b3) & 0x80808080 == 0
       <==> b0 & 0x80 == 0 && b1 & 0x80 == 0 && b2 & 0x80 == 0 && b3 & 0x80 == 0
  {
  }

  /** What one pass of the validator's multi-octet branch accepts, as the length it advances by (0 is refusal). */
  lemma NotAChar(s: seq<byte>)
    requires s != []
    requires forall n :: 1 <= n <= |s| && n <= 4 ==> !Utf8Char(s[..n])
    ensures !ValidUtf8(s)
  {
  }

  lemma TwoOctets(s: seq<byte>)
    requires s != [] && s[0] & 0x80 != 0 && s[0] & 0x60 == 0x40
    ensures if |s| < 2 || s[1] & 0xC0 != 0x80 || s[0] & 0xFE == 0xC0 then !ValidUtf8(s)
            else ValidUtf8(s) <==> ValidUtf8(s[2..])
  {
    assert 0xC0 <= s[0] <= 0xDF;
    if |s| < 2 || s[1] & 0xC0 != 0x80 || s[0] & 0xFE == 0xC0 {
      forall n | 1 <= n <= |s| && n <= 4 ensures !Utf8Char(s[..n]) {}
      NotAChar(s);
    } else {
      assert Tail(s[1]);
      OneWayToPeel(s, 2);
    }
  }

  lemma ThreeOctets(s: seq<byte>)
    requires s != [] && s[0] & 0xF0 == 0xE0
    ensures if |s| < 3 || s[1] & 0xC0 != 0x80 || s[2] & 0xC0 != 0x80
               || (s[0] == 0xE0 && s[1] & 0xE0 == 0x80) || (s[0] == 0xED && s[1] & 0xE0 == 0xA0)
            then !ValidUtf8(s)
            else ValidUtf8(s) <==> ValidUtf8(s[3..])
  {
    assert 0xE0 <= s[0] <= 0xEF;
    if |s| < 3 || s[1] & 0xC0 != 0x80 || s[2] & 0xC0 != 0x80
       || (s[0] == 0xE0 && s[1] & 0xE0 == 0x80) || (s[0] == 0xED && s[1] & 0xE0 == 0xA0) {
      forall n | 1 <= n <= |s| && n <= 4 ensures !Utf8Char(s[..n]) {}
      NotAChar(s);
    } else {
      OneWayToPeel(s, 3);
    }
  }

  lemma FourOctets(s: seq<byte>)
    requires s != [] && s[0] & 0xF8 == 0xF0
    ensures if |s| < 4 || s[1] & 0xC0 != 0x80 || s[2] & 0xC0 != 0x80 || s[3] & 0xC0 != 0x80
               || (s[0] == 0xF0 && s[1] & 0xF0 == 0x80) || (s[0] == 0xF4 && s[1] > 0x8F) || s[0] > 0xF4
            then !ValidUtf8(s)
            else ValidUtf8(s) <==> ValidUtf8(s[4..])
  {
    assert 0xF0 <= s[0] <= 0xF7;
    if |s| < 4 || s[1] & 0xC0 != 0x80 || s[2] & 0xC0 != 0x80 || s[3] & 0xC0 != 0x80
       || (s[0] == 0xF0 && s[1] & 0xF0 == 0x80) || (s[0] == 0xF4 && s[1] > 0x8F) || s[0] > 0xF4 {
      forall n | 1 <= n <= |s| && n <= 4 ensures !Utf8Char(s[..n]) {}
      NotAChar(s);
    } else {
      OneWayToPeel(s, 4);
    }
  }

  lemma NoLeadOctet(s: seq<byte>)
    requires s != [] && s[0] & 0x80 != 0
    requires s[0] & 0x60 != 0x40 && s[0] & 0xF0 != 0xE0 && s[0] & 0xF8 != 0xF0
    ensures !ValidUtf8(s)
  {
    assert s[0] < 0xC0 || s[0] > 0xF7;
    forall n | 1 <= n <= |s| && n <= 4 ensures !Utf8Char(s[..n]) {}
    NotAChar(s);
  }

  /** The validator: a fast path over four ASCII octets at a time, then one character at a time. */
  method IsValidUtf8(s: seq<byte>) returns (ok: bool)
    ensures ok == ValidUtf8(s)
  {
    hide *;
    NothingLeft();
    var e := |s|;
    var i := 0;
    while i != e
      invariant 0 <= i <= e
      invariant ValidUtf8(s) <==> ValidUtf8(s[i..])
      decreases e - i
    {
      if i + 4 <= e {
        WordTest(s[i], s[i + 1], s[i + 2], s[i + 3]);
        if Word(s[i], s[i + 1], s[i + 2], s[i + 3]) & 0x80808080 == 0 {
          FourAscii(s[i..]);
          assert s[i..][4..] == s[i + 4..];
          i := i + 4;
          continue;
        }
      }
      while s[i] & 0x80 == 0
        invariant 0 <= i < e
        invariant ValidUtf8(s) <==> ValidUtf8(s[i..])
        decreases e - i
      {
        AsciiPrefix(s[i..]);
        assert s[i..][1..] == s[i + 1..];
        i := i + 1;
        if i == e {
          assert s[e..] == [];
          return true;
        }
      }
      if s[i] & 0x60 == 0x40 {
        TwoOctets(s[i..]);
        if i + 1 >= e || s[i + 1] & 0xC0 != 0x80 || s[i] & 0xFE == 0xC0 {
          return false;
        }
        assert s[i..][2..] == s[i + 2..];
        i := i + 2;
      } else if s[i] & 0xF0 == 0xE0 {
        ThreeOctets(s[i..]);
        if i + 2 >= e || s[i + 1] & 0xC0 != 0x80 || s[i + 2] & 0xC0 != 0x80
           || (s[i] == 0xE0 && s[i + 1] & 0xE0 == 0x80) || (s[i] == 0xED && s[i + 1] & 0xE0 == 0xA0) {
          return false;
        }
        assert s[i..][3..] == s[i + 3..];
        i := i + 3;
      } else if s[i] & 0xF8 == 0xF0 {
        FourOctets(s[i..]);
        if i + 3 >= e || s[i + 1] & 0xC0 != 0x80 || s[i + 2] & 0xC0 != 0x80 || s[i + 3] & 0xC0 != 0x80
           || (s[i] == 0xF0 && s[i + 1] & 0xF0 == 0x80) || (s[i] == 0xF4 && s[i + 1] > 0x8F) || s[i] > 0xF4 {
          return false;
        }
        assert s[i..][4..] == s[i + 4..];
        i := i + 4;
      } else {
        NoLeadOctet(s[i..]);
        return false;
      }
    }
    assert s[e..] == [];
    return true;
  }
}
