/** A decoder of base64 written from section 4 of RFC 4648 in numbers, and what it makes of what is encoded here. */
module Base64Reading {
  import opened Bytes
  import opened Handshake

  /** What a character stands for, or -1. */
  function Worth(c: char): (n: int)
    ensures -1 <= n < 64
  {
    if 'A' <= c <= 'Z' then c as int - 65
    else if 'a' <= c <= 'z' then c as int - 97 + 26
    else if '0' <= c <= '9' then c as int - 48 + 52
    else if c == '+' then 62
    else if c == '/' then 63
    else -1
  }

  datatype Decoded = Malformed | Decoded(octets: seq<nat>)

  /** Four characters at a time are three octets; at the end, signs of equality stand for octets that are not there. */
  function Decode(t: string): (d: Decoded) {
    if t == "" then Decoded([])
    else if |t| < 4 || Worth(t[0]) < 0 || Worth(t[1]) < 0 then Malformed
    else
      var n := 64 * Worth(t[0]) + Worth(t[1]);
      if t[2..] == "==" then Decoded([n / 16])
      else if Worth(t[2]) < 0 then Malformed
      else
        var m := 64 * n + Worth(t[2]);
        if t[3..] == "=" then Decoded([m / 1024, m / 4 % 256])
        else if Worth(t[3]) < 0 then Malformed
        else
          var g := 64 * m + Worth(t[3]);
          var more := Decode(t[4..]);
          if more.Malformed? then Malformed
          else Decoded([g / 65536, g / 256 % 256, g % 256] + more.octets)
  }

  /** A quarter of the alphabet stands for 16 numbers in a row. */
  predicate StandsFor(s: string, first: nat) {
    |s| == 16 && forall k :: 0 <= k < 16 ==> Worth(s[k]) == first + k
  }

  lemma FourQuarters(a: string, b: string, c: string, d: string, i: nat)
    requires StandsFor(a, 0) && StandsFor(b, 16) && StandsFor(c, 32) && StandsFor(d, 48) && i < 64
    ensures |a + b + c + d| == 64 && Worth((a + b + c + d)[i]) == i
  {
    hide Worth;
  }

  lemma FirstQuarter()
    ensures StandsFor("ABCDEFGHIJKLMNOP", 0)
  {
  }

  lemma SecondQuarter()
    ensures StandsFor("QRSTUVWXYZabcdef", 16)
  {
  }

  lemma ThirdQuarter()
    ensures StandsFor("ghijklmnopqrstuv", 32)
  {
  }

  lemma FourthQuarter()
    ensures StandsFor("wxyz0123456789+/", 48)
  {
  }

  /** The characters of the alphabet stand for the numbers from 0 to 63, in order. */
  lemma AlphabetIsWorth(i: nat)
    requires i < 64
    ensures |ALPHABET| == 64 && Worth(ALPHABET[i]) == i
  {
    hide Worth, StandsFor;
    FirstQuarter();
    SecondQuarter();
    ThirdQuarter();
    FourthQuarter();
    FourQuarters("ABCDEFGHIJKLMNOP", "QRSTUVWXYZabcdef", "ghijklmnopqrstuv", "wxyz0123456789+/", i);
  }

  // ---- Groups ----

  /** The bit of an octet under a mask, as a number. */
  function Bit(b: byte, mask: byte): nat { if b & mask != 0 then 1 else 0 }

  lemma EightBits(b: byte)
    ensures Value(b) == 128 * Bit(b, 128) + 64 * Bit(b, 64) + 32 * Bit(b, 32) + 16 * Bit(b, 16)
                        + 8 * Bit(b, 8) + 4 * Bit(b, 4) + 2 * Bit(b, 2) + Bit(b, 1)
  {
  }

  lemma SixBits(b: byte)
    requires b & 128 == 0 && b & 64 == 0
    ensures Value(b) == 32 * Bit(b, 32) + 16 * Bit(b, 16) + 8 * Bit(b, 8) + 4 * Bit(b, 4) + 2 * Bit(b, 2) + Bit(b, 1)
  {
  }

  // The six bits of each sextet, taken from the octets of its group.

  lemma FirstBits(b0: byte, b1: byte, b2: byte)
    ensures var e := Sextet(Group(b0, b1, b2), 0);
            && e & 128 == 0 && e & 64 == 0
            && Bit(e, 32) == Bit(b0, 128) && Bit(e, 16) == Bit(b0, 64) && Bit(e, 8) == Bit(b0, 32)
            && Bit(e, 4) == Bit(b0, 16) && Bit(e, 2) == Bit(b0, 8) && Bit(e, 1) == Bit(b0, 4)
  {
    hide Sextet, Group;
    SextetsByShifting(b0, b1, b2);
  }

  lemma SecondBits(b0: byte, b1: byte, b2: byte)
    ensures var e := Sextet(Group(b0, b1, b2), 1);
            && e & 128 == 0 && e & 64 == 0
            && Bit(e, 32) == Bit(b0, 2) && Bit(e, 16) == Bit(b0, 1) && Bit(e, 8) == Bit(b1, 128)
            && Bit(e, 4) == Bit(b1, 64) && Bit(e, 2) == Bit(b1, 32) && Bit(e, 1) == Bit(b1, 16)
  {
    hide Sextet, Group;
    SextetsByShifting(b0, b1, b2);
  }

  lemma ThirdBits(b0: byte, b1: byte, b2: byte)
    ensures var e := Sextet(Group(b0, b1, b2), 2);
            && e & 128 == 0 && e & 64 == 0
            && Bit(e, 32) == Bit(b1, 8) && Bit(e, 16) == Bit(b1, 4) && Bit(e, 8) == Bit(b1, 2)
            && Bit(e, 4) == Bit(b1, 1) && Bit(e, 2) == Bit(b2, 128) && Bit(e, 1) == Bit(b2, 64)
  {
    hide Sextet, Group;
    SextetsByShifting(b0, b1, b2);
  }

  lemma FourthBits(b0: byte, b1: byte, b2: byte)
    ensures var e := Sextet(Group(b0, b1, b2), 3);
            && e & 128 == 0 && e & 64 == 0
            && Bit(e, 32) == Bit(b2, 32) && Bit(e, 16) == Bit(b2, 16) && Bit(e, 8) == Bit(b2, 8)
            && Bit(e, 4) == Bit(b2, 4) && Bit(e, 2) == Bit(b2, 2) && Bit(e, 1) == Bit(b2, 1)
  {
    hide Sextet, Group;
    SextetsByShifting(b0, b1, b2);
  }

  lemma FirstValue(b0: byte, b1: byte, b2: byte)
    ensures Value(Sextet(Group(b0, b1, b2), 0))
         == 32 * Bit(b0, 128) + 16 * Bit(b0, 64) + 8 * Bit(b0, 32) + 4 * Bit(b0, 16) + 2 * Bit(b0, 8) + Bit(b0, 4)
  {
    hide Sextet, Group, Value, Bit;
    FirstBits(b0, b1, b2);
    SixBits(Sextet(Group(b0, b1, b2), 0));
  }

  lemma SecondValue(b0: byte, b1: byte, b2: byte)
    ensures Value(Sextet(Group(b0, b1, b2), 1))
         == 32 * Bit(b0, 2) + 16 * Bit(b0, 1) + 8 * Bit(b1, 128) + 4 * Bit(b1, 64) + 2 * Bit(b1, 32) + Bit(b1, 16)
  {
    hide Sextet, Group, Value, Bit;
    SecondBits(b0, b1, b2);
    SixBits(Sextet(Group(b0, b1, b2), 1));
  }

  lemma ThirdValue(b0: byte, b1: byte, b2: byte)
    ensures Value(Sextet(Group(b0, b1, b2), 2))
         == 32 * Bit(b1, 8) + 16 * Bit(b1, 4) + 8 * Bit(b1, 2) + 4 * Bit(b1, 1) + 2 * Bit(b2, 128) + Bit(b2, 64)
  {
    hide Sextet, Group, Value, Bit;
    ThirdBits(b0, b1, b2);
    SixBits(Sextet(Group(b0, b1, b2), 2));
  }

  lemma FourthValue(b0: byte, b1: byte, b2: byte)
    ensures Value(Sextet(Group(b0, b1, b2), 3))
         == 32 * Bit(b2, 32) + 16 * Bit(b2, 16) + 8 * Bit(b2, 8) + 4 * Bit(b2, 4) + 2 * Bit(b2, 2) + Bit(b2, 1)
  {
    hide Sextet, Group, Value, Bit;
    FourthBits(b0, b1, b2);
    SixBits(Sextet(Group(b0, b1, b2), 3));
  }

  /** The sextets of a group make up the number that its octets make up. */
  lemma SextetsWeigh(b0: byte, b1: byte, b2: byte)
    ensures var g := Group(b0, b1, b2);
            262144 * Value(Sextet(g, 0)) + 4096 * Value(Sextet(g, 1)) + 64 * Value(Sextet(g, 2)) + Value(Sextet(g, 3))
            == 65536 * Value(b0) + 256 * Value(b1) + Value(b2)
  {
    hide Sextet, Group, Value, Bit;
    FirstValue(b0, b1, b2);
    SecondValue(b0, b1, b2);
    ThirdValue(b0, b1, b2);
    FourthValue(b0, b1, b2);
    EightBits(b0);
    EightBits(b1);
    EightBits(b2);
  }

  // ---- The round trip ----

  lemma CharIsWorth(sextet: byte)
    requires sextet < 64
    ensures Worth(Base64Char(sextet)) == Value(sextet)
  {
    hide Worth, Value;
    SextetBound(sextet);
    AlphabetIsWorth(Value(sextet));
  }

  lemma NoEquals()
    ensures Worth('=') == -1
  {
  }

  /** The number that the characters of a group make up. */
  lemma GroupIsWorth(b0: byte, b1: byte, b2: byte)
    ensures var g := Group(b0, b1, b2);
            var w0, w1 := Worth(Base64Char(Sextet(g, 0))), Worth(Base64Char(Sextet(g, 1)));
            var w2, w3 := Worth(Base64Char(Sextet(g, 2))), Worth(Base64Char(Sextet(g, 3)));
            && 262144 * w0 + 4096 * w1 + 64 * w2 + w3 == 65536 * b0 as nat + 256 * b1 as nat + b2 as nat
            && w0 >= 0 && w1 >= 0 && w2 >= 0 && w3 >= 0
  {
    hide Worth, Value, Sextet, Group, Base64Char;
    var g := Group(b0, b1, b2);
    CharIsWorth(Sextet(g, 0));
    CharIsWorth(Sextet(g, 1));
    CharIsWorth(Sextet(g, 2));
    CharIsWorth(Sextet(g, 3));
    SextetsWeigh(b0, b1, b2);
    ValueIs(b0);
    ValueIs(b1);
    ValueIs(b2);
  }

  lemma Apart(g: nat, b0: nat, b1: nat, b2: nat)
    requires g == 65536 * b0 + 256 * b1 + b2 && b0 < 256 && b1 < 256 && b2 < 256
    ensures g / 65536 == b0 && g / 256 % 256 == b1 && g % 256 == b2
  {
  }

  /** Four characters, none of them a sign of equality, that make up the number which three octets make up. */
  lemma DecodeFour(c: string, more: string, n0: nat, n1: nat, n2: nat)
    requires |c| == 4 && forall i :: 0 <= i < 4 ==> Worth(c[i]) >= 0
    requires 262144 * Worth(c[0]) + 4096 * Worth(c[1]) + 64 * Worth(c[2]) + Worth(c[3]) == 65536 * n0 + 256 * n1 + n2
    requires n0 < 256 && n1 < 256 && n2 < 256
    ensures Decode(c + more) == var d := Decode(more); if d.Malformed? then Malformed
                                else Decoded([n0, n1, n2] + d.octets)
  {
    hide Worth;
    NoEquals();
    var t := c + more;
    assert t[4..] == more && t[2..][0] == c[2] && t[3..][0] == c[3];
    assert "=="[0] == '=' && "="[0] == '=';
    Apart(262144 * Worth(c[0]) + 4096 * Worth(c[1]) + 64 * Worth(c[2]) + Worth(c[3]), n0, n1, n2);
  }

  lemma ApartTwo(m: nat, w: nat, b0: nat, b1: nat)
    requires 64 * m + w == 65536 * b0 + 256 * b1 && w < 64 && b0 < 256 && b1 < 256
    ensures m / 1024 == b0 && m / 4 % 256 == b1
  {
    assert m == 1024 * b0 + 4 * b1 + (m - 1024 * b0 - 4 * b1) && 0 <= m - 1024 * b0 - 4 * b1 < 4;
    assert m / 4 == 256 * b0 + b1;
  }

  lemma DecodeThree(c: string, w: nat, n0: nat, n1: nat)
    requires |c| == 3 && forall i :: 0 <= i < 3 ==> Worth(c[i]) >= 0
    requires 262144 * Worth(c[0]) + 4096 * Worth(c[1]) + 64 * Worth(c[2]) + w == 65536 * n0 + 256 * n1
    requires w < 64 && n0 < 256 && n1 < 256
    ensures Decode(c + "=") == Decoded([n0, n1])
  {
    hide Worth;
    NoEquals();
    var t := c + "=";
    assert t[2..][0] == c[2] && t[3..] == "=";
    assert "=="[0] == '=';
    ApartTwo(4096 * Worth(c[0]) + 64 * Worth(c[1]) + Worth(c[2]), w, n0, n1);
  }

  lemma DecodeTwo(c: string)
    requires |c| == 2 && forall i :: 0 <= i < 2 ==> Worth(c[i]) >= 0
    ensures Decode(c + "==") == Decoded([(64 * Worth(c[0]) + Worth(c[1])) / 16])
  {
    hide Worth;
    assert (c + "==")[2..] == "==";
  }

  lemma DecodeGroup(b0: byte, b1: byte, b2: byte, more: string)
    requires Decode(more).Decoded?
    ensures Decode(Quad(b0, b1, b2) + more) == Decoded([b0 as nat, b1 as nat, b2 as nat] + Decode(more).octets)
  {
    hide Worth, Group, Sextet, Base64Char, Decode;
    GroupIsWorth(b0, b1, b2);
    DecodeFour(Quad(b0, b1, b2), more, b0 as nat, b1 as nat, b2 as nat);
  }

  lemma DecodePair(b0: byte, b1: byte)
    ensures Decode(Base64([b0, b1])) == Decoded([b0 as nat, b1 as nat])
  {
    hide Worth, Group, Sextet, Base64Char, Decode;
    GroupIsWorth(b0, b1, 0);
    var g := Group(b0, b1, 0);
    var c := [Base64Char(Sextet(g, 0)), Base64Char(Sextet(g, 1)), Base64Char(Sextet(g, 2))];
    DecodeThree(c, Worth(Base64Char(Sextet(g, 3))), b0 as nat, b1 as nat);
    assert Base64([b0, b1]) == c + "=";
  }

  lemma DecodeSingle(b0: byte)
    ensures Decode(Base64([b0])) == Decoded([b0 as nat])
  {
    hide Worth, Group, Sextet, Base64Char, Decode;
    GroupIsWorth(b0, 0, 0);
    var g := Group(b0, 0, 0);
    var c := [Base64Char(Sextet(g, 0)), Base64Char(Sextet(g, 1))];
    DecodeTwo(c);
    assert Base64([b0]) == c + "==";
    assert (64 * Worth(c[0]) + Worth(c[1])) / 16 == b0 as nat;
  }

  /** Decoding gives back the octets, however many they are. */
  lemma {:induction false} DecodeEncoded(s: seq<byte>)
    ensures Decode(Base64(s)) == Decoded(Numbers(s))
  {
    hide Decode, Quad, Base64Char, Group, Sextet;
    if s == [] {
      NothingDecoded();
    } else if |s| == 1 {
      DecodeSingle(s[0]);
      assert s == [s[0]] && Numbers(s) == [s[0] as nat];
    } else if |s| == 2 {
      DecodePair(s[0], s[1]);
      assert s == [s[0], s[1]] && Numbers(s) == [s[0] as nat, s[1] as nat];
    } else {
      DecodeEncoded(s[3..]);
      DecodeGroup(s[0], s[1], s[2], Base64(s[3..]));
      assert Numbers(s) == [s[0] as nat, s[1] as nat, s[2] as nat] + Numbers(s[3..]);
    }
  }

  lemma NothingDecoded()
    ensures Decode(Base64([])) == Decoded([]) && Numbers([]) == []
  {
  }
}
