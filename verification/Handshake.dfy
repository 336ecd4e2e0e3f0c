/** The opening handshake's accept key: section 4.2.2 of RFC 6455. */
module Handshake {
  import opened Bytes
  import opened Sha1

  // ---- SHA-1 of octets, FIPS 180-4 ----

  /** Four octets as a word, most significant first. */
  function WordOf(b0: byte, b1: byte, b2: byte, b3: byte): word {
    ((b0 as word) << 24) | ((b1 as word) << 16) | ((b2 as word) << 8) | (b3 as word)
  }

  function Words(s: seq<byte>): (m: seq<word>)
    requires |s| % 4 == 0
    ensures |m| == |s| / 4
  {
    if s == [] then [] else [WordOf(s[0], s[1], s[2], s[3])] + Words(s[4..])
  }

  lemma {:induction false} WordsAt(s: seq<byte>, i: nat)
    requires |s| % 4 == 0 && 4 * i < |s|
    ensures Words(s)[i] == WordOf(s[4 * i], s[4 * i + 1], s[4 * i + 2], s[4 * i + 3])
    decreases i
  {
    hide WordOf;
    if i > 0 {
      WordsAt(s[4..], i - 1);
    }
  }

  /** The octets of a word, most significant first. */
  function OctetsOf(w: word): (s: seq<byte>)
    ensures |s| == 4
  {
    [((w >> 24) & 0xff) as byte, ((w >> 16) & 0xff) as byte, ((w >> 8) & 0xff) as byte, (w & 0xff) as byte]
  }

  /** The octets of several words. */
  function Flat(ws: seq<word>): (s: seq<byte>)
    ensures |s| == 4 * |ws|
    decreases |ws|
  {
    if ws == [] then [] else Flat(ws[..|ws| - 1]) + OctetsOf(ws[|ws| - 1])
  }

  /** Section 5.1.1: a one bit, zeros, and the length in bits in eight octets, up to a multiple of 64 octets. */
  function Padded(s: seq<byte>): (p: seq<byte>)
    ensures |p| % 64 == 0
  {
    s + [0x80] + seq((55 - |s|) % 64, _ => 0) + ToNetwork(8 * |s|, 8)
  }

  /** Section 6.1.2: block after block. */
  function Digested(s: seq<byte>, h: Registers): Registers
    requires |s| % 64 == 0
  {
    if s == [] then h else Digested(s[64..], Compress(Words(s[..64]), h))
  }

  /** Section 5.3.1. */
  const INITIAL := Registers(0x67452301, 0xefcdab89, 0x98badcfe, 0x10325476, 0xc3d2e1f0)

  function Sha1Of(s: seq<byte>): (d: seq<byte>)
    ensures |d| == 20
  {
    var h := Digested(Padded(s), INITIAL);
    Flat([h.a, h.b, h.c, h.d, h.e])
  }

  // ---- Base64, section 4 of RFC 4648 ----

  const ALPHABET: string := "ABCDEFGHIJKLMNOP" + "QRSTUVWXYZabcdef" + "ghijklmnopqrstuv" + "wxyz0123456789+/"

  /** The character for six bits. */
  function Base64Char(sextet: byte): char
    requires sextet < 64
  {
    SextetBound(sextet);
    ALPHABET[Value(sextet)]
  }

  lemma SextetBound(b: byte)
    requires b < 64
    ensures Value(b) < 64 == |ALPHABET|
  {
  }

  /** The `k`th sextet of a group of 24 bits, from the left. */
  function Sextet(group: word, k: nat): (b: byte)
    requires k < 4
    ensures b < 64
  {
    ((group >> (18 - 6 * k)) & 63) as byte
  }

  /** Three octets, or what there is of them, as a group of 24 bits. */
  function Group(b0: byte, b1: byte, b2: byte): word {
    WordOf(0, b0, b1, b2)
  }

  function Base64(s: seq<byte>): (t: string) {
    if s == [] then ""
    else if |s| == 1 then
      var g := Group(s[0], 0, 0);
      [Base64Char(Sextet(g, 0)), Base64Char(Sextet(g, 1)), '=', '=']
    else if |s| == 2 then
      var g := Group(s[0], s[1], 0);
      [Base64Char(Sextet(g, 0)), Base64Char(Sextet(g, 1)), Base64Char(Sextet(g, 2)), '=']
    else Quad(s[0], s[1], s[2]) + Base64(s[3..])
  }

  /** The four characters of a whole group. */
  function Quad(b0: byte, b1: byte, b2: byte): (t: string)
    ensures |t| == 4
  {
    var g := Group(b0, b1, b2);
    [Base64Char(Sextet(g, 0)), Base64Char(Sextet(g, 1)), Base64Char(Sextet(g, 2)), Base64Char(Sextet(g, 3))]
  }

  /** The shifts and masks of the encoder cut out the sextets of the group. */
  lemma SextetsByShifting(b0: byte, b1: byte, b2: byte)
    ensures (b0 >> 2) & 63 == Sextet(Group(b0, b1, b2), 0)
    ensures ((b0 & 3) << 4) | ((b1 & 240) >> 4) == Sextet(Group(b0, b1, b2), 1)
    ensures ((b1 & 15) << 2) | ((b2 & 192) >> 6) == Sextet(Group(b0, b1, b2), 2)
    ensures b2 & 63 == Sextet(Group(b0, b1, b2), 3)
  {
  }

  lemma {:induction false} Base64Concat(a: seq<byte>, b: seq<byte>)
    requires |a| % 3 == 0
    ensures Base64(a + b) == Base64(a) + Base64(b)
  {
    hide Quad;
    if a == [] {
      assert a + b == b;
    } else {
      assert (a + b)[3..] == a[3..] + b;
      Base64Concat(a[3..], b);
    }
  }

  lemma Base64Group(a: seq<byte>, b0: byte, b1: byte, b2: byte)
    requires |a| % 3 == 0
    ensures Base64(a + [b0, b1, b2]) == Base64(a) + Quad(b0, b1, b2)
  {
    hide Quad, Base64;
    Base64Concat(a, [b0, b1, b2]);
    Base64One(b0, b1, b2);
  }

  lemma Base64One(b0: byte, b1: byte, b2: byte)
    ensures Base64([b0, b1, b2]) == Quad(b0, b1, b2)
  {
    hide Quad;
    assert [b0, b1, b2][3..] == [];
    assert Base64([b0, b1, b2]) == Quad(b0, b1, b2) + "";
  }

  lemma {:induction false} Base64Length(s: seq<byte>)
    ensures |Base64(s)| == 4 * ((|s| + 2) / 3)
  {
    hide Quad;
    if |s| > 2 {
      Base64Length(s[3..]);
    }
  }

  /** Six bits cut out of two octets select a character. */
  lemma SextetsFit(b0: byte, b1: byte)
    ensures (b0 >> 2) & 63 < 64 && ((b0 & 3) << 4) | ((b1 & 240) >> 4) < 64 && ((b0 & 15) << 2) | ((b1 & 192) >> 6) < 64
    ensures b0 & 63 < 64 && (b0 & 15) << 2 < 64 && (b0 & 15) << 2 == ((b0 & 15) << 2) | ((0 & 192) >> 6)
  {
  }

  method Base64Quad(b0: byte, b1: byte, b2: byte) returns (c0: char, c1: char, c2: char, c3: char)
    ensures [c0, c1, c2, c3] == Quad(b0, b1, b2)
  {
    hide Sextet, Group, Base64Char;
    SextetsFit(b0, b1);
    SextetsFit(b1, b2);
    SextetsFit(b2, 0);
    SextetsByShifting(b0, b1, b2);
    c0 := Base64Char((b0 >> 2) & 63);
    c1 := Base64Char(((b0 & 3) << 4) | ((b1 & 240) >> 4));
    c2 := Base64Char(((b1 & 15) << 2) | ((b2 & 192) >> 6));
    c3 := Base64Char(b2 & 63);
  }

  /** The six whole groups. */
  method Base64Groups(src: array<byte>, dst: array<char>)
    requires src.Length == 20 && dst.Length == 28
    modifies dst
    ensures dst[..24] == Base64(src[..18])
  {
    hide Base64, Quad, Base64Char, Sextet, Group;
    var i, to := 0, 0;
    Base64Length([]);
    assert src[..0] == [];
    while i < 18
      invariant i % 3 == 0 && i <= 18 && to == i / 3 * 4
      invariant dst[..to] == Base64(src[..i])
    {
      Base64Group(src[..i], src[i], src[i + 1], src[i + 2]);
      assert src[..i + 3] == src[..i] + [src[i], src[i + 1], src[i + 2]];
      dst[to], dst[to + 1], dst[to + 2], dst[to + 3] := Base64Quad(src[i], src[i + 1], src[i + 2]);
      assert dst[..to + 4] == dst[..to] + [dst[to], dst[to + 1], dst[to + 2], dst[to + 3]];
      i, to := i + 3, to + 4;
    }
  }

  method Base64Encode(src: array<byte>, dst: array<char>)
    requires src.Length == 20 && dst.Length == 28
    modifies dst
    ensures dst[..] == Base64(src[..])
  {
    hide Base64, Quad, Base64Char, Sextet, Group;
    Base64Groups(src, dst);
    ghost var front := dst[..24];
    dst[24], dst[25], dst[26] := Base64Tail(src[18], src[19]);
    dst[27] := '=';
    Base64Concat(src[..18], [src[18], src[19]]);
    assert src[..] == src[..18] + [src[18], src[19]];
    assert dst[..24] == front;
    assert dst[..] == front + [dst[24], dst[25], dst[26], dst[27]];
  }

  method Base64Tail(b0: byte, b1: byte) returns (c0: char, c1: char, c2: char)
    ensures [c0, c1, c2, '='] == Base64([b0, b1])
  {
    hide Base64Char, Sextet, Group;
    SextetsFit(b0, b1);
    SextetsFit(b1, 0);
    SextetsByShifting(b0, b1, 0);
    c0 := Base64Char((b0 >> 2) & 63);
    c1 := Base64Char(((b0 & 3) << 4) | ((b1 & 240) >> 4));
    c2 := Base64Char((b1 & 15) << 2);
  }

  // ---- The accept key ----

  const GUID_TEXT: string := "258EAFA5-E91" + "4-47DA-95CA-" + "C5AB0DC85B11"

  /** The identifier of section 1.3 of RFC 6455 in ASCII. */
  const GUID: seq<byte> :=
    [0x32, 0x35, 0x38, 0x45, 0x41, 0x46, 0x41, 0x35, 0x2d, 0x45, 0x39, 0x31]
    + [0x34, 0x2d, 0x34, 0x37, 0x44, 0x41, 0x2d, 0x39, 0x35, 0x43, 0x41, 0x2d]
    + [0x43, 0x35, 0x41, 0x42, 0x30, 0x44, 0x43, 0x38, 0x35, 0x42, 0x31, 0x31]

  predicate Spells(s: seq<byte>, t: string) {
    |s| == |t| && forall i :: 0 <= i < |s| ==> Value(s[i]) == t[i] as int
  }

  lemma GuidIsText()
    ensures Spells(GUID, GUID_TEXT)
  {
    hide Value;
    GuidCharacters();
    assert Spells([0x32, 0x35, 0x38, 0x45, 0x41, 0x46, 0x41, 0x35, 0x2d, 0x45, 0x39, 0x31], "258EAFA5-E91");
    assert Spells([0x34, 0x2d, 0x34, 0x37, 0x44, 0x41, 0x2d, 0x39, 0x35, 0x43, 0x41, 0x2d], "4-47DA-95CA-");
    assert Spells([0x43, 0x35, 0x41, 0x42, 0x30, 0x44, 0x43, 0x38, 0x35, 0x42, 0x31, 0x31], "C5AB0DC85B11");
  }

  /** The characters that occur in the identifier. */
  lemma GuidCharacters()
    ensures Value(0x2d) == '-' as int && Value(0x30) == '0' as int && Value(0x31) == '1' as int
            && Value(0x32) == '2' as int && Value(0x34) == '4' as int
    ensures Value(0x35) == '5' as int && Value(0x37) == '7' as int && Value(0x38) == '8' as int
            && Value(0x39) == '9' as int && Value(0x41) == 'A' as int
    ensures Value(0x42) == 'B' as int && Value(0x43) == 'C' as int && Value(0x44) == 'D' as int
            && Value(0x45) == 'E' as int && Value(0x46) == 'F' as int
  {
  }

  /** The first block of key and identifier, and the second, which holds padding and length only. */
  function FirstBlock(key: seq<byte>): (b: seq<byte>)
    requires |key| == 24
    ensures |b| == 64
  {
    key + GUID + [0x80, 0, 0, 0]
  }

  const LAST_BLOCK: seq<byte> := seq(62, _ => 0) + [0x01, 0xe0]

  lemma PaddedIsTwoBlocks(key: seq<byte>)
    requires |key| == 24
    ensures Padded(key + GUID) == FirstBlock(key) + LAST_BLOCK
  {
    var s := key + GUID;
    assert |GUID| == 36;
    assert 8 * |s| == 480 && (55 - |s|) % 64 == 59;
    LengthIs480();
    var zeros := seq(59, _ => 0);
    assert zeros == [0, 0, 0] + seq(56, _ => 0);
    assert seq(56, _ => 0) + ToNetwork(480, 8) == LAST_BLOCK;
    assert Padded(s) == s + [0x80] + zeros + ToNetwork(480, 8);
    assert s + [0x80] + ([0, 0, 0] + seq(56, _ => 0)) + ToNetwork(480, 8)
        == s + ([0x80] + [0, 0, 0]) + (seq(56, _ => 0) + ToNetwork(480, 8));
  }

  lemma LengthIs480()
    ensures ToNetwork(480, 8) == [0, 0, 0, 0, 0, 0, 0x01, 0xe0]
  {
    NoLength(6);
    OctetsOf480();
    assert ToNetwork(1, 7) == ToNetwork(0, 6) + [Octet(1)];
    assert ToNetwork(480, 8) == ToNetwork(1, 7) + [Octet(224)];
  }

  lemma OctetsOf480()
    ensures Octet(0) == 0 && Octet(1) == 0x01 && Octet(224) == 0xe0
  {
  }

  lemma {:induction false} NoLength(width: nat)
    ensures ToNetwork(0, width) == seq(width, _ => 0)
  {
    OctetsOf480();
    if width > 0 {
      NoLength(width - 1);
    }
  }

  lemma TwoBlocks(b0: seq<byte>, b1: seq<byte>, h: Registers)
    requires |b0| == |b1| == 64
    ensures Digested(b0 + b1, h) == Compress(Words(b1), Compress(Words(b0), h))
  {
    hide Compress, Words;
    var s := b0 + b1;
    assert s[..64] == b0 && s[64..] == b1 && b1[..64] == b1 && b1[64..] == [];
    assert Digested(s, h) == Digested(b1, Compress(Words(b0), h));
    assert Digested([], Compress(Words(b1), Compress(Words(b0), h))) == Compress(Words(b1), Compress(Words(b0), h));
  }

  /** The words of the first block that are written out as constants. */
  lemma ConstantWords()
    ensures WordOf(0x32, 0x35, 0x38, 0x45) == 0x32353845 && WordOf(0x41, 0x46, 0x41, 0x35) == 0x41464135
    ensures WordOf(0x2d, 0x45, 0x39, 0x31) == 0x2d453931 && WordOf(0x34, 0x2d, 0x34, 0x37) == 0x342d3437
    ensures WordOf(0x44, 0x41, 0x2d, 0x39) == 0x44412d39 && WordOf(0x35, 0x43, 0x41, 0x2d) == 0x3543412d
    ensures WordOf(0x43, 0x35, 0x41, 0x42) == 0x43354142 && WordOf(0x30, 0x44, 0x43, 0x38) == 0x30444338
    ensures WordOf(0x35, 0x42, 0x31, 0x31) == 0x35423131 && WordOf(0x80, 0, 0, 0) == 0x80000000
    ensures WordOf(0, 0, 0, 0) == 0 && WordOf(0, 0, 0x01, 0xe0) == 480
  {
  }

  lemma WordByShifts(b0: byte, b1: byte, b2: byte, b3: byte)
    ensures ((b3 as word) & 0xff) | (((b2 as word) & 0xff) << 8) | (((b1 as word) & 0xff) << 16)
              | (((b0 as word) & 0xff) << 24)
            == WordOf(b0, b1, b2, b3)
  {
  }

  lemma {:induction false} WordsConcat(s: seq<byte>, t: seq<byte>)
    requires |s| % 4 == 0 && |t| % 4 == 0
    ensures Words(s + t) == Words(s) + Words(t)
  {
    hide WordOf;
    if s == [] {
      assert s + t == t;
    } else {
      assert (s + t)[4..] == s[4..] + t;
      WordsConcat(s[4..], t);
    }
  }

  lemma GuidWords()
    ensures Words(GUID)
            == [0x32353845, 0x41464135, 0x2d453931, 0x342d3437, 0x44412d39, 0x3543412d, 0x43354142, 0x30444338,
                            0x35423131]
  {
    hide WordOf, Words;
    ConstantWords();
    GuidStart(GUID);
    GuidMiddle(GUID);
    GuidEnd(GUID);
    WordsAt(GUID, 0);
    WordsAt(GUID, 1);
    WordsAt(GUID, 2);
    WordsAt(GUID, 3);
    WordsAt(GUID, 4);
    WordsAt(GUID, 5);
    WordsAt(GUID, 6);
    WordsAt(GUID, 7);
    WordsAt(GUID, 8);
  }

  /** The octets of the identifier, four to a word. */
  lemma GuidStart(s: seq<byte>)
    requires s == GUID
    ensures |s| == 36
    ensures s[0] == 0x32 && s[1] == 0x35 && s[2] == 0x38 && s[3] == 0x45
    ensures s[4] == 0x41 && s[5] == 0x46 && s[6] == 0x41 && s[7] == 0x35
    ensures s[8] == 0x2d && s[9] == 0x45 && s[10] == 0x39 && s[11] == 0x31
  {
  }

  lemma GuidMiddle(s: seq<byte>)
    requires s == GUID
    ensures |s| == 36
    ensures s[12] == 0x34 && s[13] == 0x2d && s[14] == 0x34 && s[15] == 0x37
    ensures s[16] == 0x44 && s[17] == 0x41 && s[18] == 0x2d && s[19] == 0x39
    ensures s[20] == 0x35 && s[21] == 0x43 && s[22] == 0x41 && s[23] == 0x2d
  {
  }

  lemma GuidEnd(s: seq<byte>)
    requires s == GUID
    ensures |s| == 36
    ensures s[24] == 0x43 && s[25] == 0x35 && s[26] == 0x41 && s[27] == 0x42
    ensures s[28] == 0x30 && s[29] == 0x44 && s[30] == 0x43 && s[31] == 0x38
    ensures s[32] == 0x35 && s[33] == 0x42 && s[34] == 0x31 && s[35] == 0x31
  {
  }

  /** The first block as it is put together in place: the key's words in front of the constants. */
  lemma FirstWords(key: seq<byte>, b: seq<word>)
    requires |key| == 24 && |b| == 16 && Words(key) == b[..6]
    requires b[6..] == [0x32353845, 0x41464135, 0x2d453931, 0x342d3437, 0x44412d39, 0x3543412d, 0x43354142, 0x30444338,
                        0x35423131, 0x80000000]
    ensures Words(FirstBlock(key)) == b
  {
    hide WordOf, Words;
    assert |GUID| == 36;
    WordsConcat(key, GUID);
    WordsConcat(key + GUID, [0x80, 0, 0, 0]);
    GuidWords();
    LastWord();
    assert b == b[..6] + b[6..];
    assert b[6..] == Words(GUID) + [0x80000000];
  }

  lemma LastWord()
    ensures Words([0x80, 0, 0, 0]) == [0x80000000]
  {
    hide WordOf;
    ConstantWords();
    WordsAt([0x80, 0, 0, 0], 0);
  }

  lemma LastWords(b: seq<word>)
    requires b == [0, 0, 0, 0, 0, 0, 0, 0, 0, 0, 0, 0, 0, 0, 0, 480]
    ensures Words(LAST_BLOCK) == b
  {
    hide WordOf;
    ConstantWords();
    forall i | 0 <= i < 16 ensures Words(LAST_BLOCK)[i] == b[i] {
      WordsAt(LAST_BLOCK, i);
    }
  }

  /** Reads the key into the first words of the block. */
  method ReadKey(input: array<byte>, b: array<word>)
    requires input.Length == 24 && b.Length == 16
    modifies b
    ensures b[..6] == Words(input[..]) && b[6..] == old(b[6..])
  {
    hide WordOf, Words;
    for i := 0 to 6
      invariant b[6..] == old(b[6..])
      invariant b[..i] == Words(input[..])[..i]
    {
      WordByShifts(input[4 * i], input[4 * i + 1], input[4 * i + 2], input[4 * i + 3]);
      WordsAt(input[..], i);
      b[i] := ((input[4 * i + 3] as word) & 0xff) | (((input[4 * i + 2] as word) & 0xff) << 8)
              | (((input[4 * i + 1] as word) & 0xff) << 16) | (((input[4 * i] as word) & 0xff) << 24);
    }
  }

  /** Writes the hash value out, most significant octets first. */
  method WriteHash(hash: array<word>, bytes: array<byte>)
    requires hash.Length == 5 && bytes.Length == 20
    modifies bytes
    ensures bytes[..] == Flat(hash[..])
  {
    hide OctetsOf, Flat;
    FlatNothing();
    assert hash[..0] == [];
    for i := 0 to 5
      invariant bytes[..4 * i] == Flat(hash[..i])
    {
      var tmp := hash[i];
      OctetsAre(tmp);
      bytes[4 * i + 3] := (tmp & 0xff) as byte;
      bytes[4 * i + 2] := ((tmp >> 8) & 0xff) as byte;
      bytes[4 * i + 1] := ((tmp >> 16) & 0xff) as byte;
      bytes[4 * i] := ((tmp >> 24) & 0xff) as byte;
      assert hash[..i + 1] == hash[..i] + [tmp];
      FlatSnoc(hash[..i], tmp);
      assert bytes[..4 * (i + 1)] == bytes[..4 * i] + OctetsOf(tmp);
    }
    assert hash[..5] == hash[..] && bytes[..20] == bytes[..];
  }

  lemma OctetsAre(w: word)
    ensures OctetsOf(w)
            == [((w >> 24) & 0xff) as byte, ((w >> 16) & 0xff) as byte, ((w >> 8) & 0xff) as byte, (w & 0xff) as byte]
  {
  }

  lemma FlatNothing()
    ensures Flat([]) == []
  {
  }

  lemma FlatSnoc(ws: seq<word>, w: word)
    ensures Flat(ws + [w]) == Flat(ws) + OctetsOf(w)
  {
    hide OctetsOf;
    assert (ws + [w])[..|ws|] == ws;
  }

  /** Section 4.2.2 of RFC 6455: base64 of the SHA-1 of the key followed by the identifier. */
  method Generate(input: array<byte>, output: array<char>)
    requires input.Length == 24 && output.Length == 28
    modifies output
    ensures output[..] == Base64(Sha1Of(input[..] + GUID))
  {
    hide Compress, Words, Base64, Padded, Digested, OctetsOf, Flat, FirstBlock, Held;
    var bOutput := new word[5][0x67452301, 0xefcdab89, 0x98badcfe, 0x10325476, 0xc3d2e1f0];
    HeldIs(bOutput[..]);
    assert Held(bOutput[..]) == INITIAL;
    HashFirst(input, bOutput);
    HashLast(bOutput);
    var bytes := new byte[20];
    WriteHash(bOutput, bytes);
    HashOf(input[..], bOutput[..]);
    Base64Encode(bytes, output);
  }

  /** The block of the key and the first part of the identifier. */
  method HashFirst(input: array<byte>, bOutput: array<word>)
    requires input.Length == 24 && bOutput.Length == 5
    modifies bOutput
    ensures Held(bOutput[..]) == Compress(Words(FirstBlock(input[..])), old(Held(bOutput[..])))
  {
    hide Compress, Words, FirstBlock, Held;
    var bInput := new word[16][
      0, 0, 0, 0, 0, 0, 0x32353845, 0x41464135, 0x2d453931, 0x342d3437, 0x44412d39,
      0x3543412d, 0x43354142, 0x30444338, 0x35423131, 0x80000000];
    FirstTail(bInput[..]);
    ReadKey(input, bInput);
    FirstWords(input[..], bInput[..]);
    Sha1Block(bOutput, bInput);
  }

  /** The block that holds the length. */
  method HashLast(bOutput: array<word>)
    requires bOutput.Length == 5
    modifies bOutput
    ensures Held(bOutput[..]) == Compress(Words(LAST_BLOCK), old(Held(bOutput[..])))
  {
    hide Compress, Words, Held;
    var lastB := new word[16][0, 0, 0, 0, 0, 0, 0, 0, 0, 0, 0, 0, 0, 0, 0, 480];
    LastWords(lastB[..]);
    Sha1Block(bOutput, lastB);
  }

  lemma FirstTail(b: seq<word>)
    requires b == [0, 0, 0, 0, 0, 0, 0x32353845, 0x41464135, 0x2d453931, 0x342d3437, 0x44412d39,
                   0x3543412d, 0x43354142, 0x30444338, 0x35423131, 0x80000000]
    ensures b[6..] == [0x32353845, 0x41464135, 0x2d453931, 0x342d3437, 0x44412d39, 0x3543412d, 0x43354142, 0x30444338,
                       0x35423131, 0x80000000]
  {
  }

  lemma HashOf(key: seq<byte>, hash: seq<word>)
    requires |key| == 24 && |hash| == 5
    requires Held(hash) == Compress(Words(LAST_BLOCK), Compress(Words(FirstBlock(key)), INITIAL))
    ensures Flat(hash) == Sha1Of(key + GUID)
  {
    hide Compress, Words, Padded, Digested, OctetsOf, Flat, FirstBlock;
    PaddedIsTwoBlocks(key);
    TwoBlocks(FirstBlock(key), LAST_BLOCK, INITIAL);
    assert hash == [hash[0], hash[1], hash[2], hash[3], hash[4]];
  }
}
