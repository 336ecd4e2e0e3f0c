/** Octets, masking keys and network byte order, shared by the protocol modules. */
module Bytes {

  type byte = bv8

  function Xor(a: byte, b: byte): byte { a ^ b }

  /** The masking key as the next octet sees it. */
  function Turn(key: seq<byte>): (r: seq<byte>)
    requires |key| == 4
    ensures |r| == 4
  {
    [key[1], key[2], key[3], key[0]]
  }

  /** The masking key as the octet `n` places further on sees it. */
  function Rotate(key: seq<byte>, n: nat): (r: seq<byte>)
    requires |key| == 4
    ensures |r| == 4
    decreases n
  {
    if n == 0 then key else Rotate(Turn(key), n - 1)
  }

  /** Removes (or applies) a mask one octet at a time, turning the key as it goes. */
  function Unmask(key: seq<byte>, s: seq<byte>): (r: seq<byte>)
    requires |key| == 4
    ensures |r| == |s|
    decreases |s|
  {
    if s == [] then [] else [Xor(s[0], key[0])] + Unmask(Turn(key), s[1..])
  }

  /** Section 5.3 of RFC 6455: octet i of the result is octet i of `s` XOR octet i mod 4 of the key. */
  lemma {:induction false} UnmaskAt(key: seq<byte>, s: seq<byte>, i: nat)
    requires |key| == 4 && i < |s|
    ensures Unmask(key, s)[i] == Xor(s[i], key[i % 4])
    decreases i
  {
    if i > 0 {
      UnmaskAt(Turn(key), s[1..], i - 1);
      TurnAt(key, i - 1);
    }
  }

  lemma TurnAt(key: seq<byte>, i: nat)
    requires |key| == 4
    ensures Turn(key)[i % 4] == key[(i + 1) % 4]
  {
  }

  lemma {:induction false} UnmaskConcat(key: seq<byte>, a: seq<byte>, b: seq<byte>)
    requires |key| == 4
    ensures Unmask(key, a + b) == Unmask(key, a) + Unmask(Rotate(key, |a|), b)
    decreases |a|
  {
    if a == [] {
      assert a + b == b;
    } else {
      assert (a + b)[0] == a[0] && (a + b)[1..] == a[1..] + b;
      UnmaskConcat(Turn(key), a[1..], b);
    }
  }

  lemma {:induction false} RotateTwice(key: seq<byte>, m: nat, n: nat)
    requires |key| == 4
    ensures Rotate(Rotate(key, m), n) == Rotate(key, m + n)
    decreases m
  {
    if m > 0 {
      RotateTwice(Turn(key), m - 1, n);
    }
  }

  /** A rotation by four is none, so only the remainder counts. */
  lemma {:induction false} RotateByRemainder(key: seq<byte>, n: nat)
    requires |key| == 4
    ensures Rotate(key, n) == Rotate(key, n % 4)
  {
    if n >= 4 {
      FullTurn(key);
      RotateTwice(key, 4, n - 4);
      RotateByRemainder(key, n - 4);
    }
  }

  lemma FullTurn(key: seq<byte>)
    requires |key| == 4
    ensures Rotate(key, 1) == [key[1], key[2], key[3], key[0]]
    ensures Rotate(key, 2) == [key[2], key[3], key[0], key[1]]
    ensures Rotate(key, 3) == [key[3], key[0], key[1], key[2]]
    ensures Rotate(key, 4) == key
  {
    var k1 := Turn(key);
    var k2 := Turn(k1);
    var k3 := Turn(k2);
    assert Turn(k3) == key;
    assert Rotate(key, 1) == Rotate(k1, 0);
    assert Rotate(key, 2) == Rotate(k1, 1) == Rotate(k2, 0);
    assert Rotate(key, 3) == Rotate(k1, 2) == Rotate(k2, 1) == Rotate(k3, 0);
    assert Rotate(key, 4) == Rotate(k1, 3) == Rotate(k2, 2) == Rotate(k3, 1) == Rotate(key, 0);
  }

  lemma UnmaskPrefix(key: seq<byte>, s: seq<byte>, n: nat)
    requires |key| == 4 && n <= |s|
    ensures Unmask(key, s)[..n] == Unmask(key, s[..n])
  {
    assert s[..n] + s[n..] == s;
    UnmaskConcat(key, s[..n], s[n..]);
  }

  lemma {:induction false} UnmaskSnoc(key: seq<byte>, s: seq<byte>, b: byte)
    requires |key| == 4
    ensures Unmask(key, s + [b]) == Unmask(key, s) + [Xor(b, key[|s| % 4])]
    decreases |s|
  {
    hide Xor, Turn;
    if s == [] {
      UnmaskOne(key, b);
    } else {
      assert (s + [b])[0] == s[0] && (s + [b])[1..] == s[1..] + [b];
      UnmaskSnoc(Turn(key), s[1..], b);
      TurnAt(key, |s| - 1);
    }
  }

  lemma UnmaskOne(key: seq<byte>, b: byte)
    requires |key| == 4
    ensures Unmask(key, [] + [b]) == Unmask(key, []) + [Xor(b, key[0])]
  {
    hide Xor;
    assert [] + [b] == [b];
    assert [b][1..] == [];
  }

  lemma UnmaskFour(key: seq<byte>, q: seq<byte>)
    requires |key| == 4 && |q| == 4
    ensures Unmask(key, q) == [Xor(q[0], key[0]), Xor(q[1], key[1]), Xor(q[2], key[2]), Xor(q[3], key[3])]
  {
    hide Xor;
    var k1 := Turn(key);
    var k2 := Turn(k1);
    var k3 := Turn(k2);
    assert Unmask(k3, q[3..]) == [Xor(q[3], key[3])];
    assert Unmask(k2, q[2..]) == [Xor(q[2], key[2])] + Unmask(k3, q[3..]) by { assert q[2..][1..] == q[3..]; }
    assert Unmask(k1, q[1..]) == [Xor(q[1], key[1])] + Unmask(k2, q[2..]) by { assert q[1..][1..] == q[2..]; }
  }

  /** The step of the unrolled loops: after whole quads the key is back in its first position. */
  lemma UnmaskQuad(key: seq<byte>, s: seq<byte>, q: seq<byte>)
    requires |key| == 4 && |s| % 4 == 0 && |q| == 4
    ensures Unmask(key, s + q)
         == Unmask(key, s) + [Xor(q[0], key[0]), Xor(q[1], key[1]), Xor(q[2], key[2]), Xor(q[3], key[3])]
  {
    hide Xor, Unmask;
    RotateByRemainder(key, |s|);
    assert Rotate(key, 0) == key;
    UnmaskConcat(key, s, q);
    UnmaskFour(key, q);
  }

  /** Masking is its own inverse, so the server's unmasking undoes the client's masking. */
  lemma {:induction false} UnmaskTwice(key: seq<byte>, s: seq<byte>)
    requires |key| == 4
    ensures Unmask(key, Unmask(key, s)) == s
    decreases |s|
  {
    if s != [] {
      UnmaskTwice(Turn(key), s[1..]);
      XorTwice(s[0], key[0]);
      assert Unmask(key, s)[1..] == Unmask(Turn(key), s[1..]);
    }
  }

  lemma XorTwice(a: byte, b: byte)
    ensures Xor(Xor(a, b), b) == a
  {
  }

  /** The value of four bits, most significant first. */
  function Weigh(b3: bool, b2: bool, b1: bool, b0: bool): (n: nat)
    ensures n < 16
  {
    (if b3 then 8 else 0) + (if b2 then 4 else 0) + (if b1 then 2 else 0) + (if b0 then 1 else 0)
  }

  /** The unsigned value of an octet. */
  function Value(b: byte): (n: nat)
    ensures n < 256
  {
    16 * Weigh(b & 128 != 0, b & 64 != 0, b & 32 != 0, b & 16 != 0)
    + Weigh(b & 8 != 0, b & 4 != 0, b & 2 != 0, b & 1 != 0)
  }

  /** The octet with the given bits, most significant first. */
  function FromBits(b7: bool, b6: bool, b5: bool, b4: bool, b3: bool, b2: bool, b1: bool, b0: bool): (b: byte)
    ensures (b & 128 != 0 <==> b7) && (b & 64 != 0 <==> b6) && (b & 32 != 0 <==> b5) && (b & 16 != 0 <==> b4)
    ensures (b & 8 != 0 <==> b3) && (b & 4 != 0 <==> b2) && (b & 2 != 0 <==> b1) && (b & 1 != 0 <==> b0)
  {
    (if b7 then 128 else 0) | (if b6 then 64 else 0) | (if b5 then 32 else 0) | (if b4 then 16 else 0)
    | (if b3 then 8 else 0) | (if b2 then 4 else 0) | (if b1 then 2 else 0) | (if b0 then 1 else 0)
  }

  /** The octet of a given unsigned value. */
  function Octet(n: nat): (b: byte)
    requires n < 256
  {
    var h, l := n / 16, n % 16;
    FromBits(h >= 8, h % 8 >= 4, h % 4 >= 2, h % 2 >= 1, l >= 8, l % 8 >= 4, l % 4 >= 2, l % 2 >= 1)
  }

  lemma WeighBits(n: nat)
    requires n < 16
    ensures Weigh(n >= 8, n % 8 >= 4, n % 4 >= 2, n % 2 >= 1) == n
  {
  }

  lemma ValueOfBits(b7: bool, b6: bool, b5: bool, b4: bool, b3: bool, b2: bool, b1: bool, b0: bool)
    ensures Value(FromBits(b7, b6, b5, b4, b3, b2, b1, b0)) == 16 * Weigh(b7, b6, b5, b4) + Weigh(b3, b2, b1, b0)
  {
    hide FromBits, Weigh;
  }

  lemma ValueOfOctet(n: nat)
    requires n < 256
    ensures Value(Octet(n)) == n
  {
    hide FromBits, Value, Weigh;
    var h, l := n / 16, n % 16;
    ValueOfBits(h >= 8, h % 8 >= 4, h % 4 >= 2, h % 2 >= 1, l >= 8, l % 8 >= 4, l % 4 >= 2, l % 2 >= 1);
    WeighBits(h);
    WeighBits(l);
  }

  /** The numbers that these are. */
  lemma ValueIs(b: byte)
    ensures Value(b) == b as nat
  {
    hide FromBits;
  }

  lemma OctetIs(n: nat)
    requires n < 256
    ensures Octet(n) as nat == n
  {
    hide Value, Octet;
    ValueOfOctet(n);
    ValueIs(Octet(n));
  }

  /** Octets as numbers. */
  function Numbers(s: seq<byte>): (r: seq<nat>)
    ensures |r| == |s|
  {
    seq(|s|, i requires 0 <= i < |s| => s[i] as nat)
  }

  /** The value of `s` read as an unsigned integer in network byte order. */
  function FromNetwork(s: seq<byte>): (n: nat)
  {
    if s == [] then 0 else FromNetwork(s[..|s| - 1]) * 256 + Value(s[|s| - 1])
  }

  /** The `width` lowest octets of `n`, most significant first. */
  function ToNetwork(n: nat, width: nat): (s: seq<byte>)
    ensures |s| == width
  {
    if width == 0 then [] else ToNetwork(n / 256, width - 1) + [Octet(n % 256)]
  }

  function Pow256(width: nat): (p: nat)
    ensures p >= 1
  {
    if width == 0 then 1 else 256 * Pow256(width - 1)
  }

  lemma {:induction false} NetworkRoundTrip(n: nat, width: nat)
    requires n < Pow256(width)
    ensures FromNetwork(ToNetwork(n, width)) == n
  {
    if width > 0 {
      NetworkRoundTrip(n / 256, width - 1);
      ValueOfOctet(n % 256);
      FromNetworkSnoc(ToNetwork(n / 256, width - 1), Octet(n % 256));
    }
  }

  lemma FromNetworkSnoc(s: seq<byte>, b: byte)
    ensures FromNetwork(s + [b]) == FromNetwork(s) * 256 + Value(b)
  {
    assert (s + [b])[..|s|] == s;
  }

  /** The stream that has been cut into chunks. */
  function Flatten(chunks: seq<seq<byte>>): seq<byte> {
    if chunks == [] then [] else chunks[0] + Flatten(chunks[1..])
  }

  lemma {:induction false} FlattenSnoc(chunks: seq<seq<byte>>, chunk: seq<byte>)
    ensures Flatten(chunks + [chunk]) == Flatten(chunks) + chunk
  {
    if chunks == [] {
      assert [chunk][1..] == [] && [] + [chunk] == [chunk];
    } else {
      assert (chunks + [chunk])[1..] == chunks[1..] + [chunk];
      FlattenSnoc(chunks[1..], chunk);
      assert chunks[0] + (Flatten(chunks[1..]) + chunk) == chunks[0] + Flatten(chunks[1..]) + chunk;
    }
  }
}
