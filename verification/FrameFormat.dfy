/** Writing frames and close payloads: the sending side of the wire format. */
module FrameFormat {
  import opened Bytes
  import opened Utf8
  import opened Frames
  import opened Unmasking

  const UINT16_MAX: nat := 0xFFFF

  function MessageFrameSize(messageSize: nat): (n: nat)
  {
    if messageSize < 126 then 2 + messageSize
    else if messageSize <= UINT16_MAX then 4 + messageSize
    else 10 + messageSize
  }

  /** The seven length bits and the extended length of a frame (section 5.2 of RFC 6455). */
  function LengthOctets(n: nat): (s: seq<byte>)
    ensures |s| == 1 || |s| == 3 || |s| == 9
  {
    if n < 126 then [Octet(n)]
    else if n <= UINT16_MAX then [126] + ToNetwork(n, 2)
    else [127] + ToNetwork(n, 8)
  }

  /** The first octet of a frame without extensions. */
  function FirstOctet(fin: bool, op: OpCode): (b: byte)
    requires 0 <= op < 16
  {
    (if fin then 128 else 0) | Octet(op)
  }

  function Masked(b: byte): byte { b | 128 }

  /** A frame as a client sends it. */
  datatype Frame = Frame(fin: bool, op: OpCode, key: seq<byte>, payload: seq<byte>)

  predicate WellFormed(f: Frame) {
    0 <= f.op < 16 && |f.key| == 4 && |f.payload| < Pow256(8)
  }

  function FrameHead(f: Frame): (h: seq<byte>)
    requires WellFormed(f)
  {
    var l := LengthOctets(|f.payload|);
    [FirstOctet(f.fin, f.op), Masked(l[0])] + l[1..] + f.key
  }

  /** The octets of a client frame: head, key, masked payload. */
  function Wire(f: Frame): (s: seq<byte>)
    requires WellFormed(f)
  {
    FrameHead(f) + Unmask(f.key, f.payload)
  }

  /** The octets of a server frame: no key, payload as it is. */
  function ServerWire(op: OpCode, payload: seq<byte>): (s: seq<byte>)
    requires 0 <= op < 16
  {
    [FirstOctet(true, op)] + LengthOctets(|payload|) + payload
  }

  lemma ServerWireSize(op: OpCode, payload: seq<byte>)
    requires 0 <= op < 16
    ensures |ServerWire(op, payload)| == MessageFrameSize(|payload|)
  {
  }

  // ---- Reading the head back ----

  lemma SmallOctet(n: nat)
    requires n < 256
    ensures n < 128 ==> Octet(n) & 128 == 0
    ensures n < 16 ==> Octet(n) & 64 == 0 && Octet(n) & 32 == 0 && Octet(n) & 16 == 0
  {
    hide Weigh;
  }

  lemma FlagBits(x: byte, fin: bool)
    requires x & 128 == 0 && x & 64 == 0 && x & 32 == 0 && x & 16 == 0
    ensures var b := (if fin then 128 else 0) | x;
            b & 15 == x && b & 64 == 0 && b & 48 == 0 && (b & 128 != 0 <==> fin)
  {
  }

  lemma FirstOctetReadsBack(fin: bool, op: OpCode)
    requires 0 <= op < 16
    ensures var b := FirstOctet(fin, op);
            IsFin(b) == fin && OpCodeOf(b) == op && !Rsv1(b) && !Rsv23(b)
  {
    hide Octet, Value;
    SmallOctet(op);
    FlagBits(Octet(op), fin);
    ValueOfOctet(op);
  }

  lemma MaskBit(x: byte)
    requires x & 128 == 0
    ensures (x | 128) & 127 == x
  {
  }

  lemma MaskedReadsBack(n: nat)
    requires n < 128
    ensures Length7(Masked(Octet(n))) == n
  {
    hide Octet, Value;
    SmallOctet(n);
    MaskBit(Octet(n));
    ValueOfOctet(n);
  }

  lemma LiteralOctets()
    ensures Octet(126) == 126 && Octet(127) == 127
  {
  }

  /** The parser reads back what FrameHead wrote. */
  lemma HeadReadsBack(f: Frame)
    requires WellFormed(f)
    ensures var h := FrameHead(f);
            && WholeHead(h) && PayloadLength(h) == |f.payload| && MaskingKey(h) == f.key
            && OpCodeOf(h[0]) == f.op && IsFin(h[0]) == f.fin && !Rsv1(h[0]) && !Rsv23(h[0])
            && (Length7(h[1]) <= 125 <==> |f.payload| <= 125)
  {
    hide Octet, Value, FromNetwork, ToNetwork, OpCodeOf, IsFin, Rsv1, Rsv23, FirstOctet, Length7, Masked;
    var h, n := FrameHead(f), |f.payload|;
    FirstOctetReadsBack(f.fin, f.op);
    LiteralOctets();
    if n < 126 {
      MaskedReadsBack(n);
    } else if n <= UINT16_MAX {
      MaskedReadsBack(126);
      TwoOctets();
      NetworkRoundTrip(n, 2);
      assert h[2..4] == ToNetwork(n, 2);
    } else {
      MaskedReadsBack(127);
      NetworkRoundTrip(n, 8);
      assert h[2..10] == ToNetwork(n, 8);
    }
    assert h[|h| - 4..] == f.key;
  }

  lemma TwoOctets()
    ensures Pow256(2) == 0x1_0000
  {
    assert Pow256(1) == 256 * Pow256(0);
  }

  // ---- formatMessage and formatClosePayload ----

  /** memcpy */
  method WriteOctets(dst: array<byte>, at: nat, s: seq<byte>)
    requires at + |s| <= dst.Length
    modifies dst
    ensures dst[..] == Patch(old(dst[..]), at, s)
  {
    hide Patch;
    ghost var was := dst[..];
    PatchNothing(was, at);
    assert s[..0] == [];
    for i := 0 to |s|
      invariant dst[..] == Patch(was, at, s[..i])
    {
      PatchMore(was, at, s[..i], s[i]);
      ghost var now := dst[..];
      dst[at + i] := s[i];
      assert dst[..] == now[at + i := s[i]];
      assert s[..i + 1] == s[..i] + [s[i]];
    }
    assert s[..|s|] == s;
  }

  /** Writes the length octets after the flags octet at `at`; returns the size of the header so far. */
  method WriteLength(dst: array<byte>, at: nat, n: nat) returns (headerLength: nat)
    requires n < Pow256(8) && at + 1 + |LengthOctets(n)| <= dst.Length
    modifies dst
    ensures headerLength == 1 + |LengthOctets(n)|
    ensures dst[..] == Patch(old(dst[..]), at + 1, LengthOctets(n))
  {
    hide Octet, ToNetwork;
    ghost var was := dst[..];
    if n < 126 {
      headerLength := 2;
      dst[at + 1] := Octet(n);
    } else if n <= UINT16_MAX {
      headerLength := 4;
      dst[at + 1] := 126;
      UpdateIsPatch(was, at + 1, 126);
      WriteOctets(dst, at + 2, ToNetwork(n, 2));
      PatchTwice(was, at + 1, [126], ToNetwork(n, 2));
    } else {
      headerLength := 10;
      dst[at + 1] := 127;
      UpdateIsPatch(was, at + 1, 127);
      WriteOctets(dst, at + 2, ToNetwork(n, 8));
      PatchTwice(was, at + 1, [127], ToNetwork(n, 8));
    }
  }

  lemma PatchFirst(s: seq<byte>, at: nat, b: byte, p: seq<byte>)
    requires at + 1 + |p| <= |s|
    ensures Patch(s, at + 1, p)[at := b] == Patch(s, at, [b] + p)
  {
  }

  lemma PatchSecond(s: seq<byte>, at: nat, b: byte, p: seq<byte>, x: byte)
    requires 1 <= |p| && at + 1 + |p| <= |s|
    ensures Patch(s, at, [b] + p)[at + 1 := x] == Patch(s, at, [b, x] + p[1..])
  {
  }

  lemma PatchOver(s: seq<byte>, at: nat, p: seq<byte>, q: seq<byte>, r: seq<byte>)
    requires |q| == |r| && at + |p| + |q| <= |s|
    ensures Patch(Patch(s, at, p + q), at + |p|, r) == Patch(s, at, p + r)
    ensures Patch(s, at, p + q)[at + |p|..at + |p| + |q|] == q
  {
  }

  /** Masks `n` octets where they lie, one at a time. */
  method MaskInPlace(dst: array<byte>, start: nat, n: nat, mask: seq<byte>)
    requires |mask| == 4 && start + n <= dst.Length
    modifies dst
    ensures dst[..] == Patch(old(dst[..]), start, Unmask(mask, old(dst[..])[start..start + n]))
  {
    hide Xor, Unmask, Patch;
    ghost var was := dst[..];
    NoQuads(mask, was, start, start);
    for i := 0 to n
      invariant dst[..] == Patch(was, start, Unmask(mask, was[start..start + i]))
    {
      OneMoreOctet(mask, was, start, i);
      ghost var now := dst[..];
      dst[start + i] := Xor(dst[start + i], mask[i % 4]);
      assert dst[..] == now[start + i := Xor(now[start + i], mask[i % 4])];
    }
  }

  /** The frame FormatMessage writes. */
  function Formatted(isServer: bool, op: OpCode, random: seq<byte>, src: seq<byte>): (s: seq<byte>)
    requires 0 <= op < 16 && |random| == 4 && |src| < Pow256(8)
  {
    if isServer then ServerWire(op, src) else Wire(Frame(true, op, random, src))
  }

  /** Marks a head as that of a masked frame, and puts the key behind it. */
  method AddMask(dst: array<byte>, at: nat, headerLength: nat, random: seq<byte>, ghost was: seq<byte>, ghost b: byte,
                 ghost l: seq<byte>)
    requires l != [] && headerLength == 1 + |l| && at + headerLength + |random| <= |was| == dst.Length
    requires dst[..] == Patch(was, at, [b] + l)
    modifies dst
    ensures dst[..] == Patch(was, at, [b, Masked(l[0])] + l[1..] + random)
  {
    hide Patch;
    PatchSecond(was, at, b, l, Masked(l[0]));
    PatchOver(was, at, [b], l, l);
    assert dst[at + 1] == dst[..][at + 1..at + 1 + |l|][0] == l[0];
    dst[at + 1] := Masked(dst[at + 1]);
    WriteOctets(dst, at + headerLength, random);
    PatchTwice(was, at, [b, Masked(l[0])] + l[1..], random);
  }

  /**
   Writes a final, uncompressed frame at `at`. A server sends it unmasked; a client masks it with four
   octets of randomness. The result is the number of octets written.
   */
  method FormatMessage(isServer: bool, dst: array<byte>, at: nat, src: seq<byte>, op: OpCode, random: seq<byte>)
    returns (written: nat)
    requires 0 <= op < 16 && |random| == 4 && |src| < Pow256(8)
    requires at + MessageFrameSize(|src|) + (if isServer then 0 else 4) <= dst.Length
    modifies dst
    ensures written == MessageFrameSize(|src|) + (if isServer then 0 else 4) == |Formatted(isServer, op, random, src)|
    ensures dst[..] == Patch(old(dst[..]), at, Formatted(isServer, op, random, src))
  {
    hide Octet, ToNetwork, Unmask, Patch, LengthOctets, Pow256;
    ghost var was, l, b := dst[..], LengthOctets(|src|), FirstOctet(true, op);
    LengthSize(|src|);
    var headerLength := WriteLength(dst, at, |src|);
    dst[at] := FirstOctet(true, op);
    PatchFirst(was, at, b, l);
    ghost var head := [b] + l;
    if !isServer {
      AddMask(dst, at, headerLength, random, was, b, l);
      head := [b, Masked(l[0])] + l[1..] + random;
      headerLength := headerLength + 4;
    }
    written := headerLength + |src|;
    WriteOctets(dst, at + headerLength, src);
    PatchTwice(was, at, head, src);
    if !isServer {
      MaskInPlace(dst, at + headerLength, |src|, random);
      PatchOver(was, at, head, src, Unmask(random, src));
    }
  }

  lemma LengthSize(n: nat)
    ensures 1 + |LengthOctets(n)| + n == MessageFrameSize(n)
  {
  }

  /** A code a close frame never carries. */
  predicate SilentCode(code: nat) { code == 0 || code == 1005 || code == 1006 }

  /** The close payload that formatClosePayload writes for `code` and `message`. */
  function ClosePayload(code: nat, message: seq<byte>): (s: seq<byte>)
  {
    if SilentCode(code) then [] else ToNetwork(code, 2) + message
  }

  method FormatClosePayload(dst: array<byte>, code: nat, message: seq<byte>) returns (written: nat)
    requires code < 0x1_0000 && |message| + 2 <= dst.Length
    modifies dst
    ensures written == |ClosePayload(code, message)|
    ensures dst[..] == Patch(old(dst[..]), 0, ClosePayload(code, message))
  {
    hide ToNetwork;
    if code != 0 && code != 1005 && code != 1006 {
      WriteOctets(dst, 0, ToNetwork(code, 2));
      PatchTwice(old(dst[..]), 0, ToNetwork(code, 2), message);
      WriteOctets(dst, 2, message);
      return |message| + 2;
    }
    return 0;
  }

  /**
   A close payload reads back as the code and reason it was written from exactly when the parser accepts the
   code and the reason is valid UTF-8, or when it is the empty payload of code 1005.
   */
  lemma ClosePayloadRoundTrip(code: nat, message: seq<byte>)
    requires code < 0x1_0000
    ensures ParsedClose(ClosePayload(code, message)) == CloseFrame(code, message)
       <==> (AcceptedCode(code) && ValidUtf8(message)) || (code == 1005 && message == [])
  {
    hide ToNetwork, FromNetwork, ValidUtf8;
    if !SilentCode(code) {
      TwoOctets();
      NetworkRoundTrip(code, 2);
      var p := ClosePayload(code, message);
      assert p[..2] == ToNetwork(code, 2) && p[2..] == message;
    }
  }
}
