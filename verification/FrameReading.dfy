/**
 A reader of frames written from section 5.2 of RFC 6455 and nothing else: octets are numbers here, and the flags,
 the opcode, the length and the key are where the section puts them.
 */
module FrameReading {
  import opened Bytes
  import opened Frames
  import opened FrameFormat

  // ---- Octets as numbers ----

  /** Octets read one after the other as a number, the most significant first. */
  function Number(s: seq<byte>, sofar: nat := 0): (n: nat)
    decreases |s|
  {
    if s == [] then sofar else Number(s[1..], 256 * sofar + s[0] as nat)
  }

  lemma {:induction false} NumberSnoc(s: seq<byte>, b: byte, sofar: nat)
    ensures Number(s + [b], sofar) == 256 * Number(s, sofar) + b as nat
    decreases |s|
  {
    if s == [] {
      assert [b][1..] == [] && [] + [b] == [b];
    } else {
      assert (s + [b])[1..] == s[1..] + [b];
      NumberSnoc(s[1..], b, 256 * sofar + s[0] as nat);
    }
  }

  lemma {:induction false} NumberIs(s: seq<byte>)
    ensures Number(s) == FromNetwork(s)
    decreases |s|
  {
    hide Value;
    if s != [] {
      var n := |s| - 1;
      NumberIs(s[..n]);
      ValueIs(s[n]);
      NumberSnoc(s[..n], s[n], 0);
      assert s == s[..n] + [s[n]];
    }
  }

  // ---- Frames ----

  datatype WireFrame = WireFrame(fin: bool, rsv: nat, opcode: nat, masked: bool, payload: seq<byte>)

  datatype Reading = Short | Got(frame: WireFrame, rest: seq<byte>)

  /** Octets of extended length after the second octet. */
  function Extension(b1: nat): (n: nat)
    ensures n == 0 || n == 2 || n == 8
  {
    if b1 % 128 < 126 then 0 else if b1 % 128 == 126 then 2 else 8
  }

  /** The payload length that the head announces. */
  function Announced(s: seq<byte>): (n: nat)
    requires |s| >= 2 && |s| >= 2 + Extension(s[1] as nat)
  {
    var ext := Extension(s[1] as nat);
    if ext == 0 then s[1] as nat % 128 else Number(s[2..2 + ext])
  }

  /** Octet i is combined with octet i mod 4 of the key (section 5.3). */
  function Unmasked(key: seq<byte>, s: seq<byte>): (r: seq<byte>)
    requires |key| == 4
    ensures |r| == |s|
  {
    seq(|s|, i requires 0 <= i < |s| => s[i] ^ key[i % 4])
  }

  function ReadFrame(s: seq<byte>): (r: Reading)
    ensures r.Got? ==> |r.rest| < |s|
  {
    if |s| < 2 then Short
    else
      var b0, b1 := s[0] as nat, s[1] as nat;
      var masked := b1 >= 128;
      var at := 2 + Extension(b1) + if masked then 4 else 0;
      if |s| < at || |s| < at + Announced(s) then Short
      else
        var end := at + Announced(s);
        var payload := if masked then Unmasked(s[at - 4..at], s[at..end]) else s[at..end];
        Got(WireFrame(b0 >= 128, b0 / 16 % 8, b0 % 16, masked, payload), s[end..])
  }

  /** All frames that are there, and what is left. */
  function ReadFrames(s: seq<byte>): (r: (seq<WireFrame>, seq<byte>))
    decreases |s|
  {
    match ReadFrame(s)
    case Short => ([], s)
    case Got(frame, rest) => var more := ReadFrames(rest); ([frame] + more.0, more.1)
  }

  // ---- What the server's bit operations mean in numbers ----

  lemma FlagsMean(b: byte)
    ensures IsFin(b) <==> b as nat >= 128
    ensures Rsv1(b) || Rsv23(b) <==> b as nat / 16 % 8 != 0
    ensures OpCodeOf(b) == b as nat % 16
  {
    ValueIs(b);
    ValueIs(b & 15);
  }

  lemma Length7Means(b: byte)
    ensures Length7(b) == b as nat % 128
  {
    ValueIs(b);
    ValueIs(b & 127);
  }

  // ---- Frames that the program writes are read back ----

  const UINT64_SIZE: nat := 0x1_0000_0000_0000_0000

  lemma EightOctets()
    ensures Pow256(2) == 0x1_0000 && Pow256(8) == UINT64_SIZE
  {
    assert Pow256(4) == 256 * Pow256(3) == 256 * 256 * Pow256(2);
    assert Pow256(8) == 256 * Pow256(7) == 256 * 256 * Pow256(6);
    assert Pow256(6) == 256 * Pow256(5) == 256 * 256 * Pow256(4);
    assert Pow256(2) == 256 * Pow256(1) == 256 * 256 * Pow256(0);
  }

  lemma FirstMeans(fin: bool, op: OpCode)
    requires 0 <= op < 16
    ensures var b := FirstOctet(fin, op) as nat; (b >= 128 <==> fin) && b / 16 % 8 == 0 && b % 16 == op
  {
    hide FirstOctet, IsFin, OpCodeOf, Rsv1, Rsv23;
    FirstOctetReadsBack(fin, op);
    FlagsMean(FirstOctet(fin, op));
  }

  lemma MaskedMeans(n: nat)
    requires n < 128
    ensures Masked(Octet(n)) as nat == 128 + n && Octet(n) as nat == n
  {
    hide Octet, Length7;
    OctetIs(n);
    MaskedReadsBack(n);
    Length7Means(Masked(Octet(n)));
    MaskedIsLarge(Octet(n));
  }

  lemma MaskedIsLarge(b: byte)
    ensures Masked(b) as nat >= 128
  {
  }

  /** A long length: `first` says how many octets of it follow. */
  lemma LongReadsBack(b0: byte, b1: byte, l: seq<byte>, more: seq<byte>)
    requires (b1 as nat % 128 == 126 && |l| == 2) || (b1 as nat % 128 == 127 && |l| == 8)
    ensures var s := [b0, b1] + l + more;
            Extension(s[1] as nat) == |l| && Announced(s) == FromNetwork(l)
  {
    hide FromNetwork, Number;
    NumberIs(l);
    var s := [b0, b1] + l + more;
    assert s[2..2 + |l|] == l;
  }

  /** The seven length bits of LengthOctets. */
  function Bits7(n: nat): (r: nat)
    ensures r < 128
  {
    if n < 126 then n else if n <= UINT16_MAX then 126 else 127
  }

  lemma FirstLength(n: nat, masked: bool)
    requires n < UINT64_SIZE
    ensures var l := LengthOctets(n);
            (if masked then Masked(l[0]) else l[0]) as nat == Bits7(n) + if masked then 128 else 0
  {
    hide Octet, ToNetwork, Masked;
    LiteralOctets();
    MaskedMeans(Bits7(n));
  }

  /** What the seven bits and the mask bit say. */
  lemma BitsSay(b1: nat, n: nat, masked: bool)
    requires b1 == Bits7(n) + if masked then 128 else 0
    ensures (b1 >= 128 <==> masked) && b1 % 128 == Bits7(n) && (b1 % 128 <= 125 <==> n <= 125)
  {
  }

  /** The octets of extended length. */
  lemma ExtendedLength(n: nat, width: nat)
    requires 126 <= n < UINT64_SIZE && width == if n <= UINT16_MAX then 2 else 8
    ensures LengthOctets(n)[1..] == ToNetwork(n, width) && FromNetwork(ToNetwork(n, width)) == n
  {
    hide ToNetwork, FromNetwork, Pow256;
    EightOctets();
    NetworkRoundTrip(n, width);
    assert LengthOctets(n)[1..] == ToNetwork(n, width);
  }

  /** The length octets announce the length, whether the mask bit is set in the first of them or not. */
  lemma LengthReadsBack(b0: byte, b1: byte, n: nat, masked: bool, more: seq<byte>)
    requires n < UINT64_SIZE && b1 as nat == Bits7(n) + if masked then 128 else 0
    ensures var l := LengthOctets(n);
            var s := [b0, b1] + l[1..] + more;
            && (b1 as nat >= 128 <==> masked) && Extension(b1 as nat) == |l| - 1 && Announced(s) == n
            && (b1 as nat % 128 <= 125 <==> n <= 125)
  {
    hide Octet, ToNetwork, FromNetwork, Announced, Pow256;
    BitsSay(b1 as nat, n, masked);
    if n < 126 {
      ShortReadsBack(b0, b1, more);
      assert LengthOctets(n)[1..] == [];
    } else {
      var width := if n <= UINT16_MAX then 2 else 8;
      ExtendedLength(n, width);
      LongReadsBack(b0, b1, ToNetwork(n, width), more);
    }
  }

  lemma ShortReadsBack(b0: byte, b1: byte, more: seq<byte>)
    requires b1 as nat % 128 < 126
    ensures Extension(b1 as nat) == 0 && Announced([b0, b1] + [] + more) == b1 as nat % 128
  {
  }

  /** What the head at the beginning of `s` says: `size` octets of head, and a payload of `n`. */
  predicate Says(s: seq<byte>, fin: bool, op: int, masked: bool, size: nat, n: nat) {
    && |s| >= 2 && (s[0] as nat >= 128 <==> fin) && s[0] as nat / 16 % 8 == 0 && s[0] as nat % 16 == op
    && (s[1] as nat >= 128 <==> masked) && size == 2 + Extension(s[1] as nat) + (if masked then 4 else 0)
    && |s| >= size + n && Announced(s) == n
  }

  /** A frame whose head has been understood. */
  lemma ReadAsSaid(s: seq<byte>, fin: bool, op: nat, masked: bool, size: nat, n: nat)
    requires Says(s, fin, op, masked, size, n)
    ensures (masked ==> size >= 4) && |s| >= size + n
    ensures ReadFrame(s)
         == Got(WireFrame(fin, 0, op, masked, if masked then Unmasked(s[size - 4..size], s[size..size + n])
                                              else s[size..size + n]), s[size + n..])
  {
    hide Extension, Announced, Unmasked;
  }

  /** A head that is written says what it is to say, whatever follows. */
  lemma HeadSays(fin: bool, op: OpCode, n: nat, masked: bool, key: seq<byte>, more: seq<byte>)
    requires 0 <= op < 16 && n < UINT64_SIZE && |more| >= n && |key| == if masked then 4 else 0
    ensures var l := LengthOctets(n);
            var s := [FirstOctet(fin, op), if masked then Masked(l[0]) else l[0]] + l[1..] + (key + more);
            Says(s, fin, op, masked, 1 + |l| + |key|, n)
  {
    hide FirstOctet, LengthOctets, Announced, Masked, Extension;
    var l := LengthOctets(n);
    var b0, b1 := FirstOctet(fin, op), if masked then Masked(l[0]) else l[0];
    FirstMeans(fin, op);
    FirstLength(n, masked);
    LengthReadsBack(b0, b1, n, masked, key + more);
    var s := [b0, b1] + l[1..] + (key + more);
    assert s[0] == b0 && s[1] == b1 && |s| == 1 + |l| + |key| + |more|;
  }

  /** Head, key and payload, one after the other. */
  lemma PartsOf(head: seq<byte>, key: seq<byte>, body: seq<byte>, rest: seq<byte>)
    ensures var s, size := head + (key + (body + rest)), |head| + |key|;
            s[|head|..size] == key && s[size..size + |body|] == body && s[size + |body|..] == rest
  {
  }

  /**
   A frame of the server, whatever follows it, is read as a final frame without reserved bits and without a mask, with
   its opcode and its payload, in all three classes of length.
   */
  lemma ServerFrameReadsBack(op: OpCode, payload: seq<byte>, rest: seq<byte>)
    requires 0 <= op < 16 && |payload| < UINT64_SIZE
    ensures ReadFrame(ServerWire(op, payload) + rest) == Got(WireFrame(true, 0, op, false, payload), rest)
  {
    hide FirstOctet, LengthOctets, ReadFrame, Says;
    var l, n := LengthOctets(|payload|), |payload|;
    var head := [FirstOctet(true, op), l[0]] + l[1..];
    HeadSays(true, op, n, false, [], payload + rest);
    PartsOf(head, [], payload, rest);
    var s := head + ([] + (payload + rest));
    assert s == ServerWire(op, payload) + rest;
    ReadAsSaid(s, true, op, false, 1 + |l|, n);
  }

  lemma UnmaskedMask(key: seq<byte>, s: seq<byte>)
    requires |key| == 4
    ensures Unmasked(key, Unmask(key, s)) == s && Unmasked(key, s) == Unmask(key, s)
  {
    forall i: nat | i < |s| ensures Unmasked(key, s)[i] == Unmask(key, s)[i]
                                    && Unmasked(key, Unmask(key, s))[i] == s[i]
    {
      UnmaskAt(key, s, i);
      XorTwice(s[i], key[i % 4]);
    }
  }

  /** A frame of a client is read with its flag, its opcode, the mask bit set, and its payload unmasked. */
  lemma ClientFrameReadsBack(f: Frame, rest: seq<byte>)
    requires WellFormed(f)
    ensures ReadFrame(Wire(f) + rest) == Got(WireFrame(f.fin, 0, f.op, true, f.payload), rest)
  {
    hide FirstOctet, LengthOctets, Masked, Unmask, Unmasked, ReadFrame, Says, Pow256;
    EightOctets();
    var n := |f.payload|;
    var l, sent := LengthOctets(n), Unmask(f.key, f.payload);
    var head := [FirstOctet(f.fin, f.op), Masked(l[0])] + l[1..];
    HeadSays(f.fin, f.op, n, true, f.key, sent + rest);
    PartsOf(head, f.key, sent, rest);
    var s := head + (f.key + (sent + rest));
    assert s == Wire(f) + rest;
    ReadAsSaid(s, f.fin, f.op, true, 5 + |l|, n);
    UnmaskedMask(f.key, f.payload);
  }

  /** Frames that follow one another are read one after the other. */
  lemma {:induction false} ReadConcat(a: seq<byte>, b: seq<byte>)
    requires ReadFrames(a).1 == []
    ensures ReadFrames(a + b) == (ReadFrames(a).0 + ReadFrames(b).0, ReadFrames(b).1)
    decreases |a|
  {
    hide ReadFrame;
    if a == [] {
      assert a + b == b && [] + ReadFrames(b).0 == ReadFrames(b).0;
      NothingToRead();
    } else {
      var r := ReadFrame(a);
      ReadFurther(a, b);
      ReadConcat(r.rest, b);
      assert [r.frame] + (ReadFrames(r.rest).0 + ReadFrames(b).0) == ReadFrames(a).0 + ReadFrames(b).0;
    }
  }

  lemma NothingToRead()
    ensures ReadFrame([]) == Short
  {
  }

  lemma SameSlice(a: seq<byte>, b: seq<byte>, i: nat, j: nat)
    requires i <= j <= |a|
    ensures (a + b)[i..j] == a[i..j] && (a + b)[j..] == a[j..] + b
  {
  }

  lemma AnnouncedFurther(a: seq<byte>, b: seq<byte>)
    requires |a| >= 2 && |a| >= 2 + Extension(a[1] as nat)
    ensures (a + b)[1] == a[1] && Announced(a + b) == Announced(a)
  {
    hide Number;
    SameSlice(a, b, 2, 2 + Extension(a[1] as nat));
  }

  /** What follows a frame does not change how it is read. */
  lemma ReadFurther(a: seq<byte>, b: seq<byte>)
    requires ReadFrame(a).Got?
    ensures ReadFrame(a + b) == ReadFrame(a).(rest := ReadFrame(a).rest + b)
  {
    hide Announced, Extension, Unmasked;
    var at := 2 + Extension(a[1] as nat) + if a[1] as nat >= 128 then 4 else 0;
    AnnouncedFurther(a, b);
    SameSlice(a, b, at, at + Announced(a));
    if at >= 4 {
      SameSlice(a, b, at - 4, at);
    }
  }
}
