/**
 What the server makes of any octets whatsoever, told frame by frame and in numbers: an account of its own beside the
 automaton, from which the meaning of close frames and of offending frames can be read off.
 */
module ReceiveMeaning {
  import opened Bytes
  import opened Utf8
  import opened Frames
  import opened FrameFormat
  import opened FrameReading
  import opened ReceiveSpec
  import opened ReceiveLemmas
  import opened WebSocketReceive
  import RoundTrip

  // ---- The account ----

  /** A handler is called and reacts: it may close the socket, or end the WebSocket with a code and a reason. */
  function Called(ctx: Context, log: seq<Event>, e: Event): (o: Outcome) {
    match ctx.handler(log + [e])
    case CarryOn => Outcome(false, log + [e])
    case CloseSocket => Outcome(true, log + [e, Aborted("")])
    case EndWith(code, reason) => Outcome(true, log + [e, Closed(code, reason)])
  }

  /** Section 7.4 of RFC 6455, and what the server makes of it: the codes a client may close with. */
  predicate MayClose(code: nat) {
    1000 <= code <= 1003 || 1007 <= code <= 1011 || 4000 <= code <= 4999
  }

  /** The code of a close frame, the greater octet first. */
  function Code(a: byte, b: byte): (code: nat) { 256 * a as nat + b as nat }

  /** What a close payload is reported as. */
  function Closing(payload: seq<byte>): (e: Event) {
    if |payload| < 2 then Closed(1005, [])
    else
      var code := Code(payload[0], payload[1]);
      if MayClose(code) && ValidUtf8(payload[2..]) then Closed(code, payload[2..]) else Closed(1006, [])
  }

  /** A head refused at sight: reserved bits, an unknown opcode, a control frame in parts or of more than 125 octets. */
  predicate Offends(b0: nat, b1: nat) {
    || b0 / 16 % 8 != 0 || 3 <= b0 % 16 <= 7 || b0 % 16 >= 11
    || (b0 % 16 >= 8 && (b0 < 128 || b1 % 128 > 125))
  }

  /**
   The messages that are open, outermost first; whether the frame before had the final flag; and what has come of the
   message in progress.
   */
  datatype Progress = Progress(open: seq<OpCode>, lastFin: bool, data: seq<byte>)

  const NOTHING := Progress([], true, [])

  /** A frame that may not stand here: it continues nothing, or starts a text right after a part of a message. */
  predicate Misplaced(p: Progress, opcode: nat) {
    if opcode == 0 then p.open == [] else |p.open| == 2 || (opcode == 1 && !p.lastFin)
  }

  datatype Course = Course(outcome: Outcome, next: Progress)

  /** What a whole frame leads to. */
  function Whole(ctx: Context, log: seq<Event>, p: Progress, fin: bool, opcode: nat, payload: seq<byte>): (c: Course)
    requires !Misplaced(p, opcode)
  {
    if opcode >= 8 then
      Course(if opcode == 8 then Outcome(true, log + [Closing(payload)])
             else if opcode == 9 then Called(ctx, log, Ping(payload))
             else Called(ctx, log, Pong), p.(lastFin := fin))
    else
      var open := if opcode == 0 then p.open else p.open + [opcode];
      var data := p.data + payload;
      if |data| > ctx.maxPayloadLength then
        Course(Outcome(true, log + [Aborted("Received too big message")]), p)
      else if !fin then Course(Outcome(false, log), Progress(open, false, data))
      else if open[|open| - 1] == 1 && !ValidUtf8(data) then
        Course(Outcome(true, log + [Aborted("Received invalid UTF-8")]), p)
      else
        Course(Called(ctx, log, Message(open[|open| - 1], data)), Progress(open[..|open| - 1], true, []))
  }

  /** What any octets lead to; the server takes every frame for a masked one. */
  function Told(ctx: Context, log: seq<Event>, p: Progress, s: seq<byte>): (o: Outcome)
    decreases |s|
  {
    if |s| < 6 then Outcome(false, log)
    else
      var b0, b1 := s[0] as nat, s[1] as nat;
      var at := 6 + Extension(b1);
      if Offends(b0, b1) then Outcome(true, log + [Aborted("")])
      else if |s| < at then Outcome(false, log)
      else if Misplaced(p, b0 % 16) then Outcome(true, log + [Aborted("")])
      else if Announced(s) > ctx.maxPayloadLength then Outcome(true, log + [Aborted("Received too big message")])
      else if |s| < at + Announced(s) then
        if b0 % 16 < 8 && |p.data| + |s| - at > ctx.maxPayloadLength
        then Outcome(true, log + [Aborted("Received too big message")]) else Outcome(false, log)
      else
        var payload := Unmasked(s[at - 4..at], s[at..at + Announced(s)]);
        var c := Whole(ctx, log, p, b0 >= 128, b0 % 16, payload);
        if c.outcome.gone then c.outcome else Told(ctx, c.outcome.log, c.next, s[at + Announced(s)..])
  }

  // ---- The account is true ----

  lemma CalledIsReport(ctx: Context, log: seq<Event>, e: Event)
    ensures Called(ctx, log, e) == Report(ctx, log, e)
  {
    match ctx.handler(log + [e])
    case CarryOn =>
    case CloseSocket => assert log + [e] + [Aborted("")] == log + [e, Aborted("")];
    case EndWith(code, reason) => assert log + [e] + [Closed(code, reason)] == log + [e, Closed(code, reason)];
  }

  lemma ClosingIsParsed(payload: seq<byte>)
    ensures Closing(payload) == Closed(ParsedClose(payload).code, ParsedClose(payload).reason)
  {
    hide ValidUtf8, FromNetwork, AcceptedCode, MayClose, Code;
    if |payload| >= 2 {
      CodeIsNumber(payload);
      SameCodes(FromNetwork(payload[..2]));
    }
  }

  lemma SameCodes(code: nat)
    ensures AcceptedCode(code) <==> MayClose(code)
  {
  }

  lemma CodeIsNumber(payload: seq<byte>)
    requires |payload| >= 2
    ensures FromNetwork(payload[..2]) == Code(payload[0], payload[1])
  {
    hide FromNetwork, Value;
    CodeValue(payload);
    ValueIs(payload[0]);
    ValueIs(payload[1]);
  }

  lemma HeadMeans(b0: byte, b1: byte)
    ensures RefusedHead(b0, b1) <==> Offends(b0 as nat, b1 as nat)
    ensures HeadSize(b1) == 6 + Extension(b1 as nat)
  {
    hide OpCodeOf, IsFin, Rsv1, Rsv23, Length7;
    FlagsMean(b0);
    Length7Means(b1);
  }

  lemma WholeHeadMeans(s: seq<byte>)
    requires |s| >= 6 && |s| >= 6 + Extension(s[1] as nat)
    ensures var at := 6 + Extension(s[1] as nat);
            var h := s[..at];
            && WholeHead(h) && PayloadLength(h) == Announced(s) && MaskingKey(h) == s[at - 4..at]
            && OpCodeOf(h[0]) == s[0] as nat % 16 && (IsFin(h[0]) <==> s[0] as nat >= 128)
  {
    hide OpCodeOf, IsFin, Rsv1, Rsv23, Length7, RefusedHead, FromNetwork, Number;
    HeadMeans(s[0], s[1]);
    FlagsMean(s[0]);
    Length7Means(s[1]);
    var ext := Extension(s[1] as nat);
    NumberIs(s[2..2 + ext]);
    assert s[..6 + ext][2..2 + ext] == s[2..2 + ext];
  }

  /** A receiver between frames in which exactly `p` has been achieved. */
  predicate Between(ctx: Context, st: Receiver, p: Progress) {
    ReceiveSpec.Valid(ctx, st) && st.Live? && st == Live(Head([]), p.open, p.lastFin, p.data, [], st.log)
  }

  /** A receiver in which a frame has been opened. */
  function InFrame(st: Receiver, p: Progress, fin: bool, opcode: nat): (o: Receiver)
    requires st.Live?
    ensures o.Live?
  {
    st.(ops := if opcode == 0 then p.open else p.open + [opcode], lastFin := fin)
  }

  lemma OpenedMeans(ctx: Context, st: Receiver, p: Progress, fin: bool, opcode: nat, n: nat)
    requires Between(ctx, st, p)
    ensures Opened(ctx, st, opcode, fin, n)
         == if Misplaced(p, opcode) then Gone(st.log + [Aborted("")])
            else if n > ctx.maxPayloadLength then Gone(st.log + [Aborted("Received too big message")])
            else InFrame(st, p, fin, opcode)
  {
    hide PartialHead;
  }

  lemma WholeMeans(ctx: Context, st: Receiver, p: Progress, fin: bool, opcode: nat, payload: seq<byte>)
    requires Between(ctx, st, p) && !Misplaced(p, opcode) && (opcode <= 2 || (8 <= opcode <= 10 && fin))
    ensures InFrame(st, p, fin, opcode).ops != []
    ensures var r := AfterFragment(ctx, InFrame(st, p, fin, opcode), payload, 0);
            var c := Whole(ctx, st.log, p, fin, opcode, payload);
            if c.outcome.gone then r == Gone(c.outcome.log)
            else r.Live? && r.ops != []
                 && Popped(r) == Live(Head([]), c.next.open, c.next.lastFin, c.next.data, [], c.outcome.log)
  {
    hide ValidUtf8, Report, Called, AfterFragment, ParsedClose, Closing, PartialHead;
    var o := InFrame(st, p, fin, opcode);
    if opcode >= 8 {
      WebSocketData.ControlFragmentCases(ctx, o, payload, 0);
      assert [] + payload == payload;
      ClosingIsParsed(payload);
      CalledIsReport(ctx, st.log, if opcode == 9 then Ping(payload) else Pong);
    } else {
      WebSocketData.DataFragmentCases(ctx, o, payload, 0);
      CalledIsReport(ctx, st.log, Message(Top(o.ops), p.data + payload));
    }
  }

  lemma PartMeans(ctx: Context, st: Receiver, p: Progress, fin: bool, opcode: nat, payload: seq<byte>, remaining: nat)
    requires Between(ctx, st, p) && !Misplaced(p, opcode) && (opcode <= 2 || 8 <= opcode <= 10) && remaining > 0
    ensures InFrame(st, p, fin, opcode).ops != []
    ensures var r := AfterFragment(ctx, InFrame(st, p, fin, opcode), payload, remaining);
            if opcode < 8 && |p.data| + |payload| > ctx.maxPayloadLength
            then r == Gone(st.log + [Aborted("Received too big message")])
            else r.Live? && r.log == st.log
  {
    hide AfterFragment, PartialHead;
    var o := InFrame(st, p, fin, opcode);
    if opcode >= 8 {
      WebSocketData.ControlFragmentCases(ctx, o, payload, remaining);
    } else {
      WebSocketData.DataFragmentCases(ctx, o, payload, remaining);
    }
  }

  /** Octets in which the head of a frame, or the refusal of one, is still to come. */
  lemma TellsHead(ctx: Context, st: Receiver, p: Progress, s: seq<byte>)
    requires Between(ctx, st, p)
    requires |s| < 6 || Offends(s[0] as nat, s[1] as nat) || |s| < 6 + Extension(s[1] as nat)
    ensures var (r, o) := (Run(ctx, st, s), Told(ctx, st.log, p, s)); r.log == o.log && (r.Gone? <==> o.gone)
  {
    hide ReceiveSpec.Valid, RefusedHead, Offends, HeadSize, Extension, Misplaced, Announced, Whole, Unmasked, Run;
    if |s| >= 6 {
      HeadMeans(s[0], s[1]);
    }
    assert [] + s == s;
    if |s| >= 6 && Offends(s[0] as nat, s[1] as nat) {
      RunRefusedHead(ctx, st, s);
    } else {
      RunPartialHead(ctx, st, [], s);
    }
  }

  /** A whole head is there, and it is not refused at sight. */
  predicate HeadThere(s: seq<byte>) {
    |s| >= 6 && |s| >= 6 + Extension(s[1] as nat) && !Offends(s[0] as nat, s[1] as nat)
  }

  /** A frame that may not stand where it does, or is too long. */
  lemma TellsRefused(ctx: Context, st: Receiver, p: Progress, s: seq<byte>)
    requires Between(ctx, st, p) && HeadThere(s)
    requires Misplaced(p, s[0] as nat % 16) || Announced(s) > ctx.maxPayloadLength
    ensures Run(ctx, st, s)
         == Gone(st.log + [Aborted(if Misplaced(p, s[0] as nat % 16) then "" else "Received too big message")])
  {
    hide ReceiveSpec.Valid, RefusedHead, HeadSize, Extension, Misplaced, Announced, Run, Opened, Offends,
         PayloadLength, MaskingKey, WholeHead, OpCodeOf, IsFin, Begin, InFrame;
    var b0, at := s[0] as nat, 6 + Extension(s[1] as nat);
    HeadMeans(s[0], s[1]);
    WholeHeadMeans(s);
    RunWholeHead(ctx, st, s);
    var h := s[..at];
    OpenedMeans(ctx, st, p, b0 >= 128, b0 % 16, Announced(s));
    RoundTrip.BeginRefused(ctx, st, h);
    RunGone(ctx, Begin(ctx, st, h), s[at..]);
  }

  /** A frame of which only a part is there. */
  lemma TellsPart(ctx: Context, st: Receiver, p: Progress, s: seq<byte>)
    requires Between(ctx, st, p) && HeadThere(s)
    requires !Misplaced(p, s[0] as nat % 16) && |s| - 6 - Extension(s[1] as nat) < Announced(s) <= ctx.maxPayloadLength
    ensures var (r, o) := (Run(ctx, st, s), Told(ctx, st.log, p, s)); r.log == o.log && (r.Gone? <==> o.gone)
  {
    hide ReceiveSpec.Valid, RefusedHead, HeadSize, Extension, Misplaced, Announced, Whole, Unmasked, Run, Opened,
         Unmask, AfterFragment, PayloadLength, MaskingKey, WholeHead, OpCodeOf, IsFin, Begin, InFrame;
    var b0, at := s[0] as nat, 6 + Extension(s[1] as nat);
    HeadMeans(s[0], s[1]);
    WholeHeadMeans(s);
    RunWholeHead(ctx, st, s);
    var h := s[..at];
    OpenedMeans(ctx, st, p, b0 >= 128, b0 % 16, Announced(s));
    RunPartFrame(ctx, st, h, s[at..]);
    PartMeans(ctx, st, p, b0 >= 128, b0 % 16, Unmask(MaskingKey(h), s[at..]), Announced(s) - |s[at..]|);
  }

  /** A whole frame that may stand where it does. */
  lemma TellsWhole(ctx: Context, st: Receiver, p: Progress, s: seq<byte>)
    requires Between(ctx, st, p) && HeadThere(s)
    requires !Misplaced(p, s[0] as nat % 16) && Announced(s) <= ctx.maxPayloadLength
    requires |s| >= 6 + Extension(s[1] as nat) + Announced(s)
    ensures var b0, at := s[0] as nat, 6 + Extension(s[1] as nat);
            var payload, rest := Unmasked(s[at - 4..at], s[at..at + Announced(s)]), s[at + Announced(s)..];
            var c := Whole(ctx, st.log, p, b0 >= 128, b0 % 16, payload);
            if c.outcome.gone then Run(ctx, st, s) == Gone(c.outcome.log)
            else
              var next := Live(Head([]), c.next.open, c.next.lastFin, c.next.data, [], c.outcome.log);
              Between(ctx, next, c.next) && Run(ctx, st, s) == Run(ctx, next, rest)
  {
    hide ReceiveSpec.Valid, RefusedHead, HeadSize, Extension, Misplaced, Announced, Whole, Unmasked, Run, Opened,
         Unmask, AfterFragment, PayloadLength, MaskingKey, WholeHead, OpCodeOf, IsFin, Begin, InFrame, Popped;
    var b0, at, n := s[0] as nat, 6 + Extension(s[1] as nat), Announced(s);
    HeadMeans(s[0], s[1]);
    WholeHeadMeans(s);
    RunWholeHead(ctx, st, s);
    var h := s[..at];
    OpenedMeans(ctx, st, p, b0 >= 128, b0 % 16, n);
    WholeMeans(ctx, st, p, b0 >= 128, b0 % 16, Unmasked(s[at - 4..at], s[at..at + n]));
    RunWholeFrame(ctx, st, h, s[at..]);
    assert s[at..][..n] == s[at..at + n] && s[at..][n..] == s[at + n..];
    UnmaskedMask(s[at - 4..at], s[at..at + n]);
  }

  /** The account is true of a receiver between frames, whatever octets come. */
  lemma {:induction false} Tells(ctx: Context, st: Receiver, p: Progress, s: seq<byte>)
    requires Between(ctx, st, p)
    ensures var (r, o) := (Run(ctx, st, s), Told(ctx, st.log, p, s)); r.log == o.log && (r.Gone? <==> o.gone)
    decreases |s|
  {
    hide ReceiveSpec.Valid, Offends, Extension, Misplaced, Announced, Whole, Unmasked, Run;
    if |s| < 6 || Offends(s[0] as nat, s[1] as nat) || |s| < 6 + Extension(s[1] as nat) {
      TellsHead(ctx, st, p, s);
    } else if Misplaced(p, s[0] as nat % 16) || Announced(s) > ctx.maxPayloadLength {
      TellsRefused(ctx, st, p, s);
    } else if |s| < 6 + Extension(s[1] as nat) + Announced(s) {
      TellsPart(ctx, st, p, s);
    } else {
      TellsWhole(ctx, st, p, s);
      var b0, at := s[0] as nat, 6 + Extension(s[1] as nat);
      var payload, rest := Unmasked(s[at - 4..at], s[at..at + Announced(s)]), s[at + Announced(s)..];
      var c := Whole(ctx, st.log, p, b0 >= 128, b0 % 16, payload);
      if !c.outcome.gone {
        var next := Live(Head([]), c.next.open, c.next.lastFin, c.next.data, [], c.outcome.log);
        Tells(ctx, next, c.next, rest);
      }
    }
  }

  lemma FreshIsBetween(ctx: Context)
    ensures Between(ctx, FRESH, NOTHING)
  {
  }

  /** A whole connection: whatever a client sends, in whatever chunks, the handlers see what the account tells. */
  method ReceiveTold(ctx: Context, chunks: seq<seq<byte>>) returns (ws: WebSocketData)
    ensures var o := Told(ctx, [], NOTHING, Flatten(chunks)); ws.log == o.log && (ws.Open() <==> !o.gone)
  {
    hide ReceiveSpec.Valid, Told, Run;
    ws := Receive(ctx, chunks);
    FreshIsBetween(ctx);
    Tells(ctx, FRESH, NOTHING, Flatten(chunks));
    RoundTrip.LogOf(ws);
  }

  /** The same of the automaton fed chunk by chunk. */
  lemma ChunksTold(ctx: Context, chunks: seq<seq<byte>>)
    ensures ReceiveSpec.Valid(ctx, FRESH)
    ensures RunChunks(ctx, FRESH, chunks).log == Told(ctx, [], NOTHING, Flatten(chunks)).log
  {
    hide ReceiveSpec.Valid, Told, Run, RunChunks;
    FreshIsBetween(ctx);
    RunChunksIsRun(ctx, FRESH, chunks);
    Tells(ctx, FRESH, NOTHING, Flatten(chunks));
  }

  // ---- Close frames ----

  /** A close frame as section 5.5 of RFC 6455 has it, and nothing else: one short frame with its mask bit set. */
  predicate ClosesWith(s: seq<byte>, payload: seq<byte>) {
    ReadFrame(s) == Got(WireFrame(true, 0, 8, true, payload), []) && s[1] as nat % 128 <= 125
  }

  lemma CloseTold(ctx: Context, s: seq<byte>, payload: seq<byte>)
    requires ClosesWith(s, payload)
    ensures Told(ctx, [], NOTHING, s)
         == Outcome(true, [if |payload| > ctx.maxPayloadLength then Aborted("Received too big message")
                           else Closing(payload)])
  {
    hide Closing, Unmasked;
  }

  /**
   A close frame of any client, in any chunks, is reported as its code and its reason if and only if the code is one
   of those listed and the reason is UTF-8; as 1006 otherwise; and as 1005 if there is no code.
   */
  method CloseArrives(ctx: Context, chunks: seq<seq<byte>>, payload: seq<byte>) returns (ws: WebSocketData)
    requires ClosesWith(Flatten(chunks), payload)
    ensures |payload| > ctx.maxPayloadLength ==> ws.log == [Aborted("Received too big message")]
    ensures |payload| <= ctx.maxPayloadLength && |payload| < 2 ==> ws.log == [Closed(1005, [])]
    ensures |payload| <= ctx.maxPayloadLength && |payload| >= 2 ==>
              var code, reason := 256 * payload[0] as nat + payload[1] as nat, payload[2..];
              ws.log == [if ValidUtf8(reason) && (1000 <= code <= 1003 || 1007 <= code <= 1011 || 4000 <= code <= 4999)
                         then Closed(code, reason) else Closed(1006, [])]
    ensures !ws.Open()
  {
    hide Told, ClosesWith, ValidUtf8;
    ws := ReceiveTold(ctx, chunks);
    CloseTold(ctx, Flatten(chunks), payload);
  }

  lemma WireIsShort(f: Frame)
    requires WellFormed(f) && |f.payload| <= 125
    ensures Wire(f)[1] as nat % 128 <= 125
  {
    hide FirstOctet, Masked, LengthOctets, Unmask, Pow256;
    var l := LengthOctets(|f.payload|);
    FirstLength(|f.payload|, true);
    BitsSay(Masked(l[0]) as nat, |f.payload|, true);
    assert Wire(f)[1] == Masked(l[0]);
  }

  lemma CodeOctets(code: nat)
    requires code < 0x1_0000
    ensures 256 * Octet(code / 256) as nat + Octet(code % 256) as nat == code
  {
    hide Octet;
    OctetIs(code / 256);
    OctetIs(code % 256);
  }

  /** Every code and every reason of at most 123 octets can be sent so. */
  lemma CloseCanBeSent(code: nat, reason: seq<byte>, key: seq<byte>)
    requires code < 0x1_0000 && |reason| <= 123 && |key| == 4
    ensures var payload := [Octet(code / 256), Octet(code % 256)] + reason;
            && WellFormed(Frame(true, CLOSE, key, payload))
            && ClosesWith(Wire(Frame(true, CLOSE, key, payload)), payload)
            && 256 * payload[0] as nat + payload[1] as nat == code && payload[2..] == reason
  {
    hide Octet, Pow256, Wire, ReadFrame;
    var payload := [Octet(code / 256), Octet(code % 256)] + reason;
    CodeOctets(code);
    EightOctets();
    var f := Frame(true, CLOSE, key, payload);
    ClientFrameReadsBack(f, []);
    assert Wire(f) + [] == Wire(f);
    WireIsShort(f);
  }

  // ---- Messages inside messages ----

  /**
   A frame that starts a message while another is open should be refused (section 5.4 of RFC 6455). The server refuses
   it if and only if two are open already, or it is a text right after a part of the open message.
   */
  lemma StartInside(ctx: Context, st: Receiver, p: Progress, s: seq<byte>)
    requires Between(ctx, st, p) && p.open != []
    requires HeadThere(s) && |s| == 6 + Extension(s[1] as nat) && 0 < Announced(s) <= ctx.maxPayloadLength
    requires s[0] as nat % 16 == 1 || s[0] as nat % 16 == 2
    ensures Run(ctx, st, s).Gone? <==> |p.open| == 2 || (s[0] as nat % 16 == 1 && !p.lastFin)
  {
    hide Run, Offends, Extension, Announced, PartialHead;
    if Misplaced(p, s[0] as nat % 16) {
      TellsRefused(ctx, st, p, s);
    } else {
      TellsPart(ctx, st, p, s);
    }
  }

  /** A masked frame of one octet, with a key of zeros. */
  function OneOctet(b0: byte, x: byte): seq<byte> { [b0, 0x81, 0, 0, 0, 0, x] }

  lemma OneOctetTold(ctx: Context, log: seq<Event>, p: Progress, b0: byte, x: byte, rest: seq<byte>)
    requires ctx.maxPayloadLength >= 1 && !Offends(b0 as nat, 0x81) && !Misplaced(p, b0 as nat % 16)
    ensures var c := Whole(ctx, log, p, b0 as nat >= 128, b0 as nat % 16, [x]);
            Told(ctx, log, p, OneOctet(b0, x) + rest)
            == if c.outcome.gone then c.outcome else Told(ctx, c.outcome.log, c.next, rest)
  {
    hide Whole, Offends, Misplaced, Number, Unmasked;
    var s := OneOctet(b0, x) + rest;
    assert |s| >= 7 && s[0] == b0 && s[1] == 0x81 && Extension(0x81) == 0 && Announced(s) == 1;
    assert s[2..6] == [0, 0, 0, 0] && s[6..7] == [x] && s[7..] == rest;
    ZeroKey(x);
  }

  lemma ZeroKey(x: byte)
    ensures Unmasked([0, 0, 0, 0], [x]) == [x]
  {
  }

  /** A text in two parts with a whole binary message between them: the server takes it for a binary message of both. */
  lemma MixedUp(ctx: Context)
    requires ctx.maxPayloadLength >= 2 && forall log :: ctx.handler(log) == CarryOn
    ensures Told(ctx, [], NOTHING, OneOctet(0x01, 97) + OneOctet(0x82, 98)) == Outcome(false, [Message(2, [97, 98])])
  {
    hide ValidUtf8, OneOctet, Told;
    OneOctetTold(ctx, [], NOTHING, 0x01, 97, OneOctet(0x82, 98));
    var p := Progress([1], false, [97]);
    assert Whole(ctx, [], NOTHING, false, 1, [97]) == Course(Outcome(false, []), p);
    OneOctetTold(ctx, [], p, 0x82, 98, []);
    assert OneOctet(0x82, 98) + [] == OneOctet(0x82, 98);
    assert p.data + [98] == [97, 98] && (p.open + [2])[..1] == [1];
    var log := [Message(2, [97, 98])];
    assert [] + log == log && Called(ctx, [], log[0]) == Outcome(false, log);
    assert Whole(ctx, [], p, true, 2, [98]) == Course(Outcome(false, log), Progress([1], true, []));
    NothingTold(ctx, [Message(2, [97, 98])], Progress([1], true, []));
  }

  lemma NothingTold(ctx: Context, log: seq<Event>, p: Progress)
    ensures Told(ctx, log, p, []) == Outcome(false, log)
  {
  }
}
