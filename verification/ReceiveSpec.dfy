/**
 The reference receiver: an automaton that takes one octet at a time. It has no spill buffer, keeps
 data and control payloads apart, and turns the masking key by one place for every payload octet.
 */
module ReceiveSpec {
  import opened Bytes
  import opened Utf8
  import opened Frames

  const ERR_TOO_BIG_MESSAGE := "Received too big message"
  const ERR_INVALID_TEXT := "Received invalid UTF-8"

  /** What the application sees: its message, ping, pong and close handlers being called. */
  datatype Event =
    | Message(op: OpCode, payload: seq<byte>)
    | Ping(payload: seq<byte>)                  // answered with a pong of the same payload
    | Pong
    | Drained                                   // backpressure went down (the drain handler)
    | Closed(code: nat, reason: seq<byte>)      // the WebSocket was ended: close frame sent
    | Aborted(why: string)                      // the socket was closed under it: reported as 1006

  /** What a handler may do to its socket before it returns. */
  datatype Reaction = CarryOn | CloseSocket | EndWith(code: nat, reason: seq<byte>)

  /** The handlers see every event so far, so they may depend on the whole history. */
  datatype Context = Context(maxPayloadLength: nat, handler: seq<Event> -> Reaction)

  datatype Phase = Head(bytes: seq<byte>) | Payload(key: seq<byte>, remaining: nat)

  datatype Receiver =
    | Gone(log: seq<Event>)
    | Live(phase: Phase, ops: seq<OpCode>, lastFin: bool, data: seq<byte>, control: seq<byte>, log: seq<Event>)

  const FRESH := Live(Head([]), [], true, [], [], [])

  predicate IsControl(op: OpCode) { op >= 3 }

  predicate PartialHead(h: seq<byte>) {
    |h| < 6 || (!RefusedHead(h[0], h[1]) && |h| < HeadSize(h[1]))
  }

  predicate KnownOp(op: OpCode) { op == TEXT || op == BINARY || op == CLOSE || op == PING || op == PONG }

  /** The stack holds at most a message and what interrupts it, and only a message is interrupted. */
  predicate ValidOps(ops: seq<OpCode>) {
    && |ops| <= 2
    && (|ops| >= 1 ==> KnownOp(ops[0]))
    && (|ops| == 2 ==> KnownOp(ops[1]) && !IsControl(ops[0]))
  }

  /** What every reachable receiver satisfies. */
  predicate Valid(ctx: Context, st: Receiver) {
    st.Live? ==>
      && ValidOps(st.ops)
      && |st.data| <= ctx.maxPayloadLength
      && match st.phase
         case Head(h) =>
           PartialHead(h) && st.control == [] && (st.ops != [] ==> !IsControl(Top(st.ops)))
         case Payload(key, remaining) =>
           && |key| == 4 && 0 < remaining <= ctx.maxPayloadLength && st.ops != []
           && (if IsControl(Top(st.ops)) then st.lastFin else st.control == [])
  }

  lemma FreshIsValid(ctx: Context)
    ensures Valid(ctx, FRESH)
  {
  }

  function Top(ops: seq<OpCode>): OpCode
    requires ops != []
  {
    ops[|ops| - 1]
  }

  function Pop(ops: seq<OpCode>): seq<OpCode>
    requires ops != []
  {
    ops[..|ops| - 1]
  }

  function Abort(st: Receiver, why: string): Receiver {
    Gone(st.log + [Aborted(why)])
  }

  datatype Outcome = Outcome(gone: bool, log: seq<Event>)

  /** Reports `e` to its handler and obeys the handler's reaction. */
  function Report(ctx: Context, before: seq<Event>, e: Event): (o: Outcome)
  {
    var log := before + [e];
    match ctx.handler(log)
    case CarryOn => Outcome(false, log)
    case CloseSocket => Outcome(true, log + [Aborted("")])
    case EndWith(code, reason) => Outcome(true, log + [Closed(code, reason)])
  }

  function Emit(ctx: Context, st: Receiver, e: Event): Receiver
    requires st.Live?
  {
    var o := Report(ctx, st.log, e);
    if o.gone then Gone(o.log) else st.(log := o.log)
  }

  /** Takes a piece of unmasked payload into the message it belongs to. */
  function Absorb(ctx: Context, st: Receiver, piece: seq<byte>): (r: Receiver)
    requires st.Live? && st.ops != []
    ensures r.Live? ==> r == st.(data := r.data, control := r.control)
  {
    if IsControl(Top(st.ops)) then st.(control := st.control + piece)
    else if |st.data| + |piece| > ctx.maxPayloadLength then Abort(st, ERR_TOO_BIG_MESSAGE)
    else st.(data := st.data + piece)
  }

  /** Hands over what the end of a frame completes: a control payload, or a message when the frame is final. */
  function Deliver(ctx: Context, st: Receiver): (r: Receiver)
    requires st.Live? && st.ops != []
    ensures r.Live? ==> r == st.(data := r.data, control := r.control, log := r.log)
  {
    var op := Top(st.ops);
    if !IsControl(op) then
      if !st.lastFin then st
      else if op == TEXT && !ValidUtf8(st.data) then Abort(st, ERR_INVALID_TEXT)
      else
        var r := Emit(ctx, st, Message(op, st.data));
        if r.Live? then r.(data := []) else r
    else if op == CLOSE then
      var f := ParsedClose(st.control);
      Gone(st.log + [Closed(f.code, f.reason)])
    else
      var r := if op == PING then Emit(ctx, st, Ping(st.control)) else Emit(ctx, st, Pong);
      if r.Live? then r.(control := []) else r
  }

  /** A frame has been delivered: back to heads, and out of the message (or the interruption) if it was final. */
  function Popped(st: Receiver): (r: Receiver)
    requires st.Live? && st.ops != []
    ensures r.Live?
  {
    st.(phase := Head([]), ops := if st.lastFin then Pop(st.ops) else st.ops)
  }

  /** The end of a frame. */
  function Finish(ctx: Context, st: Receiver): Receiver
    requires st.Live? && st.ops != []
  {
    var r := Deliver(ctx, st);
    if r.Gone? then r else Popped(r)
  }

  /** The opcode stack after the head of a frame, empty when the frame may not start here. */
  function Pushed(ops: seq<OpCode>, lastFin: bool, op: OpCode): seq<OpCode>
  {
    if op == CONTINUATION then ops
    else if |ops| == 2 || (!lastFin && op < 2) then []
    else ops + [op]
  }

  /** A frame starts: its opcode, its final flag and its length are known. */
  function Opened(ctx: Context, st: Receiver, op: OpCode, fin: bool, length: nat): (r: Receiver)
    requires st.Live?
    ensures r.Live? ==> r == st.(ops := r.ops, lastFin := fin) && r.ops != [] && length <= ctx.maxPayloadLength
  {
    var ops := Pushed(st.ops, st.lastFin, op);
    if ops == [] then Abort(st, "")
    else if length > ctx.maxPayloadLength then Abort(st, ERR_TOO_BIG_MESSAGE)
    else st.(ops := ops, lastFin := fin)
  }

  /** A whole, unrefused head has arrived. */
  function Begin(ctx: Context, st: Receiver, h: seq<byte>): Receiver
    requires st.Live? && WholeHead(h)
  {
    var r := Opened(ctx, st, OpCodeOf(h[0]), IsFin(h[0]), PayloadLength(h));
    if r.Gone? then r
    else if PayloadLength(h) == 0 then Finish(ctx, r)
    else r.(phase := Payload(MaskingKey(h), PayloadLength(h)))
  }

  function StepHead(ctx: Context, st: Receiver, h: seq<byte>): Receiver
    requires st.Live? && 0 < |h|
    requires |h| >= 6 && !RefusedHead(h[0], h[1]) ==> |h| <= HeadSize(h[1])
  {
    if |h| >= 6 && RefusedHead(h[0], h[1]) then Abort(st, "")
    else if |h| < 6 || |h| < HeadSize(h[1]) then st.(phase := Head(h))
    else Begin(ctx, st, h)
  }

  function StepPayload(ctx: Context, st: Receiver, b: byte): Receiver
    requires st.Live? && st.phase.Payload? && |st.phase.key| == 4 && st.phase.remaining > 0 && st.ops != []
  {
    var a := Absorb(ctx, st, Unmask(st.phase.key, [b]));
    if a.Gone? then a
    else if st.phase.remaining == 1 then Finish(ctx, a)
    else a.(phase := Payload(Turn(st.phase.key), st.phase.remaining - 1))
  }

  /** A frame whose payload is complete, in a receiver otherwise as `Valid` asks. */
  predicate AtFrameEnd(ctx: Context, st: Receiver) {
    st.Live? ==>
      && ValidOps(st.ops) && st.ops != [] && |st.data| <= ctx.maxPayloadLength
      && (if IsControl(Top(st.ops)) then st.lastFin else st.control == [])
  }

  lemma FinishKeepsValid(ctx: Context, st: Receiver)
    requires st.Live? && AtFrameEnd(ctx, st)
    ensures Valid(ctx, Finish(ctx, st))
  {
  }

  lemma OpenedIsFrame(ctx: Context, st: Receiver, h: seq<byte>)
    requires Valid(ctx, st) && st.Live? && st.phase.Head?
    requires WholeHead(h) && !RefusedHead(h[0], h[1])
    ensures AtFrameEnd(ctx, Opened(ctx, st, OpCodeOf(h[0]), IsFin(h[0]), PayloadLength(h)))
  {
    hide PayloadLength;
    var op := OpCodeOf(h[0]);
    assert op == CONTINUATION || KnownOp(op);
    assert IsControl(op) ==> IsFin(h[0]);
  }

  lemma BeginKeepsValid(ctx: Context, st: Receiver, h: seq<byte>)
    requires Valid(ctx, st) && st.Live? && st.phase.Head?
    requires WholeHead(h) && !RefusedHead(h[0], h[1])
    ensures Valid(ctx, Begin(ctx, st, h))
  {
    hide Finish, PayloadLength, Opened, RefusedHead;
    OpenedIsFrame(ctx, st, h);
    var r := Opened(ctx, st, OpCodeOf(h[0]), IsFin(h[0]), PayloadLength(h));
    if r.Live? {
      FinishKeepsValid(ctx, r);
    }
  }

  lemma StepHeadKeepsValid(ctx: Context, st: Receiver, h: seq<byte>)
    requires Valid(ctx, st) && st.Live? && st.phase.Head? && 0 < |h|
    requires |h| >= 6 && !RefusedHead(h[0], h[1]) ==> |h| <= HeadSize(h[1])
    ensures Valid(ctx, StepHead(ctx, st, h))
  {
    hide Begin, RefusedHead;
    if |h| >= 6 && !RefusedHead(h[0], h[1]) && |h| == HeadSize(h[1]) {
      BeginKeepsValid(ctx, st, h);
    }
  }

  lemma AbsorbKeepsFrame(ctx: Context, st: Receiver, piece: seq<byte>)
    requires st.Live? && AtFrameEnd(ctx, st)
    ensures AtFrameEnd(ctx, Absorb(ctx, st, piece))
  {
  }

  lemma StepPayloadKeepsValid(ctx: Context, st: Receiver, b: byte)
    requires Valid(ctx, st) && st.Live? && st.phase.Payload?
    ensures Valid(ctx, StepPayload(ctx, st, b))
  {
    hide Finish, Absorb, Unmask;
    var piece := Unmask(st.phase.key, [b]);
    AbsorbKeepsFrame(ctx, st, piece);
    var a := Absorb(ctx, st, piece);
    if a.Live? {
      FinishKeepsValid(ctx, a);
    }
  }

  lemma LongerHead(h: seq<byte>, b: byte)
    requires PartialHead(h)
    ensures |h + [b]| >= 6 && !RefusedHead((h + [b])[0], (h + [b])[1]) ==> |h + [b]| <= HeadSize((h + [b])[1])
  {
    hide RefusedHead;
  }

  function Step(ctx: Context, st: Receiver, b: byte): (r: Receiver)
    requires Valid(ctx, st)
    ensures Valid(ctx, r)
  {
    if st.Gone? then st
    else if st.phase.Head? then
      LongerHead(st.phase.bytes, b);
      StepHeadKeepsValid(ctx, st, st.phase.bytes + [b]);
      StepHead(ctx, st, st.phase.bytes + [b])
    else
      StepPayloadKeepsValid(ctx, st, b);
      StepPayload(ctx, st, b)
  }

  /** The reference receiver over a whole stream. */
  function Run(ctx: Context, st: Receiver, s: seq<byte>): (r: Receiver)
    requires Valid(ctx, st)
    ensures Valid(ctx, r)
    decreases |s|
  {
    if s == [] then st else Run(ctx, Step(ctx, st, s[0]), s[1..])
  }
}
