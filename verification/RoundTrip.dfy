/** What a client writes is what the server's handlers see, however the bytes were cut up on the way. */
module RoundTrip {
  import opened Bytes
  import opened Utf8
  import opened Frames
  import opened FrameFormat
  import opened ReceiveSpec
  import opened ReceiveLemmas
  import opened WebSocketReceive

  /** A frame a conforming client may write, leaving aside where it may stand (sections 5.2 and 5.5 of RFC 6455). */
  predicate Sendable(f: Frame) {
    && WellFormed(f) && (f.op == CONTINUATION || KnownOp(f.op))
    && (IsControl(f.op) ==> f.fin && |f.payload| <= 125)
  }

  predicate AllSendable(frames: seq<Frame>)
    decreases |frames|
  {
    frames != [] ==> Sendable(frames[0]) && AllSendable(frames[1..])
  }

  function WireAll(frames: seq<Frame>): (s: seq<byte>)
    requires AllSendable(frames)
    decreases |frames|
  {
    if frames == [] then [] else Wire(frames[0]) + WireAll(frames[1..])
  }

  // ---- One frame ----

  /** The receiver after a whole frame. */
  function FrameStep(ctx: Context, st: Receiver, f: Frame): (r: Receiver)
    requires st.Live? ==> st.phase.Head?
    ensures r.Live? ==> r.phase.Head?
  {
    if st.Gone? then st
    else
      var o := Opened(ctx, st, f.op, f.fin, |f.payload|);
      if o.Gone? then o
      else
        var r := AfterFragment(ctx, o, f.payload, 0);
        if r.Gone? then r else Popped(r)
  }

  predicate BetweenFrames(ctx: Context, st: Receiver) {
    Valid(ctx, st) && (st.Live? ==> st.phase == Head([]))
  }

  lemma SendableIsNotRefused(f: Frame)
    requires Sendable(f)
    ensures !RefusedHead(FrameHead(f)[0], FrameHead(f)[1])
  {
    hide OpCodeOf, IsFin, Rsv1, Rsv23, Length7, FrameHead;
    HeadReadsBack(f);
  }

  /** A frame read from the wire is a frame step. */
  lemma RunFrame(ctx: Context, st: Receiver, f: Frame)
    requires BetweenFrames(ctx, st) && Sendable(f)
    ensures BetweenFrames(ctx, FrameStep(ctx, st, f)) && Run(ctx, st, Wire(f)) == FrameStep(ctx, st, f)
  {
    hide Valid, RefusedHead, OpCodeOf, IsFin, Rsv1, Rsv23, Length7, FrameHead, PayloadLength, MaskingKey, Unmask,
         AfterFragment, Opened, Begin, Run, KnownOp, Pow256;
    var s := Wire(f);
    if st.Gone? {
      RunGone(ctx, st, s);
    } else {
      HeadReadsBack(f);
      SendableIsNotRefused(f);
      var h, masked := FrameHead(f), Unmask(f.key, f.payload);
      assert s[..|h|] == h && s[|h|..] == masked && s[0] == h[0] && s[1] == h[1];
      RunWholeHead(ctx, st, s);
      var o := Opened(ctx, st, f.op, f.fin, |f.payload|);
      if o.Gone? {
        BeginRefused(ctx, st, h);
        RunGone(ctx, Begin(ctx, st, h), masked);
      } else {
        RunWholeFrame(ctx, st, h, masked);
        assert masked[..|f.payload|] == masked && masked[|f.payload|..] == [];
        UnmaskTwice(f.key, f.payload);
        var r := AfterFragment(ctx, o, f.payload, 0);
        if r.Live? {
          RunNothing(ctx, Popped(r));
        }
      }
    }
  }

  lemma BeginRefused(ctx: Context, st: Receiver, h: seq<byte>)
    requires st.Live? && WholeHead(h)
    requires Opened(ctx, st, OpCodeOf(h[0]), IsFin(h[0]), PayloadLength(h)).Gone?
    ensures Begin(ctx, st, h) == Opened(ctx, st, OpCodeOf(h[0]), IsFin(h[0]), PayloadLength(h))
  {
    hide Opened, PayloadLength;
  }

  lemma RunNothing(ctx: Context, st: Receiver)
    requires Valid(ctx, st)
    ensures Run(ctx, st, []) == st
  {
  }

  // ---- Any number of frames ----

  function FrameSteps(ctx: Context, st: Receiver, frames: seq<Frame>): (r: Receiver)
    requires st.Live? ==> st.phase.Head?
    decreases |frames|
  {
    if frames == [] then st else FrameSteps(ctx, FrameStep(ctx, st, frames[0]), frames[1..])
  }

  lemma {:induction false} RunFrames(ctx: Context, st: Receiver, frames: seq<Frame>)
    requires BetweenFrames(ctx, st) && AllSendable(frames)
    ensures Run(ctx, st, WireAll(frames)) == FrameSteps(ctx, st, frames)
    decreases |frames|
  {
    hide Valid, FrameStep, Run, Wire, WellFormed, KnownOp;
    if frames == [] {
      RunNothing(ctx, st);
    } else {
      RunFrame(ctx, st, frames[0]);
      RunConcat(ctx, st, Wire(frames[0]), WireAll(frames[1..]));
      RunFrames(ctx, FrameStep(ctx, st, frames[0]), frames[1..]);
    }
  }

  // ---- Messages (section 5.4 of RFC 6455) ----

  /** The message in progress: its opcode and what has come of it so far. */
  datatype Pending = Idle | InMessage(op: OpCode, data: seq<byte>)

  /** Where a frame may stand, and within which limits the server takes it. */
  predicate MayFollow(ctx: Context, cur: Pending, f: Frame) {
    && |f.payload| <= ctx.maxPayloadLength
    && (IsControl(f.op) || (cur.Idle? <==> f.op != CONTINUATION))
    && (!IsControl(f.op) ==>
          var m := Joined(cur, f);
          |m.data| <= ctx.maxPayloadLength && (f.fin && m.op == TEXT ==> ValidUtf8(m.data)))
  }

  /** The message in progress with a data frame added to it. */
  function Joined(cur: Pending, f: Frame): (p: Pending)
    ensures p.InMessage?
  {
    if cur.Idle? then InMessage(f.op, f.payload) else InMessage(cur.op, cur.data + f.payload)
  }

  function NextPending(cur: Pending, f: Frame): Pending {
    if IsControl(f.op) then cur else if f.fin then Idle else Joined(cur, f)
  }

  /** The events a frame leads to when it may stand where it does. */
  function Due(ctx: Context, log: seq<Event>, cur: Pending, f: Frame): Outcome {
    if IsControl(f.op) then WebSocketData.ControlOutcome(ctx, log, f.op, f.payload)
    else if f.fin then Report(ctx, log, Message(Joined(cur, f).op, Joined(cur, f).data))
    else Outcome(false, log)
  }

  predicate Conforming(ctx: Context, cur: Pending, frames: seq<Frame>)
    decreases |frames|
  {
    frames != [] ==>
      Sendable(frames[0]) && MayFollow(ctx, cur, frames[0]) && Conforming(ctx, NextPending(cur, frames[0]), frames[1..])
  }

  /** The handler calls a conforming stream of frames leads to, told message by message. */
  function Expected(ctx: Context, log: seq<Event>, cur: Pending, frames: seq<Frame>): (o: Outcome)
    decreases |frames|
  {
    if frames == [] then Outcome(false, log)
    else
      var o := Due(ctx, log, cur, frames[0]);
      if o.gone then o else Expected(ctx, o.log, NextPending(cur, frames[0]), frames[1..])
  }

  /** A receiver in which exactly the message `cur` is in progress. */
  predicate Holds(ctx: Context, st: Receiver, cur: Pending) {
    && BetweenFrames(ctx, st) && st.Live?
    && match cur
       case Idle => st.ops == [] && st.data == [] && st.lastFin
       case InMessage(op, data) => st.ops == [op] && st.data == data && (op == TEXT || op == BINARY)
  }

  lemma DataFrameOpens(ctx: Context, st: Receiver, cur: Pending, f: Frame)
    requires Holds(ctx, st, cur) && Sendable(f) && MayFollow(ctx, cur, f) && !IsControl(f.op)
    ensures Opened(ctx, st, f.op, f.fin, |f.payload|) == st.(ops := [Joined(cur, f).op], lastFin := f.fin)
    ensures st.control == [] && (Joined(cur, f).op == TEXT || Joined(cur, f).op == BINARY)
    ensures st.data + f.payload == Joined(cur, f).data
  {
    hide ValidUtf8, WellFormed, PartialHead;
  }

  lemma DataFrameStep(ctx: Context, st: Receiver, cur: Pending, f: Frame)
    requires Holds(ctx, st, cur) && Sendable(f) && MayFollow(ctx, cur, f) && !IsControl(f.op)
    ensures var (o, r) := (Due(ctx, st.log, cur, f), FrameStep(ctx, st, f));
            if o.gone then r == Gone(o.log)
            else r.Live? && r.phase == Head([]) && r.log == o.log && r.control == []
                 && match NextPending(cur, f)
                    case Idle => r.ops == [] && r.data == [] && r.lastFin
                    case InMessage(op, data) => r.ops == [op] && r.data == data && (op == TEXT || op == BINARY)
  {
    hide ValidUtf8, Report, Sendable, AfterFragment, Valid, Opened;
    DataFrameOpens(ctx, st, cur, f);
    WebSocketData.DataFragmentCases(ctx, Opened(ctx, st, f.op, f.fin, |f.payload|), f.payload, 0);
  }

  lemma ControlFrameStep(ctx: Context, st: Receiver, cur: Pending, f: Frame)
    requires Holds(ctx, st, cur) && Sendable(f) && MayFollow(ctx, cur, f) && IsControl(f.op)
    ensures var (o, r) := (Due(ctx, st.log, cur, f), FrameStep(ctx, st, f));
            if o.gone then r == Gone(o.log)
            else r == st.(log := o.log, lastFin := true)
  {
    hide ParsedClose, Report, WellFormed, AfterFragment, PartialHead;
    var o := Opened(ctx, st, f.op, f.fin, |f.payload|);
    assert o.Live? && o.ops == st.ops + [f.op];
    WebSocketData.ControlFragmentCases(ctx, o, f.payload, 0);
    assert o.control + f.payload == f.payload;
    assert Pop(o.ops) == st.ops;
  }

  lemma {:induction false} FrameStepsAreExpected(ctx: Context, st: Receiver, cur: Pending, frames: seq<Frame>)
    requires Holds(ctx, st, cur) && Conforming(ctx, cur, frames)
    ensures var (o, r) := (Expected(ctx, st.log, cur, frames), FrameSteps(ctx, st, frames));
            r.log == o.log && (r.Gone? <==> o.gone)
    decreases |frames|
  {
    hide Valid, FrameStep, Due, Sendable, MayFollow;
    if frames != [] {
      var f := frames[0];
      if IsControl(f.op) {
        ControlFrameStep(ctx, st, cur, f);
      } else {
        DataFrameStep(ctx, st, cur, f);
      }
      RunFrame(ctx, st, f);
      var r := FrameStep(ctx, st, f);
      if r.Gone? {
        StepsOfGone(ctx, r, frames[1..]);
      } else {
        FrameStepsAreExpected(ctx, r, NextPending(cur, f), frames[1..]);
      }
    }
  }

  lemma {:induction false} StepsOfGone(ctx: Context, st: Receiver, frames: seq<Frame>)
    requires st.Gone?
    ensures FrameSteps(ctx, st, frames) == st
    decreases |frames|
  {
    if frames != [] {
      StepsOfGone(ctx, st, frames[1..]);
    }
  }

  /** What conforms can be put on the wire, so asking for it below asks for nothing more. */
  lemma {:induction false} ConformingIsSendable(ctx: Context, cur: Pending, frames: seq<Frame>)
    requires Conforming(ctx, cur, frames)
    ensures AllSendable(frames)
    decreases |frames|
  {
    hide Sendable, MayFollow;
    if frames != [] {
      ConformingIsSendable(ctx, NextPending(cur, frames[0]), frames[1..]);
    }
  }

  /**
   The round trip: a conforming stream of frames, cut into chunks in any way, makes the server call its
   handlers for exactly the messages, pings, pongs and close that the client sent, in order.
   */
  method RoundTrip(ctx: Context, frames: seq<Frame>, chunks: seq<seq<byte>>) returns (ws: WebSocketData)
    requires Conforming(ctx, Idle, frames)
    requires AllSendable(frames) && Flatten(chunks) == WireAll(frames)
    ensures ws.log == Expected(ctx, [], Idle, frames).log
    ensures ws.Open() <==> !Expected(ctx, [], Idle, frames).gone
  {
    hide Valid, FrameSteps, Run, Sendable, Conforming, Expected;
    ws := Receive(ctx, chunks);
    FreshHoldsNothing(ctx);
    RunFrames(ctx, FRESH, frames);
    FrameStepsAreExpected(ctx, FRESH, Idle, frames);
    LogOf(ws);
  }

  lemma FreshHoldsNothing(ctx: Context)
    ensures Holds(ctx, FRESH, Idle)
  {
  }

  lemma LogOf(ws: WebSocketData)
    requires ws.Shape()
    ensures ws.Abs().log == ws.log
  {
  }

  /** A message formatted by a client as one frame arrives as that message. */
  lemma FormattedMessageArrives(ctx: Context, op: OpCode, key: seq<byte>, payload: seq<byte>, chunks: seq<seq<byte>>)
    requires (op == TEXT && ValidUtf8(payload)) || op == BINARY
    requires |key| == 4 && |payload| <= ctx.maxPayloadLength && |payload| < Pow256(8)
    requires Flatten(chunks) == Formatted(false, op, key, payload)
    ensures Valid(ctx, FRESH)
    ensures RunChunks(ctx, FRESH, chunks).log == Report(ctx, [], Message(op, payload)).log
  {
    hide Valid, Pow256, ValidUtf8, Run, Wire, FrameSteps, FrameStep, RunChunks, Report;
    var f := Frame(true, op, key, payload);
    FreshHoldsNothing(ctx);
    RunChunksIsRun(ctx, FRESH, chunks);
    RunFrame(ctx, FRESH, f);
    DataFrameStep(ctx, FRESH, Idle, f);
  }
}
