/** The receiving side of one WebSocket: the parser of frames and the reassembly of messages. */
module WebSocketReceive {
  import opened Bytes
  import opened Utf8
  import opened Frames
  import opened Unmasking
  import opened ReceiveSpec
  import opened ReceiveLemmas

  class WebSocketData {
    const ctx: Context

    // parser state, as in WebSocketState
    var wantsHead: bool
    var spillLength: nat
    var opStack: int
    var lastFin: bool
    const spill: array<byte>
    const opCode: array<OpCode>
    var remainingBytes: nat
    const mask: array<byte>

    // reassembly state: a control payload lives at the tip of the fragment buffer
    var fragmentBuffer: seq<byte>
    var controlTipLength: nat
    var isShuttingDown: bool
    var isClosed: bool

    /** The handler calls made so far. */
    var log: seq<Event>

    predicate Open()
      reads this
    {
      !isClosed && !isShuttingDown
    }

    predicate Shape()
      reads this
    {
      && spill.Length == CONSUME_PRE_PADDING && opCode.Length == 2 && mask.Length == 4 && spill != mask
      && spillLength <= CONSUME_PRE_PADDING
      && -1 <= opStack <= 1
      && controlTipLength <= |fragmentBuffer|
    }

    function Ops(): (ops: seq<OpCode>)
      requires Shape()
      reads this, opCode
    {
      opCode[..opStack + 1]
    }

    /** The receiver this object stands for, between heads. */
    function BetweenHeads(): (st: Receiver)
      requires Shape()
      reads this, opCode
      ensures st.Live? <==> Open()
    {
      if !Open() then Gone(log)
      else Live(Head([]), Ops(), lastFin, fragmentBuffer[..|fragmentBuffer| - controlTipLength],
                fragmentBuffer[|fragmentBuffer| - controlTipLength..], log)
    }

    /** The receiver this object stands for. */
    function Abs(): (st: Receiver)
      requires Shape()
      reads this, spill, opCode, mask
      ensures st.Live? <==> Open()
    {
      var st := BetweenHeads();
      if st.Gone? then st
      else st.(phase := if wantsHead then Head(spill[..spillLength]) else Payload(mask[..], remainingBytes))
    }

    ghost predicate Valid()
      reads this, spill, opCode, mask
    {
      Shape() && ReceiveSpec.Valid(ctx, Abs()) && (!wantsHead ==> spillLength == 0)
    }

    constructor (ctx: Context)
      ensures this.ctx == ctx && fresh(spill) && fresh(opCode) && fresh(mask)
      ensures Shape() && Abs() == FRESH && wantsHead
    {
      this.ctx := ctx;
      wantsHead, spillLength, opStack, lastFin := true, 0, -1, true;
      spill := new byte[CONSUME_PRE_PADDING];
      opCode := new OpCode[2];
      remainingBytes := 0;
      mask := new byte[4];
      fragmentBuffer, controlTipLength, isShuttingDown, isClosed := [], 0, false, false;
      log := [];
    }

    /** Closes the socket; its close event is only reported if the WebSocket was not ended before. */
    method ForceClose(why: string)
      modifies `isClosed, `log
      ensures isClosed
      ensures log == if old(isClosed) || isShuttingDown then old(log) else old(log) + [Aborted(why)]
    {
      if !isClosed {
        isClosed := true;
        if !isShuttingDown {
          log := log + [Aborted(why)];
        }
      }
    }

    /** Ends the WebSocket once: the close event is reported here and never again. */
    method End(code: nat, reason: seq<byte>)
      modifies `isShuttingDown, `log
      ensures isShuttingDown
      ensures log == if old(isShuttingDown) then old(log) else old(log) + [Closed(code, reason)]
    {
      if isShuttingDown {
        return;
      }
      isShuttingDown := true;
      log := log + [Closed(code, reason)];
    }

    /** Calls a handler and tells whether the socket was closed or ended by it. */
    method CallHandler(e: Event) returns (broke: bool)
      requires Open()
      modifies `isClosed, `isShuttingDown, `log
      ensures broke == !Open()
      ensures Outcome(broke, log) == Report(ctx, old(log), e)
    {
      log := log + [e];
      match ctx.handler(log) {
        case CarryOn =>
        case CloseSocket => ForceClose("");
        case EndWith(code, reason) => End(code, reason);
      }
      return isClosed || isShuttingDown;
    }

    predicate RefusePayloadLength(length: nat) {
      ctx.maxPayloadLength < length
    }

    /** Takes a piece of payload, `remaining` octets before the end of its frame; tells whether the socket is gone. */
    method HandleFragment(data: seq<byte>, remaining: nat, op: OpCode, fin: bool) returns (broke: bool)
      requires Shape() && Open()
      requires AtFrameEnd(ctx, BetweenHeads()) && op == Top(Ops()) && fin == lastFin
      requires |data| <= ctx.maxPayloadLength
      modifies `fragmentBuffer, `controlTipLength, `isClosed, `isShuttingDown, `log
      ensures Shape() && broke == !Open()
      ensures BetweenHeads() == AfterFragment(ctx, old(BetweenHeads()), data, remaining)
    {
      if op < 3 {
        broke := HandleDataFragment(data, remaining, op, fin);
      } else {
        broke := HandleControlFragment(data, remaining, op, fin);
      }
    }

    /** What a whole control payload leads to. */
    static function ControlOutcome(ctx: Context, before: seq<Event>, op: OpCode, payload: seq<byte>): (o: Outcome) {
      if op == CLOSE then Outcome(true, before + [Closed(ParsedClose(payload).code, ParsedClose(payload).reason)])
      else Report(ctx, before, if op == PING then Ping(payload) else Pong)
    }

    static lemma DataFragmentCases(ctx: Context, st: Receiver, data: seq<byte>, remaining: nat)
      requires st.Live? && st.ops != [] && !IsControl(Top(st.ops))
      ensures var (op, d) := (Top(st.ops), st.data + data);
              AfterFragment(ctx, st, data, remaining) ==
              if |d| > ctx.maxPayloadLength then Gone(st.log + [Aborted(ERR_TOO_BIG_MESSAGE)])
              else if remaining > 0 || !st.lastFin then st.(data := d)
              else
                var o := if op == TEXT && !ValidUtf8(d) then Outcome(true, st.log + [Aborted(ERR_INVALID_TEXT)])
                         else Report(ctx, st.log, Message(op, d));
                if o.gone then Gone(o.log) else st.(data := [], log := o.log)
    {
      hide ValidUtf8, Report;
    }

    static lemma ControlFragmentCases(ctx: Context, st: Receiver, data: seq<byte>, remaining: nat)
      requires st.Live? && st.ops != [] && IsControl(Top(st.ops))
      ensures var c := st.control + data;
              AfterFragment(ctx, st, data, remaining) ==
              if remaining > 0 then st.(control := c)
              else
                var o := ControlOutcome(ctx, st.log, Top(st.ops), c);
                if o.gone then Gone(o.log) else st.(control := [], log := o.log)
    {
      hide ParsedClose, Report;
    }

    /** The non-control half of HandleFragment. */
    method HandleDataFragment(data: seq<byte>, remaining: nat, op: OpCode, fin: bool) returns (broke: bool)
      requires Shape() && Open() && controlTipLength == 0
      requires Ops() != [] && op == Top(Ops()) && fin == lastFin && op < 3
      requires |data| <= ctx.maxPayloadLength
      modifies `fragmentBuffer, `isClosed, `isShuttingDown, `log
      ensures broke == !Open()
      ensures BetweenHeads() == AfterFragment(ctx, old(BetweenHeads()), data, remaining)
    {
      hide ValidUtf8, Report, AfterFragment;
      ghost var st := BetweenHeads();
      DataFragmentCases(ctx, st, data, remaining);
      assert st.data == fragmentBuffer && st.control == [];
      if remaining == 0 && fin && |fragmentBuffer| == 0 {
        // everything in one go
        assert st.data + data == data;
        broke := DeliverMessage(op, data);
        if broke {
          return true;
        }
      } else {
        broke := Reassemble(data, remaining, op, fin, st);
        return;
      }
      assert fragmentBuffer[..|fragmentBuffer|] == fragmentBuffer && fragmentBuffer[|fragmentBuffer|..] == [];
      return false;
    }

    /** A fragment goes behind what there is of its message, which is handed over if it is the last. */
    method Reassemble(data: seq<byte>, remaining: nat, op: OpCode, fin: bool, ghost st: Receiver)
      returns (broke: bool)
      requires Shape() && Open() && controlTipLength == 0 && st == BetweenHeads()
      requires Ops() != [] && op == Top(Ops()) && fin == lastFin && op < 3
      modifies `fragmentBuffer, `isClosed, `isShuttingDown, `log
      ensures broke == !Open()
      ensures BetweenHeads() == AfterFragment(ctx, st, data, remaining)
    {
      hide ValidUtf8, Report, AfterFragment;
      DataFragmentCases(ctx, st, data, remaining);
      assert st.data == fragmentBuffer && st.control == [];
      if RefusePayloadLength(|data| + |fragmentBuffer|) {
        ForceClose(ERR_TOO_BIG_MESSAGE);
        return true;
      }
      fragmentBuffer := fragmentBuffer + data;
      assert fragmentBuffer[..|fragmentBuffer|] == fragmentBuffer && fragmentBuffer[|fragmentBuffer|..] == [];
      assert BetweenHeads() == st.(data := fragmentBuffer);
      if remaining != 0 || !fin {
        return false;
      }
      broke := DeliverWhole(op);
    }

    /** Hands over the message that has been put together, and begins anew. */
    method DeliverWhole(op: OpCode) returns (broke: bool)
      requires Shape() && Open() && controlTipLength == 0
      modifies `fragmentBuffer, `isClosed, `isShuttingDown, `log
      ensures broke == !Open()
      ensures var message := old(fragmentBuffer);
              var o := if op == TEXT && !ValidUtf8(message) then Outcome(true, old(log) + [Aborted(ERR_INVALID_TEXT)])
                       else Report(ctx, old(log), Message(op, message));
              BetweenHeads() == if o.gone then Gone(o.log) else old(BetweenHeads()).(data := [], log := o.log)
    {
      hide ValidUtf8, Report;
      assert fragmentBuffer[|fragmentBuffer|..] == [];
      broke := DeliverMessage(op, fragmentBuffer);
      if !broke {
        fragmentBuffer := [];
      }
    }

    /** Checks a whole message and hands it to the message handler. */
    method DeliverMessage(op: OpCode, message: seq<byte>) returns (broke: bool)
      requires Open()
      modifies `isClosed, `isShuttingDown, `log
      ensures broke == !Open()
      ensures Outcome(broke, log) == if op == TEXT && !ValidUtf8(message)
                                     then Outcome(true, old(log) + [Aborted(ERR_INVALID_TEXT)])
                                     else Report(ctx, old(log), Message(op, message))
    {
      hide ValidUtf8;
      if op == TEXT {
        var valid := IsValidUtf8(message);
        if !valid {
          ForceClose(ERR_INVALID_TEXT);
          return true;
        }
      }
      broke := CallHandler(Message(op, message));
    }

    /** The control half of HandleFragment: it shares the fragment buffer with the message it interrupts. */
    method HandleControlFragment(data: seq<byte>, remaining: nat, op: OpCode, fin: bool) returns (broke: bool)
      requires Shape() && Open() && fin
      requires Ops() != [] && op == Top(Ops()) && KnownOp(op) && op >= 3
      modifies `fragmentBuffer, `controlTipLength, `isClosed, `isShuttingDown, `log
      ensures Shape() && broke == !Open()
      ensures BetweenHeads() == AfterFragment(ctx, old(BetweenHeads()), data, remaining)
    {
      hide ControlOutcome, AfterFragment;
      ghost var st := BetweenHeads();
      ControlFragmentCases(ctx, st, data, remaining);
      if remaining == 0 && fin && controlTipLength == 0 {
        assert st.control + data == data;
        broke := DeliverControl(op, data);
        if broke {
          return true;
        }
        assert fragmentBuffer[|fragmentBuffer|..] == [];
      } else {
        fragmentBuffer := fragmentBuffer + data;
        controlTipLength := controlTipLength + |data|;
        ghost var n := |fragmentBuffer| - controlTipLength;
        assert fragmentBuffer[n..] == st.control + data && fragmentBuffer[..n] == st.data;
        if remaining == 0 && fin {
          var controlBuffer := fragmentBuffer[|fragmentBuffer| - controlTipLength..];
          broke := DeliverControl(op, controlBuffer);
          if broke {
            return true;
          }
          fragmentBuffer := fragmentBuffer[..|fragmentBuffer| - controlTipLength];
          controlTipLength := 0;
          assert fragmentBuffer[..|fragmentBuffer|] == st.data && fragmentBuffer[|fragmentBuffer|..] == [];
        }
      }
      return false;
    }

    /** Acts on a whole control payload. The tip of the fragment buffer is left for the caller to drop. */
    method DeliverControl(op: OpCode, payload: seq<byte>) returns (broke: bool)
      requires Open() && KnownOp(op) && op >= 3
      modifies `isClosed, `isShuttingDown, `log
      ensures broke == !Open()
      ensures Outcome(broke, log) == ControlOutcome(ctx, old(log), op, payload)
    {
      hide ParsedClose;
      if op == CLOSE {
        var f := ParseClosePayload(payload);
        End(f.code, f.reason);
        return true;
      } else if op == PING {
        broke := CallHandler(Ping(payload));
      } else {
        broke := CallHandler(Pong);
      }
    }

    // ---- The parser ----

    /** The buffers a `consume` call works on do not alias the parser's own. */
    predicate Separate(buf: array<byte>)
    {
      buf != spill && buf != mask
    }

    method PushOp(op: OpCode)
      requires Shape() && opStack < 1
      modifies `opStack, opCode
      ensures Shape() && Ops() == old(Ops()) + [op]
    {
      ghost var ops := Ops();
      opStack := opStack + 1;
      opCode[opStack] := op;
      assert opCode[..opStack + 1] == ops + [op];
    }

    /** Admits a frame: its opcode goes on the stack, unless the frame may not start here or is too long. */
    method StartFrame(op: OpCode, fin: bool, payLength: nat) returns (refused: bool)
      requires Shape() && Open() && ValidOps(Ops()) && (op == CONTINUATION || KnownOp(op))
      modifies `opStack, `lastFin, `isClosed, `log, opCode
      ensures Shape() && refused == !Open()
      ensures BetweenHeads() == Opened(ctx, old(BetweenHeads()), op, fin, payLength)
    {
      if op != 0 {
        if opStack == 1 || (!lastFin && op < 2) {
          ForceClose("");
          return true;
        }
        PushOp(op);
      } else if opStack == -1 {
        ForceClose("");
        return true;
      }
      lastFin := fin;
      if RefusePayloadLength(payLength) {
        ForceClose(ERR_TOO_BIG_MESSAGE);
        return true;
      }
      return false;
    }

    /** A frame has been delivered. */
    method EndFrame(fin: bool)
      requires Shape() && Open() && Ops() != [] && fin == lastFin
      modifies `opStack
      ensures Shape() && BetweenHeads() == Popped(old(BetweenHeads()))
    {
      if fin {
        ghost var ops := Ops();
        opStack := opStack - 1;
        assert opCode[..opStack + 1] == ops[..|ops| - 1];
      }
    }

    /** Unmasks a payload over the end of its head; returns where it now stands. */
    method UnmaskOverHead(header: nat, payLength: nat, buf: array<byte>, src: nat) returns (data: seq<byte>)
      requires 6 <= header && src + header + Rounded(payLength) <= buf.Length
      modifies buf
      ensures data
              == Unmask(old(buf[..])[src + header - 4..src + header],
                        old(buf[..])[src + header..src + header + payLength])
      ensures Kept(old(buf[..]), buf[..], src + 2, src + header + payLength) && buf[src] == old(buf[src])
    {
      hide Unmask, Rounded, Patch, Kept;
      ghost var was := buf[..];
      var dst := src + header - 4;
      ghost var key := was[dst..dst + 4];
      assert key == buf[dst..dst + 4];
      UnmaskImpreciseCopyMask(buf, dst, src + header, dst, payLength);
      UnmaskedPatch(key, was, dst, src + header, payLength);
      KeptWider(was, buf[..], dst, dst + payLength + 4, src + 2, src + header + payLength);
      KeptSlice(was, buf[..], src + 2, src + header + payLength, src, src + 1);
      assert buf[src] == buf[..][src..src + 1][0] && was[src] == was[src..src + 1][0];
      data := buf[..][dst..dst + payLength];
    }

    /** An admitted frame whose payload is all there is handed on as one fragment. */
    method TakeWholeFrame(header: nat, payLength: nat, buf: array<byte>, src: nat, length: nat)
      returns (stop: bool, src': nat, length': nat)
      requires Shape() && Open() && Separate(buf) && Ops() != [] && AtFrameEnd(ctx, BetweenHeads())
      requires 6 <= header && header + payLength <= length && payLength <= ctx.maxPayloadLength
      requires src + length + CONSUME_POST_PADDING <= buf.Length && IsFin(buf[src]) == lastFin
      modifies `fragmentBuffer, `controlTipLength, `isClosed, `isShuttingDown, `log, `opStack, `spillLength, buf
      ensures Shape() && stop == !Open()
      ensures Kept(old(buf[..]), buf[..], src + 2, src + header + payLength)
      ensures var r := AfterFragment(ctx, old(BetweenHeads()),
                         Unmask(old(buf[..])[src + header - 4..src + header],
                                old(buf[..])[src + header..src + header + payLength]), 0);
              BetweenHeads() == if r.Gone? then r else Popped(r)
      ensures !stop ==> spillLength == 0 && src' == src + header + payLength && src' + length' == src + length
    {
      hide Kept;
      hide Unmask, AfterFragment, AtFrameEnd, IsFin, Popped, Rounded;
      src', length' := src, length;
      var data := UnmaskOverHead(header, payLength, buf, src);
      stop := HandleFragment(data, 0, opCode[opStack], IsFin(buf[src]));
      if stop {
        return;
      }
      EndFrame(IsFin(buf[src]));
      src' := src + (payLength + header);
      length' := length - (payLength + header);
      spillLength := 0;
    }

    /** Unmasks a part of a payload over its whole head, and turns the key to where the rest goes on. */
    method UnmaskPart(header: nat, buf: array<byte>, src: nat, length: nat) returns (data: seq<byte>)
      requires Shape() && Separate(buf) && 6 <= header <= length && src + length + CONSUME_POST_PADDING <= buf.Length
      modifies buf, mask
      ensures data == Unmask(old(buf[..])[src + header - 4..src + header], old(buf[..])[src + header..src + length])
      ensures mask[..] == Rotate(old(buf[..])[src + header - 4..src + header], length - header)
      ensures Kept(old(buf[..]), buf[..], src, src + length)
    {
      hide Unmask, Rotate, Rounded, Patch, Kept;
      ghost var was := buf[..];
      var n := length - header;
      LoadKey(buf, src + header - 4);
      UnmaskImprecise(buf, src, src + header, mask, length - header);
      UnmaskedPatch(mask[..], was, src, src + header, n);
      KeptWider(was, buf[..], src, src + n + 4, src, src + length);
      data := buf[..][src..src + n];
      TurnKey(length - header);
    }

    /** Copies the masking key of a frame into the parser state. */
    method LoadKey(buf: array<byte>, at: nat)
      requires mask.Length == 4 && mask != buf && at + 4 <= buf.Length
      modifies mask
      ensures mask[..] == buf[..][at..at + 4]
    {
      mask[0], mask[1], mask[2], mask[3] := buf[at], buf[at + 1], buf[at + 2], buf[at + 3];
    }

    /** Turns the key past a piece of payload. */
    method TurnKey(n: nat)
      requires mask.Length == 4
      modifies mask
      ensures mask[..] == Rotate(old(mask[..]), n)
    {
      hide Rotate;
      RotateByRemainder(mask[..], n);
      RotateMask(4 - n % 4, mask);
    }

    /** An admitted frame of whose payload only a part is there: that part is handed on, the rest is awaited. */
    method TakePartFrame(header: nat, payLength: nat, buf: array<byte>, src: nat, length: nat)
      requires Shape() && Open() && Separate(buf) && Ops() != [] && AtFrameEnd(ctx, BetweenHeads())
      requires 6 <= header <= length < header + payLength && payLength <= ctx.maxPayloadLength
      requires src + length + CONSUME_POST_PADDING <= buf.Length && IsFin(buf[src]) == lastFin
      modifies this, mask, buf
      ensures Shape() && !wantsHead && spillLength == 0
      ensures Kept(old(buf[..]), buf[..], src, src + length)
      ensures var key := old(buf[..])[src + header - 4..src + header];
              var s := old(buf[..])[src + header..src + length];
              var r := AfterFragment(ctx, old(BetweenHeads()), Unmask(key, s), payLength - |s|);
              Abs() == if r.Gone? then r else r.(phase := Payload(Rotate(key, |s|), payLength - |s|))
    {
      hide Unmask, AfterFragment, AtFrameEnd, IsFin, Rotate, Rounded, Kept;
      spillLength := 0;
      wantsHead := false;
      remainingBytes := payLength - length + header;
      var fin := IsFin(buf[src]);
      var data := UnmaskPart(header, buf, src, length);
      var _ := HandleFragment(data, remainingBytes, opCode[opStack], fin);
    }

    /**
     One frame whose whole head stands at `src`. `stop` says that nothing is left to do in this call: the
     frame was refused, is not complete yet, or made a handler close the socket.
     */
    method ConsumeMessage(ghost h: seq<byte>, ghost s: seq<byte>,
                          header: nat, payLength: nat, buf: array<byte>, src: nat, length: nat)
      returns (stop: bool, src': nat, length': nat)
      requires Shape() && Open() && wantsHead && Separate(buf)
      requires ReceiveSpec.Valid(ctx, BetweenHeads())
      requires header <= length && src + length + CONSUME_POST_PADDING <= buf.Length
      requires h == buf[..][src..src + header] && s == buf[..][src + header..src + length]
      requires WholeHead(h) && !RefusedHead(h[0], h[1]) && payLength == PayloadLength(h)
      modifies this, opCode, mask, buf
      ensures Shape() && Kept(old(buf[..]), buf[..], src, src + length)
      ensures ReceiveSpec.Valid(ctx, Begin(ctx, old(BetweenHeads()), h))
      ensures !stop ==> src < src' && src' + length' == src + length
      ensures Arrived(Run(ctx, Begin(ctx, old(BetweenHeads()), h), s),
                      stop, if stop then [] else buf[..][src'..src' + length'])
    {
      hide ReceiveSpec.Valid, Begin, WholeHead, RefusedHead, PayloadLength, Opened, AtFrameEnd,
           IsFin, OpCodeOf, KnownOp, ValidOps, Run, Kept;
      ghost var st := BetweenHeads();
      ghost var was := buf[..];
      HeadFacts(ctx, st, h);
      stop, src', length' := true, src, length;
      var op, fin := OpCodeOf(buf[src]), IsFin(buf[src]);
      var refused := StartFrame(op, fin, payLength);
      assert buf[..] == was;
      if refused {
        NothingTouched(was, src, src + length);
        BeginKeepsValid(ctx, st, h);
        RefusedFrame(ctx, st, h, s);
        return;
      }
      OpenedIsFrame(ctx, st, h);
      if payLength + header <= length {
        stop, src', length' := ConsumeWhole(st, h, s, header, payLength, buf, src, length);
      } else {
        ConsumePart(st, h, s, header, payLength, buf, src, length);
      }
    }

    /** What ConsumeMessage and its parts establish when they leave the parser at `stop`. */
    ghost predicate Arrived(goal: Receiver, stop: bool, rest: seq<byte>)
      requires Shape()
      reads this, spill, opCode, mask
    {
      if stop then (wantsHead || spillLength == 0) && Abs() == goal
      else
        && Open() && wantsHead && spillLength == 0
        && ReceiveSpec.Valid(ctx, BetweenHeads())
        && Run(ctx, BetweenHeads(), rest) == goal
    }

    /** The frame with head `h`, which the receiver `st` admits: the fields already tell so. */
    ghost predicate Admitted(st: Receiver, h: seq<byte>, payLength: nat)
      requires Shape()
      reads this, opCode
    {
      && st.Live? && st.phase.Head? && ReceiveSpec.Valid(ctx, st)
      && WholeHead(h) && !RefusedHead(h[0], h[1]) && payLength == PayloadLength(h)
      && BetweenHeads() == Opened(ctx, st, OpCodeOf(h[0]), IsFin(h[0]), payLength) && BetweenHeads().Live?
      && AtFrameEnd(ctx, BetweenHeads())
    }

    /** The rest of ConsumeMessage when the whole payload is there: head `h`, then `s`. */
    method ConsumeWhole(ghost st: Receiver, ghost h: seq<byte>, ghost s: seq<byte>,
                        header: nat, payLength: nat, buf: array<byte>, src: nat, length: nat)
      returns (stop: bool, src': nat, length': nat)
      requires Shape() && Open() && wantsHead && Separate(buf)
      requires 6 <= header && header + payLength <= length && src + length + CONSUME_POST_PADDING <= buf.Length
      requires h == buf[..][src..src + header] && s == buf[..][src + header..src + length]
      requires Admitted(st, h, payLength)
      modifies this, mask, buf
      ensures Shape() && Kept(old(buf[..]), buf[..], src, src + length)
      ensures ReceiveSpec.Valid(ctx, Begin(ctx, st, h))
      ensures !stop ==> src < src' && src' + length' == src + length
      ensures Arrived(Run(ctx, Begin(ctx, st, h), s), stop, if stop then [] else buf[..][src'..src' + length'])
    {
      hide ReceiveSpec.Valid, Begin, WholeHead, RefusedHead, PayloadLength, Opened, AfterFragment, AtFrameEnd, Unmask,
           MaskingKey, Popped, IsFin, OpCodeOf, Run, Kept, Separate;
      ghost var was := buf[..];
      AdmittedFacts(ctx, st, h, BetweenHeads());
      RunWholeFrame(ctx, st, h, s);
      Subslices(was, src + header, payLength, length - header);
      stop, src', length' := TakeWholeFrame(header, payLength, buf, src, length);
      KeptSlice(was, buf[..], src + 2, src + header + payLength, src + header + payLength, src + length);
      KeptWider(was, buf[..], src + 2, src + header + payLength, src, src + length);
    }

    /** The rest of ConsumeMessage when a part of the payload is missing. */
    method ConsumePart(ghost st: Receiver, ghost h: seq<byte>, ghost s: seq<byte>,
                       header: nat, payLength: nat, buf: array<byte>, src: nat, length: nat)
      requires Shape() && Open() && wantsHead && Separate(buf)
      requires 6 <= header <= length < header + payLength && src + length + CONSUME_POST_PADDING <= buf.Length
      requires h == buf[..][src..src + header] && s == buf[..][src + header..src + length]
      requires Admitted(st, h, payLength)
      modifies this, mask, buf
      ensures Shape() && Kept(old(buf[..]), buf[..], src, src + length)
      ensures ReceiveSpec.Valid(ctx, Begin(ctx, st, h))
      ensures Arrived(Run(ctx, Begin(ctx, st, h), s), true, [])
    {
      hide ReceiveSpec.Valid, Begin, WholeHead, RefusedHead, PayloadLength, Opened, AfterFragment, AtFrameEnd, Unmask,
           Rotate, MaskingKey, IsFin, OpCodeOf, Run, Kept, Separate;
      AdmittedFacts(ctx, st, h, BetweenHeads());
      RunPartFrame(ctx, st, h, s);
      TakePartFrame(header, payLength, buf, src, length);
    }

    static lemma AdmittedFacts(ctx: Context, st: Receiver, h: seq<byte>, o: Receiver)
      requires WholeHead(h) && st.Live? && o.Live?
      requires o == Opened(ctx, st, OpCodeOf(h[0]), IsFin(h[0]), PayloadLength(h))
      ensures MaskingKey(h) == h[|h| - 4..] && o.ops != [] && PayloadLength(h) <= ctx.maxPayloadLength
      ensures o.lastFin == IsFin(h[0])
    {
      hide PayloadLength, OpCodeOf, IsFin;
    }

    static lemma NothingTouched(was: seq<byte>, lo: nat, hi: nat)
      ensures Kept(was, was, lo, hi)
    {
    }

    static lemma Subslices(s: seq<byte>, at: nat, m: nat, n: nat)
      requires m <= n && at + n <= |s|
      ensures s[at..at + n][..m] == s[at..at + m] && s[at..at + n][m..] == s[at + m..at + n]
    {
    }

    /** What the parser may rely on once a head is whole and not refused. */
    static lemma HeadFacts(ctx: Context, st: Receiver, h: seq<byte>)
      requires ReceiveSpec.Valid(ctx, st) && st.Live? && WholeHead(h) && !RefusedHead(h[0], h[1])
      ensures 6 <= |h| && ValidOps(st.ops)
      ensures OpCodeOf(h[0]) == CONTINUATION || KnownOp(OpCodeOf(h[0]))
      ensures MaskingKey(h) == h[|h| - 4..]
    {
    }

    static lemma RefusedFrame(ctx: Context, st: Receiver, h: seq<byte>, s: seq<byte>)
      requires ReceiveSpec.Valid(ctx, st) && st.Live? && WholeHead(h) && ReceiveSpec.Valid(ctx, Begin(ctx, st, h))
      requires Opened(ctx, st, OpCodeOf(h[0]), IsFin(h[0]), PayloadLength(h)).Gone?
      ensures Run(ctx, Begin(ctx, st, h), s) == Opened(ctx, st, OpCodeOf(h[0]), IsFin(h[0]), PayloadLength(h))
    {
      hide Opened, PayloadLength;
      RunGone(ctx, Begin(ctx, st, h), s);
    }

    // ---- Payloads that began in an earlier call ----

    /** The rest of the pending payload is there: it is unmasked exactly, and the frame ends. */
    method TakeRest(buf: array<byte>, src: nat, length: nat) returns (more: bool, src': nat, length': nat)
      requires Shape() && Open() && Separate(buf) && Ops() != [] && AtFrameEnd(ctx, BetweenHeads())
      requires remainingBytes <= length && src + length + CONSUME_POST_PADDING <= buf.Length
      requires remainingBytes <= ctx.maxPayloadLength
      modifies `fragmentBuffer, `controlTipLength, `isClosed, `isShuttingDown, `log, `opStack, `wantsHead, buf
      ensures Shape() && more == Open()
      ensures Kept(old(buf[..]), buf[..], src, src + remainingBytes)
      ensures var r := AfterFragment(ctx, old(BetweenHeads()),
                                     Unmask(mask[..], old(buf[..])[src..src + remainingBytes]), 0);
              BetweenHeads() == if r.Gone? then r else Popped(r)
      ensures more ==> wantsHead && src' == src + remainingBytes && src' + length' == src + length
      ensures wantsHead || wantsHead == old(wantsHead)
    {
      hide Unmask, AfterFragment, AtFrameEnd, Popped, Patch, Kept;
      src', length' := src, length;
      ghost var was := buf[..];
      UnmaskExactly(buf, src, remainingBytes, mask);
      UnmaskedExactly(mask[..], was, src, remainingBytes);
      var data := buf[..][src..src + remainingBytes];
      assert |data| == remainingBytes;
      var broke := HandleFragment(data, 0, opCode[opStack], lastFin);
      if broke {
        return false, src, length;
      }
      EndFrame(lastFin);
      src' := src + remainingBytes;
      length' := length - remainingBytes;
      wantsHead := true;
      more := true;
    }

    /** Unmasks a part of the pending payload, which may run up to four octets into the padding. */
    method UnmaskMore(buf: array<byte>, src: nat, length: nat) returns (data: seq<byte>)
      requires mask.Length == 4 && Separate(buf) && src + length + CONSUME_POST_PADDING <= buf.Length
      modifies buf
      ensures data == Unmask(mask[..], old(buf[..])[src..src + length])
      ensures Kept(old(buf[..]), buf[..], src, src + length + CONSUME_POST_PADDING)
    {
      hide Unmask, Patch, Kept;
      ghost var was := buf[..];
      UnmaskInplace(buf, src, src + Rounded(length), mask);
      UnmaskedPatch(mask[..], was, src, src, length);
      data := buf[..][src..src + length];
    }

    /** Turns the key so that it fits what follows `length` octets. */
    method TurnMask(length: nat)
      requires mask.Length == 4
      modifies mask
      ensures mask[..] == Rotate(old(mask[..]), length)
    {
      hide Rotate;
      ghost var key := mask[..];
      RotateByRemainder(key, length);
      if length % 4 != 0 {
        RotateMask(4 - length % 4, mask);
      } else {
        KeyInPlace(key);
      }
    }

    /** Only a part of the pending payload is there. */
    method TakePart(buf: array<byte>, src: nat, length: nat)
      requires Shape() && Open() && Separate(buf) && Ops() != [] && AtFrameEnd(ctx, BetweenHeads())
      requires !wantsHead && length < remainingBytes && src + length + CONSUME_POST_PADDING <= buf.Length
      requires remainingBytes <= ctx.maxPayloadLength
      modifies `fragmentBuffer, `controlTipLength, `isClosed, `isShuttingDown, `log, `remainingBytes, mask, buf
      ensures Shape()
      ensures Kept(old(buf[..]), buf[..], src, src + length + CONSUME_POST_PADDING)
      ensures var key := old(mask[..]);
              var s := old(buf[..])[src..src + length];
              var r := AfterFragment(ctx, old(BetweenHeads()), Unmask(key, s), old(remainingBytes) - length);
              Abs() == if r.Gone? then r else r.(phase := Payload(Rotate(key, length), old(remainingBytes) - length))
    {
      hide Unmask, AfterFragment, AtFrameEnd, Rotate, Patch, Kept;
      var data := UnmaskMore(buf, src, length);
      assert |data| == length;
      remainingBytes := remainingBytes - length;
      var broke := HandleFragment(data, remainingBytes, opCode[opStack], lastFin);
      if broke {
        return;
      }
      TurnMask(length);
    }

    /** Payload of a frame whose head came in an earlier call. `more` says that heads may follow in this one. */
    method ConsumeContinuation(ghost s: seq<byte>, buf: array<byte>, src: nat, length: nat)
      returns (more: bool, src': nat, length': nat)
      requires Shape() && Open() && !wantsHead && spillLength == 0 && Separate(buf)
      requires ReceiveSpec.Valid(ctx, Abs())
      requires src + length + CONSUME_POST_PADDING <= buf.Length && s == buf[..][src..src + length]
      modifies this, mask, buf
      ensures Shape() && Kept(old(buf[..]), buf[..], src, src + length + CONSUME_POST_PADDING)
      ensures more ==> src <= src' && src' + length' == src + length
      ensures Arrived(Run(ctx, old(Abs()), s), !more, if more then buf[..][src'..src' + length'] else [])
    {
      hide ReceiveSpec.Valid, AfterFragment, AtFrameEnd, Unmask, Rotate, Popped, Run, Kept;
      ghost var st, was, n := Abs(), buf[..], remainingBytes;
      PayloadFacts(ctx, st);
      AtFrameEndIgnoresPhase(ctx, st, Head([]));
      if remainingBytes <= length {
        RunRest(ctx, st, s);
        Subslices(was, src, n, length);
        AfterFragmentIgnoresPhase(ctx, st, Head([]), Unmask(mask[..], s[..n]), 0);
        PoppedIgnoresPhase(AfterFragment(ctx, st, Unmask(mask[..], s[..n]), 0), Head([]));
        more, src', length' := TakeRest(buf, src, length);
        KeptSlice(was, buf[..], src, src + n, src + n, src + length);
        KeptWider(was, buf[..], src, src + n, src, src + length + CONSUME_POST_PADDING);
      } else {
        RunPart(ctx, st, s);
        AfterFragmentIgnoresPhase(ctx, st, Head([]), Unmask(mask[..], s), n - length);
        TakePart(buf, src, length);
        more, src', length' := false, src, length;
      }
    }

    static lemma PayloadFacts(ctx: Context, st: Receiver)
      requires ReceiveSpec.Valid(ctx, st) && st.Live? && st.phase.Payload?
      ensures st.ops != [] && |st.phase.key| == 4 && 0 < st.phase.remaining <= ctx.maxPayloadLength
      ensures AtFrameEnd(ctx, st)
    {
    }

    static lemma AtFrameEndIgnoresPhase(ctx: Context, st: Receiver, phase: Phase)
      requires st.Live? && AtFrameEnd(ctx, st)
      ensures AtFrameEnd(ctx, st.(phase := phase))
    {
    }

    static lemma PoppedIgnoresPhase(st: Receiver, phase: Phase)
      ensures st.Live? && st.ops != [] ==> Popped(st.(phase := phase)) == Popped(st)
    {
    }

    // ---- The parse loop ----

    /** One turn of the parse loop: refuses a head, takes a frame, or finds the head incomplete. */
    method ParseOne(ghost s: seq<byte>, buf: array<byte>, src: nat, length: nat)
      returns (partial: bool, stop: bool, src': nat, length': nat)
      requires Shape() && Open() && wantsHead && Separate(buf)
      requires ReceiveSpec.Valid(ctx, BetweenHeads())
      requires 6 <= length && src + length + CONSUME_POST_PADDING <= buf.Length && s == buf[..][src..src + length]
      modifies this, opCode, mask, buf
      ensures Shape() && Kept(old(buf[..]), buf[..], src, src + length)
      ensures partial ==>
                PartialHead(s) && buf[..] == old(buf[..]) && Open() && BetweenHeads() == old(BetweenHeads())
                && wantsHead && spillLength == old(spillLength)
      ensures !partial && !stop ==> src < src' && src' + length' == src + length
      ensures !partial ==>
                Arrived(Run(ctx, old(BetweenHeads()), s), stop, if stop then [] else buf[..][src'..src' + length'])
    {
      hide ReceiveSpec.Valid, RefusedHead, Length7, FromNetwork, PayloadLength, Begin, Run, Kept, OpCodeOf;
      partial, stop, src', length' := false, true, src, length;
      ghost var st := BetweenHeads();
      assert s[0] == buf[src] && s[1] == buf[src + 1];
      NothingTouched(buf[..], src, src + length);
      if RefusedHead(buf[src], buf[src + 1]) {
        RunRefusedHead(ctx, st, s);
        ForceClose("");
        return;
      }
      var header, payLength;
      if Length7(buf[src + 1]) < 126 {
        header, payLength := SHORT_MESSAGE_HEADER, Length7(buf[src + 1]);
      } else if Length7(buf[src + 1]) == 126 {
        if length < MEDIUM_MESSAGE_HEADER {
          return true, false, src, length;
        }
        header, payLength := MEDIUM_MESSAGE_HEADER, FromNetwork(buf[src + 2..src + 4]);
      } else {
        if length < LONG_MESSAGE_HEADER {
          return true, false, src, length;
        }
        header, payLength := LONG_MESSAGE_HEADER, FromNetwork(buf[src + 2..src + 10]);
      }
      RunWholeHead(ctx, st, s);
      Subslices(buf[..], src, header, length);
      PayloadLengthAt(buf[..], src, header);
      stop, src', length' := ConsumeMessage(s[..header], s[header..], header, payLength, buf, src, length);
    }

    static lemma SliceOfSlice(s: seq<byte>, at: nat, n: nat, lo: nat, hi: nat)
      requires lo <= hi <= n && at + n <= |s|
      ensures s[at..at + n][lo..hi] == s[at + lo..at + hi]
    {
      var whole := s[at..at + n];
      assert forall i :: lo <= i < hi ==> whole[i] == s[at + i];
    }

    static lemma PayloadLengthAt(s: seq<byte>, src: nat, header: nat)
      requires src + header <= |s| && WholeHead(s[src..src + header])
      ensures PayloadLength(s[src..src + header])
              == if Length7(s[src + 1]) < 126 then Length7(s[src + 1]) else FromNetwork(s[src + 2..src + header - 4])
    {
      hide Value, FromNetwork;
      var h := s[src..src + header];
      assert |h| == header && h[1] == s[src + 1];
      SliceOfSlice(s, src, header, 2, header - 4);
    }

    /** Parses frames until what is left is at most an incomplete head, and spills that. */
    method ParseHeads(ghost s: seq<byte>, buf: array<byte>, at: nat, available: nat)
      requires Shape() && Open() && wantsHead && Separate(buf) && spillLength <= available
      requires ReceiveSpec.Valid(ctx, BetweenHeads())
      requires at + available + CONSUME_POST_PADDING <= buf.Length && s == buf[..][at..at + available]
      modifies this, spill, opCode, mask, buf
      ensures Shape() && Kept(old(buf[..]), buf[..], at, at + available)
      ensures Arrived(Run(ctx, old(BetweenHeads()), s), true, [])
    {
      hide ReceiveSpec.Valid, RefusedHead, Run, Kept;
      ghost var was, goal := buf[..], Run(ctx, BetweenHeads(), s);
      NothingTouched(was, at, at + available);
      var src, length := at, available;
      while length >= SHORT_MESSAGE_HEADER
        invariant Shape() && Open() && wantsHead
        invariant ReceiveSpec.Valid(ctx, BetweenHeads())
        invariant at <= src && src + length == at + available
        invariant spillLength <= length
        invariant Run(ctx, BetweenHeads(), buf[..][src..src + length]) == goal
        invariant Kept(was, buf[..], at, at + available)
        decreases length
      {
        ghost var mid := buf[..];
        var partial, stop, src', length' := ParseOne(buf[..][src..src + length], buf, src, length);
        KeptWider(mid, buf[..], src, src + length, at, at + available);
        KeptTwice(was, mid, buf[..], at, at + available);
        if partial {
          break;
        }
        if stop {
          return;
        }
        src, length := src', length';
      }
      ghost var rest := buf[..][src..src + length];
      assert PartialHead(rest);
      assert [] + rest == rest;
      RunPartialHead(ctx, BetweenHeads(), [], rest);
      Spill(rest, buf, src, length);
    }

    /** Keeps an incomplete head for the next call. */
    method Spill(ghost rest: seq<byte>, buf: array<byte>, src: nat, length: nat)
      requires Shape() && Open() && wantsHead && Separate(buf) && spillLength <= length <= CONSUME_PRE_PADDING
      requires src + length <= buf.Length && rest == buf[..][src..src + length]
      modifies `spillLength, spill
      ensures Shape() && Open() && wantsHead
      ensures BetweenHeads().Live? && Abs() == BetweenHeads().(phase := Head(rest))
      ensures BetweenHeads() == old(BetweenHeads())
    {
      if length > 0 {
        for i := 0 to length
          invariant spill[..i] == rest[..i]
        {
          spill[i] := buf[src + i];
        }
        assert rest[..length] == rest;
        spillLength := length % 16;
      }
    }

    // ---- Entry points ----

    /** Puts the spilled octets of an incomplete head in front of the chunk. */
    method Unspill(buf: array<byte>, src: nat)
      requires Shape() && Separate(buf) && spillLength <= src <= buf.Length
      modifies buf
      ensures buf[..] == Patch(old(buf[..]), src - spillLength, spill[..spillLength])
    {
      hide Patch;
      ghost var was := buf[..];
      var start := src - spillLength;
      PatchNothing(was, start);
      assert spill[..0] == [];
      for i := 0 to spillLength
        invariant buf[..] == Patch(was, start, spill[..i])
      {
        PatchMore(was, start, spill[..i], spill[i]);
        ghost var now := buf[..];
        buf[start + i] := spill[i];
        assert buf[..] == now[start + i := spill[i]];
        assert spill[..i + 1] == spill[..i] + [spill[i]];
      }
    }

    /**
     Consumes a chunk of the stream. Whatever the chunk, the receiver this object stands for moves exactly as
     the reference receiver does; octets outside the chunk and its padding are not touched.
     */
    method Consume(buf: array<byte>, at: nat, available: nat)
      requires Valid() && Open() && Separate(buf)
      requires CONSUME_PRE_PADDING <= at && at + available + CONSUME_POST_PADDING <= buf.Length
      modifies this, spill, opCode, mask, buf
      ensures Valid() && Abs() == Run(ctx, old(Abs()), old(buf[at..at + available]))
      ensures Kept(old(buf[..]), buf[..], at - CONSUME_PRE_PADDING, at + available + CONSUME_POST_PADDING)
    {
      hide ReceiveSpec.Valid, Run, Kept, Patch;
      ghost var was, chunk := buf[..], buf[at..at + available];
      assert chunk == was[at..at + available];
      NothingTouched(was, at - CONSUME_PRE_PADDING, at + available + CONSUME_POST_PADDING);
      if wantsHead {
        ghost var st, spilled := BetweenHeads(), spill[..spillLength];
        SpilledHead(ctx, st, spilled, chunk);
        var src, length := at - spillLength, available + spillLength;
        Unspill(buf, at);
        PatchedInFront(was, src, spilled, available);
        ghost var mid := buf[..];
        ParseHeads(spilled + chunk, buf, src, length);
        KeptWider(was, mid, src, at, at - CONSUME_PRE_PADDING, at + available + CONSUME_POST_PADDING);
        KeptWider(mid, buf[..], src, src + length, at - CONSUME_PRE_PADDING, at + available + CONSUME_POST_PADDING);
        KeptTwice(was, mid, buf[..], at - CONSUME_PRE_PADDING, at + available + CONSUME_POST_PADDING);
      } else {
        var more, src, length := ConsumeContinuation(chunk, buf, at, available);
        ghost var mid := buf[..];
        KeptWider(was, mid, at, at + available + CONSUME_POST_PADDING,
                  at - CONSUME_PRE_PADDING, at + available + CONSUME_POST_PADDING);
        if more {
          ParseHeads(buf[..][src..src + length], buf, src, length);
          KeptWider(mid, buf[..], src, src + length, at - CONSUME_PRE_PADDING, at + available + CONSUME_POST_PADDING);
          KeptTwice(was, mid, buf[..], at - CONSUME_PRE_PADDING, at + available + CONSUME_POST_PADDING);
        }
      }
    }

    static lemma PatchedInFront(was: seq<byte>, src: nat, p: seq<byte>, n: nat)
      requires src + |p| + n <= |was|
      ensures Patch(was, src, p)[src..src + |p| + n] == p + was[src + |p|..src + |p| + n]
      ensures Kept(was, Patch(was, src, p), src, src + |p|)
    {
    }

    /** A receiver in the middle of a head is one between heads that has been fed the octets it remembers. */
    static lemma SpilledHead(ctx: Context, st: Receiver, spilled: seq<byte>, chunk: seq<byte>)
      requires st.Live? && st.phase == Head([]) && ReceiveSpec.Valid(ctx, st.(phase := Head(spilled)))
      ensures ReceiveSpec.Valid(ctx, st)
      ensures Run(ctx, st, spilled + chunk) == Run(ctx, st.(phase := Head(spilled)), chunk)
    {
      hide Run, RefusedHead;
      assert [] + spilled == spilled;
      RunPartialHead(ctx, st, [], spilled);
      RunConcat(ctx, st, spilled, chunk);
    }

    /** Data from the socket. Nothing is read any more once the WebSocket is ended or its socket closed. */
    method OnData(buf: array<byte>, at: nat, available: nat)
      requires Valid() && Separate(buf)
      requires CONSUME_PRE_PADDING <= at && at + available + CONSUME_POST_PADDING <= buf.Length
      modifies this, spill, opCode, mask, buf
      ensures Valid() && Abs() == Run(ctx, old(Abs()), old(buf[at..at + available]))
      ensures Kept(old(buf[..]), buf[..], at - CONSUME_PRE_PADDING, at + available + CONSUME_POST_PADDING)
    {
      hide ReceiveSpec.Valid, Run, Kept;
      if isShuttingDown || isClosed {
        RunGone(ctx, Abs(), buf[at..at + available]);
        NothingTouched(buf[..], at - CONSUME_PRE_PADDING, at + available + CONSUME_POST_PADDING);
        return;
      }
      Consume(buf, at, available);
    }

    /** The socket became writable and its buffer went from `before` to `after` octets. */
    method OnWritable(before: nat, after: nat)
      requires Valid()
      modifies `isClosed, `isShuttingDown, `log
      ensures Valid()
      ensures Abs() == if old(Abs()).Live? && (before == 0 || before > after) then Emit(ctx, old(Abs()), Drained)
                       else old(Abs())
    {
      hide ReceiveSpec.Valid;
      EmitIsValid();
      if Open() && (before == 0 || before > after) {
        var _ := CallHandler(Drained);
      }
    }

    lemma EmitIsValid()
      requires Valid()
      ensures Open() ==> ReceiveSpec.Valid(ctx, Emit(ctx, Abs(), Drained))
    {
      hide Report;
    }

    /** The socket was closed by the peer, by a timeout or by the application. */
    method OnClose(why: string)
      requires Valid()
      modifies `isClosed, `log
      ensures Valid() && isClosed
      ensures Abs() == if old(Abs()).Live? then Abort(old(Abs()), why) else old(Abs())
    {
      ForceClose(why);
    }

    /** The application ends the WebSocket. */
    method OnUserEnd(code: nat, reason: seq<byte>)
      requires Valid()
      modifies `isShuttingDown, `log
      ensures Valid()
      ensures Abs() == if old(Abs()).Live? then Gone(old(log) + [Closed(code, reason)]) else old(Abs())
    {
      if Open() {
        End(code, reason);
      }
    }
  }

  /**
   A whole connection: chunks arrive in receive buffers with the padding the parser asks for. How the stream
   was cut into chunks cannot be told from what the handlers see.
   */
  method Receive(ctx: Context, chunks: seq<seq<byte>>) returns (ws: WebSocketData)
    ensures ws.ctx == ctx && ws.Valid()
    ensures ReceiveSpec.Valid(ctx, FRESH)
    ensures ws.Abs() == Run(ctx, FRESH, Flatten(chunks))
  {
    hide ReceiveSpec.Valid, Run, RunChunks, Kept;
    FreshIsValid(ctx);
    ws := new WebSocketData(ctx);
    for i := 0 to |chunks|
      invariant fresh(ws) && fresh(ws.spill) && fresh(ws.opCode) && fresh(ws.mask)
      invariant ws.ctx == ctx && ws.Valid()
      invariant RunChunks(ctx, ws.Abs(), chunks[i..]) == RunChunks(ctx, FRESH, chunks)
    {
      FirstChunk(ctx, ws.Abs(), chunks[i..]);
      assert chunks[i..][0] == chunks[i] && chunks[i..][1..] == chunks[i + 1..];
      Feed(ws, chunks[i]);
    }
    assert chunks[|chunks|..] == [];
    NoChunks(ctx, ws.Abs());
    RunChunksIsRun(ctx, FRESH, chunks);
  }

  /** One chunk arrives in a receive buffer of its own. */
  method Feed(ws: WebSocketData, chunk: seq<byte>)
    requires ws.Valid()
    modifies ws, ws.spill, ws.opCode, ws.mask
    ensures ws.Valid()
    ensures ws.Abs() == Run(ws.ctx, old(ws.Abs()), chunk)
  {
    hide ReceiveSpec.Valid, Run, Kept;
    var buf := new byte[CONSUME_PRE_PADDING + |chunk| + CONSUME_POST_PADDING];
    FillBuffer(buf, chunk);
    ws.OnData(buf, CONSUME_PRE_PADDING, |chunk|);
  }

  lemma NoChunks(ctx: Context, st: Receiver)
    requires ReceiveSpec.Valid(ctx, st)
    ensures RunChunks(ctx, st, []) == st
  {
  }

  lemma FirstChunk(ctx: Context, st: Receiver, chunks: seq<seq<byte>>)
    requires ReceiveSpec.Valid(ctx, st) && chunks != []
    ensures RunChunks(ctx, st, chunks) == RunChunks(ctx, Run(ctx, st, chunks[0]), chunks[1..])
  {
    hide ReceiveSpec.Valid, Run;
  }

  method FillBuffer(buf: array<byte>, chunk: seq<byte>)
    requires buf.Length == CONSUME_PRE_PADDING + |chunk| + CONSUME_POST_PADDING
    modifies buf
    ensures buf[CONSUME_PRE_PADDING..CONSUME_PRE_PADDING + |chunk|] == chunk
  {
    for i := 0 to |chunk|
      invariant forall j :: 0 <= j < i ==> buf[CONSUME_PRE_PADDING + j] == chunk[j]
    {
      buf[CONSUME_PRE_PADDING + i] := chunk[i];
    }
  }
}
