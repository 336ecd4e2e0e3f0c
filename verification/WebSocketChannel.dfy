/** A WebSocket as far as its connection is concerned: the receiver and the socket, run together. */
module WebSocketChannels {
  import opened Bytes
  import opened Frames
  import opened FrameFormat
  import opened ReceiveSpec
  import opened Lifecycle
  import opened WebSocketReceive
  import opened AsyncSockets
  import L = WebSocketLinks
  import S = SocketSpec
  import Unmasking

  class Channel {
    const data: WebSocketData
    const socket: AsyncSocket
    const maxBackpressure: nat
    var finSent: bool

    /** The receiver and the loop share no buffer. */
    predicate Apart() {
      && data.spill != socket.loop.corkBuffer && data.mask != socket.loop.corkBuffer
      && data.opCode as object != socket.loop.corkBuffer
    }

    ghost predicate Valid()
      reads this, data, data.spill, data.opCode, data.mask, socket, socket.loop, socket.loop.corkBuffer
    {
      Apart() && data.Valid() && socket.Valid() && L.Fine(data.ctx, L.Link(data.Abs(), socket.Now(), finSent))
    }

    predicate Open()
      reads data
    {
      data.Open()
    }

    /** The connection as a value. */
    ghost function Now(): (l: L.Link)
      requires Valid()
      reads this, data, data.spill, data.opCode, data.mask, socket, socket.loop, socket.loop.corkBuffer
      ensures L.Fine(data.ctx, l) && (l.receiver.Live? <==> Open()) && l.socket.closed == socket.isClosed
    {
      L.Link(data.Abs(), socket.Now(), finSent)
    }

    constructor (ctx: Context, loop: LoopData, ssl: bool, kernel: seq<nat>, maxBackpressure: nat)
      requires loop.corkBuffer.Length == CORK_BUFFER_SIZE && loop.corkOffset <= CORK_BUFFER_SIZE
      requires loop.corkedSocket == null ==> loop.corkOffset == 0
      ensures Valid() && data.ctx == ctx && this.maxBackpressure == maxBackpressure
      ensures fresh(data) && fresh(data.spill) && fresh(data.opCode) && fresh(data.mask) && fresh(socket)
      ensures socket.loop == loop && Now() == L.Begun(kernel, ssl, loop.corkBuffer[..loop.corkOffset],
                                                      loop.corkedSocket == null)
    {
      hide Good, WebSocketData.Abs, ReceiveSpec.Valid;
      FreshIsGood(ctx);
      GoodIsValid(ctx, FRESH);
      data := new WebSocketData(ctx);
      socket := new AsyncSocket(loop, ssl, kernel);
      this.maxBackpressure, finSent := maxBackpressure, false;
    }

    // ---- Answers ----

    ghost function Sent(): (o: L.Sent)
      requires socket.Fits()
      reads `finSent, socket, socket.loop, socket.loop.corkBuffer
    {
      L.Sent(socket.Now(), finSent)
    }

    /** `end` as far as the socket is concerned: the close frame, and FIN if that has been sent without a cork. */
    method SendClose(code: nat, reason: seq<byte>)
      requires socket.Valid()
      modifies `finSent, socket`buffer, socket`wire, socket`kernel, socket.loop, socket.loop.corkBuffer
      ensures socket.Valid()
      ensures Sent() == L.AnswerOne(old(Sent()), Closed(code, reason), maxBackpressure)
    {
      hide ClosePayload, ToNetwork, Pow256, ServerWire, S.Send, S.SendFails, S.SendAccepts, S.StaysOn;
      var length := if |reason| < L.MAX_CLOSE_PAYLOAD then |reason| else L.MAX_CLOSE_PAYLOAD;
      assert reason[..|reason|] == reason;
      L.CloseIsProper(code, reason, maxBackpressure);
      S.DoKeepsValid(socket.Now(), AsOp(L.CloseOp(code, reason, maxBackpressure)));
      var closePayload := new byte[L.MAX_CLOSE_PAYLOAD + 2];
      var message := FormatClose(closePayload, code % 0x1_0000, reason[..length]);
      var ok := socket.Send(message, CLOSE, L.NO_MASK, maxBackpressure);
      if !socket.IsCorked() {
        if ok {
          finSent := true;
        }
      }
    }

    method FormatClose(closePayload: array<byte>, code: nat, reason: seq<byte>) returns (message: seq<byte>)
      requires code < 0x1_0000 && |reason| + 2 <= closePayload.Length
      modifies closePayload
      ensures message == ClosePayload(code, reason)
    {
      hide ClosePayload;
      ghost var was := closePayload[..];
      var written := FormatClosePayload(closePayload, code, reason);
      PatchedFront(was, ClosePayload(code, reason));
      message := closePayload[..][..written];
    }

    /** Answers one event: a ping with a pong, the end with a close frame; an abort closes the socket. */
    method AnswerOne(e: Event)
      requires socket.Valid() && EventFits(data.ctx, e)
      modifies `finSent, socket, socket.loop, socket.loop.corkBuffer
      ensures socket.Valid() && Sent() == L.AnswerOne(old(Sent()), e, maxBackpressure)
    {
      hide Pow256, ServerWire, S.Send, S.SendFails, S.SendAccepts, S.StaysOn, L.CloseOp, EventFits;
      L.ReplyIsProper(data.ctx, e, maxBackpressure);
      if e.Ping? {
        S.DoKeepsValid(socket.Now(), AsOp(Sends(e.payload, PONG, L.NO_MASK, maxBackpressure)));
        assert Proper(L.Reply(e, maxBackpressure)[0]);
        var _ := socket.Send(e.payload, PONG, L.NO_MASK, maxBackpressure);
      } else if e.Closed? {
        SendClose(e.code, e.reason);
      } else if e.Aborted? {
        socket.Close();
      }
    }

    /** Answers what has been reported since the log had `n` entries. */
    method Answer(n: nat)
      requires socket.Valid() && n <= |data.log| && forall i :: 0 <= i < |data.log| ==> EventFits(data.ctx, data.log[i])
      modifies `finSent, socket, socket.loop, socket.loop.corkBuffer
      ensures socket.Valid() && Sent() == L.Answered(old(Sent()), data.log[n..], maxBackpressure)
    {
      hide EventFits, L.AnswerOne;
      ghost var o := Sent();
      assert data.log[n..][..0] == [];
      for i := n to |data.log|
        invariant socket.Valid() && Sent() == L.Answered(o, data.log[n..][..i - n], maxBackpressure)
      {
        TakeMore(data.log[n..], i - n);
        AnswerOne(data.log[i]);
      }
      assert data.log[n..][..|data.log| - n] == data.log[n..];
    }

    // ---- Events ----

    /** The receive buffer is none of the others. */
    predicate ApartFrom(buf: array<byte>) {
      data.Separate(buf) && buf != socket.loop.corkBuffer && buf as object != data.opCode
    }

    /** The receiver has acted on `i`; what it has reported is still to be answered. */
    method React(n: nat, ghost l: L.Link, ghost i: Input)
      requires Apart() && data.Valid() && socket.Valid() && !socket.isClosed && n == |l.receiver.log|
      requires L.Fine(data.ctx, l) && l.receiver.Live? && ReceiveSpec.Valid(data.ctx, l.receiver)
      requires data.Abs() == Act(data.ctx, l.receiver, i) && finSent == l.finSent
      modifies `finSent, socket, socket.loop, socket.loop.corkBuffer
      ensures Valid() && Now() == L.Reacted(data.ctx, l, i, old(socket.Now()), maxBackpressure)
    {
      hide Act, Good, EventFits, L.Answered, ReceiveSpec.Valid, WebSocketData.Valid;
      L.News(data.ctx, l.receiver, i);
      L.ReactedIsFine(data.ctx, l, i, socket.Now(), maxBackpressure);
      Logged();
      GoodFits(data.ctx, Act(data.ctx, l.receiver, i));
      Answer(n);
    }

    lemma Logged()
      requires data.Valid()
      ensures data.Abs().log == data.log
    {
    }

    /** Data from the socket. In shutdown nothing is looked at any more. */
    method OnData(buf: array<byte>, at: nat, available: nat)
      requires Valid() && !socket.isClosed && ApartFrom(buf)
      requires CONSUME_PRE_PADDING <= at && at + available + CONSUME_POST_PADDING <= buf.Length
      modifies `finSent, data, data.spill, data.opCode, data.mask, buf, socket, socket.loop, socket.loop.corkBuffer
      ensures Valid()
      ensures Now() == L.OnData(data.ctx, old(Now()), old(buf[at..at + available]), maxBackpressure)
    {
      hide Act, Good, L.Reacted, L.Released, WebSocketData.Valid, ReceiveSpec.Valid;
      if data.isShuttingDown || data.isClosed {
        return;
      }
      ghost var l, bytes := Now(), buf[at..at + available];
      GoodIsValid(data.ctx, l.receiver);
      Logged();
      var n := |data.log|;
      Receive(buf, at, available);
      React(n, l, Data(bytes));
      Release();
    }

    /** Data for an open socket, which is corked first. */
    method Receive(buf: array<byte>, at: nat, available: nat)
      requires Valid() && Open() && !socket.isClosed && ApartFrom(buf)
      requires CONSUME_PRE_PADDING <= at && at + available + CONSUME_POST_PADDING <= buf.Length
      modifies data, data.spill, data.opCode, data.mask, buf, socket.loop`corkedSocket
      ensures Apart() && data.Valid() && socket.Valid()
      ensures socket.Now() == old(socket.Now()).(holder := S.Me)
      ensures ReceiveSpec.Valid(data.ctx, old(data.Abs()))
      ensures data.Abs() == Act(data.ctx, old(data.Abs()), Data(old(buf[at..at + available])))
    {
      hide Run, Good, ReceiveSpec.Valid;
      socket.Cork();
      data.OnData(buf, at, available);
    }

    /** Takes the cork off, and sends FIN if everything has left that was to be said. */
    method Release()
      requires Valid()
      modifies `finSent, socket`buffer, socket`wire, socket`kernel, socket.loop, socket.loop.corkBuffer
      ensures Valid() && Now() == L.Released(old(Now()))
    {
      hide Good, ReceiveSpec.Valid, WebSocketData.Valid, WebSocketData.Abs, S.Uncork, S.UncorkReports, S.Stream;
      L.ReleasedIsFine(data.ctx, Now());
      S.DoKeepsValid(socket.Now(), S.Uncorks([], false));
      var _, _ := socket.Uncork([], false);
      if !socket.isClosed && socket.buffer == [] && !Open() {
        finSent := true;
      }
    }

    /** The socket can be written to: what is buffered is tried again, and whoever waits for that is told. */
    method OnWritable()
      requires Valid() && !socket.isClosed
      modifies `finSent, data, socket, socket.loop, socket.loop.corkBuffer
      ensures Valid() && Now() == L.OnWritable(data.ctx, old(Now()), maxBackpressure)
    {
      hide Act, Good, L.Reacted, WebSocketData.Valid, WebSocketData.Abs, ReceiveSpec.Valid, S.Write;
      if finSent {
        return;
      }
      ghost var l := Now();
      GoodIsValid(data.ctx, l.receiver);
      var before := |socket.buffer|;
      Resume();
      var after := |socket.buffer|;
      if !Open() {
        if |socket.buffer| == 0 {
          finSent := true;
        }
        return;
      }
      Logged();
      var n := |data.log|;
      data.OnWritable(before, after);
      DrainedIsAct(data.ctx, l.receiver, before, after);
      React(n, l, Writable(before, after));
    }

    /** Writes nothing, and so as much of what is buffered as the kernel takes. */
    method Resume()
      requires Valid() && !socket.isClosed
      modifies socket`buffer, socket`wire, socket`kernel, socket.loop, socket.loop.corkBuffer
      ensures Valid() && Now() == old(Now()).(socket := L.Resumed(old(Now())))
    {
      hide Good, WebSocketData.Valid, WebSocketData.Abs, ReceiveSpec.Valid, S.Write, S.Stream, S.Reports, S.Fails,
           S.Overtakes, S.Corked;
      L.ClosesOnly(socket.Now(), S.Writes([], false));
      S.DoKeepsValid(socket.Now(), S.Writes([], false));
      var _, _ := socket.Write([], false);
    }

    /** The socket is closed, by whomever. */
    method OnClose(why: string)
      requires Valid() && !socket.isClosed
      modifies data, socket`isClosed
      ensures Valid() && Now() == L.OnClose(data.ctx, old(Now()), why)
    {
      hide Good, ReceiveSpec.Valid, L.OnData, L.OnWritable, L.OnUserEnd;
      ghost var l := Now();
      GoodIsValid(data.ctx, l.receiver);
      L.EventsKeepFine(data.ctx, l, [], 0, [], why, maxBackpressure);
      data.OnClose(why);
      socket.Close();
    }

    /** The application ends the WebSocket, which counts once. */
    method OnUserEnd(code: nat, reason: seq<byte>)
      requires Valid() && !socket.isClosed
      modifies `finSent, data, socket, socket.loop, socket.loop.corkBuffer
      ensures Valid() && Now() == L.OnUserEnd(data.ctx, old(Now()), code, reason, maxBackpressure)
    {
      hide Good, ReceiveSpec.Valid, WebSocketData.Valid, L.Reacted;
      if Open() {
        ghost var l := Now();
        GoodIsValid(data.ctx, l.receiver);
        Logged();
        var n := |data.log|;
        data.OnUserEnd(code, reason);
        React(n, l, UserEnd(code, reason));
      }
    }
  }

  lemma GoodFits(ctx: Context, st: Receiver)
    requires Good(ctx, st)
    ensures forall i :: 0 <= i < |st.log| ==> EventFits(ctx, st.log[i])
  {
  }

  lemma DrainedIsAct(ctx: Context, st: Receiver, before: nat, after: nat)
    requires ReceiveSpec.Valid(ctx, st) && st.Live?
    ensures Act(ctx, st, Writable(before, after))
         == if before == 0 || before > after then Emit(ctx, st, Drained) else st
  {
  }

  lemma TakeMore(s: seq<Event>, i: nat)
    requires i < |s|
    ensures s[..i + 1][..i] == s[..i] && s[..i + 1][i] == s[i]
  {
  }

  lemma PatchedFront(s: seq<byte>, p: seq<byte>)
    requires |p| <= |s|
    ensures Unmasking.Patch(s, 0, p)[..|p|] == p
  {
  }
}
