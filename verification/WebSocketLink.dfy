/** The connection of a WebSocket as a value: what each event makes of receiver, socket and FIN. */
module WebSocketLinks {
  import opened Bytes
  import opened Utf8
  import opened Frames
  import opened FrameFormat
  import opened ReceiveSpec
  import opened Lifecycle
  import opened AsyncSockets
  import S = SocketSpec

  const MAX_CLOSE_PAYLOAD: nat := 123

  /** The masking key of a server's frames, which is not used. */
  const NO_MASK: seq<byte> := [0, 0, 0, 0]

  // ---- Answers ----

  /** The close frame of `end`: the code in 16 bits, the reason cut to 123 octets. */
  function CloseOp(code: nat, reason: seq<byte>, maxBackpressure: nat): SocketOp {
    var cut := if |reason| < MAX_CLOSE_PAYLOAD then reason else reason[..MAX_CLOSE_PAYLOAD];
    Sends(ClosePayload(code % 0x1_0000, cut), CLOSE, NO_MASK, maxBackpressure)
  }

  lemma SmallPayload(payload: seq<byte>)
    requires |payload| <= MAX_CONTROL
    ensures |payload| < Pow256(8)
  {
    assert Pow256(8) == 256 * Pow256(7) >= 256;
  }

  lemma CloseIsProper(code: nat, reason: seq<byte>, maxBackpressure: nat)
    ensures Proper(CloseOp(code, reason, maxBackpressure))
  {
    hide Pow256, ToNetwork;
    SmallPayload(CloseOp(code, reason, maxBackpressure).message);
  }

  /** What answers an event: a pong a ping, and a close frame the end; an abort closes the socket. */
  function Reply(e: Event, maxBackpressure: nat): (ops: seq<SocketOp>) {
    match e
    case Ping(payload) => [Sends(payload, PONG, NO_MASK, maxBackpressure)]
    case Closed(code, reason) => [CloseOp(code, reason, maxBackpressure)]
    case Aborted(_) => [Shuts]
    case _ => []
  }

  function Replies(events: seq<Event>, maxBackpressure: nat): (ops: seq<SocketOp>) {
    if events == [] then []
    else Replies(events[..|events| - 1], maxBackpressure) + Reply(events[|events| - 1], maxBackpressure)
  }

  lemma ReplyIsProper(ctx: Context, e: Event, maxBackpressure: nat)
    requires EventFits(ctx, e)
    ensures AllProper(Reply(e, maxBackpressure))
  {
    hide Pow256, ValidUtf8, CloseOp;
    if e.Ping? {
      SmallPayload(e.payload);
    } else if e.Closed? {
      CloseIsProper(e.code, e.reason, maxBackpressure);
    }
  }

  lemma {:induction false} RepliesAreProper(ctx: Context, events: seq<Event>, maxBackpressure: nat)
    requires forall i :: 0 <= i < |events| ==> EventFits(ctx, events[i])
    ensures AllProper(Replies(events, maxBackpressure))
  {
    hide Proper, EventFits, Reply;
    if events != [] {
      RepliesAreProper(ctx, events[..|events| - 1], maxBackpressure);
      ReplyIsProper(ctx, events[|events| - 1], maxBackpressure);
    }
  }

  // ---- Links ----

  datatype Link = Link(receiver: Receiver, socket: S.Socket<byte>, finSent: bool)

  /** A closed socket, or one on which FIN has been sent, has no receiver any more; an abort closes the socket. */
  predicate Fine(ctx: Context, l: Link) {
    && Good(ctx, l.receiver) && S.Valid(l.socket)
    && (l.socket.closed || l.finSent ==> l.receiver.Gone?)
    && (SaysAborted(l.receiver) ==> l.socket.closed)
  }

  /** What becomes of socket and FIN. */
  datatype Sent = Sent(socket: S.Socket<byte>, finSent: bool)

  /** FIN follows a close frame that has been sent, or skipped, without a cork. */
  function AnswerOne(o: Sent, e: Event, maxBackpressure: nat): (r: Sent)
    requires S.Valid(o.socket)
    ensures S.Valid(r.socket)
  {
    var ops := Reply(e, maxBackpressure);
    if ops == [] then o
    else
      S.DoKeepsValid(o.socket, AsOp(ops[0]));
      var d := S.Do(o.socket, AsOp(ops[0]));
      Sent(d.socket, o.finSent || (e.Closed? && !d.socket.holder.Me? && !d.failed))
  }

  function Answered(o: Sent, events: seq<Event>, maxBackpressure: nat): (r: Sent)
    requires S.Valid(o.socket)
    ensures S.Valid(r.socket)
  {
    if events == [] then o
    else AnswerOne(Answered(o, events[..|events| - 1], maxBackpressure), events[|events| - 1], maxBackpressure)
  }

  /** The receiver has acted on `i`, and what it has reported is answered on `socket`. */
  function Reacted(ctx: Context, l: Link, i: Input, socket: S.Socket<byte>, maxBackpressure: nat): (r: Link)
    requires ReceiveSpec.Valid(ctx, l.receiver) && S.Valid(socket)
    ensures S.Valid(r.socket) && r.receiver == Act(ctx, l.receiver, i)
  {
    var receiver := Act(ctx, l.receiver, i);
    ActGrows(ctx, l.receiver, i);
    var o := Answered(Sent(socket, l.finSent), receiver.log[|l.receiver.log|..], maxBackpressure);
    Link(receiver, o.socket, o.finSent)
  }

  /** The cork is taken off, and FIN sent if everything has left that was to be said. */
  function Released(l: Link): (r: Link)
    requires S.Valid(l.socket)
    ensures S.Valid(r.socket)
  {
    S.DoKeepsValid(l.socket, S.Uncorks([], false));
    var t := S.Uncork(l.socket, [], false).socket;
    Link(l.receiver, t, l.finSent || (!t.closed && t.buffer == [] && l.receiver.Gone?))
  }

  /** A new connection in a loop, whose cork may be another socket's. */
  function Begun(kernel: seq<nat>, ssl: bool, cork: seq<byte>, free: bool): Link {
    Link(FRESH, S.Socket([], [], kernel, ssl, false, cork, if free then S.Nobody else S.Another), false)
  }

  // ---- Events ----

  /** Data comes: the socket takes the cork, whoever has it; in shutdown nothing is looked at. */
  function OnData(ctx: Context, l: Link, bytes: seq<byte>, maxBackpressure: nat): (r: Link)
    requires Fine(ctx, l)
    ensures S.Valid(r.socket)
  {
    GoodIsValid(ctx, l.receiver);
    if l.receiver.Gone? then l
    else
      Released(Reacted(ctx, l, Data(bytes), l.socket.(holder := S.Me), maxBackpressure))
  }

  /** What is still buffered when the socket has been written to again. */
  function Resumed(l: Link): (t: S.Socket<byte>)
    requires S.Valid(l.socket)
    ensures S.Valid(t)
  {
    S.DoKeepsValid(l.socket, S.Writes([], false));
    S.Write(l.socket, [], false).socket
  }

  /** The socket can be written to again; after FIN nobody cares. */
  function OnWritable(ctx: Context, l: Link, maxBackpressure: nat): (r: Link)
    requires Fine(ctx, l)
    ensures S.Valid(r.socket)
  {
    GoodIsValid(ctx, l.receiver);
    if l.finSent then l
    else
      var t := Resumed(l);
      if l.receiver.Gone? then Link(l.receiver, t, t.buffer == [])
      else Reacted(ctx, l, Writable(|l.socket.buffer|, |t.buffer|), t, maxBackpressure)
  }

  /** The socket is closed, by whomever. */
  function OnClose(ctx: Context, l: Link, why: string): (r: Link)
    requires Fine(ctx, l)
    ensures S.Valid(r.socket)
  {
    GoodIsValid(ctx, l.receiver);
    Link(Act(ctx, l.receiver, SocketClosed(why)), l.socket.(closed := true), l.finSent)
  }

  /** The application ends the WebSocket. */
  function OnUserEnd(ctx: Context, l: Link, code: nat, reason: seq<byte>, maxBackpressure: nat): (r: Link)
    requires Fine(ctx, l)
    ensures S.Valid(r.socket)
  {
    GoodIsValid(ctx, l.receiver);
    if l.receiver.Gone? then l
    else Reacted(ctx, l, UserEnd(code, reason), l.socket, maxBackpressure)
  }

  /**
   A writable socket: the drain handler is told, before anything that this causes, if and only if nothing was buffered
   or some of what was has left; otherwise nothing is reported and nothing sent.
   */
  lemma DrainIsTold(ctx: Context, l: Link, max: nat)
    requires Fine(ctx, l) && l.receiver.Live?
    ensures var (r, t) := (OnWritable(ctx, l, max), Resumed(l));
            if |l.socket.buffer| == 0 || |t.buffer| < |l.socket.buffer|
            then l.receiver.log + [Drained] <= r.receiver.log
            else r == l.(socket := t)
  {
    hide Good, S.Write, AnswerOne, ReceiveSpec.Valid;
    GoodIsValid(ctx, l.receiver);
    var t := Resumed(l);
    var i := Writable(|l.socket.buffer|, |t.buffer|);
    var news := Act(ctx, l.receiver, i).log[|l.receiver.log|..];
    if !(|l.socket.buffer| == 0 || |t.buffer| < |l.socket.buffer|) {
      assert news == [];
      assert Answered(Sent(t, l.finSent), [], max) == Sent(t, l.finSent);
    }
  }

  // ---- What they keep ----

  lemma AsOpCloses(e: Event, maxBackpressure: nat)
    ensures Reply(e, maxBackpressure) != [] ==> (AsOp(Reply(e, maxBackpressure)[0]).Shuts? <==> e.Aborted?)
    ensures |Reply(e, maxBackpressure)| <= 1
  {
    hide Pow256, ServerWire;
  }

  /** Answers close the socket exactly for an abort. */
  lemma {:induction false} AnsweredCloses(o: Sent, events: seq<Event>, maxBackpressure: nat)
    requires S.Valid(o.socket)
    ensures var r := Answered(o, events, maxBackpressure);
            && (r.socket.closed <==> o.socket.closed || exists i :: 0 <= i < |events| && events[i].Aborted?)
            && (r.finSent ==> o.finSent || exists i :: 0 <= i < |events| && events[i].Closed?)
            && (o.finSent ==> r.finSent)
  {
    hide Reply, S.Do, AsOp;
    if events != [] {
      var n := |events| - 1;
      AnsweredCloses(o, events[..n], maxBackpressure);
      AsOpCloses(events[n], maxBackpressure);
      var m := Answered(o, events[..n], maxBackpressure);
      if Reply(events[n], maxBackpressure) != [] {
        ClosesOnly(m.socket, AsOp(Reply(events[n], maxBackpressure)[0]));
      }
      NoReply(events[n], maxBackpressure);
    }
  }

  lemma NoReply(e: Event, maxBackpressure: nat)
    ensures Reply(e, maxBackpressure) == [] ==> !e.Aborted? && !e.Closed?
  {
  }

  lemma ClosesOnly(s: S.Socket<byte>, op: S.Op<byte>)
    requires S.Valid(s)
    ensures S.Do(s, op).socket.closed <==> s.closed || op.Shuts?
  {
    hide S.Write, S.Uncork, S.Send;
    match op
    case Corks =>
    case Shuts =>
    case Writes(src, optionally) => S.WriteMeans(s, src, optionally);
    case Uncorks(src, optionally) => S.UncorkMeans(s, src, optionally);
    case Sends(frame, maxBackpressure) =>
      if s.closed {
        S.ClosedSend(s, frame, maxBackpressure);
      } else {
        S.SendMeans(s, frame, maxBackpressure);
      }
  }

  lemma {:induction false} NoCloseInside(log: seq<Event>, i: nat)
    requires Closes(log) == 0 && i < |log|
    ensures !IsClose(log[i])
    decreases |log|
  {
    if i < |log| - 1 {
      NoCloseInside(log[..|log| - 1], i);
    }
  }

  /** What has been reported of late, and what it says of the receiver. */
  lemma News(ctx: Context, st: Receiver, i: Input)
    requires Good(ctx, st) && st.Live?
    ensures ReceiveSpec.Valid(ctx, st) && |st.log| <= |Act(ctx, st, i).log| && Good(ctx, Act(ctx, st, i))
    ensures var r := Act(ctx, st, i);
            var news := r.log[|st.log|..];
            && (forall k :: 0 <= k < |news| ==> EventFits(ctx, news[k]))
            && (r.Live? ==> forall k :: 0 <= k < |news| ==> !IsClose(news[k]))
            && (SaysAborted(r) <==> exists k :: 0 <= k < |news| && news[k].Aborted?)
  {
    hide Act, EventFits, ReceiveSpec.Valid, Closes;
    GoodIsValid(ctx, st);
    ActGrows(ctx, st, i);
    ActKeeps(ctx, st, i);
    var r := Act(ctx, st, i);
    var news := r.log[|st.log|..];
    if r.Live? {
      forall k | 0 <= k < |news| ensures !IsClose(news[k]) {
        NoCloseInside(r.log, |st.log| + k);
      }
    } else {
      GoneBy(ctx, st, i);
      var n := |news| - 1;
      assert news[n] == r.log[|r.log| - 1];
      forall k | 0 <= k < n ensures !IsClose(news[k]) {
        assert news[k] == r.log[..|r.log| - 1][|st.log| + k];
        NoCloseInside(r.log[..|r.log| - 1], |st.log| + k);
      }
    }
  }

  lemma ReactedIsFine(ctx: Context, l: Link, i: Input, socket: S.Socket<byte>, maxBackpressure: nat)
    requires Fine(ctx, l) && l.receiver.Live? && S.Valid(socket) && !socket.closed
    ensures ReceiveSpec.Valid(ctx, l.receiver) && Fine(ctx, Reacted(ctx, l, i, socket, maxBackpressure))
    ensures var r := Reacted(ctx, l, i, socket, maxBackpressure); r.socket.closed <==> SaysAborted(r.receiver)
  {
    hide Act, Good, Answered, S.Valid;
    News(ctx, l.receiver, i);
    var news := Act(ctx, l.receiver, i).log[|l.receiver.log|..];
    AnsweredCloses(Sent(socket, l.finSent), news, maxBackpressure);
  }

  lemma ReleasedIsFine(ctx: Context, l: Link)
    requires Fine(ctx, l)
    ensures Fine(ctx, Released(l)) && Released(l).socket.closed == l.socket.closed
  {
    hide Good, S.Uncork;
    ClosesOnly(l.socket, S.Uncorks([], false));
  }

  /** What becomes of a link stays fine; and the socket is closed by an abort alone, unless it is told so. */
  lemma EventsKeepFine(ctx: Context, l: Link, bytes: seq<byte>, code: nat, reason: seq<byte>, why: string, max: nat)
    requires Fine(ctx, l) && !l.socket.closed
    ensures Fine(ctx, OnData(ctx, l, bytes, max)) && Fine(ctx, OnWritable(ctx, l, max))
    ensures Fine(ctx, OnClose(ctx, l, why)) && Fine(ctx, OnUserEnd(ctx, l, code, reason, max))
    ensures var r := OnData(ctx, l, bytes, max); r.socket.closed <==> SaysAborted(r.receiver)
    ensures var r := OnWritable(ctx, l, max); r.socket.closed <==> SaysAborted(r.receiver)
    ensures var r := OnUserEnd(ctx, l, code, reason, max); !r.socket.closed && r.receiver.Gone?
    ensures var r := OnClose(ctx, l, why); r.socket.closed && r.receiver.Gone?
  {
    hide Act, Good, S.Write, Released, Reacted, S.Valid;
    GoodIsValid(ctx, l.receiver);
    ClosesOnly(l.socket, S.Writes([], false));
    ActKeeps(ctx, l.receiver, SocketClosed(why));
    if l.receiver.Live? {
      TakenIsValid(l.socket);
      ReactedIsFine(ctx, l, Data(bytes), l.socket.(holder := S.Me), max);
      ReleasedIsFine(ctx, Reacted(ctx, l, Data(bytes), l.socket.(holder := S.Me), max));
      ReleasedKeepsReceiver(Reacted(ctx, l, Data(bytes), l.socket.(holder := S.Me), max));
      var t := Resumed(l);
      ReactedIsFine(ctx, l, Writable(|l.socket.buffer|, |t.buffer|), t, max);
      ReactedIsFine(ctx, l, UserEnd(code, reason), l.socket, max);
    }
    CloseAndEnd(ctx, l.receiver, code, reason, why);
  }

  lemma TakenIsValid(s: S.Socket<byte>)
    requires S.Valid(s)
    ensures S.Valid(s.(holder := S.Me))
  {
  }

  lemma ReleasedKeepsReceiver(l: Link)
    requires S.Valid(l.socket)
    ensures Released(l).receiver == l.receiver
  {
  }

  lemma CloseAndEnd(ctx: Context, st: Receiver, code: nat, reason: seq<byte>, why: string)
    requires ReceiveSpec.Valid(ctx, st)
    ensures Act(ctx, st, SocketClosed(why)).Gone? && Act(ctx, st, UserEnd(code, reason)).Gone?
    ensures !SaysAborted(st) ==> !SaysAborted(Act(ctx, st, UserEnd(code, reason)))
  {
    hide ReceiveSpec.Valid;
  }

  // ---- Answers leave ----

  lemma {:induction false} AnsweredRuns(o: Sent, events: seq<Event>, maxBackpressure: nat)
    requires S.Valid(o.socket)
    ensures Answered(o, events, maxBackpressure).socket == S.Runs(o.socket, AsOps(Replies(events, maxBackpressure)))
  {
    hide Reply, S.Do, AsOp;
    if events == [] {
      NoOps(o.socket);
    } else {
      var n := |events| - 1;
      AnsweredRuns(o, events[..n], maxBackpressure);
      AsOpCloses(events[n], maxBackpressure);
      var ops, more := Replies(events[..n], maxBackpressure), Reply(events[n], maxBackpressure);
      if more == [] {
        assert ops + more == ops;
      } else {
        assert more == [more[0]] && AsOps(ops + more) == AsOps(ops) + [AsOp(more[0])];
        S.RunsSnoc(o.socket, AsOps(ops), AsOp(more[0]));
      }
    }
  }

  /** What data makes the socket do: take the cork, answer everything that is reported, in order, take the cork off. */
  function DataOps(ctx: Context, l: Link, bytes: seq<byte>, maxBackpressure: nat): (ops: seq<SocketOp>)
    requires ReceiveSpec.Valid(ctx, l.receiver)
  {
    ActGrows(ctx, l.receiver, Data(bytes));
    [Corks] + Replies(Act(ctx, l.receiver, Data(bytes)).log[|l.receiver.log|..], maxBackpressure) + [Uncorks([], false)]
  }

  lemma DataRuns(ctx: Context, l: Link, bytes: seq<byte>, maxBackpressure: nat)
    requires Fine(ctx, l) && l.receiver.Live?
    ensures ReceiveSpec.Valid(ctx, l.receiver)
    ensures OnData(ctx, l, bytes, maxBackpressure).socket
         == S.Runs(l.socket, AsOps(DataOps(ctx, l, bytes, maxBackpressure)))
  {
    hide Act, Good, AsOp, Answered, Replies, S.Do;
    GoodIsValid(ctx, l.receiver);
    ActGrows(ctx, l.receiver, Data(bytes));
    var news := Act(ctx, l.receiver, Data(bytes)).log[|l.receiver.log|..];
    var t := l.socket.(holder := S.Me);
    TakenIsValid(l.socket);
    AnsweredRuns(Sent(t, l.finSent), news, maxBackpressure);
    FirstAndLast(l.socket, Replies(news, maxBackpressure));
  }

  lemma FirstAndLast(s: S.Socket<byte>, ops: seq<SocketOp>)
    requires S.Valid(s)
    ensures S.Runs(s, AsOps([Corks] + ops + [Uncorks([], false)]))
         == S.Uncork(S.Runs(s.(holder := S.Me), AsOps(ops)), [], false).socket
  {
    hide S.Uncork, AsOp;
    CorkAndUncork();
    assert AsOps([Corks] + ops) == [S.Corks] + AsOps(ops);
    assert AsOps([Corks] + ops + [Uncorks([], false)]) == AsOps([Corks] + ops) + [S.Uncorks([], false)];
    S.RunsSnoc(s, AsOps([Corks] + ops), S.Uncorks([], false));
    var first: seq<S.Op<byte>> := [S.Corks];
    S.RunsConcat(s, first, AsOps(ops));
    assert first[..0] == [];
    NoOps(s);
  }

  lemma CorkAndUncork()
    ensures AsOp(Corks) == S.Corks && AsOp(Uncorks([], false)) == S.Uncorks([], false)
  {
  }

  /** All frames that are sent in answer are sent under the limit. */
  predicate Limited(op: S.Op<byte>, maxBackpressure: nat) {
    op.Sends? ==> op.frame != [] && op.maxBackpressure == maxBackpressure
  }

  lemma {:induction false} RepliesLimited(ctx: Context, events: seq<Event>, maxBackpressure: nat)
    requires forall i :: 0 <= i < |events| ==> EventFits(ctx, events[i])
    ensures forall i :: 0 <= i < |Replies(events, maxBackpressure)| ==>
              Limited(AsOp(Replies(events, maxBackpressure)[i]), maxBackpressure)
  {
    hide EventFits, Reply, AsOp, Limited;
    if events != [] {
      var n := |events| - 1;
      RepliesLimited(ctx, events[..n], maxBackpressure);
      ReplyLimited(ctx, events[n], maxBackpressure);
    }
  }

  lemma ReplyLimited(ctx: Context, e: Event, maxBackpressure: nat)
    requires EventFits(ctx, e)
    ensures forall i :: 0 <= i < |Reply(e, maxBackpressure)| ==>
              Limited(AsOp(Reply(e, maxBackpressure)[i]), maxBackpressure)
  {
    hide Pow256, ValidUtf8, CloseOp, ServerWire;
    ReplyIsProper(ctx, e, maxBackpressure);
    if e.Ping? {
      ServerWireSize(PONG, e.payload);
    } else if e.Closed? {
      var op := CloseOp(e.code, e.reason, maxBackpressure);
      CloseIsProper(e.code, e.reason, maxBackpressure);
      CloseLimit(e.code, e.reason, maxBackpressure);
      ServerWireSize(CLOSE, op.message);
    }
  }

  lemma CloseLimit(code: nat, reason: seq<byte>, maxBackpressure: nat)
    ensures var op := CloseOp(code, reason, maxBackpressure);
            op.Sends? && op.opCode == CLOSE && op.maxBackpressure == maxBackpressure
  {
  }

  /**
   What data has the socket do. Every ping is answered by a pong and every close by a close frame, in order; and each
   of these frames joins the stream whole if and only if, when its turn comes, there is no more backpressure than the
   limit allows and it does not overflow a cork that cannot be sent off.
   */
  lemma AnswersJoin(ctx: Context, l: Link, bytes: seq<byte>, maxBackpressure: nat)
    requires Fine(ctx, l) && l.receiver.Live?
    ensures ReceiveSpec.Valid(ctx, l.receiver)
    ensures var ops := AsOps(DataOps(ctx, l, bytes, maxBackpressure));
            && OnData(ctx, l, bytes, maxBackpressure).socket == S.Runs(l.socket, ops)
            && (S.NoneShuts(ops) ==> S.Stream(S.Runs(l.socket, ops)) == S.Lined(l.socket, ops))
            && forall k :: 0 <= k < |ops| && S.NoneShuts(ops[..k]) && ops[k].Sends? ==>
                 var s := S.Runs(l.socket, ops[..k]);
                 S.Gains(s, ops[k]) == ops[k].frame <==>
                 !S.Full(s, maxBackpressure) && !S.Cuts(S.Taking(s), |ops[k].frame|)
  {
    hide Act, Good, AsOp, Replies, S.Runs, S.Lined, S.Stream, S.Gains, S.Full, S.Cuts, EventFits, S.NoneShuts;
    DataRuns(ctx, l, bytes, maxBackpressure);
    News(ctx, l.receiver, Data(bytes));
    var news := Act(ctx, l.receiver, Data(bytes)).log[|l.receiver.log|..];
    RepliesLimited(ctx, news, maxBackpressure);
    var all := DataOps(ctx, l, bytes, maxBackpressure);
    var ops := AsOps(all);
    if S.NoneShuts(ops) {
      S.RunsMean(l.socket, ops);
    }
    CorkAndUncork();
    forall k | 0 <= k < |ops| && S.NoneShuts(ops[..k]) && ops[k].Sends?
      ensures var s := S.Runs(l.socket, ops[..k]);
              S.Gains(s, ops[k]) == ops[k].frame <==>
              !S.Full(s, maxBackpressure) && !S.Cuts(S.Taking(s), |ops[k].frame|)
    {
      assert 0 < k < |ops| - 1 && all[k] == Replies(news, maxBackpressure)[k - 1];
      S.RunsMean(l.socket, ops[..k]);
      S.WholeOrCut(S.Runs(l.socket, ops[..k]), ops[k]);
    }
  }

  // ---- FIN ----

  /**
   The end by the application: the close frame is sent, and FIN if and only if the socket is not corked then and the
   frame has been skipped because of the limit, or sent without failure. FIN comes before octets that are still buffered
   exactly in the first case.
   */
  lemma EndMeans(ctx: Context, l: Link, code: nat, reason: seq<byte>, maxBackpressure: nat)
    requires Fine(ctx, l) && l.receiver.Live?
    ensures var r, op := OnUserEnd(ctx, l, code, reason, maxBackpressure), AsOp(CloseOp(code, reason, maxBackpressure));
            && op.Sends? && r.socket == S.Send(l.socket, op.frame, maxBackpressure).socket
            && (S.Gains(l.socket, op) == op.frame <==>
                !S.Full(l.socket, maxBackpressure) && !S.Cuts(S.Taking(l.socket), |op.frame|))
            && (r.finSent <==> !r.socket.holder.Me? && !S.SendFails(l.socket, |op.frame|, maxBackpressure))
            && (r.finSent ==> (r.socket.buffer != [] <==> S.Full(l.socket, maxBackpressure)))
  {
    hide Good, AsOp, S.Send, S.SendFails, S.Gains, S.Cuts, S.Taking, CloseOp;
    GoodIsValid(ctx, l.receiver);
    var op := AsOp(CloseOp(code, reason, maxBackpressure));
    CloseIsFrame(code, reason, maxBackpressure);
    var news := [Closed(code, reason)];
    EndIsNews(ctx, l.receiver, code, reason);
    assert news[..0] == [] && Answered(Sent(l.socket, l.finSent), news[..0], maxBackpressure)
                              == Sent(l.socket, l.finSent);
    S.SendMeans(l.socket, op.frame, maxBackpressure);
    S.WholeOrCut(l.socket, op);
  }

  lemma CloseIsFrame(code: nat, reason: seq<byte>, maxBackpressure: nat)
    ensures var op := AsOp(CloseOp(code, reason, maxBackpressure));
            op.Sends? && op.maxBackpressure == maxBackpressure && op.frame != []
  {
    hide Pow256, CloseOp, ServerWire;
    var op := CloseOp(code, reason, maxBackpressure);
    CloseIsProper(code, reason, maxBackpressure);
    CloseLimit(code, reason, maxBackpressure);
    ServerWireSize(CLOSE, op.message);
  }

  lemma EndIsNews(ctx: Context, st: Receiver, code: nat, reason: seq<byte>)
    requires ReceiveSpec.Valid(ctx, st) && st.Live?
    ensures Act(ctx, st, UserEnd(code, reason)).log[|st.log|..] == [Closed(code, reason)]
  {
  }

  lemma AnsweredFin(o: Sent, events: seq<Event>, maxBackpressure: nat)
    requires S.Valid(o.socket) && !o.socket.closed && !o.finSent
    requires forall i :: 0 <= i < |events| - 1 ==> !IsClose(events[i])
    ensures var r := Answered(o, events, maxBackpressure);
            r.finSent ==>
              && !r.socket.closed && !r.socket.holder.Me?
              && (r.socket.buffer == [] || S.Full(r.socket, maxBackpressure))
  {
    hide Reply, AsOp, S.Send, S.SendFails, CloseOp;
    if events != [] {
      var n := |events| - 1;
      AnsweredCloses(o, events[..n], maxBackpressure);
      var m, e := Answered(o, events[..n], maxBackpressure), events[n];
      if e.Closed? {
        var op := AsOp(CloseOp(e.code, e.reason, maxBackpressure));
        CloseIsReply(e.code, e.reason, maxBackpressure);
        CloseIsFrame(e.code, e.reason, maxBackpressure);
        S.SendMeans(m.socket, op.frame, maxBackpressure);
      }
    }
  }

  lemma CloseIsReply(code: nat, reason: seq<byte>, maxBackpressure: nat)
    ensures Reply(Closed(code, reason), maxBackpressure) == [CloseOp(code, reason, maxBackpressure)]
  {
  }

  /**
   Data that ends the WebSocket is followed by FIN when all has left; FIN comes before octets that are still buffered
   only if these are more than the limit allows.
   */
  lemma DataFin(ctx: Context, l: Link, bytes: seq<byte>, maxBackpressure: nat)
    requires Fine(ctx, l) && l.receiver.Live?
    ensures var r := OnData(ctx, l, bytes, maxBackpressure);
            && (r.finSent ==> !r.socket.holder.Me? && (r.socket.buffer == [] || S.Full(r.socket, maxBackpressure)))
            && (r.receiver.Gone? && !r.socket.closed && r.socket.buffer == [] ==> r.finSent)
  {
    hide Act, Good, Answered, S.Uncork;
    News(ctx, l.receiver, Data(bytes));
    var news := Act(ctx, l.receiver, Data(bytes)).log[|l.receiver.log|..];
    CloseIsLast(ctx, l.receiver, Data(bytes));
    TakenIsValid(l.socket);
    var o := Sent(l.socket.(holder := S.Me), l.finSent);
    AnsweredFin(o, news, maxBackpressure);
    S.UncorkMeans(Answered(o, news, maxBackpressure).socket, [], false);
  }

  lemma CloseIsLast(ctx: Context, st: Receiver, i: Input)
    requires Good(ctx, st) && st.Live?
    ensures ReceiveSpec.Valid(ctx, st) && st.log <= Act(ctx, st, i).log
    ensures var news := Act(ctx, st, i).log[|st.log|..]; forall k :: 0 <= k < |news| - 1 ==> !IsClose(news[k])
  {
    hide Act, ReceiveSpec.Valid, Closes;
    GoodIsValid(ctx, st);
    ActGrows(ctx, st, i);
    ActKeeps(ctx, st, i);
    var r := Act(ctx, st, i);
    var log := if r.Live? then r.log else r.log[..|r.log| - 1];
    forall k | |st.log| <= k < |log| ensures !IsClose(r.log[k]) {
      NoCloseInside(log, k);
    }
  }

  /** After FIN nothing leaves any more, and what is buffered stays so. */
  lemma NothingAfterFin(ctx: Context, l: Link, bytes: seq<byte>, code: nat, reason: seq<byte>, why: string, max: nat)
    requires Fine(ctx, l) && l.finSent
    ensures OnData(ctx, l, bytes, max) == OnWritable(ctx, l, max) == OnUserEnd(ctx, l, code, reason, max) == l
    ensures OnClose(ctx, l, why) == l.(socket := l.socket.(closed := true))
  {
    hide Good, Act;
    GoneIsDeaf(ctx, l.receiver, why);
  }

  lemma GoneIsDeaf(ctx: Context, st: Receiver, why: string)
    requires Good(ctx, st) && st.Gone?
    ensures ReceiveSpec.Valid(ctx, st) && Act(ctx, st, SocketClosed(why)) == st
  {
  }
}
