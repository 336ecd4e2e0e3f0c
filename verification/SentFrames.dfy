/** What a client reads: the frames that leave a socket, read back by section 5.2 of RFC 6455 alone. */
module SentFrames {
  import opened Bytes
  import opened Utf8
  import opened Frames
  import opened FrameFormat
  import opened FrameReading
  import opened ReceiveSpec
  import opened Lifecycle
  import opened AsyncSockets
  import L = WebSocketLinks
  import S = SocketSpec

  // ---- Runs of sends ----

  /** Only frames are sent, and of these each is one that may be formatted. */
  predicate OnlySends(ops: seq<SocketOp>) {
    forall i :: 0 <= i < |ops| ==> ops[i].Sends? && Proper(ops[i])
  }

  /** The frames that a client is to read. */
  function Meant(ops: seq<SocketOp>): (r: seq<WireFrame>)
    requires OnlySends(ops)
    ensures |r| == |ops|
  {
    seq(|ops|, i requires 0 <= i < |ops| => WireFrame(true, 0, ops[i].opCode, false, ops[i].message))
  }

  /** No frame is skipped because of the limit, cut by an overflowing cork, or put before others when its turn comes. */
  predicate JoinInOrder(s: S.Socket<byte>, ops: seq<SocketOp>)
    requires S.Fits(s)
  {
    && S.NonePasses(s, AsOps(ops))
    && forall k :: 0 <= k < |ops| && ops[k].Sends? ==>
         var t := S.Runs(s, AsOps(ops[..k]));
         !S.Full(t, ops[k].maxBackpressure) && !S.Cuts(S.Taking(t), |AsOp(ops[k]).frame|)
  }

  lemma OpIsRead(op: SocketOp)
    requires op.Sends? && Proper(op)
    ensures AsOp(op).Sends? && AsOp(op).frame != [] && AsOp(op).maxBackpressure == op.maxBackpressure
    ensures ReadFrames(AsOp(op).frame) == ([WireFrame(true, 0, op.opCode, false, op.message)], [])
  {
    hide ServerWire, Pow256, ReadFrame;
    EightOctets();
    var frame := AsOp(op).frame;
    ServerFrameReadsBack(op.opCode, op.message, []);
    ServerWireSize(op.opCode, op.message);
    assert frame + [] == frame;
    NothingToRead();
    OneFrame(frame);
  }

  lemma OneFrame(frame: seq<byte>)
    requires ReadFrame(frame).Got? && ReadFrame(frame).rest == []
    ensures ReadFrames(frame) == ([ReadFrame(frame).frame], [])
  {
    hide ReadFrame;
    NothingToRead();
    assert ReadFrames([]) == ([], []) && [ReadFrame(frame).frame] + [] == [ReadFrame(frame).frame];
  }

  lemma ShorterRun(s: S.Socket<byte>, ops: seq<SocketOp>)
    requires S.Fits(s) && ops != [] && OnlySends(ops) && JoinInOrder(s, ops)
    ensures var (front, last) := (ops[..|ops| - 1], ops[|ops| - 1]);
            && OnlySends(front) && JoinInOrder(s, front)
            && Meant(ops) == Meant(front) + [WireFrame(true, 0, last.opCode, false, last.message)]
    ensures AsOps(ops) == AsOps(ops[..|ops| - 1]) + [AsOp(ops[|ops| - 1])]
  {
    hide AsOp, Proper, S.Full, S.Cuts, S.Taking, S.Runs;
    var n := |ops| - 1;
    assert AsOps(ops)[..n] == AsOps(ops[..n]);
    forall k | 0 <= k < n ensures ops[..n][..k] == ops[..k] {
    }
  }

  lemma {:induction false} GainedIsRead(s: S.Socket<byte>, ops: seq<SocketOp>)
    requires S.Valid(s) && !s.closed && OnlySends(ops) && JoinInOrder(s, ops)
    ensures S.NoneShuts(AsOps(ops)) && ReadFrames(S.Gained(s, AsOps(ops))) == (Meant(ops), [])
    decreases |ops|
  {
    hide AsOp, S.Runs, S.Gains, S.Full, S.Cuts, S.Taking, JoinInOrder, Proper, ReadFrames;
    if ops == [] {
      NothingToRead();
      NothingIsRead();
    } else {
      var n := |ops| - 1;
      ShorterRun(s, ops);
      GainedIsRead(s, ops[..n]);
      OpIsRead(ops[n]);
      LastGains(s, ops);
      ReadConcat(S.Gained(s, AsOps(ops[..n])), AsOp(ops[n]).frame);
    }
  }

  lemma NothingIsRead()
    ensures ReadFrames([]) == ([], [])
  {
    NothingToRead();
  }

  lemma LastGains(s: S.Socket<byte>, ops: seq<SocketOp>)
    requires S.Valid(s) && !s.closed && ops != [] && OnlySends(ops) && JoinInOrder(s, ops)
    requires S.NoneShuts(AsOps(ops[..|ops| - 1])) && AsOp(ops[|ops| - 1]).Sends?
    requires AsOp(ops[|ops| - 1]).frame != [] && AsOp(ops[|ops| - 1]).maxBackpressure == ops[|ops| - 1].maxBackpressure
    requires AsOps(ops) == AsOps(ops[..|ops| - 1]) + [AsOp(ops[|ops| - 1])]
    ensures S.Gained(s, AsOps(ops)) == S.Gained(s, AsOps(ops[..|ops| - 1])) + AsOp(ops[|ops| - 1]).frame
  {
    hide AsOp, S.Runs, S.Gains, S.Full, S.Cuts, S.Taking, JoinInOrder, OnlySends;
    var n := |ops| - 1;
    S.RunsMean(s, AsOps(ops[..n]));
    LastJoins(s, ops);
    S.WholeOrCut(S.Runs(s, AsOps(ops[..n])), AsOp(ops[n]));
    S.RunsSnoc(s, AsOps(ops[..n]), AsOp(ops[n]));
  }

  lemma LastJoins(s: S.Socket<byte>, ops: seq<SocketOp>)
    requires S.Fits(s) && ops != [] && OnlySends(ops) && JoinInOrder(s, ops)
    ensures var n := |ops| - 1;
            var t := S.Runs(s, AsOps(ops[..n]));
            !S.Full(t, ops[n].maxBackpressure) && !S.Cuts(S.Taking(t), |AsOp(ops[n]).frame|)
  {
    hide AsOp, Proper, S.Full, S.Cuts, S.Taking, S.Runs, S.NonePasses;
  }

  /**
   The messages of a run of sends that join in order are what a client reads, message by message, behind what was on its
   way before: in what has left, what is buffered and what is corked, taken together.
   */
  lemma SendsAreRead(s: S.Socket<byte>, ops: seq<SocketOp>) returns (added: seq<byte>)
    requires S.Valid(s) && !s.closed && OnlySends(ops) && JoinInOrder(s, ops)
    ensures var t := S.Runs(s, AsOps(ops));
            && t.wire + t.buffer + (if t.holder.Me? then t.cork else [])
               == s.wire + s.buffer + (if s.holder.Me? then s.cork else []) + added
            && s.wire <= t.wire
    ensures ReadFrames(added) == (Meant(ops), [])
  {
    hide AsOp, S.Runs, S.Gains, OnlySends;
    added := S.Gained(s, AsOps(ops));
    GainedIsRead(s, ops);
    S.Fifo(s, AsOps(ops));
    S.RunsMean(s, AsOps(ops));
  }

  // ---- Answers ----

  /** The payload of a close frame: the code, the greater octet first, and at most 123 octets of reason. */
  function CloseOctets(code: nat, reason: seq<byte>): (s: seq<byte>) {
    var c := code % 65536;
    if c == 0 || c == 1005 || c == 1006 then []
    else [Octet(c / 256), Octet(c % 256)] + if |reason| <= 123 then reason else reason[..123]
  }

  /** The frame that an event calls for: a ping a pong of the same payload, the end a close frame. */
  function Owed(e: Event): (r: seq<WireFrame>) {
    match e
    case Ping(payload) => [WireFrame(true, 0, 10, false, payload)]
    case Closed(code, reason) => [WireFrame(true, 0, 8, false, CloseOctets(code, reason))]
    case _ => []
  }

  function AllOwed(events: seq<Event>): (r: seq<WireFrame>) {
    if events == [] then [] else AllOwed(events[..|events| - 1]) + Owed(events[|events| - 1])
  }

  lemma CloseIsOctets(code: nat, reason: seq<byte>, maxBackpressure: nat)
    ensures var op := L.CloseOp(code, reason, maxBackpressure);
            && op.Sends? && op.opCode == 8 && op.message == CloseOctets(code, reason)
            && op.maxBackpressure == maxBackpressure
  {
    hide Octet;
    var c := code % 65536;
    assert ToNetwork(c / 256, 1) == [] + [Octet(c / 256 % 256)] == [Octet(c / 256)];
    assert ToNetwork(c, 2) == ToNetwork(c / 256, 1) + [Octet(c % 256)] == [Octet(c / 256), Octet(c % 256)];
    assert |reason| == 123 ==> reason[..123] == reason;
  }

  lemma ReplyIsOwed(ctx: Context, e: Event, maxBackpressure: nat)
    requires EventFits(ctx, e) && !e.Aborted?
    ensures var ops := L.Reply(e, maxBackpressure);
            && OnlySends(ops) && Meant(ops) == Owed(e) && |ops| == |Owed(e)|
            && forall k :: 0 <= k < |ops| ==> ops[k].maxBackpressure == maxBackpressure
  {
    hide EventFits, L.CloseOp, CloseOctets, Pow256;
    L.ReplyIsProper(ctx, e, maxBackpressure);
    if e.Closed? {
      CloseIsOctets(e.code, e.reason, maxBackpressure);
    }
  }

  lemma OneIsOwed(ctx: Context, e: Event)
    requires EventFits(ctx, e)
    ensures |Owed(e)| <= 1 && (Owed(e) != [] ==> |Owed(e)[0].payload| <= 125) && (e.Aborted? ==> Owed(e) == [])
  {
    hide ValidUtf8;
  }

  /** What an event makes of the socket: it is closed by an abort, and sends the frame that is owed, if one is. */
  lemma AnswerIsRead(ctx: Context, o: L.Sent, e: Event, maxBackpressure: nat) returns (frame: seq<byte>)
    requires S.Valid(o.socket) && EventFits(ctx, e)
    ensures L.AnswerOne(o, e, maxBackpressure).socket
         == if e.Aborted? then o.socket.(closed := true)
            else if Owed(e) == [] then o.socket else S.Send(o.socket, frame, maxBackpressure).socket
    ensures Owed(e) != [] ==> ReadFrames(frame) == (Owed(e), []) && |frame| == 2 + |Owed(e)[0].payload|
  {
    hide EventFits, Owed, S.Send, Proper, AsOp, L.Reply, ReadFrames, ServerWire;
    var ops := L.Reply(e, maxBackpressure);
    frame := [];
    OneIsOwed(ctx, e);
    if e.Aborted? {
      AbortShuts(e.why, maxBackpressure);
    } else {
      ReplyIsOwed(ctx, e, maxBackpressure);
      if ops != [] {
        OpIsRead(ops[0]);
        frame := AsOp(ops[0]).frame;
        assert Owed(e) == [Meant(ops)[0]];
        OpSize(ops[0]);
      }
    }
  }

  lemma AbortShuts(why: string, maxBackpressure: nat)
    ensures L.Reply(Aborted(why), maxBackpressure) == [Shuts] && AsOp(Shuts) == S.Shuts
  {
  }

  lemma OpSize(op: SocketOp)
    requires op.Sends? && Proper(op) && |op.message| <= 125
    ensures AsOp(op).Sends? && |AsOp(op).frame| == 2 + |op.message|
  {
    hide ServerWire, Pow256;
    ServerWireSize(op.opCode, op.message);
  }

  /** The octets of so many control frames: each has a head of two. */
  function SizeOf(frames: seq<WireFrame>): (n: nat) {
    if frames == [] then 0 else SizeOf(frames[..|frames| - 1]) + 2 + |frames[|frames| - 1].payload|
  }

  lemma SizeOfSnoc(frames: seq<WireFrame>, more: seq<WireFrame>)
    requires |more| <= 1
    ensures SizeOf(frames + more) == SizeOf(frames) + if more == [] then 0 else 2 + |more[0].payload|
  {
    if more == [] {
      assert frames + more == frames;
    } else {
      assert (frames + more)[..|frames|] == frames;
    }
  }

  /** A frame is corked when the socket has the cork, there is room and the limit is not exceeded. */
  lemma SendCorks(s: S.Socket<byte>, frame: seq<byte>, maxBackpressure: nat)
    requires S.Valid(s) && s.holder.Me? && |s.cork| + |frame| < 16384
    requires maxBackpressure == 0 || |s.buffer| <= maxBackpressure
    ensures S.Send(s, frame, maxBackpressure).socket == s.(cork := s.cork + frame)
  {
    hide S.Write, S.Uncork;
  }

  lemma {:induction false} AnswersAreCorked(ctx: Context, o: L.Sent, events: seq<Event>, max: nat)
    returns (added: seq<byte>)
    requires S.Valid(o.socket) && o.socket.holder.Me? && (max == 0 || |o.socket.buffer| <= max)
    requires forall i :: 0 <= i < |events| ==> EventFits(ctx, events[i]) && !events[i].Aborted?
    requires |o.socket.cork| + SizeOf(AllOwed(events)) < 16384
    ensures L.Answered(o, events, max).socket == o.socket.(cork := o.socket.cork + added)
    ensures ReadFrames(added) == (AllOwed(events), []) && |added| == SizeOf(AllOwed(events))
    decreases |events|
  {
    hide EventFits, Owed, S.Send, L.AnswerOne, ReadFrames, SizeOf;
    if events == [] {
      added := [];
      NothingIsRead();
      SizeOfNothing();
      assert o.socket.cork + [] == o.socket.cork;
    } else {
      var n := |events| - 1;
      OneIsOwed(ctx, events[n]);
      SizeOfSnoc(AllOwed(events[..n]), Owed(events[n]));
      var before := AnswersAreCorked(ctx, o, events[..n], max);
      var m := L.Answered(o, events[..n], max);
      var frame := AnswerIsRead(ctx, m, events[n], max);
      if Owed(events[n]) == [] {
        added := before;
        assert AllOwed(events) == AllOwed(events[..n]);
      } else {
        added := before + frame;
        SendCorks(m.socket, frame, max);
        ReadConcat(before, frame);
        assert o.socket.cork + before + frame == o.socket.cork + added;
      }
    }
  }

  lemma SizeOfNothing()
    ensures SizeOf([]) == 0
  {
  }

  /** What data makes the receiver report. */
  function Reported(ctx: Context, l: L.Link, bytes: seq<byte>): (events: seq<Event>)
    requires L.Fine(ctx, l)
  {
    GoodIsValid(ctx, l.receiver);
    ActGrows(ctx, l.receiver, Data(bytes));
    Act(ctx, l.receiver, Data(bytes)).log[|l.receiver.log|..]
  }

  /**
   What a chunk adds to the octets on their way is, read by a client, a pong for every ping and a close frame for the
   end, in the order in which they were reported; provided that nothing is skipped because of the limit, and what is
   corked stays within the cork buffer.
   */
  lemma ChunkIsAnswered(ctx: Context, l: L.Link, bytes: seq<byte>, max: nat) returns (added: seq<byte>)
    requires L.Fine(ctx, l) && l.receiver.Live?
    requires forall k :: 0 <= k < |Reported(ctx, l, bytes)| ==> !Reported(ctx, l, bytes)[k].Aborted?
    requires max == 0 || |l.socket.buffer| <= max
    requires |l.socket.cork| + SizeOf(AllOwed(Reported(ctx, l, bytes))) < 16384
    ensures var t := L.OnData(ctx, l, bytes, max).socket;
            && t.wire + t.buffer == l.socket.wire + l.socket.buffer + l.socket.cork + added && l.socket.wire <= t.wire
            && !t.holder.Me? && !t.closed
    ensures ReadFrames(added) == (AllOwed(Reported(ctx, l, bytes)), [])
  {
    hide Act, Good, EventFits, SizeOf, AllOwed, ReadFrames, L.Answered, S.Uncork;
    L.News(ctx, l.receiver, Data(bytes));
    L.TakenIsValid(l.socket);
    var o := L.Sent(l.socket.(holder := S.Me), l.finSent);
    added := AnswersAreCorked(ctx, o, Reported(ctx, l, bytes), max);
    var m := L.Answered(o, Reported(ctx, l, bytes), max).socket;
    S.UncorkMeans(m, [], false);
    var t := S.Uncork(m, [], false).socket;
    assert t.wire + t.buffer + [] == t.wire + t.buffer;
    assert l.socket.wire + l.socket.buffer + (l.socket.cork + added) + []
        == l.socket.wire + l.socket.buffer + l.socket.cork + added;
  }

  lemma {:induction false} RepliesAreOwed(ctx: Context, events: seq<Event>, max: nat)
    requires forall i :: 0 <= i < |events| ==> EventFits(ctx, events[i]) && !events[i].Aborted?
    ensures OnlySends(L.Replies(events, max)) && Meant(L.Replies(events, max)) == AllOwed(events)
    decreases |events|
  {
    hide EventFits, Owed, L.Reply, Proper;
    if events != [] {
      var n := |events| - 1;
      RepliesAreOwed(ctx, events[..n], max);
      ReplyIsOwed(ctx, events[n], max);
    }
  }

  /** The same, whatever overflows, as long as no answer is skipped, cut or put before others when its turn comes. */
  lemma AnswersAreRead(ctx: Context, l: L.Link, bytes: seq<byte>, max: nat) returns (added: seq<byte>)
    requires L.Fine(ctx, l) && l.receiver.Live?
    requires forall k :: 0 <= k < |Reported(ctx, l, bytes)| ==> !Reported(ctx, l, bytes)[k].Aborted?
    requires JoinInOrder(l.socket.(holder := S.Me), L.Replies(Reported(ctx, l, bytes), max))
    ensures var t := L.OnData(ctx, l, bytes, max).socket;
            && t.wire + t.buffer == l.socket.wire + l.socket.buffer + l.socket.cork + added && l.socket.wire <= t.wire
            && !t.holder.Me? && !t.closed
    ensures ReadFrames(added) == (AllOwed(Reported(ctx, l, bytes)), [])
  {
    hide Act, Good, EventFits, AllOwed, ReadFrames, L.Answered, L.Replies, S.Uncork, S.Runs, JoinInOrder, OnlySends,
         Meant;
    L.News(ctx, l.receiver, Data(bytes));
    L.TakenIsValid(l.socket);
    var s, events := l.socket.(holder := S.Me), Reported(ctx, l, bytes);
    RepliesAreOwed(ctx, events, max);
    L.AnsweredRuns(L.Sent(s, l.finSent), events, max);
    added := SendsAreRead(s, L.Replies(events, max));
    RunStaysOpen(s, L.Replies(events, max));
    var m := S.Runs(s, AsOps(L.Replies(events, max)));
    S.UncorkMeans(m, [], false);
    var t := S.Uncork(m, [], false).socket;
    assert t.wire + t.buffer + [] == t.wire + t.buffer;
    assert m.wire + m.buffer + S.Corked(m) + [] == l.socket.wire + l.socket.buffer + l.socket.cork + added;
  }

  lemma RunStaysOpen(s: S.Socket<byte>, ops: seq<SocketOp>)
    requires S.Valid(s) && !s.closed && OnlySends(ops) && !s.holder.Another?
    ensures S.Valid(S.Runs(s, AsOps(ops))) && !S.Runs(s, AsOps(ops)).closed && !S.Runs(s, AsOps(ops)).holder.Another?
  {
    hide S.Runs, Proper;
    S.RunsMean(s, AsOps(ops));
  }

  /** The end by the application is, read by a client, a close frame with the code and the reason. */
  lemma EndIsRead(ctx: Context, l: L.Link, code: nat, reason: seq<byte>, max: nat) returns (frame: seq<byte>)
    requires L.Fine(ctx, l) && l.receiver.Live?
    ensures L.OnUserEnd(ctx, l, code, reason, max).socket == S.Send(l.socket, frame, max).socket
    ensures ReadFrames(frame) == ([WireFrame(true, 0, 8, false, CloseOctets(code, reason))], [])
  {
    hide Good, Act, S.Send, L.AnswerOne, ReadFrames, CloseOctets;
    GoodIsValid(ctx, l.receiver);
    L.EndIsNews(ctx, l.receiver, code, reason);
    var o, e := L.Sent(l.socket, l.finSent), Closed(code, reason);
    frame := AnswerIsRead(ctx, o, e, max);
    assert [e][..0] == [];
    assert L.Answered(o, [e], max) == L.AnswerOne(L.Answered(o, [], max), e, max);
  }
}
