/** Whole lives of WebSockets that share a topic tree with others. */
module WebSocketLife {
  import opened Bytes
  import opened Frames
  import opened FrameFormat
  import opened ReceiveSpec
  import opened Lifecycle
  import opened WebSocketReceive
  import opened AsyncSockets
  import opened TopicMatch
  import opened WebSocketChannels
  import opened WebSockets
  import L = WebSocketLinks
  import SocketLoops
  import S = SocketSpec
  import TopicMerge
  import TopicTrees

  /** What can happen to a WebSocket, and what its application can do with it, in any order. */
  datatype Happening =
    | Arrives(bytes: seq<byte>)
    | Ends(code: nat, reason: seq<byte>)
    | BecomesWritable
    | GetsClosed(why: string)
    | Subscribes(topic: string, addr: nat) // at `addr`, if a subscriber is needed
    | Unsubscribes(topic: string)
    | UnsubscribesAll

  /** What it makes of the connection; a closed socket hears of nothing any more. */
  function Heard(ctx: Context, l: L.Link, h: Happening, maxBackpressure: nat): (r: L.Link)
    requires L.Fine(ctx, l)
    ensures L.Fine(ctx, r)
  {
    if l.socket.closed then l
    else
      L.EventsKeepFine(ctx, l, if h.Arrives? then h.bytes else [], if h.Ends? then h.code else 0,
                       if h.Ends? then h.reason else [], if h.GetsClosed? then h.why else "", maxBackpressure);
      match h
      case Arrives(bytes) => L.OnData(ctx, l, bytes, maxBackpressure)
      case Ends(code, reason) => L.OnUserEnd(ctx, l, code, reason, maxBackpressure)
      case BecomesWritable => L.OnWritable(ctx, l, maxBackpressure)
      case GetsClosed(why) => L.OnClose(ctx, l, why)
      case _ => l
  }

  /** The connection after all that. */
  function After(ctx: Context, l: L.Link, hs: seq<Happening>, maxBackpressure: nat): (r: L.Link)
    requires L.Fine(ctx, l)
    ensures L.Fine(ctx, r)
    decreases |hs|
  {
    if hs == [] then l else Heard(ctx, After(ctx, l, hs[..|hs| - 1], maxBackpressure), hs[|hs| - 1], maxBackpressure)
  }

  /** The application subscribes between the end of the WebSocket and the close of its socket. */
  predicate IsLate(l: L.Link, h: Happening) {
    h.Subscribes? && l.receiver.Gone? && !l.socket.closed
  }

  predicate SubscribedLate(ctx: Context, l: L.Link, hs: seq<Happening>, maxBackpressure: nat)
    requires L.Fine(ctx, l)
  {
    exists i :: 0 <= i < |hs| && IsLate(After(ctx, l, hs[..i], maxBackpressure), hs[i])
  }

  lemma AfterSnoc(ctx: Context, l: L.Link, hs: seq<Happening>, h: Happening, maxBackpressure: nat)
    requires L.Fine(ctx, l)
    ensures After(ctx, l, hs + [h], maxBackpressure)
         == Heard(ctx, After(ctx, l, hs, maxBackpressure), h, maxBackpressure)
  {
    hide Heard, L.Fine;
    assert (hs + [h])[..|hs|] == hs;
  }

  lemma SubscribedLateSnoc(ctx: Context, l: L.Link, hs: seq<Happening>, h: Happening, maxBackpressure: nat)
    requires L.Fine(ctx, l)
    ensures SubscribedLate(ctx, l, hs + [h], maxBackpressure) <==>
            SubscribedLate(ctx, l, hs, maxBackpressure) || IsLate(After(ctx, l, hs, maxBackpressure), h)
  {
    hide After, IsLate, L.Fine;
    var more := hs + [h];
    assert more[..|hs|] == hs && more[|hs|] == h;
    forall i | 0 <= i < |hs| ensures more[i] == hs[i] && more[..i] == hs[..i] {
    }
    if SubscribedLate(ctx, l, hs, maxBackpressure) {
      var i :| 0 <= i < |hs| && IsLate(After(ctx, l, hs[..i], maxBackpressure), hs[i]);
      assert IsLate(After(ctx, l, more[..i], maxBackpressure), more[i]);
    }
  }

  // ---- The run ----

  /** A chunk arrives in a receive buffer of its own. */
  method Arrive(ws: WebSocket, bytes: seq<byte>)
    requires ws.Valid() && !ws.channel.socket.isClosed
    modifies ws`subscriber, ws.channel`finSent, ws.channel.data, ws.channel.data.spill, ws.channel.data.opCode
    modifies ws.channel.data.mask, ws.channel.socket, ws.channel.socket.loop, ws.channel.socket.loop.corkBuffer
    modifies ws.tree, ws.tree.nodes.Values, ws.tree.triggeredTopics
    modifies if ws.subscriber == null then {} else {ws.subscriber}
    ensures ws.Valid() && ws.Others() == old(ws.Others()) && ws.tree.nodes.Values <= old(ws.tree.nodes.Values)
    ensures ws.channel.Now()
         == L.OnData(ws.channel.data.ctx, old(ws.channel.Now()), bytes, ws.channel.maxBackpressure)
    ensures ws.subscriber == if old(ws.channel.Open()) && !ws.channel.Open() then null else old(ws.subscriber)
  {
    hide WebSocket.Valid, WebSocket.Others, Channel.Valid, TopicTrees.TopicTree.Valid, WebSocket.Nowhere, L.OnData,
         L.Fine, Channel.Now;
    ws.Parts();
    var buf := new byte[CONSUME_PRE_PADDING + |bytes| + CONSUME_POST_PADDING];
    FillBuffer(buf, bytes);
    ws.OnData(buf, CONSUME_PRE_PADDING, |bytes|);
  }

  /** A WebSocket that has ended has a subscriber nevertheless. */
  ghost predicate Lingers(ws: WebSocket)
    reads ws, ws.channel, ws.channel.data
  {
    ws.subscriber != null && !ws.channel.Open()
  }

  /** What an open socket makes of a happening. */
  method Happen(ws: WebSocket, h: Happening)
    requires ws.Valid() && !ws.channel.socket.isClosed
    requires h.Subscribes? ==> h.addr !in ws.Others() && h.addr < TopicMerge.UINTPTR_MAX
    modifies ws`subscriber, ws.channel`finSent, ws.channel.data, ws.channel.data.spill, ws.channel.data.opCode
    modifies ws.channel.data.mask, ws.channel.socket, ws.channel.socket.loop, ws.channel.socket.loop.corkBuffer
    modifies ws.tree, ws.tree.nodes.Values, ws.tree.triggeredTopics
    modifies if ws.subscriber == null then {} else {ws.subscriber}
    ensures ws.Valid() && ws.Others() == old(ws.Others()) && fresh(ws.tree.nodes.Values - old(ws.tree.nodes.Values))
    ensures ws.subscriber == null || ws.subscriber == old(ws.subscriber) || fresh(ws.subscriber)
    ensures ws.channel.Now() == Heard(ws.channel.data.ctx, old(ws.channel.Now()), h, ws.channel.maxBackpressure)
    ensures Lingers(ws) <==> !old(ws.channel.Open()) && (old(ws.subscriber) != null || h.Subscribes?)
  {
    hide WebSocket.Valid, WebSocket.Others, Channel.Valid, TopicTrees.TopicTree.Valid, WebSocket.Nowhere, L.OnData,
         L.OnWritable, L.OnClose, L.OnUserEnd, L.Fine, Segments, Channel.Now, TopicTrees.TopicTree.Subs;
    ws.Parts();
    StaysClosed(ws.channel.data.ctx, ws.channel.Now(), h, ws.channel.maxBackpressure);
    match h {
      case Arrives(bytes) => Arrive(ws, bytes);
      case Ends(code, reason) => ws.OnUserEnd(code, reason);
      case BecomesWritable => ws.OnWritable();
      case GetsClosed(why) => ws.OnClose(why);
      case Subscribes(topic, addr) => ws.Subscribe(topic, addr);
      case Unsubscribes(topic) => var _ := ws.Unsubscribe(topic);
      case UnsubscribesAll => ws.UnsubscribeAll();
    }
    ws.Parts();
  }

  /** What is gone stays so. */
  lemma StaysClosed(ctx: Context, l: L.Link, h: Happening, maxBackpressure: nat)
    requires L.Fine(ctx, l)
    ensures l.receiver.Gone? ==> Heard(ctx, l, h, maxBackpressure).receiver == l.receiver
  {
    hide L.Fine;
    if l.receiver.Gone? && h.GetsClosed? {
      GoodStays(ctx, l, h.why);
    }
  }

  lemma GoodStays(ctx: Context, l: L.Link, why: string)
    requires L.Fine(ctx, l) && l.receiver.Gone?
    ensures L.OnClose(ctx, l, why).receiver == l.receiver
  {
    L.GoneIsDeaf(ctx, l.receiver, why);
  }

  /** A WebSocket after all that has happened. */
  ghost predicate Lives(ws: WebSocket, l: L.Link, hs: seq<Happening>)
    requires ws.channel.Valid() && L.Fine(ws.channel.data.ctx, l)
    reads ws, ws.channel, ws.channel.data, ws.channel.data.spill, ws.channel.data.opCode, ws.channel.data.mask
    reads ws.channel.socket, ws.channel.socket.loop, ws.channel.socket.loop.corkBuffer
  {
    && ws.channel.Now() == After(ws.channel.data.ctx, l, hs, ws.channel.maxBackpressure)
    && (Lingers(ws) <==> SubscribedLate(ws.channel.data.ctx, l, hs, ws.channel.maxBackpressure))
  }

  /** One happening more. */
  method Next(ws: WebSocket, ghost l: L.Link, ghost hs: seq<Happening>, h: Happening)
    requires ws.Valid() && ws.channel.Valid() && L.Fine(ws.channel.data.ctx, l) && Lives(ws, l, hs)
    requires h.Subscribes? ==> h.addr !in ws.Others() && h.addr < TopicMerge.UINTPTR_MAX
    modifies ws`subscriber, ws.channel`finSent, ws.channel.data, ws.channel.data.spill, ws.channel.data.opCode
    modifies ws.channel.data.mask, ws.channel.socket, ws.channel.socket.loop, ws.channel.socket.loop.corkBuffer
    modifies ws.tree, ws.tree.nodes.Values, ws.tree.triggeredTopics
    modifies if ws.subscriber == null then {} else {ws.subscriber}
    ensures ws.Valid() && ws.channel.Valid() && Lives(ws, l, hs + [h])
    ensures ws.Others() == old(ws.Others()) && fresh(ws.tree.nodes.Values - old(ws.tree.nodes.Values))
    ensures ws.subscriber == null || ws.subscriber == old(ws.subscriber) || fresh(ws.subscriber)
  {
    hide WebSocket.Valid, WebSocket.Others, Channel.Valid, TopicTrees.TopicTree.Valid, L.Fine, After, SubscribedLate,
         L.OnData, L.OnWritable, L.OnClose, L.OnUserEnd, Channel.Now;
    ws.Parts();
    AfterSnoc(ws.channel.data.ctx, l, hs, h, ws.channel.maxBackpressure);
    SubscribedLateSnoc(ws.channel.data.ctx, l, hs, h, ws.channel.maxBackpressure);
    if !ws.channel.socket.isClosed {
      Happen(ws, h);
    }
    ws.Parts();
  }

  /** All that happens to a new WebSocket. */
  method LiveOn(ws: WebSocket, ghost l: L.Link, hs: seq<Happening>)
    requires ws.Valid() && ws.channel.Valid() && ws.subscriber == null
    requires L.Fine(ws.channel.data.ctx, l) && Lives(ws, l, [])
    requires forall i :: 0 <= i < |hs| && hs[i].Subscribes? ==>
               hs[i].addr !in ws.Others() && hs[i].addr < TopicMerge.UINTPTR_MAX
    modifies ws`subscriber, ws.channel`finSent, ws.channel.data, ws.channel.data.spill, ws.channel.data.opCode
    modifies ws.channel.data.mask, ws.channel.socket, ws.channel.socket.loop, ws.channel.socket.loop.corkBuffer
    modifies ws.tree, ws.tree.nodes.Values, ws.tree.triggeredTopics
    ensures ws.Valid() && ws.channel.Valid() && Lives(ws, l, hs)
    ensures ws.Others() == old(ws.Others()) && fresh(ws.tree.nodes.Values - old(ws.tree.nodes.Values))
  {
    hide WebSocket.Valid, WebSocket.Others, Channel.Valid, TopicTrees.TopicTree.Valid, Lives, L.Fine;
    TakeAll(hs);
    for i := 0 to |hs|
      invariant ws.subscriber == null || fresh(ws.subscriber)
      invariant fresh(ws.tree.nodes.Values - old(ws.tree.nodes.Values)) && ws.Others() == old(ws.Others())
      invariant ws.Valid() && ws.channel.Valid() && Lives(ws, l, hs[..i])
    {
      TakeMore(hs, i);
      Next(ws, l, hs[..i], hs[i]);
    }
  }

  /**
   A life of a WebSocket, in a tree and a loop that others may be in as well; what it comes to is fixed by what happens
   and what the kernel takes. After the close of its socket there has been exactly one close event, the last of its
   events; and its subscriber is gone, in no set of the tree, if and only if the application has not subscribed between
   the end of the WebSocket and the close of its socket.
   */
  method Live(ctx: Context, tree: TopicTrees.TopicTree, loop: LoopData, ssl: bool, kernel: seq<nat>,
              maxBackpressure: nat, hs: seq<Happening>)
    returns (ws: WebSocket)
    requires tree.Valid() && loop.corkBuffer as object != tree.triggeredTopics
    requires loop.corkBuffer.Length == CORK_BUFFER_SIZE && loop.corkOffset <= CORK_BUFFER_SIZE
    requires loop.corkedSocket == null ==> loop.corkOffset == 0
    requires forall i :: 0 <= i < |hs| && hs[i].Subscribes? ==>
               hs[i].addr !in tree.members && hs[i].addr < TopicMerge.UINTPTR_MAX
    modifies loop, loop.corkBuffer, tree, tree.nodes.Values, tree.triggeredTopics
    ensures ws.Valid() && ws.channel.Valid() && ws.tree == tree && ws.channel.socket.loop == loop
    ensures var l := L.Begun(kernel, ssl, old(loop.corkBuffer[..loop.corkOffset]), old(loop.corkedSocket) == null);
            && L.Fine(ctx, l) && ws.channel.Now() == After(ctx, l, hs, maxBackpressure)
            && (ws.channel.socket.isClosed ==>
                  (ws.subscriber == null <==> !SubscribedLate(ctx, l, hs, maxBackpressure)))
    ensures ws.channel.socket.isClosed ==>
              var log := ws.channel.data.log;
              Closes(log) == 1 && log != [] && IsClose(log[|log| - 1])
    ensures ws.Others() == old(tree.members.Keys) && tree.members.Keys == ws.Others() + ws.Own()
    ensures forall p, a :: p in tree.nodes && a in tree.nodes[p].subs ==> a in ws.Others() || a in ws.Own()
  {
    hide WebSocket.Valid, WebSocket.Others, Channel.Valid, TopicTrees.TopicTree.Valid, L.Fine, After, SubscribedLate;
    var channel := new Channel(ctx, loop, ssl, kernel, maxBackpressure);
    ghost var l := channel.Now();
    ws := new WebSocket(channel, tree);
    ws.NoneOwn();
    Begins(ctx, l, maxBackpressure);
    LiveOn(ws, l, hs);
    ws.Parts();
    if channel.socket.isClosed {
      ClosedAtLast(ctx, channel.Now());
    }
    ws.Together();
  }

  lemma TakeMore(hs: seq<Happening>, i: nat)
    requires i < |hs|
    ensures hs[..i + 1] == hs[..i] + [hs[i]]
  {
  }

  lemma TakeAll(hs: seq<Happening>)
    ensures hs[..0] == [] && hs[..|hs|] == hs
  {
  }

  lemma Begins(ctx: Context, l: L.Link, maxBackpressure: nat)
    requires L.Fine(ctx, l)
    ensures After(ctx, l, [], maxBackpressure) == l && !SubscribedLate(ctx, l, [], maxBackpressure)
  {
  }

  lemma ClosedAtLast(ctx: Context, l: L.Link)
    requires L.Fine(ctx, l) && l.socket.closed
    ensures l.receiver.Gone?
    ensures var log := l.receiver.log; Closes(log) == 1 && log != [] && IsClose(log[|log| - 1])
  {
    hide ReceiveSpec.Valid;
    var log := l.receiver.log;
    var n := |log| - 1;
    assert log == log[..n] + [log[n]];
    ClosesSnoc(log[..n], log[n]);
  }

  /**
   The condition can be met: any open WebSocket that ends, subscribes to "b" and is closed leaves a subscriber in the
   set of "b".
   */
  method LateSubscriberStays(ws: WebSocket, addr: nat)
    requires ws.Valid() && ws.channel.Open() && !ws.channel.socket.isClosed
    requires addr !in ws.Others() && addr < TopicMerge.UINTPTR_MAX
    modifies ws`subscriber, ws.channel`finSent, ws.channel.data, ws.channel.socket, ws.channel.socket.loop
    modifies ws.channel.socket.loop.corkBuffer, ws.tree, ws.tree.nodes.Values, ws.tree.triggeredTopics
    modifies if ws.subscriber == null then {} else {ws.subscriber}
    ensures ws.Valid() && ws.channel.socket.isClosed && ws.subscriber != null && ws.subscriber.addr == addr
    ensures Segments("b", 0) in ws.tree.Subs() && addr in ws.tree.Subs()[Segments("b", 0)]
  {
    hide WebSocket.Valid, WebSocket.Others, Channel.Valid, TopicTrees.TopicTree.Valid, Segments, WebSocket.Nowhere,
         L.OnClose, L.Fine, Channel.Now, TopicTrees.TopicTree.Subs;
    EndsAndSubscribes(ws, addr);
    ws.Parts();
    CloseCloses(ws.channel.data.ctx, ws.channel.Now());
    ws.OnClose("");
    ws.Parts();
  }

  lemma CloseCloses(ctx: Context, l: L.Link)
    requires L.Fine(ctx, l)
    ensures L.OnClose(ctx, l, "").socket.closed
  {
  }

  lemma EndEnds(ctx: Context, l: L.Link, maxBackpressure: nat)
    requires L.Fine(ctx, l) && !l.socket.closed
    ensures var r := L.OnUserEnd(ctx, l, 1000, [], maxBackpressure); r.receiver.Gone? && !r.socket.closed
  {
    hide L.OnUserEnd, L.OnData, L.OnWritable, L.OnClose, L.Fine;
    L.EventsKeepFine(ctx, l, [], 1000, [], "", maxBackpressure);
  }

  method EndsAndSubscribes(ws: WebSocket, addr: nat)
    requires ws.Valid() && ws.channel.Open() && !ws.channel.socket.isClosed
    requires addr !in ws.Others() && addr < TopicMerge.UINTPTR_MAX
    modifies ws`subscriber, ws.channel`finSent, ws.channel.data, ws.channel.socket, ws.channel.socket.loop
    modifies ws.channel.socket.loop.corkBuffer, ws.tree, ws.tree.nodes.Values, ws.tree.triggeredTopics
    modifies if ws.subscriber == null then {} else {ws.subscriber}
    ensures ws.Valid() && !ws.channel.Open() && !ws.channel.socket.isClosed
    ensures ws.subscriber != null && fresh(ws.subscriber) && ws.subscriber.addr == addr
    ensures fresh(ws.tree.nodes.Values - old(ws.tree.nodes.Values))
    ensures Segments("b", 0) in ws.tree.Subs() && addr in ws.tree.Subs()[Segments("b", 0)]
  {
    hide WebSocket.Valid, WebSocket.Others, Channel.Valid, TopicTrees.TopicTree.Valid, Segments, WebSocket.Nowhere,
         L.OnUserEnd, L.Fine, Channel.Now;
    ws.Parts();
    CloseCloses(ws.channel.data.ctx, ws.channel.Now());
    EndEnds(ws.channel.data.ctx, ws.channel.Now(), ws.channel.maxBackpressure);
    ws.OnUserEnd(1000, []);
    ws.Parts();
    ws.Subscribe("b", addr);
    ws.Parts();
  }

  // ---- FIN before octets that are still buffered ----

  /** After FIN nothing that happens lets anything leave. */
  lemma {:induction false} FinIsFinal(ctx: Context, l: L.Link, hs: seq<Happening>, maxBackpressure: nat)
    requires L.Fine(ctx, l) && l.finSent
    ensures var r := After(ctx, l, hs, maxBackpressure);
            r.finSent && r.socket.wire == l.socket.wire && r.socket.buffer == l.socket.buffer
    decreases |hs|
  {
    hide L.Fine, L.OnData, L.OnWritable, L.OnClose, L.OnUserEnd;
    if hs != [] {
      var n := |hs| - 1;
      var h := hs[n];
      FinIsFinal(ctx, l, hs[..n], maxBackpressure);
      L.NothingAfterFin(ctx, After(ctx, l, hs[..n], maxBackpressure), if h.Arrives? then h.bytes else [],
                        if h.Ends? then h.code else 0, if h.Ends? then h.reason else [],
                        if h.GetsClosed? then h.why else "", maxBackpressure);
    }
  }

  /**
   The application ends a WebSocket with more backpressure than the limit allows: the close frame is skipped, FIN is
   sent, and what is buffered never leaves.
   */
  lemma FinComesFirst(ctx: Context, l: L.Link, code: nat, reason: seq<byte>, hs: seq<Happening>, maxBackpressure: nat)
    requires L.Fine(ctx, l) && l.receiver.Live? && !l.socket.holder.Me? && S.Full(l.socket, maxBackpressure)
    ensures var r := After(ctx, l, [Ends(code, reason)] + hs, maxBackpressure);
            r.finSent && r.socket.wire == l.socket.wire && r.socket.buffer == l.socket.buffer != []
  {
    hide L.Fine, L.OnData, L.OnWritable, L.OnClose, L.OnUserEnd;
    var first := [Ends(code, reason)];
    AfterSnoc(ctx, l, [], Ends(code, reason), maxBackpressure);
    assert [] + first == first;
    Begins(ctx, l, maxBackpressure);
    EndWhenFull(ctx, l, code, reason, maxBackpressure);
    FinIsFinal(ctx, After(ctx, l, first, maxBackpressure), hs, maxBackpressure);
    AfterConcat(ctx, l, first, hs, maxBackpressure);
  }

  lemma EndWhenFull(ctx: Context, l: L.Link, code: nat, reason: seq<byte>, maxBackpressure: nat)
    requires L.Fine(ctx, l) && l.receiver.Live? && !l.socket.holder.Me? && S.Full(l.socket, maxBackpressure)
    ensures var r := L.OnUserEnd(ctx, l, code, reason, maxBackpressure); r.finSent && r.socket == l.socket
    ensures !l.socket.closed
  {
    hide L.CloseOp, AsOp;
    L.EndMeans(ctx, l, code, reason, maxBackpressure);
  }

  lemma {:induction false} AfterConcat(ctx: Context, l: L.Link, a: seq<Happening>, b: seq<Happening>,
                                       maxBackpressure: nat)
    requires L.Fine(ctx, l)
    ensures After(ctx, l, a + b, maxBackpressure) == After(ctx, After(ctx, l, a, maxBackpressure), b, maxBackpressure)
    decreases |b|
  {
    hide L.Fine, Heard;
    if b == [] {
      assert a + b == a;
    } else {
      var n := |b| - 1;
      AfterConcat(ctx, l, a, b[..n], maxBackpressure);
      assert (a + b)[..|a + b| - 1] == a + b[..n];
    }
  }

  /** It happens: with a limit of one octet, a message, and a kernel that takes nothing the first time. */
  method OctetsStayBehind(ctx: Context, loop: LoopData, ssl: bool) returns (channel: Channel)
    requires loop.corkBuffer.Length == CORK_BUFFER_SIZE && loop.corkOffset == 0 && loop.corkedSocket == null
    modifies loop, loop.corkBuffer
    ensures channel.Valid() && channel.finSent && channel.socket.wire == []
    ensures channel.socket.buffer == ServerWire(2, [7])
  {
    hide ServerWire, Pow256, S.Send, S.SendFails, S.SendAccepts, S.SendOvertakes, S.StaysOn, S.Stream, L.OnUserEnd,
         L.OnWritable, Good, WebSocketData.Valid, WebSocketData.Abs;
    SmallFrame();
    channel := new Channel(ctx, loop, ssl, [0], 1);
    SendBlocked(ssl, ServerWire(2, [7]));
    var _ := channel.socket.Send([7], 2, L.NO_MASK, 1);
    ghost var l := channel.Now();
    EndWhenFull(ctx, l, 1000, [], 1);
    channel.OnUserEnd(1000, []);
    L.NothingAfterFin(ctx, channel.Now(), [], 0, [], "", 1);
    channel.OnWritable();
  }

  lemma SmallFrame()
    ensures 1 < Pow256(8) && 1 < |ServerWire(2, [7])| < 16
  {
    hide ServerWire;
    ServerWireSize(2, [7]);
  }

  lemma SendBlocked(ssl: bool, frame: seq<byte>)
    requires 1 < |frame| < S.CORK_BUFFER_SIZE
    ensures S.Send(S.Socket([], [], [0], ssl, false, [], S.Nobody), frame, 1).socket
         == S.Socket([], frame, [], ssl, false, [], S.Nobody)
  {
    hide S.Write;
    SocketLoops.WriteFresh(S.Socket([], [], [0], ssl, false, frame, S.Nobody), frame);
    assert [] + frame == frame && frame[..0] == [] && frame[0..] == frame && [0][1..] == [];
  }
}
