/** A WebSocket: its channel and its place in the topic tree. */
module WebSockets {
  import opened Bytes
  import opened Frames
  import opened ReceiveSpec
  import opened Lifecycle
  import opened AsyncSockets
  import opened TopicMatch
  import opened WebSocketChannels
  import L = WebSocketLinks
  import TopicBatch
  import TopicMerge
  import TopicNodes
  import TopicTrees

  class WebSocket {
    const channel: Channel
    const tree: TopicTrees.TopicTree
    var subscriber: TopicNodes.Subscriber?

    /** The tree's list of triggered topics is none of the channel's buffers. */
    predicate Apart() {
      tree.triggeredTopics as object
      !in {channel.socket.loop.corkBuffer, channel.data.spill, channel.data.mask, channel.data.opCode}
    }

    /** The subscriber, if there is one, is known to the tree. */
    ghost predicate Member()
      reads this`subscriber, tree`members
    {
      subscriber != null ==> subscriber.addr in tree.members && tree.members[subscriber.addr] == subscriber
    }

    ghost predicate Valid()
      reads this, channel, channel.data, channel.data.spill, channel.data.opCode, channel.data.mask
      reads channel.socket, channel.socket.loop, channel.socket.loop.corkBuffer
      reads tree, tree.triggeredTopics, tree.nodes.Values, tree.members.Values
    {
      Apart() && channel.Valid() && tree.Valid() && Member()
    }

    constructor (channel: Channel, tree: TopicTrees.TopicTree)
      requires tree.Valid() && channel.Valid()
      requires tree.triggeredTopics as object
               !in {channel.socket.loop.corkBuffer, channel.data.spill, channel.data.mask, channel.data.opCode}
      ensures Valid() && this.channel == channel && this.tree == tree && subscriber == null
    {
      this.channel, this.tree, subscriber := channel, tree, null;
    }

    lemma Parts()
      requires Valid()
      ensures channel.Valid() && tree.Valid() && L.Fine(channel.data.ctx, channel.Now())
    {
    }

    /** Where the subscriber stands. */
    ghost function Own(): (a: set<nat>)
      reads this`subscriber
    {
      if subscriber == null then {} else {subscriber.addr}
    }

    /** The other members of the tree. */
    ghost function Others(): (a: set<nat>)
      reads this`subscriber, tree`members
    {
      tree.members.Keys - Own()
    }

    lemma NoneOwn()
      requires subscriber == null
      ensures Others() == tree.members.Keys
    {
    }

    /** In the sets of the tree stand the others and the WebSocket's own subscriber, and nobody else. */
    lemma Together()
      requires Valid()
      ensures tree.members.Keys == Others() + Own()
      ensures forall p, a :: p in tree.nodes && a in tree.nodes[p].subs ==> a in Others() || a in Own()
    {
      hide TopicTrees.TopicTree.Valid;
      tree.StandsByFilter();
    }

    /** Nobody of `a` is in a set of the tree. */
    ghost predicate Nowhere(a: set<nat>)
      reads tree`nodes, tree.nodes.Values`subs
    {
      forall p :: p in tree.nodes ==> forall b :: b in a ==> b !in tree.nodes[p].subs
    }

    // ---- Events: each close event takes the subscriber out of the tree ----

    /** What a close event does to the place in the tree. */
    method Settle(open: bool)
      requires Valid()
      modifies `subscriber, tree, tree.nodes.Values, tree.triggeredTopics
      modifies if subscriber == null then {} else {subscriber}
      ensures Valid() && tree.nodes.Values <= old(tree.nodes.Values) && channel.Now() == old(channel.Now())
      ensures open && !channel.Open() ==>
                subscriber == null && old(Own()) !! tree.members.Keys && Nowhere(old(Own()))
      ensures !open || channel.Open() ==> subscriber == old(subscriber) && tree.Subs() == old(tree.Subs())
      ensures Others() == old(Others())
    {
      hide TopicTrees.TopicTree.Valid, Channel.Valid, L.Fine, Good, Channel.Now;
      if open && !channel.Open() {
        tree.UnsubscribeAll(subscriber, false);
        subscriber := null;
      }
    }

    /** Data from the socket. */
    method OnData(buf: array<byte>, at: nat, available: nat)
      requires Valid() && !channel.socket.isClosed && channel.ApartFrom(buf) && buf as object != tree.triggeredTopics
      requires CONSUME_PRE_PADDING <= at && at + available + CONSUME_POST_PADDING <= buf.Length
      modifies `subscriber, channel`finSent, channel.data, channel.data.spill, channel.data.opCode
      modifies channel.data.mask, buf
      modifies channel.socket, channel.socket.loop, channel.socket.loop.corkBuffer
      modifies tree, tree.nodes.Values, tree.triggeredTopics, if subscriber == null then {} else {subscriber}
      ensures Valid() && tree.nodes.Values <= old(tree.nodes.Values) && Others() == old(Others())
      ensures channel.Now() == L.OnData(channel.data.ctx, old(channel.Now()), old(buf[at..at + available]),
                                        channel.maxBackpressure)
      ensures old(channel.Open()) && !channel.Open() ==>
                subscriber == null && old(Own()) !! tree.members.Keys && Nowhere(old(Own()))
      ensures !(old(channel.Open()) && !channel.Open()) ==> subscriber == old(subscriber)
    {
      hide TopicTrees.TopicTree.Valid, Channel.Valid, L.OnData, Good, Others, Nowhere;
      var open := channel.Open();
      channel.OnData(buf, at, available);
      Settle(open);
    }

    /** The socket can be written to. */
    method OnWritable()
      requires Valid() && !channel.socket.isClosed
      modifies `subscriber, channel`finSent, channel.data
      modifies channel.socket, channel.socket.loop, channel.socket.loop.corkBuffer
      modifies tree, tree.nodes.Values, tree.triggeredTopics, if subscriber == null then {} else {subscriber}
      ensures Valid() && tree.nodes.Values <= old(tree.nodes.Values) && Others() == old(Others())
      ensures channel.Now() == L.OnWritable(channel.data.ctx, old(channel.Now()), channel.maxBackpressure)
      ensures old(channel.Open()) && !channel.Open() ==>
                subscriber == null && old(Own()) !! tree.members.Keys && Nowhere(old(Own()))
      ensures !(old(channel.Open()) && !channel.Open()) ==> subscriber == old(subscriber)
    {
      hide TopicTrees.TopicTree.Valid, Channel.Valid, L.OnWritable, Good, Others, Nowhere;
      var open := channel.Open();
      channel.OnWritable();
      Settle(open);
    }

    /** The socket is closed, by whomever. */
    method OnClose(why: string)
      requires Valid() && !channel.socket.isClosed
      modifies `subscriber, channel.data, channel.socket`isClosed
      modifies tree, tree.nodes.Values, tree.triggeredTopics, if subscriber == null then {} else {subscriber}
      ensures Valid() && tree.nodes.Values <= old(tree.nodes.Values) && Others() == old(Others())
      ensures channel.Now() == L.OnClose(channel.data.ctx, old(channel.Now()), why)
      ensures old(channel.Open()) && !channel.Open() ==>
                subscriber == null && old(Own()) !! tree.members.Keys && Nowhere(old(Own()))
      ensures !(old(channel.Open()) && !channel.Open()) ==> subscriber == old(subscriber)
      ensures !old(channel.Open()) ==> tree.Subs() == old(tree.Subs())
    {
      hide TopicTrees.TopicTree.Valid, Channel.Valid, Channel.Now, L.OnClose, L.Fine, Good, ReceiveSpec.Valid, Others,
           Nowhere, TopicTrees.TopicTree.Subs;
      var open := channel.Open();
      channel.OnClose(why);
      Settle(open);
    }

    /** The application ends the WebSocket. */
    method OnUserEnd(code: nat, reason: seq<byte>)
      requires Valid() && !channel.socket.isClosed
      modifies `subscriber, channel`finSent, channel.data
      modifies channel.socket, channel.socket.loop, channel.socket.loop.corkBuffer
      modifies tree, tree.nodes.Values, tree.triggeredTopics, if subscriber == null then {} else {subscriber}
      ensures Valid() && tree.nodes.Values <= old(tree.nodes.Values) && Others() == old(Others())
      ensures channel.Now() == L.OnUserEnd(channel.data.ctx, old(channel.Now()), code, reason, channel.maxBackpressure)
      ensures old(channel.Open()) && !channel.Open() ==>
                subscriber == null && old(Own()) !! tree.members.Keys && Nowhere(old(Own()))
      ensures !(old(channel.Open()) && !channel.Open()) ==> subscriber == old(subscriber)
    {
      hide TopicTrees.TopicTree.Valid, Channel.Valid, L.OnUserEnd, Good, Others, Nowhere;
      var open := channel.Open();
      channel.OnUserEnd(code, reason);
      Settle(open);
    }

    // ---- Subscriptions ----

    /** Subscribes, as a new subscriber at a free address if there is none. */
    method Subscribe(topic: string, addr: nat)
      requires Valid() && !channel.socket.isClosed
      requires subscriber == null ==> addr !in Others() && addr < TopicMerge.UINTPTR_MAX
      modifies `subscriber, tree, tree.nodes.Values, tree.triggeredTopics
      modifies if subscriber == null then {} else {subscriber}
      ensures Valid() && subscriber != null && fresh(tree.nodes.Values - old(tree.nodes.Values))
      ensures channel.Now() == old(channel.Now())
      ensures old(subscriber) != null ==> subscriber == old(subscriber)
      ensures old(subscriber) == null ==> fresh(subscriber) && subscriber.addr == addr
      ensures Others() == old(Others())
      ensures Segments(topic, 0) in tree.nodes && subscriber.addr in tree.nodes[Segments(topic, 0)].subs
    {
      hide TopicTrees.TopicTree.Valid, Channel.Valid, Segments, Others, L.Fine, Good, Channel.Now;
      if subscriber == null {
        Join(addr);
      }
      tree.Subscribe(topic, subscriber);
    }

    /** Makes a subscriber. */
    method Join(addr: nat)
      requires Valid() && subscriber == null && addr !in Others() && addr < TopicMerge.UINTPTR_MAX
      modifies `subscriber, tree`members, tree`history
      ensures Valid() && subscriber != null && fresh(subscriber) && subscriber.addr == addr
      ensures channel.Now() == old(channel.Now()) && Others() == old(Others()) && tree.nodes == old(tree.nodes)
    {
      hide TopicTrees.TopicTree.Valid, Channel.Valid, L.Fine, Good, Channel.Now;
      subscriber := new TopicNodes.Subscriber(addr);
      tree.Admitted(subscriber);
    }

    method Unsubscribe(topic: string) returns (was: bool)
      requires Valid()
      modifies tree, tree.nodes.Values, tree.triggeredTopics, if subscriber == null then {} else {subscriber}
      ensures Valid() && tree.nodes.Values <= old(tree.nodes.Values)
      ensures Others() == old(Others()) && channel.Now() == old(channel.Now())
      ensures Segments(topic, 0) in tree.nodes ==>
                forall a :: a in Own() ==> a !in tree.nodes[Segments(topic, 0)].subs
    {
      hide TopicTrees.TopicTree.Valid, Channel.Valid, Segments;
      was := tree.Unsubscribe(topic, subscriber);
    }

    method UnsubscribeAll()
      requires Valid()
      modifies tree, tree.nodes.Values, tree.triggeredTopics, if subscriber == null then {} else {subscriber}
      ensures Valid() && tree.nodes.Values <= old(tree.nodes.Values)
      ensures Others() == old(Others()) && channel.Now() == old(channel.Now()) && Nowhere(Own())
    {
      hide TopicTrees.TopicTree.Valid, Channel.Valid, L.Fine, Good, Channel.Now;
      tree.UnsubscribeAll(subscriber, true);
    }
  }
}
