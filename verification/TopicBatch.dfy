/** Messages of the topic tree, batches of them, and the delivery that batching must not be told apart from. */
module TopicBatch {
  import opened Bytes
  import opened TopicMatch

  /** A framed message in its two forms; either may be empty. */
  datatype Message = Message(inflated: seq<byte>, deflated: seq<byte>)

  const NOTHING := Message([], [])

  function Append(a: Message, b: Message): Message {
    Message(a.inflated + b.inflated, a.deflated + b.deflated)
  }

  lemma AppendLaws(a: Message, b: Message, c: Message)
    ensures Append(Append(a, b), c) == Append(a, Append(b, c))
    ensures Append(a, NOTHING) == a == Append(NOTHING, a)
  {
    assert (a.inflated + b.inflated) + c.inflated == a.inflated + (b.inflated + c.inflated);
    assert (a.deflated + b.deflated) + c.deflated == a.deflated + (b.deflated + c.deflated);
    assert a.inflated + [] == a.inflated == [] + a.inflated;
    assert a.deflated + [] == a.deflated == [] + a.deflated;
  }

  /** The messages with the given ids, in order of id. */
  ghost function Collect(published: seq<Message>, ids: set<nat>): (m: Message)
  {
    if published == [] then NOTHING
    else
      var n := |published| - 1;
      var rest := Collect(published[..n], ids);
      if n in ids then Append(rest, published[n]) else rest
  }

  /** One call of the tree's callback. */
  datatype Call = Call(addr: nat, data: Message)

  /** Everything the calls so far have handed to one subscriber. */
  ghost function Delivered(log: seq<Call>, addr: nat): (m: Message)
  {
    if log == [] then NOTHING
    else
      var n := |log| - 1;
      var rest := Delivered(log[..n], addr);
      if log[n].addr == addr then Append(rest, log[n].data) else rest
  }

  // ---- Laws of Collect and Delivered ----

  lemma {:induction false} CollectOf(published: seq<Message>, ids: set<nat>, ids': set<nat>)
    requires forall i :: 0 <= i < |published| ==> (i in ids <==> i in ids')
    ensures Collect(published, ids) == Collect(published, ids')
  {
    if published != [] {
      CollectOf(published[..|published| - 1], ids, ids');
    }
  }

  lemma {:induction false} CollectNone(published: seq<Message>, ids: set<nat>)
    requires forall i :: 0 <= i < |published| ==> i !in ids
    ensures Collect(published, ids) == NOTHING
  {
    if published != [] {
      CollectNone(published[..|published| - 1], ids);
    }
  }

  lemma CollectSnoc(published: seq<Message>, m: Message, ids: set<nat>)
    ensures Collect(published + [m], ids)
         == if |published| in ids then Append(Collect(published, ids), m) else Collect(published, ids)
  {
    assert (published + [m])[..|published|] == published;
  }

  lemma {:induction false} DeliveredConcat(log: seq<Call>, calls: seq<Call>, addr: nat)
    ensures Delivered(log + calls, addr) == Append(Delivered(log, addr), Delivered(calls, addr))
  {
    AppendLaws(Delivered(log, addr), NOTHING, NOTHING);
    if calls == [] {
      assert log + calls == log;
    } else {
      var n := |calls| - 1;
      assert (log + calls)[..|log + calls| - 1] == log + calls[..n];
      DeliveredConcat(log, calls[..n], addr);
      AppendLaws(Delivered(log, addr), Delivered(calls[..n], addr), calls[n].data);
    }
  }

  lemma {:induction false} DeliveredNone(calls: seq<Call>, addr: nat)
    requires forall c :: c in calls ==> c.addr != addr
    ensures Delivered(calls, addr) == NOTHING
  {
    if calls != [] {
      DeliveredNone(calls[..|calls| - 1], addr);
    }
  }

  predicate Ascending(calls: seq<Call>) {
    forall i, j :: 0 <= i < j < |calls| ==> calls[i].addr < calls[j].addr
  }

  /** A batch calls each subscriber at most once, so what it delivers is the data of that call. */
  lemma {:induction false} DeliveredOnce(calls: seq<Call>, k: nat)
    requires Ascending(calls) && k < |calls|
    ensures Delivered(calls, calls[k].addr) == calls[k].data
  {
    var n := |calls| - 1;
    AppendLaws(NOTHING, calls[k].data, NOTHING);
    AppendLaws(calls[k].data, NOTHING, NOTHING);
    if k == n {
      DeliveredNone(calls[..n], calls[k].addr);
    } else {
      DeliveredOnce(calls[..n], k);
      assert calls[n].addr != calls[k].addr;
    }
  }

  // ---- The tree as its callers need to know it ----

  /** Who is subscribed where, and which message ids are pending where. */
  datatype View = View(subs: map<Path, set<nat>>, pending: map<Path, set<nat>>)

  predicate Matched(v: View) { v.subs.Keys == v.pending.Keys }

  ghost predicate PendsFor(v: View, addr: nat, i: nat)
    requires Matched(v)
  {
    exists p :: p in v.subs && addr in v.subs[p] && i in v.pending[p]
  }

  /** The ids of the messages a subscriber has coming. */
  ghost function PendingIds(v: View, addr: nat, n: nat): (ids: set<nat>)
    requires Matched(v)
  {
    set i | 0 <= i < n && PendsFor(v, addr, i)
  }

  // ---- Naive delivery: a list of filters for each subscriber, every message delivered at once ----

  datatype Naive = Naive(filters: map<nat, set<Path>>, streams: map<nat, Message>)

  ghost predicate Wants(filters: set<Path>, topic: Path) {
    exists f :: f in filters && Matches(f, topic)
  }

  ghost function Deliver(nv: Naive, topic: Path, m: Message): (r: Naive)
    requires nv.filters.Keys == nv.streams.Keys
  {
    nv.(streams := map a | a in nv.streams ::
      if Wants(nv.filters[a], topic) then Append(nv.streams[a], m) else nv.streams[a])
  }

  lemma DeliverKeepsFilters(nv: Naive, topic: Path, m: Message)
    requires nv.filters.Keys == nv.streams.Keys
    ensures Deliver(nv, topic, m).filters == nv.filters
  {
  }

  function AddFilter(nv: Naive, addr: nat, filter: Path): (r: Naive)
    requires addr in nv.filters
  {
    nv.(filters := nv.filters[addr := nv.filters[addr] + {filter}])
  }

  function DropFilters(nv: Naive, addr: nat, filters: set<Path>): (r: Naive)
    requires addr in nv.filters
  {
    nv.(filters := nv.filters[addr := nv.filters[addr] - filters])
  }

  /** A new subscriber; `soFar` is what its address has received under earlier owners. */
  function Admit(nv: Naive, addr: nat, soFar: Message): (r: Naive) {
    Naive(nv.filters[addr := {}], nv.streams[addr := soFar])
  }

  function Release(nv: Naive, addr: nat): (r: Naive) {
    Naive(nv.filters - {addr}, nv.streams - {addr})
  }

  /** What happens to a tree, as far as naive delivery is concerned. */
  datatype Op =
    | Joined(addr: nat, soFar: Message)
    | Subscribed(addr: nat, filter: Path)
    | Unsubscribed(addr: nat, filters: set<Path>)
    | Published(topic: Path, message: Message)
    | Left(addr: nat)

  ghost predicate Known(nv: Naive) { nv.filters.Keys == nv.streams.Keys }

  ghost function Apply(nv: Naive, op: Op): (r: Naive)
    requires Known(nv)
    ensures Known(r)
  {
    match op
    case Joined(addr, soFar) => Admit(nv, addr, soFar)
    case Subscribed(addr, filter) => if addr in nv.filters then AddFilter(nv, addr, filter) else nv
    case Unsubscribed(addr, filters) => if addr in nv.filters then DropFilters(nv, addr, filters) else nv
    case Published(topic, message) => Deliver(nv, topic, message)
    case Left(addr) => Release(nv, addr)
  }

  /** Naive delivery over a whole run. */
  ghost function Replay(history: seq<Op>): (r: Naive)
    ensures Known(r)
  {
    if history == [] then Naive(map[], map[])
    else Apply(Replay(history[..|history| - 1]), history[|history| - 1])
  }

  lemma ReplaySnoc(history: seq<Op>, op: Op)
    ensures Replay(history + [op]) == Apply(Replay(history), op)
  {
    assert (history + [op])[..|history|] == history;
  }

  /** The batched tree has delivered, or has pending, exactly what naive delivery has delivered. */
  ghost predicate Agrees(v: View, published: seq<Message>, log: seq<Call>, nv: Naive)
  {
    && Matched(v) && nv.filters.Keys == nv.streams.Keys
    && (forall p, a :: p in v.subs && a in v.subs[p] ==> a in nv.filters && p in nv.filters[a])
    && (forall a, p :: a in nv.filters && p in nv.filters[a] ==> p in v.subs && a in v.subs[p])
    && (forall a :: a in nv.streams ==> StreamAgrees(v, published, log, nv, a))
  }

  ghost predicate StreamAgrees(v: View, published: seq<Message>, log: seq<Call>, nv: Naive, a: nat)
    requires Matched(v) && a in nv.streams
  {
    Append(Delivered(log, a), Collect(published, PendingIds(v, a, |published|))) == nv.streams[a]
  }

  /** Publishing adds the new id where the topic matches, and the message to every stream that wants it. */
  lemma PublishAgrees(v: View, v': View, published: seq<Message>, log: seq<Call>, nv: Naive, topic: Path, m: Message)
    requires Agrees(v, published, log, nv)
    requires v'.subs == v.subs && v'.pending.Keys == v.pending.Keys
    requires forall p :: p in v.pending ==>
               v'.pending[p] == if Matches(p, topic) then v.pending[p] + {|published|} else v.pending[p]
    requires forall p, i :: p in v.pending && i in v.pending[p] ==> i < |published|
    ensures Agrees(v', published + [m], log, Deliver(nv, topic, m))
  {
    hide Matches, Collect, Delivered;
    var n := |published|;
    var nv' := Deliver(nv, topic, m);
    forall a | a in nv.streams
      ensures StreamAgrees(v', published + [m], log, nv', a)
    {
      assert StreamAgrees(v, published, log, nv, a);
      var ids, ids' := PendingIds(v, a, n), PendingIds(v', a, n + 1);
      PublishPends(v, v', a, topic, n);
      forall i | 0 <= i < n ensures i in ids <==> i in ids' {
        assert PendsFor(v, a, i) <==> PendsFor(v', a, i);
      }
      CollectOf(published, ids, ids');
      CollectSnoc(published, m, ids');
      assert n in ids' <==> PendsFor(v', a, n);
      assert n in ids' <==> Wants(nv.filters[a], topic);
      AppendLaws(Delivered(log, a), Collect(published, ids), m);
    }
  }

  lemma PublishPends(v: View, v': View, a: nat, topic: Path, n: nat)
    requires Matched(v) && v'.subs == v.subs && v'.pending.Keys == v.pending.Keys
    requires forall p :: p in v.pending ==>
               v'.pending[p] == if Matches(p, topic) then v.pending[p] + {n} else v.pending[p]
    requires forall p, i :: p in v.pending && i in v.pending[p] ==> i < n
    ensures forall i :: 0 <= i < n ==> (PendsFor(v, a, i) <==> PendsFor(v', a, i))
    ensures PendsFor(v', a, n) <==> exists p :: p in v.subs && a in v.subs[p] && Matches(p, topic)
  {
    hide Matches;
    forall i | 0 <= i < n ensures PendsFor(v, a, i) <==> PendsFor(v', a, i) {
      if PendsFor(v, a, i) {
        var p :| p in v.subs && a in v.subs[p] && i in v.pending[p];
        assert i in v'.pending[p];
      }
    }
  }

  /** The calls of a drain: each subscriber with something pending, once, in order of address, with all of it. */
  ghost predicate Batch(v: View, published: seq<Message>, calls: seq<Call>)
    requires Matched(v)
  {
    && Ascending(calls)
    && (forall k :: 0 <= k < |calls| ==>
          calls[k].data == Collect(published, PendingIds(v, calls[k].addr, |published|)))
    && (forall a, i :: 0 <= i < |published| && PendsFor(v, a, i) ==> exists k :: 0 <= k < |calls| && calls[k].addr == a)
  }

  lemma NothingToCall(v: View, published: seq<Message>)
    requires Matched(v) && forall a, i: nat :: i < |published| ==> !PendsFor(v, a, i)
    ensures Batch(v, published, [])
  {
    hide PendsFor;
  }

  lemma DrainAgrees(v: View, v': View, published: seq<Message>, log: seq<Call>, calls: seq<Call>, nv: Naive)
    requires Agrees(v, published, log, nv) && Batch(v, published, calls)
    requires v'.subs == v.subs && v'.pending.Keys == v.pending.Keys && forall p :: p in v'.pending ==>
               v'.pending[p] == {}
    ensures Agrees(v', published, log + calls, nv)
  {
    hide Collect, Delivered;
    forall a | a in nv.streams
      ensures StreamAgrees(v', published, log + calls, nv, a)
    {
      assert StreamAgrees(v, published, log, nv, a);
      var ids := PendingIds(v, a, |published|);
      DeliveredConcat(log, calls, a);
      CollectNone(published, PendingIds(v', a, |published|));
      AppendLaws(Append(Delivered(log, a), Delivered(calls, a)), NOTHING, NOTHING);
      if k :| 0 <= k < |calls| && calls[k].addr == a {
        DeliveredOnce(calls, k);
      } else {
        forall c | c in calls ensures c.addr != a {
          var k :| 0 <= k < |calls| && calls[k] == c;
        }
        DeliveredNone(calls, a);
        CollectNone(published, ids);
      }
    }
  }

  /**
   Subscriptions may change where nothing is pending, and nodes without subscribers may come and go: no stream
   is affected.
   */
  lemma ResubscribeAgrees(v: View, v': View, published: seq<Message>, log: seq<Call>, nv: Naive, nv': Naive)
    requires Agrees(v, published, log, nv)
    requires Matched(v') && nv'.streams == nv.streams && nv'.filters.Keys == nv.filters.Keys
    requires forall p, a :: p in v'.subs && a in v'.subs[p] ==> a in nv'.filters && p in nv'.filters[a]
    requires forall a, p :: a in nv'.filters && p in nv'.filters[a] ==> p in v'.subs && a in v'.subs[p]
    requires forall p :: p in v.subs && p in v'.subs ==>
               v'.pending[p] == v.pending[p] && (v'.subs[p] != v.subs[p] ==> v.pending[p] == {})
    requires forall p :: p in v.subs && p !in v'.subs ==> v.subs[p] == {} || v.pending[p] == {}
    requires forall p :: p in v'.subs && p !in v.subs ==> v'.subs[p] == {} || v'.pending[p] == {}
    ensures Agrees(v', published, log, nv')
  {
    hide Collect, Delivered;
    forall a | a in nv.streams
      ensures StreamAgrees(v', published, log, nv', a)
    {
      assert StreamAgrees(v, published, log, nv, a);
      forall i: nat ensures PendsFor(v, a, i) <==> PendsFor(v', a, i) {
        PendsAsBefore(v, v', a, i);
      }
      CollectOf(published, PendingIds(v, a, |published|), PendingIds(v', a, |published|));
    }
  }

  lemma PendsAsBefore(v: View, v': View, a: nat, i: nat)
    requires Matched(v) && Matched(v')
    requires forall p :: p in v.subs && p in v'.subs ==>
               v'.pending[p] == v.pending[p] && (v'.subs[p] != v.subs[p] ==> v.pending[p] == {})
    requires forall p :: p in v.subs && p !in v'.subs ==> v.subs[p] == {} || v.pending[p] == {}
    requires forall p :: p in v'.subs && p !in v.subs ==> v'.subs[p] == {} || v'.pending[p] == {}
    ensures PendsFor(v, a, i) <==> PendsFor(v', a, i)
  {
    if PendsFor(v, a, i) {
      var p :| p in v.subs && a in v.subs[p] && i in v.pending[p];
      assert p in v'.subs && a in v'.subs[p] && i in v'.pending[p];
    }
    if PendsFor(v', a, i) {
      var p :| p in v'.subs && a in v'.subs[p] && i in v'.pending[p];
      assert p in v.subs && a in v.subs[p] && i in v.pending[p];
    }
  }

  /** A new subscriber has nothing coming, whoever had its address before. */
  lemma JoinAgrees(v: View, published: seq<Message>, log: seq<Call>, nv: Naive, addr: nat)
    requires Agrees(v, published, log, nv) && addr !in nv.filters
    ensures Agrees(v, published, log, Admit(nv, addr, Delivered(log, addr)))
  {
    hide Collect, Delivered;
    var nv' := Admit(nv, addr, Delivered(log, addr));
    forall a | a in nv'.streams ensures StreamAgrees(v, published, log, nv', a) {
      if a == addr {
        CollectNone(published, PendingIds(v, a, |published|));
        AppendLaws(Delivered(log, addr), NOTHING, NOTHING);
      } else {
        assert StreamAgrees(v, published, log, nv, a);
      }
    }
  }

  /** A subscriber that is gone, with whatever it had coming, is no concern of the others. */
  lemma LeaveAgrees(v: View, v': View, published: seq<Message>, log: seq<Call>, nv: Naive, addr: nat)
    requires Agrees(v, published, log, nv)
    requires Matched(v') && v'.subs.Keys <= v.subs.Keys
    requires forall p :: p in v'.subs ==> v'.subs[p] == v.subs[p] - {addr} && v'.pending[p] == v.pending[p]
    requires forall p :: p in v.subs && p !in v'.subs ==> v.subs[p] <= {addr}
    ensures Agrees(v', published, log, Release(nv, addr))
  {
    hide Collect, Delivered;
    var nv' := Release(nv, addr);
    forall a | a in nv'.streams ensures StreamAgrees(v', published, log, nv', a) {
      assert StreamAgrees(v, published, log, nv, a);
      forall i: nat ensures PendsFor(v, a, i) <==> PendsFor(v', a, i) {
        if PendsFor(v, a, i) {
          var p :| p in v.subs && a in v.subs[p] && i in v.pending[p];
          assert p in v'.subs && a in v'.subs[p] && i in v'.pending[p];
        }
        if PendsFor(v', a, i) {
          var p :| p in v'.subs && a in v'.subs[p] && i in v'.pending[p];
          assert p in v.subs && a in v.subs[p] && i in v.pending[p];
        }
      }
      CollectOf(published, PendingIds(v, a, |published|), PendingIds(v', a, |published|));
    }
  }
}
