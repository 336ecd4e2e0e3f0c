/**
 What subscribers get, octet by octet: batches, calls and naive delivery told as messages put one behind the other, and
 naive delivery told from the history alone.
 */
module TopicStreams {
  import opened Bytes
  import opened Places
  import opened TopicMatch
  import opened TopicBatch

  function AllInflated(ms: seq<Message>): (s: seq<seq<byte>>) {
    seq(|ms|, i requires 0 <= i < |ms| => ms[i].inflated)
  }

  function AllDeflated(ms: seq<Message>): (s: seq<seq<byte>>) {
    seq(|ms|, i requires 0 <= i < |ms| => ms[i].deflated)
  }

  /** `m` is, in both forms, `first` and behind it the messages `ms` in their order. */
  predicate IsRow(m: Message, first: Message, ms: seq<Message>) {
    && m.inflated == first.inflated + Flatten(AllInflated(ms))
    && m.deflated == first.deflated + Flatten(AllDeflated(ms))
  }

  lemma RowOfNothing(first: Message)
    ensures IsRow(first, first, [])
  {
  }

  lemma InflatedSnoc(ms: seq<Message>, more: Message)
    ensures Flatten(AllInflated(ms + [more])) == Flatten(AllInflated(ms)) + more.inflated
  {
    hide Flatten;
    assert AllInflated(ms + [more]) == AllInflated(ms) + [more.inflated];
    FlattenSnoc(AllInflated(ms), more.inflated);
  }

  lemma DeflatedSnoc(ms: seq<Message>, more: Message)
    ensures Flatten(AllDeflated(ms + [more])) == Flatten(AllDeflated(ms)) + more.deflated
  {
    hide Flatten;
    assert AllDeflated(ms + [more]) == AllDeflated(ms) + [more.deflated];
    FlattenSnoc(AllDeflated(ms), more.deflated);
  }

  lemma RowSnoc(m: Message, first: Message, ms: seq<Message>, more: Message)
    requires IsRow(m, first, ms)
    ensures IsRow(Append(m, more), first, ms + [more])
  {
    hide Flatten, AllInflated, AllDeflated;
    InflatedSnoc(ms, more);
    DeflatedSnoc(ms, more);
    Regroup(first.inflated, Flatten(AllInflated(ms)), more.inflated);
    Regroup(first.deflated, Flatten(AllDeflated(ms)), more.deflated);
  }

  lemma Regroup(a: seq<byte>, b: seq<byte>, c: seq<byte>)
    ensures a + b + c == a + (b + c)
  {
  }

  // ---- Batches and calls ----

  lemma {:induction false} CollectIsRow(published: seq<Message>, ids: set<nat>) returns (order: seq<nat>)
    ensures Increasing(order) && Inside(order, |published|)
    ensures forall i: nat :: i in order <==> i < |published| && i in ids
    ensures IsRow(Collect(published, ids), NOTHING, Picked(published, order))
  {
    hide IsRow, Append;
    if published == [] {
      order := [];
      RowOfNothing(NOTHING);
      assert Picked(published, order) == [];
    } else {
      var n := |published| - 1;
      order := CollectIsRow(published[..n], ids);
      assert Picked(published[..n], order) == Picked(published, order);
      if n in ids {
        RowSnoc(Collect(published[..n], ids), NOTHING, Picked(published, order), published[n]);
        assert Picked(published, order + [n]) == Picked(published, order) + [published[n]];
        order := order + [n];
      }
    }
  }

  /**
   What a drain hands to a subscriber in its one call: all messages pending for it, one behind the other in the order of
   their ids, in both forms.
   */
  lemma CallCarries(v: View, published: seq<Message>, calls: seq<Call>, k: nat) returns (order: seq<nat>)
    requires Matched(v) && Batch(v, published, calls) && k < |calls|
    ensures Increasing(order) && Inside(order, |published|)
    ensures forall i: nat :: i in order <==> i < |published| && PendsFor(v, calls[k].addr, i)
    ensures IsRow(calls[k].data, NOTHING, Picked(published, order))
  {
    hide PendsFor, IsRow, Collect;
    order := CollectIsRow(published, PendingIds(v, calls[k].addr, |published|));
  }

  /** What the calls of `log` at the given places have handed out. */
  function Handed(log: seq<Call>, at: seq<nat>): (ms: seq<Message>)
    requires Inside(at, |log|)
  {
    seq(|at|, k requires 0 <= k < |at| => log[at[k]].data)
  }

  /** What the calls so far have handed to one subscriber: the data of its calls, one behind the other. */
  lemma {:induction false} DeliveredIsRow(log: seq<Call>, addr: nat) returns (mine: seq<nat>)
    ensures Increasing(mine) && Inside(mine, |log|)
    ensures forall i: nat :: i in mine <==> i < |log| && log[i].addr == addr
    ensures IsRow(Delivered(log, addr), NOTHING, Handed(log, mine))
  {
    hide IsRow, Append;
    if log == [] {
      mine := [];
      RowOfNothing(NOTHING);
      assert Handed(log, mine) == [];
    } else {
      var n := |log| - 1;
      mine := DeliveredIsRow(log[..n], addr);
      assert Handed(log[..n], mine) == Handed(log, mine);
      if log[n].addr == addr {
        RowSnoc(Delivered(log[..n], addr), NOTHING, Handed(log, mine), log[n].data);
        assert Handed(log, mine + [n]) == Handed(log, mine) + [log[n].data];
        mine := mine + [n];
      }
    }
  }

  // ---- Naive delivery, told from the history ----

  /** What takes a filter from an address. */
  predicate Removes(op: Op, a: nat, f: Path) {
    match op
    case Joined(addr, _) => addr == a
    case Left(addr) => addr == a
    case Unsubscribed(addr, filters) => addr == a && f in filters
    case _ => false
  }

  /** In the first `n` steps the filter has been subscribed to, and not taken away since. */
  ghost predicate HasFilter(history: seq<Op>, n: nat, a: nat, f: Path)
    requires n <= |history|
  {
    exists k :: 0 <= k < n && history[k] == Subscribed(a, f) && forall j :: k < j < n ==> !Removes(history[j], a, f)
  }

  /** The step `k` publishes to a topic that one of the filters which `a` then has matches. */
  ghost predicate Hears(history: seq<Op>, k: nat, a: nat)
    requires k < |history|
  {
    history[k].Published? && exists f :: HasFilter(history, k, a, f) && Matches(f, history[k].topic)
  }

  /** `since` is where the present owner of the address joined. */
  predicate JoinedAt(history: seq<Op>, a: nat, since: nat) {
    && since < |history| && history[since].Joined? && history[since].addr == a
    && forall k :: since < k < |history| ==> history[k] != Left(a) && !(history[k].Joined? && history[k].addr == a)
  }

  lemma HasFilterSnoc(history: seq<Op>, op: Op, a: nat, f: Path)
    ensures HasFilter(history + [op], |history| + 1, a, f)
       <==> op == Subscribed(a, f) || (HasFilter(history, |history|, a, f) && !Removes(op, a, f))
  {
    hide Removes;
    var n, all := |history|, history + [op];
    if HasFilter(all, n + 1, a, f) {
      var k :| 0 <= k < n + 1 && all[k] == Subscribed(a, f) && forall j :: k < j < n + 1 ==> !Removes(all[j], a, f);
      if k < n {
        assert !Removes(all[n], a, f);
        forall j | k < j < n ensures !Removes(history[j], a, f) {
          assert all[j] == history[j];
        }
      }
    }
    if op == Subscribed(a, f) {
      assert all[n] == op;
    } else if HasFilter(history, n, a, f) && !Removes(op, a, f) {
      var k :| 0 <= k < n && history[k] == Subscribed(a, f) && forall j :: k < j < n ==> !Removes(history[j], a, f);
      forall j | k < j < n + 1 ensures !Removes(all[j], a, f) {
        assert j < n ==> all[j] == history[j];
      }
      assert all[k] == Subscribed(a, f);
    }
  }

  lemma ApplyKeeps(nv: Naive, op: Op, a: nat, f: Path)
    requires Known(nv) && a in Apply(nv, op).filters
    ensures f in Apply(nv, op).filters[a]
       <==> op == Subscribed(a, f) || (a in nv.filters && f in nv.filters[a] && !Removes(op, a, f))
    ensures a !in nv.filters ==> op.Joined? && op.addr == a
  {
    hide Append, Wants;
  }

  /** The filters of a member are those the history leaves it with. */
  lemma {:induction false} FiltersAreHeld(history: seq<Op>, a: nat, f: Path)
    requires a in Replay(history).filters
    ensures f in Replay(history).filters[a] <==> HasFilter(history, |history|, a, f)
  {
    hide HasFilter, Apply;
    if history != [] {
      var n := |history| - 1;
      var was, op := Replay(history[..n]), history[n];
      assert history == history[..n] + [op];
      HasFilterSnoc(history[..n], op, a, f);
      ApplyKeeps(was, op, a, f);
      if a in was.filters {
        FiltersAreHeld(history[..n], a, f);
      }
    }
  }

  lemma WantedIsHeard(history: seq<Op>, k: nat, a: nat)
    requires k < |history| && history[k].Published? && a in Replay(history[..k]).filters
    ensures Hears(history, k, a) <==> Wants(Replay(history[..k]).filters[a], history[k].topic)
  {
    hide HasFilter, Replay, Matches;
    forall f ensures f in Replay(history[..k]).filters[a] <==> HasFilter(history, k, a, f) {
      FiltersAreHeld(history[..k], a, f);
      HasFilterEarlier(history, k, a, f);
    }
  }

  lemma HasFilterEarlier(history: seq<Op>, k: nat, a: nat, f: Path)
    requires k <= |history|
    ensures HasFilter(history[..k], k, a, f) <==> HasFilter(history, k, a, f)
  {
    hide Removes;
    if HasFilter(history, k, a, f) {
      var i :| 0 <= i < k && history[i] == Subscribed(a, f) && forall j :: i < j < k ==> !Removes(history[j], a, f);
      assert history[..k][i] == Subscribed(a, f);
    }
  }

  /** The messages published at the given steps. */
  function Said(history: seq<Op>, at: seq<nat>): (ms: seq<Message>)
    requires Inside(at, |history|) && forall k :: 0 <= k < |at| ==> history[at[k]].Published?
  {
    seq(|at|, k requires 0 <= k < |at| => history[at[k]].message)
  }

  /** The steps since `since` in which `a` hears something. */
  ghost predicate HeardAt(history: seq<Op>, a: nat, since: nat, heard: seq<nat>) {
    && Increasing(heard) && Inside(heard, |history|)
    && forall k: nat :: k in heard <==> since < k < |history| && Hears(history, k, a)
  }

  /**
   Naive delivery, told from the history: what the owner of an address has got is what the address had got when it
   joined, and behind it, in the order of the history, each message published since to a topic that one of its filters
   matched.
   */
  lemma {:induction false} StreamIsHeard(history: seq<Op>, a: nat) returns (since: nat, heard: seq<nat>)
    requires a in Replay(history).streams
    ensures JoinedAt(history, a, since) && HeardAt(history, a, since, heard)
    ensures forall k :: 0 <= k < |heard| ==> history[heard[k]].Published?
    ensures IsRow(Replay(history).streams[a], history[since].soFar, Said(history, heard))
  {
    hide IsRow, Append, Hears, Wants, Flatten;
    var n := |history| - 1;
    var was, op := Replay(history[..n]), history[n];
    if op.Joined? && op.addr == a {
      since, heard := n, [];
      RowOfNothing(op.soFar);
      assert Said(history, heard) == [];
    } else {
      since, heard := StreamIsHeard(history[..n], a);
      assert Said(history[..n], heard) == Said(history, heard);
      HearsEarlier(history, n, a);
      if op.Published? {
        WantedIsHeard(history, n, a);
        if Wants(was.filters[a], op.topic) {
          RowSnoc(was.streams[a], history[since].soFar, Said(history, heard), op.message);
          assert Said(history, heard + [n]) == Said(history, heard) + [op.message];
          heard := heard + [n];
        }
      } else {
        NotHeard(history, n, a);
      }
    }
  }

  lemma HearsEarlier(history: seq<Op>, n: nat, a: nat)
    requires n <= |history|
    ensures forall k: nat :: k < n ==> (Hears(history[..n], k, a) <==> Hears(history, k, a))
  {
    hide HasFilter, Matches;
    forall k: nat | k < n ensures Hears(history[..n], k, a) <==> Hears(history, k, a) {
      assert history[..n][..k] == history[..k];
      forall f ensures HasFilter(history[..n], k, a, f) <==> HasFilter(history, k, a, f) {
        HasFilterEarlier(history, k, a, f);
        HasFilterEarlier(history[..n], k, a, f);
      }
    }
  }

  lemma NotHeard(history: seq<Op>, k: nat, a: nat)
    requires k < |history| && !history[k].Published?
    ensures !Hears(history, k, a)
  {
  }
}
