/** The topic tree: a trie of filters with lazy, batched publishing. */
module TopicTrees {
  import opened Bytes
  import opened Places
  import opened TopicMatch
  import opened TopicBatch
  import opened TopicStreams
  import opened TopicMerge
  import opened TopicNodes

  const MAX_TRIGGERED: nat := 64

  class TopicTree {
    const root: Topic
    var messageId: nat
    const triggeredTopics: array<Topic?>
    var numTriggeredTopics: nat
    var min: nat

    /** The calls of the callback so far. */
    var log: seq<Call>

    /** Every node of the tree, by path. */
    ghost var nodes: map<Path, Topic>

    /** Every message published, by id. */
    ghost var published: seq<Message>

    /** Every living subscriber, by address. */
    ghost var members: map<nat, Subscriber>

    /** All that has happened. */
    ghost var history: seq<Op>

    // ---- What holds of the tree ----

    /** The links of one node. */
    ghost predicate Linked(p: Path)
      reads this`nodes, nodes.Values`children, nodes.Values`wildcardChild, nodes.Values`terminatingWildcardChild
    {
      p in nodes &&
      var t := nodes[p];
      && t.path == p
      && (p == [] ==> t == root)
      && (p != [] ==>
            && p[..|p| - 1] in nodes && t.parent == nodes[p[..|p| - 1]] && t.name == p[|p| - 1])
      && (forall seg {:trigger seg in t.children} :: seg in t.children <==> p + [seg] in nodes)
      && (forall seg :: seg in t.children ==> t.children[seg] == nodes[p + [seg]])
      && t.wildcardChild == (if PLUS in t.children then t.children[PLUS] else null)
      && t.terminatingWildcardChild == (if HASH in t.children then t.children[HASH] else null)
    }

    ghost predicate Tree()
      reads this`nodes, nodes.Values`children, nodes.Values`wildcardChild, nodes.Values`terminatingWildcardChild
    {
      [] in nodes && forall p {:trigger Linked(p)} :: p in nodes ==> Linked(p)
    }

    /** `t` is a live node. */
    ghost predicate Live(t: Topic?)
      reads this`nodes
    {
      t != null && t.path in nodes && nodes[t.path] == t
    }

    /** Every node knows its path, so no node stands at two of them. */
    ghost predicate Distinct()
      reads this`nodes
    {
      forall p :: p in nodes ==> nodes[p].path == p
    }

    lemma TreeIsDistinct()
      requires Tree()
      ensures Distinct()
    {
      forall p | p in nodes ensures nodes[p].path == p {
        assert Linked(p);
      }
    }

    /** The triggered list. */
    ghost function Triggered(): (list: seq<Topic?>)
      requires numTriggeredTopics <= triggeredTopics.Length
      reads this`numTriggeredTopics, triggeredTopics
    {
      triggeredTopics[..numTriggeredTopics]
    }

    /** `list` holds each triggered live node once, and nothing else. */
    ghost predicate Lists(list: seq<Topic?>)
      reads this`nodes, nodes.Values`triggered
    {
      && (forall t :: t in list ==> Live(t) && t.triggered)
      && (forall i, j :: 0 <= i < j < |list| ==> list[i] != list[j])
      && (forall p :: p in nodes && nodes[p].triggered ==> nodes[p] in list)
    }

    ghost predicate Listed()
      reads this`nodes, this`numTriggeredTopics, triggeredTopics, nodes.Values`triggered
    {
      && triggeredTopics.Length == MAX_TRIGGERED && numTriggeredTopics <= MAX_TRIGGERED
      && Lists(Triggered())
    }

    constructor ()
      ensures fresh(root) && fresh(triggeredTopics)
      ensures Valid() && Quiet() && nodes.Keys == {[]} && members == map[] && history == [] && log == []
      ensures fresh(nodes.Values)
    {
      var r := new Topic("", null);
      root := r;
      messageId, numTriggeredTopics, min, log := 0, 0, UINTPTR_MAX, [];
      triggeredTopics := new Topic?[MAX_TRIGGERED](i => null);
      nodes, published, members, history := map[[] := r], [], map[], [];
      new;
      StartsValid();
    }

    /** Pending messages are published messages, and where something is pending the node is triggered. */
    ghost predicate PendingOk()
      reads this`nodes, this`published, nodes.Values`messages, nodes.Values`triggered
    {
      forall p :: p in nodes ==>
        Genuine(published, nodes[p].messages) && (nodes[p].messages != map[] ==> nodes[p].triggered)
    }

    ghost predicate SubsSorted()
      reads this`nodes, nodes.Values`subs
    {
      forall p :: p in nodes ==> Sorted(nodes[p].subs)
    }

    /** The tree as the naive delivery is compared with. */
    ghost function Seen(): (v: View)
      reads this`nodes, nodes.Values`subs, nodes.Values`messages
    {
      View(map p | p in nodes :: AddrSet(nodes[p].subs), map p | p in nodes :: nodes[p].messages.Keys)
    }

    // ---- publish ----

    /** What is left of a topic when matching stands at `start`, the last separator having been found at `stop`. */
    static function Rest(topic: string, start: int, stop: int): Path
      requires stop == -1 || 0 <= start <= |topic|
    {
      if stop == -1 then [] else Segments(topic, start)
    }

    /** All triggered nodes lie in `bound`. */
    ghost predicate Within(list: seq<Topic?>, bound: set<Path>)
      reads this`nodes
    {
      forall t :: t in list ==> Live(t) && t.path in bound
    }

    /**
     The triggered list, bounded by `bound`, is not full when publish is entered once more for the child + of a node:
     there is room left in any case, or there is no such child on the way `rest` from node `q`.
     */
    ghost predicate Roomy(bound: set<Path>, q: Path, rest: Path)
      reads this`nodes
    {
      || |bound| < MAX_TRIGGERED
      || (|bound| == MAX_TRIGGERED && forall i :: 0 <= i < |rest| ==> q + rest[..i] + [PLUS] !in nodes)
    }

    lemma RoomyBound(bound: set<Path>, q: Path, rest: Path)
      requires Roomy(bound, q, rest)
      ensures |bound| <= MAX_TRIGGERED
    {
    }

    lemma RoomyNext(bound: set<Path>, q: Path, segment: string, rest: Path)
      requires Roomy(bound, q, [segment] + rest)
      ensures |bound| < MAX_TRIGGERED || q + [PLUS] !in nodes
      ensures Roomy(bound, q + [segment], rest)
    {
      var all := [segment] + rest;
      assert q + all[..0] + [PLUS] == q + [PLUS];
      forall i | 0 <= i < |rest| ensures q + all[..i + 1] + [PLUS] == q + [segment] + rest[..i] + [PLUS] {
        assert all[..i + 1] == [segment] + rest[..i];
      }
    }

    /** Puts a node on the triggered list unless it is there already. */
    method Trigger(t: Topic, ghost bound: set<Path>)
      requires Live(t) && Listed() && |bound| <= MAX_TRIGGERED && t.path in bound && Within(Triggered(), bound)
      modifies t`triggered, triggeredTopics, this`numTriggeredTopics
      ensures Listed() && Within(Triggered(), bound) && t.triggered
    {
      if !t.triggered {
        ghost var list := Triggered();
        assert t !in list;
        DistinctPaths(list, bound - {t.path});
        triggeredTopics[numTriggeredTopics] := t;
        numTriggeredTopics := numTriggeredTopics + 1;
        t.triggered := true;
        assert Triggered() == list + [t];
      }
    }

    /** Stores a message at a node and triggers it. */
    method Store(t: Topic, message: Message, ghost bound: set<Path>)
      requires Distinct() && Live(t) && Listed()
      requires |bound| <= MAX_TRIGGERED && t.path in bound && Within(Triggered(), bound)
      modifies t`messages, t`triggered, triggeredTopics, this`numTriggeredTopics
      ensures Listed() && Within(Triggered(), bound)
      ensures Messages() == Marked(old(Messages()), {t.path}, messageId, message)
      ensures TriggeredPaths() == old(TriggeredPaths()) + {t.path}
    {
      hide Lists, Within;
      t.messages := t.messages[messageId := message];
      Trigger(t, bound);
    }

    /** Distinct live nodes have distinct paths. */
    lemma DistinctPaths(list: seq<Topic?>, bound: set<Path>)
      requires Within(list, bound)
      requires forall i, j :: 0 <= i < j < |list| ==> list[i] != list[j]
      ensures |list| <= |bound|
    {
      if list != [] {
        var n := |list| - 1;
        assert list[n] in list;
        var p := list[n].path;
        forall t | t in list[..n] ensures t != null && t.path in bound - {p} {
          assert t in list && Live(t) && Live(list[n]);
        }
        DistinctPaths(list[..n], bound - {p});
      }
    }

    /** What is pending at each node. */
    ghost function Messages(): (m: map<Path, map<nat, Message>>)
      reads this`nodes, nodes.Values`messages
    {
      map p | p in nodes :: nodes[p].messages
    }

    ghost function TriggeredPaths(): (s: set<Path>)
      reads this`nodes, nodes.Values`triggered
    {
      set p | p in nodes && nodes[p].triggered
    }

    lemma {:induction false} PrefixIsNode(p: Path, k: nat)
      requires Tree() && p in nodes && k <= |p|
      ensures p[..k] in nodes
      decreases |p|
    {
      if k < |p| {
        assert Linked(p);
        PrefixIsNode(p[..|p| - 1], k);
        assert p[..|p| - 1][..k] == p[..k];
      } else {
        assert p[..k] == p;
      }
    }

    /** Nothing lies under a path that is not a node. */
    lemma NoHits(q: Path, rest: Path)
      requires Tree() && q !in nodes
      ensures Hits(nodes.Keys, q, rest) == {}
    {
      forall p | p in nodes && Under(p, q, rest) ensures false {
        PrefixIsNode(p, |q|);
      }
    }

    /**
     Publishes `message` below `top`, which has been reached by the part of `topic` before `start`: exactly the
     nodes whose path matches the rest get the message, and exactly those become triggered.
     */
    method PublishFrom(top: Topic, start: int, stop: int, topic: string, message: Message, ghost bound: set<Path>)
      requires stop == -1 || 0 <= start <= |topic|
      requires Tree() && Live(top) && Listed() && Within(Triggered(), bound)
      requires Hits(nodes.Keys, top.path, Rest(topic, start, stop)) <= bound
      requires Roomy(bound, top.path, Rest(topic, start, stop))
      modifies nodes.Values`messages, nodes.Values`triggered, triggeredTopics, this`numTriggeredTopics
      ensures Listed() && Within(Triggered(), bound)
      ensures Messages()
              == Marked(old(Messages()), Hits(nodes.Keys, top.path, Rest(topic, start, stop)), messageId, message)
      ensures TriggeredPaths() == old(TriggeredPaths()) + Hits(nodes.Keys, top.path, Rest(topic, start, stop))
      decreases if stop == -1 then 0 else |topic| + 1 - start, 2
    {
      hide Linked, Tree, Lists, Under, Marked, Within, Segments, Roomy;
      RoomyBound(bound, top.path, Rest(topic, start, stop));
      var at, from, to := top, start, stop;
      ghost var keys, total := nodes.Keys, Hits(nodes.Keys, top.path, Rest(topic, start, stop));
      ghost var done: set<Path> := {};
      MarkNothing(Messages(), messageId, message);
      while to != -1
        invariant to == -1 || 0 <= from <= |topic|
        invariant Tree() && Live(at) && Listed() && Within(Triggered(), bound)
        invariant Roomy(bound, at.path, Rest(topic, from, to))
        invariant total == done + Hits(keys, at.path, Rest(topic, from, to))
        invariant Messages() == Marked(old(Messages()), done, messageId, message)
        invariant TriggeredPaths() == old(TriggeredPaths()) + done
        decreases if to == -1 then 0 else |topic| + 1 - from
      {
        ghost var before := Messages();
        var child, to', hits := PublishStep(at, from, topic, message, bound);
        MarkTwice(old(Messages()), done, hits, messageId, message);
        done := done + hits;
        if child == null {
          return;
        }
        at, from, to := child, to' + 1, to';
      }
      HitsNothing(keys, at.path);
      TreeIsDistinct();
      Store(at, message, bound);
      MarkTwice(old(Messages()), done, {at.path}, messageId, message);
    }

    /** One turn of the loop in publish: both wildcard children, then the literal child to go on with, if any. */
    method PublishStep(at: Topic, from: nat, topic: string, message: Message, ghost bound: set<Path>)
      returns (child: Topic?, to: int, ghost hits: set<Path>)
      requires from <= |topic|
      requires Tree() && Live(at) && Listed() && Within(Triggered(), bound)
      requires Hits(nodes.Keys, at.path, Segments(topic, from)) <= bound
      requires Roomy(bound, at.path, Segments(topic, from))
      modifies nodes.Values`messages, nodes.Values`triggered, triggeredTopics, this`numTriggeredTopics
      ensures Listed() && Within(Triggered(), bound)
      ensures to == -1 || from <= to < |topic|
      ensures child != null ==>
                && Live(child) && Roomy(bound, child.path, Rest(topic, to + 1, to))
                && Hits(nodes.Keys, at.path, Segments(topic, from))
                   == hits + Hits(nodes.Keys, child.path, Rest(topic, to + 1, to))
      ensures child == null ==> hits == Hits(nodes.Keys, at.path, Segments(topic, from))
      ensures Messages() == Marked(old(Messages()), hits, messageId, message)
      ensures TriggeredPaths() == old(TriggeredPaths()) + hits
      decreases |topic| + 1 - from, 1
    {
      hide Lists, Hits, Marked, Within, Tree, Linked, Find, Messages, TriggeredPaths, Listed, Roomy;
      RoomyBound(bound, at.path, Segments(topic, from));
      to := Find(topic, '/', from);
      var segment := if to == -1 then topic[from..] else topic[from..to];
      ghost var rest := Rest(topic, to + 1, to);
      assert Segments(topic, from) == [segment] + rest;
      assert ([segment] + rest)[1..] == rest;
      RoomyNext(bound, at.path, segment, rest);
      HitsStep(nodes.Keys, at.path, Segments(topic, from));
      hits := WildHits(at.path, rest);
      PublishWild(at, to, from, topic, message, bound);
      LinksAt(at);
      if segment !in at.children {
        NoHits(at.path + [segment], rest);
        return null, to, hits;
      }
      child := at.children[segment];
      ChildIsLive(at, segment);
    }

    /** What a topic hits through the wildcard children of node `q`. */
    ghost function WildHits(q: Path, rest: Path): (h: set<Path>)
      reads this`nodes
    {
      (if q + [HASH] in nodes then {q + [HASH]} else {}) + Hits(nodes.Keys, q + [PLUS], rest)
    }

    /** Publishes through the wildcard children of `at`. */
    method PublishWild(at: Topic, to: int, ghost from: nat, topic: string, message: Message, ghost bound: set<Path>)
      requires to == -1 || from <= to < |topic|
      requires from <= |topic|
      requires Tree() && Live(at) && Listed() && |bound| <= MAX_TRIGGERED && Within(Triggered(), bound)
      requires |bound| < MAX_TRIGGERED || at.path + [PLUS] !in nodes
      requires WildHits(at.path, Rest(topic, to + 1, to)) <= bound
      modifies nodes.Values`messages, nodes.Values`triggered, triggeredTopics, this`numTriggeredTopics
      ensures Listed() && Within(Triggered(), bound)
      ensures Messages() == Marked(old(Messages()), WildHits(at.path, Rest(topic, to + 1, to)), messageId, message)
      ensures TriggeredPaths() == old(TriggeredPaths()) + WildHits(at.path, Rest(topic, to + 1, to))
      decreases |topic| + 1 - from, 0
    {
      hide Lists, Hits, Marked, Within, Tree, Linked, Messages, TriggeredPaths, Listed, Rest;
      TreeIsDistinct();
      LinksAt(at);
      ghost var rest, was := Rest(topic, to + 1, to), Messages();
      ghost var hits: set<Path> := {};
      MarkNothing(was, messageId, message);
      if at.terminatingWildcardChild != null {
        Store(at.terminatingWildcardChild, message, bound);
        hits := {at.path + [HASH]};
      }
      if at.wildcardChild != null {
        PublishFrom(at.wildcardChild, to + 1, to, topic, message, bound);
        MarkTwice(was, hits, Hits(nodes.Keys, at.path + [PLUS], rest), messageId, message);
      } else {
        NoHits(at.path + [PLUS], rest);
        assert WildHits(at.path, rest) == hits;
      }
    }

    /** What the links of a live node say about its wildcard children. */
    lemma LinksAt(t: Topic)
      requires Tree() && Live(t)
      ensures t.wildcardChild == null <==> t.path + [PLUS] !in nodes
      ensures t.wildcardChild != null ==> Live(t.wildcardChild) && t.wildcardChild.path == t.path + [PLUS]
      ensures t.terminatingWildcardChild == null <==> t.path + [HASH] !in nodes
      ensures t.terminatingWildcardChild != null ==>
                Live(t.terminatingWildcardChild) && t.terminatingWildcardChild.path == t.path + [HASH]
      ensures forall seg :: seg in t.children <==> t.path + [seg] in nodes
    {
      assert Linked(t.path);
      if PLUS in t.children {
        assert Linked(t.path + [PLUS]);
      }
      if HASH in t.children {
        assert Linked(t.path + [HASH]);
      }
    }

    lemma ChildIsLive(t: Topic, seg: string)
      requires Tree() && Live(t) && seg in t.children
      ensures Live(t.children[seg]) && t.children[seg].path == t.path + [seg]
    {
      assert Linked(t.path) && Linked(t.path + [seg]);
    }

    // ---- drain ----

    /** The nodes that have subscribers. */
    ghost function Kept(): (keep: set<Topic?>)
      reads this`nodes, nodes.Values`subs
    {
      set t: Topic | t in nodes.Values && t.subs != []
    }

    lemma ListedAreNodes(list: seq<Topic?>)
      requires Lists(list)
      ensures forall t :: t in list ==> t != null && t in nodes.Values
    {
      forall t | t in list ensures t != null && t in nodes.Values {
        assert Live(t);
      }
    }

    /** Clears one node. */
    method ClearTopic(t: Topic)
      requires t in nodes.Values
      modifies t`messages, t`triggered
      ensures Contents() == old(Contents())[t := (map[], false)]
    {
      t.messages := map[];
      t.triggered := false;
    }

    /** Drops triggered topics without subscribers from the list, together with what was pending there. */
    method FilterTriggered()
      requires Listed() && |Triggered()| == numTriggeredTopics
      modifies nodes.Values`messages, nodes.Values`triggered, triggeredTopics, this`numTriggeredTopics
      ensures triggeredTopics.Length == MAX_TRIGGERED && numTriggeredTopics <= MAX_TRIGGERED
      ensures Triggered() == Filter(old(Triggered()), Kept())
      ensures Contents() == Cleared(old(Contents()), old(Triggered()), Kept())
    {
      hide Filter, Lists, Cleared, Contents;
      var numFiltered := 0;
      ghost var list, keep, was := Triggered(), Kept(), Contents();
      ListedAreNodes(list);
      FilterNothing(keep);
      ClearedNothing(was, keep);
      for i := 0 to numTriggeredTopics
        invariant 0 <= numFiltered <= i
        invariant numTriggeredTopics == |list| && Kept() == keep
        invariant triggeredTopics[..numFiltered] == Filter(list[..i], keep)
        invariant triggeredTopics[i..|list|] == list[i..]
        invariant Contents() == Cleared(was, list[..i], keep)
      {
        assert list[i] in list;
        numFiltered := KeepOrClear(i, numFiltered, list, keep, was);
      }
      numTriggeredTopics := numFiltered;
      assert list[..|list|] == list;
    }

    /** One turn of the compaction. */
    method KeepOrClear(i: nat, numFiltered: nat, ghost list: seq<Topic?>, ghost keep: set<Topic?>,
                       ghost was: map<Topic, (map<nat, Message>, bool)>)
      returns (n: nat)
      requires numFiltered <= i < |list| <= triggeredTopics.Length && keep == Kept()
      requires list[i] != null && list[i] in nodes.Values && was.Keys == nodes.Values
      requires triggeredTopics[..numFiltered] == Filter(list[..i], keep) && triggeredTopics[i..|list|] == list[i..]
      requires Contents() == Cleared(was, list[..i], keep)
      modifies nodes.Values`messages, nodes.Values`triggered, triggeredTopics
      ensures n <= i + 1
      ensures triggeredTopics[..n] == Filter(list[..i + 1], keep) && triggeredTopics[i + 1..|list|] == list[i + 1..]
      ensures Contents() == Cleared(was, list[..i + 1], keep)
    {
      hide Filter, Cleared, Contents;
      var t := triggeredTopics[i];
      assert t == triggeredTopics[i..|list|][0] == list[i];
      FilterSnoc(list[..i], t, keep);
      ClearedSnoc(was, list[..i], t, keep);
      assert list[..i + 1] == list[..i] + [t];
      assert triggeredTopics[i + 1..|list|] == triggeredTopics[i..|list|][1..] == list[i + 1..];
      n := numFiltered;
      if |t.subs| != 0 {
        triggeredTopics[n] := t;
        n := n + 1;
      } else {
        ClearTopic(t);
      }
    }

    /** The ranges the merge iterates over. */
    method Ranges() returns (sets: seq<seq<nat>>, batches: seq<map<nat, Message>>)
      requires numTriggeredTopics <= triggeredTopics.Length && null !in Triggered()
      ensures RangesOf(sets, batches)
    {
      sets, batches := [], [];
      for i := 0 to numTriggeredTopics
        invariant |sets| == |batches| == i
        invariant forall k :: 0 <= k < i ==>
                    sets[k] == triggeredTopics[k].subs && batches[k] == triggeredTopics[k].messages
      {
        assert triggeredTopics[i] in Triggered();
        sets := sets + [triggeredTopics[i].subs];
        batches := batches + [triggeredTopics[i].messages];
      }
    }

    /** The least subscriber of all triggered topics. */
    method FindMin(sets: seq<seq<nat>>)
      requires forall i :: 0 <= i < |sets| ==> Sorted(sets[i]) && sets[i] != []
      modifies `min
      ensures IsLeast(sets, seq(|sets|, _ => 0), min)
    {
      hide Sorted;
      min := UINTPTR_MAX;
      ghost var zeros := seq(|sets|, _ => 0);
      assert sets[..0] == [] && zeros[..0] == [];
      for i := 0 to |sets|
        invariant Positions(sets[..i], zeros[..i]) && IsLeast(sets[..i], zeros[..i], min)
      {
        IsLeastSnoc(sets[..i], zeros[..i], min, sets[i], 0);
        assert sets[..i + 1] == sets[..i] + [sets[i]] && zeros[..i + 1] == zeros[..i] + [0];
        if |sets[i]| != 0 && min > sets[i][0] {
          min := sets[i][0];
        }
      }
      assert sets[..|sets|] == sets && zeros[..|sets|] == zeros;
    }

    /** Clears everything on the triggered list, and the list. */
    method ClearTriggered()
      requires numTriggeredTopics <= triggeredTopics.Length
      requires forall t :: t in Triggered() ==> t != null && t in nodes.Values
      modifies nodes.Values`messages, nodes.Values`triggered, `numTriggeredTopics
      ensures numTriggeredTopics == 0
      ensures old(ClearOutside()) ==> forall t: Topic :: t in nodes.Values ==> t.messages == map[] && !t.triggered
      ensures forall t: Topic :: t in nodes.Values ==>
                if t in old(Triggered()) then t.messages == map[] && !t.triggered
                else t.messages == old(t.messages) && t.triggered == old(t.triggered)
    {
      ghost var list, topics := Triggered(), nodes.Values;
      for i := 0 to numTriggeredTopics
        invariant numTriggeredTopics == |list| && nodes.Values == topics && Triggered() == list
        invariant forall t: Topic :: t in topics ==>
                    if t in list[..i] then t.messages == map[] && !t.triggered
                    else t.messages == old(t.messages) && t.triggered == old(t.triggered)
      {
        var t := triggeredTopics[i];
        assert t == list[i] && t in list && t in topics;
        assert list[..i + 1] == list[..i] + [t];
        t.messages := map[];
        t.triggered := false;
      }
      assert list[..|list|] == list;
      numTriggeredTopics := 0;
    }

    /** Nothing is triggered, so nothing is pending. */
    ghost predicate Quiet()
      reads this`nodes, this`numTriggeredTopics, triggeredTopics, nodes.Values`messages, nodes.Values`triggered
    {
      && triggeredTopics.Length == MAX_TRIGGERED && numTriggeredTopics == 0
      && forall p :: p in nodes ==> nodes[p].messages == map[] && !nodes[p].triggered
    }

    lemma NothingListed()
      requires Listed() && PendingOk() && numTriggeredTopics == 0
      ensures Quiet() && Batch(Seen(), published, [])
    {
      assert Triggered() == [];
      NothingToCall(Seen(), published);
    }

    /** Emits, for every subscriber, all it has pending, and clears the tree. */
    method Drain() returns (ghost calls: seq<Call>)
      requires Distinct() && Listed() && PendingOk() && SubsSorted()
      modifies nodes.Values`messages, nodes.Values`triggered, triggeredTopics, `numTriggeredTopics, `min, `log
      ensures Quiet()
      ensures log == old(log) + calls && Batch(old(Seen()), published, calls)
    {
      hide Batch, Genuine, Sorted, Lists, Filtered, AllGenuine, PendingOk;
      calls := [];
      if numTriggeredTopics == 0 {
        NothingListed();
        return;
      }
      ghost var v, list, keep := Seen(), Triggered(), Kept();
      FilterAndTell(v, list, keep);
      if numTriggeredTopics != 0 {
        calls := Emit(v, list, keep);
      } else {
        NothingKept(v, list, keep);
      }
      ClearTriggered();
      QuietAgain(list);
    }

    /** Everything outside the triggered list is clear. */
    ghost predicate ClearOutside()
      requires numTriggeredTopics <= triggeredTopics.Length
      reads this`nodes, this`numTriggeredTopics, triggeredTopics, nodes.Values`messages, nodes.Values`triggered
    {
      forall t: Topic :: t in nodes.Values && t !in Triggered() ==> t.messages == map[] && !t.triggered
    }

    /** FilterTriggered, with what it means for the drain. */
    method FilterAndTell(ghost v: View, ghost list: seq<Topic?>, ghost keep: set<Topic?>)
      requires Distinct() && Listed() && PendingOk() && v == Seen() && list == Triggered() && keep == Kept()
      modifies nodes.Values`messages, nodes.Values`triggered, triggeredTopics, `numTriggeredTopics
      ensures triggeredTopics.Length == MAX_TRIGGERED && numTriggeredTopics <= MAX_TRIGGERED
      ensures AllGenuine() && Filtered(v, list, keep) && ClearOutside()
      ensures forall t: Topic? :: t in Triggered() ==> t != null && t in nodes.Values && t.subs != []
    {
      hide Genuine, Filter, Lists, Filtered, AllGenuine, ClearOutside, PendingOk, Cleared, Contents, Started, Kept;
      ghost var before := Contents();
      NowStarted(v);
      FilterTriggered();
      FilterFacts(list, keep);
      NowFiltered(v, list, keep, before);
      NowClearOutside(v, list, keep, before);
      NowGenuine(v, list, keep, before);
    }

    /** Messages and marks before a drain: all that has something pending, or is marked, is on the list. */
    ghost predicate Started(v: View, list: seq<Topic?>, before: map<Topic, (map<nat, Message>, bool)>)
      reads this`nodes, this`published, nodes.Values`subs
    {
      && before.Keys == nodes.Values && Matched(v)
      && v.subs == (map p | p in nodes :: AddrSet(nodes[p].subs))
      && v.pending == (map p | p in nodes :: before[nodes[p]].0.Keys)
      && forall t :: t in before ==>
           Genuine(published, before[t].0) && (before[t].0 != map[] || before[t].1 ==> t in list)
    }

    lemma NowStarted(v: View)
      requires Listed() && PendingOk() && v == Seen()
      ensures Started(v, Triggered(), Contents())
    {
      hide Genuine;
    }

    /** Messages and marks of every node. */
    ghost function Contents(): (c: map<Topic, (map<nat, Message>, bool)>)
      reads this`nodes, nodes.Values`messages, nodes.Values`triggered
      ensures c.Keys == nodes.Values
    {
      map t | t in nodes.Values :: (t.messages, t.triggered)
    }

    lemma NowFiltered(v: View, list: seq<Topic?>, keep: set<Topic?>, before: map<Topic, (map<nat, Message>, bool)>)
      requires numTriggeredTopics <= triggeredTopics.Length && keep == Kept()
      requires Started(v, list, before) && Contents() == Cleared(before, list, keep)
      requires forall t :: t in Triggered() ==> t in list && t in keep
      requires forall t :: t in list && t in keep ==> t in Triggered()
      ensures Filtered(v, list, keep)
    {
      hide Genuine;
      forall p | p in nodes && nodes[p] in keep ensures v.pending[p] == nodes[p].messages.Keys {
        assert Contents()[nodes[p]].0 == nodes[p].messages;
      }
    }

    lemma NowClearOutside(v: View, list: seq<Topic?>, keep: set<Topic?>, before: map<Topic, (map<nat, Message>, bool)>)
      requires numTriggeredTopics <= triggeredTopics.Length
      requires Started(v, list, before) && Contents() == Cleared(before, list, keep)
      requires forall t :: t in list && t in keep ==> t in Triggered()
      ensures ClearOutside()
    {
      hide Genuine;
      forall t: Topic | t in nodes.Values && t !in Triggered() ensures t.messages == map[] && !t.triggered {
        assert Contents()[t] == (t.messages, t.triggered);
      }
    }

    lemma NowGenuine(v: View, list: seq<Topic?>, keep: set<Topic?>, before: map<Topic, (map<nat, Message>, bool)>)
      requires Started(v, list, before) && Contents() == Cleared(before, list, keep)
      ensures AllGenuine()
    {
      hide Genuine;
      NoneIsGenuine(published);
      forall p | p in nodes ensures Genuine(published, nodes[p].messages) {
        assert Contents()[nodes[p]].0 == nodes[p].messages;
      }
    }

    /** The triggered list holds the subscribed ones of the nodes `list`, which are all that have anything pending. */
    ghost predicate Filtered(v: View, list: seq<Topic?>, keep: set<Topic?>)
      reads this`nodes, this`numTriggeredTopics, triggeredTopics, nodes.Values`subs, nodes.Values`messages
    {
      && numTriggeredTopics <= triggeredTopics.Length && Matched(v) && keep == Kept()
      && v.subs == (map p | p in nodes :: AddrSet(nodes[p].subs))
      && (forall t :: t in Triggered() ==> t in list && t in keep)
      && (forall t :: t in list && t in keep ==> t in Triggered())
      && (forall p :: p in nodes && nodes[p] in keep ==> v.pending[p] == nodes[p].messages.Keys)
      && (forall p :: p in nodes && v.pending[p] != {} ==> nodes[p] in list)
    }

    /** Merges the subscribers of the triggered topics and calls each of them. */
    method Emit(ghost v: View, ghost list: seq<Topic?>, ghost keep: set<Topic?>) returns (ghost calls: seq<Call>)
      requires Distinct() && SubsSorted() && AllGenuine() && Filtered(v, list, keep) && Matched(v)
      requires 0 < numTriggeredTopics <= triggeredTopics.Length
      requires forall t: Topic? :: t in Triggered() ==> t != null && t in nodes.Values && t.subs != []
      modifies `min, `log
      ensures log == old(log) + calls && Batch(v, published, calls)
    {
      hide Batch, Merged, Genuine, Sorted, Represents, IsLeast, Filtered, SubsSorted, AllGenuine;
      assert null !in Triggered();
      var sets, batches := Ranges();
      FilteredRepresents(v, list, keep, sets, batches);
      FilteredAreMergeable(sets, batches);
      FindMin(sets);
      SomeLeast(sets, min);
      calls := [];
      if min != UINTPTR_MAX {
        var made := Merge(sets, batches, min, published);
        MergedIsBatch(v, Paths(Triggered()), sets, batches, published, made);
        calls := made;
        log := log + made;
      }
    }

    /** `sets` and `batches` are what the triggered topics hold. */
    ghost predicate RangesOf(sets: seq<seq<nat>>, batches: seq<map<nat, Message>>)
      requires numTriggeredTopics <= triggeredTopics.Length
      reads this`numTriggeredTopics, triggeredTopics, Triggered()`subs, Triggered()`messages
    {
      && |sets| == |batches| == numTriggeredTopics
      && forall i :: 0 <= i < numTriggeredTopics ==>
           Triggered()[i] != null && sets[i] == Triggered()[i].subs && batches[i] == Triggered()[i].messages
    }

    /** What filtering a list leaves of it. */
    lemma FilterFacts(list: seq<Topic?>, keep: set<Topic?>)
      requires numTriggeredTopics <= triggeredTopics.Length && Triggered() == Filter(list, keep) && keep == Kept()
      ensures forall t :: t in Triggered() ==> t in list && t in keep
      ensures forall t :: t in list && t in keep ==> t in Triggered()
      ensures forall t: Topic? :: t in Triggered() ==> t != null && t in nodes.Values && t.subs != []
    {
      forall t | t in list || t in Triggered() ensures t in Triggered() <==> t in list && t in keep {
        InFilter(list, keep, t);
      }
    }

    static ghost function Paths(list: seq<Topic?>): (paths: seq<Path>)
      requires null !in list
    {
      seq(|list|, i requires 0 <= i < |list| => assert list[i] in list; list[i].path)
    }

    lemma FilteredRepresents(v: View, list: seq<Topic?>, keep: set<Topic?>, sets: seq<seq<nat>>,
                             batches: seq<map<nat, Message>>)
      requires Distinct() && Filtered(v, list, keep)
      requires numTriggeredTopics <= triggeredTopics.Length && RangesOf(sets, batches)
      requires forall t: Topic? :: t in Triggered() ==> t != null && t in nodes.Values && t.subs != []
      ensures Represents(v, Paths(Triggered()), sets, batches)
    {
      var paths := Paths(Triggered());
      forall i | 0 <= i < |paths|
        ensures paths[i] in v.subs && v.subs[paths[i]] == AddrSet(sets[i]) && v.pending[paths[i]] == batches[i].Keys
      {
        var t := Triggered()[i];
        assert t in nodes.Values;
        var p :| p in nodes && nodes[p] == t;
        assert paths[i] == t.path == p;
      }
      forall p | p in v.subs && v.subs[p] != {} && v.pending[p] != {}
        ensures p in paths
      {
        var t := nodes[p];
        var a :| a in v.subs[p];
        assert t.subs != [] && t in keep && t in Triggered();
        var i :| 0 <= i < |Triggered()| && Triggered()[i] == t;
        assert paths[i] == p;
      }
    }

    lemma FilteredAreMergeable(sets: seq<seq<nat>>, batches: seq<map<nat, Message>>)
      requires numTriggeredTopics <= triggeredTopics.Length && SubsSorted() && AllGenuine()
      requires RangesOf(sets, batches)
      requires forall t: Topic? :: t in Triggered() ==> t != null && t in nodes.Values && t.subs != []
      ensures Mergeable(sets, batches, published) && forall i :: 0 <= i < |sets| ==> sets[i] != []
    {
      hide Sorted, Genuine;
    }

    /** Every pending message is a published one. */
    ghost predicate AllGenuine()
      reads this`nodes, this`published, nodes.Values`messages
    {
      forall p :: p in nodes ==> Genuine(published, nodes[p].messages)
    }

    static lemma SomeLeast(sets: seq<seq<nat>>, least: nat)
      requires sets != [] && forall i :: 0 <= i < |sets| ==> Sorted(sets[i]) && sets[i] != []
      requires IsLeast(sets, seq(|sets|, _ => 0), least)
      ensures least != UINTPTR_MAX
    {
      var zeros := seq(|sets|, _ => 0);
      assert zeros[0] == 0 && least <= sets[0][0];
    }

    /** After clearing the triggered list too, nothing is left. */
    lemma QuietAgain(list: seq<Topic?>)
      requires numTriggeredTopics == 0 && triggeredTopics.Length == MAX_TRIGGERED
      requires forall t: Topic :: t in nodes.Values ==> t.messages == map[] && !t.triggered
      ensures Quiet()
    {
    }

    /** When no listed node has subscribers, nobody has anything pending. */
    lemma NothingKept(v: View, list: seq<Topic?>, keep: set<Topic?>)
      requires Matched(v) && Filtered(v, list, keep) && numTriggeredTopics == 0
      ensures Batch(v, published, [])
    {
      forall a, i: nat | i < |published| ensures !PendsFor(v, a, i) {
        forall p | p in v.subs && a in v.subs[p] ensures i !in v.pending[p] {
          assert nodes[p] in keep;
        }
      }
      NothingToCall(v, published);
    }

    // ---- subscribe ----

    /** Every node but the root, and the one at `q`, has a subscriber or a child. */
    ghost predicate TidyBut(q: Path)
      reads this`nodes, nodes.Values`subs, nodes.Values`children
    {
      forall p :: p in nodes && p != [] && p != q ==> nodes[p].subs != [] || nodes[p].children != map[]
    }

    /** The tree has grown from `was` by nodes where nothing is pending and nobody subscribed. */
    ghost predicate Grown(was: map<Path, Topic>)
      reads this`nodes, nodes.Values`subs, nodes.Values`messages, nodes.Values`triggered
    {
      && (forall p :: p in was ==> p in nodes && nodes[p] == was[p])
      && (forall p :: p in nodes && p !in was ==>
            nodes[p].subs == [] && nodes[p].messages == map[] && !nodes[p].triggered)
    }

    /** The links of all nodes, as a value. */
    ghost function Links(): (links: map<Path, NodeLinks>)
      reads this`nodes, nodes.Values`children, nodes.Values`wildcardChild, nodes.Values`terminatingWildcardChild
    {
      map p | p in nodes :: LinksOf(nodes[p])
    }

    lemma TreeIsLinks()
      ensures Tree() <==> Woven(Links(), root)
    {
      var links := Links();
      assert Tree() ==> Woven(links, root) by {
        if Tree() {
          forall p | p in links ensures WovenAt(links, root, p) {
            assert Linked(p);
          }
        }
      }
      assert Woven(links, root) ==> Tree() by {
        if Woven(links, root) {
          forall p | p in nodes ensures Linked(p) {
            assert WovenAt(links, root, p);
          }
        }
      }
    }

    /** Adds a child. */
    method InsertChild(at: Topic, segment: string) returns (child: Topic)
      requires Tree() && Live(at) && segment !in at.children
      modifies `nodes, at`children, at`wildcardChild, at`terminatingWildcardChild
      ensures Tree() && child.path == at.path + [segment] && fresh(child)
      ensures nodes == old(nodes)[child.path := child] && child.path !in old(nodes)
      ensures child.subs == [] && child.messages == map[] && !child.triggered && child.children == map[]
      ensures at.children != map[]
    {
      hide Linked, Tree, Woven, WovenAt, Links, LinksOf;
      LinksAt(at);
      TreeIsDistinct();
      TreeIsLinks();
      LinksHave(at);
      ghost var links := Links();
      child := Plant(at, segment, links);
      NewChildWoven(links, root, at, segment, child, LinksOf(at), LinksOf(child));
      TreeIsLinks();
    }

    lemma LinksHave(t: Topic)
      requires Live(t)
      ensures t.path in Links()
              && Links()[t.path] == LinksOf(t) == NodeLinks(t, t.children, t.wildcardChild, t.terminatingWildcardChild)
    {
    }

    /** Allocates a child and links it in. */
    method Plant(at: Topic, segment: string, ghost links: map<Path, NodeLinks>) returns (child: Topic)
      requires Distinct() && Live(at) && at.path + [segment] !in nodes && links == Links()
      modifies `nodes, at`children, at`wildcardChild, at`terminatingWildcardChild
      ensures child.path == at.path + [segment] && child.name == segment && child.parent == at && fresh(child)
      ensures nodes == old(nodes)[child.path := child]
      ensures child.subs == [] && child.messages == map[] && !child.triggered && child.children == map[]
      ensures Links() == links[at.path := LinksOf(at)][child.path := LinksOf(child)]
      ensures LinksOf(child) == NodeLinks(child, map[], null, null)
      ensures var was := old(LinksOf(at));
              LinksOf(at) == NodeLinks(at, was.children[segment := child], if segment == PLUS then child else was.plus,
                                       if segment == HASH then child else was.hash)
      ensures at.children != map[]
    {
      hide Links;
      child := new Topic(segment, at);
      Attach(at, segment, child, links);
      AddNode(child);
    }

    /** Registers a new node. */
    ghost method AddNode(child: Topic)
      requires child.path !in nodes
      modifies `nodes
      ensures nodes == old(nodes)[child.path := child] && Links() == old(Links())[child.path := LinksOf(child)]
    {
      nodes := nodes[child.path := child];
    }

    /** Links a child into its parent, with the fast lookup for wildcards. */
    method Attach(at: Topic, segment: string, child: Topic, ghost links: map<Path, NodeLinks>)
      requires Distinct() && Live(at) && links == Links()
      modifies at`children, at`wildcardChild, at`terminatingWildcardChild
      ensures at.children == old(at.children)[segment := child] && at.children != map[]
      ensures at.wildcardChild == (if segment == PLUS then child else old(at.wildcardChild))
      ensures at.terminatingWildcardChild == (if segment == HASH then child else old(at.terminatingWildcardChild))
      ensures Links() == links[at.path := LinksOf(at)]
    {
      at.children := at.children[segment := child];
      assert segment in at.children;
      MarkWildcard(at, segment, child);
    }

    method MarkWildcard(at: Topic, segment: string, child: Topic)
      modifies at`wildcardChild, at`terminatingWildcardChild
      ensures at.wildcardChild == (if segment == PLUS then child else old(at.wildcardChild))
      ensures at.terminatingWildcardChild == (if segment == HASH then child else old(at.terminatingWildcardChild))
    {
      if |segment| == 1 {
        assert segment == [segment[0]];
        if segment[0] == '+' {
          at.wildcardChild := child;
        }
        if segment[0] == '#' {
          at.terminatingWildcardChild := child;
        }
      }
    }

    /** The child to go on with, added if it is missing. */
    method InsertStep(at: Topic, segment: string, ghost was: map<Path, Topic>) returns (child: Topic)
      requires Tree() && Live(at) && TidyBut(at.path) && Grown(was)
      modifies `nodes, at`children, at`wildcardChild, at`terminatingWildcardChild
      ensures Tree() && Live(child) && child.path == at.path + [segment] && TidyBut(child.path) && Grown(was)
      ensures nodes == old(nodes) || (fresh(child) && nodes == old(nodes)[child.path := child])
    {
      hide Linked, Tree;
      TreeIsDistinct();
      if segment in at.children {
        child := at.children[segment];
        ChildIsLive(at, segment);
      } else {
        child := InsertChild(at, segment);
      }
    }

    /** Walks to the node of `topic`, adding what is missing on the way. */
    method Insert(topic: string) returns (at: Topic)
      requires Tree() && TidyBut([])
      modifies `nodes, nodes.Values`children, nodes.Values`wildcardChild, nodes.Values`terminatingWildcardChild
      ensures Tree() && Live(at) && at.path == Segments(topic, 0) && TidyBut(at.path)
      ensures Grown(old(nodes)) && fresh(nodes.Values - old(nodes.Values))
    {
      hide Linked, Tree, TidyBut, Segments, Find, Grown, Rest, Live;
      var start, stop := 0, 0;
      at := root;
      RootIsLive();
      GrownNothing();
      RestStart(topic);
      while stop != -1
        invariant stop == -1 || 0 <= start <= |topic|
        invariant at.path + Rest(topic, start, stop) == Segments(topic, 0)
        invariant Tree() && Live(at) && TidyBut(at.path)
        invariant Grown(old(nodes)) && fresh(nodes.Values - old(nodes.Values))
        decreases if stop == -1 then 0 else |topic| + 1 - start
      {
        ghost var last := stop;
        stop := Find(topic, '/', start);
        var segment := if stop == -1 then topic[start..] else topic[start..stop];
        RestStep(at.path, topic, start, last);
        LiveIsValue(at);
        at := InsertStep(at, segment, old(nodes));
        start := stop + 1;
      }
      RestEnd(at.path, topic, start);
    }

    lemma LiveIsValue(t: Topic)
      requires Live(t)
      ensures t in nodes.Values
    {
    }

    lemma GrownNothing()
      ensures Grown(nodes)
    {
    }

    lemma RootIsLive()
      requires Tree()
      ensures Live(root) && root.path == []
    {
      assert Linked([]);
    }

    static lemma RestStart(topic: string)
      ensures [] + Rest(topic, 0, 0) == Segments(topic, 0)
    {
    }

    /** One segment further down a topic. */
    static lemma RestStep(p: Path, topic: string, start: nat, last: int)
      requires last != -1 && start <= |topic|
      ensures var stop := Find(topic, '/', start);
              p + [if stop == -1 then topic[start..] else topic[start..stop]] + Rest(topic, stop + 1, stop)
              == p + Rest(topic, start, last)
    {
      hide Find, Segments;
      SegmentsAre(topic, start);
      var stop := Find(topic, '/', start);
      if stop == -1 {
        assert p + [topic[start..]] + [] == p + [topic[start..]];
      } else {
        Associates(p, [topic[start..stop]], Segments(topic, stop + 1));
      }
    }

    static lemma Associates(a: Path, b: Path, c: Path)
      ensures a + b + c == a + (b + c)
    {
    }

    static lemma RestEnd(p: Path, topic: string, start: int)
      ensures p + Rest(topic, start, -1) == p
    {
    }

    // ---- trimTree ----

    /** The tree has shrunk from `was` by nodes without subscribers. */
    ghost predicate Shrunk(was: map<Path, Topic>)
      reads this`nodes, was.Values`subs
    {
      && (forall p :: p in nodes ==> p in was && nodes[p] == was[p])
      && (forall p :: p in was && p !in nodes ==> was[p].subs == [])
    }

    /** Takes a child without children out of the tree. */
    method Unlink(topic: Topic, parent: Topic, ghost links: map<Path, NodeLinks>)
      requires Distinct() && Live(topic) && Live(parent) && topic.path == parent.path + [topic.name] && links == Links()
      modifies `nodes, parent`children, parent`wildcardChild, parent`terminatingWildcardChild
      ensures nodes == old(nodes) - {topic.path}
      ensures Links() == links[parent.path := LinksOf(parent)] - {topic.path}
      ensures var was := old(LinksOf(parent));
              LinksOf(parent) == NodeLinks(parent, was.children - {topic.name},
                                           if topic.name == PLUS then null else was.plus,
                                           if topic.name == HASH then null else was.hash)
    {
      UnmarkWildcard(parent, topic.name);
      parent.children := parent.children - {topic.name};
      assert Links() == links[parent.path := LinksOf(parent)];
      nodes := nodes - {topic.path};
    }

    method UnmarkWildcard(parent: Topic, name: string)
      modifies parent`wildcardChild, parent`terminatingWildcardChild
      ensures parent.wildcardChild == (if name == PLUS then null else old(parent.wildcardChild))
      ensures parent.terminatingWildcardChild == (if name == HASH then null else old(parent.terminatingWildcardChild))
    {
      if |name| == 1 {
        assert name == [name[0]];
        if name[0] == '#' {
          parent.terminatingWildcardChild := null;
        } else if name[0] == '+' {
          parent.wildcardChild := null;
        }
      }
    }

    /** Takes a node off the triggered list. */
    method RemoveTriggered(topic: Topic)
      requires triggeredTopics.Length == MAX_TRIGGERED && numTriggeredTopics <= MAX_TRIGGERED
      modifies triggeredTopics, `numTriggeredTopics
      ensures numTriggeredTopics <= MAX_TRIGGERED
      ensures Triggered() == Without(old(Triggered()), topic)
    {
      hide Without;
      var tmp, length := CopyOthers(topic);
      ghost var rest := tmp[..length];
      for i := 0 to length
        invariant tmp[..length] == rest && triggeredTopics[..i] == rest[..i]
      {
        triggeredTopics[i] := tmp[i];
      }
      numTriggeredTopics := length;
    }

    method CopyOthers(topic: Topic) returns (tmp: array<Topic?>, length: nat)
      requires triggeredTopics.Length == MAX_TRIGGERED && numTriggeredTopics <= MAX_TRIGGERED
      ensures fresh(tmp) && length <= tmp.Length == MAX_TRIGGERED && tmp[..length] == Without(Triggered(), topic)
    {
      hide Without;
      ghost var list := Triggered();
      tmp, length := new Topic?[MAX_TRIGGERED](_ => null), 0;
      WithoutNothing(topic);
      for i := 0 to numTriggeredTopics
        invariant length <= i && tmp[..length] == Without(list[..i], topic)
      {
        assert list[..i + 1] == list[..i] + [list[i]];
        WithoutSnoc(list[..i], list[i], topic);
        if triggeredTopics[i] != topic {
          tmp[length] := triggeredTopics[i];
          length := length + 1;
        }
      }
      assert list[..|list|] == list;
    }

    lemma ParentIsLive(t: Topic)
      requires Tree() && Live(t) && t.path != []
      ensures t.parent != null && Live(t.parent) && t.path == t.parent.path + [t.name]
      ensures t.parent == root <==> t.parent.path == []
    {
      assert Linked(t.path) && Linked(t.path[..|t.path| - 1]);
      assert t.path == t.path[..|t.path| - 1] + [t.path[|t.path| - 1]];
      assert Linked([]);
    }

    /** Takes a leaf out of the tree, and off the triggered list. */
    method Cull(topic: Topic, parent: Topic)
      requires Tree() && Live(topic) && topic.path != [] && topic.children == map[] && parent == topic.parent
      requires Listed()
      modifies `nodes, parent`children, parent`wildcardChild, parent`terminatingWildcardChild
      modifies triggeredTopics, `numTriggeredTopics
      ensures Tree() && Listed() && nodes == old(nodes) - {topic.path}
    {
      hide Linked, Tree, Woven, WovenAt, Links, LinksOf, Lists;
      ParentIsLive(topic);
      TreeIsDistinct();
      TreeIsLinks();
      LinksHave(topic);
      LinksHave(parent);
      ghost var links, list, was, marks := Links(), Triggered(), nodes, Marks();
      ListsCulled(list, was, marks, topic) by {
        ListsAreMarks(list);
      }
      Unlink(topic, parent, links);
      ChildGoneWoven(links, root, parent.path, topic.name, LinksOf(parent));
      TreeIsLinks();
      if topic.triggered {
        RemoveTriggered(topic);
      }
      ValuesWithout(was, topic.path);
      assert Marks() == marks - {topic};
      ListsAreMarks(Triggered());
    }

    ghost function Marks(): (marks: set<Topic?>)
      reads this`nodes, nodes.Values`triggered
    {
      set t: Topic | t in nodes.Values && t.triggered
    }

    lemma ListsAreMarks(list: seq<Topic?>)
      ensures Lists(list) <==> ListsMarks(list, nodes, Marks())
    {
    }

    /** Cull, with what else stays true. */
    method CullUnused(topic: Topic, parent: Topic)
      requires Tree() && Live(topic) && topic.path != [] && topic.children == map[] && parent == topic.parent
      requires Listed() && TidyBut(topic.path) && topic.subs == []
      modifies `nodes, parent`children, parent`wildcardChild, parent`terminatingWildcardChild
      modifies triggeredTopics, `numTriggeredTopics
      ensures Tree() && Listed() && TidyBut(parent.path) && Live(parent)
      ensures nodes == old(nodes) - {topic.path} && nodes.Values <= old(nodes.Values)
    {
      hide Linked, Tree, Lists;
      ParentIsLive(topic);
      TreeIsDistinct();
      Cull(topic, parent);
    }

    /** Takes unused nodes out of the tree, from a leaf upwards. */
    method TrimTree(topic: Topic)
      requires Tree() && Live(topic) && topic.path != [] && Listed() && TidyBut(topic.path)
      modifies `nodes, nodes.Values`children, nodes.Values`wildcardChild, nodes.Values`terminatingWildcardChild
      modifies triggeredTopics, `numTriggeredTopics
      ensures Tree() && Listed() && TidyBut([]) && Shrunk(old(nodes))
      decreases |topic.path|
    {
      hide Linked, Tree, Lists, TidyBut, Shrunk;
      ghost var was := nodes;
      LinksAt(topic);
      ParentIsLive(topic);
      ShrunkNothing();
      if |topic.subs| == 0 && |topic.children| == 0
         && topic.terminatingWildcardChild == null && topic.wildcardChild == null {
        var parent := topic.parent;
        CullUnused(topic, parent);
        ShrunkNothing();
        if parent != root {
          TrimTree(parent);
        }
        ShrunkMore(was, topic);
      } else {
        StillTidy(topic);
      }
    }

    lemma StillTidy(t: Topic)
      requires Live(t) && TidyBut(t.path) && (t.subs != [] || t.children != map[])
      ensures TidyBut([])
    {
    }

    lemma ShrunkNothing()
      ensures Shrunk(nodes)
    {
    }

    lemma ShrunkMore(was: map<Path, Topic>, t: Topic)
      requires t.path in was && was[t.path] == t && t.subs == [] && Shrunk(was - {t.path})
      ensures Shrunk(was)
    {
    }

    // ---- The whole tree ----

    /** What stands at every node. */
    ghost function Snap(): (snap: map<Path, Spot>)
      reads this`nodes, nodes.Values`subs, nodes.Values`messages, nodes.Values`triggered
    {
      map p | p in nodes :: SpotOf(nodes[p])
    }

    lemma SoundIsHeap()
      requires numTriggeredTopics <= triggeredTopics.Length
      ensures Sound(Snap(), Triggered(), published) <==> Distinct() && Lists(Triggered()) && PendingOk() && SubsSorted()
      ensures SeenOf(Snap()) == Seen()
    {
      hide Genuine, Sorted;
      var snap := Snap();
      assert forall p :: p in nodes ==> p in snap && snap[p] == SpotOf(nodes[p]);
    }

    /** What every operation keeps of the tree, between any two of its steps. */
    ghost predicate Intact()
      reads this`nodes, this`published, this`numTriggeredTopics, triggeredTopics, nodes.Values
    {
      && Tree()
      && triggeredTopics.Length == MAX_TRIGGERED && numTriggeredTopics <= MAX_TRIGGERED
      && Sound(Snap(), Triggered(), published)
    }

    /** The tree is intact, and not to be told apart from naive delivery `nv`. */
    ghost predicate Core(nv: Naive)
      reads this`nodes, this`published, this`log, this`numTriggeredTopics, triggeredTopics
      reads nodes.Values
    {
      Intact() && Agrees(SeenOf(Snap()), published, log, nv)
    }

    lemma SnapHas()
      ensures Snap().Keys == nodes.Keys
      ensures forall p :: p in nodes ==> Snap()[p].node == nodes[p] && Snap()[p].subs == nodes[p].subs
    {
    }

    lemma QuietIsQuieted(snap: map<Path, Spot>)
      requires Quiet() && snap.Keys == nodes.Keys && Distinct() && SubsSorted()
      requires forall p :: p in nodes ==> snap[p].node == nodes[p] && snap[p].subs == nodes[p].subs
      ensures Snap() == Quieted(snap) && Triggered() == [] && Sound(Snap(), Triggered(), published)
    {
      hide Genuine, Sorted;
      NoneIsGenuine(published);
      forall p | p in nodes ensures Quieted(snap)[p] == SpotOf(nodes[p]) {
      }
    }

    /** Drain, seen from outside: nothing stays pending, and nothing gets lost. */
    method Flush(ghost nv: Naive)
      requires Core(nv)
      modifies nodes.Values`messages, nodes.Values`triggered, triggeredTopics, `numTriggeredTopics, `min, `log
      ensures Core(nv) && Quiet() && Triggered() == [] && Snap() == Quieted(old(Snap()))
    {
      hide Tree, Sound, Agrees, Batch, SeenOf, Snap, Quieted;
      ghost var snap, was := Snap(), log;
      SoundIsHeap();
      SnapHas();
      ghost var calls := Drain();
      QuietIsQuieted(snap);
      QuietedAgrees(snap, published, was, calls, nv);
    }

    /** Insert, seen from outside. */
    method Grow(topic: string, ghost nv: Naive) returns (at: Topic)
      requires Core(nv) && TidyBut([])
      modifies `nodes, nodes.Values`children, nodes.Values`wildcardChild, nodes.Values`terminatingWildcardChild
      ensures Core(nv) && Live(at) && at.path == Segments(topic, 0) && TidyBut(at.path)
      ensures GrownTo(old(Snap()), Snap()) && fresh(nodes.Values - old(nodes.Values))
      ensures forall p :: p in old(nodes) ==> p in nodes && nodes[p] == old(nodes)[p]
    {
      hide Tree, Sound, Agrees, TidyBut, Segments, SeenOf;
      ghost var was := Snap();
      at := Insert(topic);
      TreeIsDistinct();
      GrownSound(was, Snap(), Triggered(), published, log, nv);
    }

    /** Adds a subscriber where nothing is pending. */
    method AddSub(at: Topic, a: nat, ghost nv: Naive) returns (inserted: bool)
      requires Core(nv) && Live(at) && !at.triggered && a in nv.filters && a < UINTPTR_MAX
      modifies at`subs
      ensures Core(AddFilter(nv, a, at.path)) && (old(TidyBut(at.path)) ==> TidyBut([]))
      ensures inserted <==> at.path !in nv.filters[a]
    {
      hide Tree, Sound, Agrees, InsertAddr, Sorted, Resubbed, SeenOf;
      TreeIsDistinct();
      ghost var was := Snap();
      inserted := a !in at.subs;
      JoinedSound(was, at.path, a, Triggered(), published, log, nv);
      at.subs := InsertAddr(at.subs, a);
      SpotSet(at, was);
    }

    lemma SpotIs(t: Topic)
      requires Live(t)
      ensures t.path in Snap() && Snap()[t.path] == Spot(t, t.subs, t.messages, t.triggered)
    {
    }

    /** A change of one node's subscribers. */
    lemma SpotSet(t: Topic, was: map<Path, Spot>)
      requires Live(t) && was.Keys == nodes.Keys && Distinct()
      requires forall p :: p in nodes && p != t.path ==> was[p] == SpotOf(nodes[p])
      requires was[t.path].node == t && was[t.path].messages == t.messages && was[t.path].triggered == t.triggered
      ensures Snap() == Resubbed(was, t.path, t.subs)
    {
    }

    /** Takes a subscriber out of a set, whatever is pending there. */
    method EraseSub(at: Topic, a: nat)
      requires Intact() && Live(at)
      modifies at`subs
      ensures Intact() && Snap() == Resubbed(old(Snap()), at.path, EraseAddr(old(at.subs), a))
      ensures old(TidyBut([])) ==> TidyBut(at.path)
    {
      hide Tree, Sound, EraseAddr, Sorted, Resubbed;
      TreeIsDistinct();
      ghost var was := Snap();
      SoundAt(was, at.path, Triggered(), published);
      EraseAddrIsRight(at.subs, a);
      ResubbedSound(was, at.path, EraseAddr(at.subs, a), Triggered(), published);
      at.subs := EraseAddr(at.subs, a);
      SpotSet(at, was);
    }

    /** TrimTree, seen from outside. */
    method Trim(topic: Topic)
      requires Intact() && Live(topic) && topic.path != [] && TidyBut(topic.path)
      modifies `nodes, nodes.Values`children, nodes.Values`wildcardChild, nodes.Values`terminatingWildcardChild
      modifies triggeredTopics, `numTriggeredTopics
      ensures Intact() && TidyBut([]) && ShrunkTo(old(Snap()), Snap()) && nodes.Values <= old(nodes.Values)
    {
      hide Tree, Sound, TidyBut, Lists, Snap, ShrunkTo, Shrunk, SpotOf;
      ghost var was, list, ns := Snap(), Triggered(), nodes;
      SoundIsHeap();
      SnapSpots();
      TrimTree(topic);
      SnapShrunk(was, ns);
      TreeIsDistinct();
      ListsAreSpots(Triggered());
      ShrunkSound(was, Snap(), list, Triggered(), published);
    }

    lemma SnapSpots()
      ensures Snap().Keys == nodes.Keys && forall p :: p in nodes ==> Snap()[p] == SpotOf(nodes[p])
    {
    }

    lemma SnapShrunk(was: map<Path, Spot>, ns: map<Path, Topic>)
      requires Shrunk(ns) && was.Keys == ns.Keys && forall p :: p in ns ==> was[p] == SpotOf(ns[p])
      ensures ShrunkTo(was, Snap()) && nodes.Values <= ns.Values
    {
    }

    lemma ListsAreSpots(list: seq<Topic?>)
      requires Lists(list) && Distinct()
      ensures ListsSpots(Snap(), list)
    {
    }

    // ---- The operations, with what they keep ----

    ghost function Subscriptions(): (lists: map<nat, seq<Topic>>)
      reads this`members, members.Values`subscriptions
    {
      map a | a in members :: members[a].subscriptions
    }

    ghost predicate Members()
      reads this`members
    {
      forall a :: a in members ==> members[a].addr == a < UINTPTR_MAX
    }

    /** What every operation keeps, `nv` being what naive delivery has come to. */
    ghost predicate ValidFor(nv: Naive)
      reads this`nodes, this`published, this`log, this`numTriggeredTopics, this`members, this`messageId
      reads triggeredTopics, nodes.Values, members.Values
    {
      && Core(nv) && TidyBut([]) && Members() && |published| == messageId
      && Inverse(nodes, Subscriptions(), nv.filters)
    }

    ghost predicate Valid()
      reads this, triggeredTopics, nodes.Values, members.Values
    {
      ValidFor(Replay(history))
    }

    /** Adds the subscriber at the end of the way. */
    method Enter(at: Topic, s: Subscriber, ghost nv: Naive)
      requires Core(nv) && Live(at) && at.path != [] && !at.triggered && Members() && s.addr in members
               && members[s.addr] == s
      requires Inverse(nodes, Subscriptions(), nv.filters) && TidyBut(at.path)
      modifies at`subs, s`subscriptions
      ensures Core(AddFilter(nv, s.addr, at.path)) && TidyBut([])
      ensures Inverse(nodes, Subscriptions(), AddFilter(nv, s.addr, at.path).filters)
    {
      hide Core, AddFilter, Subscriptions, TidyBut, Owns;
      ghost var lists := Subscriptions();
      ListOf(s);
      var inserted := AddSub(at, s.addr, nv);
      if inserted {
        SetList(s, s.subscriptions + [at]);
      }
      EnteredInverse(nodes, lists, Subscriptions(), nv, s.addr, at);
    }

    /** The node to subscribe at, with nothing pending there. */
    method Reach(topic: string, ghost nv: Naive) returns (at: Topic)
      requires Core(nv) && TidyBut([]) && Inverse(nodes, Subscriptions(), nv.filters)
      modifies `nodes, nodes.Values, triggeredTopics, `numTriggeredTopics, `min, `log
      ensures Core(nv) && Live(at) && at.path == Segments(topic, 0) && !at.triggered && TidyBut(at.path)
      ensures Inverse(nodes, Subscriptions(), nv.filters) && fresh(nodes.Values - old(nodes.Values))
    {
      hide Core, Inverse, TidyBut, Segments, GrownTo, Snap, Subscriptions;
      ghost var was := nodes;
      at := Grow(topic, nv);
      InverseGrown(was, nodes, Subscriptions(), nv.filters);
      Settle(at, nv);
    }

    /** Subscribes `s` to the filter `topic`. */
    method Subscribe(topic: string, s: Subscriber)
      requires Valid() && s.addr in members && members[s.addr] == s
      modifies `nodes, nodes.Values, triggeredTopics, `numTriggeredTopics, `min, `log, `history, s`subscriptions
      ensures Valid() && history == old(history) + [Subscribed(s.addr, Segments(topic, 0))]
      ensures fresh(nodes.Values - old(nodes.Values))
      ensures Segments(topic, 0) in nodes && s.addr in nodes[Segments(topic, 0)].subs
    {
      hide ValidFor, Replay, Segments, AddFilter;
      ghost var nv := Replay(history);
      KnowsMembers(nv);
      SubscribeFor(topic, s, nv);
      ReplaySnoc(history, Subscribed(s.addr, Segments(topic, 0)));
      history := history + [Subscribed(s.addr, Segments(topic, 0))];
      AddedIsThere(nv, s.addr, Segments(topic, 0));
      StandsByFilter();
    }

    lemma AddedIsThere(nv: Naive, a: nat, p: Path)
      requires a in nv.filters
      ensures a in AddFilter(nv, a, p).filters && p in AddFilter(nv, a, p).filters[a]
    {
    }

    method SubscribeFor(topic: string, s: Subscriber, ghost nv: Naive)
      requires ValidFor(nv) && s.addr in members && members[s.addr] == s && s.addr in nv.filters
      modifies `nodes, nodes.Values, triggeredTopics, `numTriggeredTopics, `min, `log, s`subscriptions
      ensures ValidFor(AddFilter(nv, s.addr, Segments(topic, 0)))
      ensures fresh(nodes.Values - old(nodes.Values))
    {
      hide Core, Inverse, TidyBut, Segments, AddFilter, Subscriptions;
      var at := Reach(topic, nv);
      Enter(at, s, nv);
    }

    lemma KnowsMembers(nv: Naive)
      requires ValidFor(nv)
      ensures nv.filters.Keys == members.Keys
    {
      hide Core;
    }

    // ---- unsubscribe ----

    /** The node of `topic`, if there is one. */
    method Lookup(topic: string) returns (at: Topic?)
      requires Tree()
      ensures at == null <==> Segments(topic, 0) !in nodes
      ensures at != null ==> Live(at) && at.path == Segments(topic, 0)
    {
      hide Linked, Tree, Segments, Find, Rest, Live;
      var start, stop := 0, 0;
      var iter := root;
      RootIsLive();
      RestStart(topic);
      while stop != -1
        invariant stop == -1 || 0 <= start <= |topic|
        invariant iter.path + Rest(topic, start, stop) == Segments(topic, 0)
        invariant Live(iter)
        decreases if stop == -1 then 0 else |topic| + 1 - start
      {
        ghost var last := stop;
        stop := Find(topic, '/', start);
        var segment := if stop == -1 then topic[start..] else topic[start..stop];
        RestStep(iter.path, topic, start, last);
        if segment !in iter.children {
          NotThere(iter, segment, Rest(topic, stop + 1, stop));
          return null;
        }
        ChildIsLive(iter, segment);
        iter := iter.children[segment];
        start := stop + 1;
      }
      RestEnd(iter.path, topic, start);
      at := iter;
      LiveIsValue(at);
      LiveIsNode(at);
    }

    lemma LiveIsNode(t: Topic)
      requires Live(t)
      ensures t.path in nodes
    {
    }

    lemma NotThere(t: Topic, segment: string, rest: Path)
      requires Tree() && Live(t) && segment !in t.children
      ensures t.path + [segment] + rest !in nodes
    {
      hide Linked, Tree;
      LinksAt(t);
      var p := t.path + [segment] + rest;
      assert p[..|t.path| + 1] == t.path + [segment];
      if p in nodes {
        PrefixIsNode(p, |t.path| + 1);
      }
    }

    /** Takes a subscriber out of a set where nothing is pending. */
    method DropSub(at: Topic, a: nat, ghost nv: Naive)
      requires Core(nv) && Live(at) && !at.triggered && a in nv.filters && TidyBut([])
      modifies at`subs
      ensures Core(DropFilters(nv, a, {at.path})) && TidyBut(at.path)
    {
      hide Tree, Sound, Agrees, TidyBut, SeenOf, EraseAddr, DropFilters, Resubbed;
      ghost var was := Snap();
      SpotIs(at);
      LeftSound(was, at.path, a, Triggered(), published, log, nv);
      EraseSub(at, a);
    }

    /** Trim, with what it means for the deliveries and the subscription lists. */
    method TrimFor(at: Topic, ghost nv: Naive, ghost lists: map<nat, seq<Topic>>)
      requires Core(nv) && Live(at) && at.path != [] && TidyBut(at.path) && Inverse(nodes, lists, nv.filters)
      modifies `nodes, nodes.Values`children, nodes.Values`wildcardChild, nodes.Values`terminatingWildcardChild
      modifies triggeredTopics, `numTriggeredTopics
      ensures Core(nv) && TidyBut([]) && Inverse(nodes, lists, nv.filters) && nodes.Values <= old(nodes.Values)
    {
      hide Intact, Agrees, TidyBut, SeenOf, Inverse, Matching, Snap, ShrunkTo;
      ghost var was, ns := Snap(), nodes;
      SnapHas();
      Trim(at);
      ShrunkAgrees(was, Snap(), published, log, nv);
      AgreesMatches(Snap(), published, log, nv);
      TrimmedInverse(was, ns, lists, nv.filters);
    }

    lemma TrimmedInverse(was: map<Path, Spot>, ns: map<Path, Topic>, lists: map<nat, seq<Topic>>, filters: map<nat,
                         set<Path>>)
      requires was.Keys == ns.Keys && forall p :: p in ns ==> was[p].node == ns[p]
      requires ShrunkTo(was, Snap()) && Matching(Snap(), filters) && Inverse(ns, lists, filters)
      ensures Inverse(nodes, lists, filters)
    {
      hide Inverse;
      forall p | p in nodes ensures p in ns && nodes[p] == ns[p] {
        assert Snap()[p] == was[p];
      }
      forall a, p | a in filters && p in filters[a] ensures p in nodes {
        assert p in Snap();
      }
      InverseKept(ns, nodes, lists, filters);
    }

    lemma CoreIsTree(nv: Naive)
      requires Core(nv)
      ensures Tree()
    {
    }

    lemma ListOf(s: Subscriber)
      requires s.addr in members && members[s.addr] == s
      ensures s.addr in Subscriptions() && Subscriptions()[s.addr] == s.subscriptions
    {
    }

    /** Leaves a topic where nothing is pending, and trims the tree. */
    method LeaveTopic(at: Topic, a: nat, ghost nv: Naive, ghost lists: map<nat, seq<Topic>>)
      requires Core(nv) && Live(at) && at.path != [] && !at.triggered && a in nv.filters && TidyBut([])
      requires Inverse(nodes, lists, DropFilters(nv, a, {at.path}).filters)
      modifies `nodes, at`subs, nodes.Values`children, nodes.Values`wildcardChild, nodes.Values`terminatingWildcardChild
      modifies triggeredTopics, `numTriggeredTopics
      ensures Core(DropFilters(nv, a, {at.path})) && TidyBut([]) && nodes.Values <= old(nodes.Values)
      ensures Inverse(nodes, lists, DropFilters(nv, a, {at.path}).filters)
    {
      hide Core, TidyBut, DropFilters, Inverse;
      DropSub(at, a, nv);
      TrimFor(at, DropFilters(nv, a, {at.path}), lists);
    }

    /** Drains before joining or leaving a triggered topic. */
    method Settle(at: Topic, ghost nv: Naive)
      requires Core(nv) && Live(at)
      modifies nodes.Values`messages, nodes.Values`triggered, triggeredTopics, `numTriggeredTopics, `min, `log
      ensures Core(nv) && !at.triggered
    {
      hide Core, Snap, Quieted;
      if at.triggered {
        Flush(nv);
        QuietAt(at);
      }
    }

    lemma QuietAt(t: Topic)
      requires Quiet() && Live(t)
      ensures !t.triggered
    {
    }

    method SetList(s: Subscriber, list: seq<Topic>)
      requires Members() && s.addr in members && members[s.addr] == s
      modifies s`subscriptions
      ensures Subscriptions() == old(Subscriptions())[s.addr := list] && s.subscriptions == list
    {
      s.subscriptions := list;
    }

    /** Gives up the `i`th subscription. */
    method LeaveAt(at: Topic, s: Subscriber, i: nat, ghost nv: Naive)
      requires ValidFor(nv) && s.addr in members && members[s.addr] == s && s.addr in nv.filters
      requires i < |s.subscriptions| && s.subscriptions[i] == at
      modifies `nodes, nodes.Values, triggeredTopics, `numTriggeredTopics, `min, `log, s`subscriptions
      ensures ValidFor(DropFilters(nv, s.addr, {at.path})) && nodes.Values <= old(nodes.Values)
    {
      hide Core, TidyBut, DropFilters, Inverse, Subscriptions, Members;
      ghost var lists := Subscriptions();
      ListOf(s);
      OwnedIsLive(lists, nv.filters, s.addr, i);
      LeftInverse(nodes, lists, nv, s.addr, i);
      Settle(at, nv);
      SetList(s, s.subscriptions[..i] + s.subscriptions[i + 1..]);
      LeaveTopic(at, s.addr, nv, Subscriptions());
    }

    lemma OwnedIsLive(lists: map<nat, seq<Topic>>, filters: map<nat, set<Path>>, a: nat, i: nat)
      requires Inverse(nodes, lists, filters) && a in lists && i < |lists[a]|
      ensures Live(lists[a][i]) && lists[a][i].path != [] && lists[a][i].path in filters[a]
    {
      assert lists[a][i] in lists[a];
    }

    /** Ends the `i`th subscription. */
    method Quit(at: Topic, s: Subscriber, i: nat)
      requires Valid() && s.addr in members && members[s.addr] == s
      requires i < |s.subscriptions| && s.subscriptions[i] == at
      modifies `nodes, nodes.Values, triggeredTopics, `numTriggeredTopics, `min, `log, `history, s`subscriptions
      ensures Valid() && nodes.Values <= old(nodes.Values)
      ensures history == old(history) + [Unsubscribed(s.addr, {at.path})]
    {
      hide ValidFor, Replay, DropFilters;
      ghost var nv := Replay(history);
      KnowsMembers(nv);
      LeaveAt(at, s, i, nv);
      ReplaySnoc(history, Unsubscribed(s.addr, {at.path}));
      history := history + [Unsubscribed(s.addr, {at.path})];
    }

    /** Ends the subscription of `s` to the filter `topic`, if there is one. */
    method Unsubscribe(topic: string, s: Subscriber?) returns (was: bool)
      requires Valid() && (s != null ==> s.addr in members && members[s.addr] == s)
      modifies `nodes, nodes.Values, triggeredTopics, `numTriggeredTopics, `min, `log, `history
      modifies if s == null then {} else {s}
      ensures Valid() && nodes.Values <= old(nodes.Values)
      ensures was <==>
                && s != null && s.addr in Replay(old(history)).filters
                && Segments(topic, 0) in Replay(old(history)).filters[s.addr]
      ensures history == old(history) + if was then [Unsubscribed(s.addr, {Segments(topic, 0)})] else []
      ensures s != null && Segments(topic, 0) in nodes ==> s.addr !in nodes[Segments(topic, 0)].subs
    {
      hide Core, TidyBut, Replay, Segments, Inverse, Members, Subscriptions;
      if s == null {
        return false;
      }
      ghost var nv := Replay(history);
      KnowsMembers(nv);
      CoreIsTree(nv);
      ListOf(s);
      var at := Lookup(topic);
      if at == null {
        NotOwned(Subscriptions(), nv.filters, s.addr, Segments(topic, 0));
        return false;
      }
      for i := 0 to |s.subscriptions|
        invariant at !in s.subscriptions[..i]
      {
        if s.subscriptions[i] == at {
          OwnedIsLive(Subscriptions(), nv.filters, s.addr, i);
          ghost var before := history;
          Quit(at, s, i);
          ReplaySnoc(before, Unsubscribed(s.addr, {at.path}));
          StandsNot(s.addr, at.path);
          return true;
        }
      }
      NotOwned(Subscriptions(), nv.filters, s.addr, at.path);
      StandsNot(s.addr, at.path);
      return false;
    }

    /** Who has not got a filter is not in the set of its node. */
    lemma StandsNot(a: nat, p: Path)
      requires Valid() && a in Replay(history).filters && p !in Replay(history).filters[a]
      ensures p in nodes ==> a !in nodes[p].subs
    {
      hide ValidFor, Replay;
      StandsByFilter();
    }

    lemma NotOwned(lists: map<nat, seq<Topic>>, filters: map<nat, set<Path>>, a: nat, q: Path)
      requires Inverse(nodes, lists, filters) && a in lists && (q in nodes ==> nodes[q] !in lists[a])
      ensures q !in filters[a]
    {
    }

    // ---- unsubscribeAll ----

    /** Ends the subscription at `at`, the first of those that remain. */
    method LeaveNext(at: Topic, a: nat, ghost remaining: seq<Topic>, ghost lists: map<nat, seq<Topic>>, ghost nv: Naive)
      requires Core(nv) && TidyBut([]) && Inverse(nodes, lists, nv.filters)
      requires a in lists && lists[a] == [at] + remaining
      modifies `nodes, nodes.Values, triggeredTopics, `numTriggeredTopics, `min, `log
      ensures Core(DropFilters(nv, a, {at.path})) && TidyBut([]) && nodes.Values <= old(nodes.Values)
      ensures a in nv.filters && Inverse(nodes, lists[a := remaining], DropFilters(nv, a, {at.path}).filters)
    {
      hide Core, TidyBut, DropFilters, Owns;
      OwnedIsLive(lists, nv.filters, a, 0);
      LeftInverse(nodes, lists, nv, a, 0);
      assert lists[a][..0] + lists[a][1..] == remaining;
      Settle(at, nv);
      LeaveTopic(at, a, nv, lists[a := remaining]);
    }

    /** Ends all subscriptions of `s`, each after a drain where something is pending. */
    method LeaveEach(s: Subscriber, ghost nv: Naive, ghost lists: map<nat, seq<Topic>>)
      requires Core(nv) && TidyBut([]) && Inverse(nodes, lists, nv.filters)
      requires s.addr in lists && lists[s.addr] == s.subscriptions && s.addr in nv.filters
      modifies `nodes, nodes.Values, triggeredTopics, `numTriggeredTopics, `min, `log
      ensures nodes.Values <= old(nodes.Values)
      ensures var nv' := DropFilters(nv, s.addr, nv.filters[s.addr]);
              Core(nv') && TidyBut([]) && Inverse(nodes, lists[s.addr := []], nv'.filters)
    {
      hide Core, TidyBut, DropFilters, Inverse, PathSet;
      var a := s.addr;
      OwnedPaths(nodes, lists, nv.filters, a);
      ghost var done: set<Path> := {};
      ghost var nv' := nv;
      DropNothing(nv, a);
      assert lists[a := s.subscriptions[0..]] == lists;
      for k := 0 to |s.subscriptions|
        invariant nodes.Values <= old(nodes.Values)
        invariant done == PathSet(s.subscriptions[..k]) && nv' == DropFilters(nv, a, done)
        invariant Core(nv') && TidyBut([]) && Inverse(nodes, lists[a := s.subscriptions[k..]], nv'.filters)
      {
        var topic := s.subscriptions[k];
        ghost var now := lists[a := s.subscriptions[k..]];
        assert s.subscriptions[k..] == [topic] + s.subscriptions[k + 1..];
        LeaveNext(topic, a, s.subscriptions[k + 1..], now, nv');
        assert now[a := s.subscriptions[k + 1..]] == lists[a := s.subscriptions[k + 1..]];
        DropMore(nv, a, done, topic.path);
        PathSetSnoc(s.subscriptions, k);
        done, nv' := done + {topic.path}, DropFilters(nv', a, {topic.path});
      }
      assert s.subscriptions[|s.subscriptions|..] == [] && s.subscriptions[..|s.subscriptions|] == s.subscriptions;
    }

    method LeaveAll(s: Subscriber)
      requires Valid() && s.addr in members && members[s.addr] == s
      modifies `nodes, nodes.Values, triggeredTopics, `numTriggeredTopics, `min, `log, `history, s`subscriptions
      ensures Valid() && nodes.Values <= old(nodes.Values) && s.subscriptions == []
      ensures s.addr in Replay(old(history)).filters
      ensures history == old(history) + [Unsubscribed(s.addr, Replay(old(history)).filters[s.addr])]
    {
      hide ValidFor, Replay, DropFilters;
      ghost var nv := Replay(history);
      KnowsMembers(nv);
      LeaveAllFor(s, nv);
      ReplaySnoc(history, Unsubscribed(s.addr, nv.filters[s.addr]));
      history := history + [Unsubscribed(s.addr, nv.filters[s.addr])];
    }

    method LeaveAllFor(s: Subscriber, ghost nv: Naive)
      requires ValidFor(nv) && s.addr in members && members[s.addr] == s && s.addr in nv.filters
      modifies `nodes, nodes.Values, triggeredTopics, `numTriggeredTopics, `min, `log, s`subscriptions
      ensures ValidFor(DropFilters(nv, s.addr, nv.filters[s.addr]))
      ensures nodes.Values <= old(nodes.Values) && s.subscriptions == []
    {
      hide Core, DropFilters, Inverse, Members, Subscriptions;
      ListOf(s);
      LeaveEach(s, nv, Subscriptions());
      SetList(s, []);
    }

    /** Takes a closing subscriber out of one topic; nothing is drained. */
    method CloseNext(at: Topic, a: nat, ghost was: map<Path, Spot>, ghost done: set<Path>)
      requires Intact() && TidyBut([]) && Leaving(was, Snap(), a, done) && at.path !in done
      requires at.path in was && was[at.path].node == at && a in was[at.path].subs && at.path != []
      modifies `nodes, nodes.Values, triggeredTopics, `numTriggeredTopics
      ensures Intact() && TidyBut([]) && Leaving(was, Snap(), a, done + {at.path}) && nodes.Values <= old(nodes.Values)
      ensures forall p :: p in nodes ==> p in old(nodes) && nodes[p] == old(nodes)[p]
    {
      hide Intact, TidyBut, Snap, Leaving, Resubbed, ShrunkTo;
      ghost var now, ns := Snap(), nodes;
      StillThere(was, now, a, done, at);
      SpotIs(at);
      EraseSub(at, a);
      ghost var mid := Snap();
      SnapHas();
      Trim(at);
      LeavingStep(was, now, mid, Snap(), a, done, at.path);
      TrimmedNodes(mid, ns);
    }

    /** A topic that is still to be left has not been trimmed. */
    lemma StillThere(was: map<Path, Spot>, now: map<Path, Spot>, a: nat, done: set<Path>, at: Topic)
      requires Leaving(was, now, a, done) && now == Snap() && at.path !in done
      requires at.path in was && was[at.path].node == at && a in was[at.path].subs
      ensures Live(at) && at.path in now
    {
    }

    lemma TrimmedNodes(mid: map<Path, Spot>, ns: map<Path, Topic>)
      requires ShrunkTo(mid, Snap()) && mid.Keys == ns.Keys && forall p :: p in ns ==> mid[p].node == ns[p]
      ensures forall p :: p in nodes ==> p in ns && nodes[p] == ns[p]
    {
      forall p | p in nodes ensures p in ns && nodes[p] == ns[p] {
        assert Snap()[p] == mid[p];
      }
    }

    /** Takes a closing subscriber out of all its topics. */
    method CloseEach(s: Subscriber, ghost nv: Naive)
      requires Core(nv) && TidyBut([]) && s.addr in nv.filters && Owns(nodes, s.subscriptions, nv.filters[s.addr])
      modifies `nodes, nodes.Values, triggeredTopics, `numTriggeredTopics
      ensures Core(Release(nv, s.addr)) && TidyBut([]) && nodes.Values <= old(nodes.Values)
      ensures forall p :: p in nodes ==> p in old(nodes) && nodes[p] == old(nodes)[p]
    {
      hide Intact, TidyBut, Leaving, Agrees, SeenOf, PathSet, Owns, Release, Snap, Matching;
      ghost var was, ns, list := Snap(), nodes, s.subscriptions;
      ghost var done: set<Path> := {};
      IntactIsSound();
      LeavingNothing(was, s.addr, Triggered(), published);
      SnapHas();
      AgreesMatches(was, published, log, nv);
      OwnedSet(ns, list, nv.filters[s.addr]);
      for k := 0 to |s.subscriptions|
        invariant nodes.Values <= old(nodes.Values) && done == PathSet(list[..k])
        invariant Intact() && TidyBut([]) && Leaving(was, Snap(), s.addr, done)
        invariant forall p :: p in nodes ==> p in ns && nodes[p] == ns[p]
      {
        var topic := s.subscriptions[k];
        NextToLeave(ns, was, list, nv.filters, s.addr, k);
        CloseNext(topic, s.addr, was, done);
        PathSetSnoc(list, k);
        done := done + {topic.path};
      }
      assert list[..|list|] == list;
      HasLeft(was, Snap(), s.addr, published, log, nv);
    }

    lemma IntactIsSound()
      requires Intact()
      ensures numTriggeredTopics <= triggeredTopics.Length && Sound(Snap(), Triggered(), published)
    {
    }

    /** Takes a closing subscriber out of the tree. */
    method CloseAll(s: Subscriber)
      requires Valid() && s.addr in members && members[s.addr] == s
      modifies `nodes, nodes.Values, triggeredTopics, `numTriggeredTopics, `history, `members, s`subscriptions
      ensures Valid() && nodes.Values <= old(nodes.Values) && s.subscriptions == []
      ensures members == old(members) - {s.addr} && history == old(history) + [Left(s.addr)]
    {
      hide ValidFor, Replay, Release;
      ghost var nv := Replay(history);
      KnowsMembers(nv);
      CloseFor(s, nv);
      ReplaySnoc(history, Left(s.addr));
      history := history + [Left(s.addr)];
    }

    method CloseFor(s: Subscriber, ghost nv: Naive)
      requires ValidFor(nv) && s.addr in members && members[s.addr] == s && s.addr in nv.filters
      modifies `nodes, nodes.Values, triggeredTopics, `numTriggeredTopics, `members, s`subscriptions
      ensures ValidFor(Release(nv, s.addr)) && nodes.Values <= old(nodes.Values) && s.subscriptions == []
      ensures members == old(members) - {s.addr}
    {
      hide Core, TidyBut, Release, Inverse, Owns, Subscriptions;
      ghost var lists, ns := Subscriptions(), nodes;
      ListOf(s);
      InverseOwns(nodes, lists, nv.filters, s.addr);
      CloseEach(s, nv);
      NodesRemain(Release(nv, s.addr));
      ClosedInverse(ns, nodes, lists, nv, s.addr);
      Forget(s);
    }

    /** Clears the list of a subscriber, which is then gone. */
    method Forget(s: Subscriber)
      requires Members() && s.addr in members && members[s.addr] == s
      modifies `members, s`subscriptions
      ensures Subscriptions() == old(Subscriptions()) - {s.addr} && s.subscriptions == []
      ensures members == old(members) - {s.addr} && Members()
    {
      s.subscriptions := [];
      members := members - {s.addr};
    }

    /** Whatever is subscribed to is a node. */
    lemma NodesRemain(nv: Naive)
      requires Core(nv)
      ensures forall a, p :: a in nv.filters && p in nv.filters[a] ==> p in nodes
    {
      hide Intact, Agrees, SeenOf;
      AgreesMatches(Snap(), published, log, nv);
      forall a, p | a in nv.filters && p in nv.filters[a] ensures p in nodes {
        assert p in Snap();
      }
    }

    /** Ends all subscriptions of `s`; a socket that closes leaves without a drain. */
    method UnsubscribeAll(s: Subscriber?, mayFlush: bool)
      requires Valid() && (s != null ==> s.addr in members && members[s.addr] == s)
      modifies `nodes, nodes.Values, triggeredTopics, `numTriggeredTopics, `min, `log, `history, `members
      modifies if s == null then {} else {s}
      ensures Valid() && nodes.Values <= old(nodes.Values) && (s != null ==> s.subscriptions == [])
      ensures s == null ==>
                history == old(history) && members == old(members) && nodes == old(nodes) && log == old(log)
      ensures s != null && mayFlush ==>
                && members == old(members) && s.addr in Replay(old(history)).filters
                && history == old(history) + [Unsubscribed(s.addr, Replay(old(history)).filters[s.addr])]
      ensures s != null && !mayFlush ==>
                members == old(members) - {s.addr} && history == old(history) + [Left(s.addr)] && log == old(log)
      ensures s != null ==> forall p :: p in nodes ==> s.addr !in nodes[p].subs
    {
      hide Core, TidyBut, Members, Inverse, Replay, Subscriptions;
      if s != null {
        ghost var was := history;
        if mayFlush {
          LeaveAll(s);
          ReplaySnoc(was, Unsubscribed(s.addr, Replay(was).filters[s.addr]));
        } else {
          CloseAll(s);
          ReplaySnoc(was, Left(s.addr));
        }
        NotSubscribed(Replay(history), s.addr);
      }
    }

    /** Who has no filters is in no set. */
    lemma NotSubscribed(nv: Naive, a: nat)
      requires Core(nv) && (a !in nv.filters || nv.filters[a] == {})
      ensures forall p :: p in nodes ==> a !in nodes[p].subs
    {
      hide Intact, Agrees, SeenOf;
      AgreesMatches(Snap(), published, log, nv);
      forall p | p in nodes ensures a !in nodes[p].subs {
        assert Snap()[p].subs == nodes[p].subs;
      }
    }

    /** In the sets stand the members, each exactly at the nodes of its filters. */
    lemma StandsByFilter()
      requires Valid()
      ensures Replay(history).filters.Keys == members.Keys
      ensures forall p, a :: p in nodes && a in nodes[p].subs ==> a in members && p in Replay(history).filters[a]
      ensures forall a, p :: a in members && p in Replay(history).filters[a] ==> p in nodes && a in nodes[p].subs
    {
      hide Intact, Agrees, SeenOf, Replay, TidyBut, Members, Inverse;
      var nv := Replay(history);
      KnowsMembers(nv);
      AgreesMatches(Snap(), published, log, nv);
      forall p, a | p in nodes && a in nodes[p].subs ensures a in members && p in nv.filters[a] {
        assert a in Snap()[p].subs;
      }
      forall a, p | a in members && p in nv.filters[a] ensures p in nodes && a in nodes[p].subs {
        assert a in Snap()[p].subs;
      }
    }

    /** There are as many triggered nodes as listed ones, so more than 64 could not be triggered at all. */
    lemma TriggeredAreListed()
      requires Listed() && Distinct()
      ensures |TriggeredPaths()| == numTriggeredTopics <= MAX_TRIGGERED
    {
      var list, paths := Triggered(), TriggeredPaths();
      forall t | t in list ensures Live(t) && t.path in paths {
      }
      DistinctPaths(list, paths);
      forall p | p in paths ensures nodes[p] in list {
      }
      ListCovers(list, paths);
    }

    lemma {:induction false} ListCovers(list: seq<Topic?>, paths: set<Path>)
      requires Distinct() && forall p :: p in paths ==> p in nodes && nodes[p] in list
      ensures |paths| <= |list|
      decreases |list|
    {
      if list == [] {
        assert paths == {};
      } else {
        var n := |list| - 1;
        var rest := if list[n] == null then paths else paths - {list[n].path};
        forall p | p in rest ensures p in nodes && nodes[p] in list[..n] {
          assert list == list[..n] + [list[n]];
        }
        ListCovers(list[..n], rest);
      }
    }

    // ---- publish, seen from outside ----

    /** The nodes that are triggered when publishing to `topic` is done. */
    ghost function Bound(topic: string): (bound: set<Path>)
      reads this`nodes, this`numTriggeredTopics, nodes.Values`triggered
    {
      (if numTriggeredTopics == MAX_TRIGGERED then {} else TriggeredPaths()) + Hits(nodes.Keys, [], Segments(topic, 0))
    }

    /** The nodes whose filters match `topic`. */
    ghost function Reached(topic: string): (hits: set<Path>)
      reads this`nodes
    {
      set p | p in nodes && Matches(p, Segments(topic, 0))
    }

    lemma ReachedAreHits(topic: string)
      ensures Reached(topic) == Hits(nodes.Keys, [], Segments(topic, 0))
    {
      forall p | p in nodes ensures p in Reached(topic) <==> p in Hits(nodes.Keys, [], Segments(topic, 0)) {
        UnderRoot(p, Segments(topic, 0));
      }
    }

    /** There is room in the triggered list for all that `topic` hits. */
    ghost predicate Fits(topic: string)
      reads this`nodes, nodes.Values`triggered
    {
      Roomy(TriggeredPaths() + Hits(nodes.Keys, [], Segments(topic, 0)), [], Segments(topic, 0))
    }

    lemma Readied(bound: set<Path>)
      requires Intact() && TriggeredPaths() <= bound
      ensures Tree() && Listed() && root.path == [] && Live(root) && Within(Triggered(), bound)
    {
      hide Tree, Sound, Lists, Snap, TriggeredPaths, Within, Distinct;
      SoundIsHeap();
      RootIsLive();
      ListedWithin(bound);
    }

    lemma ListedAreSpots()
      requires Tree() && Listed()
      ensures ListsSpots(Snap(), Triggered())
    {
      hide Tree, Lists, Snap, ListsSpots;
      TreeIsDistinct();
      ListsAreSpots(Triggered());
    }

    /** Strikes the matching nodes. */
    method Strike(topic: string, message: Message)
      requires Intact() && numTriggeredTopics < MAX_TRIGGERED && Fits(topic)
      modifies nodes.Values`messages, nodes.Values`triggered, triggeredTopics, `numTriggeredTopics
      ensures Tree() && triggeredTopics.Length == MAX_TRIGGERED && numTriggeredTopics <= MAX_TRIGGERED
      ensures Snap() == Struck(old(Snap()), Reached(topic), messageId, message) && ListsSpots(Snap(), Triggered())
    {
      hide Intact, Tree, Segments, Hits, Lists, Struck, Snap, Subs, Assembled, Messages, TriggeredPaths, Within,
           Marked, Reached, Live, ListsSpots;
      ghost var bound := TriggeredPaths() + Hits(nodes.Keys, [], Segments(topic, 0));
      Readied(bound);
      ReachedAreHits(topic);
      SnapIsAssembled();
      ghost var subs, messages, triggered, hits := Subs(), Messages(), TriggeredPaths(), Reached(topic);
      AssembledStruck(nodes, subs, messages, triggered, hits, messageId, message);
      StrikeFrom(topic, message, bound, hits);
      SnapIsAssembled();
      ListedAreSpots();
    }

    method StrikeFrom(topic: string, message: Message, ghost bound: set<Path>, ghost hits: set<Path>)
      requires Tree() && Listed() && root.path == [] && Live(root) && Roomy(bound, [], Segments(topic, 0))
               && Within(Triggered(), bound)
      requires hits == Hits(nodes.Keys, [], Segments(topic, 0)) <= bound
      modifies nodes.Values`messages, nodes.Values`triggered, triggeredTopics, `numTriggeredTopics
      ensures Tree() && Listed()
      ensures Messages() == Marked(old(Messages()), hits, messageId, message)
      ensures TriggeredPaths() == old(TriggeredPaths()) + hits && Subs() == old(Subs())
    {
      hide Tree, Segments, Hits, Lists, Messages, TriggeredPaths, Within, Marked, Live;
      PublishFrom(root, 0, 0, topic, message, bound);
    }

    lemma ListedWithin(bound: set<Path>)
      requires numTriggeredTopics <= triggeredTopics.Length && Lists(Triggered()) && TriggeredPaths() <= bound
      ensures Within(Triggered(), bound)
    {
    }

    ghost function Subs(): (subs: map<Path, seq<nat>>)
      reads this`nodes, nodes.Values`subs
    {
      map p | p in nodes :: nodes[p].subs
    }

    lemma SnapIsAssembled()
      ensures Subs().Keys == Messages().Keys == nodes.Keys
              && Snap() == Assembled(nodes, Subs(), Messages(), TriggeredPaths())
    {
    }

    lemma KnowsRoom(nv: Naive)
      requires ValidFor(nv)
      ensures numTriggeredTopics <= triggeredTopics.Length == MAX_TRIGGERED && nv.filters.Keys == nv.streams.Keys
    {
    }

    /** Drains when the triggered list is full. */
    method MakeRoom(ghost nv: Naive)
      requires ValidFor(nv)
      modifies nodes.Values`messages, nodes.Values`triggered, triggeredTopics, `numTriggeredTopics, `min, `log
      ensures ValidFor(nv) && numTriggeredTopics < MAX_TRIGGERED
      ensures TriggeredPaths() == old(if numTriggeredTopics == MAX_TRIGGERED then {} else TriggeredPaths())
      ensures Snap() == old(if numTriggeredTopics == MAX_TRIGGERED then Quieted(Snap()) else Snap())
      ensures old(numTriggeredTopics) < MAX_TRIGGERED ==> log == old(log)
    {
      hide Tree, Sound, Agrees, Snap, Quieted, SeenOf, Members, Inverse, Subscriptions;
      if numTriggeredTopics == MAX_TRIGGERED {
        Flush(nv);
      }
    }

    lemma KnowsBoth(nv: Naive)
      requires Core(nv)
      ensures nv.filters.Keys == nv.streams.Keys
    {
      hide Intact;
    }

    /** Strikes the matching nodes, and counts the message as published. */
    method StrikeFor(topic: string, message: Message, ghost nv: Naive)
      requires Core(nv) && |published| == messageId && numTriggeredTopics < MAX_TRIGGERED
      requires Fits(topic)
      modifies nodes.Values`messages, nodes.Values`triggered, triggeredTopics, `numTriggeredTopics, `published
      ensures Core(Deliver(nv, Segments(topic, 0), message)) && published == old(published) + [message]
      ensures Snap() == Struck(old(Snap()), Reached(topic), messageId, message)
    {
      hide Tree, Sound, SeenOf, Agrees, Segments, Hits, Snap, Struck, ListsSpots, Matches, Deliver, Fits;
      ghost var was, list := Snap(), Triggered();
      SnapHas();
      Strike(topic, message);
      StruckSound(was, Reached(topic), list, Triggered(), published, message);
      StruckAgrees(was, Reached(topic), list, published, log, nv, Segments(topic, 0), message);
      published := published + [message];
    }

    method PublishFor(topic: string, message: Message, ghost nv: Naive)
      requires ValidFor(nv) && numTriggeredTopics < MAX_TRIGGERED
      requires Fits(topic)
      modifies nodes.Values`messages, nodes.Values`triggered, triggeredTopics, `numTriggeredTopics
      modifies `messageId, `published
      ensures ValidFor(Deliver(nv, Segments(topic, 0), message)) && messageId == old(messageId) + 1
      ensures Snap() == Struck(old(Snap()), Reached(topic), old(messageId), message)
    {
      hide Core, Segments, Hits, Inverse, Snap, Struck, Reached, Members, Subscriptions, Fits, Deliver;
      KnowsBoth(nv);
      DeliverKeepsFilters(nv, Segments(topic, 0), message);
      StrikeFor(topic, message, nv);
      messageId := messageId + 1;
    }

    method PublishNow(topic: string, message: Message, ghost nv: Naive)
      requires ValidFor(nv) && Roomy(Bound(topic), [], Segments(topic, 0)) && nv.filters.Keys == nv.streams.Keys
      modifies nodes.Values`messages, nodes.Values`triggered, triggeredTopics, `numTriggeredTopics, `min, `log
      modifies `messageId, `published
      ensures ValidFor(Deliver(nv, Segments(topic, 0), message)) && messageId == old(messageId) + 1
      ensures var was := old(if numTriggeredTopics == MAX_TRIGGERED then Quieted(Snap()) else Snap());
              Snap() == Struck(was, Reached(topic), old(messageId), message)
      ensures old(numTriggeredTopics) < MAX_TRIGGERED ==> log == old(log)
    {
      hide ValidFor, Segments, Hits, Snap, Quieted, Struck, Reached, TriggeredPaths, Deliver;
      MakeRoom(nv);
      PublishFor(topic, message, nv);
    }

    /** Publishes `message` to everyone with a matching filter. */
    method Publish(topic: string, message: Message)
      requires Valid() && Roomy(Bound(topic), [], Segments(topic, 0))
      modifies nodes.Values`messages, nodes.Values`triggered, triggeredTopics, `numTriggeredTopics, `min, `log
      modifies `messageId, `published, `history
      ensures Valid() && messageId == old(messageId) + 1
      ensures history == old(history) + [Published(Segments(topic, 0), message)]
      ensures var was := old(if numTriggeredTopics == MAX_TRIGGERED then Quieted(Snap()) else Snap());
              Snap() == Struck(was, Reached(topic), old(messageId), message)
      ensures old(numTriggeredTopics) < 64 ==> log == old(log)
    {
      hide ValidFor, Replay, Segments, Bound, Snap, Quieted, Struck, Reached, Deliver;
      ghost var nv := Replay(history);
      KnowsRoom(nv);
      PublishNow(topic, message, nv);
      ReplaySnoc(history, Published(Segments(topic, 0), message));
      history := history + [Published(Segments(topic, 0), message)];
    }

    // ---- Runs ----

    lemma CoreAdmits(nv: Naive, a: nat)
      requires Core(nv) && a !in nv.filters
      ensures Core(Admit(nv, a, Delivered(log, a)))
    {
      hide Intact, Agrees, Delivered, Admit;
      JoinAgrees(SeenOf(Snap()), published, log, nv, a);
    }

    static lemma InverseAdmits(ns: map<Path, Topic>, lists: map<nat, seq<Topic>>, nv: Naive, a: nat, soFar: Message)
      requires Inverse(ns, lists, nv.filters) && a !in nv.filters
      ensures Inverse(ns, lists[a := []], Admit(nv, a, soFar).filters)
    {
    }

    /** A new subscriber. */
    ghost method Admitted(s: Subscriber)
      requires Valid() && s.addr !in members && s.addr < UINTPTR_MAX && s.subscriptions == []
      modifies `members, `history
      ensures Valid() && members == old(members)[s.addr := s]
      ensures history == old(history) + [Joined(s.addr, Delivered(log, s.addr))]
    {
      hide Core, Replay, Delivered, Inverse, Admit;
      ghost var nv, lists := Replay(history), Subscriptions();
      KnowsMembers(nv);
      CoreAdmits(nv, s.addr);
      InverseAdmits(nodes, lists, nv, s.addr, Delivered(log, s.addr));
      ReplaySnoc(history, Joined(s.addr, Delivered(log, s.addr)));
      members := members[s.addr := s];
      history := history + [Joined(s.addr, Delivered(log, s.addr))];
      assert Subscriptions() == lists[s.addr := []];
    }

    /** Hands out everything that is pending. */
    method Commit()
      requires Valid()
      modifies nodes.Values`messages, nodes.Values`triggered, triggeredTopics, `numTriggeredTopics, `min, `log
      ensures Valid() && Quiet()
    {
      hide Core, TidyBut, Members, Inverse, Replay, Subscriptions, Quiet, Snap, Quieted;
      Flush(Replay(history));
    }

    /**
     Whatever has happened, once everything pending is handed out each subscriber has got exactly what delivery at
     once, by its own list of filters, would have given it.
     */
    lemma EverybodyIsServed()
      requires Valid() && Quiet()
      ensures Replay(history).streams.Keys == members.Keys
      ensures forall a :: a in members ==> Delivered(log, a) == Replay(history).streams[a]
    {
      hide Intact, TidyBut, Replay, Delivered, Collect;
      var nv := Replay(history);
      KnowsMembers(nv);
      forall a | a in members ensures Delivered(log, a) == nv.streams[a] {
        var v := SeenOf(Snap());
        assert StreamAgrees(v, published, log, nv, a);
        CollectNone(published, PendingIds(v, a, |published|));
        AppendLaws(Delivered(log, a), NOTHING, NOTHING);
      }
    }

    /**
     The same octet by octet and told from the history alone. Once everything pending is handed out, the data of all
     calls for an address, one behind the other, is what the address had got when its present owner joined, and behind
     it every message that has been published since to a topic that one of its filters matched then, in the order of
     publishing.
     */
    lemma EverybodyHears(a: nat) returns (mine: seq<nat>, since: nat, heard: seq<nat>)
      requires Valid() && Quiet() && a in members
      ensures Increasing(mine) && Inside(mine, |log|) && forall i: nat :: i in mine <==> i < |log| && log[i].addr == a
      ensures JoinedAt(history, a, since) && HeardAt(history, a, since, heard)
      ensures forall k :: 0 <= k < |heard| ==> history[heard[k]].Published?
      ensures var soFar := history[since].soFar;
              && Flatten(AllInflated(Handed(log, mine)))
                 == soFar.inflated + Flatten(AllInflated(Said(history, heard)))
              && Flatten(AllDeflated(Handed(log, mine)))
                 == soFar.deflated + Flatten(AllDeflated(Said(history, heard)))
    {
      hide Valid, Quiet, Replay, Delivered, Flatten, AllInflated, AllDeflated, HeardAt, Handed, Said;
      EverybodyIsServed();
      mine := DeliveredIsRow(log, a);
      since, heard := StreamIsHeard(history, a);
    }

    /** Every node but the root has a subscriber, or a node below it has. */
    lemma {:induction false} LeadsToSubscriber(p: Path) returns (q: Path)
      requires Tree() && TidyBut([]) && p in nodes && p != []
      ensures p <= q && q in nodes && nodes[q].subs != []
      decreases |set n | n in nodes && p <= n|
    {
      hide Tree;
      if nodes[p].subs != [] {
        return p;
      }
      TreeIsDistinct();
      LinksAt(nodes[p]);
      var seg :| seg in nodes[p].children;
      var below, lower := set n | n in nodes && p <= n, set n | n in nodes && p + [seg] <= n;
      assert lower <= below - {p};
      Smaller(lower, below, p);
      q := LeadsToSubscriber(p + [seg]);
    }

    lemma StartsValid()
      requires nodes == map[[] := root] && published == [] && members == map[] && history == [] && messageId == 0
               && log == []
      requires numTriggeredTopics == 0 && triggeredTopics.Length == MAX_TRIGGERED
      requires root.path == [] && root.children == map[] && root.wildcardChild == null
               && root.terminatingWildcardChild == null
      requires root.messages == map[] && root.subs == [] && !root.triggered
      ensures Valid() && Quiet()
    {
      hide Linked, Agrees, Sound, Collect, Delivered;
      assert Triggered() == [];
      StartsLinked();
      StartsSound(root, published);
      assert Snap() == map[[] := Spot(root, [], map[], false)];
    }

    lemma StartsLinked()
      requires nodes == map[[] := root]
      requires root.path == [] && root.children == map[] && root.wildcardChild == null
               && root.terminatingWildcardChild == null
      ensures Tree()
    {
    }
  }
}
