/** The nodes of the topic tree, and what the tree is as a value: its links, its contents, and its lists. */
module TopicNodes {
  import opened Bytes
  import opened TopicMatch
  import opened TopicBatch
  import opened TopicMerge

  class Topic {
    const name: string
    const parent: Topic?
    ghost const path: Path

    var triggered: bool
    var children: map<string, Topic>
    var wildcardChild: Topic?
    var terminatingWildcardChild: Topic?

    /** What was published here since the last drain, by message id. */
    var messages: map<nat, Message>

    /** The addresses of the subscribers, as std::set iterates over them. */
    var subs: seq<nat>

    constructor (name: string, parent: Topic?)
      ensures this.name == name && this.parent == parent
      ensures path == if parent == null then [] else parent.path + [name]
      ensures !triggered && children == map[] && wildcardChild == null && terminatingWildcardChild == null
      ensures messages == map[] && subs == []
    {
      this.name, this.parent := name, parent;
      path := if parent == null then [] else parent.path + [name];
      triggered, children, wildcardChild, terminatingWildcardChild := false, map[], null, null;
      messages, subs := map[], [];
    }
  }

  class Subscriber {
    /** Where the subscriber stands in memory, which is what std::set orders subscribers by. */
    const addr: nat

    var subscriptions: seq<Topic>

    constructor (addr: nat)
      ensures this.addr == addr && subscriptions == []
    {
      this.addr, subscriptions := addr, [];
    }
  }

  lemma NoneIsGenuine(published: seq<Message>)
    ensures Genuine(published, map[])
  {
  }

  // ---- Filtering a list ----

  ghost function Filter(list: seq<Topic?>, keep: set<Topic?>): (r: seq<Topic?>)
    decreases |list|
  {
    if list == [] then []
    else
      var n := |list| - 1;
      if list[n] in keep then Filter(list[..n], keep) + [list[n]] else Filter(list[..n], keep)
  }

  lemma FilterNothing(keep: set<Topic?>)
    ensures Filter([], keep) == []
  {
  }

  lemma FilterSnoc(list: seq<Topic?>, t: Topic?, keep: set<Topic?>)
    ensures Filter(list + [t], keep) == if t in keep then Filter(list, keep) + [t] else Filter(list, keep)
  {
    assert (list + [t])[..|list|] == list;
  }

  lemma {:induction false} InFilter(list: seq<Topic?>, keep: set<Topic?>, t: Topic?)
    ensures t in Filter(list, keep) <==> t in list && t in keep
    decreases |list|
  {
    if list != [] {
      InFilter(list[..|list| - 1], keep, t);
      assert list == list[..|list| - 1] + [list[|list| - 1]];
    }
  }

  predicate NoRepeats(list: seq<Topic?>) {
    forall i, j :: 0 <= i < j < |list| ==> list[i] != list[j]
  }

  // ---- Links ----

  datatype NodeLinks = NodeLinks(node: Topic, children: map<string, Topic>, plus: Topic?, hash: Topic?)

  ghost function LinksOf(t: Topic): (links: NodeLinks)
    reads t`children, t`wildcardChild, t`terminatingWildcardChild
  {
    NodeLinks(t, t.children, t.wildcardChild, t.terminatingWildcardChild)
  }

  ghost predicate WovenAt(links: map<Path, NodeLinks>, root: Topic, p: Path)
    requires p in links
  {
    var l := links[p];
    && l.node.path == p
    && (p == [] ==> l.node == root)
    && (p != [] ==>
          p[..|p| - 1] in links && l.node.parent == links[p[..|p| - 1]].node && l.node.name == p[|p| - 1])
    && (forall seg {:trigger seg in l.children} :: seg in l.children <==> p + [seg] in links)
    && (forall seg :: seg in l.children ==> l.children[seg] == links[p + [seg]].node)
    && l.plus == (if PLUS in l.children then l.children[PLUS] else null)
    && l.hash == (if HASH in l.children then l.children[HASH] else null)
  }

  ghost predicate Woven(links: map<Path, NodeLinks>, root: Topic) {
    [] in links && forall p {:trigger WovenAt(links, root, p)} :: p in links ==> WovenAt(links, root, p)
  }

  /** A node stays woven in when its links, its parent and the paths of its children stay. */
  lemma StaysWoven(links: map<Path, NodeLinks>, now: map<Path, NodeLinks>, root: Topic, p: Path)
    requires p in links && WovenAt(links, root, p) && p in now && now[p] == links[p]
    requires forall q :: q in now && q in links ==> now[q].node == links[q].node
    requires p != [] ==> p[..|p| - 1] in now
    requires forall seg :: p + [seg] in now <==> p + [seg] in links
    ensures WovenAt(now, root, p)
  {
  }

  lemma NewChildWoven(links: map<Path, NodeLinks>, root: Topic, at: Topic, segment: string, child: Topic,
                      forAt: NodeLinks, forChild: NodeLinks)
    requires Woven(links, root) && at.path in links && links[at.path].node == at && segment !in links[at.path].children
    requires child.name == segment && child.parent == at && child.path == at.path + [segment]
    requires forChild == NodeLinks(child, map[], null, null)
    requires var was := links[at.path];
             forAt == NodeLinks(at, was.children[segment := child], if segment == PLUS then child else was.plus,
                                if segment == HASH then child else was.hash)
    ensures Woven(links[at.path := forAt][child.path := forChild], root)
  {
    hide WovenAt;
    var now, q := links[at.path := forAt][child.path := forChild], at.path;
    assert WovenAt(links, root, q);
    ChildIsNew(links, root, q, segment);
    forall p | p in now ensures WovenAt(now, root, p) {
      if p == child.path {
        NewIsWoven(links, now, root, q, segment);
      } else if p == q {
        ParentIsWoven(links, now, root, q, segment);
      } else {
        assert WovenAt(links, root, p);
        forall seg ensures p + [seg] in now <==> p + [seg] in links {
          assert (p + [seg])[..|p|] == p && (q + [segment])[..|q|] == q;
        }
        if p != [] {
          ParentIsThere(links, root, p);
        }
        StaysWoven(links, now, root, p);
      }
    }
  }

  lemma ParentIsThere(links: map<Path, NodeLinks>, root: Topic, p: Path)
    requires Woven(links, root) && p in links && p != []
    ensures p[..|p| - 1] in links && links[p].node.parent == links[p[..|p| - 1]].node
            && links[p].node.name == p[|p| - 1]
    ensures links[p].node.path == p
  {
    assert WovenAt(links, root, p);
  }

  /** A child that is not linked is not there, and nor is anything below it. */
  lemma ChildIsNew(links: map<Path, NodeLinks>, root: Topic, q: Path, segment: string)
    requires Woven(links, root) && q in links && segment !in links[q].children
    ensures q + [segment] !in links && forall seg :: q + [segment] + [seg] !in links
  {
    assert WovenAt(links, root, q);
    forall seg ensures q + [segment] + [seg] !in links {
      var p := q + [segment] + [seg];
      assert p[..|p| - 1] == q + [segment];
      if p in links {
        ParentIsThere(links, root, p);
      }
    }
  }

  lemma NewIsWoven(links: map<Path, NodeLinks>, now: map<Path, NodeLinks>, root: Topic, q: Path, segment: string)
    requires Woven(links, root) && q in links && segment !in links[q].children
    requires now.Keys == links.Keys + {q + [segment]} && now[q].node == links[q].node
    requires var l := now[q + [segment]];
             l == NodeLinks(l.node, map[], null, null) && l.node.name == segment
             && l.node.parent == now[q].node && l.node.path == q + [segment]
    ensures WovenAt(now, root, q + [segment])
  {
    var p := q + [segment];
    assert p[..|p| - 1] == q;
    ChildIsNew(links, root, q, segment);
    forall seg ensures p + [seg] !in now {
      assert p + [seg] == q + [segment] + [seg] && |p + [seg]| != |p|;
    }
  }

  lemma ParentIsWoven(links: map<Path, NodeLinks>, now: map<Path, NodeLinks>, root: Topic, q: Path, segment: string)
    requires q in links && WovenAt(links, root, q) && q + [segment] !in links
    requires now.Keys == links.Keys + {q + [segment]}
    requires forall p :: p in links ==> now[p].node == links[p].node
    requires var was, child := links[q], now[q + [segment]].node;
             now[q] == NodeLinks(was.node, was.children[segment := child], if segment == PLUS then child else was.plus,
                                 if segment == HASH then child else was.hash)
    ensures WovenAt(now, root, q)
  {
    forall seg ensures q + [seg] == q + [segment] <==> seg == segment {
      assert (q + [seg])[|q|] == seg;
    }
  }

  /** Taking away a child without children leaves the others woven. */
  lemma ChildGoneWoven(links: map<Path, NodeLinks>, root: Topic, q: Path, segment: string, forParent: NodeLinks)
    requires Woven(links, root) && q in links && q + [segment] in links && links[q + [segment]].children == map[]
    requires var was := links[q];
             forParent == NodeLinks(was.node, was.children - {segment}, if segment == PLUS then null else was.plus,
                                    if segment == HASH then null else was.hash)
    ensures Woven(links[q := forParent] - {q + [segment]}, root)
  {
    hide WovenAt;
    var gone := q + [segment];
    var now := links[q := forParent] - {gone};
    forall p | p in now ensures WovenAt(now, root, p) {
      assert WovenAt(links, root, p);
      if p == q {
        ParentIsLeft(links, now, root, q, segment);
      } else {
        forall seg ensures p + [seg] in now <==> p + [seg] in links {
          assert (p + [seg])[..|p|] == p && gone[..|q|] == q;
        }
        if p != [] {
          ParentIsThere(links, root, p);
          assert p == p[..|p| - 1] + [p[|p| - 1]];
          assert WovenAt(links, root, gone);
          NoChildren(links, root, gone, p[|p| - 1]);
        }
        StaysWoven(links, now, root, p);
      }
    }
  }

  lemma NoChildren(links: map<Path, NodeLinks>, root: Topic, p: Path, seg: string)
    requires p in links && WovenAt(links, root, p) && links[p].children == map[]
    ensures p + [seg] !in links
  {
    assert seg !in links[p].children;
  }

  lemma ParentIsLeft(links: map<Path, NodeLinks>, now: map<Path, NodeLinks>, root: Topic, q: Path, segment: string)
    requires q in links && WovenAt(links, root, q)
    requires now.Keys == links.Keys - {q + [segment]}
    requires forall p :: p in now ==> now[p].node == links[p].node
    requires q in now
    requires var was := links[q];
             now[q] == NodeLinks(was.node, was.children - {segment}, if segment == PLUS then null else was.plus,
                                 if segment == HASH then null else was.hash)
    ensures WovenAt(now, root, q)
  {
    forall seg ensures q + [seg] == q + [segment] <==> seg == segment {
      assert (q + [seg])[|q|] == seg;
    }
    assert q != [] ==> |q[..|q| - 1]| < |q + [segment]|;
  }

  // ---- Removing from a list ----

  ghost function Without(list: seq<Topic?>, t: Topic): (r: seq<Topic?>)
    decreases |list|
  {
    if list == [] then []
    else
      var n := |list| - 1;
      if list[n] != t then Without(list[..n], t) + [list[n]] else Without(list[..n], t)
  }

  lemma WithoutNothing(t: Topic)
    ensures Without([], t) == []
  {
  }

  lemma WithoutSnoc(list: seq<Topic?>, u: Topic?, t: Topic)
    ensures Without(list + [u], t) == if u != t then Without(list, t) + [u] else Without(list, t)
  {
    assert (list + [u])[..|list|] == list;
  }

  lemma {:induction false} InWithout(list: seq<Topic?>, t: Topic, u: Topic?)
    ensures u in Without(list, t) <==> u in list && u != t
    decreases |list|
  {
    if list != [] {
      InWithout(list[..|list| - 1], t, u);
      assert list == list[..|list| - 1] + [list[|list| - 1]];
    }
  }

  lemma {:induction false} WithoutKeepsDistinct(list: seq<Topic?>, t: Topic)
    requires NoRepeats(list)
    ensures NoRepeats(Without(list, t))
    decreases |list|
  {
    if list != [] {
      var n := |list| - 1;
      WithoutKeepsDistinct(list[..n], t);
      InWithout(list[..n], t, list[n]);
    }
  }

  lemma {:induction false} WithoutAbsent(list: seq<Topic?>, t: Topic)
    requires t !in list
    ensures Without(list, t) == list
    decreases |list|
  {
    if list != [] {
      WithoutAbsent(list[..|list| - 1], t);
      assert list == list[..|list| - 1] + [list[|list| - 1]];
    }
  }

  /** `list` holds each marked node once, and nothing else. */
  ghost predicate ListsMarks(list: seq<Topic?>, nodes: map<Path, Topic>, marks: set<Topic?>) {
    && (forall t: Topic? :: t in list ==> t != null && t.path in nodes && nodes[t.path] == t && t in marks)
    && NoRepeats(list)
    && (forall p :: p in nodes && nodes[p] in marks ==> nodes[p] in list)
  }

  lemma ListsCulled(list: seq<Topic?>, nodes: map<Path, Topic>, marks: set<Topic>, topic: Topic)
    requires ListsMarks(list, nodes, marks) && topic.path in nodes && nodes[topic.path] == topic
    requires forall p :: p in nodes ==> nodes[p].path == p
    ensures ListsMarks(Without(list, topic), nodes - {topic.path}, marks - {topic})
    ensures topic !in marks ==> Without(list, topic) == list
  {
    WithoutKeepsDistinct(list, topic);
    forall t: Topic? ensures t in Without(list, topic) <==> t in list && t != topic {
      InWithout(list, topic, t);
    }
    if topic !in marks {
      WithoutAbsent(list, topic);
    }
    var rest := nodes - {topic.path};
    forall t: Topic? | t in Without(list, topic)
      ensures t != null && t.path in rest && rest[t.path] == t && t in marks - {topic}
    {
      InWithout(list, topic, t);
    }
  }

  lemma ValuesWithout(nodes: map<Path, Topic>, q: Path)
    requires q in nodes && forall p :: p in nodes ==> nodes[p].path == p
    ensures (nodes - {q}).Values == nodes.Values - {nodes[q]}
  {
    var rest := nodes - {q};
    forall t | t in nodes.Values && t != nodes[q] ensures t in rest.Values {
      assert t.path in rest && rest[t.path] == t;
    }
  }

  // ---- The tree as a value ----

  datatype Spot = Spot(node: Topic, subs: seq<nat>, messages: map<nat, Message>, triggered: bool)

  ghost function SpotOf(t: Topic): (s: Spot)
    reads t`subs, t`messages, t`triggered
  {
    Spot(t, t.subs, t.messages, t.triggered)
  }

  /** Pending messages are genuine and at triggered nodes; the list holds each triggered node once and nothing else. */
  ghost predicate Sound(snap: map<Path, Spot>, list: seq<Topic?>, published: seq<Message>) {
    && (forall p :: p in snap ==>
          && snap[p].node.path == p && Sorted(snap[p].subs) && Genuine(published, snap[p].messages)
          && (snap[p].messages != map[] ==> snap[p].triggered))
    && ListsSpots(snap, list)
  }

  ghost predicate ListsSpots(snap: map<Path, Spot>, list: seq<Topic?>) {
    && (forall t: Topic? :: t in list ==>
         t != null && t.path in snap && snap[t.path].node == t && snap[t.path].triggered)
    && NoRepeats(list)
    && (forall p :: p in snap && snap[p].triggered ==> snap[p].node in list)
  }

  ghost function SeenOf(snap: map<Path, Spot>): (v: View) {
    View(map p | p in snap :: AddrSet(snap[p].subs), map p | p in snap :: snap[p].messages.Keys)
  }

  ghost function Quieted(snap: map<Path, Spot>): (r: map<Path, Spot>) {
    map p | p in snap :: snap[p].(messages := map[], triggered := false)
  }

  lemma QuietedAgrees(snap: map<Path, Spot>, published: seq<Message>, log: seq<Call>, calls: seq<Call>, nv: Naive)
    requires Agrees(SeenOf(snap), published, log, nv) && Batch(SeenOf(snap), published, calls)
    ensures Agrees(SeenOf(Quieted(snap)), published, log + calls, nv)
  {
    hide Agrees, Batch;
    DrainAgrees(SeenOf(snap), SeenOf(Quieted(snap)), published, log, calls, nv);
  }

  /** Subscribers and filters are inverse to each other. */
  ghost predicate Matching(snap: map<Path, Spot>, filters: map<nat, set<Path>>) {
    && (forall p, a :: p in snap && a in snap[p].subs ==> a in filters && p in filters[a])
    && (forall a, p :: a in filters && p in filters[a] ==> p in snap && a in snap[p].subs)
  }

  lemma AgreesMatches(snap: map<Path, Spot>, published: seq<Message>, log: seq<Call>, nv: Naive)
    requires Agrees(SeenOf(snap), published, log, nv)
    ensures Matching(snap, nv.filters) && Known(nv)
  {
    hide StreamAgrees;
    var v := SeenOf(snap);
    forall p, a | p in snap && a in snap[p].subs ensures a in nv.filters && p in nv.filters[a] {
      assert p in v.subs && a in v.subs[p];
    }
    forall a, p | a in nv.filters && p in nv.filters[a] ensures p in snap && a in snap[p].subs {
      assert p in v.subs && a in v.subs[p];
    }
  }

  /** ResubscribeAgrees, for what stands at the nodes. */
  lemma ResubscribedAgrees(was: map<Path, Spot>, now: map<Path, Spot>, published: seq<Message>, log: seq<Call>,
                           nv: Naive, nv': Naive)
    requires Agrees(SeenOf(was), published, log, nv) && nv'.streams == nv.streams && nv'.filters.Keys == nv.filters.Keys
    requires Matching(now, nv'.filters)
    requires forall p :: p in was && p in now ==>
               now[p].messages == was[p].messages && (now[p].subs != was[p].subs ==> was[p].messages == map[])
    requires forall p :: p in was && p !in now ==> was[p].subs == []
    requires forall p :: p in now && p !in was ==> now[p].subs == []
    ensures Agrees(SeenOf(now), published, log, nv')
  {
    hide Agrees;
    var v, v' := SeenOf(was), SeenOf(now);
    forall p, a | p in v'.subs && a in v'.subs[p] ensures a in nv'.filters && p in nv'.filters[a] {
      assert p in now && a in now[p].subs;
    }
    forall a, p | a in nv'.filters && p in nv'.filters[a] ensures p in v'.subs && a in v'.subs[p] {
      assert p in now && a in now[p].subs;
    }
    ResubscribeAgrees(v, v', published, log, nv, nv');
  }

  /** Nodes have been added where nothing is pending and nobody subscribed. */
  ghost predicate GrownTo(was: map<Path, Spot>, now: map<Path, Spot>) {
    && (forall p :: p in was ==> p in now && now[p] == was[p])
    && (forall p :: p in now && p !in was ==> now[p].node.path == p && now[p] == Spot(now[p].node, [], map[], false))
  }

  lemma GrownSound(was: map<Path, Spot>, now: map<Path, Spot>, list: seq<Topic?>, published: seq<Message>,
                   log: seq<Call>, nv: Naive)
    requires Sound(was, list, published) && Agrees(SeenOf(was), published, log, nv) && GrownTo(was, now)
    ensures Sound(now, list, published) && Agrees(SeenOf(now), published, log, nv)
  {
    hide Genuine, Sorted, Agrees, SeenOf;
    NoneIsGenuine(published);
    SortedNothing();
    AgreesMatches(was, published, log, nv);
    ResubscribedAgrees(was, now, published, log, nv, nv);
  }

  /** What stands at the nodes after a change of one set of subscribers. */
  ghost function Resubbed(snap: map<Path, Spot>, q: Path, subs: seq<nat>): (r: map<Path, Spot>)
    requires q in snap
  {
    snap[q := snap[q].(subs := subs)]
  }

  lemma ResubbedSound(was: map<Path, Spot>, q: Path, subs: seq<nat>, list: seq<Topic?>, published: seq<Message>)
    requires Sound(was, list, published) && q in was && Sorted(subs)
    ensures Sound(Resubbed(was, q, subs), list, published)
  {
    hide Genuine, Sorted;
  }

  /** Subscribing where nothing is pending. */
  lemma JoinedSound(was: map<Path, Spot>, q: Path, a: nat, list: seq<Topic?>, published: seq<Message>,
                    log: seq<Call>, nv: Naive)
    requires Sound(was, list, published) && Agrees(SeenOf(was), published, log, nv)
    requires q in was && !was[q].triggered && a in nv.filters && a < UINTPTR_MAX
    ensures var now := Resubbed(was, q, InsertAddr(was[q].subs, a));
            Sound(now, list, published) && Agrees(SeenOf(now), published, log, AddFilter(nv, a, q))
    ensures InsertAddr(was[q].subs, a) != [] && (a in was[q].subs <==> q in nv.filters[a])
  {
    hide Agrees, SeenOf, InsertAddr, Sound, Sorted;
    var subs := InsertAddr(was[q].subs, a);
    SoundAt(was, q, list, published);
    InsertAddrIsRight(was[q].subs, a);
    ResubbedSound(was, q, subs, list, published);
    AgreesMatches(was, published, log, nv);
    assert a in AddrSet(subs);
    JoinedMatches(was, q, a, subs, nv);
    ResubscribedAgrees(was, Resubbed(was, q, subs), published, log, nv, AddFilter(nv, a, q));
  }

  lemma SoundAt(snap: map<Path, Spot>, q: Path, list: seq<Topic?>, published: seq<Message>)
    requires Sound(snap, list, published) && q in snap
    ensures Sorted(snap[q].subs) && snap[q].node.path == q && (!snap[q].triggered ==> snap[q].messages == map[])
  {
  }

  lemma JoinedMatches(was: map<Path, Spot>, q: Path, a: nat, subs: seq<nat>, nv: Naive)
    requires Matching(was, nv.filters) && q in was && a in nv.filters && AddrSet(subs) == AddrSet(was[q].subs) + {a}
    ensures Matching(Resubbed(was, q, subs), AddFilter(nv, a, q).filters)
  {
    forall b ensures b in subs <==> b in was[q].subs || b == a {
      assert b in subs <==> b in AddrSet(subs);
    }
  }

  /** Unsubscribing where nothing is pending. */
  lemma LeftSound(was: map<Path, Spot>, q: Path, a: nat, list: seq<Topic?>, published: seq<Message>, log: seq<Call>,
                  nv: Naive)
    requires Sound(was, list, published) && Agrees(SeenOf(was), published, log, nv)
    requires q in was && !was[q].triggered && a in nv.filters
    ensures var now := Resubbed(was, q, EraseAddr(was[q].subs, a));
            Sound(now, list, published) && Agrees(SeenOf(now), published, log, DropFilters(nv, a, {q}))
  {
    hide Agrees, SeenOf, EraseAddr, Sound, Sorted;
    var subs := EraseAddr(was[q].subs, a);
    SoundAt(was, q, list, published);
    EraseAddrIsRight(was[q].subs, a);
    ResubbedSound(was, q, subs, list, published);
    AgreesMatches(was, published, log, nv);
    LeftMatches(was, q, a, subs, nv);
    ResubscribedAgrees(was, Resubbed(was, q, subs), published, log, nv, DropFilters(nv, a, {q}));
  }

  lemma LeftMatches(was: map<Path, Spot>, q: Path, a: nat, subs: seq<nat>, nv: Naive)
    requires Matching(was, nv.filters) && q in was && a in nv.filters && AddrSet(subs) == AddrSet(was[q].subs) - {a}
    ensures Matching(Resubbed(was, q, subs), DropFilters(nv, a, {q}).filters)
  {
    forall b ensures b in subs <==> b in was[q].subs && b != a {
      assert b in subs <==> b in AddrSet(subs);
    }
  }

  /** Nodes without subscribers have been taken out. */
  ghost predicate ShrunkTo(was: map<Path, Spot>, now: map<Path, Spot>) {
    && (forall p :: p in now ==> p in was && now[p] == was[p])
    && (forall p :: p in was && p !in now ==> was[p].subs == [])
  }

  lemma ShrunkSound(was: map<Path, Spot>, now: map<Path, Spot>, list: seq<Topic?>, list': seq<Topic?>,
                    published: seq<Message>)
    requires Sound(was, list, published) && ShrunkTo(was, now) && ListsSpots(now, list')
    ensures Sound(now, list', published)
  {
    hide Genuine, Sorted;
  }

  lemma ShrunkAgrees(was: map<Path, Spot>, now: map<Path, Spot>, published: seq<Message>, log: seq<Call>, nv: Naive)
    requires Agrees(SeenOf(was), published, log, nv) && ShrunkTo(was, now)
    ensures Agrees(SeenOf(now), published, log, nv)
  {
    hide Agrees, SeenOf;
    AgreesMatches(was, published, log, nv);
    ResubscribedAgrees(was, now, published, log, nv, nv);
  }

  /** What stands at the nodes, put together from its parts. */
  ghost function Assembled(nodes: map<Path, Topic>, subs: map<Path, seq<nat>>, messages: map<Path, map<nat, Message>>,
                           triggered: set<Path>): (snap: map<Path, Spot>)
    requires subs.Keys == messages.Keys == nodes.Keys
  {
    map p | p in nodes :: Spot(nodes[p], subs[p], messages[p], p in triggered)
  }

  lemma AssembledStruck(nodes: map<Path, Topic>, subs: map<Path, seq<nat>>, messages: map<Path, map<nat, Message>>,
                        triggered: set<Path>, hits: set<Path>, id: nat, message: Message)
    requires subs.Keys == messages.Keys == nodes.Keys
    ensures Assembled(nodes, subs, Marked(messages, hits, id, message), triggered + hits)
            == Struck(Assembled(nodes, subs, messages, triggered), hits, id, message)
  {
  }

  lemma Smaller(a: set<Path>, b: set<Path>, p: Path)
    requires a <= b - {p} && p in b
    ensures |a| < |b|
  {
    SubsetSize(a, b - {p});
  }

  lemma {:induction false} SubsetSize(a: set<Path>, b: set<Path>)
    requires a <= b
    ensures |a| <= |b|
    decreases |a|
  {
    if p :| p in a {
      SubsetSize(a - {p}, b - {p});
    }
  }

  lemma StartsSound(root: Topic, published: seq<Message>)
    requires root.path == []
    ensures var snap := map[[] := Spot(root, [], map[], false)];
            Sound(snap, [], published) && Agrees(SeenOf(snap), published, [], Naive(map[], map[]))
  {
    SortedNothing();
  }

  // ---- Publishing ----

  /** Message `id` stands at the nodes `hits`, and they are triggered. */
  ghost function Struck(snap: map<Path, Spot>, hits: set<Path>, id: nat, message: Message): (r: map<Path, Spot>) {
    map p | p in snap ::
      if p in hits then snap[p].(messages := snap[p].messages[id := message], triggered := true) else snap[p]
  }

  lemma StruckSound(was: map<Path, Spot>, hits: set<Path>, list: seq<Topic?>, list': seq<Topic?>,
                    published: seq<Message>,
                    message: Message)
    requires Sound(was, list, published) && ListsSpots(Struck(was, hits, |published|, message), list')
    ensures Sound(Struck(was, hits, |published|, message), list', published + [message])
  {
    hide Sorted;
  }

  lemma StruckAgrees(was: map<Path, Spot>, hits: set<Path>, list: seq<Topic?>, published: seq<Message>, log: seq<Call>,
                     nv: Naive, topic: Path, message: Message)
    requires Sound(was, list, published) && Agrees(SeenOf(was), published, log, nv)
    requires forall p :: p in was ==> (p in hits <==> Matches(p, topic))
    ensures Agrees(SeenOf(Struck(was, hits, |published|, message)), published + [message], log,
                  Deliver(nv, topic, message))
  {
    hide Sorted, Matches, Agrees;
    var v, v' := SeenOf(was), SeenOf(Struck(was, hits, |published|, message));
    PublishAgrees(v, v', published, log, nv, topic, message);
  }

  // ---- Closing ----

  /** `a` is out of the sets at `done`; nodes that nobody else subscribes to may be gone. */
  ghost predicate Leaving(was: map<Path, Spot>, now: map<Path, Spot>, a: nat, done: set<Path>) {
    && (forall p :: p in now ==>
          && p in was && Sorted(was[p].subs)
          && now[p] == if p in done then was[p].(subs := EraseAddr(was[p].subs, a)) else was[p])
    && (forall p :: p in was && p !in now ==> AddrSet(was[p].subs) <= {a} && (a in was[p].subs ==> p in done))
  }

  lemma LeavingStep(was: map<Path, Spot>, now: map<Path, Spot>, mid: map<Path, Spot>, next: map<Path, Spot>, a: nat,
                    done: set<Path>, q: Path)
    requires Leaving(was, now, a, done) && q in now && q !in done
    requires mid == Resubbed(now, q, EraseAddr(now[q].subs, a)) && ShrunkTo(mid, next)
    ensures Leaving(was, next, a, done + {q})
  {
    hide Sorted, EraseAddr, AddrSet;
    SortedNothing();
    forall p | p in was && p !in next
      ensures AddrSet(was[p].subs) <= {a} && (a in was[p].subs ==> p in done + {q})
    {
      if p in now {
        assert p in mid && mid[p].subs == [];
        InAddrSet(was[p].subs, a);
        if p in done + {q} {
          EraseAddrIsRight(was[p].subs, a);
        } else {
          assert was[p].subs == [];
        }
      }
    }
  }

  lemma InAddrSet(s: seq<nat>, a: nat)
    ensures a in s <==> a in AddrSet(s)
  {
  }

  /** When it is out of all sets it was in, naive delivery has released it. */
  lemma HasLeft(was: map<Path, Spot>, now: map<Path, Spot>, a: nat, published: seq<Message>, log: seq<Call>, nv: Naive)
    requires Agrees(SeenOf(was), published, log, nv) && a in nv.filters && Leaving(was, now, a, nv.filters[a])
    ensures Agrees(SeenOf(now), published, log, Release(nv, a))
  {
    hide Sorted, EraseAddr, Agrees;
    AgreesMatches(was, published, log, nv);
    forall p | p in now
      ensures AddrSet(now[p].subs) == AddrSet(was[p].subs) - {a} && now[p].messages == was[p].messages
    {
      EraseAddrIsRight(was[p].subs, a);
    }
    AgreesMatched(SeenOf(was), published, log, nv);
    LeaveAgrees(SeenOf(was), SeenOf(now), published, log, nv, a);
  }

  lemma AgreesMatched(v: View, published: seq<Message>, log: seq<Call>, nv: Naive)
    requires Agrees(v, published, log, nv)
    ensures Matched(v)
  {
  }

  lemma LeavingNothing(snap: map<Path, Spot>, a: nat, list: seq<Topic?>, published: seq<Message>)
    requires Sound(snap, list, published)
    ensures Leaving(snap, snap, a, {}) && PathSet([]) == {}
  {
    hide Sorted, Genuine;
  }

  // ---- Subscription lists ----

  /** The nodes of one's filters, once each. */
  ghost predicate Owns(nodes: map<Path, Topic>, list: seq<Topic>, filters: set<Path>) {
    && [] !in filters
    && (forall t :: t in list ==> t.path in filters && t.path in nodes && nodes[t.path] == t)
    && (forall p :: p in filters ==> p in nodes && nodes[p].path == p && nodes[p] in list)
    && NoRepeats(list)
  }

  /** The subscription lists are the inverse of the subscriber sets. */
  ghost predicate Inverse(nodes: map<Path, Topic>, lists: map<nat, seq<Topic>>, filters: map<nat, set<Path>>) {
    lists.Keys == filters.Keys && forall a :: a in lists ==> Owns(nodes, lists[a], filters[a])
  }

  lemma EnteredInverse(nodes: map<Path, Topic>, lists: map<nat, seq<Topic>>, lists': map<nat, seq<Topic>>, nv: Naive,
                       a: nat, at: Topic)
    requires Inverse(nodes, lists, nv.filters) && a in lists && at.path in nodes && nodes[at.path] == at
             && at.path != []
    requires lists' == if at.path in nv.filters[a] then lists else lists[a := lists[a] + [at]]
    ensures Inverse(nodes, lists', AddFilter(nv, a, at.path).filters)
  {
  }

  lemma LeftInverse(nodes: map<Path, Topic>, lists: map<nat, seq<Topic>>, nv: Naive, a: nat, i: nat)
    requires Inverse(nodes, lists, nv.filters) && a in lists && i < |lists[a]|
    ensures Inverse(nodes, lists[a := lists[a][..i] + lists[a][i + 1..]],
                  DropFilters(nv, a, {lists[a][i].path}).filters)
  {
    var list, rest := lists[a], lists[a][..i] + lists[a][i + 1..];
    var filters, filters' := nv.filters[a], nv.filters[a] - {lists[a][i].path};
    forall t | t in rest ensures t.path in filters' && t.path in nodes && nodes[t.path] == t {
      assert t in list && list[i] in list;
    }
    forall p | p in filters' ensures p in nodes && nodes[p].path == p && nodes[p] in rest {
      var k :| 0 <= k < |list| && list[k] == nodes[p];
      assert k != i;
      assert rest[if k < i then k else k - 1] == nodes[p];
    }
    assert Owns(nodes, rest, filters');
  }

  ghost function PathSet(list: seq<Topic>): (paths: set<Path>) {
    set t | t in list :: t.path
  }

  lemma PathSetSnoc(list: seq<Topic>, k: nat)
    requires k < |list|
    ensures PathSet(list[..k + 1]) == PathSet(list[..k]) + {list[k].path}
    ensures PathSet(list[..0]) == {}
  {
    assert list[..k + 1] == list[..k] + [list[k]];
  }

  lemma OwnedPaths(nodes: map<Path, Topic>, lists: map<nat, seq<Topic>>, filters: map<nat, set<Path>>, a: nat)
    requires Inverse(nodes, lists, filters) && a in lists
    ensures PathSet(lists[a]) == filters[a]
  {
    forall p | p in filters[a] ensures p in PathSet(lists[a]) {
      assert nodes[p] in lists[a] && nodes[p].path == p;
    }
  }

  lemma DropNothing(nv: Naive, a: nat)
    requires a in nv.filters
    ensures DropFilters(nv, a, {}) == nv && PathSet([]) == {}
  {
    assert nv.filters[a] - {} == nv.filters[a];
    assert nv.filters[a := nv.filters[a]] == nv.filters;
  }

  lemma DropMore(nv: Naive, a: nat, done: set<Path>, p: Path)
    requires a in nv.filters
    ensures DropFilters(DropFilters(nv, a, done), a, {p}) == DropFilters(nv, a, done + {p})
  {
    assert nv.filters[a] - done - {p} == nv.filters[a] - (done + {p});
  }

  lemma OwnedSet(nodes: map<Path, Topic>, list: seq<Topic>, filters: set<Path>)
    requires Owns(nodes, list, filters)
    ensures PathSet(list) == filters && list[..0] == []
  {
    forall p | p in filters ensures p in PathSet(list) {
      assert nodes[p] in list && nodes[p].path == p;
    }
  }

  lemma NextToLeave(ns: map<Path, Topic>, was: map<Path, Spot>, list: seq<Topic>, filters: map<nat, set<Path>>,
                    a: nat, k: nat)
    requires was.Keys == ns.Keys && forall p :: p in ns ==> was[p].node == ns[p]
    requires Matching(was, filters) && a in filters && Owns(ns, list, filters[a]) && k < |list|
    ensures var t := list[k];
            t.path in was && was[t.path].node == t && a in was[t.path].subs && t.path != []
            && t.path !in PathSet(list[..k])
  {
    var t := list[k];
    assert t in list;
  }

  lemma InverseOwns(nodes: map<Path, Topic>, lists: map<nat, seq<Topic>>, filters: map<nat, set<Path>>, a: nat)
    requires Inverse(nodes, lists, filters) && a in lists
    ensures a in filters && Owns(nodes, lists[a], filters[a])
  {
  }

  lemma ClosedInverse(ns: map<Path, Topic>, nodes: map<Path, Topic>, lists: map<nat, seq<Topic>>, nv: Naive, a: nat)
    requires Inverse(ns, lists, nv.filters) && forall p :: p in nodes ==> p in ns && nodes[p] == ns[p]
    requires forall b, p :: b in Release(nv, a).filters && p in Release(nv, a).filters[b] ==> p in nodes
    ensures Inverse(nodes, lists - {a}, Release(nv, a).filters)
  {
  }

  lemma InverseGrown(was: map<Path, Topic>, now: map<Path, Topic>, lists: map<nat, seq<Topic>>, filters: map<nat,
                     set<Path>>)
    requires Inverse(was, lists, filters) && forall p :: p in was ==> p in now && now[p] == was[p]
    ensures Inverse(now, lists, filters)
  {
  }

  /** The lists stay right while the nodes they name stay. */
  lemma InverseKept(was: map<Path, Topic>, now: map<Path, Topic>, lists: map<nat, seq<Topic>>, filters: map<nat,
                    set<Path>>)
    requires Inverse(was, lists, filters) && forall p :: p in was && p in now ==> now[p] == was[p]
    requires forall a, p :: a in filters && p in filters[a] ==> p in now
    ensures Inverse(now, lists, filters)
  {
  }

  // ---- Clearing ----

  /** Messages and marks of nodes, after those of `list` that are not in `keep` have been cleared. */
  ghost function Cleared(c: map<Topic, (map<nat, Message>, bool)>, list: seq<Topic?>, keep: set<Topic?>)
    : (r: map<Topic, (map<nat, Message>, bool)>)
  {
    map t | t in c :: if t in list && t !in keep then (map[], false) else c[t]
  }

  lemma ClearedNothing(c: map<Topic, (map<nat, Message>, bool)>, keep: set<Topic?>)
    ensures Cleared(c, [], keep) == c
  {
  }

  lemma ClearedSnoc(c: map<Topic, (map<nat, Message>, bool)>, list: seq<Topic?>, t: Topic, keep: set<Topic?>)
    requires t in c
    ensures Cleared(c, list + [t], keep)
            == if t in keep then Cleared(c, list, keep) else Cleared(c, list, keep)[t := (map[], false)]
  {
    forall u | u in c ensures u in list + [t] <==> u in list || u == t {
    }
  }

  // ---- Hits and marks ----

  /** The nodes a topic reaches from node `q` on. */
  ghost function Hits(keys: set<Path>, q: Path, rest: Path): (h: set<Path>)
    ensures h <= keys
  {
    set p | p in keys && Under(p, q, rest)
  }

  /** Pending messages after storing message `id` at the nodes `hits`. */
  ghost function Marked(m: map<Path, map<nat, Message>>, hits: set<Path>, id: nat, message: Message)
    : (r: map<Path, map<nat, Message>>)
    ensures r.Keys == m.Keys
  {
    map p | p in m :: if p in hits then m[p][id := message] else m[p]
  }

  lemma MarkNothing(m: map<Path, map<nat, Message>>, id: nat, message: Message)
    ensures Marked(m, {}, id, message) == m
  {
  }

  lemma MarkTwice(m: map<Path, map<nat, Message>>, a: set<Path>, b: set<Path>, id: nat, message: Message)
    ensures Marked(Marked(m, a, id, message), b, id, message) == Marked(m, a + b, id, message)
  {
    forall p | p in m ensures Marked(Marked(m, a, id, message), b, id, message)[p] == Marked(m, a + b, id, message)[p] {
    }
  }

  lemma HitsNothing(keys: set<Path>, q: Path)
    requires q in keys
    ensures Hits(keys, q, []) == {q}
  {
    forall p | p in keys ensures p in Hits(keys, q, []) <==> p == q {
      UnderNothing(p, q);
    }
  }

  lemma HitsStep(keys: set<Path>, q: Path, rest: Path)
    requires rest != []
    ensures Hits(keys, q, rest) == (if q + [HASH] in keys then {q + [HASH]} else {})
                                   + Hits(keys, q + [PLUS], rest[1..]) + Hits(keys, q + [rest[0]], rest[1..])
  {
    hide Under;
    forall p | p in keys
      ensures p in Hits(keys, q, rest) <==>
              p == q + [HASH] || p in Hits(keys, q + [PLUS], rest[1..]) || p in Hits(keys, q + [rest[0]], rest[1..])
    {
      UnderStep(p, q, rest);
    }
  }
}
