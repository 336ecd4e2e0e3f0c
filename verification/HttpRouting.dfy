/** The route tree and the flat table it stands for. */
module HttpRouting {
  import opened TopicMatch

  const MAX_URL_SEGMENTS: nat := 100
  const HANDLER_IDS: nat := 0x1000_0000

  // ---- URLs ----

  /** The segments of a URL, each after its slash. */
  function Split(url: string): (segs: seq<string>)
    decreases |url|
  {
    if url == "" then []
    else
      var rest := url[1..];
      var n := Find(rest, '/', 0);
      if n == -1 then [rest] else [rest[..n]] + Split(rest[n..])
  }

  /** The segments the router looks at. */
  function Segments100(url: string): (segs: seq<string>)
    ensures |segs| <= MAX_URL_SEGMENTS
  {
    var segs := Split(url);
    if |segs| <= MAX_URL_SEGMENTS then segs else segs[..MAX_URL_SEGMENTS]
  }

  // ---- The tree ----

  datatype Node = Node(name: string, children: seq<Node>, handlers: seq<nat>, isHighPriority: bool)

  predicate IsWildcard(name: string) { name != "" && name[0] == '*' }

  predicate IsParameter(name: string) { name != "" && name[0] == ':' }

  /** A call of a handler, with the parameters it can read. */
  datatype Call = Call(handler: nat, params: seq<string>)

  /** The calls of the handlers of one node. */
  function Calls(handlers: seq<nat>, params: seq<string>): (c: seq<Call>) {
    if handlers == [] then [] else [Call(handlers[0] % HANDLER_IDS, params)] + Calls(handlers[1..], params)
  }

  /** All calls the search through the tree would make, if every handler declined. */
  function Candidates(node: Node, segs: seq<string>, params: seq<string>): (c: seq<Call>)
    decreases |segs|, 1, 0
  {
    if segs == [] then Calls(node.handlers, params) else CandidatesIn(node.children, segs, params)
  }

  function CandidatesIn(ns: seq<Node>, segs: seq<string>, params: seq<string>): (c: seq<Call>)
    requires segs != []
    decreases |segs|, 0, |ns|
  {
    if ns == [] then [] else Offer(ns[0], segs, params) + CandidatesIn(ns[1..], segs, params)
  }

  function Offer(p: Node, segs: seq<string>, params: seq<string>): (c: seq<Call>)
    requires segs != []
    decreases |segs|, 0, 0
  {
    if IsWildcard(p.name) then Calls(p.handlers, params)
    else if IsParameter(p.name) && segs[0] != "" then Candidates(p, segs[1..], params + [segs[0]])
    else if p.name == segs[0] then Candidates(p, segs[1..], params)
    else []
  }

  // ---- The table ----

  /** A step of a path: the name of a child and its priority. */
  datatype Hop = Hop(name: string, high: bool)

  function HopTo(n: Node): Hop { Hop(n.name, n.isHighPriority) }

  function Names(path: seq<Hop>): (names: seq<string>)
    ensures |names| == |path|
  {
    if path == [] then [] else [path[0].name] + Names(path[1..])
  }

  lemma NamesCons(first: Hop, rest: seq<Hop>)
    ensures Names([first] + rest) == [first.name] + Names(rest)
  {
    assert ([first] + rest)[1..] == rest;
  }

  datatype Entry = Entry(path: seq<Hop>, value: nat)

  function HandlerEntries(handlers: seq<nat>): (t: seq<Entry>)
    ensures |t| == |handlers| && forall i :: 0 <= i < |t| ==> t[i] == Entry([], handlers[i])
  {
    if handlers == [] then [] else [Entry([], handlers[0])] + HandlerEntries(handlers[1..])
  }

  function Below(hop: Hop, t: seq<Entry>): (r: seq<Entry>)
    ensures |r| == |t| && forall i :: 0 <= i < |t| ==> r[i] == Entry([hop] + t[i].path, t[i].value)
  {
    if t == [] then [] else [Entry([hop] + t[0].path, t[0].value)] + Below(hop, t[1..])
  }

  /** Every pattern in the tree with its handler, in order of precedence. */
  function Table(node: Node): (t: seq<Entry>) {
    HandlerEntries(node.handlers) + TableOf(node.children)
  }

  function TableOf(ns: seq<Node>): (t: seq<Entry>) {
    if ns == [] then [] else Below(HopTo(ns[0]), Table(ns[0])) + TableOf(ns[1..])
  }

  /**
   What a pattern matches: a wildcard, in the last place only, takes one segment or more, a parameter exactly one
   that is not empty, and any other name itself.
   */
  predicate PatternMatches(pattern: seq<string>, segs: seq<string>)
    decreases |pattern|
  {
    if pattern == [] || segs == [] then pattern == [] && segs == []
    else if IsWildcard(pattern[0]) then |pattern| == 1
    else
      && (if IsParameter(pattern[0]) && segs[0] != "" then true else pattern[0] == segs[0])
      && PatternMatches(pattern[1..], segs[1..])
  }

  /** The segments that stand where the pattern has parameters. */
  function Captured(pattern: seq<string>, segs: seq<string>): (params: seq<string>)
    decreases |pattern|
  {
    if pattern == [] || segs == [] || IsWildcard(pattern[0]) then []
    else (if IsParameter(pattern[0]) && segs[0] != "" then [segs[0]] else []) + Captured(pattern[1..], segs[1..])
  }

  /** The call a single entry leads to, if any. */
  function ServeOne(e: Entry, segs: seq<string>, params: seq<string>): (c: seq<Call>) {
    if PatternMatches(Names(e.path), segs) then
      [Call(e.value % HANDLER_IDS, params + Captured(Names(e.path), segs))]
    else []
  }

  /** The calls a flat table leads to: its matching entries, from top to bottom. */
  function Serve(t: seq<Entry>, segs: seq<string>, params: seq<string>): (c: seq<Call>) {
    if t == [] then [] else ServeOne(t[0], segs, params) + Serve(t[1..], segs, params)
  }

  lemma {:induction false} ServeConcat(a: seq<Entry>, b: seq<Entry>, segs: seq<string>, params: seq<string>)
    ensures Serve(a + b, segs, params) == Serve(a, segs, params) + Serve(b, segs, params)
  {
    hide ServeOne;
    if a == [] {
      assert a + b == b;
    } else {
      assert (a + b)[1..] == a[1..] + b;
      ServeConcat(a[1..], b, segs, params);
      var one, rest := ServeOne(a[0], segs, params), Serve(a[1..], segs, params);
      assert one + (rest + Serve(b, segs, params)) == one + rest + Serve(b, segs, params);
    }
  }

  lemma {:induction false} ServeHandlers(handlers: seq<nat>, segs: seq<string>, params: seq<string>)
    ensures Serve(HandlerEntries(handlers), segs, params) == if segs == [] then Calls(handlers, params) else []
  {
    if handlers != [] {
      assert HandlerEntries(handlers)[1..] == HandlerEntries(handlers[1..]);
      ServeHandlers(handlers[1..], segs, params);
      assert params + [] == params;
    }
  }

  /** What lies below a node of a name, depending on what the name does with the first segment. */
  lemma {:induction false} ServeBelow(hop: Hop, t: seq<Entry>, segs: seq<string>, params: seq<string>)
    ensures Serve(Below(hop, t), segs, params)
         == if segs == [] then []
            else if IsWildcard(hop.name) then ServeEnds(t, params)
            else if IsParameter(hop.name) && segs[0] != "" then Serve(t, segs[1..], params + [segs[0]])
            else if hop.name == segs[0] then Serve(t, segs[1..], params)
            else []
  {
    hide IsWildcard, IsParameter, PatternMatches, Captured;
    if t != [] {
      assert Below(hop, t)[1..] == Below(hop, t[1..]);
      ServeBelow(hop, t[1..], segs, params);
      NamesCons(hop, t[0].path);
      BelowOne(hop.name, Names(t[0].path), segs, params);
      assert params + [] == params;
    }
  }

  lemma BelowOne(name: string, path: seq<string>, segs: seq<string>, params: seq<string>)
    ensures var p := [name] + path;
            && (segs == [] ==> !PatternMatches(p, segs))
            && (segs != [] && IsWildcard(name) ==> (PatternMatches(p, segs) <==> path == []) && Captured(p, segs) == [])
            && (segs != [] && !IsWildcard(name) && IsParameter(name) && segs[0] != "" ==>
                  && (PatternMatches(p, segs) <==> PatternMatches(path, segs[1..]))
                  && params + Captured(p, segs) == params + [segs[0]] + Captured(path, segs[1..]))
            && (segs != [] && !IsWildcard(name) && !(IsParameter(name) && segs[0] != "") ==>
                  && (PatternMatches(p, segs) <==> name == segs[0] && PatternMatches(path, segs[1..]))
                  && Captured(p, segs) == Captured(path, segs[1..]))
  {
    hide IsWildcard, IsParameter;
    var p := [name] + path;
    assert p[1..] == path && p[0] == name;
    if segs != [] {
      assert params + ([segs[0]] + Captured(path, segs[1..])) == params + [segs[0]] + Captured(path, segs[1..]);
      assert [] + Captured(path, segs[1..]) == Captured(path, segs[1..]);
    }
  }

  /** The calls of the entries that end here. */
  function ServeEnds(t: seq<Entry>, params: seq<string>): (c: seq<Call>) {
    if t == [] then []
    else (if t[0].path == [] then [Call(t[0].value % HANDLER_IDS, params)] else []) + ServeEnds(t[1..], params)
  }

  lemma {:induction false} ServeEndsConcat(a: seq<Entry>, b: seq<Entry>, params: seq<string>)
    ensures ServeEnds(a + b, params) == ServeEnds(a, params) + ServeEnds(b, params)
  {
    if a == [] {
      assert a + b == b;
    } else {
      assert (a + b)[1..] == a[1..] + b;
      ServeEndsConcat(a[1..], b, params);
    }
  }

  lemma {:induction false} EndsOfHandlers(handlers: seq<nat>, params: seq<string>)
    ensures ServeEnds(HandlerEntries(handlers), params) == Calls(handlers, params)
  {
    if handlers != [] {
      assert HandlerEntries(handlers)[1..] == HandlerEntries(handlers[1..]);
      EndsOfHandlers(handlers[1..], params);
    }
  }

  lemma {:induction false} NoEndsBelow(t: seq<Entry>, params: seq<string>)
    requires forall i :: 0 <= i < |t| ==> t[i].path != []
    ensures ServeEnds(t, params) == []
  {
    if t != [] {
      NoEndsBelow(t[1..], params);
    }
  }

  lemma {:induction false} TableOfIsBelow(ns: seq<Node>)
    ensures forall i :: 0 <= i < |TableOf(ns)| ==> TableOf(ns)[i].path != []
  {
    hide Table;
    if ns != [] {
      TableOfIsBelow(ns[1..]);
    }
  }

  /** The search through the tree makes exactly the calls of the flat table, in the order of the table. */
  lemma {:induction false} TreeIsTable(node: Node, segs: seq<string>, params: seq<string>)
    ensures Candidates(node, segs, params) == Serve(Table(node), segs, params)
    decreases |segs|, 1, 0
  {
    hide HandlerEntries, Calls, Offer;
    ServeConcat(HandlerEntries(node.handlers), TableOf(node.children), segs, params);
    ServeHandlers(node.handlers, segs, params);
    if segs == [] {
      NothingBelow(node.children, params);
    } else {
      ChildrenAreTable(node.children, segs, params);
    }
  }

  lemma {:induction false} NothingBelow(ns: seq<Node>, params: seq<string>)
    ensures Serve(TableOf(ns), [], params) == []
  {
    hide Table;
    if ns != [] {
      ServeConcat(Below(HopTo(ns[0]), Table(ns[0])), TableOf(ns[1..]), [], params);
      ServeBelow(HopTo(ns[0]), Table(ns[0]), [], params);
      NothingBelow(ns[1..], params);
    }
  }

  lemma {:induction false} ChildrenAreTable(ns: seq<Node>, segs: seq<string>, params: seq<string>)
    requires segs != []
    ensures CandidatesIn(ns, segs, params) == Serve(TableOf(ns), segs, params)
    decreases |segs|, 0, |ns|
  {
    hide Table, Offer;
    if ns != [] {
      ServeConcat(Below(HopTo(ns[0]), Table(ns[0])), TableOf(ns[1..]), segs, params);
      OfferIsTable(ns[0], segs, params);
      ChildrenAreTable(ns[1..], segs, params);
    }
  }

  lemma OfferIsTable(p: Node, segs: seq<string>, params: seq<string>)
    requires segs != []
    ensures Offer(p, segs, params) == Serve(Below(HopTo(p), Table(p)), segs, params)
    decreases |segs|, 0, 0
  {
    hide Candidates, Calls, IsWildcard, IsParameter, Serve, TableOf, ServeEnds;
    ServeBelow(HopTo(p), Table(p), segs, params);
    if IsWildcard(p.name) {
      ServeEndsConcat(HandlerEntries(p.handlers), TableOf(p.children), params);
      EndsOfHandlers(p.handlers, params);
      TableOfIsBelow(p.children);
      NoEndsBelow(TableOf(p.children), params);
    } else {
      TreeIsTable(p, segs[1..], params + [segs[0]]);
      TreeIsTable(p, segs[1..], params);
    }
  }

  // ---- Adding to the tree ----

  /** std::string's order. */
  predicate Less(a: string, b: string) {
    if b == "" then false
    else if a == "" then true
    else if a[0] != b[0] then a[0] < b[0]
    else Less(a[1..], b[1..])
  }

  /** The comparison that getNode inserts by: may `a` stand before `b`? */
  predicate Before(a: Node, b: Node, atRoot: bool) {
    if a.isHighPriority != b.isHighPriority then a.isHighPriority
    else b.name != "" && !atRoot && Less(b.name, a.name)
  }

  /** std::upper_bound: halving, whether or not the children are in order. */
  function Place(ns: seq<Node>, node: Node, atRoot: bool, first: nat, len: nat): (k: nat)
    requires first + len <= |ns|
    decreases len
  {
    if len == 0 then first
    else
      var half := len / 2;
      if Before(node, ns[first + half], atRoot) then Place(ns, node, atRoot, first, half)
      else Place(ns, node, atRoot, first + half + 1, len - half - 1)
  }

  /** Where upper_bound ends up: not behind anything `node` may stand before, not before anything else. */
  predicate Fits(ns: seq<Node>, node: Node, atRoot: bool, first: nat, len: nat, k: nat)
    requires first + len <= |ns|
  {
    && first <= k <= first + len
    && (k > first ==> !Before(node, ns[k - 1], atRoot))
    && (k < first + len ==> Before(node, ns[k], atRoot))
  }

  lemma {:induction false} PlaceFits(ns: seq<Node>, node: Node, atRoot: bool, first: nat, len: nat)
    requires first + len <= |ns|
    ensures Fits(ns, node, atRoot, first, len, Place(ns, node, atRoot, first, len))
    decreases len
  {
    hide Before, Place;
    PlaceStep(ns, node, atRoot, first, len);
    if len > 0 {
      var half := len / 2;
      if Before(node, ns[first + half], atRoot) {
        PlaceFits(ns, node, atRoot, first, half);
      } else {
        PlaceFits(ns, node, atRoot, first + half + 1, len - half - 1);
      }
    }
  }

  lemma PlaceStep(ns: seq<Node>, node: Node, atRoot: bool, first: nat, len: nat)
    requires first + len <= |ns|
    ensures len == 0 ==> Place(ns, node, atRoot, first, len) == first
    ensures len > 0 && Before(node, ns[first + len / 2], atRoot) ==>
              Place(ns, node, atRoot, first, len) == Place(ns, node, atRoot, first, len / 2)
    ensures len > 0 && !Before(node, ns[first + len / 2], atRoot) ==>
              Place(ns, node, atRoot, first, len) == Place(ns, node, atRoot, first + len / 2 + 1, len - len / 2 - 1)
  {
    hide Before;
  }

  /** The first child of a name and priority, or -1. */
  function FindChild(ns: seq<Node>, name: string, high: bool): (i: int)
    ensures i == -1 || (0 <= i < |ns| && ns[i].name == name && ns[i].isHighPriority == high)
    ensures i == -1 ==> forall j :: 0 <= j < |ns| ==> !(ns[j].name == name && ns[j].isHighPriority == high)
  {
    if ns == [] then -1
    else if ns[0].name == name && ns[0].isHighPriority == high then 0
    else
      var i := FindChild(ns[1..], name, high);
      if i == -1 then -1 else i + 1
  }

  function UpperBound(s: seq<nat>, v: nat): (k: nat)
    ensures k <= |s|
  {
    if s == [] || v < s[0] then 0 else 1 + UpperBound(s[1..], v)
  }

  function InsertHandler(s: seq<nat>, v: nat): (r: seq<nat>) {
    s[..UpperBound(s, v)] + [v] + s[UpperBound(s, v)..]
  }

  function AddPath(node: Node, atRoot: bool, path: seq<Hop>, value: nat): (r: Node)
    ensures r.name == node.name && r.isHighPriority == node.isHighPriority
    decreases |path|
  {
    if path == [] then node.(handlers := InsertHandler(node.handlers, value))
    else
      var ns := node.children;
      var i := FindChild(ns, path[0].name, path[0].high);
      if i != -1 then node.(children := ns[i := AddPath(ns[i], false, path[1..], value)])
      else
        var leaf := Node(path[0].name, [], [], path[0].high);
        var k := Place(ns, leaf, atRoot, 0, |ns|);
        PlaceFits(ns, leaf, atRoot, 0, |ns|);
        node.(children := ns[..k] + [AddPath(leaf, false, path[1..], value)] + ns[k..])
  }

  // ---- What adding does to the table ----

  /** `t'` is `t` with one entry put in somewhere. */
  ghost predicate OneMore(t: seq<Entry>, t': seq<Entry>, e: Entry) {
    exists k: nat :: k <= |t| && t' == t[..k] + [e] + t[k..]
  }

  lemma OneMoreBetween(a: seq<Entry>, t: seq<Entry>, t': seq<Entry>, b: seq<Entry>, e: Entry)
    requires OneMore(t, t', e)
    ensures OneMore(a + t + b, a + t' + b, e)
  {
    var k: nat :| k <= |t| && t' == t[..k] + [e] + t[k..];
    assert (a + t + b)[..|a| + k] == a + t[..k] && (a + t + b)[|a| + k..] == t[k..] + b;
    assert a + t' + b == (a + t + b)[..|a| + k] + [e] + (a + t + b)[|a| + k..];
  }

  lemma {:induction false} BelowConcat(hop: Hop, a: seq<Entry>, b: seq<Entry>)
    ensures Below(hop, a + b) == Below(hop, a) + Below(hop, b)
  {
  }

  lemma OneMoreBelow(hop: Hop, t: seq<Entry>, t': seq<Entry>, e: Entry)
    requires OneMore(t, t', e)
    ensures OneMore(Below(hop, t), Below(hop, t'), Entry([hop] + e.path, e.value))
  {
    hide Below;
    var k: nat :| k <= |t| && t' == t[..k] + [e] + t[k..];
    BelowConcat(hop, t[..k] + [e], t[k..]);
    BelowConcat(hop, t[..k], [e]);
    BelowConcat(hop, t[..k], t[k..]);
    assert t == t[..k] + t[k..];
    assert Below(hop, t)[..k] == Below(hop, t[..k]) && Below(hop, t)[k..] == Below(hop, t[k..]);
    assert Below(hop, [e]) == [Entry([hop] + e.path, e.value)];
  }

  lemma {:induction false} TableConcat(a: seq<Node>, b: seq<Node>)
    ensures TableOf(a + b) == TableOf(a) + TableOf(b)
  {
    hide Table;
    if a == [] {
      assert a + b == b;
    } else {
      assert (a + b)[1..] == a[1..] + b;
      TableConcat(a[1..], b);
    }
  }

  lemma TableOfOne(n: Node)
    ensures TableOf([n]) == Below(HopTo(n), Table(n))
  {
    hide Table, Below;
    assert [n][1..] == [];
  }

  lemma TableAround(a: seq<Node>, n: Node, b: seq<Node>)
    ensures TableOf(a + [n] + b) == TableOf(a) + Below(HopTo(n), Table(n)) + TableOf(b)
  {
    hide Table, Below, TableOf;
    TableConcat(a + [n], b);
    TableConcat(a, [n]);
    TableOfOne(n);
  }

  lemma {:induction false} HandlersConcat(a: seq<nat>, b: seq<nat>)
    ensures HandlerEntries(a + b) == HandlerEntries(a) + HandlerEntries(b)
  {
  }

  lemma HandlerAdded(handlers: seq<nat>, value: nat)
    ensures OneMore(HandlerEntries(handlers), HandlerEntries(InsertHandler(handlers, value)), Entry([], value))
  {
    hide UpperBound, HandlerEntries;
    var k := UpperBound(handlers, value);
    HandlersConcat(handlers[..k] + [value], handlers[k..]);
    HandlersConcat(handlers[..k], [value]);
    HandlersConcat(handlers[..k], handlers[k..]);
    assert handlers == handlers[..k] + handlers[k..];
    assert HandlerEntries([value]) == [Entry([], value)];
    var t := HandlerEntries(handlers);
    assert t[..k] == HandlerEntries(handlers[..k]) && t[k..] == HandlerEntries(handlers[k..]);
  }

  lemma ChildReplaced(ns: seq<Node>, i: nat, child: Node, e: Entry)
    requires i < |ns| && HopTo(child) == HopTo(ns[i]) && OneMore(Table(ns[i]), Table(child), e)
    ensures OneMore(TableOf(ns), TableOf(ns[i := child]), Entry([HopTo(child)] + e.path, e.value))
  {
    hide Table, TableOf, Below, OneMore;
    var a, b := ns[..i], ns[i + 1..];
    OneMoreBelow(HopTo(child), Table(ns[i]), Table(child), e);
    TableAround(a, ns[i], b);
    TableAround(a, child, b);
    assert ns == a + [ns[i]] + b;
    assert ns[i := child] == a + [child] + b;
    OneMoreBetween(TableOf(a), Below(HopTo(child), Table(ns[i])), Below(HopTo(child), Table(child)), TableOf(b),
                   Entry([HopTo(child)] + e.path, e.value));
  }

  lemma ChildInserted(ns: seq<Node>, k: nat, child: Node, e: Entry)
    requires k <= |ns| && Table(child) == [e]
    ensures OneMore(TableOf(ns), TableOf(ns[..k] + [child] + ns[k..]), Entry([HopTo(child)] + e.path, e.value))
  {
    hide Table, TableOf, Below;
    var a, b := ns[..k], ns[k..];
    TableAround(a, child, b);
    TableConcat(a, b);
    assert ns == a + b;
    assert TableOf(ns)[..|TableOf(a)|] == TableOf(a) && TableOf(ns)[|TableOf(a)|..] == TableOf(b);
    assert Below(HopTo(child), [e]) == [Entry([HopTo(child)] + e.path, e.value)];
  }

  /** Adding a pattern puts one entry into the table; the order of the others stays. */
  lemma {:induction false} AddPathAdds(node: Node, atRoot: bool, path: seq<Hop>, value: nat)
    ensures OneMore(Table(node), Table(AddPath(node, atRoot, path, value)), Entry(path, value))
    decreases |path|
  {
    hide Place, FindChild, Below, TableOf, HandlerEntries, InsertHandler, OneMore;
    var ns, hs := node.children, HandlerEntries(node.handlers);
    if path == [] {
      HandlerAdded(node.handlers, value);
      OneMoreBetween([], hs, HandlerEntries(InsertHandler(node.handlers, value)), TableOf(ns), Entry([], value));
      assert [] + hs == hs;
      assert [] + HandlerEntries(InsertHandler(node.handlers, value))
             == HandlerEntries(InsertHandler(node.handlers, value));
    } else {
      var e, hop := Entry(path[1..], value), path[0];
      assert [hop] + path[1..] == path;
      var i := FindChild(ns, hop.name, hop.high);
      var ns' := AddPath(node, atRoot, path, value).children;
      if i != -1 {
        AddPathAdds(ns[i], false, path[1..], value);
        ChildReplaced(ns, i, AddPath(ns[i], false, path[1..], value), e);
      } else {
        var leaf := Node(hop.name, [], [], hop.high);
        PlaceFits(ns, leaf, atRoot, 0, |ns|);
        AddPathAdds(leaf, false, path[1..], value);
        OneMoreThanNone(leaf, AddPath(leaf, false, path[1..], value), e);
        ChildInserted(ns, Place(ns, leaf, atRoot, 0, |ns|), AddPath(leaf, false, path[1..], value), e);
      }
      OneMoreBetween(hs, TableOf(ns), TableOf(ns'), [], Entry(path, value));
      assert hs + TableOf(ns) + [] == hs + TableOf(ns) && hs + TableOf(ns') + [] == hs + TableOf(ns');
    }
  }

  lemma OneMoreThanNone(leaf: Node, n: Node, e: Entry)
    requires leaf.children == [] && leaf.handlers == [] && OneMore(Table(leaf), Table(n), e)
    ensures Table(n) == [e]
  {
    assert Table(leaf) == [];
  }

  // ---- Order ----

  predicate HighFirst(ns: seq<Node>) {
    forall i, j :: 0 <= i < j < |ns| && ns[j].isHighPriority ==> ns[i].isHighPriority
  }

  predicate Ascending(s: seq<nat>) {
    forall i, j :: 0 <= i < j < |s| ==> s[i] <= s[j]
  }

  /** In every node children of high priority come first, and handlers by priority and age. */
  predicate Ordered(node: Node) {
    Ascending(node.handlers) && HighFirst(node.children) && AllOrdered(node.children)
  }

  predicate AllOrdered(ns: seq<Node>) {
    forall i :: 0 <= i < |ns| ==> Ordered(ns[i])
  }

  lemma {:induction false} UpperBoundIsUpper(s: seq<nat>, v: nat)
    requires Ascending(s)
    ensures forall i :: 0 <= i < |s| ==> (s[i] <= v <==> i < UpperBound(s, v))
  {
    if s != [] && s[0] <= v {
      UpperBoundIsUpper(s[1..], v);
      forall i | 0 <= i < |s| ensures s[i] <= v <==> i < UpperBound(s, v) {
        if i > 0 {
          assert s[i] == s[1..][i - 1];
        }
      }
    }
  }

  lemma HandlersStayAscending(s: seq<nat>, v: nat)
    requires Ascending(s)
    ensures Ascending(InsertHandler(s, v))
  {
    hide UpperBound;
    UpperBoundIsUpper(s, v);
  }

  lemma ChildReplacedInOrder(ns: seq<Node>, i: nat, child: Node)
    requires i < |ns| && HighFirst(ns) && AllOrdered(ns) && Ordered(child)
             && child.isHighPriority == ns[i].isHighPriority
    ensures HighFirst(ns[i := child]) && AllOrdered(ns[i := child])
  {
    hide Ordered;
  }

  lemma ChildInsertedInOrder(ns: seq<Node>, leaf: Node, atRoot: bool, child: Node)
    requires HighFirst(ns) && AllOrdered(ns) && Ordered(child) && child.isHighPriority == leaf.isHighPriority
    ensures var k := Place(ns, leaf, atRoot, 0, |ns|);
            k <= |ns| && HighFirst(ns[..k] + [child] + ns[k..]) && AllOrdered(ns[..k] + [child] + ns[k..])
  {
    hide Ordered, Place, Less;
    PlaceFits(ns, leaf, atRoot, 0, |ns|);
  }

  /** Adding a pattern keeps the order of priorities, even where names are not comparable. */
  lemma {:induction false} AddPathKeepsOrder(node: Node, atRoot: bool, path: seq<Hop>, value: nat)
    requires Ordered(node)
    ensures Ordered(AddPath(node, atRoot, path, value))
    decreases |path|
  {
    hide Place, InsertHandler, FindChild, HighFirst, AllOrdered;
    var ns := node.children;
    if path == [] {
      HandlersStayAscending(node.handlers, value);
    } else {
      var i := FindChild(ns, path[0].name, path[0].high);
      if i != -1 {
        OneIsOrdered(ns, i);
        AddPathKeepsOrder(ns[i], false, path[1..], value);
        ChildReplacedInOrder(ns, i, AddPath(ns[i], false, path[1..], value));
      } else {
        var leaf := Node(path[0].name, [], [], path[0].high);
        LeafIsOrdered(leaf);
        AddPathKeepsOrder(leaf, false, path[1..], value);
        ChildInsertedInOrder(ns, leaf, atRoot, AddPath(leaf, false, path[1..], value));
      }
    }
  }

  lemma OneIsOrdered(ns: seq<Node>, i: nat)
    requires AllOrdered(ns) && i < |ns|
    ensures Ordered(ns[i])
  {
  }

  lemma LeafIsOrdered(n: Node)
    requires n.children == [] && n.handlers == []
    ensures Ordered(n)
  {
  }
}
