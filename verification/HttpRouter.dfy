/** The router: a lazily split URL, a stack of parameters, and the search through the tree. */
module HttpRouters {
  import opened TopicMatch
  import opened HttpRouting
  import opened HttpOrder

  /** Calls one handler after the other until one accepts; a handler may decide by all that has been called so far. */
  function CallUntil(accepts: seq<Call> -> bool, calls: seq<Call>, log: seq<Call>): (r: (seq<Call>, bool))
    decreases |calls|
  {
    if calls == [] then (log, false)
    else
      var log' := log + [calls[0]];
      if accepts(log') then (log', true) else CallUntil(accepts, calls[1..], log')
  }

  lemma {:induction false} CallUntilConcat(accepts: seq<Call> -> bool, a: seq<Call>, b: seq<Call>, log: seq<Call>)
    ensures var r := CallUntil(accepts, a, log);
            CallUntil(accepts, a + b, log) == if r.1 then r else CallUntil(accepts, b, r.0)
    decreases |a|
  {
    if a == [] {
      assert a + b == b;
    } else {
      assert (a + b)[1..] == a[1..] + b && (a + b)[0] == a[0];
      CallUntilConcat(accepts, a[1..], b, log + [a[0]]);
    }
  }

  /** Of the calls a prefix is made; if none is accepted, all of them, and otherwise exactly the last one is. */
  lemma {:induction false} CallUntilMeans(accepts: seq<Call> -> bool, calls: seq<Call>, log: seq<Call>) returns (n: nat)
    ensures n <= |calls| && CallUntil(accepts, calls, log) == (log + calls[..n], n > 0 && accepts(log + calls[..n]))
    ensures forall k :: 0 < k < n ==> !accepts(log + calls[..k])
    ensures n < |calls| ==> n > 0 && accepts(log + calls[..n])
    decreases |calls|
  {
    if calls == [] {
      n := 0;
      assert log + calls[..0] == log;
    } else if accepts(log + [calls[0]]) {
      n := 1;
      assert calls[..1] == [calls[0]];
    } else {
      var m := CallUntilMeans(accepts, calls[1..], log + [calls[0]]);
      n := m + 1;
      forall k | 0 <= k <= m ensures log + [calls[0]] + calls[1..][..k] == log + calls[..k + 1] {
        assert calls[..k + 1] == [calls[0]] + calls[1..][..k];
      }
      forall k | 0 < k < n ensures !accepts(log + calls[..k]) {
        assert log + [calls[0]] + calls[1..][..k - 1] == log + calls[..k];
        if k == 1 {
          assert log + calls[..1] == log + [calls[0]];
        }
      }
      if m == 0 {
        assert log + calls[..1] == log + [calls[0]];
      }
    }
  }

  // ---- Methods ----

  /** The entries of one method, below it. */
  function ForMethod(t: seq<Entry>, name: string): (r: seq<Entry>) {
    if t == [] then []
    else
      (if t[0].path != [] && t[0].path[0].name == name then [Entry(t[0].path[1..], t[0].value)] else [])
      + ForMethod(t[1..], name)
  }

  lemma {:induction false} ForMethodConcat(a: seq<Entry>, b: seq<Entry>, name: string)
    ensures ForMethod(a + b, name) == ForMethod(a, name) + ForMethod(b, name)
  {
    if a == [] {
      assert a + b == b;
    } else {
      assert (a + b)[1..] == a[1..] + b;
      ForMethodConcat(a[1..], b, name);
    }
  }

  lemma {:induction false} ForMethodBelow(t: seq<Entry>, below: Hop, name: string)
    ensures ForMethod(Below(below, t), name) == if below.name == name then t else []
  {
    if t != [] {
      assert Below(below, t)[1..] == Below(below, t[1..]);
      assert Below(below, t)[0].path[1..] == t[0].path;
      ForMethodBelow(t[1..], below, name);
      assert t == [t[0]] + t[1..];
    }
  }

  predicate RootNames(ns: seq<Node>) {
    && (forall i, j :: 0 <= i < j < |ns| ==> ns[i].name != ns[j].name)
    && (forall i :: 0 <= i < |ns| ==> !ns[i].isHighPriority)
  }

  lemma {:induction false} NoMethod(ns: seq<Node>, name: string)
    requires forall i :: 0 <= i < |ns| ==> ns[i].name != name
    ensures ForMethod(TableOf(ns), name) == []
  {
    hide Table, Below;
    if ns != [] {
      ForMethodConcat(Below(HopTo(ns[0]), Table(ns[0])), TableOf(ns[1..]), name);
      ForMethodBelow(Table(ns[0]), HopTo(ns[0]), name);
      NoMethod(ns[1..], name);
    }
  }

  lemma {:induction false} TheMethod(ns: seq<Node>, i: nat)
    requires RootNames(ns) && i < |ns|
    ensures ForMethod(TableOf(ns), ns[i].name) == Table(ns[i])
  {
    hide Table, Below, TableOf, ForMethod, RootNames;
    var name := ns[i].name;
    TableOfCons(ns);
    ForMethodConcat(Below(HopTo(ns[0]), Table(ns[0])), TableOf(ns[1..]), name);
    ForMethodBelow(Table(ns[0]), HopTo(ns[0]), name);
    RootNamesTail(ns);
    if i == 0 {
      NoMethod(ns[1..], name);
      assert Table(ns[0]) + [] == Table(ns[0]);
    } else {
      assert ns[1..][i - 1] == ns[i];
      TheMethod(ns[1..], i - 1);
      assert [] + Table(ns[i]) == Table(ns[i]);
    }
  }

  lemma TableOfCons(ns: seq<Node>)
    requires ns != []
    ensures TableOf(ns) == Below(HopTo(ns[0]), Table(ns[0])) + TableOf(ns[1..])
  {
    hide Table, Below;
  }

  lemma RootNamesTail(ns: seq<Node>)
    requires RootNames(ns) && ns != []
    ensures RootNames(ns[1..]) && forall j :: 0 <= j < |ns| - 1 ==> ns[1..][j].name != ns[0].name
  {
  }

  lemma RootNamesKept(root: Node, path: seq<Hop>, value: nat)
    requires RootNames(root.children) && path != [] && !path[0].high
    ensures RootNames(AddPath(root, true, path, value).children)
    ensures AddPath(root, true, path, value).handlers == root.handlers
  {
    hide Place, InsertHandler;
    var ns := root.children;
    var i := FindChild(ns, path[0].name, path[0].high);
    if i == -1 {
      PlaceFits(ns, Node(path[0].name, [], [], false), true, 0, |ns|);
    }
  }

  /** Below each method siblings are in runs. */
  predicate MethodsInRuns(ns: seq<Node>) {
    forall i :: 0 <= i < |ns| ==> Runs(ns[i])
  }

  lemma MethodsStayInRuns(root: Node, path: seq<Hop>, value: nat)
    requires RootNames(root.children) && MethodsInRuns(root.children) && path != [] && !path[0].high
    ensures MethodsInRuns(AddPath(root, true, path, value).children)
  {
    hide Place, InsertHandler, Runs;
    var ns := root.children;
    var i := FindChild(ns, path[0].name, path[0].high);
    if i != -1 {
      AddPathKeepsRuns(ns[i], path[1..], value);
    } else {
      var leaf := Node(path[0].name, [], [], false);
      PlaceFits(ns, leaf, true, 0, |ns|);
      SameRuns(leaf, leaf);
      AddPathKeepsRuns(leaf, path[1..], value);
    }
  }

  /** The steps of a pattern. */
  function Hops(segs: seq<string>, high: bool): (path: seq<Hop>)
    ensures |path| == |segs| && forall i :: 0 <= i < |segs| ==> path[i] == Hop(segs[i], high)
  {
    seq(|segs|, i requires 0 <= i < |segs| => Hop(segs[i], high))
  }

  /** `t'` is `t` with an entry put in for each of the methods. */
  ghost predicate Grown(t: seq<Entry>, t': seq<Entry>, names: seq<string>, path: seq<Hop>, value: nat)
    decreases |names|
  {
    if names == [] then t' == t
    else
      var front, e := names[..|names| - 1], Entry([Hop(names[|names| - 1], false)] + path, value);
      exists mid :: Grown(t, mid, front, path, value) && OneMore(mid, t', e)
  }

  // ---- Each handler at most once ----

  function Id(e: Entry): nat { e.value % HANDLER_IDS }

  /** All handlers of a table are older than number `n`. */
  predicate OlderThan(t: seq<Entry>, n: nat) {
    forall i :: 0 <= i < |t| ==> t[i].path != [] && Id(t[i]) < n
  }

  /** No handler stands twice under the same method. */
  predicate Once(t: seq<Entry>) {
    forall i, j :: 0 <= i < j < |t| && t[i].path != [] && t[j].path != [] && t[i].path[0].name == t[j].path[0].name ==>
      Id(t[i]) != Id(t[j])
  }

  predicate Distinct(names: seq<string>) {
    forall i, j :: 0 <= i < j < |names| ==> names[i] != names[j]
  }

  /** Handler number `id` stands under no other methods than these, and none is newer. */
  predicate NewUnder(t: seq<Entry>, id: nat, names: seq<string>) {
    forall i :: 0 <= i < |t| ==>
      t[i].path != [] && Id(t[i]) <= id && (Id(t[i]) == id ==> t[i].path[0].name in names)
  }

  lemma OneMoreUnder(t: seq<Entry>, t': seq<Entry>, e: Entry, names: seq<string>)
    requires OneMore(t, t', e) && e.path != [] && NewUnder(t, Id(e), names)
    ensures NewUnder(t', Id(e), names + [e.path[0].name])
    ensures Once(t) && e.path[0].name !in names ==> Once(t')
  {
    hide Id;
    var k: nat :| k <= |t| && t' == t[..k] + [e] + t[k..];
    assert t'[k] == e;
    forall i | 0 <= i < |t'| && i != k ensures t'[i] == t[if i < k then i else i - 1] {
    }
  }

  /** Adding a new handler under distinct methods leaves each handler at most once under each method. */
  lemma {:induction false} GrownOnce(t: seq<Entry>, t': seq<Entry>, names: seq<string>, path: seq<Hop>, value: nat)
    requires Grown(t, t', names, path, value) && OlderThan(t, value % HANDLER_IDS)
    ensures NewUnder(t', value % HANDLER_IDS, names)
    ensures Once(t) && Distinct(names) ==> Once(t')
    decreases |names|
  {
    hide OneMore, Once;
    if names != [] {
      var n := |names| - 1;
      var e := Entry([Hop(names[n], false)] + path, value);
      var mid :| Grown(t, mid, names[..n], path, value) && OneMore(mid, t', e);
      GrownOnce(t, mid, names[..n], path, value);
      OneMoreUnder(mid, t', e, names[..n]);
      assert names[..n] + [names[n]] == names;
    }
  }

  lemma NewIsOld(t: seq<Entry>, id: nat, names: seq<string>)
    requires NewUnder(t, id, names)
    ensures OlderThan(t, id + 1)
  {
  }

  predicate DistinctIds(t: seq<Entry>) {
    forall i, j :: 0 <= i < j < |t| ==> Id(t[i]) != Id(t[j])
  }

  predicate DistinctCalls(c: seq<Call>) {
    forall i, j :: 0 <= i < j < |c| ==> c[i].handler != c[j].handler
  }

  lemma {:induction false} OnceForMethod(t: seq<Entry>, name: string)
    requires Once(t)
    ensures DistinctIds(ForMethod(t, name))
    ensures forall e :: e in ForMethod(t, name) ==>
              exists i :: 0 <= i < |t| && t[i].path != [] && t[i].path[0].name == name && Id(t[i]) == Id(e)
  {
    if t != [] {
      OnceForMethod(t[1..], name);
      assert forall i :: 0 <= i < |t[1..]| ==> t[1..][i] == t[i + 1];
    }
  }

  lemma {:induction false} DistinctServe(t: seq<Entry>, segs: seq<string>, params: seq<string>)
    requires DistinctIds(t)
    ensures DistinctCalls(Serve(t, segs, params))
    ensures forall c :: c in Serve(t, segs, params) ==> exists i :: 0 <= i < |t| && Id(t[i]) == c.handler
  {
    hide PatternMatches, Captured;
    if t != [] {
      DistinctServe(t[1..], segs, params);
      assert forall i :: 0 <= i < |t[1..]| ==> t[1..][i] == t[i + 1];
    }
  }

  /** Where no handler stands twice under a method, routing calls each handler at most once. */
  lemma CallsOnce(accepts: seq<Call> -> bool, t: seq<Entry>, name: string, segs: seq<string>, log: seq<Call>)
    requires Once(t)
    ensures var r := CallUntil(accepts, Serve(ForMethod(t, name), segs, []), log);
            log <= r.0 && DistinctCalls(r.0[|log|..])
  {
    hide Once, DistinctIds, Serve, ForMethod, CallUntil;
    OnceForMethod(t, name);
    DistinctServe(ForMethod(t, name), segs, []);
    var calls := Serve(ForMethod(t, name), segs, []);
    var n := CallUntilMeans(accepts, calls, log);
    assert (log + calls[..n])[|log|..] == calls[..n];
  }

  datatype Priority = High | Medium | Low

  /** The most significant byte of a handler's 32 bits. */
  function Bits(p: Priority): nat {
    match p
    case High => 0xd000_0000
    case Medium => 0xe000_0000
    case Low => 0xf000_0000
  }

  class HttpRouter {
    var root: Node
    var handlers: nat
    const accepts: seq<Call> -> bool

    /** All calls of handlers. */
    var log: seq<Call>

    var currentUrl: string
    const urlSegmentVector: array<string>
    var urlSegmentTop: int
    ghost var url: string

    const params: array<string>
    var paramsTop: int

    ghost predicate Apart() {
      urlSegmentVector.Length == params.Length == MAX_URL_SEGMENTS && urlSegmentVector != params
    }

    /** As much of the URL as has been split is in the cache, and the rest is what is left of the URL. */
    ghost predicate Cached()
      reads this`currentUrl, this`urlSegmentTop, this`url, urlSegmentVector
    {
      && Apart() && -1 <= urlSegmentTop < MAX_URL_SEGMENTS
      && CacheOf(urlSegmentVector[..], urlSegmentTop + 1, currentUrl, url)
    }

    ghost function Params(): (ps: seq<string>)
      requires -1 <= paramsTop < params.Length
      reads this, params
    {
      params[..paramsTop + 1]
    }

    ghost predicate Valid()
      reads this, urlSegmentVector, params
    {
      Sound() && OlderThan(Table(root), handlers)
    }

    /** This holds while a handler is being added, too. */
    ghost predicate Sound()
      reads this, urlSegmentVector, params
    {
      && Apart() && Cached() && -1 <= paramsTop < MAX_URL_SEGMENTS
      && Ordered(root) && Used(root) && MethodsInRuns(root.children)
      && RootNames(root.children) && root.handlers == []
    }

    constructor (accepts: seq<Call> -> bool)
      ensures Valid() && Table(root) == [] && log == [] && handlers == 0 && this.accepts == accepts
      ensures fresh(urlSegmentVector) && fresh(params)
    {
      this.accepts := accepts;
      root, handlers, log := Node("rootNode", [], [], false), 0, [];
      currentUrl, urlSegmentTop, url, paramsTop := "", -1, "", -1;
      urlSegmentVector := new string[MAX_URL_SEGMENTS](_ => "");
      params := new string[MAX_URL_SEGMENTS](_ => "");
    }

    method SetUrl(url: string)
      requires Apart()
      modifies `currentUrl, `urlSegmentTop, `url
      ensures Cached() && this.url == url && urlSegmentTop == -1
    {
      currentUrl, urlSegmentTop := url, -1;
      this.url := url;
    }

    /** Segment `urlSegment`, split off the URL or out of the cache; or STOP. */
    method GetUrlSegment(urlSegment: nat) returns (segment: string, isStop: bool)
      requires Cached() && urlSegment <= urlSegmentTop + 1
      modifies `currentUrl, urlSegmentVector, `urlSegmentTop
      ensures Cached() && urlSegmentTop >= old(urlSegmentTop)
      ensures isStop <==> urlSegment >= |Segments100(url)|
      ensures !isStop ==> segment == Segments100(url)[urlSegment] && urlSegmentTop >= urlSegment
    {
      hide Find, Split;
      CacheMeans(urlSegmentVector[..], urlSegmentTop + 1, currentUrl, url);
      if urlSegment > urlSegmentTop {
        if |currentUrl| == 0 || urlSegment > 99 {
          return "", true;
        }
        ghost var was := urlSegmentVector[..];
        SplitStep(was, urlSegment, currentUrl, url);
        currentUrl := currentUrl[1..];
        var segmentLength := Find(currentUrl, '/', 0);
        if segmentLength == -1 {
          segmentLength := |currentUrl|;
        }
        urlSegmentVector[urlSegment] := currentUrl[..segmentLength];
        urlSegmentTop := urlSegmentTop + 1;
        assert urlSegmentVector[..] == was[urlSegment := currentUrl[..segmentLength]];
        currentUrl := currentUrl[segmentLength..];
        CacheMeans(urlSegmentVector[..], urlSegmentTop + 1, currentUrl, url);
      }
      return urlSegmentVector[urlSegment], false;
    }

    // ---- The search ----

    /** The handlers of one node, until one accepts. */
    method CallHandlers(hs: seq<nat>) returns (accepted: bool)
      requires -1 <= paramsTop < params.Length
      modifies `log
      ensures (log, accepted) == CallUntil(accepts, Calls(hs, Params()), old(log))
    {
      ghost var ps := Params();
      assert hs[0..] == hs;
      for i := 0 to |hs|
        invariant CallUntil(accepts, Calls(hs, ps), old(log)) == CallUntil(accepts, Calls(hs[i..], ps), log)
      {
        var call := Call(hs[i] % HANDLER_IDS, params[..paramsTop + 1]);
        CallsStep(hs, i, ps);
        log := log + [call];
        if accepts(log) {
          return true;
        }
      }
      assert hs[|hs|..] == [];
      return false;
    }

    /** Searches below `parent`, which has been reached by the segments before `urlSegment`. */
    method ExecuteHandlers(parent: Node, urlSegment: nat) returns (accepted: bool)
      requires Cached() && Apart() && -1 <= paramsTop
      requires urlSegment <= urlSegmentTop + 1 && paramsTop + 1 <= urlSegment && urlSegment <= |Segments100(url)|
      modifies `log, `currentUrl, urlSegmentVector, `urlSegmentTop, params, `paramsTop
      ensures Cached() && urlSegmentTop >= old(urlSegmentTop) && -1 <= paramsTop < MAX_URL_SEGMENTS
      ensures (log, accepted)
              == CallUntil(accepts, Candidates(parent, Segments100(url)[urlSegment..], old(Params())), old(log))
      ensures !accepted ==> paramsTop == old(paramsTop) && Params() == old(Params())
      decreases |Segments100(url)| - urlSegment, 1
    {
      hide Split, Segments100, CallUntil, Offer, Calls, CacheOf;
      ghost var segs, ps, was := Segments100(url), Params(), log;
      var segment, isStop := GetUrlSegment(urlSegment);
      if isStop {
        assert segs[urlSegment..] == [];
        accepted := CallHandlers(parent.handlers);
        return;
      }
      assert segs[urlSegment..] != [];
      assert parent.children[0..] == parent.children;
      for i := 0 to |parent.children|
        invariant Cached() && urlSegmentTop >= old(urlSegmentTop) && urlSegmentTop >= urlSegment
        invariant paramsTop == old(paramsTop) && Params() == ps
        invariant CallUntil(accepts, CandidatesIn(parent.children, segs[urlSegment..], ps), was)
               == CallUntil(accepts, CandidatesIn(parent.children[i..], segs[urlSegment..], ps), log)
      {
        var p := parent.children[i];
        CandidatesStep(parent.children, i, segs[urlSegment..], ps, accepts, log);
        accepted := Try(p, segment, urlSegment);
        if accepted {
          return true;
        }
      }
      assert parent.children[|parent.children|..] == [];
      CallNothing(accepts, segs[urlSegment..], ps, log);
      return false;
    }

    /** Tries one child. */
    method Try(p: Node, segment: string, urlSegment: nat) returns (accepted: bool)
      requires Cached() && Apart() && -1 <= paramsTop
      requires urlSegment <= urlSegmentTop && paramsTop + 1 <= urlSegment < |Segments100(url)|
      requires segment == Segments100(url)[urlSegment]
      modifies `log, `currentUrl, urlSegmentVector, `urlSegmentTop, params, `paramsTop
      ensures Cached() && urlSegmentTop >= old(urlSegmentTop) && -1 <= paramsTop < MAX_URL_SEGMENTS
      ensures (log, accepted) == CallUntil(accepts, Offer(p, Segments100(url)[urlSegment..], old(Params())), old(log))
      ensures !accepted ==> paramsTop == old(paramsTop) && Params() == old(Params())
      decreases |Segments100(url)| - urlSegment, 0
    {
      hide Split, Segments100, CallUntil, Candidates, Calls, CacheOf;
      ghost var segs, ps := Segments100(url), Params();
      assert segs[urlSegment..][1..] == segs[urlSegment + 1..] && segs[urlSegment..][0] == segment;
      if |p.name| != 0 && p.name[0] == '*' {
        accepted := CallHandlers(p.handlers);
      } else if |p.name| != 0 && p.name[0] == ':' && |segment| != 0 {
        Push(segment);
        accepted := ExecuteHandlers(p, urlSegment + 1);
        if accepted {
          return true;
        }
        Pop(ps, segment);
      } else if p.name == segment {
        accepted := ExecuteHandlers(p, urlSegment + 1);
      } else {
        CallNone(accepts, log);
        accepted := false;
      }
    }

    method Push(param: string)
      requires params.Length == MAX_URL_SEGMENTS && -1 <= paramsTop < MAX_URL_SEGMENTS - 1
      modifies params, `paramsTop
      ensures paramsTop == old(paramsTop) + 1 && Params() == old(Params()) + [param]
    {
      paramsTop := paramsTop + 1;
      params[paramsTop] := param;
    }

    method Pop(ghost ps: seq<string>, ghost param: string)
      requires params.Length == MAX_URL_SEGMENTS && 0 <= paramsTop < MAX_URL_SEGMENTS && Params() == ps + [param]
      modifies `paramsTop
      ensures paramsTop == old(paramsTop) - 1 && Params() == ps
    {
      assert Params()[..paramsTop] == ps;
      paramsTop := paramsTop - 1;
    }

    /**
     Routes a URL: the handlers of the entries that match are called from the top of the flat table to the bottom,
     each with the segments its pattern captures, until one accepts.
     */
    method Route(name: string, url: string) returns (accepted: bool)
      requires Valid()
      modifies `log, `currentUrl, `urlSegmentTop, `url, urlSegmentVector, params, `paramsTop
      ensures Valid()
      ensures (log, accepted) == CallUntil(accepts, Serve(ForMethod(Table(root), name), Segments100(url), []), old(log))
      ensures !accepted ==> paramsTop == -1
      ensures Once(Table(root)) ==> old(log) <= log && DistinctCalls(log[|old(log)|..])
    {
      hide Cached, Segments100, CallUntil, Candidates, Serve, Ordered, RootNames, TableOf, Once, DistinctCalls,
           OlderThan;
      if Once(Table(root)) {
        CallsOnce(accepts, Table(root), name, Segments100(url), log);
      }
      SetUrl(url);
      paramsTop := -1;
      RootTable(root);
      for i := 0 to |root.children|
        invariant forall j :: 0 <= j < i ==> root.children[j].name != name
      {
        if root.children[i].name == name {
          var node := root.children[i];
          assert Segments100(url)[0..] == Segments100(url);
          assert Params() == [];
          TheMethod(root.children, i);
          TreeIsTable(node, Segments100(url), []);
          accepted := ExecuteHandlers(node, 0);
          return;
        }
      }
      NoMethod(root.children, name);
      ServeNothing(Segments100(url));
      CallNone(accepts, log);
      return false;
    }

    /**
     The table of a method is in order of precedence, but for entries that stand on either side of one that parts them
     by an empty segment; and altogether, as long as no pattern has an empty segment.
     */
    lemma ServedInOrder(name: string)
      requires Valid()
      ensures var t := ForMethod(Table(root), name);
              NearlySorted(t) && ((forall e :: e in t ==> NamedPath(e.path)) ==> Sorted(t))
    {
      hide Ordered, Used, Runs, Sorted, NearlySorted, Table, TableOf, NamedPath, ForMethod, CacheOf;
      var ns, t := root.children, ForMethod(Table(root), name);
      RootTable(root);
      if i :| 0 <= i < |ns| && ns[i].name == name {
        TheMethod(ns, i);
        UsedChild(root, i);
        OrderedMethod(root, i);
        TableIsNearlySorted(ns[i]);
      } else {
        NoMethod(ns, name);
        NothingIsSorted();
      }
      if forall e :: e in t ==> NamedPath(e.path) {
        NamedIsSorted(t);
      }
    }

    /** The path of a pattern below its method. */
    method PatternPath(pattern: string, high: bool) returns (path: seq<Hop>)
      requires Apart()
      modifies `currentUrl, `urlSegmentTop, `url, urlSegmentVector
      ensures Cached() && path == Hops(Segments100(pattern), high)
    {
      hide Split, Segments100, CacheOf;
      SetUrl(pattern);
      path := [];
      var i := 0;
      var segment, isStop := GetUrlSegment(i);
      while !isStop
        invariant Cached() && url == pattern && i <= |Segments100(pattern)| && |path| == i && i <= urlSegmentTop + 1
        invariant path == Hops(Segments100(pattern), high)[..i]
        invariant isStop <==> i >= |Segments100(pattern)|
        invariant !isStop ==> segment == Segments100(pattern)[i] && i <= urlSegmentTop
        decreases |Segments100(pattern)| - i
      {
        path := path + [Hop(segment, high)];
        i := i + 1;
        segment, isStop := GetUrlSegment(i);
      }
    }

    /** Adds a pattern for one method: an entry is put into the table, which stays as it is otherwise. */
    method AddOne(name: string, pattern: string, high: bool, value: nat)
      requires Sound()
      modifies `root, `currentUrl, `urlSegmentTop, `url, urlSegmentVector
      ensures Sound()
      ensures OneMore(old(Table(root)), Table(root),
                      Entry([Hop(name, false)] + Hops(Segments100(pattern), high), value))
    {
      hide Cached, Segments100, Ordered, RootNames, AddPath, Table, Used, MethodsInRuns, OneMore;
      var path := PatternPath(pattern, high);
      var whole := [Hop(name, false)] + path;
      AddPathAdds(root, true, whole, value);
      AddPathKeepsOrder(root, true, whole, value);
      AddPathUsed(root, true, whole, value);
      MethodsStayInRuns(root, whole, value);
      RootNamesKept(root, whole, value);
      root := AddPath(root, true, whole, value);
    }

    /**
     Adds a pattern and its handler for several methods: for each of them an entry is put into the flat table. Where it
     lands follows from the order of precedence in which the table of a method stays. With distinct methods no handler
     comes to stand twice under one of them.
     */
    method Add(names: seq<string>, pattern: string, priority: Priority)
      requires Valid() && handlers < HANDLER_IDS
      modifies this, urlSegmentVector
      ensures Valid() && handlers == old(handlers) + 1 && log == old(log)
      ensures Grown(old(Table(root)), Table(root), names, Hops(Segments100(pattern), priority == High),
                    Bits(priority) + old(handlers))
      ensures old(Once(Table(root))) && Distinct(names) ==> Once(Table(root))
    {
      hide Cached, Segments100, Ordered, RootNames, Table, Bits, Used, MethodsInRuns, OneMore, Grown, Once, OlderThan,
           NewUnder, Distinct;
      ghost var was, path := Table(root), Hops(Segments100(pattern), priority == High);
      var value := Bits(priority) + handlers;
      NothingGrown(was, names, path, value);
      for i := 0 to |names|
        invariant Sound() && handlers == old(handlers) && log == old(log)
        invariant Grown(was, Table(root), names[..i], path, value)
      {
        ghost var mid := Table(root);
        AddOne(names[i], pattern, priority == High, value);
        GrownOn(was, mid, Table(root), names, i, path, value);
      }
      IdOfBits(priority, handlers);
      GrownOnce(was, Table(root), names, path, value);
      NewIsOld(Table(root), handlers, names);
      handlers := handlers + 1;
    }
  }

  lemma IdOfBits(p: Priority, n: nat)
    requires n < HANDLER_IDS
    ensures (Bits(p) + n) % HANDLER_IDS == n
  {
  }

  lemma OrderedMethod(root: Node, i: nat)
    requires Ordered(root) && i < |root.children|
    ensures Ordered(root.children[i])
  {
    OneIsOrdered(root.children, i);
  }

  lemma NothingIsSorted()
    ensures NearlySorted([])
  {
  }

  lemma NothingGrown(t: seq<Entry>, names: seq<string>, path: seq<Hop>, value: nat)
    ensures Grown(t, t, names[..0], path, value) && names[..|names|] == names
  {
  }

  lemma GrownOn(t: seq<Entry>, mid: seq<Entry>, t': seq<Entry>, names: seq<string>, i: nat, path: seq<Hop>, value: nat)
    requires i < |names| && Grown(t, mid, names[..i], path, value)
    requires OneMore(mid, t', Entry([Hop(names[i], false)] + path, value))
    ensures Grown(t, t', names[..i + 1], path, value)
  {
    hide OneMore;
    assert names[..i + 1][..i] == names[..i];
  }

  lemma CallsStep(hs: seq<nat>, i: nat, ps: seq<string>)
    requires i < |hs|
    ensures Calls(hs[i..], ps) == [Call(hs[i] % HANDLER_IDS, ps)] + Calls(hs[i + 1..], ps)
  {
    assert hs[i..][1..] == hs[i + 1..];
  }

  lemma CandidatesStep(ns: seq<Node>, i: nat, segs: seq<string>, ps: seq<string>, accepts: seq<Call> -> bool,
                       log: seq<Call>)
    requires i < |ns| && segs != []
    ensures var r := CallUntil(accepts, Offer(ns[i], segs, ps), log);
            CallUntil(accepts, CandidatesIn(ns[i..], segs, ps), log)
            == if r.1 then r else CallUntil(accepts, CandidatesIn(ns[i + 1..], segs, ps), r.0)
  {
    hide CallUntil, Offer;
    assert ns[i..][1..] == ns[i + 1..] && ns[i..][0] == ns[i];
    CallUntilConcat(accepts, Offer(ns[i], segs, ps), CandidatesIn(ns[i + 1..], segs, ps), log);
  }

  lemma CallNothing(accepts: seq<Call> -> bool, segs: seq<string>, ps: seq<string>, log: seq<Call>)
    requires segs != []
    ensures CallUntil(accepts, CandidatesIn([], segs, ps), log) == (log, false)
  {
  }

  lemma CallNone(accepts: seq<Call> -> bool, log: seq<Call>)
    ensures CallUntil(accepts, [], log) == (log, false)
  {
  }

  lemma ServeNothing(segs: seq<string>)
    ensures Serve([], segs, []) == []
  {
  }

  lemma RootTable(root: Node)
    requires root.handlers == []
    ensures Table(root) == TableOf(root.children)
  {
  }

  // ---- The cache as a value ----

  ghost predicate CacheOf(vec: seq<string>, k: nat, rest: string, url: string) {
    && k <= |vec| && k <= |Split(url)| && vec[..k] == Split(url)[..k] && Split(rest) == Split(url)[k..]
  }

  lemma CacheMeans(vec: seq<string>, k: nat, rest: string, url: string)
    requires CacheOf(vec, k, rest, url)
    ensures forall j :: 0 <= j < k ==> vec[j] == Split(url)[j]
    ensures rest == "" <==> k == |Split(url)|
  {
    hide Find;
    SplitSome(rest);
    forall j | 0 <= j < k ensures vec[j] == Split(url)[j] {
      assert vec[..k][j] == Split(url)[..k][j];
    }
  }

  lemma SplitSome(url: string)
    ensures url == "" <==> Split(url) == []
  {
    hide Find;
  }

  /** Splitting off one more segment. */
  lemma SplitStep(vec: seq<string>, k: nat, rest: string, url: string)
    requires CacheOf(vec, k, rest, url) && rest != "" && k < |vec|
    ensures var r := rest[1..];
            var n := if Find(r, '/', 0) == -1 then |r| else Find(r, '/', 0);
            CacheOf(vec[k := r[..n]], k + 1, r[n..], url)
  {
    hide Find;
    var r := rest[1..];
    var n := if Find(r, '/', 0) == -1 then |r| else Find(r, '/', 0);
    assert Split(rest) == [r[..n]] + Split(r[n..]) by {
      SplitOnce(rest);
    }
    assert Split(url)[k] == Split(url)[k..][0] == r[..n];
    assert Split(url)[k + 1..] == Split(url)[k..][1..] == Split(r[n..]);
    assert vec[k := r[..n]][..k + 1] == vec[..k] + [r[..n]] == Split(url)[..k + 1];
  }

  lemma SplitOnce(url: string)
    requires url != ""
    ensures var r := url[1..];
            var n := if Find(r, '/', 0) == -1 then |r| else Find(r, '/', 0);
            Split(url) == [r[..n]] + Split(r[n..])
  {
    hide Find;
    var r := url[1..];
    if Find(r, '/', 0) == -1 {
      assert r[..|r|] == r && r[|r|..] == "" && [r] + [] == [r];
    }
  }
}
