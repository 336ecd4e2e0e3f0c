/** The order of precedence: when siblings are in descending order of their names, and what that does to the table. */
module HttpOrder {
  import opened HttpRouting

  // ---- The order of names ----

  lemma {:induction false} LessIsTotal(a: string, b: string)
    ensures Less(a, b) || a == b || Less(b, a)
    ensures !(Less(a, b) && Less(b, a)) && !Less(a, a)
    decreases |a|
  {
    if a != "" && b != "" && a[0] == b[0] {
      LessIsTotal(a[1..], b[1..]);
      assert a == [a[0]] + a[1..] && b == [b[0]] + b[1..];
    }
    if a != "" {
      LessIsTotal(a[1..], a[1..]);
    }
  }

  lemma {:induction false} LessIsTransitive(a: string, b: string, c: string)
    requires Less(a, b) && Less(b, c)
    ensures Less(a, c)
    decreases |a|
  {
    if a != "" && a[0] == b[0] == c[0] {
      LessIsTransitive(a[1..], b[1..], c[1..]);
    }
  }

  /** High priority comes first, then the greater name. */
  predicate HopBefore(a: Hop, b: Hop) {
    if a.high != b.high then a.high else Less(b.name, a.name)
  }

  lemma HopBeforeIsTotal(a: Hop, b: Hop)
    ensures HopBefore(a, b) || a == b || HopBefore(b, a)
    ensures !(HopBefore(a, b) && HopBefore(b, a)) && !HopBefore(a, a)
  {
    LessIsTotal(a.name, b.name);
    LessIsTotal(a.name, a.name);
  }

  lemma HopBeforeIsTransitive(a: Hop, b: Hop, c: Hop)
    requires HopBefore(a, b) && HopBefore(b, c)
    ensures HopBefore(a, c)
  {
    if a.high == b.high == c.high {
      LessIsTransitive(c.name, b.name, a.name);
    }
  }

  // ---- Siblings ----

  predicate Descending(ns: seq<Node>) {
    forall i, j :: 0 <= i < j < |ns| ==> HopBefore(HopTo(ns[i]), HopTo(ns[j]))
  }

  /** Of siblings in descending order one stands in front of another exactly when its name and priority say so. */
  lemma StandsInFront(ns: seq<Node>, i: nat, j: nat)
    requires Descending(ns) && i < |ns| && j < |ns|
    ensures i < j <==> HopBefore(HopTo(ns[i]), HopTo(ns[j]))
  {
    hide HopBefore;
    HopBeforeIsTotal(HopTo(ns[i]), HopTo(ns[j]));
  }

  /**
   A static name stands in front of a parameter of the same priority exactly when its first character is greater than
   the colon. Otherwise the parameter gets to see the segment first.
   */
  lemma StaticAndParameter(ns: seq<Node>, i: nat, j: nat)
    requires Descending(ns) && i < |ns| && j < |ns| && ns[i].isHighPriority == ns[j].isHighPriority
    requires ns[i].name != "" && !IsParameter(ns[i].name) && IsParameter(ns[j].name)
    ensures i < j <==> ns[i].name[0] > ':'
  {
    StandsInFront(ns, i, j);
  }

  /** A sibling without a name, of the priority of the hop. */
  predicate Nameless(n: Node, hop: Hop) {
    n.name == "" && n.isHighPriority == hop.high
  }

  lemma BeforeIsHopBefore(leaf: Node, n: Node)
    ensures Before(leaf, n, false) <==> HopBefore(HopTo(leaf), HopTo(n)) && !Nameless(n, HopTo(leaf))
  {
  }

  function Inserted(ns: seq<Node>, k: nat, child: Node): (r: seq<Node>)
    requires k <= |ns|
    ensures |r| == |ns| + 1 && r[k] == child
    ensures forall i :: 0 <= i < k ==> r[i] == ns[i]
    ensures forall i :: k < i < |r| ==> r[i] == ns[i - 1]
  {
    ns[..k] + [child] + ns[k..]
  }

  /** No nameless sibling of the same priority stands in front of where a child with a name is put. */
  predicate NothingInTheWay(ns: seq<Node>, leaf: Node, k: nat)
    requires k <= |ns|
  {
    leaf.name != "" ==> forall i :: 0 <= i < k ==> !Nameless(ns[i], HopTo(leaf))
  }

  /**
   A new child keeps its siblings in descending order if and only if upper_bound does not lead it behind one without a
   name: the comparison never says that anything may stand in front of that.
   */
  lemma InsertedDescending(ns: seq<Node>, leaf: Node, child: Node)
    requires Descending(ns) && HopTo(child) == HopTo(leaf)
    requires forall i :: 0 <= i < |ns| ==> HopTo(ns[i]) != HopTo(leaf)
    ensures var k := Place(ns, leaf, false, 0, |ns|);
            k <= |ns| && (Descending(Inserted(ns, k, child)) <==> NothingInTheWay(ns, leaf, k))
  {
    hide Place, Before, HopBefore, Nameless, Inserted;
    PlaceFits(ns, leaf, false, 0, |ns|);
    var k := Place(ns, leaf, false, 0, |ns|);
    if NothingInTheWay(ns, leaf, k) {
      InFrontOfLeaf(ns, leaf, k);
      BehindLeaf(ns, leaf, k);
      assert Descending(Inserted(ns, k, child));
    } else {
      var i :| 0 <= i < k && Nameless(ns[i], HopTo(leaf));
      NamelessIsLast(ns[i], HopTo(leaf));
      assert Inserted(ns, k, child)[i] == ns[i] && Inserted(ns, k, child)[k] == child;
    }
  }

  lemma NamelessIsLast(n: Node, hop: Hop)
    requires Nameless(n, hop)
    ensures hop.name != "" ==> !HopBefore(HopTo(n), hop)
  {
  }

  /** Everything in front of the place may stand in front of the new child. */
  lemma InFrontOfLeaf(ns: seq<Node>, leaf: Node, k: nat)
    requires Descending(ns) && k <= |ns| && Fits(ns, leaf, false, 0, |ns|, k) && NothingInTheWay(ns, leaf, k)
    requires forall i :: 0 <= i < |ns| ==> HopTo(ns[i]) != HopTo(leaf)
    ensures forall i :: 0 <= i < k ==> HopBefore(HopTo(ns[i]), HopTo(leaf))
  {
    hide Before, HopBefore, Nameless;
    if k > 0 {
      BeforeIsHopBefore(leaf, ns[k - 1]);
      HopBeforeIsTotal(HopTo(leaf), HopTo(ns[k - 1]));
      NamelessLeaf(leaf, ns[k - 1]);
      forall i | 0 <= i < k - 1 ensures HopBefore(HopTo(ns[i]), HopTo(leaf)) {
        HopBeforeIsTransitive(HopTo(ns[i]), HopTo(ns[k - 1]), HopTo(leaf));
      }
    }
  }

  lemma NamelessLeaf(leaf: Node, n: Node)
    requires HopTo(n) != HopTo(leaf)
    ensures leaf.name == "" ==> !Nameless(n, HopTo(leaf))
  {
  }

  /** And everything behind it behind. */
  lemma BehindLeaf(ns: seq<Node>, leaf: Node, k: nat)
    requires Descending(ns) && k <= |ns| && Fits(ns, leaf, false, 0, |ns|, k)
    ensures forall i :: k <= i < |ns| ==> HopBefore(HopTo(leaf), HopTo(ns[i]))
  {
    hide Before, HopBefore, Nameless;
    if k < |ns| {
      BeforeIsHopBefore(leaf, ns[k]);
      forall i | k < i < |ns| ensures HopBefore(HopTo(leaf), HopTo(ns[i])) {
        HopBeforeIsTransitive(HopTo(leaf), HopTo(ns[k]), HopTo(ns[i]));
      }
    }
  }

  /** This happens: with ":x", "" and "user" added in this order the parameter takes what is meant for "user". */
  lemma NamelessGetsInTheWay()
    ensures var ns := [Node(":x", [], [], false), Node("", [], [], false)];
            var leaf := Node("user", [], [], false);
            && Descending(ns) && HopBefore(HopTo(leaf), HopTo(ns[0]))
            && Place(ns, leaf, false, 0, 2) == 2 && !NothingInTheWay(ns, leaf, 2)
  {
    var ns := [Node(":x", [], [], false), Node("", [], [], false)];
    assert Nameless(ns[1], Hop("user", false));
    assert !Before(Node("user", [], [], false), ns[1], false);
  }

  /**
   What there is of order in any case: siblings that are not in descending order are of the same priority, and one
   without a name, of this priority, is the first or the second of them or stands between them.
   */
  predicate InRuns(ns: seq<Node>) {
    forall i, j :: 0 <= i < j < |ns| ==>
      HopTo(ns[i]) != HopTo(ns[j]) && (HopBefore(HopTo(ns[i]), HopTo(ns[j])) || Parted(ns, i, j))
  }

  predicate Parted(ns: seq<Node>, i: nat, j: nat)
    requires i < j < |ns|
  {
    && ns[i].isHighPriority == ns[j].isHighPriority
    && exists m :: i <= m <= j && Nameless(ns[m], HopTo(ns[i]))
  }

  /** Without nameless siblings they are in descending order. */
  lemma RunsDescend(ns: seq<Node>)
    requires InRuns(ns) && forall i :: 0 <= i < |ns| ==> ns[i].name != ""
    ensures Descending(ns)
  {
    hide HopBefore;
  }

  /** Inserting keeps this order, whatever is inserted. */
  lemma InsertedInRuns(ns: seq<Node>, leaf: Node, child: Node)
    requires InRuns(ns) && HopTo(child) == HopTo(leaf)
    requires forall i :: 0 <= i < |ns| ==> HopTo(ns[i]) != HopTo(leaf)
    ensures var k := Place(ns, leaf, false, 0, |ns|);
            k <= |ns| && InRuns(Inserted(ns, k, child))
  {
    hide Place, Before, HopBefore, Nameless, Inserted, Parted;
    PlaceFits(ns, leaf, false, 0, |ns|);
    var k := Place(ns, leaf, false, 0, |ns|);
    var more := Inserted(ns, k, child);
    forall i, j | 0 <= i < j < |more|
      ensures HopTo(more[i]) != HopTo(more[j])
      ensures HopBefore(HopTo(more[i]), HopTo(more[j])) || Parted(more, i, j)
    {
      if j == k {
        InFrontOfNew(ns, leaf, k, i, child);
      } else if i == k {
        BehindNew(ns, leaf, k, j - 1, child);
      } else {
        PartedMore(ns, k, child, if i < k then i else i - 1, if j < k then j else j - 1);
      }
    }
  }

  lemma PartedMore(ns: seq<Node>, k: nat, child: Node, i: nat, j: nat)
    requires k <= |ns| && i < j < |ns|
    ensures Parted(ns, i, j) ==>
              Parted(Inserted(ns, k, child), if i < k then i else i + 1, if j < k then j else j + 1)
  {
    hide Nameless, Inserted;
    var more := Inserted(ns, k, child);
    if Parted(ns, i, j) {
      var m :| i <= m <= j && Nameless(ns[m], HopTo(ns[i]));
      assert more[if m < k then m else m + 1] == ns[m];
    }
  }

  /** A sibling in front of the place. */
  lemma InFrontOfNew(ns: seq<Node>, leaf: Node, k: nat, i: nat, child: Node)
    requires InRuns(ns) && i < k <= |ns| && Fits(ns, leaf, false, 0, |ns|, k) && HopTo(child) == HopTo(leaf)
    requires forall i :: 0 <= i < |ns| ==> HopTo(ns[i]) != HopTo(leaf)
    ensures HopBefore(HopTo(ns[i]), HopTo(leaf)) || Parted(Inserted(ns, k, child), i, k)
  {
    hide HopBefore, Inserted, Less;
    var more := Inserted(ns, k, child);
    HighStaysFirst(ns, i, k - 1);
    if ns[i].isHighPriority != leaf.isHighPriority {
      PriorityDecides(HopTo(ns[i]), HopTo(leaf));
    } else if m :| i <= m < k && Nameless(ns[m], HopTo(leaf)) {
      assert more[m] == ns[m];
    } else if leaf.name == "" {
      assert more[k] == child && Nameless(more[k], HopTo(more[i]));
    } else {
      BeforeIsHopBefore(leaf, ns[k - 1]);
      HopBeforeIsTotal(HopTo(leaf), HopTo(ns[k - 1]));
      if i < k - 1 {
        HopBeforeIsTransitive(HopTo(ns[i]), HopTo(ns[k - 1]), HopTo(leaf));
      }
    }
  }

  /** A sibling behind the place. */
  lemma BehindNew(ns: seq<Node>, leaf: Node, k: nat, j: nat, child: Node)
    requires InRuns(ns) && k <= j < |ns| && Fits(ns, leaf, false, 0, |ns|, k) && HopTo(child) == HopTo(leaf)
    ensures HopBefore(HopTo(leaf), HopTo(ns[j])) || Parted(Inserted(ns, k, child), k, j + 1)
  {
    hide HopBefore, Inserted, Less;
    var more := Inserted(ns, k, child);
    BeforeIsHopBefore(leaf, ns[k]);
    HighStaysFirst(ns, k, j);
    if leaf.isHighPriority != ns[j].isHighPriority {
      PriorityDecides(HopTo(leaf), HopTo(ns[k]));
      PriorityDecides(HopTo(leaf), HopTo(ns[j]));
    } else if k < j {
      PriorityDecides(HopTo(leaf), HopTo(ns[k]));
      if HopBefore(HopTo(ns[k]), HopTo(ns[j])) {
        HopBeforeIsTransitive(HopTo(leaf), HopTo(ns[k]), HopTo(ns[j]));
      } else {
        var m :| k <= m <= j && Nameless(ns[m], HopTo(ns[k]));
        assert more[m + 1] == ns[m] && more[k] == child && more[j + 1] == ns[j];
      }
    }
  }

  lemma PriorityDecides(a: Hop, b: Hop)
    ensures a.high && !b.high ==> HopBefore(a, b)
    ensures !a.high && b.high ==> !HopBefore(a, b)
  {
  }

  lemma HighStaysFirst(ns: seq<Node>, i: nat, j: nat)
    requires InRuns(ns) && i <= j < |ns|
    ensures ns[j].isHighPriority ==> ns[i].isHighPriority
  {
    if i < j {
      PriorityDecides(HopTo(ns[i]), HopTo(ns[j]));
    }
  }

  // ---- When a nameless sibling is in the way ----

  /** The last index in front of `m` that bisection looks at on its way to `m`, or `last` if there is none. */
  function LastProbe(first: nat, len: nat, m: nat, last: int): (p: int)
    requires first <= m < first + len && -1 <= last < first
    ensures last <= p < m && (p == last || first <= p)
    decreases len
  {
    var mid := first + len / 2;
    if mid == m then last
    else if mid < m then LastProbe(mid + 1, len - len / 2 - 1, m, mid)
    else LastProbe(first, len / 2, m, last)
  }

  /**
   A child with a name lands behind its nameless sibling, number `m`, if and only if bisection on its way to `m` looks
   at no sibling in front of it, or the last it looks at belongs in front of the child. How many siblings there are and
   where the nameless one stands decide which one that is.
   */
  lemma NamelessMisleads(ns: seq<Node>, leaf: Node, m: nat)
    requires Descending(ns) && m < |ns| && leaf.name != "" && Nameless(ns[m], HopTo(leaf))
    requires forall i :: 0 <= i < |ns| ==> HopTo(ns[i]) != HopTo(leaf)
    ensures var k, p := Place(ns, leaf, false, 0, |ns|), LastProbe(0, |ns|, m, -1);
            && k <= |ns| && (m < k <==> p == -1 || HopBefore(HopTo(ns[p]), HopTo(leaf)))
            && (NothingInTheWay(ns, leaf, k) <==> k <= m)
  {
    hide Place, Before, HopBefore, LastProbe, Nameless;
    PlaceFits(ns, leaf, false, 0, |ns|);
    Misled(ns, leaf, m, 0, |ns|, -1);
    forall i | 0 <= i < |ns| && Nameless(ns[i], HopTo(leaf)) ensures i == m {
      OneNameless(ns, leaf, i, m);
    }
  }

  lemma OneNameless(ns: seq<Node>, leaf: Node, i: nat, m: nat)
    requires Descending(ns) && i < |ns| && m < |ns|
    requires Nameless(ns[i], HopTo(leaf)) && Nameless(ns[m], HopTo(leaf))
    ensures i == m
  {
    HopBeforeIsTotal(HopTo(ns[i]), HopTo(ns[m]));
  }

  lemma {:induction false} Misled(ns: seq<Node>, leaf: Node, m: nat, first: nat, len: nat, last: int)
    requires Descending(ns) && first <= m < first + len <= |ns| && leaf.name != "" && Nameless(ns[m], HopTo(leaf))
    requires forall i :: 0 <= i < |ns| ==> HopTo(ns[i]) != HopTo(leaf)
    requires -1 <= last < first && (last != -1 ==> HopBefore(HopTo(ns[last]), HopTo(leaf)))
    ensures var p := LastProbe(first, len, m, last);
            m < Place(ns, leaf, false, first, len) <==> p == -1 || HopBefore(HopTo(ns[p]), HopTo(leaf))
    decreases len
  {
    hide Place, Before, HopBefore, Nameless, LastProbe, Descending;
    PlaceStep(ns, leaf, false, first, len);
    ProbeStep(first, len, m, last);
    var half := len / 2;
    var mid := first + half;
    BeforeIsHopBefore(leaf, ns[mid]);
    HopBeforeIsTotal(HopTo(leaf), HopTo(ns[mid]));
    if mid == m {
      PlaceFits(ns, leaf, false, mid + 1, len - half - 1);
    } else if mid > m {
      BehindNameless(ns, leaf, m, mid);
      Misled(ns, leaf, m, first, half, last);
    } else if Before(leaf, ns[mid], false) {
      PlaceFits(ns, leaf, false, first, half);
      BehindLast(ns, leaf, mid, LastProbe(first, len, m, last));
    } else {
      NamedInFront(ns, leaf, mid, m);
      Misled(ns, leaf, m, mid + 1, len - half - 1, mid);
    }
  }

  lemma ProbeStep(first: nat, len: nat, m: nat, last: int)
    requires first <= m < first + len && -1 <= last < first
    ensures var mid, p := first + len / 2, LastProbe(first, len, m, last);
            && (mid == m ==> p == last)
            && (mid < m ==> p == LastProbe(mid + 1, len - len / 2 - 1, m, mid))
            && (mid > m ==> p == LastProbe(first, len / 2, m, last))
  {
  }

  lemma BehindLast(ns: seq<Node>, leaf: Node, i: nat, p: nat)
    requires Descending(ns) && i <= p < |ns| && HopBefore(HopTo(leaf), HopTo(ns[i]))
    ensures !HopBefore(HopTo(ns[p]), HopTo(leaf))
  {
    hide HopBefore;
    if i < p {
      HopBeforeIsTransitive(HopTo(leaf), HopTo(ns[i]), HopTo(ns[p]));
    }
    HopBeforeIsTotal(HopTo(leaf), HopTo(ns[p]));
  }

  /** Behind a nameless sibling come only siblings of low priority. */
  lemma BehindNameless(ns: seq<Node>, leaf: Node, m: nat, i: nat)
    requires Descending(ns) && m < i < |ns| && Nameless(ns[m], HopTo(leaf))
    ensures Before(leaf, ns[i], false)
  {
    assert HopBefore(HopTo(ns[m]), HopTo(ns[i]));
  }

  lemma NamedInFront(ns: seq<Node>, leaf: Node, i: nat, m: nat)
    requires Descending(ns) && i < m < |ns| && Nameless(ns[m], HopTo(leaf))
    ensures !Nameless(ns[i], HopTo(leaf))
  {
    assert HopBefore(HopTo(ns[i]), HopTo(ns[m]));
    HopBeforeIsTotal(HopTo(ns[i]), HopTo(ns[m]));
  }

  // ---- Trees ----

  /** In this node and below it siblings are in descending order. */
  predicate Descends(node: Node) {
    Descending(node.children) && AllDescend(node.children)
  }

  predicate AllDescend(ns: seq<Node>) {
    forall i :: 0 <= i < |ns| ==> Descends(ns[i])
  }

  /** Everything below this node has a name. */
  predicate Named(node: Node) {
    AllNamed(node.children)
  }

  predicate AllNamed(ns: seq<Node>) {
    forall i :: 0 <= i < |ns| ==> ns[i].name != "" && Named(ns[i])
  }

  predicate NamedPath(path: seq<Hop>) {
    forall i :: 0 <= i < |path| ==> path[i].name != ""
  }

  lemma NamedNowhere()
    ensures NamedPath([])
  {
  }

  lemma NamedTail(path: seq<Hop>)
    requires path != []
    ensures NamedPath(path) <==> path[0].name != "" && NamedPath(path[1..])
  {
    assert forall i :: 0 < i < |path| ==> path[i] == path[1..][i - 1];
  }

  lemma NamedReplaced(ns: seq<Node>, i: nat, child: Node)
    requires i < |ns| && child.name == ns[i].name && (Named(child) ==> Named(ns[i]))
    ensures AllNamed(ns[i := child]) <==> AllNamed(ns) && Named(child)
  {
    hide Named;
    var more := ns[i := child];
    if AllNamed(more) {
      assert more[i] == child;
      forall j | 0 <= j < |ns| ensures ns[j].name != "" && Named(ns[j]) {
        assert j != i ==> more[j] == ns[j];
      }
    }
  }

  lemma NamedInserted(ns: seq<Node>, k: nat, child: Node)
    requires k <= |ns|
    ensures AllNamed(Inserted(ns, k, child)) <==> AllNamed(ns) && child.name != "" && Named(child)
  {
    hide Named, Inserted;
    var more := Inserted(ns, k, child);
    if AllNamed(more) {
      assert more[k] == child;
      forall j | 0 <= j < |ns| ensures ns[j].name != "" && Named(ns[j]) {
        assert ns[j] == more[if j < k then j else j + 1];
      }
    }
  }

  /** Adding a pattern adds a node without a name exactly if it has an empty segment for which there is none. */
  lemma {:induction false} AddPathNamed(node: Node, path: seq<Hop>, value: nat)
    ensures Named(AddPath(node, false, path, value)) <==> Named(node) && NamedPath(path)
    decreases |path|
  {
    hide AllNamed, NamedPath, Place, InsertHandler;
    var ns := node.children;
    if path == [] {
      SameNamed(node, AddPath(node, false, path, value));
      NamedNowhere();
    } else {
      NamedTail(path);
      var i := FindChild(ns, path[0].name, path[0].high);
      if i != -1 {
        var child := AddPath(ns[i], false, path[1..], value);
        AddPathNamed(ns[i], path[1..], value);
        NamedReplaced(ns, i, child);
        NamedChild(ns, i);
      } else {
        var leaf := Node(path[0].name, [], [], path[0].high);
        PlaceFits(ns, leaf, false, 0, |ns|);
        AddPathNamed(leaf, path[1..], value);
        LeafNamed(leaf);
        NamedInserted(ns, Place(ns, leaf, false, 0, |ns|), AddPath(leaf, false, path[1..], value));
      }
    }
  }

  lemma SameNamed(a: Node, b: Node)
    requires a.children == b.children
    ensures Named(a) <==> Named(b)
  {
  }

  lemma NamedChild(ns: seq<Node>, i: nat)
    requires i < |ns|
    ensures AllNamed(ns) ==> ns[i].name != "" && Named(ns[i])
  {
    hide Named;
  }

  lemma LeafNamed(n: Node)
    requires n.children == []
    ensures Named(n)
  {
  }

  /** In this node and below it siblings are in runs. */
  predicate Runs(node: Node) {
    InRuns(node.children) && AllRuns(node.children)
  }

  predicate AllRuns(ns: seq<Node>) {
    forall i :: 0 <= i < |ns| ==> Runs(ns[i])
  }

  lemma {:induction false} NamedDescends(node: Node)
    requires Runs(node) && Named(node)
    ensures Descends(node)
  {
    hide InRuns, Descending;
    RunsDescend(node.children);
    forall i | 0 <= i < |node.children| ensures Descends(node.children[i]) {
      NamedDescends(node.children[i]);
    }
  }

  lemma RunsReplaced(ns: seq<Node>, i: nat, child: Node)
    requires InRuns(ns) && AllRuns(ns) && i < |ns| && HopTo(child) == HopTo(ns[i]) && Runs(child)
    ensures InRuns(ns[i := child]) && AllRuns(ns[i := child])
  {
    hide HopBefore, Runs, Parted;
    var more := ns[i := child];
    assert forall j :: 0 <= j < |ns| ==> HopTo(more[j]) == HopTo(ns[j]);
    forall a, b | 0 <= a < b < |ns| && Parted(ns, a, b) ensures Parted(more, a, b) {
      PartedAlike(ns, more, a, b);
    }
  }

  lemma PartedAlike(ns: seq<Node>, more: seq<Node>, a: nat, b: nat)
    requires |more| == |ns| && a < b < |ns| && Parted(ns, a, b)
    requires forall j :: 0 <= j < |ns| ==> HopTo(more[j]) == HopTo(ns[j])
    ensures Parted(more, a, b)
  {
    var m :| a <= m <= b && Nameless(ns[m], HopTo(ns[a]));
    assert HopTo(more[m]) == HopTo(ns[m]) && HopTo(more[a]) == HopTo(ns[a]) && HopTo(more[b]) == HopTo(ns[b]);
    assert Nameless(more[m], HopTo(more[a]));
  }

  lemma RunsInserted(ns: seq<Node>, k: nat, child: Node)
    requires AllRuns(ns) && k <= |ns| && Runs(child)
    ensures AllRuns(Inserted(ns, k, child))
  {
    hide Inserted, Runs;
  }

  lemma SameRuns(a: Node, b: Node)
    requires a.children == b.children
    ensures Runs(a) <==> Runs(b)
    ensures a.children == [] ==> Runs(a)
  {
  }

  lemma RunsChild(ns: seq<Node>, i: nat)
    requires AllRuns(ns) && i < |ns|
    ensures Runs(ns[i])
  {
    hide Runs;
  }

  /** Adding any pattern keeps siblings in runs everywhere. */
  lemma {:induction false} AddPathKeepsRuns(node: Node, path: seq<Hop>, value: nat)
    requires Runs(node)
    ensures Runs(AddPath(node, false, path, value))
    decreases |path|
  {
    hide AllRuns, InRuns, Place, InsertHandler;
    var ns := node.children;
    if path == [] {
      SameRuns(node, AddPath(node, false, path, value));
    } else {
      var i := FindChild(ns, path[0].name, path[0].high);
      if i != -1 {
        RunsChild(ns, i);
        AddPathKeepsRuns(ns[i], path[1..], value);
        RunsReplaced(ns, i, AddPath(ns[i], false, path[1..], value));
      } else {
        var leaf := Node(path[0].name, [], [], path[0].high);
        SameRuns(leaf, leaf);
        var child := AddPath(leaf, false, path[1..], value);
        AddPathKeepsRuns(leaf, path[1..], value);
        InsertedInRuns(ns, leaf, child);
        RunsInserted(ns, Place(ns, leaf, false, 0, |ns|), child);
      }
    }
  }

  /** As long as no pattern has an empty segment, siblings stay in descending order of their names. */
  lemma AddPathDescends(node: Node, path: seq<Hop>, value: nat)
    requires Named(node) && Runs(node) && NamedPath(path)
    ensures Descends(AddPath(node, false, path, value))
  {
    hide Named, Runs, NamedPath, Descends;
    AddPathNamed(node, path, value);
    AddPathKeepsRuns(node, path, value);
    NamedDescends(AddPath(node, false, path, value));
  }

  // ---- The table ----

  /**
   Precedence of patterns: at the first step in which they differ the one of high priority, then the one with the
   greater name; a pattern before those that go on from it; and the same pattern by priority and age.
   */
  predicate Precedes(x: Entry, y: Entry)
    decreases |x.path|
  {
    if x.path == [] then y.path != [] || x.value <= y.value
    else
      && y.path != []
      && if x.path[0] == y.path[0] then Precedes(Entry(x.path[1..], x.value), Entry(y.path[1..], y.value))
         else HopBefore(x.path[0], y.path[0])
  }

  predicate Sorted(t: seq<Entry>) {
    forall i, j :: 0 <= i < j < |t| ==> Precedes(t[i], t[j])
  }

  lemma SortedConcat(a: seq<Entry>, b: seq<Entry>)
    requires Sorted(a) && Sorted(b) && forall i, j :: 0 <= i < |a| && 0 <= j < |b| ==> Precedes(a[i], b[j])
    ensures Sorted(a + b)
  {
    hide Precedes;
  }

  lemma SortedBelow(hop: Hop, t: seq<Entry>)
    requires Sorted(t)
    ensures Sorted(Below(hop, t))
  {
    hide HopBefore, Below;
    var b := Below(hop, t);
    forall i, j | 0 <= i < j < |t| ensures Precedes(b[i], b[j]) {
      assert b[i].path[1..] == t[i].path && b[j].path[1..] == t[j].path;
      assert Precedes(t[i], t[j]);
    }
  }

  lemma SortedHandlers(handlers: seq<nat>)
    requires Ascending(handlers)
    ensures Sorted(HandlerEntries(handlers))
  {
    hide HandlerEntries;
  }

  /** The entries of siblings begin with steps to them. */
  lemma {:induction false} TableOfSteps(ns: seq<Node>)
    ensures forall e :: e in TableOf(ns) ==> e.path != [] && exists j :: 0 <= j < |ns| && HopTo(ns[j]) == e.path[0]
  {
    hide Table;
    if ns != [] {
      TableOfSteps(ns[1..]);
      forall e | e in TableOf(ns) ensures e.path != [] && exists j :: 0 <= j < |ns| && HopTo(ns[j]) == e.path[0] {
        if e in Below(HopTo(ns[0]), Table(ns[0])) {
          assert HopTo(ns[0]) == e.path[0];
        } else {
          var j :| 0 <= j < |ns[1..]| && HopTo(ns[1..][j]) == e.path[0];
          assert HopTo(ns[j + 1]) == e.path[0];
        }
      }
    }
  }

  /** The table of a tree in order is in order of precedence. */
  lemma {:induction false} TableIsSorted(node: Node)
    requires Ordered(node) && Descends(node)
    ensures Sorted(Table(node))
  {
    hide Sorted, TableOf, HandlerEntries;
    SortedHandlers(node.handlers);
    SiblingsAreSorted(node.children);
    TableOfSteps(node.children);
    SortedConcat(HandlerEntries(node.handlers), TableOf(node.children));
  }

  lemma {:induction false} SiblingsAreSorted(ns: seq<Node>)
    requires Descending(ns) && AllOrdered(ns) && AllDescend(ns)
    ensures Sorted(TableOf(ns))
  {
    hide Table, Below, Ordered, Descends, HopBefore;
    if ns != [] {
      TableIsSorted(ns[0]);
      SortedBelow(HopTo(ns[0]), Table(ns[0]));
      SiblingsAreSorted(ns[1..]);
      var a, b := Below(HopTo(ns[0]), Table(ns[0])), TableOf(ns[1..]);
      TableOfSteps(ns[1..]);
      forall i, j | 0 <= i < |a| && 0 <= j < |b| ensures Precedes(a[i], b[j]) {
        var k :| 0 <= k < |ns[1..]| && HopTo(ns[1..][k]) == b[j].path[0];
        assert HopBefore(HopTo(ns[0]), HopTo(ns[k + 1]));
        HopBeforeIsTotal(HopTo(ns[0]), HopTo(ns[k + 1]));
        assert b[j] in b;
      }
      SortedConcat(a, b);
    }
  }

  // ---- The table, whatever patterns there are ----

  /** `z` takes, at the step at which `x` and `y` part, a step without a name and of the priority of both. */
  predicate Between(x: seq<Hop>, y: seq<Hop>, z: seq<Hop>)
    decreases |x|
  {
    && x != [] && y != [] && z != []
    && if x[0] == y[0] then z[0] == x[0] && Between(x[1..], y[1..], z[1..])
       else z[0].name == "" && z[0].high == x[0].high == y[0].high
  }

  predicate PartedBy(t: seq<Entry>, i: nat, j: nat)
    requires i < j < |t|
  {
    exists m :: i <= m <= j && Between(t[i].path, t[j].path, t[m].path)
  }

  /** In order of precedence, but for entries that stand on either side of one that parts them by an empty segment. */
  predicate NearlySorted(t: seq<Entry>) {
    forall i, j :: 0 <= i < j < |t| ==> Precedes(t[i], t[j]) || PartedBy(t, i, j)
  }

  lemma {:induction false} BetweenIsUnnamed(x: seq<Hop>, y: seq<Hop>, z: seq<Hop>)
    requires Between(x, y, z)
    ensures !NamedPath(z)
    decreases |x|
  {
    hide NamedPath;
    NamedTail(z);
    if x[0] == y[0] {
      BetweenIsUnnamed(x[1..], y[1..], z[1..]);
    }
  }

  /** Without empty segments it is in order altogether. */
  lemma NamedIsSorted(t: seq<Entry>)
    requires NearlySorted(t) && forall e :: e in t ==> NamedPath(e.path)
    ensures Sorted(t)
  {
    hide Precedes, PartedBy, NamedPath;
    forall i, j | 0 <= i < j < |t| ensures Precedes(t[i], t[j]) {
      NamedIsNotParted(t, i, j);
    }
  }

  lemma NamedIsNotParted(t: seq<Entry>, i: nat, j: nat)
    requires i < j < |t| && forall e :: e in t ==> NamedPath(e.path)
    ensures !PartedBy(t, i, j)
  {
    hide Between, NamedPath;
    if m :| i <= m <= j && Between(t[i].path, t[j].path, t[m].path) {
      assert t[m] in t;
      BetweenIsUnnamed(t[i].path, t[j].path, t[m].path);
    }
  }

  lemma NearlyConcat(a: seq<Entry>, b: seq<Entry>)
    requires Sorted(a) && NearlySorted(b)
    requires forall i, j :: 0 <= i < |a| && 0 <= j < |b| ==> Precedes(a[i], b[j])
    ensures NearlySorted(a + b)
  {
    hide Precedes, Between;
    var t := a + b;
    forall i, j | 0 <= i < j < |t| ensures Precedes(t[i], t[j]) || PartedBy(t, i, j) {
      if i >= |a| {
        PartedInside(t, |a|, b, i - |a|, j - |a|);
      }
    }
  }

  /** A part of the table. */
  lemma PartedInside(t: seq<Entry>, at: nat, b: seq<Entry>, i: nat, j: nat)
    requires at + |b| <= |t| && t[at..at + |b|] == b && i < j < |b|
    ensures PartedBy(b, i, j) ==> PartedBy(t, at + i, at + j)
    ensures t[at + i] == b[i] && t[at + j] == b[j]
  {
    hide Between;
    assert forall k :: 0 <= k < |b| ==> t[at + k] == b[k];
    if PartedBy(b, i, j) {
      var m :| i <= m <= j && Between(b[i].path, b[j].path, b[m].path);
      assert t[at + m] == b[m];
    }
  }

  lemma NearlyBelow(hop: Hop, t: seq<Entry>)
    requires NearlySorted(t)
    ensures NearlySorted(Below(hop, t))
  {
    hide Below;
    var b := Below(hop, t);
    assert forall k :: 0 <= k < |t| ==> b[k].path[1..] == t[k].path;
    forall i, j | 0 <= i < j < |b| ensures Precedes(b[i], b[j]) || PartedBy(b, i, j) {
      if PartedBy(t, i, j) {
        var m :| i <= m <= j && Between(t[i].path, t[j].path, t[m].path);
        assert Between(b[i].path, b[j].path, b[m].path);
      } else {
        assert Precedes(t[i], t[j]);
      }
    }
  }

  /** Where the entries of a sibling begin. */
  function Start(ns: seq<Node>, s: nat): nat
    requires s <= |ns|
  {
    |TableOf(ns[..s])|
  }

  lemma StartNext(ns: seq<Node>, s: nat)
    requires s < |ns|
    ensures Start(ns, s + 1) == Start(ns, s) + |Table(ns[s])| <= |TableOf(ns)|
    ensures TableOf(ns)[Start(ns, s)..Start(ns, s + 1)] == Below(HopTo(ns[s]), Table(ns[s]))
  {
    hide Table, Below, TableOf;
    TableAround(ns[..s], ns[s], ns[s + 1..]);
    TableAround(ns[..s], ns[s], []);
    NothingInTable();
    assert ns == ns[..s] + [ns[s]] + ns[s + 1..] && ns[..s + 1] == ns[..s] + [ns[s]] + [];
    var a, b, c := TableOf(ns[..s]), Below(HopTo(ns[s]), Table(ns[s])), TableOf(ns[s + 1..]);
    assert a + b + [] == a + b && (a + b + c)[|a|..|a| + |b|] == b;
  }

  lemma NothingInTable()
    ensures TableOf([]) == []
  {
  }

  lemma {:induction false} StartGrows(ns: seq<Node>, a: nat, b: nat)
    requires a <= b <= |ns|
    ensures Start(ns, a) <= Start(ns, b) <= |TableOf(ns)|
    decreases b - a
  {
    hide Table, TableOf;
    if a < b {
      StartNext(ns, b - 1);
      StartGrows(ns, a, b - 1);
    } else if a < |ns| {
      StartNext(ns, a);
    } else {
      assert ns[..a] == ns;
    }
  }

  /** The sibling that an entry belongs to. */
  lemma {:induction false} Owner(ns: seq<Node>, n: nat, j: nat) returns (s: nat)
    requires n <= |ns| && j < Start(ns, n)
    ensures s < n && Start(ns, s) <= j < Start(ns, s + 1)
    decreases n
  {
    hide Table, TableOf;
    if n == 0 {
      assert ns[..0] == [];
      NothingInTable();
      assert false;
    } else if Start(ns, n - 1) <= j {
      s := n - 1;
    } else {
      s := Owner(ns, n - 1, j);
    }
  }

  /** Where the first entry of a sibling stands, and what it begins with. */
  lemma FirstOf(ns: seq<Node>, s: nat)
    requires s < |ns| && Table(ns[s]) != []
    ensures Start(ns, s) < |TableOf(ns)| && TableOf(ns)[Start(ns, s)].path != []
    ensures TableOf(ns)[Start(ns, s)].path[0] == HopTo(ns[s])
  {
    hide Table, TableOf, Below;
    StartNext(ns, s);
    assert TableOf(ns)[Start(ns, s)] == TableOf(ns)[Start(ns, s)..Start(ns, s + 1)][0];
  }

  lemma EntryOf(ns: seq<Node>, s: nat, i: nat)
    requires s < |ns| && Start(ns, s) <= i < Start(ns, s + 1)
    ensures i < |TableOf(ns)| && TableOf(ns)[i].path != [] && TableOf(ns)[i].path[0] == HopTo(ns[s])
  {
    hide Table, TableOf, Below;
    StartNext(ns, s);
    assert TableOf(ns)[i] == TableOf(ns)[Start(ns, s)..Start(ns, s + 1)][i - Start(ns, s)];
  }

  lemma {:induction false} SiblingsAreNearlySorted(ns: seq<Node>)
    requires InRuns(ns) && forall s :: 0 <= s < |ns| ==> Table(ns[s]) != [] && NearlySorted(Table(ns[s]))
    ensures NearlySorted(TableOf(ns))
  {
    hide Table, TableOf, NearlySorted, InRuns, Precedes, PartedBy, Start;
    var t := TableOf(ns);
    StartGrows(ns, |ns|, |ns|);
    assert Start(ns, |ns|) == |t| by { WholeTable(ns); }
    forall i, j | 0 <= i < j < |t| ensures Precedes(t[i], t[j]) || PartedBy(t, i, j) {
      var a := Owner(ns, |ns|, i);
      var b := Owner(ns, |ns|, j);
      if a == b {
        SameOwner(ns, a, i, j);
      } else if b < a {
        StartGrows(ns, b + 1, a);
        assert false;
      } else {
        TwoOwners(ns, a, b, i, j);
      }
    }
    NearlyByPairs(t);
  }

  lemma WholeTable(ns: seq<Node>)
    ensures Start(ns, |ns|) == |TableOf(ns)|
  {
    assert ns[..|ns|] == ns;
  }

  lemma NearlyByPairs(t: seq<Entry>)
    requires forall i, j :: 0 <= i < j < |t| ==> Precedes(t[i], t[j]) || PartedBy(t, i, j)
    ensures NearlySorted(t)
  {
  }

  lemma SameOwner(ns: seq<Node>, s: nat, i: nat, j: nat)
    requires s < |ns| && NearlySorted(Table(ns[s])) && Start(ns, s) <= i < j < Start(ns, s + 1)
    ensures j < |TableOf(ns)| && (Precedes(TableOf(ns)[i], TableOf(ns)[j]) || PartedBy(TableOf(ns), i, j))
  {
    hide Table, TableOf, Below, PartedBy, Precedes, Start;
    StartNext(ns, s);
    NearlyBelow(HopTo(ns[s]), Table(ns[s]));
    var at, b := Start(ns, s), Below(HopTo(ns[s]), Table(ns[s]));
    PartedInside(TableOf(ns), at, b, i - at, j - at);
  }

  lemma TwoOwners(ns: seq<Node>, a: nat, b: nat, i: nat, j: nat)
    requires InRuns(ns) && a < b < |ns| && forall s :: 0 <= s < |ns| ==> Table(ns[s]) != []
    requires Start(ns, a) <= i < Start(ns, a + 1) && Start(ns, b) <= j < Start(ns, b + 1) && i < j
    ensures j < |TableOf(ns)| && (Precedes(TableOf(ns)[i], TableOf(ns)[j]) || PartedBy(TableOf(ns), i, j))
  {
    hide Table, TableOf, HopBefore, Start;
    var t := TableOf(ns);
    EntryOf(ns, a, i);
    EntryOf(ns, b, j);
    if !HopBefore(HopTo(ns[a]), HopTo(ns[b])) {
      var m :| a <= m <= b && Nameless(ns[m], HopTo(ns[a]));
      if m == a {
        assert Between(t[i].path, t[j].path, t[i].path);
      } else if m == b {
        assert Between(t[i].path, t[j].path, t[j].path);
      } else {
        FirstOf(ns, m);
        StartGrows(ns, a + 1, m);
        StartGrows(ns, m, b);
        assert Between(t[i].path, t[j].path, t[Start(ns, m)].path);
      }
    }
  }

  /** The table of a tree to which any patterns have been added. */
  lemma {:induction false} TableIsNearlySorted(node: Node)
    requires Ordered(node) && Runs(node) && Used(node)
    ensures NearlySorted(Table(node))
  {
    hide Sorted, TableOf, HandlerEntries, NearlySorted, InRuns;
    var ns := node.children;
    forall s | 0 <= s < |ns| ensures Table(ns[s]) != [] && NearlySorted(Table(ns[s])) {
      TableIsNearlySorted(ns[s]);
    }
    SiblingsAreNearlySorted(ns);
    SortedHandlers(node.handlers);
    TableOfSteps(ns);
    NearlyConcat(HandlerEntries(node.handlers), TableOf(ns));
  }

  // ---- Names in the table ----

  /** Every child leads to an entry. */
  predicate Used(node: Node) {
    forall i :: 0 <= i < |node.children| ==> Table(node.children[i]) != [] && Used(node.children[i])
  }

  lemma UsedChild(node: Node, i: nat)
    requires Used(node) && i < |node.children|
    ensures Used(node.children[i])
  {
  }

  lemma UsedReplaced(node: Node, i: nat, child: Node)
    requires Used(node) && i < |node.children| && Used(child) && Table(child) != []
    ensures Used(node.(children := node.children[i := child]))
  {
    hide Table;
  }

  lemma UsedInserted(node: Node, k: nat, child: Node)
    requires Used(node) && k <= |node.children| && Used(child) && Table(child) != []
    ensures Used(node.(children := node.children[..k] + [child] + node.children[k..]))
  {
    hide Table;
  }

  lemma UsedLeaf(a: Node, b: Node)
    ensures a.children == b.children ==> (Used(a) <==> Used(b))
    ensures a.children == [] ==> Used(a)
  {
  }

  lemma AddPathLeavesSomething(node: Node, atRoot: bool, path: seq<Hop>, value: nat)
    ensures Table(AddPath(node, atRoot, path, value)) != []
  {
    hide Table, AddPath;
    AddPathAdds(node, atRoot, path, value);
  }

  /** Adding a pattern makes no dead ends. */
  lemma {:induction false} AddPathUsed(node: Node, atRoot: bool, path: seq<Hop>, value: nat)
    requires Used(node)
    ensures Used(AddPath(node, atRoot, path, value))
    decreases |path|
  {
    hide Used, Table, Place, InsertHandler;
    var ns := node.children;
    if path == [] {
      UsedLeaf(node, AddPath(node, atRoot, path, value));
    } else {
      var i := FindChild(ns, path[0].name, path[0].high);
      if i != -1 {
        UsedChild(node, i);
        AddPathUsed(ns[i], false, path[1..], value);
        AddPathLeavesSomething(ns[i], false, path[1..], value);
        UsedReplaced(node, i, AddPath(ns[i], false, path[1..], value));
      } else {
        var leaf := Node(path[0].name, [], [], path[0].high);
        PlaceFits(ns, leaf, atRoot, 0, |ns|);
        UsedLeaf(leaf, leaf);
        AddPathUsed(leaf, false, path[1..], value);
        AddPathLeavesSomething(leaf, false, path[1..], value);
        UsedInserted(node, Place(ns, leaf, atRoot, 0, |ns|), AddPath(leaf, false, path[1..], value));
      }
    }
  }

  // ---- Shadowing ----

  /** Precedence between patterns that differ in their second step only. */
  lemma PrecedesAtSecond(first: Hop, a: Hop, b: Hop, v: nat, w: nat)
    requires HopBefore(a, b)
    ensures Precedes(Entry([first, a], v), Entry([first, b], w))
  {
    hide HopBefore;
    assert [first, a][1..] == [a] && [first, b][1..] == [b];
    HopBeforeIsTotal(a, b);
  }

  lemma LessByFirst(a: string, b: string)
    requires a != "" && b != "" && a[0] < b[0]
    ensures Less(a, b)
  {
  }

  lemma ServeTwo(a: Entry, b: Entry, segs: seq<string>)
    ensures Serve([a, b], segs, []) == ServeOne(a, segs, []) + ServeOne(b, segs, [])
  {
    hide ServeOne;
    ServeConcat([a], [b], segs, []);
    assert [a][1..] == [] && [b][1..] == [] && [a] + [b] == [a, b];
    assert Serve([a], segs, []) == ServeOne(a, segs, []) + [] && Serve([b], segs, []) == ServeOne(b, segs, []) + [];
  }

  lemma NamesOfTwo(a: Hop, b: Hop)
    ensures Names([a, b]) == [a.name, b.name]
  {
    NamesCons(a, [b]);
    NamesCons(b, []);
    assert [a] + [b] == [a, b] && [b] + [] == [b] && Names([]) == [];
  }

  /** A pattern of two steps, the first of them literal. */
  lemma MatchesTwo(first: string, second: string, segs: seq<string>)
    requires |segs| == 2 && first == segs[0] && segs[1] != ""
    requires first != "" && !IsWildcard(first) && !IsParameter(first)
    requires !IsWildcard(second) && (IsParameter(second) || second == segs[1])
    ensures PatternMatches([first, second], segs)
    ensures Captured([first, second], segs) == if IsParameter(second) then [segs[1]] else []
  {
    hide IsWildcard, IsParameter;
    BelowOne(second, [], [segs[1]], []);
    BelowOne(first, [second], segs, []);
    assert [first] + [second] == [first, second] && [second] + [] == [second];
    assert segs[1..] == [segs[1]] && [segs[1]][1..] == [] && Captured([], []) == [];
  }

  /** "/users/:id" is called before "/users/1", and behind "/users/user", whichever has been added first. */
  lemma ParameterShadowsOne(high: bool, v: nat, w: nat)
    ensures var users, id, one, user := Hop("users", high), Hop(":id", high), Hop("1", high), Hop("user", high);
            && Precedes(Entry([users, id], v), Entry([users, one], w))
            && Precedes(Entry([users, user], w), Entry([users, id], v))
            && Serve([Entry([users, id], v), Entry([users, one], w)], ["users", "1"], [])
               == [Call(v % HANDLER_IDS, ["1"]), Call(w % HANDLER_IDS, [])]
  {
    hide PatternMatches, Captured, Names, Serve, Less, Precedes;
    var users, id, one, user := Hop("users", high), Hop(":id", high), Hop("1", high), Hop("user", high);
    LessByFirst("1", ":id");
    LessByFirst(":id", "user");
    PrecedesAtSecond(users, id, one, v, w);
    PrecedesAtSecond(users, user, id, w, v);
    ServeTwo(Entry([users, id], v), Entry([users, one], w), ["users", "1"]);
    NamesOfTwo(users, id);
    NamesOfTwo(users, one);
    MatchesTwo("users", ":id", ["users", "1"]);
    MatchesTwo("users", "1", ["users", "1"]);
    assert [] + ["1"] == ["1"];
    var none: seq<string> := [];
    assert none + none == none && IsParameter(":id") && !IsParameter("1");
    assert ServeOne(Entry([users, id], v), ["users", "1"], []) == [Call(v % HANDLER_IDS, ["1"])];
    assert ServeOne(Entry([users, one], w), ["users", "1"], []) == [Call(w % HANDLER_IDS, [])];
  }
}
