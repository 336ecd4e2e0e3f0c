/** Topic filters: how a topic is cut into segments and which filters it matches. */
module TopicMatch {

  type Path = seq<string>

  const PLUS: string := "+"
  const HASH: string := "#"

  /** std::string_view::find: the first place of `c` from `start` on, or -1 for npos. */
  function Find(s: string, c: char, start: nat): (i: int)
    requires start <= |s|
    ensures i == -1 || start <= i < |s|
    ensures i != -1 ==> s[i] == c
    decreases |s| - start
  {
    if start == |s| then -1
    else if s[start] == c then start
    else Find(s, c, start + 1)
  }

  /** The segments of `topic` from `start` on; there is always at least one. */
  function Segments(topic: string, start: nat): (r: Path)
    requires start <= |topic|
    ensures r != []
    decreases |topic| - start
  {
    var stop := Find(topic, '/', start);
    if stop == -1 then [topic[start..]] else [topic[start..stop]] + Segments(topic, stop + 1)
  }

  lemma SegmentsAre(topic: string, start: nat)
    requires start <= |topic|
    ensures var stop := Find(topic, '/', start);
            Segments(topic, start)
            == if stop == -1 then [topic[start..]] else [topic[start..stop]] + Segments(topic, stop + 1)
  {
    hide Find;
  }

  /** Segments joined by slashes. */
  function Join(p: Path): string
    requires p != []
  {
    if |p| == 1 then p[0] else p[0] + "/" + Join(p[1..])
  }

  lemma {:induction false} FindSkips(s: string, c: char, start: nat)
    requires start <= |s|
    ensures var i := Find(s, c, start);
            forall j :: start <= j < (if i == -1 then |s| else i) ==> s[j] != c
    decreases |s| - start
  {
    if start < |s| && s[start] != c {
      FindSkips(s, c, start + 1);
    }
  }

  lemma JoinCons(first: string, rest: Path)
    requires rest != []
    ensures Join([first] + rest) == first + "/" + Join(rest)
  {
    assert ([first] + rest)[1..] == rest;
  }

  /** Cutting a topic into segments loses nothing, and no segment holds a slash. */
  lemma {:induction false} SegmentsJoin(topic: string, start: nat)
    requires start <= |topic|
    ensures Join(Segments(topic, start)) == topic[start..]
    ensures forall k :: 0 <= k < |Segments(topic, start)| ==> '/' !in Segments(topic, start)[k]
    decreases |topic| - start
  {
    hide Find, Join;
    FindSkips(topic, '/', start);
    var stop := Find(topic, '/', start);
    if stop != -1 {
      SegmentsJoin(topic, stop + 1);
      var first, rest := topic[start..stop], Segments(topic, stop + 1);
      JoinCons(first, rest);
      assert topic[start..] == first + "/" + topic[stop + 1..];
    } else {
      JoinOne(topic[start..]);
    }
  }

  lemma JoinOne(seg: string)
    ensures Join([seg]) == seg
  {
  }

  /**
   The matching relation of the tree. A `#` takes one or more remaining segments, a `+` exactly one; wildcards
   also stand among the literal children, so they match themselves.
   */
  predicate Matches(filter: Path, topic: Path)
    decreases |topic|
  {
    if topic == [] then filter == []
    else if filter == [] then false
    else
      || filter == [HASH]
      || (filter[0] == PLUS && Matches(filter[1..], topic[1..]))
      || (filter[0] == topic[0] && Matches(filter[1..], topic[1..]))
  }

  /** `p` is the node `q` itself or lies below it, and the rest of its path matches `rest`. */
  predicate Under(p: Path, q: Path, rest: Path) {
    |q| <= |p| && p[..|q|] == q && Matches(p[|q|..], rest)
  }

  /** One step down the tree: what lies under `q` by a longer topic lies under one of three children. */
  lemma UnderStep(p: Path, q: Path, rest: Path)
    requires rest != []
    ensures Under(p, q, rest) <==>
            p == q + [HASH] || Under(p, q + [PLUS], rest[1..]) || Under(p, q + [rest[0]], rest[1..])
  {
    hide Matches;
    MatchesStep(if |q| <= |p| then p[|q|..] else [], rest);
    if |q| <= |p| && p[..|q|] == q {
      if |q| == |p| {
        assert p[|q|..] == [];
      } else {
        var seg := p[|q|];
        assert p[..|q| + 1] == q + [seg];
        assert p[|q|..][1..] == p[|q| + 1..] && p[|q|..][0] == seg;
        if p[|q|..] == [HASH] {
          assert p == q + [HASH];
        }
      }
    }
    if p == q + [HASH] {
      assert p[|q|..] == [HASH] && p[..|q|] == q;
    }
    if |q| + 1 <= |p| && (p[..|q| + 1] == q + [PLUS] || p[..|q| + 1] == q + [rest[0]]) {
      assert p[..|q|] == p[..|q| + 1][..|q|] == q;
    }
  }

  lemma MatchesStep(f: Path, rest: Path)
    requires rest != []
    ensures Matches(f, rest) <==>
            f != [] && (f == [HASH] || ((f[0] == PLUS || f[0] == rest[0]) && Matches(f[1..], rest[1..])))
  {
  }

  /** The first `n` segments of a filter stand for those of a topic. */
  predicate StandFor(filter: Path, topic: Path, n: nat)
    requires n <= |filter| && n <= |topic|
  {
    forall i :: 0 <= i < n ==> filter[i] == "+" || filter[i] == topic[i]
  }

  /** Segment by segment; a "#" in last place stands for one segment or more. */
  predicate Means(filter: Path, topic: Path) {
    || (|filter| == |topic| && StandFor(filter, topic, |filter|))
    || (0 < |filter| <= |topic| && filter[|filter| - 1] == "#" && StandFor(filter, topic, |filter| - 1))
  }

  lemma StandOneMore(filter: Path, topic: Path, n: nat)
    requires n < |filter| && n < |topic|
    ensures StandFor(filter, topic, n + 1)
       <==> (filter[0] == "+" || filter[0] == topic[0]) && StandFor(filter[1..], topic[1..], n)
  {
    if (filter[0] == "+" || filter[0] == topic[0]) && StandFor(filter[1..], topic[1..], n) {
      forall i | 0 <= i < n + 1 ensures filter[i] == "+" || filter[i] == topic[i] {
        if i > 0 {
          assert filter[i] == filter[1..][i - 1] && topic[i] == topic[1..][i - 1];
        }
      }
    }
    if StandFor(filter, topic, n + 1) {
      forall i | 0 <= i < n ensures filter[1..][i] == "+" || filter[1..][i] == topic[1..][i] {
        assert filter[1..][i] == filter[i + 1] && topic[1..][i] == topic[i + 1];
      }
    }
  }

  /** A filter matches exactly the topics that it means. */
  lemma {:induction false} MatchesMeans(filter: Path, topic: Path)
    ensures Matches(filter, topic) <==> Means(filter, topic)
    decreases |topic|
  {
    hide StandFor;
    if filter != [] && topic != [] {
      MatchesMeans(filter[1..], topic[1..]);
      NothingStands(filter, topic);
      var n := |filter| - 1;
      if |filter| == |topic| {
        StandOneMore(filter, topic, n);
      }
      if 2 <= |filter| <= |topic| {
        StandOneMore(filter, topic, n - 1);
      }
    } else {
      NothingStands(filter, topic);
    }
  }

  lemma NothingStands(filter: Path, topic: Path)
    ensures StandFor(filter, topic, 0)
  {
  }

  lemma UnderNothing(p: Path, q: Path)
    ensures Under(p, q, []) <==> p == q
  {
    if |q| <= |p| && p[..|q|] == q && p[|q|..] == [] {
      assert p == p[..|q|] + p[|q|..];
    }
    if p == q {
      assert p[..|q|] == q && p[|q|..] == [];
    }
  }

  lemma UnderRoot(p: Path, topic: Path)
    ensures Under(p, [], topic) <==> Matches(p, topic)
  {
    assert p[0..] == p;
  }

  // ---- Comparison with MQTT ----

  /** Sections 4.7.1.2 and 4.7.1.3 of MQTT 3.1.1: `#`, in last place, takes the parent and any number of levels. */
  predicate MqttMatches(filter: Path, topic: Path)
    decreases |filter|
  {
    if filter == [] then topic == []
    else if filter == [HASH] then true
    else topic != [] && (filter[0] == PLUS || filter[0] == topic[0]) && MqttMatches(filter[1..], topic[1..])
  }

  predicate NoWildcards(topic: Path) {
    PLUS !in topic && HASH !in topic
  }

  /** MQTT allows `#` in the last place only. */
  predicate HashOnlyLast(filter: Path) {
    forall i :: 0 <= i < |filter| - 1 ==> filter[i] != HASH
  }

  /** The filter ends in `#`, and what precedes it matches the whole topic. */
  predicate ParentLevel(filter: Path, topic: Path) {
    filter != [] && filter[|filter| - 1] == HASH && Matches(filter[..|filter| - 1], topic)
  }

  /**
   On topics without wildcards the tree departs from MQTT in exactly one way: a filter ending in `#` does not
   match its own parent level.
   */
  lemma {:induction false} MatchesAndMqtt(filter: Path, topic: Path)
    requires NoWildcards(topic) && HashOnlyLast(filter)
    ensures MqttMatches(filter, topic) <==> Matches(filter, topic) || ParentLevel(filter, topic)
    decreases |filter|
  {
    if |filter| >= 2 && topic != [] {
      assert filter[0] != HASH;
      MatchesAndMqtt(filter[1..], topic[1..]);
      var front := filter[..|filter| - 1];
      assert front[1..] == filter[1..][..|filter| - 2] && front[0] == filter[0] && front != [HASH];
    } else if |filter| == 1 {
      assert filter[..0] == [] && filter[1..] == [];
    }
  }

  lemma HashMissesItsParent()
    ensures MqttMatches(["a", "#"], ["a"]) && !Matches(["a", "#"], ["a"])
  {
    assert ["a", "#"][1..] == ["#"] && ["a"][1..] == [];
  }
}
