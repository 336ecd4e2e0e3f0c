/** What patterns, URLs and priorities mean to whoever writes routes, told by positions and characters. */
module RouteMeaning {
  import opened Places
  import opened TopicMatch
  import opened HttpRouting
  import opened HttpRouters

  // ---- URLs ----

  /** Segments, each after a slash. */
  function Slashed(segs: seq<string>): (url: string) {
    if segs == [] then "" else "/" + segs[0] + Slashed(segs[1..])
  }

  predicate NoSlashes(segs: seq<string>) {
    forall i :: 0 <= i < |segs| ==> '/' !in segs[i]
  }

  /** Splitting loses nothing but the first character, for which a slash is taken; and segments hold no slash. */
  lemma {:induction false} SplitJoins(url: string)
    requires url != ""
    ensures Slashed(Split(url)) == "/" + url[1..] && NoSlashes(Split(url))
    decreases |url|
  {
    hide Find, Slashed;
    var rest := url[1..];
    FindSkips(rest, '/', 0);
    var n := Find(rest, '/', 0);
    if n == -1 {
      SlashedOne(rest);
    } else {
      SplitJoins(rest[n..]);
      assert Split(url) == [rest[..n]] + Split(rest[n..]);
      SlashedCons(rest[..n], Split(rest[n..]));
      SlashFirst(rest, n);
    }
  }

  lemma SlashedOne(seg: string)
    ensures Slashed([seg]) == "/" + seg
  {
    assert "/" + seg + Slashed([]) == "/" + seg;
  }

  lemma SlashedCons(first: string, segs: seq<string>)
    ensures Slashed([first] + segs) == "/" + first + Slashed(segs)
  {
    assert ([first] + segs)[1..] == segs;
  }

  lemma SlashFirst(rest: string, n: nat)
    requires n < |rest| && rest[n] == '/'
    ensures "/" + rest[..n] + ("/" + rest[n..][1..]) == "/" + rest
  {
    assert rest == rest[..n] + ("/" + rest[n..][1..]);
  }

  lemma SplitCons(first: string, more: string)
    requires '/' !in first && (more != "" ==> more[0] == '/')
    ensures Split("/" + first + more) == [first] + if more == "" then [] else Split(more)
  {
    hide Find;
    var url := "/" + first + more;
    assert url[1..] == first + more;
    FindFirst(first, more);
    var rest := first + more;
    assert rest[..|first|] == first && rest[|first|..] == more && (more == "" ==> rest == first);
    assert Split(url) == var n := Find(rest, '/', 0);
                         if n == -1 then [rest] else [rest[..n]] + Split(rest[n..]);
  }

  /** The segments of a path that is written with slashes are what stands between them. */
  lemma {:induction false} SlashedSplits(segs: seq<string>)
    requires NoSlashes(segs)
    ensures Split(Slashed(segs)) == segs
  {
    hide Split;
    if segs == [] {
      NothingSplits();
    } else {
      SlashedSplits(segs[1..]);
      SlashedIsSome(segs[1..]);
      SplitCons(segs[0], Slashed(segs[1..]));
      assert segs == [segs[0]] + segs[1..];
    }
  }

  lemma NothingSplits()
    ensures Split("") == []
  {
  }

  /** Of more than a hundred segments the router looks at the first hundred. */
  lemma HundredSegments(segs: seq<string>)
    requires NoSlashes(segs)
    ensures Segments100(Slashed(segs)) == if |segs| <= 100 then segs else segs[..100]
  {
    hide Split, Slashed;
    SlashedSplits(segs);
  }

  lemma SlashedIsSome(segs: seq<string>)
    ensures segs != [] ==> Slashed(segs) != "" && Slashed(segs)[0] == '/'
  {
  }

  lemma FindFirst(first: string, more: string)
    requires '/' !in first && (more != "" ==> more[0] == '/')
    ensures Find(first + more, '/', 0) == if more == "" then -1 else |first|
  {
    hide Find;
    var s := first + more;
    FindSkips(s, '/', 0);
    FindStands(s, '/', 0);
    if more != "" {
      assert s[|first|] == '/';
    }
  }

  lemma {:induction false} FindStands(s: string, c: char, start: nat)
    requires start <= |s|
    ensures var i := Find(s, c, start); i == -1 || (start <= i < |s| && s[i] == c)
    decreases |s| - start
  {
    if start < |s| && s[start] != c {
      FindStands(s, c, start + 1);
    }
  }

  // ---- Patterns ----

  predicate StartsWith(name: string, c: char) { name != "" && name[0] == c }

  /** A part of a pattern that is no wildcard and one segment: a parameter takes any that is not empty. */
  predicate Takes(name: string, seg: string) {
    if StartsWith(name, ':') then seg != "" else name == seg
  }

  /** The first `n` parts take the first `n` segments. */
  predicate TakeAll(pattern: seq<string>, segs: seq<string>, n: nat)
    requires n <= |pattern| && n <= |segs|
  {
    forall i :: 0 <= i < n ==> !StartsWith(pattern[i], '*') && Takes(pattern[i], segs[i])
  }

  /** Part by part; a wildcard at the end takes one segment or more. */
  predicate Means(pattern: seq<string>, segs: seq<string>) {
    || (|pattern| == |segs| && TakeAll(pattern, segs, |pattern|))
    || (0 < |pattern| <= |segs| && StartsWith(pattern[|pattern| - 1], '*') && TakeAll(pattern, segs, |pattern| - 1))
  }

  lemma MeansNext(pattern: seq<string>, segs: seq<string>)
    requires pattern != [] && segs != [] && !StartsWith(pattern[0], '*')
    ensures Means(pattern, segs) <==> Takes(pattern[0], segs[0]) && Means(pattern[1..], segs[1..])
  {
    hide StartsWith, Takes;
    var p, s := pattern[1..], segs[1..];
    if Takes(pattern[0], segs[0]) {
      forall n: nat | n <= |p| && n <= |s| ensures TakeAll(p, s, n) <==> TakeAll(pattern, segs, n + 1) {
        TakeOneMore(pattern, segs, n);
      }
      if p == [] {
        assert Means(p, s) <==> s == [];
      } else {
        assert pattern[|pattern| - 1] == p[|p| - 1];
        if |p| <= |s| {
          assert TakeAll(p, s, |p| - 1) <==> TakeAll(pattern, segs, |pattern| - 1);
        }
        if |p| == |s| {
          assert TakeAll(p, s, |p|) <==> TakeAll(pattern, segs, |pattern|);
        }
      }
    }
  }

  lemma TakeOneMore(pattern: seq<string>, segs: seq<string>, n: nat)
    requires pattern != [] && segs != [] && n < |pattern| && n < |segs|
    requires !StartsWith(pattern[0], '*') && Takes(pattern[0], segs[0])
    ensures TakeAll(pattern[1..], segs[1..], n) <==> TakeAll(pattern, segs, n + 1)
  {
    hide StartsWith, Takes;
    if TakeAll(pattern[1..], segs[1..], n) {
      forall i | 0 <= i < n + 1 ensures !StartsWith(pattern[i], '*') && Takes(pattern[i], segs[i]) {
        if i > 0 {
          assert pattern[i] == pattern[1..][i - 1] && segs[i] == segs[1..][i - 1];
        }
      }
    }
    if TakeAll(pattern, segs, n + 1) {
      forall i | 0 <= i < n ensures !StartsWith(pattern[1..][i], '*') && Takes(pattern[1..][i], segs[1..][i]) {
        assert pattern[i + 1] == pattern[1..][i] && segs[i + 1] == segs[1..][i];
      }
    }
  }

  /** A pattern matches exactly what it means. */
  lemma {:induction false} MatchMeans(pattern: seq<string>, segs: seq<string>)
    ensures PatternMatches(pattern, segs) <==> Means(pattern, segs)
    decreases |pattern|
  {
    hide Takes, TakeAll;
    if pattern == [] || segs == [] {
      NothingMeans(pattern, segs);
    } else if StartsWith(pattern[0], '*') {
      WildcardMeans(pattern, segs);
    } else {
      MatchMeans(pattern[1..], segs[1..]);
      MeansNext(pattern, segs);
      OneMatches(pattern[0], segs[0]);
    }
  }

  lemma NothingMeans(pattern: seq<string>, segs: seq<string>)
    requires pattern == [] || segs == []
    ensures Means(pattern, segs) <==> pattern == [] && segs == []
  {
  }

  lemma WildcardMeans(pattern: seq<string>, segs: seq<string>)
    requires pattern != [] && segs != [] && StartsWith(pattern[0], '*')
    ensures Means(pattern, segs) <==> |pattern| == 1
  {
    hide StartsWith, Takes;
    if |pattern| == 1 {
      assert TakeAll(pattern, segs, 0);
    } else if |pattern| <= |segs| {
      assert !TakeAll(pattern, segs, |pattern| - 1);
      assert !TakeAll(pattern, segs, |pattern|);
    }
  }

  lemma OneMatches(name: string, seg: string)
    ensures (if IsParameter(name) && seg != "" then true else name == seg) <==> Takes(name, seg)
  {
  }

  /** The places of the parameters. */
  ghost predicate ParametersAt(pattern: seq<string>, at: seq<nat>) {
    && Increasing(at) && Inside(at, |pattern|)
    && forall i: nat :: i in at <==> i < |pattern| && StartsWith(pattern[i], ':')
  }

  /** A pattern that matches captures the segments at the places of its parameters. */
  lemma {:induction false} CapturedMeans(pattern: seq<string>, segs: seq<string>) returns (at: seq<nat>)
    requires PatternMatches(pattern, segs)
    ensures ParametersAt(pattern, at) && Inside(at, |segs|) && Captured(pattern, segs) == Picked(segs, at)
    decreases |pattern|
  {
    hide StartsWith;
    if pattern == [] || IsWildcard(pattern[0]) {
      at := [];
      WildcardIsAlone(pattern, segs);
    } else {
      var rest := CapturedMeans(pattern[1..], segs[1..]);
      var here := IsParameter(pattern[0]) && segs[0] != "";
      ParameterIsHere(pattern[0], segs[0]);
      at := Shifted(here, rest);
      ShiftedIsRight(pattern, here, rest);
      ShiftedPicks(segs, here, rest);
    }
  }

  /** Places in a tail, seen from the whole, and the first place with them if it is one of them. */
  function Shifted(here: bool, rest: seq<nat>): (at: seq<nat>) {
    var moved := seq(|rest|, k requires 0 <= k < |rest| => rest[k] + 1);
    if here then [0] + moved else moved
  }

  lemma ShiftedIsRight(pattern: seq<string>, here: bool, rest: seq<nat>)
    requires pattern != [] && ParametersAt(pattern[1..], rest) && (here <==> StartsWith(pattern[0], ':'))
    ensures ParametersAt(pattern, Shifted(here, rest))
  {
    hide StartsWith;
    var at := Shifted(here, rest);
    forall i: nat ensures i in at <==> i < |pattern| && StartsWith(pattern[i], ':') {
      if i == 0 {
        assert here ==> at[0] == 0;
      } else {
        ShiftedHas(here, rest, i);
        assert i < |pattern| ==> pattern[i] == pattern[1..][i - 1];
      }
    }
  }

  lemma ShiftedHas(here: bool, rest: seq<nat>, i: nat)
    requires i > 0
    ensures i in Shifted(here, rest) <==> i - 1 in rest
  {
    var at, d := Shifted(here, rest), if here then 1 else 0;
    if k :| 0 <= k < |rest| && rest[k] == i - 1 {
      assert at[k + d] == i;
    }
    if k :| 0 <= k < |at| && at[k] == i {
      assert k >= d && rest[k - d] == i - 1;
    }
  }

  lemma ShiftedPicks(segs: seq<string>, here: bool, rest: seq<nat>)
    requires segs != [] && Inside(rest, |segs| - 1)
    ensures Inside(Shifted(here, rest), |segs|)
    ensures Picked(segs, Shifted(here, rest)) == (if here then [segs[0]] else []) + Picked(segs[1..], rest)
  {
    var at, d := Shifted(here, rest), if here then 1 else 0;
    forall k | 0 <= k < |rest| ensures segs[at[k + d]] == segs[1..][rest[k]] {
      assert at[k + d] == rest[k] + 1;
    }
  }

  lemma ParameterIsHere(name: string, seg: string)
    requires (IsParameter(name) && seg != "") || name == seg
    ensures IsParameter(name) && seg != "" <==> StartsWith(name, ':')
  {
  }

  lemma WildcardIsAlone(pattern: seq<string>, segs: seq<string>)
    requires PatternMatches(pattern, segs) && (pattern == [] || IsWildcard(pattern[0]))
    ensures ParametersAt(pattern, []) && Captured(pattern, segs) == [] == Picked(segs, [])
  {
  }

  // ---- Tables ----

  /** The places of the entries that match. */
  ghost predicate MatchesAt(t: seq<Entry>, segs: seq<string>, at: seq<nat>) {
    && Increasing(at) && Inside(at, |t|)
    && forall i: nat :: i in at <==> i < |t| && Means(Names(t[i].path), segs)
  }

  /** An entry is called by its number, and can read what its pattern captures. */
  function CallOf(e: Entry, segs: seq<string>): Call {
    Call(e.value % 0x1000_0000, Captured(Names(e.path), segs))
  }

  function CallsOf(t: seq<Entry>, segs: seq<string>, at: seq<nat>): (calls: seq<Call>)
    requires Inside(at, |t|)
  {
    seq(|at|, k requires 0 <= k < |at| => CallOf(t[at[k]], segs))
  }

  lemma ShiftedMatches(t: seq<Entry>, segs: seq<string>, here: bool, rest: seq<nat>)
    requires t != [] && MatchesAt(t[1..], segs, rest) && (here <==> Means(Names(t[0].path), segs))
    ensures MatchesAt(t, segs, Shifted(here, rest))
  {
    hide Means;
    var at := Shifted(here, rest);
    forall i: nat ensures i in at <==> i < |t| && Means(Names(t[i].path), segs) {
      if i == 0 {
        assert here ==> at[0] == 0;
      } else {
        ShiftedHas(here, rest, i);
        assert i < |t| ==> t[i] == t[1..][i - 1];
      }
    }
  }

  lemma ShiftedCalls(t: seq<Entry>, segs: seq<string>, here: bool, rest: seq<nat>)
    requires t != [] && Inside(rest, |t| - 1)
    ensures Inside(Shifted(here, rest), |t|)
    ensures CallsOf(t, segs, Shifted(here, rest))
         == (if here then [CallOf(t[0], segs)] else []) + CallsOf(t[1..], segs, rest)
  {
    hide CallOf;
    var at, d := Shifted(here, rest), if here then 1 else 0;
    forall k | 0 <= k < |rest| ensures t[at[k + d]] == t[1..][rest[k]] {
      assert at[k + d] == rest[k] + 1;
    }
  }

  /** The entries of a table that match lead to calls, from top to bottom, with what their patterns capture. */
  lemma {:induction false} ServeMeans(t: seq<Entry>, segs: seq<string>) returns (at: seq<nat>)
    ensures MatchesAt(t, segs, at) && Serve(t, segs, []) == CallsOf(t, segs, at)
    decreases |t|
  {
    hide Means, PatternMatches, Captured, MatchesAt, Shifted, Increasing;
    if t == [] {
      at := [];
      NoEntries(segs);
    } else {
      var rest := ServeMeans(t[1..], segs);
      MatchMeans(Names(t[0].path), segs);
      var here := PatternMatches(Names(t[0].path), segs);
      at := Shifted(here, rest);
      assert [] + Captured(Names(t[0].path), segs) == Captured(Names(t[0].path), segs);
      PlacesInside(t[1..], segs, rest);
      ShiftedMatches(t, segs, here, rest);
      ShiftedCalls(t, segs, here, rest);
    }
  }

  lemma PlacesInside(t: seq<Entry>, segs: seq<string>, at: seq<nat>)
    requires MatchesAt(t, segs, at)
    ensures Inside(at, |t|)
  {
  }

  lemma NoEntries(segs: seq<string>)
    ensures MatchesAt([], segs, []) && Serve([], segs, []) == CallsOf([], segs, [])
  {
  }

  // ---- Priorities ----

  /** Handlers of one pattern: a higher priority comes first, and of one priority the older handler. */
  lemma PriorityDecides(p: Priority, i: nat, q: Priority, j: nat)
    requires i < 0x1000_0000 && j < 0x1000_0000
    ensures Bits(p) + i < Bits(q) + j <==>
            || (p.High? && !q.High?) || (p.Medium? && q.Low?) || (p == q && i < j)
    ensures (Bits(p) + i) % 0x1000_0000 == i && Bits(p) + i < 0x1_0000_0000
  {
  }
}
