/** The k-way merge at the heart of a drain: subscriber sets on one side, pending messages on the other. */
module TopicMerge {
  import opened TopicMatch
  import opened TopicBatch

  const UINTPTR_MAX: nat := 0xFFFF_FFFF_FFFF_FFFF

  /** A std::set of addresses, as it is iterated over. */
  predicate Sorted(s: seq<nat>) {
    && (forall i, j :: 0 <= i < j < |s| ==> s[i] < s[j])
    && (forall i :: 0 <= i < |s| ==> s[i] < UINTPTR_MAX)
  }

  /** Pending messages are published messages under their ids. */
  ghost predicate Genuine(published: seq<Message>, batch: map<nat, Message>) {
    forall id :: id in batch ==> id < |published| && batch[id] == published[id]
  }

  // ---- One batch out of several ----

  ghost function AllIds(batches: seq<map<nat, Message>>): (ids: set<nat>)
  {
    if batches == [] then {} else AllIds(batches[..|batches| - 1]) + batches[|batches| - 1].Keys
  }

  lemma AllIdsSnoc(batches: seq<map<nat, Message>>, batch: map<nat, Message>)
    ensures AllIds(batches + [batch]) == AllIds(batches) + batch.Keys
  {
    assert (batches + [batch])[..|batches|] == batches;
  }

  lemma {:induction false} CollectLast(published: seq<Message>, ids: set<nat>, id: nat)
    requires id < |published| && forall i :: i in ids ==> i < id
    ensures Collect(published, ids + {id}) == Append(Collect(published, ids), published[id])
  {
    var n := |published| - 1;
    if id == n {
      CollectOf(published[..n], ids, ids + {id});
    } else {
      CollectLast(published[..n], ids, id);
    }
  }

  method Least(s: set<nat>) returns (m: nat)
    requires s != {}
    ensures m in s && forall i :: i in s ==> m <= i
  {
    m :| m in s;
    var rest := s - {m};
    while rest != {}
      invariant rest <= s && m in s && forall i :: i in s ==> i in rest || m <= i
      decreases |rest|
    {
      var i :| i in rest;
      if i < m {
        m := i;
      }
      rest := rest - {i};
    }
  }

  /** Ids divided into those up to some id and those behind it. */
  ghost predicate Divided(ids: set<nat>, done: set<nat>, rest: set<nat>) {
    done + rest == ids && done !! rest && forall i, j :: i in done && j in rest ==> i < j
  }

  lemma DividedNext(ids: set<nat>, done: set<nat>, rest: set<nat>, id: nat)
    requires Divided(ids, done, rest) && id in rest && forall j :: j in rest ==> id <= j
    ensures id in ids && Divided(ids, done + {id}, rest - {id}) && |rest - {id}| < |rest|
    ensures forall i :: i in done ==> i < id
  {
  }

  /** Joins the messages of a std::map in the order in which it iterates, by ascending id. */
  method Linear(complete: map<nat, Message>, ghost published: seq<Message>) returns (res: Message)
    requires Genuine(published, complete)
    ensures res == Collect(published, complete.Keys)
  {
    hide Collect, Append;
    res := NOTHING;
    var rest := complete.Keys;
    ghost var done: set<nat> := {};
    CollectNone(published, done);
    while rest != {}
      invariant Divided(complete.Keys, done, rest)
      invariant res == Collect(published, done)
      decreases |rest|
    {
      var id := Least(rest);
      DividedNext(complete.Keys, done, rest, id);
      CollectLast(published, done, id);
      res := Append(res, complete[id]);
      rest := rest - {id};
      done := done + {id};
    }
    assert done == complete.Keys;
  }

  /** The duplicate-free union of several batches, joined in order of id. */
  method Union(batches: seq<map<nat, Message>>, ghost published: seq<Message>) returns (res: Message)
    requires forall i :: 0 <= i < |batches| ==> Genuine(published, batches[i])
    ensures res == Collect(published, AllIds(batches))
  {
    hide Collect, AllIds, Genuine;
    var complete: map<nat, Message> := map[];
    EmptyUnion(published);
    assert batches[..0] == [];
    for i := 0 to |batches|
      invariant complete.Keys == AllIds(batches[..i]) && Genuine(published, complete)
    {
      assert batches[..i + 1] == batches[..i] + [batches[i]];
      AllIdsSnoc(batches[..i], batches[i]);
      GenuineUnion(published, batches[i], complete);
      complete := batches[i] + complete;
    }
    assert batches[..|batches|] == batches;
    res := Linear(complete, published);
  }

  lemma EmptyUnion(published: seq<Message>)
    ensures AllIds([]) == {} && Genuine(published, map[])
  {
  }

  lemma GenuineUnion(published: seq<Message>, a: map<nat, Message>, b: map<nat, Message>)
    requires Genuine(published, a) && Genuine(published, b)
    ensures Genuine(published, a + b) && (a + b).Keys == b.Keys + a.Keys
  {
  }

  // ---- The merge ----

  /** Sets of subscribers with what is pending for each set, as a drain finds them. */
  ghost predicate Mergeable(sets: seq<seq<nat>>, batches: seq<map<nat, Message>>, published: seq<Message>) {
    && |sets| == |batches|
    && (forall i :: 0 <= i < |sets| ==> Sorted(sets[i]))
    && (forall i :: 0 <= i < |batches| ==> Genuine(published, batches[i]))
  }

  /** Positions inside, or just after, each set. */
  predicate Positions(sets: seq<seq<nat>>, its: seq<nat>) {
    |its| == |sets| && forall i :: 0 <= i < |sets| ==> its[i] <= |sets[i]|
  }

  /** The `i`th iterator stands on `a`. */
  predicate StandsOn(sets: seq<seq<nat>>, its: seq<nat>, i: nat, a: nat)
    requires Positions(sets, its) && i < |sets|
  {
    its[i] < |sets[i]| && sets[i][its[i]] == a
  }

  /** `min` is the least address any iterator stands on, or the sentinel if all have come to their end. */
  ghost predicate IsLeast(sets: seq<seq<nat>>, its: seq<nat>, min: nat)
    requires Positions(sets, its)
  {
    && min <= UINTPTR_MAX
    && (forall i :: 0 <= i < |sets| && its[i] < |sets[i]| ==> min <= sets[i][its[i]])
    && (min < UINTPTR_MAX ==> exists i :: 0 <= i < |sets| && StandsOn(sets, its, i, min))
  }

  /** Everything below `min`, and nothing else, has been passed. */
  ghost predicate Passed(sets: seq<seq<nat>>, its: seq<nat>, min: nat)
    requires Positions(sets, its)
  {
    forall i, j :: 0 <= i < |sets| && 0 <= j < its[i] ==> sets[i][j] < min
  }

  /** How many iterators have not come to their end. */
  function CountOpen(sets: seq<seq<nat>>, its: seq<nat>): nat
    requires Positions(sets, its)
    decreases |sets|
  {
    if sets == [] then 0
    else
      var n := |sets| - 1;
      CountOpen(sets[..n], its[..n]) + (if its[n] < |sets[n]| then 1 else 0)
  }

  lemma CountOpenSnoc(sets: seq<seq<nat>>, its: seq<nat>, s: seq<nat>, it: nat)
    requires Positions(sets, its) && it <= |s|
    ensures Positions(sets + [s], its + [it])
    ensures CountOpen(sets + [s], its + [it]) == CountOpen(sets, its) + (if it < |s| then 1 else 0)
  {
    assert (sets + [s])[..|sets|] == sets && (its + [it])[..|its|] == its;
  }

  lemma {:induction false} NoneOpen(sets: seq<seq<nat>>, its: seq<nat>)
    requires Positions(sets, its)
    ensures CountOpen(sets, its) == 0 <==> forall i :: 0 <= i < |sets| ==> its[i] == |sets[i]|
    decreases |sets|
  {
    if sets != [] {
      var n := |sets| - 1;
      NoneOpen(sets[..n], its[..n]);
      assert forall i :: 0 <= i < n ==> sets[..n][i] == sets[i] && its[..n][i] == its[i];
    }
  }

  /** The ids pending at the sets in `key`. */
  ghost function IdsOf(batches: seq<map<nat, Message>>, key: set<nat>): (ids: set<nat>) {
    set i, id | i in key && i < |batches| && id in batches[i] :: id
  }

  /** The ids pending for subscriber `a`: those of all sets it is in. */
  ghost function IdsFor(sets: seq<seq<nat>>, batches: seq<map<nat, Message>>, a: nat): (ids: set<nat>)
    requires |sets| == |batches|
  {
    IdsOf(batches, Holding(sets, a))
  }

  ghost function Holding(sets: seq<seq<nat>>, a: nat): (key: set<nat>) {
    set i | 0 <= i < |sets| && a in sets[i]
  }

  /** Behind everything below `min`, the sets that hold `min` are those whose iterator stands on it. */
  lemma HoldingIsStanding(sets: seq<seq<nat>>, its: seq<nat>, min: nat, i: nat)
    requires Positions(sets, its) && i < |sets| && Sorted(sets[i]) && Passed(sets, its, min) && IsLeast(sets, its, min)
    ensures min in sets[i] <==> StandsOn(sets, its, i, min)
  {
    if j :| 0 <= j < |sets[i]| && sets[i][j] == min {
      assert its[i] <= j;
      assert min <= sets[i][its[i]];
    }
  }

  /** The iterators after one round: those that stood on `min` have moved on. */
  ghost predicate Moved(sets: seq<seq<nat>>, was: seq<nat>, now: seq<nat>, min: nat)
    requires Positions(sets, was)
  {
    && Positions(sets, now)
    && forall i :: 0 <= i < |sets| ==> now[i] == was[i] + (if StandsOn(sets, was, i, min) then 1 else 0)
  }

  // What holds of the first i sets holds of the first i + 1 when it holds of the next one.

  lemma MovedSnoc(sets: seq<seq<nat>>, was: seq<nat>, now: seq<nat>, min: nat, s: seq<nat>, w: nat, x: nat)
    requires Positions(sets, was) && Moved(sets, was, now, min) && w <= |s|
    requires x == if w < |s| && s[w] == min then w + 1 else w
    ensures Positions(sets + [s], was + [w]) && Moved(sets + [s], was + [w], now + [x], min)
  {
    var sets', was', now' := sets + [s], was + [w], now + [x];
    forall i | 0 <= i < |sets'|
      ensures now'[i] == was'[i] + (if StandsOn(sets', was', i, min) then 1 else 0)
    {
      if i < |sets| {
        assert StandsOn(sets', was', i, min) <==> StandsOn(sets, was, i, min);
      }
    }
  }

  lemma IsLeastSnoc(sets: seq<seq<nat>>, its: seq<nat>, least: nat, s: seq<nat>, x: nat)
    requires Positions(sets, its) && IsLeast(sets, its, least) && x <= |s| && Sorted(s)
    ensures Positions(sets + [s], its + [x])
    ensures IsLeast(sets + [s], its + [x], if x < |s| && s[x] < least then s[x] else least)
  {
    var sets', its' := sets + [s], its + [x];
    var least' := if x < |s| && s[x] < least then s[x] else least;
    if least' < UINTPTR_MAX {
      if least' == least {
        var i :| 0 <= i < |sets| && StandsOn(sets, its, i, least);
        assert StandsOn(sets', its', i, least);
      } else {
        assert StandsOn(sets', its', |sets|, least');
      }
    }
  }

  lemma IdsOfInsert(batches: seq<map<nat, Message>>, key: set<nat>, i: nat, chosen: seq<map<nat, Message>>)
    requires i < |batches| && AllIds(chosen) == IdsOf(batches, key)
    ensures AllIds(chosen + [batches[i]]) == IdsOf(batches, key + {i})
  {
    AllIdsSnoc(chosen, batches[i]);
    var ids := IdsOf(batches, key + {i});
    forall id: nat ensures id in ids <==> id in IdsOf(batches, key) || id in batches[i] {
      if id in IdsOf(batches, key) {
        var k :| k in key && k < |batches| && id in batches[k];
        assert k in key + {i};
      }
      if id in batches[i] {
        assert i in key + {i};
      }
    }
  }

  /** The iterators that stand on `min`, among the first `n`. */
  ghost function Standing(sets: seq<seq<nat>>, its: seq<nat>, min: nat, n: nat): (key: set<nat>)
    requires Positions(sets, its) && n <= |sets|
  {
    set i | 0 <= i < n && StandsOn(sets, its, i, min)
  }

  /**
   One round over all iterators: moves those that stand on `min`, gathers what is pending there, and finds the
   next least address.
   */
  method Round(sets: seq<seq<nat>>, batches: seq<map<nat, Message>>, was: seq<nat>, min: nat, nonEmpty: nat,
               ghost published: seq<Message>)
    returns (it: seq<nat>, nextMin: nat, intersection: set<nat>, chosen: seq<map<nat, Message>>, nonEmpty': int)
    requires Mergeable(sets, batches, published) && Positions(sets, was)
    requires nonEmpty == CountOpen(sets, was)
    ensures Positions(sets, it) && Moved(sets, was, it, min) && IsLeast(sets, it, nextMin)
    ensures intersection == Standing(sets, was, min, |sets|) && AllIds(chosen) == IdsOf(batches, intersection)
    ensures forall k :: 0 <= k < |chosen| ==> Genuine(published, chosen[k])
    ensures nonEmpty' == CountOpen(sets, it)
  {
    hide AllIds, IdsOf, CountOpen, Moved, IsLeast, Genuine, Sorted;
    it, nextMin, intersection, chosen := [], UINTPTR_MAX, {}, [];
    nonEmpty' := nonEmpty;
    RoundStart(sets, was, min, batches);
    for i := 0 to |sets|
      invariant Positions(sets[..i], was[..i]) && Positions(sets[..i], it)
      invariant Moved(sets[..i], was[..i], it, min) && IsLeast(sets[..i], it, nextMin)
      invariant intersection == Standing(sets, was, min, i) && AllIds(chosen) == IdsOf(batches, intersection)
      invariant forall k :: 0 <= k < |chosen| ==> Genuine(published, chosen[k])
      invariant nonEmpty - nonEmpty' == CountOpen(sets[..i], was[..i]) - CountOpen(sets[..i], it)
    {
      assert sets[..i + 1] == sets[..i] + [sets[i]] && was[..i + 1] == was[..i] + [was[i]];
      var x := was[i];
      if x < |sets[i]| && sets[i][x] == min {
        IdsOfInsert(batches, intersection, i, chosen);
        intersection := intersection + {i};
        chosen := chosen + [batches[i]];
        x := x + 1;
        if x == |sets[i]| {
          nonEmpty' := nonEmpty' - 1;
        }
      }
      MovedSnoc(sets[..i], was[..i], it, min, sets[i], was[i], x);
      IsLeastSnoc(sets[..i], it, nextMin, sets[i], x);
      CountOpenSnoc(sets[..i], was[..i], sets[i], was[i]);
      CountOpenSnoc(sets[..i], it, sets[i], x);
      if x < |sets[i]| && sets[i][x] < nextMin {
        nextMin := sets[i][x];
      }
      it := it + [x];
    }
    assert sets[..|sets|] == sets && was[..|sets|] == was;
  }

  lemma RoundStart(sets: seq<seq<nat>>, was: seq<nat>, min: nat, batches: seq<map<nat, Message>>)
    requires Positions(sets, was)
    ensures Positions(sets[..0], was[..0]) && Moved(sets[..0], was[..0], [], min) && IsLeast(sets[..0], [], UINTPTR_MAX)
    ensures AllIds([]) == IdsOf(batches, {}) && CountOpen(sets[..0], was[..0]) == CountOpen(sets[..0], []) == 0
    ensures Standing(sets, was, min, 0) == {}
  {
  }

  /** Each call so far is right, and everything passed has had its call. */
  ghost predicate CallsSoFar(sets: seq<seq<nat>>, batches: seq<map<nat, Message>>, published: seq<Message>,
                             its: seq<nat>, min: nat, calls: seq<Call>)
    requires Positions(sets, its) && |sets| == |batches|
  {
    && Ascending(calls)
    && (forall k :: 0 <= k < |calls| ==> calls[k].addr < min && RightCall(sets, batches, published, calls[k]))
    && (forall i, j :: 0 <= i < |sets| && 0 <= j < its[i] ==> Called(calls, sets[i][j]))
  }

  /** A call to a subscriber of some set, with everything pending for it, in order and without duplicates. */
  ghost predicate RightCall(sets: seq<seq<nat>>, batches: seq<map<nat, Message>>, published: seq<Message>, c: Call)
    requires |sets| == |batches|
  {
    Holding(sets, c.addr) != {} && c.data == Collect(published, IdsFor(sets, batches, c.addr))
  }

  ghost predicate Called(calls: seq<Call>, a: nat) {
    exists k :: 0 <= k < |calls| && calls[k].addr == a
  }

  /** What a drain must call: every subscriber of every set once, in ascending order. */
  ghost predicate Merged(sets: seq<seq<nat>>, batches: seq<map<nat, Message>>, published: seq<Message>,
                         calls: seq<Call>)
    requires |sets| == |batches|
  {
    && Ascending(calls)
    && (forall k :: 0 <= k < |calls| ==> RightCall(sets, batches, published, calls[k]))
    && (forall i, j :: 0 <= i < |sets| && 0 <= j < |sets[i]| ==> Called(calls, sets[i][j]))
  }

  lemma RoundPasses(sets: seq<seq<nat>>, was: seq<nat>, now: seq<nat>, min: nat, next: nat)
    requires forall i :: 0 <= i < |sets| ==> Sorted(sets[i])
    requires Positions(sets, was) && IsLeast(sets, was, min) && Passed(sets, was, min) && min < UINTPTR_MAX
    requires Moved(sets, was, now, min) && IsLeast(sets, now, next)
    ensures min < next && Passed(sets, now, next)
  {
    if next < UINTPTR_MAX {
      var i :| 0 <= i < |sets| && StandsOn(sets, now, i, next);
      assert min <= sets[i][was[i]] <= sets[i][now[i]];
      assert !StandsOn(sets, was, i, min) ==> sets[i][was[i]] != min;
    }
    forall i, j | 0 <= i < |sets| && 0 <= j < now[i]
      ensures sets[i][j] <= min
    {
      if j == was[i] {
        assert StandsOn(sets, was, i, min);
      }
    }
  }

  lemma StandingIsHolding(sets: seq<seq<nat>>, was: seq<nat>, min: nat)
    requires forall i :: 0 <= i < |sets| ==> Sorted(sets[i])
    requires Positions(sets, was) && IsLeast(sets, was, min) && Passed(sets, was, min) && min < UINTPTR_MAX
    ensures Standing(sets, was, min, |sets|) == Holding(sets, min) != {}
  {
    hide Sorted;
    forall i | 0 <= i < |sets| ensures i in Standing(sets, was, min, |sets|) <==> i in Holding(sets, min) {
      HoldingIsStanding(sets, was, min, i);
    }
    var i :| 0 <= i < |sets| && StandsOn(sets, was, i, min);
    assert i in Standing(sets, was, min, |sets|);
  }

  lemma RoundCalls(sets: seq<seq<nat>>, batches: seq<map<nat, Message>>, published: seq<Message>,
                   was: seq<nat>, now: seq<nat>, min: nat, next: nat, calls: seq<Call>, c: Call)
    requires |sets| == |batches| && Positions(sets, was) && CallsSoFar(sets, batches, published, was, min, calls)
    requires Moved(sets, was, now, min) && min < next
    requires c.addr == min && RightCall(sets, batches, published, c)
    ensures CallsSoFar(sets, batches, published, now, next, calls + [c])
  {
    hide RightCall;
    var calls' := calls + [c];
    assert calls'[|calls|] == c;
    forall i, j | 0 <= i < |sets| && 0 <= j < now[i]
      ensures Called(calls', sets[i][j])
    {
      if j < was[i] {
        assert Called(calls, sets[i][j]);
        var k :| 0 <= k < |calls| && calls[k].addr == sets[i][j];
        assert calls'[k].addr == sets[i][j];
      } else {
        assert StandsOn(sets, was, i, min);
      }
    }
  }

  /** Answers remembered by intersection are right for any subscriber in exactly that intersection. */
  ghost predicate CacheRight(cache: map<set<nat>, Message>, batches: seq<map<nat, Message>>, published: seq<Message>) {
    forall key :: key in cache ==> cache[key] == Collect(published, IdsOf(batches, key))
  }

  /**
   The merge: repeatedly calls the least subscriber not yet called with the union of what is pending for it,
   remembering unions by the intersection of sets they belong to.
   */
  method Merge(sets: seq<seq<nat>>, batches: seq<map<nat, Message>>, first: nat, ghost published: seq<Message>)
    returns (calls: seq<Call>)
    requires Mergeable(sets, batches, published) && forall i :: 0 <= i < |sets| ==> sets[i] != []
    requires IsLeast(sets, seq(|sets|, _ => 0), first)
    ensures Merged(sets, batches, published, calls)
  {
    hide Collect, Moved, IsLeast, Passed, CallsSoFar, CountOpen, IdsOf, Holding, Standing, Genuine, AllIds, Sorted,
         CacheRight;
    var it, min, nonEmpty := seq(|sets|, _ => 0), first, |sets|;
    var cache: map<set<nat>, Message> := map[];
    calls := [];
    MergeStart(sets, batches, published, it, min);
    while nonEmpty != 0
      invariant Positions(sets, it) && IsLeast(sets, it, min) && Passed(sets, it, min)
      invariant nonEmpty == CountOpen(sets, it)
      invariant CallsSoFar(sets, batches, published, it, min, calls)
      invariant CacheRight(cache, batches, published)
      decreases UINTPTR_MAX - min
    {
      OpenMeansLeast(sets, it, min);
      var it', nextMin, intersection, chosen, nonEmpty' := Round(sets, batches, it, min, nonEmpty, published);
      StandingIsHolding(sets, it, min);
      var data := if intersection in cache then cache[intersection] else NOTHING;
      if |data.inflated| == 0 {
        data := Union(chosen, published);
        CacheGrows(cache, batches, published, intersection, data);
        cache := cache[intersection := data];
      } else {
        CacheAnswers(cache, batches, published, intersection);
      }
      RoundPasses(sets, it, it', min, nextMin);
      RoundCalls(sets, batches, published, it, it', min, nextMin, calls, Call(min, data));
      calls := calls + [Call(min, data)];
      it, min, nonEmpty := it', nextMin, nonEmpty';
    }
    NoneOpen(sets, it);
    MergeEnd(sets, batches, published, it, min, calls);
  }

  lemma MergeStart(sets: seq<seq<nat>>, batches: seq<map<nat, Message>>, published: seq<Message>, it: seq<nat>,
                   min: nat)
    requires |sets| == |batches| && it == seq(|sets|, _ => 0) && forall i :: 0 <= i < |sets| ==> sets[i] != []
    ensures Positions(sets, it) && Passed(sets, it, min) && CallsSoFar(sets, batches, published, it, min, [])
    ensures CountOpen(sets, it) == |sets| && CacheRight(map[], batches, published)
  {
    AllOpen(sets, it);
  }

  lemma {:induction false} AllOpen(sets: seq<seq<nat>>, it: seq<nat>)
    requires Positions(sets, it) && forall i :: 0 <= i < |sets| ==> it[i] < |sets[i]|
    ensures CountOpen(sets, it) == |sets|
    decreases |sets|
  {
    if sets != [] {
      var n := |sets| - 1;
      assert forall i :: 0 <= i < n ==> sets[..n][i] == sets[i] && it[..n][i] == it[i];
      AllOpen(sets[..n], it[..n]);
    }
  }

  lemma OpenMeansLeast(sets: seq<seq<nat>>, it: seq<nat>, min: nat)
    requires Positions(sets, it) && IsLeast(sets, it, min) && CountOpen(sets, it) != 0
    requires forall i :: 0 <= i < |sets| ==> Sorted(sets[i])
    ensures min < UINTPTR_MAX
  {
    hide CountOpen;
    NoneOpen(sets, it);
  }

  lemma CacheGrows(cache: map<set<nat>, Message>, batches: seq<map<nat, Message>>, published: seq<Message>,
                   key: set<nat>, data: Message)
    requires CacheRight(cache, batches, published) && data == Collect(published, IdsOf(batches, key))
    ensures CacheRight(cache[key := data], batches, published)
  {
    hide Collect, IdsOf;
  }

  lemma CacheAnswers(cache: map<set<nat>, Message>, batches: seq<map<nat, Message>>, published: seq<Message>,
                     key: set<nat>)
    requires CacheRight(cache, batches, published) && key in cache
    ensures cache[key] == Collect(published, IdsOf(batches, key))
  {
    hide Collect, IdsOf;
  }

  lemma MergeEnd(sets: seq<seq<nat>>, batches: seq<map<nat, Message>>, published: seq<Message>,
                 it: seq<nat>, min: nat, calls: seq<Call>)
    requires |sets| == |batches| && Positions(sets, it) && forall i :: 0 <= i < |sets| ==> it[i] == |sets[i]|
    requires CallsSoFar(sets, batches, published, it, min, calls)
    ensures Merged(sets, batches, published, calls)
  {
    hide RightCall;
  }

  // ---- From the merge to what a drain owes ----

  ghost function AddrSet(s: seq<nat>): set<nat> {
    set a | a in s
  }

  /** std::set::insert: the address at its place, unless it is there already. */
  function InsertAddr(s: seq<nat>, a: nat): (r: seq<nat>) {
    if s == [] then [a]
    else if s[0] == a then s
    else if a < s[0] then [a] + s
    else [s[0]] + InsertAddr(s[1..], a)
  }

  lemma SortedCons(x: nat, rest: seq<nat>)
    requires Sorted(rest) && x < UINTPTR_MAX && forall y :: y in AddrSet(rest) ==> x < y
    ensures Sorted([x] + rest) && AddrSet([x] + rest) == {x} + AddrSet(rest)
  {
    forall j | 0 <= j < |rest| ensures x < rest[j] {
      assert rest[j] in AddrSet(rest);
    }
  }

  lemma SortedTail(s: seq<nat>)
    requires Sorted(s) && s != []
    ensures Sorted(s[1..]) && s[0] < UINTPTR_MAX && forall y :: y in AddrSet(s[1..]) ==> s[0] < y
    ensures AddrSet(s) == {s[0]} + AddrSet(s[1..]) && s == [s[0]] + s[1..]
  {
    assert s == [s[0]] + s[1..];
  }

  lemma {:induction false} InsertAddrIsRight(s: seq<nat>, a: nat)
    requires Sorted(s) && a < UINTPTR_MAX
    ensures Sorted(InsertAddr(s, a)) && AddrSet(InsertAddr(s, a)) == AddrSet(s) + {a}
  {
    hide Sorted, AddrSet;
    if s == [] {
      SortedNothing();
      SortedCons(a, []);
      assert [a] + [] == [a];
    } else {
      SortedTail(s);
      if s[0] < a {
        InsertAddrIsRight(s[1..], a);
        SortedCons(s[0], InsertAddr(s[1..], a));
      } else if a < s[0] {
        SortedCons(a, s);
      }
    }
  }

  lemma SortedNothing()
    ensures Sorted([]) && AddrSet([]) == {}
  {
  }

  /** std::set::erase. */
  function EraseAddr(s: seq<nat>, a: nat): (r: seq<nat>) {
    if s == [] then [] else if s[0] == a then s[1..] else [s[0]] + EraseAddr(s[1..], a)
  }

  lemma {:induction false} EraseAddrIsRight(s: seq<nat>, a: nat)
    requires Sorted(s)
    ensures Sorted(EraseAddr(s, a)) && AddrSet(EraseAddr(s, a)) == AddrSet(s) - {a}
  {
    hide Sorted, AddrSet;
    if s == [] {
      SortedNothing();
    } else {
      SortedTail(s);
      if s[0] != a {
        EraseAddrIsRight(s[1..], a);
        SortedCons(s[0], EraseAddr(s[1..], a));
      }
    }
  }

  /** The sets and batches stand at `paths` in the view, and nothing with both subscribers and messages is missing. */
  ghost predicate Represents(v: View, paths: seq<Path>, sets: seq<seq<nat>>, batches: seq<map<nat, Message>>)
    requires Matched(v)
  {
    && |paths| == |sets| == |batches|
    && (forall i :: 0 <= i < |paths| ==>
          paths[i] in v.subs && v.subs[paths[i]] == AddrSet(sets[i]) && v.pending[paths[i]] == batches[i].Keys)
    && (forall p :: p in v.subs && v.subs[p] != {} && v.pending[p] != {} ==> p in paths)
  }

  lemma IdsForArePending(v: View, paths: seq<Path>, sets: seq<seq<nat>>, batches: seq<map<nat, Message>>, a: nat,
                         id: nat)
    requires Matched(v) && Represents(v, paths, sets, batches)
    ensures id in IdsFor(sets, batches, a) <==> PendsFor(v, a, id)
  {
    if id in IdsFor(sets, batches, a) {
      var i :| i in Holding(sets, a) && i < |batches| && id in batches[i];
      assert a in v.subs[paths[i]] && id in v.pending[paths[i]];
    }
    if PendsFor(v, a, id) {
      var p :| p in v.subs && a in v.subs[p] && id in v.pending[p];
      var i :| 0 <= i < |paths| && paths[i] == p;
      assert i in Holding(sets, a) && id in batches[i];
    }
  }

  lemma MergedIsBatch(v: View, paths: seq<Path>, sets: seq<seq<nat>>, batches: seq<map<nat, Message>>,
                      published: seq<Message>, calls: seq<Call>)
    requires Matched(v) && Represents(v, paths, sets, batches) && Merged(sets, batches, published, calls)
    ensures Batch(v, published, calls)
  {
    hide Collect, IdsFor, PendsFor;
    forall k | 0 <= k < |calls|
      ensures calls[k].data == Collect(published, PendingIds(v, calls[k].addr, |published|))
    {
      var a := calls[k].addr;
      assert RightCall(sets, batches, published, calls[k]);
      forall id | 0 <= id < |published|
        ensures id in IdsFor(sets, batches, a) <==> id in PendingIds(v, a, |published|)
      {
        IdsForArePending(v, paths, sets, batches, a, id);
      }
      CollectOf(published, IdsFor(sets, batches, a), PendingIds(v, a, |published|));
    }
    forall a, id | 0 <= id < |published| && PendsFor(v, a, id)
      ensures exists k :: 0 <= k < |calls| && calls[k].addr == a
    {
      IdsForArePending(v, paths, sets, batches, a, id);
      HeldIsCalled(sets, batches, published, calls, a, id);
    }
  }

  lemma HeldIsCalled(sets: seq<seq<nat>>, batches: seq<map<nat, Message>>, published: seq<Message>, calls: seq<Call>,
                     a: nat, id: nat)
    requires |sets| == |batches| && Merged(sets, batches, published, calls) && id in IdsFor(sets, batches, a)
    ensures exists k :: 0 <= k < |calls| && calls[k].addr == a
  {
    hide RightCall;
    var i :| i in Holding(sets, a) && i < |batches| && id in batches[i];
    var j :| 0 <= j < |sets[i]| && sets[i][j] == a;
    assert Called(calls, sets[i][j]);
  }
}
