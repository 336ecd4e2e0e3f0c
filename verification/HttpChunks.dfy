/** Chunks of a stream as the parser consumes them, measured against the reference reader. */
module HttpChunks {
  import opened Bytes
  import opened HttpSpec

  // ---- What handlers are called with ----

  datatype Emit =
    | Called(request: Out)               // the request handler
    | Data(octets: seq<byte>, fin: bool) // the data handler
    | Errored                            // the error handler

  /** The pieces put together, so that it cannot be told how a body was cut. */
  ghost function Flat(log: seq<Emit>): (out: seq<Out>)
  {
    if log == [] then []
    else
      var rest, last := log[..|log| - 1], log[|log| - 1];
      match last
      case Called(request) => Flat(rest) + [request]
      case Data(octets, fin) => Flat(rest) + Octets(octets) + if fin then [Done] else []
      case Errored => Flat(rest)
  }

  lemma FlatCalled(log: seq<Emit>, request: Out)
    ensures Flat(log + [Called(request)]) == Flat(log) + [request]
  {
    assert (log + [Called(request)])[..|log|] == log;
  }

  lemma FlatData(log: seq<Emit>, octets: seq<byte>, fin: bool)
    ensures Flat(log + [Data(octets, fin)])
         == Flat(log) + Octets(octets) + if fin then [Done] else []
  {
    assert (log + [Data(octets, fin)])[..|log|] == log;
  }

  lemma FlatErrored(log: seq<Emit>)
    ensures Flat(log + [Errored]) == Flat(log)
  {
    assert (log + [Errored])[..|log|] == log;
  }

  // ---- Following the reader ----

  /** After `d` octets of `was` the reader stands where `now` says. */
  ghost predicate Follows(st: Reader, was: seq<byte>, d: nat, now: Reader)
    requires Valid(st)
  {
    d <= |was| && Run(st, was[..d]) == now
  }

  lemma FollowsNothing(st: Reader, was: seq<byte>)
    requires Valid(st)
    ensures Follows(st, was, 0, st)
  {
    assert was[..0] == [];
  }

  lemma RunOn(st: Reader, was: seq<byte>, d: nat, c: nat)
    requires Valid(st) && d + c <= |was|
    ensures Run(st, was[..d + c]) == Run(Run(st, was[..d]), was[d..d + c])
  {
    hide Run, Valid, Step;
    assert was[..d + c] == was[..d] + was[d..d + c];
    RunConcat(st, was[..d], was[d..d + c]);
  }

  lemma FollowsHead(st: Reader, was: seq<byte>, d: nat, c: nat, now: Reader)
    requires Valid(st) && Follows(st, was, d, now) && now.phase == Heading(START, 0, false)
    requires d + c <= |was| && Completes(START, was[d..d + c])
    ensures ScanAll(START, was[d..d + c]).fields != []
    ensures Follows(st, was, d + c, Opened(now.out, ScanAll(START, was[d..d + c]).fields, false))
  {
    hide Run, ScanAll, Completes, Opened;
    CompleteHasFields(was[d..d + c]);
    RunCompletes(now, was[d..d + c]);
    RunOn(st, was, d, c);
  }

  lemma CompleteHasFields(h: seq<byte>)
    requires Completes(START, h)
    ensures ScanAll(START, h).Complete? && ScanAll(START, h).fields != []
  {
    hide ScanStep, ScanAll;
    var n := |h| - 1;
    assert h == h[..n] + [h[n]];
    ScanSnoc(START, h[..n], h[n]);
    IncompleteIsValid(START, h[..n]);
    CompleteOnlyAfterCr(ScanAll(START, h[..n]), h[n]);
  }

  lemma CompleteOnlyAfterCr(s: Scan, b: byte)
    requires ScanValid(s) && ScanStep(s, b).Complete?
    ensures ScanStep(s, b).fields != []
  {
  }

  lemma {:induction false} IncompleteIsValid(s: Scan, h: seq<byte>)
    requires ScanValid(s) && Incomplete(s, h)
    ensures ScanValid(ScanAll(s, h))
    decreases |h|
  {
    hide ScanStep, Incomplete, ScanValid;
    if h != [] {
      IncompleteTail(s, h);
      ScanStaysValid(s, h[0]);
      IncompleteIsValid(ScanStep(s, h[0]), h[1..]);
    }
  }

  /** The reader after `c` more octets of a body. */
  ghost function AfterBody(now: Reader, octets: seq<byte>): Reader
    requires now.phase.Streaming? && |octets| <= now.phase.left
  {
    if |octets| == now.phase.left then Reader(Heading(START, 0, false), now.out + Octets(octets) + [Done])
    else Reader(Streaming(now.phase.left - |octets|), now.out + Octets(octets))
  }

  /** The end of a body has been signalled. */
  ghost function Signalled(st: Reader): Reader {
    Reader(st.phase, st.out + [Done])
  }

  /** A head without cuts: if its body has length 0 the signal is still to come when the head has been dealt with. */
  lemma OpenedUncut(out: seq<Out>, fields: seq<Header>)
    requires fields != []
    ensures var cut := Opened(out, fields, true);
            Opened(out, fields, false)
            == if Announces(fields) && !cut.phase.Streaming? then Signalled(cut) else cut
  {
    hide Announces, BodyLength;
    assert out + [Served(fields)] + [Done] == out + [Served(fields), Done];
  }

  lemma FollowsBody(st: Reader, was: seq<byte>, d: nat, c: nat, now: Reader)
    requires Valid(st) && Follows(st, was, d, now) && now.phase.Streaming? && 0 < now.phase.left
    requires d + c <= |was| && c <= now.phase.left
    ensures Follows(st, was, d + c, AfterBody(now, was[d..d + c]))
  {
    hide Run;
    RunBody(now, was[d..d + c]);
    RunOn(st, was, d, c);
  }

  /** What is left of a chunk is the beginning of a head. */
  lemma FollowsRest(st: Reader, was: seq<byte>, d: nat, now: Reader)
    requires Valid(st) && Follows(st, was, d, now)
    requires now.phase == Heading(START, 0, false) && Incomplete(START, was[d..])
    ensures Run(st, was) == Reader(Heading(ScanAll(START, was[d..]), |was| - d, false), now.out)
  {
    hide Run, ScanAll, ScanValid, Incomplete;
    assert was == was[..d] + was[d..];
    RunConcat(st, was[..d], was[d..]);
    RunIncomplete(now, was[d..]);
  }

  // ---- Heads that arrive in pieces ----

  /** The beginning of a head has been kept. */
  ghost predicate Keeps(st: Reader, kept: seq<byte>) {
    && Incomplete(START, kept) && |kept| < MAX_FALLBACK_SIZE
    && st.phase == Heading(ScanAll(START, kept), |kept|, kept != []) && ScanValid(ScanAll(START, kept))
  }

  lemma IncompleteOn(kept: seq<byte>, more: seq<byte>)
    requires Incomplete(START, kept + more)
    ensures Incomplete(ScanAll(START, kept), more)
  {
    hide ScanAll;
    forall k | 0 <= k <= |more| ensures !ScanAll(ScanAll(START, kept), more[..k]).Complete? {
      assert (kept + more)[..|kept| + k] == kept + more[..k];
      ScanConcat(START, kept, more[..k]);
    }
  }

  lemma NoShorter(kept: seq<byte>, more: seq<byte>, c: nat)
    requires Incomplete(START, kept) && c <= |kept|
    ensures !ScanAll(START, (kept + more)[..c]).Complete?
  {
    hide ScanAll;
    assert (kept + more)[..c] == kept[..c];
  }

  /** A head is completed by the part of it that was not there yet. */
  lemma CompletesOn(kept: seq<byte>, more: seq<byte>, c: nat)
    requires Incomplete(START, kept) && c <= |kept + more| && Completes(START, (kept + more)[..c])
    ensures c > |kept| && Completes(ScanAll(START, kept), more[..c - |kept|])
    ensures ScanAll(ScanAll(START, kept), more[..c - |kept|]) == ScanAll(START, (kept + more)[..c])
  {
    hide ScanAll;
    var h := (kept + more)[..c];
    if c <= |kept| {
      NoShorter(kept, more, c);
    }
    var m := c - |kept|;
    assert h == kept + more[..m];
    ScanConcat(START, kept, more[..m]);
    assert h[..c - 1] == kept + more[..m][..m - 1];
    IncompleteOn(kept, more[..m][..m - 1]);
  }

  lemma FollowsKept(st: Reader, kept: seq<byte>, was: seq<byte>, m: nat, c: nat)
    requires Valid(st) && Keeps(st, kept) && kept != [] && m <= |was| && c <= |kept| + m && c <= MAX_FALLBACK_SIZE
    requires Completes(START, (kept + was[..m])[..c])
    ensures |kept| < c && ScanAll(START, (kept + was[..m])[..c]).fields != []
    ensures Follows(st, was, c - |kept|, Opened(st.out, ScanAll(START, (kept + was[..m])[..c]).fields, true))
  {
    hide ScanAll, Completes, Incomplete, Run, Opened;
    CompleteHasFields((kept + was[..m])[..c]);
    CompletesOn(kept, was[..m], c);
    assert was[..m][..c - |kept|] == was[..c - |kept|];
    RunCompletes(st, was[..c - |kept|]);
  }

  lemma KeepsMore(st: Reader, kept: seq<byte>, was: seq<byte>)
    requires Valid(st) && Keeps(st, kept) && Incomplete(START, kept + was) && |kept| + |was| < MAX_FALLBACK_SIZE
    ensures Run(st, was) == Reader(Heading(ScanAll(START, kept + was), |kept| + |was|, kept != []), st.out)
  {
    hide ScanAll, Incomplete, Run;
    IncompleteOn(kept, was);
    RunIncomplete(st, was);
    ScanConcat(START, kept, was);
  }

  lemma KeepsTooMuch(st: Reader, kept: seq<byte>, was: seq<byte>, m: nat)
    requires Valid(st) && Keeps(st, kept) && kept != [] && m <= |was|
    requires Incomplete(START, kept + was[..m]) && |kept| + m == MAX_FALLBACK_SIZE
    ensures Run(st, was) == Reader(Failed, st.out)
  {
    hide ScanAll, Incomplete, Run;
    IncompleteOn(kept, was[..m]);
    RunTooLong(st, was[..m]);
    RunFailed(Run(st, was[..m]), was[m..]);
    assert was == was[..m] + was[m..];
    RunConcat(st, was[..m], was[m..]);
  }
}
