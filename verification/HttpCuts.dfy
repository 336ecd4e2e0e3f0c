/** Streams cut into chunks: what the cuts change, and what they do not. */
module HttpCuts {
  import opened Bytes
  import opened HttpSpec

  /** A chunk ends. A head that has begun is now one that came in pieces, unless it is too long to be kept. */
  function Cut(st: Reader): (r: Reader)
    ensures r.out == st.out && (Valid(st) ==> Valid(r))
  {
    if st.phase.Heading? && st.phase.n > 0 then
      Reader(if st.phase.n >= MAX_FALLBACK_SIZE then Failed else Heading(st.phase.scan, st.phase.n, true), st.out)
    else st
  }

  /** The reader over a stream that comes in chunks. */
  function ReadChunks(chunks: seq<seq<byte>>): (r: Reader)
    ensures Valid(r)
  {
    if chunks == [] then FRESH else Cut(Run(ReadChunks(chunks[..|chunks| - 1]), chunks[|chunks| - 1]))
  }

  // ---- What does not depend on the cuts ----

  /** A signal that directly follows a request with a body of length 0. */
  predicate ZeroSignal(out: seq<Out>) {
    && |out| >= 2 && out[|out| - 1].Done?
    && var r := out[|out| - 2];
       r.Request? && r.fields != [] && AnnouncesZero(r.fields)
  }

  /** What has been said, without those signals. */
  function Quiet(out: seq<Out>): (r: seq<Out>) {
    if out == [] then []
    else Quiet(out[..|out| - 1]) + if ZeroSignal(out) then [] else [out[|out| - 1]]
  }

  lemma QuietSnoc(out: seq<Out>, o: Out)
    ensures Quiet(out + [o]) == Quiet(out) + if ZeroSignal(out + [o]) then [] else [o]
  {
    assert (out + [o])[..|out|] == out;
  }

  /** One more thing and its signal. */
  lemma QuietDone(out: seq<Out>, o: Out)
    requires !o.Done?
    ensures Quiet(out + [o]) == Quiet(out) + [o]
    ensures Quiet(out + [o, Done])
         == Quiet(out) + [o] + if o.Request? && o.fields != [] && AnnouncesZero(o.fields) then [] else [Done]
  {
    hide Quiet, AnnouncesZero;
    QuietSnoc(out, o);
    QuietSnoc(out + [o], Done);
    assert out + [o] + [Done] == out + [o, Done];
  }

  /** Readers that differ only in what they know of cuts and in the signals these have cost. */
  ghost predicate Alike(whole: Reader, cut: Reader) {
    && Quiet(whole.out) == Quiet(cut.out) && !whole.phase.Failed?
    && if whole.phase.Heading? then
         cut.phase.Heading? && cut.phase.scan == whole.phase.scan && cut.phase.n == whole.phase.n && !whole.phase.cut
       else
         cut.phase == whole.phase
  }

  /** At this octet the signal for a body of length 0 is lost. */
  predicate Loses(st: Reader, b: byte) {
    && st.phase.Heading? && st.phase.cut
    && var next := ScanStep(st.phase.scan, b);
       next.Complete? && next.fields != [] && AnnouncesZero(next.fields)
  }

  /** At this octet a head turns out to be too long. */
  predicate Fails(st: Reader, b: byte) {
    && st.phase.Heading? && st.phase.cut && st.phase.n + 1 == MAX_FALLBACK_SIZE
    && !ScanStep(st.phase.scan, b).Complete?
  }

  /** Handlers are shown the fields that say how long the body is. */
  lemma ServedZero(fields: seq<Header>)
    requires fields != []
    ensures Served(fields).Request? && Served(fields).fields != []
    ensures AnnouncesZero(Served(fields).fields) == AnnouncesZero(fields)
  {
    hide Url, LookUp, ToUnsigned;
    assert Served(fields).fields[1..] == fields[1..];
  }

  /** What opening a request says, whether its head was cut or not. */
  lemma OpenedAlike(whole: seq<Out>, cut: seq<Out>, fields: seq<Header>, c: bool)
    requires fields != [] && Quiet(whole) == Quiet(cut)
    ensures Alike(Opened(whole, fields, false), Opened(cut, fields, c))
    ensures |Opened(whole, fields, false).out| - |whole|
         == |Opened(cut, fields, c).out| - |cut| + if c && AnnouncesZero(fields) then 1 else 0
    ensures whole == cut && !(c && AnnouncesZero(fields)) ==> Opened(whole, fields, false) == Opened(cut, fields, c)
  {
    hide Quiet, Served, LookUp, ToUnsigned;
    ServedZero(fields);
    QuietDone(whole, Served(fields));
    QuietDone(cut, Served(fields));
  }

  lemma StepAlike(whole: Reader, cut: Reader, b: byte)
    requires Valid(whole) && Valid(cut) && Alike(whole, cut) && !Fails(cut, b)
    ensures Alike(Step(whole, b), Step(cut, b))
    ensures |Step(whole, b).out| - |whole.out| == |Step(cut, b).out| - |cut.out| + if Loses(cut, b) then 1 else 0
    ensures whole.out == cut.out && !Loses(cut, b) ==> Step(whole, b).out == Step(cut, b).out
  {
    hide Quiet, ScanStep, Opened, AnnouncesZero;
    match cut.phase
    case Heading(scan, n, c) =>
      var next := ScanStep(scan, b);
      if next.Complete? {
        CompleteAfterCr(scan, b);
        OpenedAlike(whole.out, cut.out, next.fields, c);
      }
    case Streaming(left) =>
      QuietDone(whole.out, Octet(b));
      QuietDone(cut.out, Octet(b));
  }

  lemma CompleteAfterCr(s: Scan, b: byte)
    requires ScanValid(s) && ScanStep(s, b).Complete?
    ensures ScanStep(s, b).fields != []
  {
  }

  /** Some octet of `x` loses a signal. */
  ghost predicate LosesIn(st: Reader, x: seq<byte>)
    requires Valid(st)
  {
    exists j: nat :: j < |x| && Loses(Run(st, x[..j]), x[j])
  }

  /** One of the first `n` octets of `x` makes a head too long. */
  ghost predicate FailsIn(st: Reader, x: seq<byte>, n: nat)
    requires Valid(st) && n <= |x|
  {
    exists j: nat :: j < n && Fails(Run(st, x[..j]), x[j])
  }

  lemma RunTake(st: Reader, x: seq<byte>, j: nat)
    requires Valid(st) && j < |x|
    ensures Run(st, x[..j + 1]) == Step(Run(st, x[..j]), x[j])
  {
    hide Valid, Step;
    assert x[..j + 1] == x[..j] + [x[j]];
    RunConcat(st, x[..j], [x[j]]);
    assert [x[j]][1..] == [];
  }

  /** A reader fails at an octet that makes a head too long, and at no other. */
  lemma StepFails(st: Reader, b: byte)
    requires Valid(st)
    ensures Step(st, b).phase.Failed? <==> st.phase.Failed? || Fails(st, b)
    ensures Step(st, b).phase.Failed? ==> Step(st, b).out == st.out
  {
    hide ScanStep, AnnouncesZero, Announces, BodyLength, Served;
  }

  lemma {:induction false} RunFails(st: Reader, x: seq<byte>, n: nat)
    requires Valid(st) && n <= |x| && !st.phase.Failed?
    ensures Run(st, x[..n]).phase.Failed? <==> FailsIn(st, x, n)
    decreases n
  {
    hide Valid, Step, Fails, Run;
    if n == 0 {
      RunZero(st, x);
    } else {
      RunFails(st, x, n - 1);
      RunTake(st, x, n - 1);
      StepFails(Run(st, x[..n - 1]), x[n - 1]);
    }
  }

  lemma RunZero(st: Reader, x: seq<byte>)
    requires Valid(st)
    ensures Run(st, x[..0]) == st
  {
    assert x[..0] == [];
  }

  /** Over octets the two stay alike, and say the same until a signal is lost. */
  lemma {:induction false} RunAlike(whole: Reader, cut: Reader, x: seq<byte>, n: nat)
    requires Valid(whole) && Valid(cut) && Alike(whole, cut) && n <= |x| && !FailsIn(cut, x, n)
    ensures var w, c := Run(whole, x[..n]), Run(cut, x[..n]);
            && Alike(w, c) && |c.out| - |cut.out| <= |w.out| - |whole.out|
            && (whole.out == cut.out && (forall j: nat :: j < n ==> !Loses(Run(cut, x[..j]), x[j])) ==> w.out == c.out)
            && ((exists j: nat :: j < n && Loses(Run(cut, x[..j]), x[j])) ==>
                  |c.out| - |cut.out| < |w.out| - |whole.out|)
    decreases n
  {
    hide Valid, Step, Alike, Loses, Fails;
    if n == 0 {
      assert x[..0] == [];
    } else {
      RunAlike(whole, cut, x, n - 1);
      RunTake(whole, x, n - 1);
      RunTake(cut, x, n - 1);
      StepAlike(Run(whole, x[..n - 1]), Run(cut, x[..n - 1]), x[n - 1]);
    }
  }

  lemma CutAlike(whole: Reader, cut: Reader)
    requires Alike(whole, cut) && !Cut(cut).phase.Failed?
    ensures Alike(whole, Cut(cut))
  {
    hide Quiet;
  }

  /** What has been said stays said. */
  lemma {:induction false} QuietGrows(st: Reader, x: seq<byte>)
    requires Valid(st)
    ensures Quiet(st.out) <= Quiet(Run(st, x).out)
    decreases |x|
  {
    hide Quiet, Step;
    if x != [] {
      QuietStep(st, x[0]);
      QuietGrows(Step(st, x[0]), x[1..]);
    }
  }

  lemma QuietStep(st: Reader, b: byte)
    requires Valid(st)
    ensures Quiet(st.out) <= Quiet(Step(st, b).out)
  {
    hide Quiet, ScanStep, Served, LookUp, ToUnsigned;
    match st.phase
    case Heading(scan, n, c) =>
      var next := ScanStep(scan, b);
      if next.Complete? {
        CompleteAfterCr(scan, b);
        ServedZero(next.fields);
        QuietDone(st.out, Served(next.fields));
      }
    case Streaming(left) =>
      QuietDone(st.out, Octet(b));
    case Failed =>
  }

  // ---- What does ----

  /** After `q` octets of `s` a head that began at `a` is still incomplete. */
  ghost predicate InHead(s: seq<byte>, a: nat, q: nat) {
    a < q <= |s| && Run(FRESH, s[..q]).phase.Heading? && Run(FRESH, s[..q]).phase.n == q - a
  }

  /** The octets from `a` to `b` are a head of a request with a body of length 0. */
  ghost predicate ZeroHead(s: seq<byte>, a: nat, b: nat) {
    && a < b <= |s|
    && var st := Run(FRESH, s[..b - 1]);
       && st.phase.Heading? && st.phase.n == b - 1 - a
       && var next := ScanStep(st.phase.scan, s[b - 1]);
          next.Complete? && next.fields != [] && AnnouncesZero(next.fields)
  }

  /** A chunk ends between `a` and `b`. */
  ghost predicate CutInside(chunks: seq<seq<byte>>, a: nat, b: nat) {
    exists i: nat :: i <= |chunks| && a < |Flatten(chunks[..i])| < b
  }

  /** A chunk ends inside the head of a request with a body of length 0. */
  ghost predicate ZeroHeadIsCut(chunks: seq<seq<byte>>) {
    exists a: nat, b: nat :: ZeroHead(Flatten(chunks), a, b) && CutInside(chunks, a, b)
  }

  /** A chunk ends inside a head of which 4096 octets have come that do not complete it. */
  ghost predicate LongHeadIsCut(chunks: seq<seq<byte>>) {
    exists i: nat, a: nat :: i <= |chunks| && InHead(Flatten(chunks), a, |Flatten(chunks[..i])|)
                             && InHead(Flatten(chunks), a, a + MAX_FALLBACK_SIZE)
  }

  /** The head in progress began before the last `p` octets exactly when it is known to be cut. */
  ghost predicate KnowsCut(st: Reader, p: nat) {
    st.phase.Heading? ==> (st.phase.cut <==> st.phase.n > p)
  }

  lemma {:induction false} RunKnowsCut(st: Reader, x: seq<byte>, n: nat)
    requires Valid(st) && n <= |x| && KnowsCut(st, 0)
    ensures KnowsCut(Run(st, x[..n]), n)
    decreases n
  {
    hide Valid, ScanStep, Served, AnnouncesZero, Announces, BodyLength;
    if n == 0 {
      assert x[..0] == [];
    } else {
      RunKnowsCut(st, x, n - 1);
      RunTake(st, x, n - 1);
    }
  }

  /** No more octets of a head are there than have been read; and without cuts nothing fails. */
  lemma {:induction false} RunCounts(s: seq<byte>, n: nat)
    requires n <= |s|
    ensures Valid(FRESH) && !Run(FRESH, s[..n]).phase.Failed?
    ensures Run(FRESH, s[..n]).phase.Heading? ==>
              Run(FRESH, s[..n]).phase.n <= n && !Run(FRESH, s[..n]).phase.cut
    decreases n
  {
    hide Valid, ScanStep, Served, AnnouncesZero, Announces, BodyLength;
    FreshIsValid();
    if n == 0 {
      assert s[..0] == [];
    } else {
      RunCounts(s, n - 1);
      RunTake(FRESH, s, n - 1);
    }
  }

  /** A head that is incomplete now was so before. */
  lemma {:induction false} InHeadBefore(s: seq<byte>, a: nat, p: nat, q: nat)
    requires InHead(s, a, q) && a < p <= q
    ensures InHead(s, a, p)
    decreases q - p
  {
    hide Valid, ScanStep, Served, AnnouncesZero, Announces, BodyLength;
    if p < q {
      RunCounts(s, q - 1);
      RunTake(FRESH, s, q - 1);
      InHeadBefore(s, a, p, q - 1);
    }
  }

  lemma InHeadStays(s: seq<byte>, x: seq<byte>, a: nat, q: nat)
    requires q <= |s|
    ensures InHead(s + x, a, q) == InHead(s, a, q)
  {
    hide Run;
    assert (s + x)[..q] == s[..q];
  }

  /** The heads of a stream are heads of every longer one. */
  lemma ZeroHeadStays(s: seq<byte>, x: seq<byte>, a: nat, b: nat)
    requires b <= |s|
    ensures ZeroHead(s + x, a, b) == ZeroHead(s, a, b)
  {
    hide Run, ScanStep, AnnouncesZero;
    if a < b {
      assert (s + x)[..b - 1] == s[..b - 1] && (s + x)[b - 1] == s[b - 1];
    }
  }

  /** What is known when the chunk `x` comes behind `s`. */
  ghost predicate InStep(s: seq<byte>, cut: Reader) {
    Valid(FRESH) && Valid(cut) && Alike(Run(FRESH, s), cut) && KnowsCut(cut, 0)
  }

  /** In the midst of a chunk. */
  lemma Midst(s: seq<byte>, x: seq<byte>, cut: Reader, j: nat)
    requires InStep(s, cut) && j <= |x| && !FailsIn(cut, x, j)
    ensures Run(FRESH, (s + x)[..|s| + j]) == Run(Run(FRESH, s), x[..j])
    ensures Alike(Run(FRESH, (s + x)[..|s| + j]), Run(cut, x[..j])) && KnowsCut(Run(cut, x[..j]), j)
    ensures Valid(Run(cut, x[..j]))
    ensures Run(cut, x[..j]).phase.Heading? ==> Run(cut, x[..j]).phase.n <= |s| + j
  {
    hide Run, Valid, Fails, Loses, Quiet;
    RunAlike(Run(FRESH, s), cut, x, j);
    assert (s + x)[..|s| + j] == s + x[..j];
    RunConcat(FRESH, s, x[..j]);
    RunKnowsCut(cut, x, j);
    RunCounts(s + x, |s| + j);
  }

  /** In the chunk `x` behind `s` a signal is lost at the end of a head that began in `s`. */
  lemma LossIsZeroHead(s: seq<byte>, x: seq<byte>, cut: Reader, j: nat, a: nat)
    requires InStep(s, cut) && j < |x| && !FailsIn(cut, x, j)
    ensures Loses(Run(cut, x[..j]), x[j]) ==>
              var n := Run(cut, x[..j]).phase.n; j < n <= |s| + j && ZeroHead(s + x, |s| + j - n, |s| + j + 1)
    ensures a < |s| && ZeroHead(s + x, a, |s| + j + 1) ==> Loses(Run(cut, x[..j]), x[j])
  {
    hide Run, Valid, ScanStep, AnnouncesZero, Quiet, FailsIn;
    Midst(s, x, cut, j);
    assert (s + x)[|s| + j] == x[j];
  }

  /** A fails-at-this-octet is the only one. */
  lemma FailsOnce(st: Reader, x: seq<byte>, j: nat)
    requires Valid(st) && j < |x| && Fails(Run(st, x[..j]), x[j]) && !st.phase.Failed?
    ensures !FailsIn(st, x, j)
  {
    hide Run;
    RunFails(st, x, j);
  }

  /** A head that turns out to be too long in the midst of a chunk began before it. */
  lemma FailIsLongHead(s: seq<byte>, x: seq<byte>, cut: Reader, j: nat)
    requires InStep(s, cut) && j < |x| && Fails(Run(cut, x[..j]), x[j]) && !cut.phase.Failed?
    ensures var a := |s| + j + 1 - MAX_FALLBACK_SIZE;
            0 <= a && InHead(s + x, a, |s|) && InHead(s + x, a, a + MAX_FALLBACK_SIZE)
  {
    hide Run, Valid, ScanStep, Quiet, FailsIn;
    FailsOnce(cut, x, j);
    Midst(s, x, cut, j);
    assert (s + x)[|s| + j] == x[j];
    RunTake(FRESH, s + x, |s| + j);
    var a := |s| + j + 1 - MAX_FALLBACK_SIZE;
    InHeadBefore(s + x, a, |s|, |s| + j + 1);
  }

  /** A head that is too long when a chunk ends. */
  lemma CutFailIsLongHead(s: seq<byte>, x: seq<byte>, cut: Reader)
    requires InStep(s, cut) && !FailsIn(cut, x, |x|) && !cut.phase.Failed?
    requires Cut(Run(cut, x)).phase.Failed?
    ensures Run(cut, x).phase.Heading? && MAX_FALLBACK_SIZE <= Run(cut, x).phase.n <= |s + x|
    ensures var a := |s + x| - Run(cut, x).phase.n;
            InHead(s + x, a, |s + x|) && InHead(s + x, a, a + MAX_FALLBACK_SIZE)
  {
    hide Run, Valid, ScanStep, Quiet, FailsIn;
    RunFails(cut, x, |x|);
    Midst(s, x, cut, |x|);
    assert x[..|x|] == x && (s + x)[..|s| + |x|] == s + x;
    var a := |s + x| - Run(cut, x).phase.n;
    InHeadBefore(s + x, a, a + MAX_FALLBACK_SIZE, |s + x|);
  }

  /** A long head that began before the chunk in which its 4096th octet comes. */
  lemma LongHeadFails(s: seq<byte>, x: seq<byte>, cut: Reader, a: nat)
    requires InStep(s, cut) && a < |s| < a + MAX_FALLBACK_SIZE && InHead(s + x, a, a + MAX_FALLBACK_SIZE)
    ensures FailsIn(cut, x, |x|)
  {
    hide Run, Valid, ScanStep, Quiet, Served, AnnouncesZero, Announces, BodyLength;
    var j := a + MAX_FALLBACK_SIZE - 1 - |s|;
    if !FailsIn(cut, x, j) {
      Midst(s, x, cut, j);
      assert (s + x)[|s| + j] == x[j];
      InHeadBefore(s + x, a, |s| + j, a + MAX_FALLBACK_SIZE);
      RunTake(FRESH, s + x, |s| + j);
      assert Fails(Run(cut, x[..j]), x[j]);
    }
  }

  /** A long head that began in the chunk, at whose end it is incomplete. */
  lemma LongHeadFailsAtCut(s: seq<byte>, x: seq<byte>, cut: Reader, a: nat)
    requires InStep(s, cut) && InHead(s + x, a, |s + x|) && a + MAX_FALLBACK_SIZE <= |s + x|
    requires !FailsIn(cut, x, |x|)
    ensures Cut(Run(cut, x)).phase.Failed?
  {
    hide Run, Valid, ScanStep, Quiet, FailsIn;
    Midst(s, x, cut, |x|);
    assert x[..|x|] == x && (s + x)[..|s| + |x|] == s + x;
  }

  /** No chunk ends behind the last. */
  lemma {:induction false} EndsWithin(chunks: seq<seq<byte>>, i: nat)
    requires i <= |chunks|
    ensures |Flatten(chunks[..i])| <= |Flatten(chunks)|
    decreases |chunks|
  {
    if i < |chunks| {
      var n := |chunks| - 1;
      assert chunks == chunks[..n] + [chunks[n]] && chunks[..n][..i] == chunks[..i];
      FlattenSnoc(chunks[..n], chunks[n]);
      EndsWithin(chunks[..n], i);
    } else {
      assert chunks[..i] == chunks;
    }
  }

  /** Where the chunks end when there is one more. */
  lemma Ends(chunks: seq<seq<byte>>, x: seq<byte>, i: nat)
    requires i <= |chunks| + 1
    ensures Flatten((chunks + [x])[..i]) == if i <= |chunks| then Flatten(chunks[..i]) else Flatten(chunks) + x
    ensures i <= |chunks| ==> |Flatten(chunks[..i])| <= |Flatten(chunks)|
    ensures i == |chunks| ==> chunks[..i] == chunks
  {
    hide Flatten;
    FlattenSnoc(chunks, x);
    if i <= |chunks| {
      assert (chunks + [x])[..i] == chunks[..i];
      EndsWithin(chunks, i);
    } else {
      assert (chunks + [x])[..i] == chunks + [x];
    }
  }

  /** A head that ends in the last chunk is cut if it began before. */
  lemma CutInsideSnoc(chunks: seq<seq<byte>>, x: seq<byte>, a: nat, b: nat)
    requires b <= |Flatten(chunks)| + |x|
    ensures CutInside(chunks + [x], a, b)
         == if b <= |Flatten(chunks)| then CutInside(chunks, a, b) else a < |Flatten(chunks)|
  {
    hide Flatten;
    var more := chunks + [x];
    if CutInside(more, a, b) {
      var i: nat :| i <= |more| && a < |Flatten(more[..i])| < b;
      Ends(chunks, x, i);
    }
    if b <= |Flatten(chunks)| && CutInside(chunks, a, b) {
      var i: nat :| i <= |chunks| && a < |Flatten(chunks[..i])| < b;
      Ends(chunks, x, i);
      assert a < |Flatten(more[..i])| < b;
    }
    if b > |Flatten(chunks)| && a < |Flatten(chunks)| {
      Ends(chunks, x, |chunks|);
      assert a < |Flatten(more[..|chunks|])| < b;
    }
  }

  /** One more chunk: a head was cut before, or the chunk loses a signal. */
  lemma ZeroHeadIsCutSnoc(chunks: seq<seq<byte>>, x: seq<byte>, cut: Reader)
    requires InStep(Flatten(chunks), cut) && !FailsIn(cut, x, |x|)
    ensures ZeroHeadIsCut(chunks + [x]) <==> ZeroHeadIsCut(chunks) || LosesIn(cut, x)
  {
    hide Flatten, Run, ZeroHead, CutInside, Loses, Fails, Alike, KnowsCut, Valid;
    var s := Flatten(chunks);
    FlattenSnoc(chunks, x);
    if ZeroHeadIsCut(chunks + [x]) {
      var a: nat, b: nat :| ZeroHead(s + x, a, b) && CutInside(chunks + [x], a, b);
      ZeroHeadWithin(s + x, a, b);
      CutInsideSnoc(chunks, x, a, b);
      if b <= |s| {
        ZeroHeadStays(s, x, a, b);
      } else {
        LossIsZeroHead(s, x, cut, b - 1 - |s|, a);
      }
    }
    if ZeroHeadIsCut(chunks) {
      var a: nat, b: nat :| ZeroHead(s, a, b) && CutInside(chunks, a, b);
      ZeroHeadWithin(s, a, b);
      CutInsideSnoc(chunks, x, a, b);
      ZeroHeadStays(s, x, a, b);
      assert ZeroHead(s + x, a, b) && CutInside(chunks + [x], a, b);
    }
    if LosesIn(cut, x) {
      var j: nat :| j < |x| && Loses(Run(cut, x[..j]), x[j]);
      LossIsZeroHead(s, x, cut, j, 0);
      LossIsHeading(Run(cut, x[..j]), x[j]);
      var n := Run(cut, x[..j]).phase.n;
      CutInsideSnoc(chunks, x, |s| + j - n, |s| + j + 1);
      assert ZeroHead(s + x, |s| + j - n, |s| + j + 1) && CutInside(chunks + [x], |s| + j - n, |s| + j + 1);
    }
  }

  lemma ZeroHeadWithin(s: seq<byte>, a: nat, b: nat)
    requires ZeroHead(s, a, b)
    ensures a < b <= |s|
  {
  }

  lemma LossIsHeading(st: Reader, b: byte)
    requires Loses(st, b)
    ensures st.phase.Heading?
  {
  }

  /** What has failed does not recover. */
  lemma LongHeadStaysCut(chunks: seq<seq<byte>>, x: seq<byte>)
    requires LongHeadIsCut(chunks)
    ensures LongHeadIsCut(chunks + [x])
  {
    hide Flatten, InHead;
    FlattenSnoc(chunks, x);
    var s := Flatten(chunks);
    var i: nat, a: nat :| i <= |chunks| && InHead(s, a, |Flatten(chunks[..i])|) && InHead(s, a, a + MAX_FALLBACK_SIZE);
    Ends(chunks, x, i);
    InHeadWithin(s, a, a + MAX_FALLBACK_SIZE);
    InHeadStays(s, x, a, |Flatten(chunks[..i])|);
    InHeadStays(s, x, a, a + MAX_FALLBACK_SIZE);
    assert InHead(s + x, a, |Flatten((chunks + [x])[..i])|);
  }

  lemma InHeadWithin(s: seq<byte>, a: nat, q: nat)
    requires InHead(s, a, q)
    ensures a < q <= |s|
  {
  }

  /** One more chunk: the reader fails if the chunk makes it, or makes it known, that a long head is cut. */
  lemma FailureIsLongHead(chunks: seq<seq<byte>>, x: seq<byte>, cut: Reader)
    requires InStep(Flatten(chunks), cut) && !cut.phase.Failed? && Cut(Run(cut, x)).phase.Failed?
    ensures LongHeadIsCut(chunks + [x])
  {
    hide Flatten, Run, InHead, Fails, Alike, KnowsCut, Valid, Cut;
    var s, more := Flatten(chunks), chunks + [x];
    FlattenSnoc(chunks, x);
    if FailsIn(cut, x, |x|) {
      var j: nat :| j < |x| && Fails(Run(cut, x[..j]), x[j]);
      FailIsLongHead(s, x, cut, j);
      Ends(chunks, x, |chunks|);
      assert InHead(Flatten(more), |s| + j + 1 - MAX_FALLBACK_SIZE, |Flatten(more[..|chunks|])|);
    } else {
      CutFailIsLongHead(s, x, cut);
      Ends(chunks, x, |more|);
      assert InHead(Flatten(more), |s + x| - Run(cut, x).phase.n, |Flatten(more[..|more|])|);
    }
  }

  lemma LongHeadIsFailure(chunks: seq<seq<byte>>, x: seq<byte>, cut: Reader)
    requires InStep(Flatten(chunks), cut) && !cut.phase.Failed? && !LongHeadIsCut(chunks) && LongHeadIsCut(chunks + [x])
    ensures Cut(Run(cut, x)).phase.Failed?
  {
    hide Flatten, Run, InHead, Fails, FailsIn, Alike, KnowsCut, Valid;
    var s, more := Flatten(chunks), chunks + [x];
    FlattenSnoc(chunks, x);
    var i: nat, a: nat :| i <= |more| && InHead(s + x, a, |Flatten(more[..i])|)
                          && InHead(s + x, a, a + MAX_FALLBACK_SIZE);
    Ends(chunks, x, i);
    InHeadWithin(s + x, a, |Flatten(more[..i])|);
    InHeadWithin(s + x, a, a + MAX_FALLBACK_SIZE);
    if !FailsIn(cut, x, |x|) {
      if a >= |s| {
        LongHeadFailsAtCut(s, x, cut, a);
      } else if |s| < a + MAX_FALLBACK_SIZE {
        LongHeadFails(s, x, cut, a);
      } else {
        InHeadStays(s, x, a, a + MAX_FALLBACK_SIZE);
        var q := if i <= |chunks| then i else |chunks|;
        Ends(chunks, x, q);
        InHeadBefore(s + x, a, |Flatten(chunks[..q])|, |Flatten(more[..i])|);
        InHeadStays(s, x, a, |Flatten(chunks[..q])|);
      }
    } else {
      RunFails(cut, x, |x|);
      assert x[..|x|] == x;
    }
  }

  lemma CutKnows(st: Reader, p: nat)
    requires KnowsCut(st, p)
    ensures KnowsCut(Cut(st), 0)
  {
  }

  /** One more chunk, for the whole stream and for the stream in chunks. */
  lemma ReadChunksSnoc(chunks: seq<seq<byte>>, x: seq<byte>)
    ensures Valid(FRESH) && Valid(Run(FRESH, Flatten(chunks)))
    ensures Run(FRESH, Flatten(chunks + [x])) == Run(Run(FRESH, Flatten(chunks)), x)
    ensures ReadChunks(chunks + [x]) == Cut(Run(ReadChunks(chunks), x))
  {
    hide Run, Cut, Valid;
    FreshIsValid();
    FlattenSnoc(chunks, x);
    RunConcat(FRESH, Flatten(chunks), x);
    assert (chunks + [x])[..|chunks|] == chunks;
  }

  /** What the cuts of a stream have come to when the reader has not failed, and when it has. */
  ghost predicate Comes(chunks: seq<seq<byte>>) {
    && Valid(FRESH)
    && var whole, cut := Run(FRESH, Flatten(chunks)), ReadChunks(chunks);
       if cut.phase.Failed? then
         LongHeadIsCut(chunks) && Quiet(cut.out) <= Quiet(whole.out)
       else
         && !LongHeadIsCut(chunks) && InStep(Flatten(chunks), cut)
         && (cut.out == whole.out || |cut.out| < |whole.out|)
         && (cut.out == whole.out <==> !ZeroHeadIsCut(chunks))
  }

  lemma NoChunks()
    ensures Comes([]) && ReadChunks([]) == FRESH
  {
    assert forall i: nat :: i == 0 ==> Flatten([][..i]) == [];
  }

  /** One more chunk that brings no failure. */
  lemma ComesOn(chunks: seq<seq<byte>>, x: seq<byte>)
    requires Comes(chunks) && !ReadChunks(chunks).phase.Failed? && !Cut(Run(ReadChunks(chunks), x)).phase.Failed?
    ensures Comes(chunks + [x])
  {
    hide Run, ReadChunks, Flatten, Alike, Loses, Fails, Valid, KnowsCut, ZeroHeadIsCut, LongHeadIsCut, Cut, FailsIn;
    var s, whole, cut := Flatten(chunks), Run(FRESH, Flatten(chunks)), ReadChunks(chunks);
    ReadChunksSnoc(chunks, x);
    assert x[..|x|] == x;
    NotFailed(cut, x);
    RunAlike(whole, cut, x, |x|);
    RunKnowsCut(cut, x, |x|);
    CutKnows(Run(cut, x), |x|);
    CutAlike(Run(whole, x), Run(cut, x));
    ZeroHeadIsCutSnoc(chunks, x, cut);
    if LongHeadIsCut(chunks + [x]) {
      LongHeadIsFailure(chunks, x, cut);
    }
  }

  lemma NotFailed(cut: Reader, x: seq<byte>)
    requires Valid(cut) && !cut.phase.Failed? && !Cut(Run(cut, x)).phase.Failed?
    ensures !FailsIn(cut, x, |x|)
  {
    hide Run, FailsIn;
    RunFails(cut, x, |x|);
    assert x[..|x|] == x;
  }

  /** One more chunk that brings the failure. */
  lemma ComesToFail(chunks: seq<seq<byte>>, x: seq<byte>)
    requires Comes(chunks) && !ReadChunks(chunks).phase.Failed? && Cut(Run(ReadChunks(chunks), x)).phase.Failed?
    ensures Comes(chunks + [x])
  {
    hide Run, ReadChunks, Flatten, Alike, Loses, Fails, Valid, KnowsCut, ZeroHeadIsCut, LongHeadIsCut, Cut, Quiet;
    var whole, cut := Run(FRESH, Flatten(chunks)), ReadChunks(chunks);
    ReadChunksSnoc(chunks, x);
    FailureIsLongHead(chunks, x, cut);
    SaidSoFar(whole, cut, x);
  }

  lemma SaysNoMore(st: Reader, x: seq<byte>, j: nat)
    requires Valid(st) && j < |x| && Fails(Run(st, x[..j]), x[j])
    ensures Run(st, x).out == Run(st, x[..j]).out
  {
    hide Run, Valid, Fails, Step;
    RunTake(st, x, j);
    StepFails(Run(st, x[..j]), x[j]);
    RunFailed(Run(st, x[..j + 1]), x[j + 1..]);
    assert x == x[..j + 1] + x[j + 1..];
    RunConcat(st, x[..j + 1], x[j + 1..]);
  }

  /** When the reader fails it has said no more than has been said of the whole stream. */
  lemma SaidSoFar(whole: Reader, cut: Reader, x: seq<byte>)
    requires Valid(whole) && Valid(cut) && Alike(whole, cut) && !cut.phase.Failed?
    ensures Quiet(Run(cut, x).out) <= Quiet(Run(whole, x).out)
  {
    hide Run, Quiet, Valid, Fails, Alike, Loses;
    if FailsIn(cut, x, |x|) {
      var j: nat :| j < |x| && Fails(Run(cut, x[..j]), x[j]);
      FailsOnce(cut, x, j);
      RunAlike(whole, cut, x, j);
      AlikeSays(Run(whole, x[..j]), Run(cut, x[..j]));
      SaysNoMore(cut, x, j);
      assert x == x[..j] + x[j..];
      RunConcat(whole, x[..j], x[j..]);
      QuietGrows(Run(whole, x[..j]), x[j..]);
    } else {
      assert x[..|x|] == x;
      RunAlike(whole, cut, x, |x|);
      AlikeSays(Run(whole, x), Run(cut, x));
    }
  }

  lemma AlikeSays(whole: Reader, cut: Reader)
    requires Alike(whole, cut)
    ensures Quiet(cut.out) == Quiet(whole.out)
  {
  }

  /** One more chunk after the failure. */
  lemma ComesAfterFailure(chunks: seq<seq<byte>>, x: seq<byte>)
    requires Comes(chunks) && ReadChunks(chunks).phase.Failed?
    ensures Comes(chunks + [x])
  {
    hide Run, ReadChunks, Flatten, InStep, Valid, ZeroHeadIsCut, LongHeadIsCut, Quiet;
    ReadChunksSnoc(chunks, x);
    RunFailed(ReadChunks(chunks), x);
    LongHeadStaysCut(chunks, x);
    QuietGrows(Run(FRESH, Flatten(chunks)), x);
  }

  /**
   What the cuts of a stream change. The reader fails if and only if a chunk ends inside a head of which 4096 octets
   come that do not complete it. Otherwise requests, bodies and signals are those of the whole stream, but for signals
   of the end of a body of length 0; and these are all there if and only if no chunk ends inside the head of such a
   request.
   */
  lemma {:induction false} CutsMean(chunks: seq<seq<byte>>)
    ensures Valid(FRESH) && Comes(chunks)
    ensures var whole, cut := Run(FRESH, Flatten(chunks)), ReadChunks(chunks);
            && (cut.phase.Failed? <==> LongHeadIsCut(chunks))
            && Quiet(cut.out) <= Quiet(whole.out)
            && (!cut.phase.Failed? ==> Quiet(cut.out) == Quiet(whole.out))
            && (!cut.phase.Failed? ==> (cut.out == whole.out <==> !ZeroHeadIsCut(chunks)))
    decreases |chunks|
  {
    hide Run, ReadChunks, Cut, Flatten, Valid, KnowsCut, ZeroHeadIsCut, LongHeadIsCut, Quiet;
    if chunks == [] {
      NoChunks();
    } else {
      var n := |chunks| - 1;
      var rest, x := chunks[..n], chunks[n];
      assert chunks == rest + [x];
      CutsMean(rest);
      if ReadChunks(rest).phase.Failed? {
        ComesAfterFailure(rest, x);
      } else if Cut(Run(ReadChunks(rest), x)).phase.Failed? {
        ComesToFail(rest, x);
      } else {
        ComesOn(rest, x);
      }
    }
  }

  // ---- A request for which it makes a difference ----

  lemma {:induction false} CompleteIsOver(s: Scan, h: seq<byte>)
    requires ScanAll(s, h).Complete? && h != []
    ensures !s.Complete? && !s.Stuck?
    decreases |h|
  {
    if |h| > 1 {
      CompleteIsOver(ScanStep(s, h[0]), h[1..]);
    }
  }

  /** A head is complete for the first time when it is complete. */
  lemma CompleteIsFirst(s: Scan, h: seq<byte>)
    requires ScanAll(s, h).Complete? && h != []
    ensures Completes(s, h)
  {
    hide ScanAll, ScanStep;
    var front := h[..|h| - 1];
    forall k | 0 <= k <= |front| ensures !ScanAll(s, front[..k]).Complete? {
      assert front[..k] == h[..k] && h == h[..k] + h[k..];
      ScanConcat(s, h[..k], h[k..]);
      CompleteIsOver(ScanAll(s, h[..k]), h[k..]);
    }
  }

  lemma ReadOne(h: seq<byte>)
    requires Completes(START, h) && |h| <= MAX_FALLBACK_SIZE
    ensures ScanAll(START, h).Complete? && ScanAll(START, h).fields != []
    ensures ReadChunks([h]).out == Opened([], ScanAll(START, h).fields, false).out
  {
    hide ScanAll, Incomplete, Opened, Run;
    FreshIsValid();
    RunCompletes(FRESH, h);
    assert [h][..0] == [];
  }

  lemma ReadTwo(front: seq<byte>, back: seq<byte>)
    requires front != [] && Incomplete(START, front) && Completes(ScanAll(START, front), back)
    requires |front| + |back| <= MAX_FALLBACK_SIZE
    ensures ScanAll(ScanAll(START, front), back).Complete? && ScanAll(ScanAll(START, front), back).fields != []
    ensures ReadChunks([front, back]).out == Opened([], ScanAll(ScanAll(START, front), back).fields, true).out
  {
    hide ScanAll, Incomplete, Opened, Run, Valid, ReadChunks;
    FreshIsValid();
    RunIncomplete(FRESH, front);
    NoChunks();
    ReadChunksSnoc([], front);
    ReadChunksSnoc([front], back);
    assert [] + [front] == [front] && [front] + [back] == [front, back];
    RunCompletes(ReadChunks([front]), back);
  }

  /** A request whose body has length 0, whole and in two pieces: the signal is given, and is not. */
  lemma WholeAndCut(h: seq<byte>, k: nat)
    requires Completes(START, h) && |h| <= MAX_FALLBACK_SIZE && 0 < k < |h|
    requires ScanAll(START, h).fields != [] && AnnouncesZero(ScanAll(START, h).fields)
    ensures ReadChunks([h]).out == [Served(ScanAll(START, h).fields), Done]
    ensures ReadChunks([h[..k], h[k..]]).out == [Served(ScanAll(START, h).fields)]
  {
    hide ScanAll, Incomplete, Served, AnnouncesZero, ReadChunks, Opened;
    ReadOne(h);
    CompletesAfter(h, k);
    ReadTwo(h[..k], h[k..]);
    OpenedZero(ScanAll(START, h).fields);
  }

  lemma OpenedZero(fields: seq<Header>)
    requires fields != [] && AnnouncesZero(fields)
    ensures Opened([], fields, false).out == [Served(fields), Done] && Opened([], fields, true).out == [Served(fields)]
  {
  }

  /** The beginning of a head, and the end of it. */
  lemma CompletesAfter(h: seq<byte>, k: nat)
    requires Completes(START, h) && 0 < k < |h|
    ensures Incomplete(START, h[..k]) && Completes(ScanAll(START, h[..k]), h[k..])
    ensures ScanAll(ScanAll(START, h[..k]), h[k..]) == ScanAll(START, h)
  {
    hide ScanAll;
    var front := h[..|h| - 1];
    forall j | 0 <= j <= k ensures !ScanAll(START, h[..k][..j]).Complete? {
      assert h[..k][..j] == front[..j];
    }
    assert h == h[..k] + h[k..];
    ScanConcat(START, h[..k], h[k..]);
    var mid, back := ScanAll(START, h[..k]), h[k..][..|h| - k - 1];
    forall j | 0 <= j <= |back| ensures !ScanAll(mid, back[..j]).Complete? {
      assert front[..k + j] == h[..k] + back[..j];
      ScanConcat(START, h[..k], back[..j]);
    }
  }

  lemma {:induction false} ScanKey(fields: seq<Header>, key: seq<byte>, s: seq<byte>, low: seq<byte>)
    requires |low| == |s| && forall i :: 0 <= i < |s| ==> IsKeyOctet(s[i]) && Lower(s[i]) == low[i]
    ensures ScanAll(InKey(fields, key), s) == InKey(fields, key + low)
    decreases |s|
  {
    hide IsKeyOctet, Lower;
    if s == [] {
      assert key + low == key;
    } else {
      ScanKey(fields, key + [low[0]], s[1..], low[1..]);
      assert key + [low[0]] + low[1..] == key + low;
    }
  }

  lemma {:induction false} ScanValue(fields: seq<Header>, key: seq<byte>, value: seq<byte>, s: seq<byte>)
    requires CR !in s
    ensures ScanAll(InValue(fields, key, value), s) == InValue(fields, key, value + s)
    decreases |s|
  {
    if s == [] {
      assert value + s == value;
    } else {
      ScanValue(fields, key, value + [s[0]], s[1..]);
      assert value + [s[0]] + s[1..] == value + s;
    }
  }

  /** A line: a key, what is skipped, and a value. */
  lemma ScanLine(fields: seq<Header>, s: seq<byte>, low: seq<byte>, skipped: seq<byte>, value: seq<byte>)
    requires |low| == |s| && forall i :: 0 <= i < |s| ==> IsKeyOctet(s[i]) && Lower(s[i]) == low[i]
    requires |skipped| == 1 || (|skipped| == 2 && IsSkipped(skipped[1]))
    requires !IsKeyOctet(skipped[0]) && skipped[0] != CR
    requires value != [] && CR !in value && !IsSkipped(value[0]) && |fields| + 1 < MAX_HEADERS
    ensures ScanAll(InKey(fields, []), s + skipped + value + [CR, LF]) == InKey(fields + [Header(low, value)], [])
  {
    hide IsKeyOctet, IsSkipped, Lower;
    hide ScanAll, ScanStep;
    ScanKey(fields, [], s, low);
    assert [] + low == low;
    ScanSkipped(fields, low, skipped);
    ScanConcat(InKey(fields, []), s, skipped);
    ScanWholeValue(fields, low, value);
    ScanConcat(InKey(fields, []), s + skipped, value + [CR, LF]);
    assert s + skipped + value + [CR, LF] == s + skipped + (value + [CR, LF]);
  }

  lemma ScanSkipped(fields: seq<Header>, key: seq<byte>, skipped: seq<byte>)
    requires |skipped| == 1 || (|skipped| == 2 && IsSkipped(skipped[1]))
    requires !IsKeyOctet(skipped[0]) && skipped[0] != CR
    ensures ScanAll(InKey(fields, key), skipped) == Skipping(fields, key)
  {
    hide IsKeyOctet, IsSkipped, ScanAll;
    SkippedIsNotCr(skipped);
    if |skipped| == 2 {
      assert skipped == [skipped[0], skipped[1]];
      ScanTwo(InKey(fields, key), skipped[0], skipped[1]);
    } else {
      assert skipped == [skipped[0]];
      ScanOne(InKey(fields, key), skipped[0]);
    }
  }

  lemma ScanOne(s: Scan, a: byte)
    ensures ScanAll(s, [a]) == ScanStep(s, a)
  {
    hide ScanStep;
    assert [a][1..] == [];
  }

  lemma ScanTwo(s: Scan, a: byte, b: byte)
    ensures ScanAll(s, [a, b]) == ScanStep(ScanStep(s, a), b)
  {
    hide ScanStep;
    ScanSnoc(s, [a], b);
    ScanOne(s, a);
    assert [a] + [b] == [a, b];
  }

  lemma ScanWholeValue(fields: seq<Header>, key: seq<byte>, value: seq<byte>)
    requires value != [] && CR !in value && !IsSkipped(value[0]) && |fields| + 1 < MAX_HEADERS
    ensures ScanAll(Skipping(fields, key), value + [CR, LF]) == InKey(fields + [Header(key, value)], [])
  {
    hide IsSkipped, ScanAll;
    assert value == [value[0]] + value[1..];
    ScanOne(Skipping(fields, key), value[0]);
    ScanConcat(Skipping(fields, key), [value[0]], value[1..]);
    ScanValue(fields, key, [value[0]], value[1..]);
    ScanConcat(Skipping(fields, key), value, [CR, LF]);
    ScanTwo(InValue(fields, key, value), CR, LF);
  }

  lemma SkippedIsNotCr(skipped: seq<byte>)
    ensures |skipped| == 2 && IsSkipped(skipped[1]) ==> skipped[1] != CR
  {
  }

  /** "GET", " " and "/ HTTP/1.1" in ASCII. */
  const GET: seq<byte> := [71, 69, 84]
  const BLANK: seq<byte> := [32]
  const TARGET: seq<byte> := [47, 32, 72, 84, 84, 80, 47, 49, 46, 49]

  /** "Content-Length", ": " and "0" in ASCII. */
  const NAME: seq<byte> := [67, 111, 110, 116, 101, 110, 116, 45, 76, 101, 110, 103, 116, 104]
  const COLON: seq<byte> := [58, 32]
  const ZERO: seq<byte> := [48]

  const REQUEST: seq<byte> := GET + BLANK + TARGET + [CR, LF] + (NAME + COLON + ZERO + [CR, LF]) + [CR, LF]

  /** The fields of that request, its keys in lower case. */
  const FIELDS: seq<Header> := [Header([103, 101, 116], TARGET), Header(CONTENT_LENGTH, ZERO)]

  lemma RequestIsHead()
    ensures ScanAll(START, REQUEST) == Complete(FIELDS) && Completes(START, REQUEST) && AnnouncesZero(FIELDS)
  {
    hide Completes;
    LiteralOctets();
    var line := GET + BLANK + TARGET + [CR, LF];
    var header := NAME + COLON + ZERO + [CR, LF];
    assert ScanAll(START, REQUEST) == Complete(FIELDS) by {
      hide ScanAll, IsKeyOctet, IsSkipped, Lower;
      ScanLine([], GET, [103, 101, 116], BLANK, TARGET);
      ScanLine([FIELDS[0]], NAME, CONTENT_LENGTH, COLON, ZERO);
      ScanConcat(START, line, header);
      ScanConcat(START, line + header, [CR, LF]);
      assert [] + [FIELDS[0]] == [FIELDS[0]] && [FIELDS[0]] + [FIELDS[1]] == FIELDS;
      EndOfHead(FIELDS);
    }
    CompleteIsFirst(START, REQUEST);
    ZeroIsZero();
  }

  lemma EndOfHead(fields: seq<Header>)
    requires fields != []
    ensures ScanAll(InKey(fields, []), [CR, LF]) == Complete(fields)
  {
    hide ScanAll, IsKeyOctet, IsSkipped;
    CrIsNoKey();
    ScanTwo(InKey(fields, []), CR, LF);
  }

  lemma LiteralOctets()
    ensures forall i :: 0 <= i < |GET| ==> IsKeyOctet(GET[i]) && Lower(GET[i]) == [103, 101, 116][i]
    ensures forall i :: 0 <= i < |NAME| ==> IsKeyOctet(NAME[i]) && Lower(NAME[i]) == CONTENT_LENGTH[i]
    ensures !IsKeyOctet(32) && !IsKeyOctet(58) && IsSkipped(32) && !IsSkipped(47) && !IsSkipped(48)
  {
  }

  lemma ZeroIsZero()
    ensures AnnouncesZero(FIELDS)
  {
    assert FIELDS[1..] == [FIELDS[1]] && FIELDS[1].key == CONTENT_LENGTH && CONTENT_LENGTH != [];
    assert HeaderValue(FIELDS, CONTENT_LENGTH) == ZERO;
    assert ZERO[..0] == [] && ToUnsigned([]) == 0;
    assert ToUnsigned(ZERO) == 0;
  }

  /** The signal for `Content-Length: 0` is given for the whole request, and not when a chunk ends anywhere inside. */
  lemma ZeroSignalDependsOnCuts(k: nat)
    requires 0 < k < |REQUEST|
    ensures ReadChunks([REQUEST]).out == [Served(FIELDS), Done]
    ensures ReadChunks([REQUEST[..k], REQUEST[k..]]).out == [Served(FIELDS)]
    ensures ZeroHeadIsCut([REQUEST[..k], REQUEST[k..]]) && !ZeroHeadIsCut([REQUEST])
  {
    hide Completes, ScanAll, ReadChunks, ZeroHeadIsCut, Run, Flatten, Alike, KnowsCut, AnnouncesZero;
    RequestIsHead();
    WholeAndCut(REQUEST, k);
    var pieces := [REQUEST[..k], REQUEST[k..]];
    CutsMean([REQUEST]);
    CutsMean(pieces);
    PiecesJoin(REQUEST, k);
    ReadWhole(REQUEST);
  }

  lemma PiecesJoin(s: seq<byte>, k: nat)
    requires k <= |s|
    ensures Flatten([s[..k], s[k..]]) == s == Flatten([s])
  {
    FlattenSnoc([s[..k]], s[k..]);
    FlattenSnoc([], s[..k]);
    FlattenSnoc([], s);
    assert [s[..k]] + [s[k..]] == [s[..k], s[k..]] && [] + [s[..k]] == [s[..k]] && [] + [s] == [s];
  }

  /** A stream in one chunk. */
  lemma ReadWhole(s: seq<byte>)
    ensures ReadChunks([s]).out == Run(FRESH, s).out
  {
    hide Run;
    assert [s][..0] == [];
  }

  // ---- A head that is too long only in pieces ----

  /** A head of more than 4096 octets that comes whole is served, and in two pieces it is not. */
  lemma LongHeadCut(h: seq<byte>, k: nat)
    requires Completes(START, h) && |h| > MAX_FALLBACK_SIZE && 0 < k < |h|
    ensures !LongHeadIsCut([h]) && LongHeadIsCut([h[..k], h[k..]])
  {
    hide ScanAll, Run, Completes, ReadChunks, Opened, Flatten;
    PiecesJoin(h, k);
    PiecesJoin(h[..k], 0);
    var pieces := [h[..k], h[k..]];
    assert pieces[..1] == [h[..k]];
    InHeadAt(h, k);
    InHeadAt(h, MAX_FALLBACK_SIZE);
    assert InHead(h, 0, |Flatten(pieces[..1])|);
    if LongHeadIsCut([h]) {
      var i: nat, a: nat :| i <= 1 && InHead(h, a, |Flatten([h][..i])|) && InHead(h, a, a + MAX_FALLBACK_SIZE);
      assert [h][..0] == [] && [h][..1] == [h] && h[..|h|] == h;
      FlattenNothing();
      OpenedIsNoHead(h);
    }
  }

  lemma FlattenNothing()
    ensures Flatten([]) == []
  {
  }

  lemma InHeadAt(h: seq<byte>, k: nat)
    requires Completes(START, h) && 0 < k < |h|
    ensures InHead(h, 0, k)
  {
    hide ScanAll, Run;
    FreshIsValid();
    CompletesAfter(h, k);
    RunIncomplete(FRESH, h[..k]);
  }

  lemma OpenedIsNoHead(h: seq<byte>)
    requires Completes(START, h)
    ensures Run(FRESH, h).phase.Heading? ==> Run(FRESH, h).phase.n == 0
  {
    hide ScanAll, Run, Incomplete, Served, Announces, BodyLength;
    FreshIsValid();
    RunCompletes(FRESH, h);
  }

  const LONG: seq<byte> := seq(MAX_FALLBACK_SIZE, _ => 48)
  const LONG_REQUEST: seq<byte> := GET + BLANK + TARGET + [CR, LF] + (NAME + COLON + LONG + [CR, LF]) + [CR, LF]

  /** So it is with this request, wherever it is cut. */
  lemma LongHeadDependsOnCuts(k: nat)
    requires 0 < k < |LONG_REQUEST|
    ensures !LongHeadIsCut([LONG_REQUEST]) && LongHeadIsCut([LONG_REQUEST[..k], LONG_REQUEST[k..]])
  {
    hide Completes, ScanAll, IsKeyOctet, IsSkipped, Lower, LongHeadIsCut;
    LiteralOctets();
    var line, header := GET + BLANK + TARGET + [CR, LF], NAME + COLON + LONG + [CR, LF];
    ScanLine([], GET, [103, 101, 116], BLANK, TARGET);
    assert [] + [FIELDS[0]] == [FIELDS[0]];
    ScanLine([FIELDS[0]], NAME, CONTENT_LENGTH, COLON, LONG);
    ScanConcat(START, line, header);
    ScanConcat(START, line + header, [CR, LF]);
    EndOfHead([FIELDS[0]] + [Header(CONTENT_LENGTH, LONG)]);
    CompleteIsFirst(START, LONG_REQUEST);
    LongHeadCut(LONG_REQUEST, k);
  }
}
