/** How the reference receiver behaves over whole heads, whole payloads and whole chunks. */
module ReceiveLemmas {
  import opened Bytes
  import opened Utf8
  import opened Frames
  import opened ReceiveSpec

  lemma {:induction false} RunConcat(ctx: Context, st: Receiver, a: seq<byte>, b: seq<byte>)
    requires Valid(ctx, st)
    ensures Run(ctx, st, a + b) == Run(ctx, Run(ctx, st, a), b)
    decreases |a|
  {
    hide Valid, Step;
    if a == [] {
      assert a + b == b;
    } else {
      assert (a + b)[0] == a[0] && (a + b)[1..] == a[1..] + b;
      RunConcat(ctx, Step(ctx, st, a[0]), a[1..], b);
    }
  }

  lemma {:induction false} RunGone(ctx: Context, st: Receiver, s: seq<byte>)
    requires st.Gone?
    ensures Run(ctx, st, s) == st
    decreases |s|
  {
    if s != [] {
      RunGone(ctx, st, s[1..]);
    }
  }

  // ---- Heads ----

  lemma ShorterHead(h: seq<byte>, n: nat)
    requires PartialHead(h) && n <= |h|
    ensures PartialHead(h[..n])
  {
    hide RefusedHead;
  }

  /** Octets that do not yet make up a head are only remembered. */
  lemma {:induction false} RunPartialHead(ctx: Context, st: Receiver, h: seq<byte>, s: seq<byte>)
    requires Valid(ctx, st) && st.Live? && st.phase == Head(h) && PartialHead(h + s)
    ensures Run(ctx, st, s) == st.(phase := Head(h + s))
    decreases |s|
  {
    hide Valid, PartialHead;
    if s == [] {
      assert h + s == h;
    } else {
      var h' := h + [s[0]];
      assert h' + s[1..] == h + s;
      ShorterHead(h + s, |h'|);
      assert (h + s)[..|h'|] == h';
      StepPartialHead(ctx, st, h, s[0]);
      RunPartialHead(ctx, st.(phase := Head(h')), h', s[1..]);
    }
  }

  lemma StepPartialHead(ctx: Context, st: Receiver, h: seq<byte>, b: byte)
    requires Valid(ctx, st) && st.Live? && st.phase == Head(h) && PartialHead(h + [b])
    ensures Step(ctx, st, b) == st.(phase := Head(h + [b]))
  {
    hide RefusedHead;
  }

  /** Six octets are enough to refuse a head. */
  lemma RunRefusedHead(ctx: Context, st: Receiver, s: seq<byte>)
    requires Valid(ctx, st) && st.Live? && st.phase == Head([]) && |s| >= 6 && RefusedHead(s[0], s[1])
    ensures Run(ctx, st, s) == Abort(st, "")
  {
    hide Valid, RefusedHead;
    var h := s[..5];
    assert [] + h == h && s == h + s[5..];
    RunConcat(ctx, st, h, s[5..]);
    RunPartialHead(ctx, st, [], h);
    assert h + [s[5]] == s[..6];
    RunGone(ctx, Abort(st, ""), s[5..][1..]);
  }

  lemma FinishIgnoresPhase(ctx: Context, st: Receiver, phase: Phase)
    requires st.Live? && st.ops != []
    ensures Finish(ctx, st.(phase := phase)) == Finish(ctx, st)
  {
  }

  lemma BeginIgnoresPhase(ctx: Context, st: Receiver, phase: Phase, h: seq<byte>)
    requires st.Live? && WholeHead(h)
    ensures Begin(ctx, st.(phase := phase), h) == Begin(ctx, st, h)
  {
    hide Finish, OpCodeOf, PayloadLength;
    var r := Opened(ctx, st, OpCodeOf(h[0]), IsFin(h[0]), PayloadLength(h));
    if r.Live? {
      FinishIgnoresPhase(ctx, r, phase);
    }
  }

  lemma StepWholeHead(ctx: Context, st: Receiver, h: seq<byte>, b: byte)
    requires Valid(ctx, st) && st.Live? && st.phase == Head(h)
    requires WholeHead(h + [b]) && !RefusedHead((h + [b])[0], (h + [b])[1])
    ensures Step(ctx, st, b) == Begin(ctx, st, h + [b])
  {
    hide RefusedHead, Begin;
  }

  /** A whole head is taken in one go. */
  lemma RunWholeHead(ctx: Context, st: Receiver, s: seq<byte>)
    requires Valid(ctx, st) && st.Live? && st.phase == Head([])
    requires |s| >= 6 && !RefusedHead(s[0], s[1]) && |s| >= HeadSize(s[1])
    ensures WholeHead(s[..HeadSize(s[1])])
    ensures Valid(ctx, Begin(ctx, st, s[..HeadSize(s[1])]))
    ensures Run(ctx, st, s) == Run(ctx, Begin(ctx, st, s[..HeadSize(s[1])]), s[HeadSize(s[1])..])
  {
    hide Valid, RefusedHead, Begin, Step;
    var n := HeadSize(s[1]);
    var h := s[..n - 1];
    assert [] + h == h && s == h + s[n - 1..];
    RunConcat(ctx, st, h, s[n - 1..]);
    RunPartialHead(ctx, st, [], h);
    assert h + [s[n - 1]] == s[..n];
    assert s[n - 1..][0] == s[n - 1] && s[n - 1..][1..] == s[n..];
    StepWholeHead(ctx, st.(phase := Head(h)), h, s[n - 1]);
    BeginIgnoresPhase(ctx, st, Head(h), s[..n]);
    BeginKeepsValid(ctx, st, s[..n]);
  }

  // ---- Payloads ----

  /** Pieces of payload may be absorbed together. */
  lemma AbsorbConcat(ctx: Context, st: Receiver, a: seq<byte>, b: seq<byte>)
    requires st.Live? && st.ops != []
    ensures var r := Absorb(ctx, st, a);
            Absorb(ctx, st, a + b) == if r.Gone? then r else Absorb(ctx, r, b)
  {
    assert (st.data + a) + b == st.data + (a + b);
    assert (st.control + a) + b == st.control + (a + b);
  }

  /** The receiver after a piece of the pending payload, all of it or less. */
  function AfterPiece(ctx: Context, st: Receiver, piece: seq<byte>): Receiver
    requires st.Live? && st.phase.Payload? && st.ops != [] && |st.phase.key| == 4 && |piece| <= st.phase.remaining
  {
    var r := Absorb(ctx, st, piece);
    if r.Gone? then r
    else if |piece| == st.phase.remaining then Finish(ctx, r)
    else r.(phase := Payload(Rotate(st.phase.key, |piece|), st.phase.remaining - |piece|))
  }

  lemma AbsorbNothing(ctx: Context, st: Receiver)
    requires Valid(ctx, st) && st.Live? && st.ops != []
    ensures Absorb(ctx, st, []) == st
  {
    assert st.data + [] == st.data && st.control + [] == st.control;
  }

  /** Taking the first octet on its own makes no difference to the piece it belongs to. */
  lemma FirstOctetApart(ctx: Context, st: Receiver, first: seq<byte>, rest: seq<byte>)
    requires Valid(ctx, st) && st.Live? && st.phase.Payload?
    requires |first| == 1 && 1 + |rest| <= st.phase.remaining
    ensures var r := AfterPiece(ctx, st, first);
            AfterPiece(ctx, st, first + rest)
            == if r.Live? && r.phase.Payload? && st.phase.remaining > 1 then AfterPiece(ctx, r, rest) else r
  {
    hide Finish;
    AbsorbConcat(ctx, st, first, rest);
    assert Rotate(st.phase.key, 1) == Turn(st.phase.key);
    var a := Absorb(ctx, st, first);
    if a.Gone? {
    } else if st.phase.remaining == 1 {
      assert first + rest == first;
    } else {
      var r := a.(phase := Payload(Turn(st.phase.key), st.phase.remaining - 1));
      AbsorbIgnoresPhase(ctx, a, r.phase, rest);
      var b := Absorb(ctx, a, rest);
      if b.Live? {
        FinishIgnoresPhase(ctx, b, r.phase);
      }
    }
  }

  lemma AbsorbIgnoresPhase(ctx: Context, st: Receiver, phase: Phase, piece: seq<byte>)
    requires st.Live? && st.ops != []
    ensures var r := Absorb(ctx, st, piece);
            Absorb(ctx, st.(phase := phase), piece) == if r.Gone? then r else r.(phase := phase)
  {
  }

  lemma StepIsOnePiece(ctx: Context, st: Receiver, b: byte)
    requires Valid(ctx, st) && st.Live? && st.phase.Payload?
    ensures Step(ctx, st, b) == AfterPiece(ctx, st, Unmask(st.phase.key, [b]))
  {
    hide Finish, Absorb, Unmask;
    assert Rotate(st.phase.key, 1) == Turn(st.phase.key);
  }

  /** Payload octets are unmasked and absorbed as one piece, however many of them arrive. */
  lemma {:induction false} RunPayload(ctx: Context, st: Receiver, s: seq<byte>)
    requires Valid(ctx, st) && st.Live? && st.phase.Payload? && |s| <= st.phase.remaining
    ensures Run(ctx, st, s) == AfterPiece(ctx, st, Unmask(st.phase.key, s))
    decreases |s|
  {
    hide Unmask, AfterPiece, Step;
    var key := st.phase.key;
    if s == [] {
      NoPiece(ctx, st);
    } else {
      var first, rest := [s[0]], s[1..];
      assert first + rest == s;
      UnmaskConcat(key, first, rest);
      assert Rotate(key, 1) == Turn(key);
      StepIsOnePiece(ctx, st, s[0]);
      var next := Step(ctx, st, s[0]);
      FirstOctetApart(ctx, st, Unmask(key, first), Unmask(Turn(key), rest));
      if st.phase.remaining == 1 {
        assert rest == [];
      } else {
        NextPhase(ctx, st, s[0]);
        if next.Gone? {
          RunGone(ctx, next, rest);
        } else {
          RunPayload(ctx, next, rest);
        }
      }
    }
  }

  lemma NoPiece(ctx: Context, st: Receiver)
    requires Valid(ctx, st) && st.Live? && st.phase.Payload?
    ensures AfterPiece(ctx, st, Unmask(st.phase.key, [])) == st
  {
    AbsorbNothing(ctx, st);
  }

  lemma NextPhase(ctx: Context, st: Receiver, b: byte)
    requires Valid(ctx, st) && st.Live? && st.phase.Payload? && st.phase.remaining > 1
    ensures var r := Step(ctx, st, b);
            r.Live? ==> r.phase == Payload(Turn(st.phase.key), st.phase.remaining - 1)
  {
    hide Absorb, Unmask;
  }

  /** What a piece of payload does to the receiver, `remaining` octets before the end of its frame. */
  function AfterFragment(ctx: Context, st: Receiver, data: seq<byte>, remaining: nat): (r: Receiver)
    requires st.Live? && st.ops != []
    ensures r.Live? ==> r == st.(data := r.data, control := r.control, log := r.log)
  {
    var a := Absorb(ctx, st, data);
    if a.Gone? || remaining > 0 then a else Deliver(ctx, a)
  }

  /** The rest of the pending payload and possibly more. */
  lemma RunRest(ctx: Context, st: Receiver, s: seq<byte>)
    requires Valid(ctx, st) && st.Live? && st.phase.Payload? && st.phase.remaining <= |s|
    ensures var n := st.phase.remaining;
            var r := AfterFragment(ctx, st, Unmask(st.phase.key, s[..n]), 0);
            if r.Gone? then Run(ctx, st, s) == r
            else Valid(ctx, Popped(r)) && Run(ctx, st, s) == Run(ctx, Popped(r), s[n..])
  {
    hide Unmask, Absorb, Deliver, Valid, Step;
    var n := st.phase.remaining;
    assert s[..n] + s[n..] == s;
    KeyOfPayload(ctx, st);
    RunConcat(ctx, st, s[..n], s[n..]);
    RunPayload(ctx, st, s[..n]);
    var r := AfterFragment(ctx, st, Unmask(st.phase.key, s[..n]), 0);
    if r.Gone? {
      RunGone(ctx, r, s[n..]);
    }
  }

  lemma KeyOfPayload(ctx: Context, st: Receiver)
    requires Valid(ctx, st) && st.Live? && st.phase.Payload?
    ensures |st.phase.key| == 4 && st.ops != [] && st.phase.remaining > 0
  {
  }

  /** A part of the pending payload. */
  lemma RunPart(ctx: Context, st: Receiver, s: seq<byte>)
    requires Valid(ctx, st) && st.Live? && st.phase.Payload? && |s| < st.phase.remaining
    ensures var n := st.phase.remaining - |s|;
            var r := AfterFragment(ctx, st, Unmask(st.phase.key, s), n);
            Run(ctx, st, s) == if r.Gone? then r else r.(phase := Payload(Rotate(st.phase.key, |s|), n))
  {
    hide Unmask, Absorb, Deliver, Rotate;
    RunPayload(ctx, st, s);
  }

  lemma AfterFragmentIgnoresPhase(ctx: Context, st: Receiver, phase: Phase, data: seq<byte>, remaining: nat)
    requires st.Live? && st.ops != []
    ensures var r := AfterFragment(ctx, st, data, remaining);
            AfterFragment(ctx, st.(phase := phase), data, remaining) == if r.Gone? then r else r.(phase := phase)
  {
    hide ValidUtf8, ParsedClose;
  }

  /** A frame whose payload has arrived with its head: one fragment. */
  lemma RunWholeFrame(ctx: Context, st: Receiver, h: seq<byte>, s: seq<byte>)
    requires Valid(ctx, st) && st.Live? && st.phase.Head? && WholeHead(h) && !RefusedHead(h[0], h[1])
    requires PayloadLength(h) <= |s|
    requires Opened(ctx, st, OpCodeOf(h[0]), IsFin(h[0]), PayloadLength(h)).Live?
    ensures Valid(ctx, Begin(ctx, st, h))
    ensures var n := PayloadLength(h);
            var o := Opened(ctx, st, OpCodeOf(h[0]), IsFin(h[0]), n);
            var r := AfterFragment(ctx, o, Unmask(MaskingKey(h), s[..n]), 0);
            if r.Gone? then Run(ctx, Begin(ctx, st, h), s) == r
            else Valid(ctx, Popped(r)) && Run(ctx, Begin(ctx, st, h), s) == Run(ctx, Popped(r), s[n..])
  {
    hide Unmask, Absorb, Deliver, Valid, Opened, OpCodeOf, IsFin, PayloadLength, RefusedHead;
    BeginKeepsValid(ctx, st, h);
    var n := PayloadLength(h);
    var o := Opened(ctx, st, OpCodeOf(h[0]), IsFin(h[0]), n);
    if n > 0 {
      var b := o.(phase := Payload(MaskingKey(h), n));
      RunRest(ctx, b, s);
      AfterFragmentIgnoresPhase(ctx, o, b.phase, Unmask(MaskingKey(h), s[..n]), 0);
    } else {
      OpenedIsFrame(ctx, st, h);
      NothingToAbsorb(ctx, o, MaskingKey(h));
      assert s[..0] == [] && s[0..] == s;
      var r := Begin(ctx, st, h);
      if r.Gone? {
        RunGone(ctx, r, s);
      }
    }
  }

  lemma NothingToAbsorb(ctx: Context, st: Receiver, key: seq<byte>)
    requires st.Live? && AtFrameEnd(ctx, st) && |key| == 4
    ensures Absorb(ctx, st, Unmask(key, [])) == st
  {
    assert st.data + [] == st.data && st.control + [] == st.control;
  }

  /** A frame of whose payload only a part has arrived with its head. */
  lemma RunPartFrame(ctx: Context, st: Receiver, h: seq<byte>, s: seq<byte>)
    requires Valid(ctx, st) && st.Live? && st.phase.Head? && WholeHead(h) && !RefusedHead(h[0], h[1])
    requires |s| < PayloadLength(h)
    requires Opened(ctx, st, OpCodeOf(h[0]), IsFin(h[0]), PayloadLength(h)).Live?
    ensures Valid(ctx, Begin(ctx, st, h))
    ensures var n := PayloadLength(h) - |s|;
            var o := Opened(ctx, st, OpCodeOf(h[0]), IsFin(h[0]), PayloadLength(h));
            var r := AfterFragment(ctx, o, Unmask(MaskingKey(h), s), n);
            Run(ctx, Begin(ctx, st, h), s)
            == if r.Gone? then r else r.(phase := Payload(Rotate(MaskingKey(h), |s|), n))
  {
    hide Unmask, Absorb, Deliver, Valid, Opened, OpCodeOf, IsFin, PayloadLength, RefusedHead, Rotate;
    BeginKeepsValid(ctx, st, h);
    var o := Opened(ctx, st, OpCodeOf(h[0]), IsFin(h[0]), PayloadLength(h));
    var b := o.(phase := Payload(MaskingKey(h), PayloadLength(h)));
    RunPart(ctx, b, s);
    AfterFragmentIgnoresPhase(ctx, o, b.phase, Unmask(MaskingKey(h), s), PayloadLength(h) - |s|);
  }

  // ---- Chunks ----

  /** The reference receiver fed chunk by chunk. */
  function RunChunks(ctx: Context, st: Receiver, chunks: seq<seq<byte>>): (r: Receiver)
    requires Valid(ctx, st)
    ensures Valid(ctx, r)
    decreases |chunks|
  {
    if chunks == [] then st else RunChunks(ctx, Run(ctx, st, chunks[0]), chunks[1..])
  }

  lemma {:induction false} RunChunksIsRun(ctx: Context, st: Receiver, chunks: seq<seq<byte>>)
    requires Valid(ctx, st)
    ensures RunChunks(ctx, st, chunks) == Run(ctx, st, Flatten(chunks))
    decreases |chunks|
  {
    hide Valid;
    if chunks != [] {
      RunConcat(ctx, st, chunks[0], Flatten(chunks[1..]));
      RunChunksIsRun(ctx, Run(ctx, st, chunks[0]), chunks[1..]);
    }
  }
}
