/**
 A socket as a value: what each call of the application makes of it, told from what the kernel is going to take.
 Octets may be of any type, so that they can carry where they come from.
 */
module SocketSpec {
  const CORK_BUFFER_SIZE: nat := 16 * 1024

  /** How many of `n` octets the kernel takes when `kernel` tells how many it will take at most, call by call. */
  function Taken(kernel: seq<nat>, n: nat): (t: nat)
    ensures t <= n
  {
    if |kernel| == 0 || kernel[0] >= n then n else kernel[0]
  }

  /** What is told of the calls after that; writing nothing is no call. */
  function After(kernel: seq<nat>, n: nat): seq<nat> {
    if |kernel| == 0 || n == 0 then kernel else kernel[1..]
  }

  /** Whose the cork of the loop is. */
  datatype Holder = Nobody | Me | Another

  /**
   `wire` is what the kernel has taken, `buffer` the backpressure, `cork` what is in the loop's cork buffer, for
   whomever.
   */
  datatype Socket<T> =
    Socket(wire: seq<T>, buffer: seq<T>, kernel: seq<nat>, ssl: bool, closed: bool, cork: seq<T>, holder: Holder)

  predicate Fits<T>(s: Socket<T>) { |s.cork| <= CORK_BUFFER_SIZE }

  /** Between calls nothing is corked for nobody. */
  predicate Valid<T>(s: Socket<T>) { Fits(s) && (s.holder.Nobody? ==> |s.cork| == 0) }

  // ---- The calls ----

  /** What a call does to the socket, and what it returns. */
  datatype Done<T> = Done(socket: Socket<T>, written: nat, failed: bool)

  /** As much of the backpressure as the kernel takes is sent off. */
  function Flushed<T>(s: Socket<T>): (r: Socket<T>) {
    var n := Taken(s.kernel, |s.buffer|);
    s.(wire := s.wire + s.buffer[..n], buffer := s.buffer[n..], kernel := After(s.kernel, |s.buffer|))
  }

  /** Writing when there is neither a cork nor backpressure. */
  function Through<T>(s: Socket<T>, src: seq<T>, optionally: bool): (r: Done<T>) {
    var n := Taken(s.kernel, |src|);
    var t := s.(wire := s.wire + src[..n], kernel := After(s.kernel, |src|));
    if n == |src| then Done(t, n, false)
    else if optionally then Done(t, n, true)
    else Done(t.(buffer := src[n..]), |src|, true)
  }

  function Write<T>(s: Socket<T>, src: seq<T>, optionally: bool): (r: Done<T>)
    requires Fits(s)
    ensures Fits(r.socket) && r.written <= |src|
    decreases if s.holder.Me? then 1 else 0, 1
  {
    if s.closed then Done(s, |src|, false)
    else
      var t := Flushed(s);
      if |t.buffer| != 0 then
        if optionally then Done(t, 0, true) else Done(t.(buffer := t.buffer + src), |src|, true)
      else if |src| == 0 then Done(t, 0, false)
      else if !t.holder.Me? then Through(t, src, optionally)
      else if |t.cork| + |src| <= CORK_BUFFER_SIZE then Done(t.(cork := t.cork + src), |src|, false)
      else
        var stripped := Stripped(s);
        var u := Uncork(t.(cork := t.cork + src[..stripped]), src[stripped..], optionally);
        Done(u.socket, u.written + stripped, u.failed)
  }

  /** How much of what overflows the cork is corked nevertheless: over TLS what fits. */
  function Stripped<T>(s: Socket<T>): nat
    requires Fits(s)
  {
    if s.ssl then CORK_BUFFER_SIZE - |s.cork| else 0
  }

  function Uncork<T>(s: Socket<T>, src: seq<T>, optionally: bool): (r: Done<T>)
    requires Fits(s)
    ensures Fits(r.socket) && r.written <= |src|
    decreases if s.holder.Me? then 1 else 0, 0
  {
    if !s.holder.Me? then Done(s, 0, false)
    else
      var t := s.(holder := Nobody);
      if |t.cork| == 0 then Write(t, src, optionally)
      else
        var u := Write(t, t.cork, false);
        var v := u.socket.(cork := []);
        if u.failed then Done(v, 0, true) else Write(v, src, optionally)
  }

  /** There is more backpressure than the limit allows, if there is one. */
  predicate Full<T>(s: Socket<T>, maxBackpressure: nat) {
    maxBackpressure != 0 && maxBackpressure < |s.buffer|
  }

  /** A frame is sent, with a cork for the duration of the call if nobody has it. */
  function Send<T>(s: Socket<T>, frame: seq<T>, maxBackpressure: nat): (r: Done<T>)
    requires Fits(s)
    ensures Fits(r.socket)
  {
    if Full(s, maxBackpressure) then Done(s, 0, false)
    else
      var t := if s.holder.Nobody? then s.(holder := Me) else s;
      var u := SendFrame(t, frame);
      if u.failed || !s.holder.Nobody? then u
      else
        var v := Uncork(u.socket, [], false);
        Done(v.socket, 0, v.failed)
  }

  /** Into the cork buffer if there is room, past it otherwise. */
  function SendFrame<T>(s: Socket<T>, frame: seq<T>): (r: Done<T>)
    requires Fits(s)
    ensures Fits(r.socket)
  {
    if s.holder.Me? && |s.cork| + |frame| < CORK_BUFFER_SIZE then Done(s.(cork := s.cork + frame), 0, false)
    else
      var u := Write(s, frame, false);
      Done(u.socket, 0, u.failed)
  }

  /** What can be done with a socket. */
  datatype Op<T> =
    | Corks
    | Writes(src: seq<T>, optionally: bool)
    | Uncorks(src: seq<T>, optionally: bool)
    | Sends(frame: seq<T>, maxBackpressure: nat)
    | Shuts

  function Do<T>(s: Socket<T>, op: Op<T>): (r: Done<T>)
    requires Fits(s)
    ensures Fits(r.socket)
  {
    match op
    case Corks => Done(s.(holder := Me), 0, false)
    case Writes(src, optionally) => Write(s, src, optionally)
    case Uncorks(src, optionally) => Uncork(s, src, optionally)
    case Sends(frame, maxBackpressure) => Send(s, frame, maxBackpressure)
    case Shuts => Done(s.(closed := true), 0, false)
  }

  // ---- What can be told beforehand ----

  /** The backpressure cannot be sent off in one call. */
  predicate Blocked<T>(s: Socket<T>) {
    Taken(s.kernel, |s.buffer|) < |s.buffer|
  }

  /** What the kernel takes after the backpressure has been sent off. */
  function Next<T>(s: Socket<T>): seq<nat> {
    After(s.kernel, |s.buffer|)
  }

  /** Once the backpressure has been sent off, so many octets cannot be. */
  predicate Stuck<T>(s: Socket<T>, n: nat) {
    Taken(Next(s), n) < n
  }

  /** What is corked for this socket. */
  function Corked<T>(s: Socket<T>): seq<T> {
    if s.holder.Me? then s.cork else []
  }

  /** Everything handed over so far, in the order in which it will leave if nothing overtakes. */
  function Stream<T>(s: Socket<T>): seq<T> {
    s.wire + s.buffer + Corked(s)
  }

  /** Corked octets are younger than buffered ones, so nothing may be corked while something is buffered. */
  predicate Ordered<T>(s: Socket<T>) {
    |Corked(s)| == 0 || |s.buffer| == 0
  }

  /** Data written now, and not optionally, leaves before what is corked. */
  predicate Overtakes<T>(s: Socket<T>) {
    !s.closed && |Corked(s)| != 0 && Blocked(s)
  }

  /** So many octets overflow the cork, and there is no backpressure in the way of flushing it. */
  predicate Overflows<T>(s: Socket<T>, n: nat) {
    !s.closed && s.holder.Me? && |s.cork| + n > CORK_BUFFER_SIZE && !Blocked(s)
  }

  /** So many octets overflow the cork, and what it then holds cannot be sent off. */
  predicate Cuts<T>(s: Socket<T>, n: nat)
    requires Fits(s)
  {
    Overflows(s, n) && Stuck(s, |s.cork| + Stripped(s))
  }

  /** What is corked cannot be sent off altogether. */
  predicate UncorkFails<T>(s: Socket<T>) {
    !s.closed && |Corked(s)| != 0 && (Blocked(s) || Stuck(s, |s.cork|))
  }

  function Rest(kernel: seq<nat>, n: nat, optionally: bool): (k: nat)
    ensures k <= n
  {
    if optionally then Taken(kernel, n) else n
  }

  /** How much of `n` octets a write reports as written. */
  function Reports<T>(s: Socket<T>, n: nat, optionally: bool): (k: nat)
    requires Fits(s)
    ensures k <= n
  {
    if s.closed then n
    else if Blocked(s) then (if optionally then 0 else n)
    else if !s.holder.Me? then Rest(Next(s), n, optionally)
    else if |s.cork| + n <= CORK_BUFFER_SIZE then n
    else
      var stripped := Stripped(s);
      stripped + if Cuts(s, n) then 0
                 else Rest(After(Next(s), |s.cork| + stripped), n - stripped, optionally)
  }

  /** Whether a write reports a failure. */
  predicate Fails<T>(s: Socket<T>, n: nat)
    requires Fits(s)
  {
    !s.closed &&
    ( || Blocked(s)
      || (!s.holder.Me? && Stuck(s, n))
      || Cuts(s, n)
      || (Overflows(s, n) &&
          var stripped := Stripped(s);
          Taken(After(Next(s), |s.cork| + stripped), n - stripped) < n - stripped))
  }

  // ---- What the calls mean ----

  lemma FlushedMeans<T>(s: Socket<T>)
    ensures var t := Flushed(s);
            && t.wire + t.buffer == s.wire + s.buffer && s.wire <= t.wire
            && t == s.(wire := t.wire, buffer := t.buffer, kernel := Next(s))
            && (|t.buffer| != 0 <==> Blocked(s)) && (!Blocked(s) ==> t.wire == s.wire + s.buffer)
            && |t.wire| == |s.wire| + Taken(s.kernel, |s.buffer|)
  {
    var n := Taken(s.kernel, |s.buffer|);
    assert s.buffer == s.buffer[..n] + s.buffer[n..];
  }

  lemma ThroughMeans<T>(s: Socket<T>, src: seq<T>, optionally: bool)
    requires |s.buffer| == 0
    ensures var r := Through(s, src, optionally);
            && r.written == Rest(s.kernel, |src|, optionally) && (r.failed <==> Taken(s.kernel, |src|) < |src|)
            && r.socket.wire + r.socket.buffer == s.wire + src[..r.written] && s.wire <= r.socket.wire
            && (!r.failed ==> r.socket.buffer == []) && (r.failed && !optionally ==> r.socket.buffer != [])
            && r.socket == s.(wire := r.socket.wire, buffer := r.socket.buffer, kernel := After(s.kernel, |src|))
  {
    var n := Taken(s.kernel, |src|);
    assert src == src[..n] + src[n..] && src[..|src|] == src;
  }

  /** What a write that is not corked does. */
  lemma UncorkedWrite<T>(s: Socket<T>, src: seq<T>, optionally: bool)
    requires Fits(s) && !s.closed && !s.holder.Me?
    ensures var r := Write(s, src, optionally);
            && r.written == Reports(s, |src|, optionally) && (r.failed <==> Fails(s, |src|))
            && r.socket.wire + r.socket.buffer == s.wire + s.buffer + src[..r.written] && s.wire <= r.socket.wire
            && (!r.failed ==> r.socket.buffer == []) && (r.failed && !optionally ==> r.socket.buffer != [])
            && (!Blocked(s) ==> r.socket.kernel == After(Next(s), |src|))
            && r.socket == s.(wire := r.socket.wire, buffer := r.socket.buffer, kernel := r.socket.kernel)
  {
    hide Flushed, Through, Taken;
    FlushedMeans(s);
    var t := Flushed(s);
    assert src[..|src|] == src && src[..0] == [];
    if !Blocked(s) {
      if |src| == 0 {
        NothingTaken(Next(s));
      } else {
        ThroughMeans(t, src, optionally);
      }
    }
  }

  lemma NothingTaken(kernel: seq<nat>)
    ensures Taken(kernel, 0) == 0 && After(kernel, 0) == kernel
  {
  }

  /** Without backpressure the next call of the kernel is for what is written next. */
  lemma NothingBuffered<T>(s: Socket<T>)
    requires |s.buffer| == 0
    ensures !Blocked(s) && Next(s) == s.kernel
  {
  }

  /** How much of `n` octets is reported when they are written with the cork taken off. */
  function UncorkReports<T>(s: Socket<T>, n: nat, optionally: bool): (k: nat)
    ensures k <= n
  {
    if !s.holder.Me? || UncorkFails(s) then 0
    else if s.closed then n
    else if Blocked(s) then (if optionally then 0 else n)
    else Rest(After(Next(s), |s.cork|), n, optionally)
  }

  /** What taking off the cork does: what is corked follows what is buffered, and new data what was corked. */
  lemma UncorkMeans<T>(s: Socket<T>, src: seq<T>, optionally: bool)
    requires Fits(s)
    ensures var r := Uncork(s, src, optionally);
            && r.written == UncorkReports(s, |src|, optionally)
            && (!s.holder.Me? ==> r.socket == s && !r.failed)
            && (s.holder.Me? ==> r.socket.holder.Nobody? && r.socket.cork == [] && r.socket.closed == s.closed)
            && (s.holder.Me? && s.closed ==> r.socket == s.(holder := Nobody, cork := []) && !r.failed)
            && (!s.closed ==> Stream(r.socket) == Stream(s) + src[..r.written])
            && s.wire <= r.socket.wire && r.socket.ssl == s.ssl
    ensures var r := Uncork(s, src, optionally);
            s.holder.Me? && !s.closed ==>
              && (r.failed <==> Blocked(s) || Stuck(s, |s.cork|)
                                || Taken(After(Next(s), |s.cork|), |src|) < |src|)
              && (!r.failed ==> r.socket.buffer == []) && (r.failed && !optionally ==> r.socket.buffer != [])
              && (UncorkFails(s) ==> r.failed && r.socket.buffer != [])
  {
    hide Write, Taken, After;
    assert src[..0] == [];
    if s.holder.Me? {
      var t := s.(holder := Nobody);
      if s.closed {
        ClosedWrite(t, t.cork, false);
        ClosedWrite(t.(cork := []), src, optionally);
      } else if |s.cork| == 0 {
        NothingTaken(Next(s));
        UncorkedWrite(t, src, optionally);
      } else {
        UncorkSome(s, src, optionally);
      }
    }
  }

  lemma UncorkSome<T>(s: Socket<T>, src: seq<T>, optionally: bool)
    requires Fits(s) && s.holder.Me? && !s.closed && |s.cork| != 0
    ensures var r := Uncork(s, src, optionally);
            && r.written == UncorkReports(s, |src|, optionally)
            && r.socket.wire + r.socket.buffer == Stream(s) + src[..r.written] && s.wire <= r.socket.wire
            && r.socket == s.(wire := r.socket.wire, buffer := r.socket.buffer, kernel := r.socket.kernel,
                              cork := [], holder := Nobody)
            && (r.failed <==> UncorkFails(s) || Taken(After(Next(s), |s.cork|), |src|) < |src|)
            && (!r.failed ==> r.socket.buffer == []) && (r.failed && !optionally ==> r.socket.buffer != [])
            && (UncorkFails(s) ==> r.socket.buffer != [])
  {
    hide Write, Taken, After, UncorkFails, Stream;
    CorkWritten(s);
    assert src[..0] == [];
    var v := Write(s.(holder := Nobody), s.cork, false).socket.(cork := []);
    if UncorkFails(s) {
      assert Stream(s) + [] == Stream(s);
    } else {
      NothingBuffered(v);
      NotBlocked(s);
      UncorkedWrite(v, src, optionally);
    }
  }

  lemma NotBlocked<T>(s: Socket<T>)
    requires Fits(s) && !s.closed && s.holder.Me? && |s.cork| != 0 && !UncorkFails(s)
    ensures !Blocked(s)
  {
  }

  /** What is corked is written when the cork has been taken off. */
  lemma CorkWritten<T>(s: Socket<T>)
    requires Fits(s) && s.holder.Me? && !s.closed && |s.cork| != 0
    ensures var u := Write(s.(holder := Nobody), s.cork, false);
            && (u.failed <==> UncorkFails(s)) && (u.failed <==> u.socket.buffer != [])
            && (!u.failed ==> u.socket.kernel == After(Next(s), |s.cork|))
            && u.socket.wire + u.socket.buffer == Stream(s) && s.wire <= u.socket.wire
            && u.socket == s.(wire := u.socket.wire, buffer := u.socket.buffer, kernel := u.socket.kernel,
                              holder := Nobody)
  {
    hide Write, Taken, After;
    UncorkedWrite(s.(holder := Nobody), s.cork, false);
    assert s.cork[..|s.cork|] == s.cork;
  }

  lemma ClosedWrite<T>(s: Socket<T>, src: seq<T>, optionally: bool)
    requires Fits(s) && s.closed
    ensures Write(s, src, optionally) == Done(s, |src|, false)
  {
  }

  /**
   What a write does. What it reports as written joins the stream at its end, unless it overtakes what is corked; all
   of it is written unless it is optional or cuts what overflows the cork.
   */
  lemma WriteMeans<T>(s: Socket<T>, src: seq<T>, optionally: bool)
    requires Fits(s)
    ensures var r := Write(s, src, optionally);
            && r.written == Reports(s, |src|, optionally) && (r.failed <==> Fails(s, |src|))
            && (s.closed ==> r.socket == s)
            && (!s.closed ==> Stream(r.socket) == if !optionally && Overtakes(s)
                                                  then s.wire + s.buffer + src + Corked(s)
                                                  else Stream(s) + src[..r.written])
            && s.wire <= r.socket.wire && r.socket.ssl == s.ssl && r.socket.closed == s.closed
    ensures var r := Write(s, src, optionally);
            && (!r.failed && !s.closed ==> r.socket.buffer == [])
            && (r.failed && !optionally ==> r.socket.buffer != [])
            && if Overflows(s, |src|) then r.socket.holder.Nobody? && r.socket.cork == []
               else && r.socket.holder == s.holder
                    && r.socket.cork == s.cork + if s.holder.Me? && !s.closed && !Blocked(s) then src else []
  {
    hide Write, Taken, After, Uncork;
    if s.closed {
      ClosedWrite(s, src, optionally);
    } else if !s.holder.Me? {
      UncorkedWrite(s, src, optionally);
    } else if Overflows(s, |src|) {
      OverflowMeans(s, src, optionally);
    } else {
      CorkedWrite(s, src, optionally);
    }
  }

  /** Data that goes into the cork buffer, or stays behind backpressure. */
  lemma CorkedWrite<T>(s: Socket<T>, src: seq<T>, optionally: bool)
    requires Fits(s) && !s.closed && s.holder.Me? && !Overflows(s, |src|)
    ensures var r := Write(s, src, optionally);
            && r.written == Reports(s, |src|, optionally) && (r.failed <==> Blocked(s))
            && Stream(r.socket) == (if !optionally && Overtakes(s) then s.wire + s.buffer + src + Corked(s)
                                    else Stream(s) + src[..r.written])
            && s.wire <= r.socket.wire && (r.socket.buffer != [] <==> r.failed)
            && (!Blocked(s) ==> r.socket.wire == s.wire + s.buffer)
            && r.socket == s.(wire := r.socket.wire, buffer := r.socket.buffer, kernel := Next(s),
                              cork := s.cork + if Blocked(s) then [] else src)
  {
    hide Write, Blocked, Stream;
    assert s.cork + [] == s.cork;
    if Blocked(s) {
      BlockedWrite(s, src, optionally);
    } else {
      FittingWrite(s, src, optionally);
    }
  }

  lemma BlockedWrite<T>(s: Socket<T>, src: seq<T>, optionally: bool)
    requires Fits(s) && !s.closed && s.holder.Me? && Blocked(s)
    ensures var r := Write(s, src, optionally);
            && r.written == Reports(s, |src|, optionally) && r.failed
            && Stream(r.socket) == (if !optionally && Overtakes(s) then s.wire + s.buffer + src + Corked(s)
                                    else Stream(s) + src[..r.written])
            && s.wire <= r.socket.wire && r.socket.buffer != []
            && r.socket == s.(wire := r.socket.wire, buffer := r.socket.buffer, kernel := Next(s))
  {
    hide Flushed, Taken, After, Uncork, Through;
    FlushedMeans(s);
    assert src[..0] == [] && src[..|src|] == src;
  }

  lemma FittingWrite<T>(s: Socket<T>, src: seq<T>, optionally: bool)
    requires Fits(s) && !s.closed && s.holder.Me? && !Blocked(s) && |s.cork| + |src| <= CORK_BUFFER_SIZE
    ensures var r := Write(s, src, optionally);
            && r.written == |src| && !r.failed && Stream(r.socket) == Stream(s) + src[..|src|]
            && s.wire <= r.socket.wire == s.wire + s.buffer && r.socket.buffer == []
            && r.socket == s.(wire := r.socket.wire, buffer := [], kernel := Next(s), cork := s.cork + src)
  {
    hide Flushed, Taken, After, Uncork, Through;
    FlushedMeans(s);
    assert src[..|src|] == src && s.cork + [] == s.cork;
  }

  /** Data that overflows the cork: the part that is still corked goes with what is corked. */
  lemma OverflowIsUncork<T>(s: Socket<T>, src: seq<T>, optionally: bool)
    requires Fits(s) && Overflows(s, |src|)
    ensures Stripped(s) <= |src| && Stripped(s) + |s.cork| <= CORK_BUFFER_SIZE
    ensures var k := Stripped(s);
            var v := s.(wire := s.wire + s.buffer, buffer := [], kernel := Next(s), cork := s.cork + src[..k]);
            var u := Uncork(v, src[k..], optionally);
            Write(s, src, optionally) == Done(u.socket, u.written + k, u.failed)
  {
    hide Flushed, Taken, After, Uncork;
    FlushedMeans(s);
  }

  lemma OverflowMeans<T>(s: Socket<T>, src: seq<T>, optionally: bool)
    requires Fits(s) && Overflows(s, |src|)
    ensures var r := Write(s, src, optionally);
            && r.written == Reports(s, |src|, optionally) && (r.failed <==> Fails(s, |src|))
            && Stream(r.socket) == Stream(s) + src[..r.written] && s.wire <= r.socket.wire
            && r.socket.ssl == s.ssl && !r.socket.closed && r.socket.holder.Nobody? && r.socket.cork == []
            && (!r.failed ==> r.socket.buffer == []) && (r.failed && !optionally ==> r.socket.buffer != [])
  {
    hide Write, Taken, After, Uncork, Reports, Fails, UncorkReports, Stream, Blocked, Stuck;
    OverflowIsUncork(s, src, optionally);
    var k := Stripped(s);
    var v := s.(wire := s.wire + s.buffer, buffer := [], kernel := Next(s), cork := s.cork + src[..k]);
    UncorkMeans(v, src[k..], optionally);
    var u := Uncork(v, src[k..], optionally);
    StreamStripped(s, src, k, u.written);
    OverflowTold(s, src, optionally);
  }

  /** What is reported of data that overflows the cork, told from the state in which the cork is taken off. */
  lemma OverflowTold<T>(s: Socket<T>, src: seq<T>, optionally: bool)
    requires Fits(s) && Overflows(s, |src|)
    ensures Stripped(s) <= |src| && Stripped(s) + |s.cork| <= CORK_BUFFER_SIZE
    ensures var k := Stripped(s);
            var v := s.(wire := s.wire + s.buffer, buffer := [], kernel := Next(s), cork := s.cork + src[..k]);
            && UncorkReports(v, |src| - k, optionally) + k == Reports(s, |src|, optionally)
            && (Fails(s, |src|) <==> Blocked(v) || Stuck(v, |v.cork|)
                                     || Taken(After(Next(v), |v.cork|), |src| - k) < |src| - k)
  {
    hide Taken, After;
    var k := Stripped(s);
    NothingBuffered(s.(wire := s.wire + s.buffer, buffer := [], kernel := Next(s), cork := s.cork + src[..k]));
    StuckNothing(s);
  }

  lemma StreamStripped<T>(s: Socket<T>, src: seq<T>, k: nat, n: nat)
    requires s.holder.Me? && k + n <= |src|
    ensures var v := s.(wire := s.wire + s.buffer, buffer := [], kernel := Next(s), cork := s.cork + src[..k]);
            Stream(v) + src[k..][..n] == Stream(s) + src[..n + k]
  {
    assert src[..k] + src[k..][..n] == src[..n + k];
  }

  lemma StuckNothing<T>(s: Socket<T>)
    ensures !Stuck(s, 0)
  {
  }

  // ---- Sending frames ----

  /** The socket with the cork, if nobody has it. */
  function Taking<T>(s: Socket<T>): Socket<T> {
    if s.holder.Nobody? then s.(holder := Me) else s
  }

  /** How much of a frame is put into the stream. */
  function SendAccepts<T>(s: Socket<T>, n: nat, maxBackpressure: nat): (k: nat)
    requires Fits(s)
    ensures k <= n
  {
    if Full(s, maxBackpressure) then 0 else Reports(Taking(s), n, false)
  }

  /** A frame overtakes what is corked if it does not get into the cork buffer. */
  predicate SendOvertakes<T>(s: Socket<T>, n: nat, maxBackpressure: nat) {
    Overtakes(s) && !Full(s, maxBackpressure) && |s.cork| + n >= CORK_BUFFER_SIZE
  }

  /** The cork taken for a frame stays on. */
  predicate StaysOn<T>(s: Socket<T>, n: nat, maxBackpressure: nat) {
    s.holder.Nobody? && !s.closed && !Full(s, maxBackpressure) && Blocked(s) && n >= CORK_BUFFER_SIZE
  }

  predicate SendFails<T>(s: Socket<T>, n: nat, maxBackpressure: nat)
    requires Fits(s)
  {
    !s.closed && !Full(s, maxBackpressure) &&
    match s.holder
    case Nobody => Blocked(s) || (if n <= CORK_BUFFER_SIZE then Stuck(s, n) else Fails(Taking(s), n))
    case Me => |s.cork| + n >= CORK_BUFFER_SIZE && Fails(s, n)
    case Another => Fails(s, n)
  }

  lemma CorkedStream<T>(s: Socket<T>, frame: seq<T>)
    requires s.holder.Me?
    ensures Stream(s.(cork := s.cork + frame)) == Stream(s) + frame
  {
  }

  lemma SendFrameMeans<T>(s: Socket<T>, frame: seq<T>)
    requires Fits(s) && !s.closed
    ensures var r := SendFrame(s, frame);
            && Stream(r.socket) == (if Overtakes(s) && |s.cork| + |frame| >= CORK_BUFFER_SIZE
                                    then s.wire + s.buffer + frame + Corked(s)
                                    else Stream(s) + frame[..Reports(s, |frame|, false)])
            && s.wire <= r.socket.wire && r.socket.ssl == s.ssl && !r.socket.closed
            && (r.failed <==> (s.holder.Me? ==> |s.cork| + |frame| >= CORK_BUFFER_SIZE) && Fails(s, |frame|))
            && (r.failed ==> r.socket.buffer != [])
            && (!r.failed && !r.socket.holder.Me? ==> r.socket.buffer == [])
    ensures var r := SendFrame(s, frame);
            if Overflows(s, |frame|) then r.socket.holder.Nobody? && r.socket.cork == []
            else
              && r.socket.holder == s.holder
              && r.socket.cork == s.cork + if s.holder.Me? && (!Blocked(s) || |s.cork| + |frame| < CORK_BUFFER_SIZE)
                                           then frame else []
    ensures var r := SendFrame(s, frame);
            s.holder.Me? && !r.failed && |s.cork| + |frame| <= CORK_BUFFER_SIZE ==>
              r.socket == if |s.cork| + |frame| < CORK_BUFFER_SIZE then s.(cork := s.cork + frame)
                          else s.(wire := s.wire + s.buffer, buffer := [], kernel := Next(s), cork := s.cork + frame)
  {
    hide Write, Taken, After;
    assert frame[..|frame|] == frame && s.cork + [] == s.cork;
    if s.holder.Me? && |s.cork| + |frame| < CORK_BUFFER_SIZE {
      CorkedStream(s, frame);
    } else {
      WriteMeans(s, frame, false);
      if s.holder.Me? && |s.cork| + |frame| == CORK_BUFFER_SIZE {
        CorkedWrite(s, frame, false);
      }
    }
  }

  /** A frame for which the cork has been taken, which is taken off again unless there has been a failure. */
  lemma SendAlone<T>(s: Socket<T>, frame: seq<T>)
    requires Valid(s) && !s.closed && s.holder.Nobody?
    ensures var n, r := |frame|, Send(s, frame, 0);
            && r.socket.wire + r.socket.buffer == s.wire + s.buffer + frame[..SendAccepts(s, n, 0)]
            && s.wire <= r.socket.wire && r.socket.ssl == s.ssl && !r.socket.closed && r.socket.cork == []
            && (r.failed <==> SendFails(s, n, 0)) && (r.failed <==> r.socket.buffer != [])
            && r.socket.holder == if StaysOn(s, n, 0) then Me else Nobody
  {
    hide SendFrame, Taken, After, Uncork;
    var n, t := |frame|, Taking(s);
    SendFrameMeans(t, frame);
    var u := SendFrame(t, frame);
    assert u.socket.holder.Nobody? ==> u.socket.cork == [];
    assert frame[..n] == frame && Stream(t) == s.wire + s.buffer;
    if !u.failed {
      var none: seq<T> := [];
      UncorkMeans(u.socket, none, false);
      var v := Uncork(u.socket, none, false);
      assert none[..v.written] == none && Stream(u.socket) + none == Stream(u.socket);
      NothingTaken(After(Next(u.socket), |u.socket.cork|));
      if |u.socket.buffer| == 0 {
        NothingBuffered(u.socket);
      }
    }
  }

  lemma SendMeans<T>(s: Socket<T>, frame: seq<T>, maxBackpressure: nat)
    requires Valid(s) && !s.closed
    ensures var n, r := |frame|, Send(s, frame, maxBackpressure);
            && Stream(r.socket) == (if SendOvertakes(s, n, maxBackpressure)
                                    then s.wire + s.buffer + frame + Corked(s)
                                    else Stream(s) + frame[..SendAccepts(s, n, maxBackpressure)])
            && s.wire <= r.socket.wire && r.socket.ssl == s.ssl && !r.socket.closed && Valid(r.socket)
            && (r.failed <==> SendFails(s, n, maxBackpressure))
            && (Full(s, maxBackpressure) ==> r.socket == s)
    ensures var n, r := |frame|, Send(s, frame, maxBackpressure);
            && (r.failed ==> r.socket.buffer != [])
            && (!r.failed && !r.socket.holder.Me? ==> r.socket.buffer == [] || Full(s, maxBackpressure))
            && (r.socket.holder.Another? <==> s.holder.Another?)
            && (s.holder.Another? ==> r.socket.cork == s.cork)
            && (s.holder.Nobody? ==> (r.socket.holder.Me? <==> StaysOn(s, n, maxBackpressure)))
  {
    hide SendFrame, Taken, After, Uncork, Fails;
    if Full(s, maxBackpressure) {
      assert frame[..0] == [] && Stream(s) + [] == Stream(s);
    } else if s.holder.Nobody? {
      SendAlone(s, frame);
      assert s.wire + s.buffer + [] == s.wire + s.buffer;
    } else {
      SendFrameMeans(s, frame);
      assert s.cork + [] == s.cork;
    }
  }

  // ---- Calls, one after the other ----

  /** The octets that a call hands over. */
  function Handed<T>(op: Op<T>): seq<T> {
    match op
    case Writes(src, _) => src
    case Uncorks(src, _) => src
    case Sends(frame, _) => frame
    case _ => []
  }

  /** How many of them join the stream. */
  function Accepts<T>(s: Socket<T>, op: Op<T>): (n: nat)
    requires Fits(s)
    ensures n <= |Handed(op)|
  {
    match op
    case Writes(src, optionally) => Reports(s, |src|, optionally)
    case Uncorks(src, optionally) => UncorkReports(s, |src|, optionally)
    case Sends(frame, maxBackpressure) => SendAccepts(s, |frame|, maxBackpressure)
    case _ => 0
  }

  /** A call takes over what is corked for another socket. */
  predicate TakesOver<T>(s: Socket<T>, op: Op<T>) {
    op.Corks? && s.holder.Another? && |s.cork| != 0
  }

  /** What joins the stream. */
  function Gains<T>(s: Socket<T>, op: Op<T>): seq<T>
    requires Fits(s)
  {
    if TakesOver(s, op) then s.cork else Handed(op)[..Accepts(s, op)]
  }

  /** How many octets of the stream it overtakes: all that are corked, or none. */
  function Passes<T>(s: Socket<T>, op: Op<T>): nat {
    match op
    case Writes(_, optionally) => if !optionally && Overtakes(s) then |s.cork| else 0
    case Sends(frame, maxBackpressure) => if SendOvertakes(s, |frame|, maxBackpressure) then |s.cork| else 0
    case _ => 0
  }

  /** `src` put in before the last `k` octets. */
  function Place<T>(s: seq<T>, src: seq<T>, k: nat): seq<T> {
    var at := if k <= |s| then |s| - k else 0;
    s[..at] + src + s[at..]
  }

  lemma PlaceLast<T>(s: seq<T>, src: seq<T>)
    ensures Place(s, src, 0) == s + src
  {
    assert s[..|s|] == s && s[|s|..] == [];
  }

  lemma PlaceBefore<T>(front: seq<T>, src: seq<T>, back: seq<T>)
    ensures Place(front + back, src, |back|) == front + src + back
  {
    assert (front + back)[..|front|] == front && (front + back)[|front|..] == back;
  }

  /** One call: what joins the stream joins it at its end, or before what it overtakes. */
  lemma DoMeans<T>(s: Socket<T>, op: Op<T>)
    requires Valid(s) && !s.closed && !op.Shuts?
    ensures var t := Do(s, op).socket;
            && Valid(t) && !t.closed && t.ssl == s.ssl && s.wire <= t.wire
            && Stream(t) == Place(Stream(s), Gains(s, op), Passes(s, op))
            && (t.holder.Another? ==> s.holder.Another? && t.cork == s.cork)
  {
    hide Place, Write, Uncork, Send, Reports, UncorkReports, SendAccepts, Taken, After, Fails;
    PlaceLast(Stream(s), Gains(s, op));
    PlaceBefore(s.wire + s.buffer, Handed(op), Corked(s));
    match op
    case Corks =>
      assert s.wire + s.buffer + [] == s.wire + s.buffer;
      assert Handed(op)[..0] == [] && Stream(s) + [] == Stream(s);
    case Writes(src, optionally) =>
      WriteMeans(s, src, optionally);
      AllReported(s, |src|);
      assert src[..|src|] == src && s.cork + [] == s.cork;
    case Uncorks(src, optionally) =>
      UncorkMeans(s, src, optionally);
    case Sends(frame, maxBackpressure) =>
      SendMeans(s, frame, maxBackpressure);
      AllAccepted(s, |frame|, maxBackpressure);
      assert frame[..|frame|] == frame;
  }

  /** Without sending no octets get corked behind backpressure, and so nothing is overtaken. */
  lemma DoKeepsOrder<T>(s: Socket<T>, op: Op<T>)
    requires Valid(s) && !s.closed && !op.Shuts? && Ordered(s) && !op.Sends? && !TakesOver(s, op)
    ensures Ordered(Do(s, op).socket) && Passes(s, op) == 0
  {
    hide Write, Uncork, Taken, After;
    match op
    case Corks =>
    case Writes(src, optionally) => WriteMeans(s, src, optionally);
    case Uncorks(src, optionally) => UncorkMeans(s, src, optionally);
  }

  lemma AllReported<T>(s: Socket<T>, n: nat)
    requires Fits(s)
    ensures Overtakes(s) ==> Reports(s, n, false) == n
  {
  }

  lemma AllAccepted<T>(s: Socket<T>, n: nat, maxBackpressure: nat)
    requires Fits(s)
    ensures SendOvertakes(s, n, maxBackpressure) ==> SendAccepts(s, n, maxBackpressure) == n
  {
  }

  /**
   What a call returns is how much has joined the stream; of a frame it only tells that it has joined whole, or has
   been skipped because of the limit.
   */
  lemma ReturnsTell<T>(s: Socket<T>, op: Op<T>)
    requires Valid(s) && !s.closed
    ensures op.Writes? || op.Uncorks? ==> Do(s, op).written == |Gains(s, op)| && Gains(s, op) <= Handed(op)
    ensures op.Sends? && !Do(s, op).failed && !Full(s, op.maxBackpressure) ==> Gains(s, op) == op.frame
  {
    hide Write, Uncork, Send, Reports, UncorkReports, Taken, After;
    match op
    case Writes(src, optionally) => WriteMeans(s, src, optionally);
    case Uncorks(src, optionally) => UncorkMeans(s, src, optionally);
    case Sends(frame, maxBackpressure) =>
      SendMeans(s, frame, maxBackpressure);
      if !Full(s, maxBackpressure) && |frame| != 0 {
        WholeOrCut(s, op);
        CutFails(s, |frame|, maxBackpressure);
      }
    case _ =>
  }

  /**
   Data that has to be written joins the stream whole exactly when it does not cut what overflows the cork; when the
   cork is taken off, exactly when there is one and what is corked can be sent off; and a frame, exactly when it is
   within the limit and does not cut.
   */
  lemma WholeOrCut<T>(s: Socket<T>, op: Op<T>)
    requires Valid(s) && !s.closed && Handed(op) != []
    ensures op.Writes? && !op.optionally ==> (Gains(s, op) == op.src <==> !Cuts(s, |op.src|))
    ensures op.Uncorks? && !op.optionally ==> (Gains(s, op) == op.src <==> s.holder.Me? && !UncorkFails(s))
    ensures op.Sends? ==> (Gains(s, op) == op.frame <==>
                           !Full(s, op.maxBackpressure) && !Cuts(Taking(s), |op.frame|))
  {
    hide Taken, After;
    var h := Handed(op);
    assert h[..|h|] == h;
    forall k: nat | k <= |h| && h[..k] == h ensures k == |h| {
      assert |h[..k]| == k;
    }
  }

  /** How many octets are on their way: sent, buffered, or corked for this socket. */
  function OnTheirWay<T>(s: Socket<T>): nat {
    |s.wire| + |s.buffer| + if s.holder.Me? then |s.cork| else 0
  }

  /**
   A frame is skipped if and only if there is a limit and more is buffered than it allows; and if it is not skipped,
   all of it gets on its way unless it is cut. What does not fit into 16 KB with what is corked takes the cork off.
   */
  lemma LimitMeans<T>(s: Socket<T>, frame: seq<T>, max: nat)
    requires Valid(s) && !s.closed && |frame| != 0
    ensures max != 0 && |s.buffer| > max ==> Send(s, frame, max) == Done(s, 0, false)
    ensures (max == 0 || |s.buffer| <= max) && !Cuts(Taking(s), |frame|) ==>
              OnTheirWay(Send(s, frame, max).socket) == OnTheirWay(s) + |frame|
    ensures s.holder.Me? && |s.buffer| == 0 && (max == 0 || |s.buffer| <= max) ==>
              (Send(s, frame, max).socket.holder.Me? <==> |s.cork| + |frame| <= 16384)
  {
    hide Write, Uncork, Taken, After, SendFrame, SendFails, StaysOn;
    SendMeans(s, frame, max);
    WholeOrCut(s, Sends(frame, max));
    LengthOfStream(s);
    LengthOfStream(Send(s, frame, max).socket);
    assert |frame[..|frame|]| == |frame|;
    if s.holder.Me? && |s.buffer| == 0 {
      NothingBuffered(s);
      SendFrameMeans(s, frame);
    }
  }

  lemma LengthOfStream<T>(s: Socket<T>)
    ensures |Stream(s)| == OnTheirWay(s)
  {
  }

  /**
   Data that has to be written is written whole unless it is cut; data that need not be is not added to backpressure. Of
   what is cut the part is reported that fills up the cork over TLS, and nothing otherwise.
   */
  lemma OptionalMeans<T>(s: Socket<T>, src: seq<T>)
    requires Valid(s) && !s.closed
    ensures !Cuts(s, |src|) ==> Write(s, src, false).written == |src|
    ensures var r := Write(s, src, true);
            && (|s.kernel| > 0 && s.kernel[0] < |s.buffer| ==> r.written == 0)
            && (!Cuts(s, |src|) && r.written > 0 ==> |r.socket.buffer| == 0)
    ensures Cuts(s, |src|) ==>
              Write(s, src, false).written == Write(s, src, true).written == if s.ssl then 16384 - |s.cork| else 0
  {
    hide Write, Uncork, Taken, After, Stream;
    WriteMeans(s, src, false);
    WriteMeans(s, src, true);
    TakenMeans(s.kernel, |s.buffer|);
    if !Cuts(s, |src|) && Write(s, src, true).written > 0 {
      OptionalBuffers(s, src);
    }
  }

  lemma TakenMeans(kernel: seq<nat>, n: nat)
    ensures Taken(kernel, n) < n <==> |kernel| > 0 && kernel[0] < n
  {
  }

  lemma OptionalThrough<T>(s: Socket<T>, src: seq<T>)
    requires Fits(s) && !s.closed && !s.holder.Me? && !Blocked(s)
    ensures |Write(s, src, true).socket.buffer| == 0
  {
    hide Taken, After, Uncork;
    FlushedMeans(s);
  }

  lemma OptionalBuffers<T>(s: Socket<T>, src: seq<T>)
    requires Fits(s) && !s.closed && !Cuts(s, |src|) && Write(s, src, true).written > 0
    ensures |Write(s, src, true).socket.buffer| == 0
  {
    hide Taken, After, Uncork, Write, Flushed;
    WriteMeans(s, src, true);
    if !s.holder.Me? {
      OptionalThrough(s, src);
    } else if Overflows(s, |src|) {
      OverflowIsUncork(s, src, true);
      var k := Stripped(s);
      var v := s.(wire := s.wire + s.buffer, buffer := [], kernel := Next(s), cork := s.cork + src[..k]);
      NothingBuffered(v);
      OptionalUncork(v, src[k..]);
    }
  }

  lemma OptionalUncork<T>(s: Socket<T>, src: seq<T>)
    requires Fits(s) && !s.closed && s.holder.Me? && !Blocked(s) && !UncorkFails(s)
    ensures |Uncork(s, src, true).socket.buffer| == 0
  {
    hide Taken, After, Write;
    if |s.cork| == 0 {
      OptionalThrough(s.(holder := Nobody), src);
    } else {
      CorkWritten(s);
      var v := Write(s.(holder := Nobody), s.cork, false).socket.(cork := []);
      NothingBuffered(v);
      OptionalThrough(v, src);
    }
  }

  /** New data is taken with the cork only when all that is buffered and corked has left. */
  lemma CorkFirst<T>(s: Socket<T>, src: seq<T>, optionally: bool)
    requires Valid(s) && !s.closed && s.holder.Me? && |s.cork| != 0
    ensures var r := Uncork(s, src, optionally);
            r.written > 0 ==> s.wire + s.buffer + s.cork <= r.socket.wire
  {
    hide Write, Taken, After, UncorkFails;
    CorkWritten(s);
    UncorkSome(s, src, optionally);
    if !UncorkFails(s) {
      var v := Write(s.(holder := Nobody), s.cork, false).socket.(cork := []);
      UncorkedWrite(v, src, optionally);
    }
  }

  lemma CutFails<T>(s: Socket<T>, n: nat, maxBackpressure: nat)
    requires Valid(s) && !s.closed && !Full(s, maxBackpressure)
    ensures Cuts(Taking(s), n) ==> SendFails(s, n, maxBackpressure)
  {
    hide Taken, After;
  }

  /** Nothing is ever left corked for nobody, and a cork that another socket has is left to it. */
  lemma DoKeepsValid<T>(s: Socket<T>, op: Op<T>)
    requires Valid(s)
    ensures var t := Do(s, op).socket;
            Valid(t) && (t.holder.Another? ==> s.holder.Another? && t.cork == s.cork)
  {
    hide Write, Uncork, Send, Taken, After;
    match op
    case Corks =>
    case Shuts =>
    case Writes(src, optionally) => WriteMeans(s, src, optionally);
    case Uncorks(src, optionally) => UncorkMeans(s, src, optionally);
    case Sends(frame, maxBackpressure) =>
      if s.closed {
        ClosedSend(s, frame, maxBackpressure);
      } else {
        SendMeans(s, frame, maxBackpressure);
      }
  }

  /** On a closed socket a frame may still get into the cork buffer, if the cork is its own; nothing else happens. */
  lemma ClosedSend<T>(s: Socket<T>, frame: seq<T>, maxBackpressure: nat)
    requires Valid(s) && s.closed
    ensures var fits := !Full(s, maxBackpressure) && s.holder.Me? && |s.cork| + |frame| < CORK_BUFFER_SIZE;
            Send(s, frame, maxBackpressure).socket == if fits then s.(cork := s.cork + frame) else s
  {
    hide Write, Uncork;
    var t := Taking(s);
    ClosedWrite(t, frame, false);
    var u := SendFrame(t, frame);
    UncorkMeans(u.socket, [], false);
  }

  // ---- Runs ----

  function Runs<T>(s: Socket<T>, ops: seq<Op<T>>): (r: Socket<T>)
    requires Fits(s)
    ensures Fits(r)
    decreases |ops|
  {
    if |ops| == 0 then s else Do(Runs(s, ops[..|ops| - 1]), ops[|ops| - 1]).socket
  }

  /** What the calls of a run return. */
  function Returned<T>(s: Socket<T>, ops: seq<Op<T>>): (r: seq<(nat, bool)>)
    requires Fits(s)
    ensures |r| == |ops|
    decreases |ops|
  {
    if |ops| == 0 then []
    else
      var n := |ops| - 1;
      var d := Do(Runs(s, ops[..n]), ops[n]);
      Returned(s, ops[..n]) + [(d.written, d.failed)]
  }

  /** What joins the stream in a run, call by call. */
  function Gained<T>(s: Socket<T>, ops: seq<Op<T>>): (r: seq<T>)
    requires Fits(s)
    decreases |ops|
  {
    if |ops| == 0 then []
    else Gained(s, ops[..|ops| - 1]) + Gains(Runs(s, ops[..|ops| - 1]), ops[|ops| - 1])
  }

  /** What it joins, each call before what it overtakes. */
  function Lined<T>(s: Socket<T>, ops: seq<Op<T>>): (r: seq<T>)
    requires Fits(s)
    decreases |ops|
  {
    if |ops| == 0 then Stream(s)
    else
      var n := |ops| - 1;
      var t := Runs(s, ops[..n]);
      Place(Lined(s, ops[..n]), Gains(t, ops[n]), Passes(t, ops[n]))
  }

  predicate NoneShuts<T>(ops: seq<Op<T>>) {
    forall i :: 0 <= i < |ops| ==> !ops[i].Shuts?
  }

  /** No call of a run overtakes what is corked. */
  predicate NonePasses<T>(s: Socket<T>, ops: seq<Op<T>>)
    requires Fits(s)
    decreases |ops|
  {
    |ops| == 0 ||
    var n := |ops| - 1;
    NonePasses(s, ops[..n]) && Passes(Runs(s, ops[..n]), ops[n]) == 0
  }

  predicate NoneSends<T>(ops: seq<Op<T>>) {
    forall i :: 0 <= i < |ops| ==> !ops[i].Sends?
  }

  lemma RunsSnoc<T>(s: Socket<T>, ops: seq<Op<T>>, op: Op<T>)
    requires Fits(s)
    ensures var d := Do(Runs(s, ops), op);
            && Runs(s, ops + [op]) == d.socket
            && Returned(s, ops + [op]) == Returned(s, ops) + [(d.written, d.failed)]
            && Gained(s, ops + [op]) == Gained(s, ops) + Gains(Runs(s, ops), op)
  {
    assert (ops + [op])[..|ops|] == ops;
  }

  lemma {:induction false} RunsConcat<T>(s: Socket<T>, a: seq<Op<T>>, b: seq<Op<T>>)
    requires Fits(s)
    ensures Runs(s, a + b) == Runs(Runs(s, a), b)
    decreases |b|
  {
    if |b| == 0 {
      assert a + b == a;
    } else {
      var n := |b| - 1;
      RunsConcat(s, a, b[..n]);
      assert (a + b)[..|a + b| - 1] == a + b[..n];
    }
  }

  /**
   Any run of an open socket: what has left, what is buffered and what is corked for it are together what there was and
   what the calls have put into the line. Nothing that has left is ever taken back.
   */
  lemma {:induction false} RunsMean<T>(s: Socket<T>, ops: seq<Op<T>>)
    requires Valid(s) && !s.closed && NoneShuts(ops)
    ensures var t := Runs(s, ops);
            Valid(t) && !t.closed && t.ssl == s.ssl && s.wire <= t.wire && Stream(t) == Lined(s, ops)
    ensures Runs(s, ops).holder.Another? ==> s.holder.Another? && Runs(s, ops).cork == s.cork
    decreases |ops|
  {
    hide Do, Gains, Passes, Place, Stream;
    if |ops| != 0 {
      var n := |ops| - 1;
      RunsMean(s, ops[..n]);
      DoMeans(Runs(s, ops[..n]), ops[n]);
    }
  }

  /** As long as nothing is overtaken the line is a queue: what joins it leaves in the order of the calls. */
  lemma {:induction false} Fifo<T>(s: Socket<T>, ops: seq<Op<T>>)
    requires Valid(s) && !s.closed && NoneShuts(ops) && NonePasses(s, ops)
    ensures Stream(Runs(s, ops)) == Stream(s) + Gained(s, ops)
    decreases |ops|
  {
    hide Do, Gains, Passes, Place, Stream;
    RunsMean(s, ops);
    if |ops| == 0 {
      assert Stream(s) + [] == Stream(s);
    } else {
      var n := |ops| - 1;
      RunsMean(s, ops[..n]);
      Fifo(s, ops[..n]);
      PlaceLast(Stream(s) + Gained(s, ops[..n]), Gains(Runs(s, ops[..n]), ops[n]));
    }
  }

  /**
   Without send nothing is overtaken, unless something is corked behind backpressure to begin with, or taken over from
   another socket.
   */
  lemma {:induction false} NothingOvertaken<T>(s: Socket<T>, ops: seq<Op<T>>)
    requires Valid(s) && !s.closed && NoneShuts(ops) && NoneSends(ops)
    requires Ordered(s) && (s.holder.Another? ==> |s.cork| == 0)
    ensures NonePasses(s, ops) && Ordered(Runs(s, ops))
    decreases |ops|
  {
    hide Do, Passes, Ordered;
    if |ops| != 0 {
      var n := |ops| - 1;
      NothingOvertaken(s, ops[..n]);
      RunsMean(s, ops[..n]);
      DoKeepsOrder(Runs(s, ops[..n]), ops[n]);
    }
  }
}
