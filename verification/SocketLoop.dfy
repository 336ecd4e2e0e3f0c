/** The sockets of one loop, which share its cork: whose octets leave on which socket. */
module SocketLoops {
  import opened Bytes
  import opened Frames
  import opened FrameFormat
  import opened AsyncSockets
  import S = SocketSpec

  /** A socket without the cork. */
  datatype Conn<T> = Conn(wire: seq<T>, buffer: seq<T>, kernel: seq<nat>, ssl: bool, closed: bool)

  /** `corked` is the number of the socket that has the cork, or -1. */
  datatype World<T> = World(conns: seq<Conn<T>>, cork: seq<T>, corked: int)

  datatype Call<T> = Call(socket: nat, op: S.Op<T>)

  predicate Sound<T>(w: World<T>) {
    && |w.cork| <= S.CORK_BUFFER_SIZE && -1 <= w.corked < |w.conns|
    && (w.corked == -1 ==> |w.cork| == 0)
  }

  /** The world as socket `i` sees it. */
  function Seen<T>(w: World<T>, i: nat): (s: S.Socket<T>)
    requires i < |w.conns|
  {
    var c := w.conns[i];
    S.Socket(c.wire, c.buffer, c.kernel, c.ssl, c.closed, w.cork,
             if w.corked == i then S.Me else if w.corked == -1 then S.Nobody else S.Another)
  }

  /** The world after socket `i` has become `s`. */
  function Back<T>(w: World<T>, i: nat, s: S.Socket<T>): (r: World<T>)
    requires i < |w.conns|
  {
    World(w.conns[i := Conn(s.wire, s.buffer, s.kernel, s.ssl, s.closed)], s.cork,
          match s.holder case Me => i case Nobody => -1 case Another => w.corked)
  }

  function Move<T>(w: World<T>, c: Call<T>): (r: World<T>)
    requires Sound(w) && c.socket < |w.conns|
    ensures Sound(r) && |r.conns| == |w.conns|
  {
    var s := Seen(w, c.socket);
    S.DoKeepsValid(s, c.op);
    Back(w, c.socket, S.Do(s, c.op).socket)
  }

  predicate InRange<T>(w: World<T>, calls: seq<Call<T>>) {
    forall i :: 0 <= i < |calls| ==> calls[i].socket < |w.conns|
  }

  function Moves<T>(w: World<T>, calls: seq<Call<T>>): (r: World<T>)
    requires Sound(w) && InRange(w, calls)
    ensures Sound(r) && |r.conns| == |w.conns|
    decreases |calls|
  {
    if |calls| == 0 then w else Move(Moves(w, calls[..|calls| - 1]), calls[|calls| - 1])
  }

  // ---- Octets that know where they come from ----

  /** `from` is the number of the socket to which the octet has been handed. */
  datatype Octet = Octet(value: byte, from: nat)

  predicate From(s: seq<Octet>, i: nat) {
    forall k :: 0 <= k < |s| ==> s[k].from == i
  }

  lemma FromConcat(a: seq<Octet>, b: seq<Octet>, i: nat)
    ensures From(a + b, i) <==> From(a, i) && From(b, i)
  {
    if From(a + b, i) {
      assert forall k :: 0 <= k < |a| ==> a[k] == (a + b)[k];
      assert forall k :: 0 <= k < |b| ==> b[k] == (a + b)[|a| + k];
    }
  }

  lemma FromSplit(s: seq<Octet>, n: nat, i: nat)
    requires n <= |s|
    ensures From(s, i) <==> From(s[..n], i) && From(s[n..], i)
  {
    FromConcat(s[..n], s[n..], i);
    assert s == s[..n] + s[n..];
  }

  /** What has left on a socket, and what is in line for it, has been handed to it. */
  predicate OwnAt(s: S.Socket<Octet>, i: nat) {
    From(s.wire, i) && From(s.buffer, i) && (s.holder.Me? ==> From(s.cork, i))
  }

  predicate Own(w: World<Octet>)
    requires Sound(w)
  {
    forall i: nat :: i < |w.conns| ==> OwnAt(Seen(w, i), i)
  }

  lemma OwnStream(s: S.Socket<Octet>, i: nat)
    ensures OwnAt(s, i) <==> From(S.Stream(s), i)
  {
    hide From;
    FromNothing(i);
    FromConcat(s.wire, s.buffer, i);
    FromConcat(s.wire + s.buffer, S.Corked(s), i);
  }

  lemma FromNothing(i: nat)
    ensures From([], i)
  {
  }

  lemma FromPlace(s: seq<Octet>, src: seq<Octet>, k: nat, i: nat)
    ensures From(S.Place(s, src, k), i) <==> From(s, i) && From(src, i)
  {
    hide From;
    var at := if k <= |s| then |s| - k else 0;
    FromSplit(s, at, i);
    FromConcat(s[..at], src, i);
    FromConcat(s[..at] + src, s[at..], i);
  }

  /** A socket that is handed only octets of its own keeps only octets of its own, unless it takes over others. */
  lemma DoKeepsOwn(s: S.Socket<Octet>, op: S.Op<Octet>, i: nat)
    requires S.Valid(s) && OwnAt(s, i) && From(S.Handed(op), i)
    ensures OwnAt(S.Do(s, op).socket, i) <==> !(S.TakesOver(s, op) && !From(s.cork, i))
  {
    hide S.Do, S.Place, S.Stream, From, S.Accepts, S.Gains;
    var t := S.Do(s, op).socket;
    if op.Shuts? || s.closed {
      ClosedKeepsOwn(s, op, i);
    } else {
      S.DoMeans(s, op);
      OwnStream(s, i);
      OwnStream(t, i);
      FromPlace(S.Stream(s), S.Gains(s, op), S.Passes(s, op), i);
      FromGains(s, op, i);
    }
  }

  lemma FromGains(s: S.Socket<Octet>, op: S.Op<Octet>, i: nat)
    requires S.Fits(s) && From(S.Handed(op), i)
    ensures From(S.Gains(s, op), i) <==> !(S.TakesOver(s, op) && !From(s.cork, i))
  {
    hide From, S.Accepts;
    FromSplit(S.Handed(op), S.Accepts(s, op), i);
  }

  lemma ClosedKeepsOwn(s: S.Socket<Octet>, op: S.Op<Octet>, i: nat)
    requires S.Valid(s) && OwnAt(s, i) && From(S.Handed(op), i) && (s.closed || op.Shuts?)
    ensures OwnAt(S.Do(s, op).socket, i) <==> !(S.TakesOver(s, op) && !From(s.cork, i))
  {
    hide From, S.Write, S.Uncork, S.Send;
    FromNothing(i);
    match op
    case Corks =>
    case Shuts =>
    case Writes(src, optionally) => S.ClosedWrite(s, src, optionally);
    case Uncorks(src, optionally) => S.UncorkMeans(s, src, optionally);
    case Sends(frame, maxBackpressure) =>
      S.ClosedSend(s, frame, maxBackpressure);
      FromConcat(s.cork, frame, i);
  }

  /** A call takes the cork away from another socket while there are octets in it. */
  predicate TakesOver<T>(w: World<T>, c: Call<T>)
    requires c.socket < |w.conns|
  {
    S.TakesOver(Seen(w, c.socket), c.op)
  }

  /** A call keeps octets where they belong if and only if it does not take over what is corked for another socket. */
  lemma MoveKeepsOwn(w: World<Octet>, c: Call<Octet>)
    requires Sound(w) && Own(w) && c.socket < |w.conns| && From(S.Handed(c.op), c.socket)
    ensures Own(Move(w, c)) <==> !TakesOver(w, c)
  {
    hide S.Do, From, S.Handed;
    var i, s := c.socket, Seen(w, c.socket);
    S.DoKeepsValid(s, c.op);
    DoKeepsOwn(s, c.op, i);
    var t := S.Do(s, c.op).socket;
    assert Seen(Move(w, c), i) == t;
    if TakesOver(w, c) {
      assert OwnAt(Seen(w, w.corked), w.corked);
      OtherThanOwn(w.cork, w.corked, i);
    } else {
      forall j: nat | j < |w.conns| && j != i ensures OwnAt(Seen(Move(w, c), j), j) {
        assert OwnAt(Seen(w, j), j);
      }
    }
  }

  lemma OtherThanOwn(s: seq<Octet>, i: nat, j: nat)
    requires From(s, i) && |s| != 0 && i != j
    ensures !From(s, j)
  {
    assert s[0].from == i;
  }

  /** Every call hands its socket octets that are marked as handed to it. */
  predicate Marked(calls: seq<Call<Octet>>) {
    forall k :: 0 <= k < |calls| ==> From(S.Handed(calls[k].op), calls[k].socket)
  }

  /** At no time of a run has an octet left on another socket than its own, or stood in line for it. */
  predicate AlwaysOwn(w: World<Octet>, calls: seq<Call<Octet>>)
    requires Sound(w) && InRange(w, calls)
    decreases |calls|
  {
    Own(Moves(w, calls)) && (|calls| != 0 ==> AlwaysOwn(w, calls[..|calls| - 1]))
  }

  /** No call of a run takes over what is corked for another socket. */
  predicate NoneTakesOver<T>(w: World<T>, calls: seq<Call<T>>)
    requires Sound(w) && InRange(w, calls)
    decreases |calls|
  {
    |calls| == 0 ||
    var n := |calls| - 1;
    NoneTakesOver(w, calls[..n]) && !TakesOver(Moves(w, calls[..n]), calls[n])
  }

  /**
   Octets handed to one socket leave on no other, and stand in line for no other, if and only if no call of cork()
   finds octets that are corked for another socket. (Once taken over, octets can be taken back before they leave: the
   line has to be looked at as well.)
   */
  lemma {:induction false} OctetsStayHome(w: World<Octet>, calls: seq<Call<Octet>>)
    requires Sound(w) && Own(w) && InRange(w, calls) && Marked(calls)
    ensures AlwaysOwn(w, calls) <==> NoneTakesOver(w, calls)
    decreases |calls|
  {
    hide Move, Own, TakesOver;
    if |calls| != 0 {
      var n := |calls| - 1;
      OctetsStayHome(w, calls[..n]);
      AlwaysOwnNow(w, calls[..n]);
      if AlwaysOwn(w, calls[..n]) {
        MoveKeepsOwn(Moves(w, calls[..n]), calls[n]);
      }
    }
  }

  lemma AlwaysOwnNow(w: World<Octet>, calls: seq<Call<Octet>>)
    requires Sound(w) && InRange(w, calls)
    ensures AlwaysOwn(w, calls) ==> Own(Moves(w, calls))
  {
    hide Own, Moves;
  }

  // ---- The marks make no difference ----

  function Bare(s: seq<Octet>): (r: seq<byte>)
    ensures |r| == |s| && forall k :: 0 <= k < |s| ==> r[k] == s[k].value
  {
    seq(|s|, k requires 0 <= k < |s| => s[k].value)
  }

  lemma BareConcat(a: seq<Octet>, b: seq<Octet>)
    ensures Bare(a + b) == Bare(a) + Bare(b)
  {
  }

  lemma BareSplit(s: seq<Octet>, n: nat)
    requires n <= |s|
    ensures Bare(s[..n]) == Bare(s)[..n] && Bare(s[n..]) == Bare(s)[n..]
  {
  }

  function BareSocket(s: S.Socket<Octet>): S.Socket<byte> {
    S.Socket(Bare(s.wire), Bare(s.buffer), s.kernel, s.ssl, s.closed, Bare(s.cork), s.holder)
  }

  function BareDone(d: S.Done<Octet>): S.Done<byte> {
    S.Done(BareSocket(d.socket), d.written, d.failed)
  }

  function BareOp(op: S.Op<Octet>): S.Op<byte> {
    match op
    case Corks => S.Corks
    case Writes(src, optionally) => S.Writes(Bare(src), optionally)
    case Uncorks(src, optionally) => S.Uncorks(Bare(src), optionally)
    case Sends(frame, maxBackpressure) => S.Sends(Bare(frame), maxBackpressure)
    case Shuts => S.Shuts
  }

  lemma BareFlushed(s: S.Socket<Octet>)
    ensures S.Flushed(BareSocket(s)) == BareSocket(S.Flushed(s))
  {
    hide S.Taken, S.After;
    var n := S.Taken(s.kernel, |s.buffer|);
    BareSplit(s.buffer, n);
    BareConcat(s.wire, s.buffer[..n]);
  }

  lemma BareThrough(s: S.Socket<Octet>, src: seq<Octet>, optionally: bool)
    ensures S.Through(BareSocket(s), Bare(src), optionally) == BareDone(S.Through(s, src, optionally))
  {
    hide S.Taken, S.After;
    var n := S.Taken(s.kernel, |src|);
    BareSplit(src, n);
    BareConcat(s.wire, src[..n]);
  }

  lemma {:induction false} BareWrite(s: S.Socket<Octet>, src: seq<Octet>, optionally: bool)
    requires S.Fits(s)
    ensures S.Write(BareSocket(s), Bare(src), optionally) == BareDone(S.Write(s, src, optionally))
    decreases if s.holder.Me? then 1 else 0, 1
  {
    hide S.Flushed, S.Through, S.Uncork;
    BareFlushed(s);
    FlushedKeeps(s);
    var t := S.Flushed(s);
    BareConcat(t.buffer, src);
    BareConcat(t.cork, src);
    if !t.holder.Me? {
      BareThrough(t, src, optionally);
    } else if |t.cork| + |src| > S.CORK_BUFFER_SIZE {
      var k := S.Stripped(s);
      BareSplit(src, k);
      BareConcat(t.cork, src[..k]);
      BareUncork(t.(cork := t.cork + src[..k]), src[k..], optionally);
    }
  }

  lemma FlushedKeeps<T>(s: S.Socket<T>)
    ensures var t := S.Flushed(s); t.cork == s.cork && t.holder == s.holder && t.ssl == s.ssl
  {
  }

  lemma {:induction false} BareUncork(s: S.Socket<Octet>, src: seq<Octet>, optionally: bool)
    requires S.Fits(s)
    ensures S.Uncork(BareSocket(s), Bare(src), optionally) == BareDone(S.Uncork(s, src, optionally))
    decreases if s.holder.Me? then 1 else 0, 0
  {
    hide S.Write;
    if s.holder.Me? {
      var t := s.(holder := S.Nobody);
      if |s.cork| == 0 {
        BareWrite(t, src, optionally);
      } else {
        BareWrite(t, t.cork, false);
        WriteKeepsHolder(t, t.cork);
        BareWrite(S.Write(t, t.cork, false).socket.(cork := []), src, optionally);
      }
    }
  }

  lemma WriteKeepsHolder<T>(s: S.Socket<T>, src: seq<T>)
    requires S.Fits(s) && !s.holder.Me?
    ensures S.Write(s, src, false).socket.holder == s.holder
  {
    hide S.Write;
    S.WriteMeans(s, src, false);
  }

  lemma BareSend(s: S.Socket<Octet>, frame: seq<Octet>, maxBackpressure: nat)
    requires S.Fits(s)
    ensures S.Send(BareSocket(s), Bare(frame), maxBackpressure) == BareDone(S.Send(s, frame, maxBackpressure))
  {
    hide S.Write, S.Uncork;
    var t := S.Taking(s);
    BareConcat(t.cork, frame);
    BareWrite(t, frame, false);
    BareUncork(S.SendFrame(t, frame).socket, [], false);
  }

  /** What a call does and returns does not depend on the marks of the octets. */
  lemma BareDo(s: S.Socket<Octet>, op: S.Op<Octet>)
    requires S.Fits(s)
    ensures S.Do(BareSocket(s), BareOp(op)) == BareDone(S.Do(s, op))
  {
    hide S.Write, S.Uncork, S.Send;
    match op
    case Corks =>
    case Shuts =>
    case Writes(src, optionally) => BareWrite(s, src, optionally);
    case Uncorks(src, optionally) => BareUncork(s, src, optionally);
    case Sends(frame, maxBackpressure) => BareSend(s, frame, maxBackpressure);
  }

  function BareConn(c: Conn<Octet>): Conn<byte> {
    Conn(Bare(c.wire), Bare(c.buffer), c.kernel, c.ssl, c.closed)
  }

  function BareWorld(w: World<Octet>): (r: World<byte>)
    ensures |r.conns| == |w.conns| && (Sound(w) ==> Sound(r))
  {
    World(seq(|w.conns|, i requires 0 <= i < |w.conns| => BareConn(w.conns[i])), Bare(w.cork), w.corked)
  }

  function BareCall(c: Call<Octet>): Call<byte> {
    Call(c.socket, BareOp(c.op))
  }

  function BareCalls(calls: seq<Call<Octet>>): (r: seq<Call<byte>>)
    ensures |r| == |calls|
  {
    seq(|calls|, i requires 0 <= i < |calls| => BareCall(calls[i]))
  }

  lemma BareMove(w: World<Octet>, c: Call<Octet>)
    requires Sound(w) && c.socket < |w.conns|
    ensures Move(BareWorld(w), BareCall(c)) == BareWorld(Move(w, c))
    ensures TakesOver(BareWorld(w), BareCall(c)) == TakesOver(w, c)
  {
    hide S.Do, Bare;
    assert Seen(BareWorld(w), c.socket) == BareSocket(Seen(w, c.socket));
    BareDo(Seen(w, c.socket), c.op);
    assert Move(BareWorld(w), BareCall(c)).conns == BareWorld(Move(w, c)).conns;
  }

  lemma {:induction false} BareMoves(w: World<Octet>, calls: seq<Call<Octet>>)
    requires Sound(w) && InRange(w, calls)
    ensures Moves(BareWorld(w), BareCalls(calls)) == BareWorld(Moves(w, calls))
    ensures NoneTakesOver(BareWorld(w), BareCalls(calls)) == NoneTakesOver(w, calls)
    decreases |calls|
  {
    hide Move, TakesOver, BareCall;
    if |calls| != 0 {
      var n := |calls| - 1;
      assert BareCalls(calls)[..n] == BareCalls(calls[..n]);
      BareMoves(w, calls[..n]);
      BareMove(Moves(w, calls[..n]), calls[n]);
    }
  }

  // ---- Marking ----

  function Mark(s: seq<byte>, i: nat): (r: seq<Octet>)
    ensures Bare(r) == s && From(r, i)
  {
    seq(|s|, k requires 0 <= k < |s| => Octet(s[k], i))
  }

  /** What is there is marked as belonging where it is. */
  function MarkWorld(w: World<byte>): (r: World<Octet>)
    requires Sound(w)
    ensures Sound(r) && BareWorld(r) == w && Own(r)
  {
    var conns := seq(|w.conns|, i requires 0 <= i < |w.conns| =>
                     var c := w.conns[i]; Conn(Mark(c.wire, i), Mark(c.buffer, i), c.kernel, c.ssl, c.closed));
    var r := World(conns, Mark(w.cork, if w.corked < 0 then 0 else w.corked), w.corked);
    assert BareWorld(r).conns == w.conns;
    r
  }

  function MarkCall(c: Call<byte>): (r: Call<Octet>)
    ensures BareCall(r) == c && From(S.Handed(r.op), r.socket)
  {
    Call(c.socket,
         match c.op
         case Corks => S.Corks
         case Writes(src, optionally) => S.Writes(Mark(src, c.socket), optionally)
         case Uncorks(src, optionally) => S.Uncorks(Mark(src, c.socket), optionally)
         case Sends(frame, maxBackpressure) => S.Sends(Mark(frame, c.socket), maxBackpressure)
         case Shuts => S.Shuts)
  }

  function MarkCalls(calls: seq<Call<byte>>): (r: seq<Call<Octet>>)
    ensures BareCalls(r) == calls && Marked(r) && |r| == |calls|
    ensures forall i :: 0 <= i < |calls| ==> r[i].socket == calls[i].socket
  {
    var r := seq(|calls|, i requires 0 <= i < |calls| => MarkCall(calls[i]));
    assert BareCalls(r) == calls;
    r
  }

  // ---- The sockets themselves ----

  /** Where a socket stands. */
  ghost function Number(sockets: seq<AsyncSocket>, x: AsyncSocket?): (n: int)
    ensures -1 <= n < |sockets| && (n == -1 <==> x == null || x !in sockets) && (n >= 0 ==> sockets[n] == x)
    decreases |sockets|
  {
    if |sockets| == 0 then -1
    else if sockets[|sockets| - 1] == x then |sockets| - 1
    else Number(sockets[..|sockets| - 1], x)
  }

  /** The sockets of a loop: whoever has the cork is one of them. */
  ghost predicate OfLoop(loop: LoopData, sockets: seq<AsyncSocket>)
    reads loop
  {
    && (forall i :: 0 <= i < |sockets| ==> sockets[i].loop == loop)
    && (forall i, j :: 0 <= i < j < |sockets| ==> sockets[i] != sockets[j])
    && (loop.corkedSocket == null || loop.corkedSocket in sockets)
    && loop.corkBuffer.Length == CORK_BUFFER_SIZE && loop.corkOffset <= CORK_BUFFER_SIZE
    && (loop.corkedSocket == null ==> loop.corkOffset == 0)
  }

  ghost function ConnOf(socket: AsyncSocket): Conn<byte>
    reads socket
  {
    Conn(socket.wire, socket.buffer, socket.kernel, socket.ssl, socket.isClosed)
  }

  ghost function WorldOf(loop: LoopData, sockets: seq<AsyncSocket>): (w: World<byte>)
    requires OfLoop(loop, sockets)
    reads loop, loop.corkBuffer, sockets
    ensures Sound(w) && |w.conns| == |sockets|
  {
    World(seq(|sockets|, i requires 0 <= i < |sockets| reads sockets => ConnOf(sockets[i])),
          loop.corkBuffer[..loop.corkOffset], Number(sockets, loop.corkedSocket))
  }

  /** One call on one of the sockets. */
  method Perform(loop: LoopData, sockets: seq<AsyncSocket>, i: nat, op: SocketOp) returns (written: nat, failed: bool)
    requires OfLoop(loop, sockets) && i < |sockets| && Proper(op)
    modifies loop, loop.corkBuffer, sockets
    ensures OfLoop(loop, sockets) && WorldOf(loop, sockets) == Move(old(WorldOf(loop, sockets)), Call(i, AsOp(op)))
  {
    hide S.Do, AsOp, Proper;
    ghost var w := WorldOf(loop, sockets);
    assert sockets[i].Now() == Seen(w, i);
    S.DoKeepsValid(Seen(w, i), AsOp(op));
    written, failed := sockets[i].Do(op);
    assert WorldOf(loop, sockets).conns == Move(w, Call(i, AsOp(op))).conns;
  }

  function AsCalls(calls: seq<(nat, SocketOp)>): (r: seq<Call<byte>>)
    ensures |r| == |calls| && forall i :: 0 <= i < |calls| ==> r[i] == Call(calls[i].0, AsOp(calls[i].1))
  {
    seq(|calls|, i requires 0 <= i < |calls| => Call(calls[i].0, AsOp(calls[i].1)))
  }

  lemma OneMoreCall(calls: seq<(nat, SocketOp)>, i: nat)
    requires i < |calls|
    ensures AsCalls(calls[..i + 1]) == AsCalls(calls[..i]) + [Call(calls[i].0, AsOp(calls[i].1))]
  {
    hide AsOp;
  }

  lemma MovesSnoc<T>(w: World<T>, calls: seq<Call<T>>, c: Call<T>)
    requires Sound(w) && InRange(w, calls) && c.socket < |w.conns|
    ensures InRange(w, calls + [c]) && Moves(w, calls + [c]) == Move(Moves(w, calls), c)
  {
    hide Move;
    assert (calls + [c])[..|calls|] == calls;
  }

  lemma NoMoves(w: World<byte>)
    requires Sound(w)
    ensures InRange(w, AsCalls([])) && Moves(w, AsCalls([])) == w
  {
  }

  lemma InRangeOf(w: World<byte>, calls: seq<(nat, SocketOp)>)
    requires forall i :: 0 <= i < |calls| ==> calls[i].0 < |w.conns|
    ensures InRange(w, AsCalls(calls))
  {
    hide AsOp;
  }

  /**
   Any calls on the sockets of a loop. With every octet marked by the socket that it has been handed to, all octets are
   at any time where they belong if and only if no cork() finds octets that are corked for another socket.
   */
  method RunLoop(loop: LoopData, sockets: seq<AsyncSocket>, calls: seq<(nat, SocketOp)>)
    requires OfLoop(loop, sockets) && forall i :: 0 <= i < |calls| ==> calls[i].0 < |sockets| && Proper(calls[i].1)
    modifies loop, loop.corkBuffer, sockets
    ensures OfLoop(loop, sockets) && InRange(old(WorldOf(loop, sockets)), AsCalls(calls))
    ensures var w := MarkWorld(old(WorldOf(loop, sockets)));
            && InRange(w, MarkCalls(AsCalls(calls)))
            && BareWorld(Moves(w, MarkCalls(AsCalls(calls)))) == WorldOf(loop, sockets)
            && (AlwaysOwn(w, MarkCalls(AsCalls(calls)))
                <==> NoneTakesOver(old(WorldOf(loop, sockets)), AsCalls(calls)))
  {
    hide Move, AsOp, Proper, MarkWorld, MarkCalls, BareWorld, AlwaysOwn, NoneTakesOver, Own, WorldOf;
    ghost var w := WorldOf(loop, sockets);
    InRangeOf(w, calls);
    NoMoves(w);
    assert calls[..0] == [];
    for k := 0 to |calls|
      invariant OfLoop(loop, sockets)
      invariant InRange(w, AsCalls(calls[..k])) && WorldOf(loop, sockets) == Moves(w, AsCalls(calls[..k]))
    {
      OneMoreCall(calls, k);
      MovesSnoc(w, AsCalls(calls[..k]), Call(calls[k].0, AsOp(calls[k].1)));
      var _, _ := Perform(loop, sockets, calls[k].0, calls[k].1);
    }
    assert calls[..|calls|] == calls;
    BareMoves(MarkWorld(w), MarkCalls(AsCalls(calls)));
    OctetsStayHome(MarkWorld(w), MarkCalls(AsCalls(calls)));
  }

  // ---- It happens ----

  /** A frame too large for the cork fails behind backpressure, and leaves a cork on that takes up the next frame. */
  lemma Stranded(ssl: bool, big: seq<byte>, small: seq<byte>)
    requires |big| >= S.CORK_BUFFER_SIZE && |small| < S.CORK_BUFFER_SIZE
    ensures var s := S.Socket([], [1], [0], ssl, false, [], S.Nobody);
            var t := S.Socket([], [1] + big, [], ssl, false, [], S.Me);
            && S.StaysOn(s, |big|, 0) && S.Send(s, big, 0) == S.Done(t, 0, true)
            && S.Send(t, small, 0) == S.Done(t.(cork := small), 0, false)
  {
    var s := S.Socket([], [1], [0], ssl, false, [], S.Nobody);
    assert [0][1..] == [] && [1][..0] == [] && [1][0..] == [1] && s.wire + [] == s.wire && s.cork + small == small;
    assert S.Flushed(S.Taking(s)) == S.Taking(s).(kernel := []);
  }

  lemma TakenOver(ssl: bool, small: seq<byte>)
    requires 0 < |small| <= S.CORK_BUFFER_SIZE
    ensures var s := S.Socket([], [], [], ssl, false, small, S.Another);
            && S.TakesOver(s, S.Corks)
            && S.Uncork(S.Do(s, S.Corks).socket, [], false)
               == S.Done(S.Socket(small, [], [], ssl, false, [], S.Nobody), 0, false)
  {
    hide S.Write;
    var s := S.Socket([], [], [], ssl, false, small, S.Nobody);
    WriteFresh(s, small);
    assert [] + small[..|small|] == small;
    WriteFresh(S.Socket(small, [], [], ssl, false, [], S.Nobody), []);
  }

  lemma WriteFresh(s: S.Socket<byte>, src: seq<byte>)
    requires S.Fits(s) && !s.closed && s.buffer == [] && !s.holder.Me?
    ensures S.Write(s, src, false) == if src == [] then S.Done(s, 0, false) else S.Through(s, src, false)
  {
    hide S.Through, S.Uncork;
    assert s.wire + [] == s.wire;
  }

  /**
   One octet of backpressure on `a`, a kernel that takes nothing the next time, and a message of 16384 octets: sending
   it fails, sending [2] succeeds, and its frame stays in a cork that nobody takes off. Then data arrives for `b`, which
   takes the cork and, when it takes it off, sends the frame.
   */
  method AnothersOctetsLeave(loop: LoopData, ssl: bool, random: seq<byte>) returns (a: AsyncSocket, b: AsyncSocket)
    requires loop.corkBuffer.Length == CORK_BUFFER_SIZE && loop.corkOffset == 0 && loop.corkedSocket == null
    requires |random| == 4
    modifies loop, loop.corkBuffer
    ensures fresh(a) && fresh(b) && a != b && OfLoop(loop, [a, b])
    ensures b.wire == ServerWire(2, [2]) && b.buffer == []
    ensures exists big :: |big| == CORK_BUFFER_SIZE && a.wire + a.buffer == [1] + ServerWire(2, big)
  {
    hide ServerWire, Pow256, S.Write, S.Uncork, S.Send, S.Stream, S.Reports, S.Fails, S.SendFails, S.Overtakes,
         S.SendAccepts, S.SendOvertakes, S.StaysOn, S.UncorkReports;
    var big := seq(CORK_BUFFER_SIZE, _ => 0 as byte);
    FrameSizes(big);
    a := new AsyncSocket(loop, ssl, [0, 0]);
    b := new AsyncSocket(loop, ssl, []);
    WriteFirst(ssl);
    var _, _ := a.Write([1], false);
    LeaveInCork(a, big, random);
    SendAnothers(b, ServerWire(2, [2]));
  }

  /** A socket that has nothing to say takes the cork and takes it off. */
  method SendAnothers(b: AsyncSocket, ghost cork: seq<byte>)
    requires b.Fits() && 0 < |cork| <= S.CORK_BUFFER_SIZE
    requires b.Now() == S.Socket([], [], [], b.ssl, false, cork, S.Another)
    modifies b, b.loop, b.loop.corkBuffer
    ensures b.Fits() && b.loop.corkedSocket == null && b.loop.corkOffset == 0 && b.wire == cork && b.buffer == []
  {
    hide S.Write, S.Uncork, S.UncorkReports, S.Stream;
    TakenOver(b.ssl, cork);
    b.Cork();
    var _, _ := b.Uncork([], false);
    assert b.Now().wire == cork && |b.Now().cork| == 0;
  }

  method LeaveInCork(a: AsyncSocket, big: seq<byte>, random: seq<byte>)
    requires a.Fits() && a.Now() == S.Socket([], [1], [0], a.ssl, false, [], S.Nobody)
    requires |big| == CORK_BUFFER_SIZE && |random| == 4
    modifies a, a.loop, a.loop.corkBuffer
    ensures a.Fits() && a.IsCorked() && a.loop.corkBuffer[..a.loop.corkOffset] == ServerWire(2, [2])
    ensures a.wire + a.buffer == [1] + ServerWire(2, big)
  {
    hide ServerWire, Pow256, S.Write, S.Uncork, S.Send, S.Stream, S.Reports, S.Fails, S.SendFails, S.Overtakes,
         S.SendAccepts, S.SendOvertakes, S.StaysOn, S.UncorkReports;
    FrameSizes(big);
    Stranded(a.ssl, ServerWire(2, big), ServerWire(2, [2]));
    var failing := a.Send(big, 2, random, 0);
    var fine := a.Send([2], 2, random, 0);
    assert !failing && fine;
    assert a.Now().cork == ServerWire(2, [2]);
  }

  lemma WriteFirst(ssl: bool)
    ensures S.Write(S.Socket([], [], [0, 0], ssl, false, [], S.Nobody), [1 as byte], false).socket
         == S.Socket([], [1], [0], ssl, false, [], S.Nobody)
  {
    hide S.Write;
    WriteFresh(S.Socket([], [], [0, 0], ssl, false, [], S.Nobody), [1]);
    assert [0, 0][1..] == [0] && [1 as byte][..0] == [] && [1 as byte][0..] == [1];
  }

  lemma FrameSizes(big: seq<byte>)
    requires |big| == S.CORK_BUFFER_SIZE
    ensures |big| < Pow256(8) && 1 < Pow256(8) && 0 < |ServerWire(2, [2])| < 16
    ensures |ServerWire(2, big)| >= S.CORK_BUFFER_SIZE
  {
    hide ServerWire;
    ServerWireSize(2, [2]);
    ServerWireSize(2, big);
  }

  /**
   Backpressure, cork, send, write: with a kernel that takes nothing the octet 3, written last, stands before the
   frame that has been sent before it.
   */
  method OvertakingHappens(loop: LoopData, ssl: bool, random: seq<byte>) returns (a: AsyncSocket)
    requires loop.corkBuffer.Length == CORK_BUFFER_SIZE && loop.corkOffset == 0 && loop.corkedSocket == null
    requires |random| == 4
    modifies loop, loop.corkBuffer
    ensures fresh(a) && a.Fits() && S.Stream(a.Now()) == [1] + [3] + ServerWire(2, [2])
  {
    hide ServerWire, S.Write, S.Reports, S.Fails;
    a := CorkedBehind(loop, ssl, random);
    var _, _ := a.Write([3], false);
    assert [] + [1] + [3] + ServerWire(2, [2]) == [1] + [3] + ServerWire(2, [2]);
  }

  method CorkedBehind(loop: LoopData, ssl: bool, random: seq<byte>) returns (a: AsyncSocket)
    requires loop.corkBuffer.Length == CORK_BUFFER_SIZE && loop.corkOffset == 0 && loop.corkedSocket == null
    requires |random| == 4
    modifies loop, loop.corkBuffer
    ensures fresh(a) && a.loop == loop && a.Fits() && |ServerWire(2, [2])| > 0
    ensures a.Now() == S.Socket([], [1], [0], ssl, false, ServerWire(2, [2]), S.Me)
  {
    hide ServerWire, Pow256, S.Write, S.Send, S.Reports, S.Fails, S.SendFails, S.SendAccepts, S.SendOvertakes,
         S.StaysOn, S.Stream, S.Overtakes, S.Corked;
    FrameSizes(seq(CORK_BUFFER_SIZE, _ => 0 as byte));
    a := new AsyncSocket(loop, ssl, [0, 0]);
    WriteFirst(ssl);
    var _, _ := a.Write([1], false);
    a.Cork();
    SendCorked(ssl, ServerWire(2, [2]));
    var _ := a.Send([2], 2, random, 0);
  }

  lemma SendCorked(ssl: bool, small: seq<byte>)
    requires |small| < S.CORK_BUFFER_SIZE
    ensures var s := S.Socket([], [1], [0], ssl, false, [], S.Me);
            S.Send(s, small, 0) == S.Done(s.(cork := small), 0, false)
  {
    hide S.Write, S.Uncork;
    assert [] + small == small;
  }

  /**
   A write that overflows the cork while the kernel takes nothing: over TLS the part that still fits is accepted, and
   otherwise nothing of it.
   */
  method OverflowHappens(loop: LoopData, ssl: bool, first: seq<byte>, second: seq<byte>)
    returns (a: AsyncSocket, accepted: nat)
    requires loop.corkBuffer.Length == CORK_BUFFER_SIZE && loop.corkOffset == 0 && loop.corkedSocket == null
    requires 0 < |first| <= CORK_BUFFER_SIZE && |first| + |second| > CORK_BUFFER_SIZE
    modifies loop, loop.corkBuffer
    ensures fresh(a) && a.Fits() && accepted == if ssl then CORK_BUFFER_SIZE - |first| else 0
    ensures S.Stream(a.Now()) == first + second[..accepted]
  {
    hide S.Write, S.Overtakes, S.Fails, S.Reports, S.Stream, S.Corked;
    a := new AsyncSocket(loop, ssl, [0]);
    a.Cork();
    WriteCorked(ssl, first);
    var _, _ := a.Write(first, false);
    OverflowCut(ssl, first, second);
    var n, _ := a.Write(second, false);
    accepted := n;
  }

  lemma OverflowCut(ssl: bool, first: seq<byte>, second: seq<byte>)
    requires 0 < |first| <= S.CORK_BUFFER_SIZE && |first| + |second| > S.CORK_BUFFER_SIZE
    ensures var r := S.Write(S.Socket([], [], [0], ssl, false, first, S.Me), second, false);
            && r.written == (if ssl then S.CORK_BUFFER_SIZE - |first| else 0)
            && S.Stream(r.socket) == first + second[..r.written]
  {
    hide S.Write, S.Overtakes, S.Fails;
    var s := S.Socket([], [], [0], ssl, false, first, S.Me);
    S.WriteMeans(s, second, false);
    NothingToOvertake(s);
    assert S.Stream(s) == first;
  }

  lemma WriteCorked(ssl: bool, first: seq<byte>)
    requires 0 < |first| <= S.CORK_BUFFER_SIZE
    ensures S.Write(S.Socket([], [], [0], ssl, false, [], S.Me), first, false).socket
         == S.Socket([], [], [0], ssl, false, first, S.Me)
  {
    hide S.Uncork, S.Through;
    assert [] + first == first;
  }

  lemma NothingToOvertake(s: S.Socket<byte>)
    requires s.buffer == []
    ensures !S.Overtakes(s)
  {
  }
}
