/** Writing to a socket through the loop's cork buffer and the socket's own backpressure buffer. */
module AsyncSockets {
  import opened Bytes
  import opened Unmasking
  import opened Frames
  import opened FrameFormat
  import S = SocketSpec

  const CORK_BUFFER_SIZE: nat := S.CORK_BUFFER_SIZE

  /** The part of the loop's data that sockets share: at most one of them is corked at any time. */
  class LoopData {
    const corkBuffer: array<byte>
    var corkOffset: nat
    var corkedSocket: AsyncSocket?

    constructor ()
      ensures fresh(corkBuffer) && corkBuffer.Length == CORK_BUFFER_SIZE && corkOffset == 0 && corkedSocket == null
    {
      corkBuffer := new byte[CORK_BUFFER_SIZE];
      corkOffset, corkedSocket := 0, null;
    }
  }

  class AsyncSocket {
    const loop: LoopData
    const ssl: bool

    /** Octets the application has handed over and the kernel has not yet taken. */
    var buffer: seq<byte>
    var isClosed: bool

    /** What the kernel is going to take, call by call, and everything when this is over. */
    var kernel: seq<nat>

    /** Octets the kernel has taken, in order. */
    ghost var wire: seq<byte>

    constructor (loop: LoopData, ssl: bool, kernel: seq<nat>)
      ensures this.loop == loop && this.ssl == ssl && this.kernel == kernel
      ensures buffer == [] && !isClosed && wire == []
    {
      this.loop, this.ssl, this.kernel, buffer, isClosed, wire := loop, ssl, kernel, [], false, [];
    }

    predicate Fits()
      reads loop
    {
      loop.corkBuffer.Length == CORK_BUFFER_SIZE && loop.corkOffset <= CORK_BUFFER_SIZE
    }

    /** Between calls nothing is corked for nobody. */
    predicate Valid()
      reads loop
    {
      Fits() && (loop.corkedSocket == null ==> loop.corkOffset == 0)
    }

    predicate IsCorked()
      reads loop
    {
      loop.corkedSocket == this
    }

    predicate CanCork()
      reads loop
    {
      loop.corkedSocket == null
    }

    /** Whose the cork is. */
    function Holder(): S.Holder
      reads loop
    {
      if IsCorked() then S.Me else if CanCork() then S.Nobody else S.Another
    }

    /** The socket as a value. */
    ghost function Now(): (s: S.Socket<byte>)
      requires Fits()
      reads this, loop, loop.corkBuffer
      ensures S.Fits(s) && (Valid() <==> S.Valid(s))
    {
      S.Socket(wire, buffer, kernel, ssl, isClosed, loop.corkBuffer[..loop.corkOffset], Holder())
    }

    /** The kernel takes a prefix. */
    method SocketWrite(data: seq<byte>) returns (written: nat)
      requires data != []
      modifies `wire, `kernel
      ensures written == S.Taken(old(kernel), |data|) && wire == old(wire) + data[..written]
      ensures kernel == S.After(old(kernel), |data|)
    {
      written := S.Taken(kernel, |data|);
      kernel := S.After(kernel, |data|);
      wire := wire + data[..written];
    }

    /** Takes the cork, whoever has it and whatever is in it. */
    method Cork()
      requires Fits()
      modifies loop`corkedSocket
      ensures Fits() && Now() == S.Do(old(Now()), S.Corks).socket && loop.corkedSocket == this
    {
      loop.corkedSocket := this;
    }

    /** The socket is closed, by whomever; the cork stays where it is. */
    method Close()
      requires Fits()
      modifies `isClosed
      ensures Fits() && Now() == S.Do(old(Now()), S.Shuts).socket
    {
      isClosed := true;
    }

    /** Sends off as much of the backpressure as the kernel takes. */
    method Flush()
      requires Fits()
      modifies `buffer, `wire, `kernel
      ensures Now() == S.Flushed(old(Now()))
    {
      if buffer != [] {
        var written := SocketWrite(buffer);
        buffer := buffer[written..];
      } else {
        assert wire + [] == wire;
      }
    }

    /**
     Writes in three levels: cork buffer, kernel, backpressure buffer. What is reported as written joins the stream at
     its end, unless this write overtakes what is corked.
     */
    method Write(src: seq<byte>, optionally: bool) returns (written: nat, failed: bool)
      requires Fits()
      modifies `buffer, `wire, `kernel, loop, loop.corkBuffer
      ensures Fits() && S.Done(Now(), written, failed) == S.Write(old(Now()), src, optionally)
      ensures var was := old(Now());
              && written == S.Reports(was, |src|, optionally) && (failed <==> S.Fails(was, |src|))
              && (!isClosed ==> S.Stream(Now()) == if !optionally && S.Overtakes(was)
                                                   then was.wire + was.buffer + src + S.Corked(was)
                                                   else S.Stream(was) + src[..written])
      ensures !old(IsCorked()) ==> loop.corkedSocket == old(loop.corkedSocket)
      ensures Now().holder == S.Another ==> loop.corkedSocket == old(loop.corkedSocket)
      decreases if IsCorked() then 1 else 0, 2
    {
      hide S.Flushed, S.Taken, S.After, S.Uncork, S.Through, S.Stream, S.Corked, S.Reports, S.Fails, S.Overtakes;
      S.WriteMeans(Now(), src, optionally);
      if isClosed {
        return |src|, false;
      }
      Flush();
      if buffer != [] {
        if optionally {
          return 0, true;
        }
        buffer := buffer + src;
        return |src|, true;
      }
      if src == [] {
        return 0, false;
      }
      if loop.corkedSocket == this {
        if CORK_BUFFER_SIZE - loop.corkOffset >= |src| {
          CorkUp(src);
          return |src|, false;
        }
        written, failed := Overflow(src, optionally);
      } else {
        written, failed := WriteThrough(src, optionally);
      }
    }

    /** Writing when there is neither a cork nor backpressure. */
    method WriteThrough(src: seq<byte>, optionally: bool) returns (written: nat, failed: bool)
      requires Fits() && buffer == [] && src != []
      modifies `buffer, `wire, `kernel
      ensures Fits() && S.Done(Now(), written, failed) == S.Through(old(Now()), src, optionally)
    {
      var n := SocketWrite(src);
      if n < |src| {
        if optionally {
          return n, true;
        }
        buffer := buffer + src[n..];
        return |src|, true;
      }
      return |src|, false;
    }

    /** Data that does not fit into the cork buffer: over TLS a part of it is corked nevertheless. */
    method Overflow(src: seq<byte>, optionally: bool) returns (written: nat, failed: bool)
      requires Fits() && IsCorked() && |src| > CORK_BUFFER_SIZE - loop.corkOffset
      modifies `buffer, `wire, `kernel, loop, loop.corkBuffer
      ensures Fits()
      ensures var k := S.Stripped(old(Now()));
              var u := S.Uncork(old(Now()).(cork := old(Now()).cork + src[..k]), src[k..], optionally);
              S.Done(Now(), written, failed) == S.Done(u.socket, u.written + k, u.failed)
      ensures Now().holder == S.Another ==> loop.corkedSocket == old(loop.corkedSocket)
      decreases 1, 1
    {
      hide S.Uncork;
      if ssl {
        var stripped := CORK_BUFFER_SIZE - loop.corkOffset;
        CorkUp(src[..stripped]);
        written, failed := Uncork(src[stripped..], optionally);
        written := written + stripped;
      } else {
        assert src[0..] == src && Now().cork + src[..0] == Now().cork;
        written, failed := Uncork(src, optionally);
      }
    }

    /** Puts octets that fit into the cork buffer. */
    method CorkUp(src: seq<byte>)
      requires Fits() && loop.corkOffset + |src| <= CORK_BUFFER_SIZE
      modifies loop`corkOffset, loop.corkBuffer
      ensures Fits() && Now() == old(Now()).(cork := old(Now()).cork + src)
    {
      ghost var was := loop.corkBuffer[..];
      WriteOctets(loop.corkBuffer, loop.corkOffset, src);
      PatchedInside(was, loop.corkOffset, src);
      loop.corkOffset := loop.corkOffset + |src|;
      assert loop.corkBuffer[..loop.corkOffset] == loop.corkBuffer[..][..loop.corkOffset];
      assert was[..old(loop.corkOffset)] == old(loop.corkBuffer[..loop.corkOffset]);
    }

    /** Takes the cork off, if it is this socket's: sends off what is corked, then `src`. */
    method Uncork(src: seq<byte>, optionally: bool) returns (written: nat, failed: bool)
      requires Fits()
      modifies `buffer, `wire, `kernel, loop, loop.corkBuffer
      ensures Fits() && S.Done(Now(), written, failed) == S.Uncork(old(Now()), src, optionally)
      ensures var was := old(Now());
              && written == S.UncorkReports(was, |src|, optionally)
              && (!isClosed ==> S.Stream(Now()) == S.Stream(was) + src[..written])
      ensures Now().holder == S.Another ==> loop.corkedSocket == old(loop.corkedSocket)
      decreases if IsCorked() then 1 else 0, 0
    {
      hide S.Write, S.Stream, S.UncorkReports;
      S.UncorkMeans(Now(), src, optionally);
      if loop.corkedSocket != this {
        return 0, false;
      }
      loop.corkedSocket := null;
      if loop.corkOffset != 0 {
        var _, fell := Write(loop.corkBuffer[..loop.corkOffset], false);
        loop.corkOffset := 0;
        if fell {
          return 0, true;
        }
      }
      written, failed := Write(src, optionally);
    }

    // ---- Sending WebSocket messages (WebSocket::send) ----

    /** A place for `size` octets: in the cork buffer if there is room, else a buffer that is still to be written. */
    method GetSendBuffer(size: nat) returns (buf: array<byte>, at: nat, requiresWrite: bool)
      requires Fits()
      modifies loop`corkOffset
      ensures Fits() && requiresWrite == !(loop.corkedSocket == this && old(loop.corkOffset) + size < CORK_BUFFER_SIZE)
      ensures requiresWrite ==> fresh(buf) && at == 0 && buf.Length == size && loop.corkOffset == old(loop.corkOffset)
      ensures !requiresWrite ==>
                buf == loop.corkBuffer && at == old(loop.corkOffset) && loop.corkOffset == at + size
    {
      if loop.corkedSocket == this && loop.corkOffset + size < CORK_BUFFER_SIZE {
        buf, at, requiresWrite := loop.corkBuffer, loop.corkOffset, false;
        loop.corkOffset := loop.corkOffset + size;
      } else {
        buf := new byte[size];
        at, requiresWrite := 0, true;
      }
    }

    /** The frame of a message, in the cork buffer or in a buffer of its own. */
    method FrameMessage(message: seq<byte>, op: OpCode, random: seq<byte>)
      returns (frame: seq<byte>, requiresWrite: bool)
      requires Fits() && 0 <= op < 16 && |message| < Pow256(8) && |random| == 4
      modifies loop`corkOffset, loop.corkBuffer
      ensures Fits() && frame == ServerWire(op, message)
      ensures requiresWrite == !(IsCorked() && |old(Now()).cork| + |frame| < CORK_BUFFER_SIZE)
      ensures Now() == if requiresWrite then old(Now()) else old(Now()).(cork := old(Now()).cork + frame)
    {
      hide Pow256, ServerWire;
      ServerWireSize(op, message);
      ghost var was, offset := loop.corkBuffer[..], loop.corkOffset;
      var buf, at;
      buf, at, requiresWrite := GetSendBuffer(MessageFrameSize(|message|));
      frame := FormatAt(buf, at, message, op, random);
      if !requiresWrite {
        assert was[..offset] == old(loop.corkBuffer[..loop.corkOffset]);
      } else {
        assert loop.corkBuffer[..] == was;
        assert loop.corkBuffer[..offset] == was[..offset];
      }
    }

    /** The frame of a message, at a place in a buffer. */
    static method FormatAt(buf: array<byte>, at: nat, message: seq<byte>, op: OpCode, random: seq<byte>)
      returns (frame: seq<byte>)
      requires 0 <= op < 16 && |message| < Pow256(8) && |random| == 4 && at + MessageFrameSize(|message|) <= buf.Length
      modifies buf
      ensures frame == ServerWire(op, message) && at + |frame| <= buf.Length
      ensures buf[..at + |frame|] == old(buf[..at]) + frame
    {
      hide Pow256, Patch, ServerWire;
      ServerWireSize(op, message);
      ghost var before := buf[..];
      var written := FormatMessage(true, buf, at, message, op, random);
      PatchedParts(before, at, ServerWire(op, message), written);
      PatchedInside(before, at, ServerWire(op, message));
      frame := buf[..][at..at + written];
      assert buf[..at + written] == buf[..][..at + written] && before[..at] == old(buf[..at]);
    }

    /** A frame on its way into the cork buffer, or past it. */
    method SendFrame(message: seq<byte>, op: OpCode, random: seq<byte>) returns (failed: bool)
      requires Fits() && 0 <= op < 16 && |message| < Pow256(8) && |random| == 4
      modifies `buffer, `wire, `kernel, loop, loop.corkBuffer
      ensures Fits() && S.Done(Now(), 0, failed) == S.SendFrame(old(Now()), ServerWire(op, message))
      ensures Now().holder == S.Another ==> loop.corkedSocket == old(loop.corkedSocket)
    {
      hide Pow256, ServerWire, S.Write;
      var frame, requiresWrite := FrameMessage(message, op, random);
      failed := false;
      if requiresWrite {
        var _, fell := Write(frame, false);
        failed := fell;
      }
    }

    /** Sends a message as one frame, with a cork for the duration of the call if nobody has it. */
    method Send(message: seq<byte>, op: OpCode, random: seq<byte>, maxBackpressure: nat) returns (ok: bool)
      requires Fits() && 0 <= op < 16 && |message| < Pow256(8) && |random| == 4
      modifies `buffer, `wire, `kernel, loop, loop.corkBuffer
      ensures Fits()
      ensures S.Done(Now(), 0, !ok) == S.Send(old(Now()), ServerWire(op, message), maxBackpressure)
      ensures old(Valid()) && !isClosed ==>
                var was, frame, n := old(Now()), ServerWire(op, message), |ServerWire(op, message)|;
                && (!ok <==> S.SendFails(was, n, maxBackpressure)) && Valid()
                && S.Stream(Now()) == (if S.SendOvertakes(was, n, maxBackpressure)
                                       then was.wire + was.buffer + frame + S.Corked(was)
                                       else S.Stream(was) + frame[..S.SendAccepts(was, n, maxBackpressure)])
                && (old(CanCork()) ==> (IsCorked() <==> S.StaysOn(was, n, maxBackpressure)))
      ensures Now().holder == S.Another ==> loop.corkedSocket == old(loop.corkedSocket)
    {
      hide Pow256, ServerWire, S.SendFrame, S.Uncork, S.Stream, S.Corked, S.SendAccepts, S.SendFails, S.SendOvertakes,
           S.StaysOn;
      if Valid() && !isClosed {
        S.SendMeans(Now(), ServerWire(op, message), maxBackpressure);
      }
      if maxBackpressure != 0 && maxBackpressure < |buffer| {
        return true;
      }
      var automaticallyCorked := false;
      if !IsCorked() && CanCork() {
        automaticallyCorked := true;
        Cork();
      }
      var failed := SendFrame(message, op, random);
      if failed {
        return false;
      }
      if automaticallyCorked {
        var _, fell := Uncork([], false);
        if fell {
          return false;
        }
      }
      return true;
    }

    /** One call of the application, and what it returns. */
    method Do(op: SocketOp) returns (written: nat, failed: bool)
      requires Fits() && Proper(op)
      modifies `buffer, `wire, `kernel, `isClosed, loop, loop.corkBuffer
      ensures Fits() && S.Done(Now(), written, failed) == S.Do(old(Now()), AsOp(op))
      ensures Now().holder == S.Another ==> loop.corkedSocket == old(loop.corkedSocket)
    {
      hide ServerWire, Pow256, S.Write, S.Uncork, S.Send;
      written, failed := 0, false;
      match op {
        case Corks => Cork();
        case Writes(src, optionally) => written, failed := Write(src, optionally);
        case Uncorks(src, optionally) => written, failed := Uncork(src, optionally);
        case Sends(message, opCode, random, maxBackpressure) =>
          var ok := Send(message, opCode, random, maxBackpressure);
          failed := !ok;
        case Shuts => Close();
      }
    }
  }

  /** What an application may do with a socket. */
  datatype SocketOp =
    | Corks
    | Writes(src: seq<byte>, optionally: bool)
    | Uncorks(src: seq<byte>, optionally: bool)
    | Sends(message: seq<byte>, opCode: int, random: seq<byte>, maxBackpressure: nat)
    | Shuts

  /** What formatMessage asks for. */
  predicate Proper(op: SocketOp) {
    op.Sends? ==> 0 <= op.opCode < 16 && |op.message| < Pow256(8) && |op.random| == 4
  }

  predicate AllProper(ops: seq<SocketOp>) {
    forall i :: 0 <= i < |ops| ==> Proper(ops[i])
  }

  /** The same with the message put into its frame. */
  function AsOp(op: SocketOp): (r: S.Op<byte>) {
    match op
    case Corks => S.Corks
    case Writes(src, optionally) => S.Writes(src, optionally)
    case Uncorks(src, optionally) => S.Uncorks(src, optionally)
    case Sends(message, opCode, _, maxBackpressure) =>
      S.Sends(if 0 <= opCode < 16 && |message| < Pow256(8) then ServerWire(opCode, message) else [], maxBackpressure)
    case Shuts => S.Shuts
  }

  function AsOps(ops: seq<SocketOp>): (r: seq<S.Op<byte>>)
    ensures |r| == |ops| && forall i :: 0 <= i < |ops| ==> r[i] == AsOp(ops[i])
  {
    seq(|ops|, i requires 0 <= i < |ops| => AsOp(ops[i]))
  }

  /**
   Any calls, one after the other, whatever the kernel takes and when; `returned` is what they return. On an open socket
   what each call gains stands in the line, and the line is a queue if no call overtakes what is corked.
   */
  method RunOps(socket: AsyncSocket, ops: seq<SocketOp>) returns (returned: seq<(nat, bool)>)
    requires socket.Fits() && AllProper(ops)
    modifies socket`buffer, socket`wire, socket`kernel, socket`isClosed, socket.loop, socket.loop.corkBuffer
    ensures socket.Fits() && socket.Now() == S.Runs(old(socket.Now()), AsOps(ops))
    ensures returned == S.Returned(old(socket.Now()), AsOps(ops))
    ensures old(socket.Valid() && !socket.isClosed) && S.NoneShuts(AsOps(ops)) ==>
              var was, all := old(socket.Now()), AsOps(ops);
              && socket.Valid() && S.Stream(socket.Now()) == S.Lined(was, all)
              && (S.NonePasses(was, all) ==> S.Stream(socket.Now()) == S.Stream(was) + S.Gained(was, all))
    ensures socket.Now().holder == S.Another ==> socket.loop.corkedSocket == old(socket.loop.corkedSocket)
  {
    hide AsOp, AsOps, Proper, S.Do, S.Stream, S.Lined, S.Gained, S.NonePasses, S.Runs, S.NoneShuts, S.Returned;
    returned := [];
    ghost var was := socket.Now();
    RunMeans(was, AsOps(ops));
    NoOps(was);
    assert ops[..0] == [];
    for i := 0 to |ops|
      invariant socket.Fits() && socket.Now() == S.Runs(was, AsOps(ops[..i])) && |returned| == i
      invariant returned == S.Returned(was, AsOps(ops[..i]))
      invariant socket.Now().holder == S.Another ==> socket.loop.corkedSocket == old(socket.loop.corkedSocket)
    {
      OneMoreOp(ops, i);
      S.RunsSnoc(was, AsOps(ops[..i]), AsOp(ops[i]));
      var written, failed := socket.Do(ops[i]);
      returned := returned + [(written, failed)];
    }
    assert ops[..|ops|] == ops;
  }

  lemma RunMeans(s: S.Socket<byte>, ops: seq<S.Op<byte>>)
    requires S.Fits(s)
    ensures S.Valid(s) && !s.closed && S.NoneShuts(ops) ==>
              && S.Valid(S.Runs(s, ops)) && S.Stream(S.Runs(s, ops)) == S.Lined(s, ops)
              && (S.NonePasses(s, ops) ==> S.Stream(S.Runs(s, ops)) == S.Stream(s) + S.Gained(s, ops))
  {
    hide S.Stream, S.Lined, S.Gained, S.NonePasses, S.Runs, S.NoneShuts;
    if S.Valid(s) && !s.closed && S.NoneShuts(ops) {
      S.RunsMean(s, ops);
      if S.NonePasses(s, ops) {
        S.Fifo(s, ops);
      }
    }
  }

  lemma NoOps(s: S.Socket<byte>)
    requires S.Fits(s)
    ensures S.Runs(s, AsOps([])) == s && S.Returned(s, AsOps([])) == []
  {
  }

  lemma OneMoreOp(ops: seq<SocketOp>, i: nat)
    requires i < |ops|
    ensures AsOps(ops[..i + 1]) == AsOps(ops[..i]) + [AsOp(ops[i])]
  {
    hide AsOp;
  }

  lemma PatchedInside(s: seq<byte>, at: nat, p: seq<byte>)
    requires at + |p| <= |s|
    ensures Patch(s, at, p)[..at + |p|] == s[..at] + p
  {
  }
}
