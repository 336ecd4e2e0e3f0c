/** The wire format of WebSocket frames (section 5.2 of RFC 6455) as the server reads it. */
module Frames {
  import opened Bytes
  import opened Utf8

  type OpCode = int

  const CONTINUATION: OpCode := 0
  const TEXT: OpCode := 1
  const BINARY: OpCode := 2
  const CLOSE: OpCode := 8
  const PING: OpCode := 9
  const PONG: OpCode := 10

  // Header sizes on the receiving side of a server: two octets, the extended length, four octets of key.
  const SHORT_MESSAGE_HEADER: nat := 6
  const MEDIUM_MESSAGE_HEADER: nat := 8
  const LONG_MESSAGE_HEADER: nat := 14

  const CONSUME_POST_PADDING: nat := 4
  const CONSUME_PRE_PADDING: nat := 13

  predicate IsFin(b: byte) { b & 128 != 0 }

  predicate Rsv1(b: byte) { b & 64 != 0 }

  predicate Rsv23(b: byte) { b & 48 != 0 }

  function OpCodeOf(b: byte): (op: OpCode) {
    LowNibble(b);
    Value(b & 15)
  }

  function Length7(b: byte): (n: nat)
    ensures n < 128
  {
    LowSeven(b);
    Value(b & 127)
  }

  lemma LowNibble(b: byte)
    ensures Value(b & 15) < 16
  {
    var c := b & 15;
    assert c & 128 == 0 && c & 64 == 0 && c & 32 == 0 && c & 16 == 0;
  }

  lemma LowSeven(b: byte)
    ensures Value(b & 127) < 128
  {
    var c := b & 127;
    assert c & 128 == 0;
    assert Weigh(false, c & 64 != 0, c & 32 != 0, c & 16 != 0) < 8;
  }

  /** A head the parser refuses outright: compression is off, so RSV1 is refused like RSV2 and RSV3. */
  predicate RefusedHead(b0: byte, b1: byte) {
    || Rsv1(b0) || Rsv23(b0)
    || (OpCodeOf(b0) > 2 && OpCodeOf(b0) < 8) || OpCodeOf(b0) > 10
    || (OpCodeOf(b0) > 2 && (!IsFin(b0) || Length7(b1) > 125))
  }

  /** Octets of head announced by the second octet. */
  function HeadSize(b1: byte): (n: nat)
    ensures n == 6 || n == 8 || n == 14
  {
    if Length7(b1) < 126 then SHORT_MESSAGE_HEADER
    else if Length7(b1) == 126 then MEDIUM_MESSAGE_HEADER
    else LONG_MESSAGE_HEADER
  }

  /** A whole head: flags, length and masking key. */
  predicate WholeHead(h: seq<byte>) {
    |h| >= 6 && |h| == HeadSize(h[1])
  }

  function PayloadLength(h: seq<byte>): (n: nat)
    requires WholeHead(h)
  {
    if Length7(h[1]) < 126 then Length7(h[1]) else FromNetwork(h[2..|h| - 4])
  }

  function MaskingKey(h: seq<byte>): (key: seq<byte>)
    requires WholeHead(h)
    ensures |key| == 4
  {
    h[|h| - 4..]
  }

  // ---- Close payloads ----

  /** Status codes a close payload may carry. */
  predicate AcceptedCode(code: nat) {
    1000 <= code <= 4999 && !(code > 1011 && code < 4000) && !(1004 <= code <= 1006)
  }

  datatype CloseFrame = CloseFrame(code: nat, reason: seq<byte>)

  function ParsedClose(payload: seq<byte>): (f: CloseFrame) {
    if |payload| < 2 then CloseFrame(1005, [])
    else if AcceptedCode(FromNetwork(payload[..2])) && ValidUtf8(payload[2..])
    then CloseFrame(FromNetwork(payload[..2]), payload[2..])
    else CloseFrame(1006, [])
  }

  /** The code is in the first two octets, the greater first. */
  lemma CodeValue(payload: seq<byte>)
    requires |payload| >= 2
    ensures FromNetwork(payload[..2]) == 256 * Value(payload[0]) + Value(payload[1])
  {
    hide Value;
    var s := payload[..2];
    assert s[..1] == [payload[0]] && s[..1][..0] == [];
    assert FromNetwork(s[..1]) == Value(payload[0]);
  }

  method ParseClosePayload(src: seq<byte>) returns (f: CloseFrame)
    ensures f == ParsedClose(src)
    ensures |src| < 2 ==> f == CloseFrame(1005, [])
    ensures |src| >= 2 ==>
              var code, reason := 256 * Value(src[0]) + Value(src[1]), src[2..];
              f == if ValidUtf8(reason) && (1000 <= code <= 1003 || 1007 <= code <= 1011 || 4000 <= code <= 4999)
                   then CloseFrame(code, reason) else CloseFrame(1006, [])
  {
    hide Value, FromNetwork, ValidUtf8;
    f := CloseFrame(1005, []);
    if |src| >= 2 {
      CodeValue(src);
      f := CloseFrame(FromNetwork(src[..2]), src[2..]);
      var refused := f.code < 1000 || f.code > 4999 || (f.code > 1011 && f.code < 4000)
                     || (f.code >= 1004 && f.code <= 1006);
      if !refused {
        var valid := IsValidUtf8(f.reason);
        refused := !valid;
      }
      if refused {
        return CloseFrame(1006, []);
      }
    }
  }
}
