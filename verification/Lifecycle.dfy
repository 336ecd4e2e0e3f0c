/** What the handlers of one socket can and cannot see over its whole life. */
module Lifecycle {
  import opened Bytes
  import opened Utf8
  import opened Frames
  import opened ReceiveSpec
  import opened ReceiveLemmas

  /** What can happen to a socket, in any order. */
  datatype Input =
    | Data(bytes: seq<byte>)
    | UserEnd(code: nat, reason: seq<byte>)
    | Writable(before: nat, after: nat)         // the lengths of the backpressure buffer before and after
    | SocketClosed(why: string)                 // by the peer, a timeout or the application

  function Act(ctx: Context, st: Receiver, i: Input): (r: Receiver)
    requires Valid(ctx, st)
    ensures Valid(ctx, r)
  {
    if st.Gone? then st
    else
      match i
      case Data(bytes) => Run(ctx, st, bytes)
      case UserEnd(code, reason) => Gone(st.log + [Closed(code, reason)])
      case Writable(before, after) => if before == 0 || before > after then Emit(ctx, st, Drained) else st
      case SocketClosed(why) => Abort(st, why)
  }

  function Acts(ctx: Context, st: Receiver, inputs: seq<Input>): (r: Receiver)
    requires Valid(ctx, st)
    ensures Valid(ctx, r)
    decreases |inputs|
  {
    if inputs == [] then st else Acts(ctx, Act(ctx, st, inputs[0]), inputs[1..])
  }

  predicate IsClose(e: Event) { e.Closed? || e.Aborted? }

  /** The last thing reported is that the socket was closed. */
  predicate SaysAborted(st: Receiver) {
    st.Gone? && st.log != [] && st.log[|st.log| - 1].Aborted?
  }

  function Closes(log: seq<Event>): nat {
    if log == [] then 0 else Closes(log[..|log| - 1]) + (if IsClose(log[|log| - 1]) then 1 else 0)
  }

  /** No close event while the receiver lives; exactly one, and nothing after it, once it is gone. */
  predicate ClosedOnce(st: Receiver) {
    if st.Live? then Closes(st.log) == 0
    else st.log != [] && IsClose(st.log[|st.log| - 1]) && Closes(st.log[..|st.log| - 1]) == 0
  }

  const MAX_CONTROL: nat := 125

  predicate EventFits(ctx: Context, e: Event) {
    match e
    case Message(op, payload) => |payload| <= ctx.maxPayloadLength && (op == TEXT ==> ValidUtf8(payload))
    case Ping(payload) => |payload| <= MAX_CONTROL
    case _ => true
  }

  /** Every message handed over is within the limit, every text is valid, and a ping has at most 125 octets. */
  predicate WithinLimits(ctx: Context, log: seq<Event>) {
    forall i :: 0 <= i < |log| ==> EventFits(ctx, log[i])
  }

  /** The control payload in progress has at most 125 octets (section 5.5 of RFC 6455). */
  predicate ControlFits(st: Receiver) {
    st.Live? && st.phase.Payload? && st.ops != [] && IsControl(Top(st.ops)) ==>
      |st.control| + st.phase.remaining <= MAX_CONTROL
  }

  predicate Good(ctx: Context, st: Receiver) {
    Valid(ctx, st) && ClosedOnce(st) && WithinLimits(ctx, st.log) && ControlFits(st)
  }

  lemma ClosesSnoc(log: seq<Event>, e: Event)
    ensures Closes(log + [e]) == Closes(log) + (if IsClose(e) then 1 else 0)
  {
    assert (log + [e])[..|log|] == log;
  }

  lemma GoneOnce(ctx: Context, log: seq<Event>, e: Event)
    requires Closes(log) == 0 && WithinLimits(ctx, log) && IsClose(e)
    ensures ClosedOnce(Gone(log + [e])) && WithinLimits(ctx, log + [e])
  {
    assert (log + [e])[..|log|] == log;
  }

  /** Reporting an event within the limits keeps all this, whatever the handler does. */
  lemma ReportKeeps(ctx: Context, log: seq<Event>, e: Event)
    requires Closes(log) == 0 && WithinLimits(ctx, log) && !IsClose(e) && EventFits(ctx, e)
    ensures var o := Report(ctx, log, e);
            WithinLimits(ctx, o.log) && (if o.gone then ClosedOnce(Gone(o.log)) else Closes(o.log) == 0)
  {
    hide ValidUtf8;
    ClosesSnoc(log, e);
    match ctx.handler(log + [e])
    case CarryOn =>
    case CloseSocket => GoneOnce(ctx, log + [e], Aborted(""));
    case EndWith(code, reason) => GoneOnce(ctx, log + [e], Closed(code, reason));
  }

  lemma DeliverKeeps(ctx: Context, st: Receiver)
    requires st.Live? && st.ops != [] && |st.data| <= ctx.maxPayloadLength
    requires ClosedOnce(st) && WithinLimits(ctx, st.log) && (IsControl(Top(st.ops)) ==> |st.control| <= MAX_CONTROL)
    ensures ClosedOnce(Deliver(ctx, st)) && WithinLimits(ctx, Deliver(ctx, st).log)
  {
    hide ValidUtf8, ParsedClose, Report, WithinLimits, Closes;
    var op := Top(st.ops);
    if !IsControl(op) {
      if st.lastFin {
        if op == TEXT && !ValidUtf8(st.data) {
          GoneOnce(ctx, st.log, Aborted(ERR_INVALID_TEXT));
        } else {
          ReportKeeps(ctx, st.log, Message(op, st.data));
        }
      }
    } else if op == CLOSE {
      var f := ParsedClose(st.control);
      GoneOnce(ctx, st.log, Closed(f.code, f.reason));
    } else if op == PING {
      ReportKeeps(ctx, st.log, Ping(st.control));
    } else {
      ReportKeeps(ctx, st.log, Pong);
    }
  }

  lemma StepKeeps(ctx: Context, st: Receiver, b: byte)
    requires Good(ctx, st)
    ensures Good(ctx, Step(ctx, st, b))
  {
    hide WithinLimits, Closes, Deliver, RefusedHead, Unmask, PayloadLength, OpCodeOf, KnownOp, ValidUtf8;
    if st.Live? {
      GoneOnce(ctx, st.log, Aborted(""));
      GoneOnce(ctx, st.log, Aborted(ERR_TOO_BIG_MESSAGE));
      if st.phase.Payload? {
        var a := Absorb(ctx, st, Unmask(st.phase.key, [b]));
        if a.Live? {
          DeliverKeeps(ctx, a);
        }
      } else {
        var h := st.phase.bytes + [b];
        if WholeHead(h) && !RefusedHead(h[0], h[1]) {
          ControlIsShort(h);
          var o := Opened(ctx, st, OpCodeOf(h[0]), IsFin(h[0]), PayloadLength(h));
          if o.Live? {
            DeliverKeeps(ctx, o);
          }
        }
      }
    }
  }

  /** The head of a control frame announces at most 125 octets. */
  lemma ControlIsShort(h: seq<byte>)
    requires WholeHead(h) && !RefusedHead(h[0], h[1])
    ensures IsControl(OpCodeOf(h[0])) ==> PayloadLength(h) <= MAX_CONTROL
  {
    hide OpCodeOf, Length7;
  }

  lemma {:induction false} RunKeeps(ctx: Context, st: Receiver, s: seq<byte>)
    requires Good(ctx, st)
    ensures Good(ctx, Run(ctx, st, s))
    decreases |s|
  {
    hide Valid, ClosedOnce, WithinLimits, ControlFits, Step;
    if s != [] {
      StepKeeps(ctx, st, s[0]);
      RunKeeps(ctx, Step(ctx, st, s[0]), s[1..]);
    }
  }

  lemma ActKeeps(ctx: Context, st: Receiver, i: Input)
    requires Good(ctx, st)
    ensures Good(ctx, Act(ctx, st, i))
  {
    hide WithinLimits, Closes, Valid, Run, Report;
    if st.Live? {
      match i
      case Data(bytes) => RunKeeps(ctx, st, bytes);
      case UserEnd(code, reason) => GoneOnce(ctx, st.log, Closed(code, reason));
      case Writable(before, after) => ReportKeeps(ctx, st.log, Drained);
      case SocketClosed(why) => GoneOnce(ctx, st.log, Aborted(why));
    }
  }

  /**
   Over every life of a socket, whatever its handlers do: never more than one close event, never an event
   after it, and no message over the limit or with invalid text.
   */
  lemma {:induction false} LifeIsGood(ctx: Context, st: Receiver, inputs: seq<Input>)
    requires Good(ctx, st)
    ensures Good(ctx, Acts(ctx, st, inputs))
    decreases |inputs|
  {
    hide Good, Valid, Act;
    GoodIsValid(ctx, st);
    if inputs != [] {
      ActKeeps(ctx, st, inputs[0]);
      LifeIsGood(ctx, Act(ctx, st, inputs[0]), inputs[1..]);
    }
  }

  lemma GoodIsValid(ctx: Context, st: Receiver)
    requires Good(ctx, st)
    ensures Valid(ctx, st)
  {
  }

  lemma {:induction false} GoneStays(ctx: Context, st: Receiver, inputs: seq<Input>)
    requires st.Gone?
    ensures Acts(ctx, st, inputs) == st
    decreases |inputs|
  {
    if inputs != [] {
      GoneStays(ctx, st, inputs[1..]);
    }
  }

  lemma {:induction false} ClosingInputEnds(ctx: Context, st: Receiver, inputs: seq<Input>, k: nat)
    requires Valid(ctx, st) && k < |inputs| && inputs[k].SocketClosed?
    ensures Acts(ctx, st, inputs).Gone?
    decreases k
  {
    hide Valid, Run, Emit;
    if k == 0 {
      GoneStays(ctx, Act(ctx, st, inputs[0]), inputs[1..]);
    } else {
      ClosingInputEnds(ctx, Act(ctx, st, inputs[0]), inputs[1..], k - 1);
    }
  }

  /** What has been reported stays reported. */
  lemma StepGrows(ctx: Context, st: Receiver, b: byte)
    requires Valid(ctx, st)
    ensures st.log <= Step(ctx, st, b).log
  {
    hide RefusedHead, Unmask, PayloadLength, OpCodeOf, KnownOp, ValidUtf8, ParsedClose, Report, Deliver;
    if st.Live? && st.phase.Payload? {
      var a := Absorb(ctx, st, Unmask(st.phase.key, [b]));
      if a.Live? {
        DeliverGrows(ctx, a);
      }
    } else if st.Live? {
      var h := st.phase.bytes + [b];
      if WholeHead(h) {
        var o := Opened(ctx, st, OpCodeOf(h[0]), IsFin(h[0]), PayloadLength(h));
        if o.Live? {
          DeliverGrows(ctx, o);
        }
      }
    }
  }

  lemma DeliverGrows(ctx: Context, st: Receiver)
    requires st.Live? && st.ops != []
    ensures st.log <= Deliver(ctx, st).log
  {
    hide ValidUtf8, ParsedClose;
  }

  lemma {:induction false} RunGrows(ctx: Context, st: Receiver, s: seq<byte>)
    requires Valid(ctx, st)
    ensures st.log <= Run(ctx, st, s).log
    decreases |s|
  {
    hide Valid, Step;
    if s != [] {
      StepGrows(ctx, st, s[0]);
      RunGrows(ctx, Step(ctx, st, s[0]), s[1..]);
    }
  }

  lemma ActGrows(ctx: Context, st: Receiver, i: Input)
    requires Valid(ctx, st)
    ensures st.log <= Act(ctx, st, i).log
  {
    hide Valid, Run;
    if st.Live? && i.Data? {
      RunGrows(ctx, st, i.bytes);
    }
  }

  /** A receiver that is gone has just been told so, by a close event. */
  lemma GoneBy(ctx: Context, st: Receiver, i: Input)
    requires Good(ctx, st) && st.Live? && Act(ctx, st, i).Gone?
    ensures var log := Act(ctx, st, i).log;
            |st.log| < |log| && st.log <= log && IsClose(log[|log| - 1])
  {
    hide Valid, Run, Report, Act;
    ActGrows(ctx, st, i);
    ActKeeps(ctx, st, i);
  }

  /** The close handler of a socket that is eventually closed runs exactly once, as the last of its handlers. */
  lemma ExactlyOneCloseEvent(ctx: Context, inputs: seq<Input>, k: nat)
    requires k < |inputs| && inputs[k].SocketClosed?
    ensures Valid(ctx, FRESH)
    ensures var log := Acts(ctx, FRESH, inputs).log;
            && Closes(log) == 1 && log != [] && IsClose(log[|log| - 1])
            && WithinLimits(ctx, log)
  {
    hide Valid, Acts, WithinLimits;
    FreshIsGood(ctx);
    LifeIsGood(ctx, FRESH, inputs);
    ClosingInputEnds(ctx, FRESH, inputs, k);
  }

  lemma FreshIsGood(ctx: Context)
    ensures Good(ctx, FRESH)
  {
  }
}
