/** What an HTTP parser should make of a stream of octets, one octet at a time. */
module HttpSpec {
  import opened Bytes
  import Utilities

  const CR: byte := 13
  const LF: byte := 10
  const MAX_HEADERS: nat := 50
  const MAX_FALLBACK_SIZE: nat := 4096

  // ---- Characters; `char` is signed ----

  function Lower(b: byte): byte { b | 32 }

  /** What a key goes on with. */
  predicate IsKeyOctet(b: byte) { b != 58 && 32 < b < 128 }

  /** What is skipped between a key and its value. */
  predicate IsSkipped(b: byte) { b != CR && (b == 58 || b < 33 || b >= 128) }

  lemma LowerKeeps(b: byte)
    requires IsKeyOctet(b)
    ensures IsKeyOctet(Lower(b)) && Lower(Lower(b)) == Lower(b) && b != CR && b != LF && !IsSkipped(b)
            && !IsSkipped(Lower(b))
  {
  }

  lemma CrIsNoKey()
    ensures !IsKeyOctet(CR) && !IsSkipped(CR) && CR != LF
  {
  }

  // ---- Heads ----

  datatype Header = Header(key: seq<byte>, value: seq<byte>)

  /** How far a head has been read. The first of the fields is the request line: method, and URL with version. */
  datatype Scan =
    | InKey(fields: seq<Header>, key: seq<byte>)
    | SawCr(fields: seq<Header>)
    | Skipping(fields: seq<Header>, key: seq<byte>)
    | InValue(fields: seq<Header>, key: seq<byte>, value: seq<byte>)
    | ValueCr(fields: seq<Header>, key: seq<byte>, value: seq<byte>)
    | Complete(fields: seq<Header>)
    | Stuck

  const START := InKey([], [])

  function ScanStep(s: Scan, b: byte): (r: Scan) {
    match s
    case InKey(fields, key) =>
      if IsKeyOctet(b) then InKey(fields, key + [Lower(b)])
      else if b != CR then Skipping(fields, key)
      else if fields == [] then Stuck
      else SawCr(fields)
    case SawCr(fields) => if b == LF then Complete(fields) else Stuck
    case Skipping(fields, key) =>
      if b == CR then ValueCr(fields, key, [])
      else if IsSkipped(b) then s
      else InValue(fields, key, [b])
    case InValue(fields, key, value) =>
      if b == CR then ValueCr(fields, key, value) else InValue(fields, key, value + [b])
    case ValueCr(fields, key, value) =>
      if b != LF || |fields| + 1 == MAX_HEADERS then Stuck else InKey(fields + [Header(key, value)], [])
    case Complete(_) => Stuck
    case Stuck => Stuck
  }

  function ScanAll(s: Scan, h: seq<byte>): (r: Scan)
    decreases |h|
  {
    if h == [] then s else ScanAll(ScanStep(s, h[0]), h[1..])
  }

  // ---- The body that a head announces ----

  /** The unsigned value of the digits, as a 32-bit accumulator gets it. */
  function ToUnsigned(s: seq<byte>): (n: nat)
    ensures n < 0x1_0000_0000
  {
    if s == [] then 0 else (ToUnsigned(s[..|s| - 1]) * 10 + (Value(s[|s| - 1]) - 48)) % 0x1_0000_0000
  }

  /** Octets read as characters. */
  function Text(s: seq<byte>): (t: string)
    ensures |t| == |s|
  {
    seq(|s|, i requires 0 <= i < |s| => Value(s[i]) as char)
  }

  /** A decimal number is read as the number, modulo 2^32. */
  lemma {:induction false} ToUnsignedIsParse(s: seq<byte>)
    requires Utilities.AllDigits(Text(s), 10)
    ensures ToUnsigned(s) == Utilities.Parse(Text(s), 10) % 0x1_0000_0000
    decreases |s|
  {
    hide Value;
    if s != [] {
      var n := |s| - 1;
      var front := s[..n];
      assert Text(front) == Text(s)[..n];
      ToUnsignedIsParse(front);
      assert Utilities.DigitValue(Text(s)[n]) == Value(s[n]) - 48;
      WrapOnce(Utilities.Parse(Text(front), 10), Value(s[n]) - 48);
    }
  }

  /** An accumulator may wrap at every digit or once. */
  lemma WrapOnce(n: nat, d: nat)
    ensures (n % 0x1_0000_0000 * 10 + d) % 0x1_0000_0000 == (n * 10 + d) % 0x1_0000_0000
  {
    var q, r := n / 0x1_0000_0000, n % 0x1_0000_0000;
    assert n * 10 + d == r * 10 + d + q * 10 * 0x1_0000_0000;
  }

  /** "content-length" in ASCII. */
  const CONTENT_LENGTH: seq<byte> := [99, 111, 110, 116, 101, 110, 116, 45, 108, 101, 110, 103, 116, 104]

  /** The value of the first header of a name; the list ends at an empty key, and the request line is not looked at. */
  function HeaderValue(fields: seq<Header>, name: seq<byte>): (v: seq<byte>)
    requires fields != []
  {
    LookUp(fields[1..], name)
  }

  function LookUp(fields: seq<Header>, name: seq<byte>): (v: seq<byte>) {
    if fields == [] || fields[0].key == [] then []
    else if fields[0].key == name then fields[0].value
    else LookUp(fields[1..], name)
  }

  /** A head announces a body exactly when it has a Content-Length with a value. */
  predicate Announces(fields: seq<Header>)
    requires fields != []
  {
    HeaderValue(fields, CONTENT_LENGTH) != []
  }

  function BodyLength(fields: seq<Header>): nat
    requires fields != []
  {
    ToUnsigned(HeaderValue(fields, CONTENT_LENGTH))
  }

  // ---- Streams ----

  /** The request line's value is the URL and the version, of nine octets with the blank. */
  function Url(value: seq<byte>): seq<byte> {
    value[..if |value| >= 9 then |value| - 9 else 0]
  }

  /** The place of the `?`, or the end. */
  function QuerySeparator(url: seq<byte>): (n: nat)
    ensures n <= |url| && (n < |url| ==> url[n] == 63) && 63 !in url[..n]
  {
    if url == [] || url[0] == 63 then 0
    else
      assert forall n: nat :: n < |url| ==> url[..n + 1] == [url[0]] + url[1..][..n];
      1 + QuerySeparator(url[1..])
  }

  /** What a handler gets to see of a head. */
  function Served(fields: seq<Header>): (r: Out)
    requires fields != []
  {
    var url := Url(fields[0].value);
    Request([Header(fields[0].key, url)] + fields[1..], QuerySeparator(url))
  }

  datatype Out =
    | Request(fields: seq<Header>, querySeparator: nat)
    | Octet(b: byte)
    | Done // the last piece of a body, or the absence of one, has been signalled

  datatype Phase =
    | Heading(scan: Scan, n: nat, cut: bool) // `n` octets of the head are there, and a chunk has ended among them
    | Streaming(left: nat)
    | Failed                                 // a head too long to be kept

  datatype Reader = Reader(phase: Phase, out: seq<Out>)

  const FRESH := Reader(Heading(START, 0, false), [])

  predicate Valid(st: Reader) {
    && (st.phase.Heading? ==> ScanValid(st.phase.scan) && (st.phase.cut ==> st.phase.n < MAX_FALLBACK_SIZE))
    && (st.phase.Streaming? ==> st.phase.left > 0)
  }

  predicate ScanValid(s: Scan) {
    !s.Complete? && (s.SawCr? ==> s.fields != [])
  }

  /** A body of length 0. */
  predicate AnnouncesZero(fields: seq<Header>)
    requires fields != []
  {
    Announces(fields) && BodyLength(fields) == 0
  }

  /** What a complete head leads to. The end of a body of length 0 is not signalled if the head came in pieces. */
  function Opened(out: seq<Out>, fields: seq<Header>, cut: bool): (r: Reader)
    requires fields != []
    ensures Valid(r)
  {
    if Announces(fields) && BodyLength(fields) > 0 then Reader(Streaming(BodyLength(fields)), out + [Served(fields)])
    else if Announces(fields) && cut then Reader(Heading(START, 0, false), out + [Served(fields)])
    else Reader(Heading(START, 0, false), out + [Served(fields), Done])
  }

  function Step(st: Reader, b: byte): (r: Reader)
    requires Valid(st)
    ensures Valid(r)
  {
    match st.phase
    case Heading(scan, n, cut) =>
      var next := ScanStep(scan, b);
      if next.Complete? then Opened(st.out, next.fields, cut)
      else if cut && n + 1 == MAX_FALLBACK_SIZE then Reader(Failed, st.out)
      else Reader(Heading(next, n + 1, cut), st.out)
    case Streaming(left) =>
      if left == 1 then Reader(Heading(START, 0, false), st.out + [Octet(b), Done])
      else Reader(Streaming(left - 1), st.out + [Octet(b)])
    case Failed => st
  }

  function Run(st: Reader, s: seq<byte>): (r: Reader)
    requires Valid(st)
    ensures Valid(r)
    decreases |s|
  {
    if s == [] then st else Run(Step(st, s[0]), s[1..])
  }

  // ---- Laws ----

  lemma FreshIsValid()
    ensures Valid(FRESH)
  {
  }

  lemma {:induction false} RunConcat(st: Reader, a: seq<byte>, b: seq<byte>)
    requires Valid(st)
    ensures Run(st, a + b) == Run(Run(st, a), b)
    decreases |a|
  {
    hide Valid, Step;
    if a == [] {
      assert a + b == b;
    } else {
      assert (a + b)[0] == a[0] && (a + b)[1..] == a[1..] + b;
      RunConcat(Step(st, a[0]), a[1..], b);
    }
  }

  lemma {:induction false} RunFailed(st: Reader, s: seq<byte>)
    requires st.phase.Failed?
    ensures Run(st, s) == st
    decreases |s|
  {
    if s != [] {
      RunFailed(st, s[1..]);
    }
  }

  lemma {:induction false} ScanConcat(s: Scan, a: seq<byte>, b: seq<byte>)
    ensures ScanAll(s, a + b) == ScanAll(ScanAll(s, a), b)
    decreases |a|
  {
    hide ScanStep;
    if a == [] {
      assert a + b == b;
    } else {
      assert (a + b)[0] == a[0] && (a + b)[1..] == a[1..] + b;
      ScanConcat(ScanStep(s, a[0]), a[1..], b);
    }
  }

  lemma ScanSnoc(s: Scan, a: seq<byte>, b: byte)
    ensures ScanAll(s, a + [b]) == ScanStep(ScanAll(s, a), b)
  {
    hide ScanStep;
    ScanConcat(s, a, [b]);
    assert [b][1..] == [];
  }

  /** No part of `h` completes the head. */
  ghost predicate Incomplete(scan: Scan, h: seq<byte>) {
    forall k {:trigger ScanAll(scan, h[..k])} :: 0 <= k <= |h| ==> !ScanAll(scan, h[..k]).Complete?
  }

  /** `h`, and no shorter part of it, completes the head. */
  ghost predicate Completes(scan: Scan, h: seq<byte>) {
    h != [] && Incomplete(scan, h[..|h| - 1]) && ScanAll(scan, h).Complete?
  }

  lemma IncompleteTail(scan: Scan, h: seq<byte>)
    requires h != [] && Incomplete(scan, h)
    ensures !ScanStep(scan, h[0]).Complete? && !scan.Complete? && Incomplete(ScanStep(scan, h[0]), h[1..])
  {
    hide ScanStep;
    var next := ScanStep(scan, h[0]);
    assert h[..0] == [] && ScanAll(scan, h[..0]) == scan;
    forall k | 0 <= k <= |h| - 1 ensures !ScanAll(next, h[1..][..k]).Complete? {
      assert h[..k + 1][1..] == h[1..][..k] && h[..k + 1][0] == h[0];
      assert ScanAll(scan, h[..k + 1]) == ScanAll(next, h[1..][..k]);
    }
    assert h[1..][..0] == [];
    assert ScanAll(next, h[1..][..0]) == next;
  }

  lemma ScanStaysValid(s: Scan, b: byte)
    requires ScanValid(s) && !ScanStep(s, b).Complete?
    ensures ScanValid(ScanStep(s, b))
  {
  }

  /** Octets that do not complete a head are only scanned. */
  lemma {:induction false} RunIncomplete(st: Reader, h: seq<byte>)
    requires Valid(st) && st.phase.Heading? && Incomplete(st.phase.scan, h)
    requires st.phase.cut ==> st.phase.n + |h| < MAX_FALLBACK_SIZE
    ensures ScanValid(ScanAll(st.phase.scan, h))
    ensures Run(st, h) == Reader(Heading(ScanAll(st.phase.scan, h), st.phase.n + |h|, st.phase.cut), st.out)
    decreases |h|
  {
    hide ScanStep, Incomplete, ScanValid;
    if h != [] {
      IncompleteTail(st.phase.scan, h);
      ScanStaysValid(st.phase.scan, h[0]);
      RunIncomplete(Step(st, h[0]), h[1..]);
    }
  }

  /** Too many octets that do not complete a head that came in pieces are a failure. */
  lemma RunTooLong(st: Reader, h: seq<byte>)
    requires Valid(st) && st.phase.Heading? && st.phase.cut
    requires Incomplete(st.phase.scan, h) && st.phase.n + |h| >= MAX_FALLBACK_SIZE
    ensures Run(st, h) == Reader(Failed, st.out)
  {
    hide ScanStep, ScanAll, ScanValid;
    var k := MAX_FALLBACK_SIZE - 1 - st.phase.n;
    IncompleteTake(st.phase.scan, h, k);
    RunIncomplete(st, h[..k]);
    assert h == h[..k] + h[k..];
    RunConcat(st, h[..k], h[k..]);
    var mid := Run(st, h[..k]);
    assert h[..k + 1] == h[..k] + [h[k]];
    ScanSnoc(st.phase.scan, h[..k], h[k]);
    assert !ScanAll(st.phase.scan, h[..k + 1]).Complete?;
    assert Step(mid, h[k]) == Reader(Failed, st.out);
    RunFailed(Step(mid, h[k]), h[k..][1..]);
  }

  lemma IncompleteTake(scan: Scan, h: seq<byte>, k: nat)
    requires k <= |h| && Incomplete(scan, h)
    ensures Incomplete(scan, h[..k])
  {
    hide ScanAll;
    forall j | 0 <= j <= k ensures !ScanAll(scan, h[..k][..j]).Complete? {
      assert h[..k][..j] == h[..j];
    }
  }

  /** A head that is completed in time opens its request. */
  lemma RunCompletes(st: Reader, h: seq<byte>)
    requires Valid(st) && st.phase.Heading? && Completes(st.phase.scan, h)
    requires st.phase.cut ==> st.phase.n + |h| <= MAX_FALLBACK_SIZE
    ensures ScanAll(st.phase.scan, h).fields != []
    ensures Run(st, h) == Opened(st.out, ScanAll(st.phase.scan, h).fields, st.phase.cut)
  {
    hide ScanAll, Incomplete, Opened;
    var n := |h| - 1;
    RunIncomplete(st, h[..n]);
    assert h == h[..n] + [h[n]];
    RunConcat(st, h[..n], [h[n]]);
    ScanSnoc(st.phase.scan, h[..n], h[n]);
    assert [h[n]][1..] == [];
  }

  function Octets(s: seq<byte>): (o: seq<Out>)
    ensures |o| == |s|
  {
    seq(|s|, i requires 0 <= i < |s| => Octet(s[i]))
  }

  /** Body octets are passed on, and the last is signalled. */
  lemma {:induction false} RunBody(st: Reader, s: seq<byte>)
    requires Valid(st) && st.phase.Streaming? && |s| <= st.phase.left
    ensures Run(st, s)
         == if |s| == st.phase.left then Reader(Heading(START, 0, false), st.out + Octets(s) + [Done])
            else Reader(Streaming(st.phase.left - |s|), st.out + Octets(s))
    decreases |s|
  {
    if s == [] {
      assert st.out + Octets(s) == st.out;
    } else {
      assert Octets(s) == [Octet(s[0])] + Octets(s[1..]);
      if st.phase.left == 1 {
        assert s[1..] == [] && Octets(s) == [Octet(s[0])];
        assert st.out + [Octet(s[0]), Done] == st.out + Octets(s) + [Done];
      } else {
        RunBody(Step(st, s[0]), s[1..]);
        assert st.out + [Octet(s[0])] + Octets(s[1..]) == st.out + Octets(s);
      }
    }
  }
}
