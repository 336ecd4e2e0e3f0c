/** What a client writes as a request is what the handler is called with, however the octets were cut up on the way. */
module HttpRoundTrip {
  import opened Bytes
  import opened HttpSpec
  import opened HttpChunks
  import opened HttpCuts
  import opened HttpParsers

  // ---- Requests as they are written ----

  /** " HTTP/1.1" and the end of a line in ASCII. */
  const VERSION: seq<byte> := [32, 72, 84, 84, 80, 47, 49, 46, 49]
  const CRLF: seq<byte> := [13, 10]

  function LineOf(h: Header): (s: seq<byte>) { h.key + [58, 32] + h.value + CRLF }

  function LinesOf(headers: seq<Header>): (s: seq<byte>) {
    if headers == [] then [] else LinesOf(headers[..|headers| - 1]) + LineOf(headers[|headers| - 1])
  }

  /** A request line, headers, and an empty line. */
  function HeadOf(name: seq<byte>, url: seq<byte>, headers: seq<Header>): (s: seq<byte>) {
    name + [32] + url + VERSION + CRLF + LinesOf(headers) + CRLF
  }

  /** A method, or the key of a header: visible ASCII, or DEL, without colons. */
  predicate IsName(s: seq<byte>) {
    forall i :: 0 <= i < |s| ==> 33 <= s[i] <= 127 && s[i] != 58
  }

  predicate IsHeader(h: Header) { IsName(h.key) && 13 !in h.value }

  predicate IsRequest(name: seq<byte>, url: seq<byte>, headers: seq<Header>) {
    IsName(name) && 13 !in url && |headers| < 49 && forall i :: 0 <= i < |headers| ==> IsHeader(headers[i])
  }

  // ---- Requests as they are to be read ----

  /** Letters in lower case, and with them the octets from 64 to 95 that are no letters. */
  function Lowered(s: seq<byte>): (r: seq<byte>)
    ensures |r| == |s|
  {
    seq(|s|, i requires 0 <= i < |s| => if 64 <= s[i] <= 95 then s[i] + 32 else s[i])
  }

  /** Without what is in front of the first visible ASCII octet that is no colon. */
  function Trimmed(s: seq<byte>): (r: seq<byte>)
    ensures |r| <= |s|
  {
    if s == [] || (33 <= s[0] <= 127 && s[0] != 58) then s else Trimmed(s[1..])
  }

  function ReadAs(h: Header): Header { Header(Lowered(h.key), Trimmed(h.value)) }

  function AllReadAs(headers: seq<Header>): (r: seq<Header>)
    ensures |r| == |headers|
  {
    seq(|headers|, i requires 0 <= i < |headers| => ReadAs(headers[i]))
  }

  /** The fields of a head, with the version still at the end of the URL. */
  function FieldsOf(name: seq<byte>, url: seq<byte>, headers: seq<Header>): (r: seq<Header>)
    ensures |r| == 1 + |headers|
  {
    [Header(Lowered(name), Trimmed(url + VERSION))] + AllReadAs(headers)
  }

  // ---- Scanning ----

  lemma NameIsKey(s: seq<byte>)
    requires IsName(s)
    ensures forall i :: 0 <= i < |s| ==> IsKeyOctet(s[i]) && Lower(s[i]) == Lowered(s)[i]
  {
    forall i | 0 <= i < |s| ensures IsKeyOctet(s[i]) && Lower(s[i]) == Lowered(s)[i] {
      LowerAdds(s[i]);
    }
  }

  lemma LowerAdds(b: byte)
    requires 33 <= b <= 127 && b != 58
    ensures IsKeyOctet(b) && Lower(b) == if 64 <= b <= 95 then b + 32 else b
  {
  }

  lemma SkippedMeans(b: byte)
    requires b != 13
    ensures IsSkipped(b) <==> !(33 <= b <= 127 && b != 58)
  {
  }

  /** From behind a key to the end of the line. */
  lemma {:induction false} ScanRest(fields: seq<Header>, key: seq<byte>, rest: seq<byte>)
    requires 13 !in rest && |fields| < 49
    ensures ScanAll(Skipping(fields, key), rest + CRLF) == InKey(fields + [Header(key, Trimmed(rest))], [])
    decreases |rest|
  {
    hide ScanAll, IsSkipped;
    if rest == [] {
      assert rest + CRLF == [CR, LF];
      ScanTwo(Skipping(fields, key), CR, LF);
    } else {
      SkippedMeans(rest[0]);
      if IsSkipped(rest[0]) {
        ScanOne(Skipping(fields, key), rest[0]);
        ScanRest(fields, key, rest[1..]);
        ScanConcat(Skipping(fields, key), [rest[0]], rest[1..] + CRLF);
        assert [rest[0]] + (rest[1..] + CRLF) == rest + CRLF;
      } else {
        ScanWholeValue(fields, key, rest);
        assert CRLF == [CR, LF];
      }
    }
  }

  lemma ScanField(fields: seq<Header>, name: seq<byte>, separator: byte, rest: seq<byte>)
    requires IsName(name) && (separator == 58 || separator == 32) && 13 !in rest && |fields| < 49
    ensures ScanAll(InKey(fields, []), name + [separator] + rest + CRLF)
         == InKey(fields + [Header(Lowered(name), Trimmed(rest))], [])
  {
    hide ScanAll, ScanStep, IsKeyOctet, IsSkipped, Lower, Lowered, Trimmed;
    NameIsKey(name);
    SeparatorMeans(separator);
    ScanKey(fields, [], name, Lowered(name));
    assert [] + Lowered(name) == Lowered(name);
    ScanSkipped(fields, Lowered(name), [separator]);
    ScanConcat(InKey(fields, []), name, [separator]);
    ScanRest(fields, Lowered(name), rest);
    ScanConcat(InKey(fields, []), name + [separator], rest + CRLF);
    assert name + [separator] + rest + CRLF == name + [separator] + (rest + CRLF);
  }

  lemma SeparatorMeans(separator: byte)
    requires separator == 58 || separator == 32
    ensures !IsKeyOctet(separator) && separator != CR
  {
  }

  lemma {:induction false} ScanLines(first: Header, headers: seq<Header>)
    requires |headers| < 49 && forall i :: 0 <= i < |headers| ==> IsHeader(headers[i])
    ensures ScanAll(InKey([first], []), LinesOf(headers)) == InKey([first] + AllReadAs(headers), [])
    decreases |headers|
  {
    hide ScanAll, IsName, Lowered, Trimmed;
    if headers == [] {
      ScanNothing(InKey([first], []));
      assert [first] + [] == [first];
    } else {
      var n := |headers| - 1;
      var h := headers[n];
      ScanLines(first, headers[..n]);
      ScanConcat(InKey([first], []), LinesOf(headers[..n]), LineOf(h));
      assert IsHeader(h) && LineOf(h) == h.key + [58] + ([32] + h.value) + CRLF;
      var fields := [first] + AllReadAs(headers[..n]);
      ScanField(fields, h.key, 58, [32] + h.value);
      TrimBlank(h.value);
      assert fields + [ReadAs(h)] == [first] + AllReadAs(headers);
    }
  }

  lemma ScanNothing(s: Scan)
    ensures ScanAll(s, []) == s
  {
  }

  lemma TrimBlank(s: seq<byte>)
    ensures Trimmed([32] + s) == Trimmed(s)
  {
    assert ([32] + s)[1..] == s;
  }

  lemma ScanHead(name: seq<byte>, url: seq<byte>, headers: seq<Header>)
    requires IsRequest(name, url, headers)
    ensures ScanAll(START, HeadOf(name, url, headers)) == Complete(FieldsOf(name, url, headers))
    ensures Completes(START, HeadOf(name, url, headers))
  {
    hide ScanAll, IsName, Lowered, Trimmed, Completes, LinesOf;
    var line := name + [32] + (url + VERSION) + CRLF;
    var first := Header(Lowered(name), Trimmed(url + VERSION));
    ScanField([], name, 32, url + VERSION);
    assert [] + [first] == [first];
    ScanLines(first, headers);
    ScanConcat(START, line, LinesOf(headers));
    ScanConcat(START, line + LinesOf(headers), CRLF);
    EndOfHead([first] + AllReadAs(headers));
    assert HeadOf(name, url, headers) == line + LinesOf(headers) + CRLF && CRLF == [CR, LF];
    CompleteIsFirst(START, HeadOf(name, url, headers));
  }

  // ---- Too many headers ----

  /** The fiftieth field of a head gets stuck at its end, and not before. */
  lemma {:induction false} RestSticks(fields: seq<Header>, key: seq<byte>, rest: seq<byte>)
    requires 13 !in rest && |fields| == 49
    ensures var s := ScanAll(Skipping(fields, key), rest + [13]); s.ValueCr? && s.fields == fields
    decreases |rest|
  {
    hide ScanAll, IsSkipped;
    if rest == [] {
      assert rest + [13] == [13];
      ScanOne(Skipping(fields, key), CR);
    } else {
      SkippedMeans(rest[0]);
      ScanOne(Skipping(fields, key), rest[0]);
      assert [rest[0]] + (rest[1..] + [13]) == rest + [13];
      ScanConcat(Skipping(fields, key), [rest[0]], rest[1..] + [13]);
      if IsSkipped(rest[0]) {
        RestSticks(fields, key, rest[1..]);
      } else {
        ScanValue(fields, key, [rest[0]], rest[1..]);
        ScanSnoc(InValue(fields, key, [rest[0]]), rest[1..], CR);
      }
    }
  }

  /** The line of a header without its last octet. */
  function Front(h: Header): (s: seq<byte>) { h.key + [58] + ([32] + h.value + [13]) }

  lemma FieldSticks(fields: seq<Header>, h: Header)
    requires IsHeader(h) && |fields| == 49
    ensures LineOf(h) == Front(h) + [10] && ScanAll(InKey(fields, []), Front(h)).ValueCr?
    ensures ScanAll(InKey(fields, []), LineOf(h)) == Stuck
  {
    hide ScanAll, IsKeyOctet, IsSkipped, Lower, Lowered, Trimmed;
    NameIsKey(h.key);
    SeparatorMeans(58);
    ScanKey(fields, [], h.key, Lowered(h.key));
    assert [] + Lowered(h.key) == Lowered(h.key);
    ScanSkipped(fields, Lowered(h.key), [58]);
    ScanConcat(InKey(fields, []), h.key, [58]);
    RestSticks(fields, Lowered(h.key), [32] + h.value);
    ScanConcat(InKey(fields, []), h.key + [58], [32] + h.value + [13]);
    ScanSnoc(InKey(fields, []), Front(h), LF);
    assert LineOf(h) == Front(h) + [10];
  }

  lemma {:induction false} StuckStays(s: seq<byte>)
    ensures ScanAll(Stuck, s) == Stuck
  {
    if s != [] {
      StuckStays(s[1..]);
    }
  }

  /** Where a scan has got stuck, and had not been complete before, it is never complete. */
  lemma StuckBehind(a: seq<byte>, b: byte, c: seq<byte>)
    requires !ScanAll(START, a).Complete? && !ScanAll(START, a).Stuck? && ScanAll(START, a + [b]) == Stuck
    ensures Incomplete(START, a + [b] + c)
  {
    hide ScanAll;
    var h := a + [b] + c;
    forall k | 0 <= k <= |h| ensures !ScanAll(START, h[..k]).Complete? {
      if k <= |a| {
        assert h[..k] == a[..k] && a == a[..k] + a[k..];
        ScanConcat(START, a[..k], a[k..]);
        OnlyOnce(ScanAll(START, a[..k]), a[k..]);
      } else {
        assert h[..k] == a + [b] + h[..k][|a| + 1..];
        ScanConcat(START, a + [b], h[..k][|a| + 1..]);
        StuckStays(h[..k][|a| + 1..]);
      }
    }
  }

  /** What follows a complete head makes it stuck. */
  lemma OnlyOnce(s: Scan, h: seq<byte>)
    requires !ScanAll(s, h).Complete? && !ScanAll(s, h).Stuck?
    ensures !s.Complete?
  {
    if s.Complete? && h != [] {
      StuckStays(h[1..]);
    }
  }

  lemma {:induction false} LinesConcat(a: seq<Header>, b: seq<Header>)
    ensures LinesOf(a + b) == LinesOf(a) + LinesOf(b)
    decreases |b|
  {
    hide LineOf;
    if b == [] {
      assert a + b == a;
    } else {
      var n := |b| - 1;
      LinesConcat(a, b[..n]);
      assert (a + b)[..|a + b| - 1] == a + b[..n];
    }
  }

  /** A head with 49 headers or more is never complete, so that no request comes of it. */
  lemma TooManyHeaders(name: seq<byte>, url: seq<byte>, headers: seq<Header>)
    requires IsName(name) && 13 !in url && |headers| >= 49
    requires forall i :: 0 <= i < |headers| ==> IsHeader(headers[i])
    ensures Incomplete(START, HeadOf(name, url, headers))
  {
    hide ScanAll, IsHeader, Lowered, Trimmed, LinesOf, LineOf, Front, Incomplete;
    var line := name + [32] + (url + VERSION) + CRLF;
    var first := Header(Lowered(name), Trimmed(url + VERSION));
    ScanField([], name, 32, url + VERSION);
    assert [] + [first] == [first];
    ScanLines(first, headers[..48]);
    var front := line + LinesOf(headers[..48]);
    ScanConcat(START, line, LinesOf(headers[..48]));
    var fields, h := [first] + AllReadAs(headers[..48]), headers[48];
    FieldSticks(fields, h);
    ScanConcat(START, front, Front(h));
    ScanConcat(START, front, LineOf(h));
    var more := LinesOf(headers[49..]) + CRLF;
    assert front + Front(h) + [10] == front + LineOf(h);
    StuckBehind(front + Front(h), 10, more);
    SplitLines(headers);
    assert HeadOf(name, url, headers) == front + Front(h) + [10] + more;
  }

  lemma SplitLines(headers: seq<Header>)
    requires |headers| >= 49
    ensures LinesOf(headers) == LinesOf(headers[..48]) + LineOf(headers[48]) + LinesOf(headers[49..])
  {
    hide LineOf, LinesOf;
    var one := [headers[48]];
    assert headers == headers[..48] + (one + headers[49..]);
    LinesConcat(headers[..48], one + headers[49..]);
    LinesConcat(one, headers[49..]);
    LinesOne(headers[48]);
  }

  lemma LinesOne(h: Header)
    ensures LinesOf([h]) == LineOf(h)
  {
    hide LineOf;
    assert [h][..0] == [];
    assert LinesOf([h]) == [] + LineOf(h);
  }

  // ---- The URL ----

  /** Trimming stops in the URL, or behind the blank that follows it. */
  lemma {:induction false} TrimUrl(url: seq<byte>)
    ensures Trimmed(url + VERSION) == Trimmed(url) + if Trimmed(url) == [] then VERSION[1..] else VERSION
    decreases |url|
  {
    if url == [] {
      assert url + VERSION == VERSION && [] + VERSION[1..] == VERSION[1..];
    } else {
      assert (url + VERSION)[1..] == url[1..] + VERSION;
      TrimUrl(url[1..]);
    }
  }

  lemma UrlIsTrimmed(url: seq<byte>)
    ensures Url(Trimmed(url + VERSION)) == Trimmed(url)
  {
    hide Trimmed;
    TrimUrl(url);
    var t := Trimmed(url);
    assert (t + VERSION)[..|t|] == t;
  }

  // ---- Heads in chunks ----

  /** Nothing but a part of a head has come. */
  ghost predicate InPart(st: Reader, s: seq<byte>) {
    st == Reader(Heading(ScanAll(START, s), |s|, s != []), [])
  }

  lemma PartIsIncomplete(head: seq<byte>, k: nat)
    requires Completes(START, head) && k < |head|
    ensures Incomplete(START, head[..k])
  {
    hide ScanAll;
    IncompleteTake(START, head[..|head| - 1], k);
    assert head[..|head| - 1][..k] == head[..k];
  }

  /** One more chunk, and still a part. */
  lemma PartGrows(st: Reader, s: seq<byte>, x: seq<byte>, head: seq<byte>)
    requires Completes(START, head) && |head| <= 4096 && s + x <= head && |s + x| < |head|
    requires Valid(st) && InPart(st, s)
    ensures InPart(Cut(Run(st, x)), s + x)
  {
    hide ScanAll, Incomplete, Run, ScanValid, Completes;
    PartIsIncomplete(head, |s|);
    PartIsIncomplete(head, |s + x|);
    assert head[..|s|] == s && head[..|s + x|] == s + x;
    KeepsMore(st, s, x);
    assert x == [] ==> s + x == s;
  }

  /** One more chunk, which completes the head. */
  lemma PartEnds(st: Reader, s: seq<byte>, x: seq<byte>, head: seq<byte>)
    requires Completes(START, head) && |head| <= 4096 && head <= s + x && |s| < |head|
    requires Valid(st) && InPart(st, s)
    ensures ScanAll(START, head).Complete? && ScanAll(START, head).fields != []
    ensures Run(st, x) == Run(Opened([], ScanAll(START, head).fields, s != []), x[|head| - |s|..])
  {
    hide ScanAll, Incomplete, Run, ScanValid, Opened;
    CompleteHasFields(head);
    var k := |head| - |s|;
    assert x == x[..k] + x[k..] && head == s + x[..k] && head[..|s|] == s && head[|s|..] == x[..k];
    if s == [] {
      assert head == x[..k];
      ScanNothing(START);
    } else {
      hide Completes;
      CompletesAfter(head, |s|);
    }
    RunCompletes(st, x[..k]);
    RunConcat(st, x[..k], x[k..]);
  }

  lemma {:induction false} OutGrows(st: Reader, x: seq<byte>)
    requires Valid(st)
    ensures st.out <= Run(st, x).out
    decreases |x|
  {
    hide Valid, ScanStep, Served, Announces, BodyLength;
    if x != [] {
      OutGrows(Step(st, x[0]), x[1..]);
    }
  }

  lemma OpenedServes(fields: seq<Header>, cut: bool)
    requires fields != []
    ensures var out := Opened([], fields, cut).out; out != [] && out[0] == Served(fields)
  {
    hide Served, Announces, BodyLength;
  }

  /** Up to a head, or beyond it. */
  predicate Meets(s: seq<byte>, head: seq<byte>) { s <= head || head <= s }

  lemma NothingRead()
    ensures ReadChunks([]) == FRESH && Flatten([]) == [] && InPart(FRESH, [])
  {
  }

  lemma HeadIsSome(head: seq<byte>)
    requires Completes(START, head)
    ensures head != []
  {
  }

  /** Chunks of a stream that begins with a head: until the head is there nothing is said, and then its request. */
  lemma {:induction false} HeadArrives(chunks: seq<seq<byte>>, head: seq<byte>)
    requires Completes(START, head) && |head| <= 4096 && Meets(Flatten(chunks), head)
    ensures ScanAll(START, head).Complete? && ScanAll(START, head).fields != []
    ensures var (s, st) := (Flatten(chunks), ReadChunks(chunks));
            if |s| < |head| then InPart(st, s)
            else st.out != [] && st.out[0] == Served(ScanAll(START, head).fields)
    decreases |chunks|
  {
    hide ScanAll, Completes, Run, Valid, Cut, InPart, Opened, Served, Flatten;
    CompleteHasFields(head);
    if chunks == [] {
      NothingRead();
      HeadIsSome(head);
    } else {
      var n := |chunks| - 1;
      var rest, x := chunks[..n], chunks[n];
      assert chunks == rest + [x];
      FlattenSnoc(rest, x);
      var s, st := Flatten(rest), ReadChunks(rest);
      HeadArrives(rest, head);
      ReadChunksSnoc(rest, x);
      if |s + x| < |head| {
        PartGrows(st, s, x, head);
      } else if |s| < |head| {
        PartEnds(st, s, x, head);
        var fields := ScanAll(START, head).fields;
        OpenedServes(fields, s != []);
        OutGrows(Opened([], fields, s != []), x[|head| - |s|..]);
      } else {
        OutGrows(st, x);
      }
    }
  }

  /** `n` is the place of the first question mark, or the end. */
  predicate IsQueryPlace(url: seq<byte>, n: nat) {
    n <= |url| && 63 !in url[..n] && (n < |url| ==> url[n] == 63)
  }

  /** A request without a version at its URL. */
  predicate Asks(r: Out, name: seq<byte>, url: seq<byte>, headers: seq<Header>) {
    && r.Request? && r.fields == [Header(Lowered(name), Trimmed(url))] + AllReadAs(headers)
    && IsQueryPlace(Trimmed(url), r.querySeparator)
  }

  lemma ServedAsks(name: seq<byte>, url: seq<byte>, headers: seq<Header>)
    ensures Asks(Served(FieldsOf(name, url, headers)), name, url, headers)
  {
    hide Trimmed, Lowered, Url;
    UrlIsTrimmed(url);
    assert FieldsOf(name, url, headers)[1..] == AllReadAs(headers);
  }

  /**
   The round trip: any request with fewer than 49 headers and a head of at most 4096 octets, in whatever chunks and with
   whatever behind it. The first thing the parser says is this request: the method and the keys in lower case, the URL
   without the version, the values as they are but for blanks in front, and the place of the first question mark.
   */
  method RequestArrives(name: seq<byte>, url: seq<byte>, headers: seq<Header>, chunks: seq<seq<byte>>)
    returns (parser: HttpParser, ok: bool)
    requires IsRequest(name, url, headers) && |HeadOf(name, url, headers)| <= 4096
    requires HeadOf(name, url, headers) <= Flatten(chunks)
    ensures Flat(parser.log) != [] && Asks(Flat(parser.log)[0], name, url, headers)
  {
    hide ReadChunks, Flatten, HttpSpec.Valid, Run, Completes, ScanAll, Served, HeadOf, IsRequest, FieldsOf, Asks;
    parser, ok := HttpParsers.Receive(chunks);
    ScanHead(name, url, headers);
    HeadArrives(chunks, HeadOf(name, url, headers));
    ServedAsks(name, url, headers);
  }

  /** What begins with a visible octet other than a colon is not trimmed. */
  lemma NothingTrimmed(s: seq<byte>)
    ensures Trimmed(s) == s <==> s == [] || (33 <= s[0] <= 127 && s[0] != 58)
  {
    if s != [] {
      assert |Trimmed(s[1..])| < |s|;
    }
  }

  // ---- Bodies ----

  predicate Spells(s: seq<byte>, text: string) {
    |s| == |text| && forall i :: 0 <= i < |s| ==> s[i] as int == text[i] as int
  }

  predicate AreDigits(s: seq<byte>) {
    forall i :: 0 <= i < |s| ==> 48 <= s[i] <= 57
  }

  function Decimal(s: seq<byte>): (n: nat)
    requires AreDigits(s)
  {
    if s == [] then 0 else 10 * Decimal(s[..|s| - 1]) + (s[|s| - 1] as nat - 48)
  }

  /** The first header of that name says `n`, and no header in front of it ends the list. */
  predicate SaysLength(headers: seq<Header>, i: nat, n: nat) {
    && i < |headers| && Spells(Lowered(headers[i].key), "content-length")
    && (forall j :: 0 <= j < i ==> headers[j].key != [] && !Spells(Lowered(headers[j].key), "content-length"))
    && Trimmed(headers[i].value) != [] && AreDigits(Trimmed(headers[i].value))
    && Decimal(Trimmed(headers[i].value)) == n < 0x1_0000_0000
  }

  predicate SaysNoLength(headers: seq<Header>) {
    forall i :: 0 <= i < |headers| ==> !Spells(Lowered(headers[i].key), "content-length")
  }

  lemma SpellsLength(s: seq<byte>)
    ensures Spells(s, "content-length") <==> s == CONTENT_LENGTH
  {
    var c := CONTENT_LENGTH;
    assert Spells(c, "content-length");
    if Spells(s, "content-length") {
      forall i | 0 <= i < |s| ensures s[i] == c[i] {
        assert s[i] as int == c[i] as int;
      }
    }
  }

  lemma {:induction false} DecimalIs(s: seq<byte>)
    requires AreDigits(s)
    ensures ToUnsigned(s) == Decimal(s) % 0x1_0000_0000
    decreases |s|
  {
    hide Value;
    if s != [] {
      var n := |s| - 1;
      DecimalIs(s[..n]);
      ValueIs(s[n]);
      WrapOnce(Decimal(s[..n]), s[n] as nat - 48);
    }
  }

  lemma {:induction false} LookUpFinds(fields: seq<Header>, name: seq<byte>, i: nat)
    requires i < |fields| && fields[i].key == name != []
    requires forall j :: 0 <= j < i ==> fields[j].key != [] && fields[j].key != name
    ensures LookUp(fields, name) == fields[i].value
    decreases i
  {
    if i > 0 {
      LookUpFinds(fields[1..], name, i - 1);
    }
  }

  lemma {:induction false} LookUpEnds(fields: seq<Header>, name: seq<byte>, i: nat)
    requires i < |fields| && fields[i].key == []
    requires forall j :: 0 <= j < i ==> fields[j].key != name
    ensures LookUp(fields, name) == []
    decreases i
  {
    if i > 0 {
      LookUpEnds(fields[1..], name, i - 1);
    }
  }

  lemma {:induction false} LookUpMisses(fields: seq<Header>, name: seq<byte>)
    requires forall j :: 0 <= j < |fields| ==> fields[j].key != name
    ensures LookUp(fields, name) == []
    decreases |fields|
  {
    if fields != [] {
      LookUpMisses(fields[1..], name);
    }
  }

  lemma LengthIsSaid(name: seq<byte>, url: seq<byte>, headers: seq<Header>, i: nat, n: nat)
    requires SaysLength(headers, i, n)
    ensures Announces(FieldsOf(name, url, headers)) && BodyLength(FieldsOf(name, url, headers)) == n
  {
    hide Lowered, Trimmed, ToUnsigned, Spells, LookUp;
    var fields, all := FieldsOf(name, url, headers), AllReadAs(headers);
    assert fields[1..] == all;
    forall j | 0 <= j <= i ensures all[j].key == CONTENT_LENGTH <==> j == i {
      SpellsLength(all[j].key);
    }
    LookUpFinds(all, CONTENT_LENGTH, i);
    DecimalIs(Trimmed(headers[i].value));
  }

  lemma NoLengthIsSaid(name: seq<byte>, url: seq<byte>, headers: seq<Header>)
    requires SaysNoLength(headers)
    ensures !Announces(FieldsOf(name, url, headers))
  {
    hide Lowered, Trimmed, Spells, LookUp;
    var fields, all := FieldsOf(name, url, headers), AllReadAs(headers);
    assert fields[1..] == all;
    forall j | 0 <= j < |all| ensures all[j].key != CONTENT_LENGTH {
      SpellsLength(all[j].key);
    }
    LookUpMisses(all, CONTENT_LENGTH);
  }

  /** A head, and a body of the length it announces: none, or at least one octet. */
  predicate Fit(fields: seq<Header>, body: seq<byte>)
    requires fields != []
  {
    if Announces(fields) then BodyLength(fields) == |body| > 0 else body == []
  }

  /** What the reader makes of a part of the body: at a cut there is nothing to be known. */
  lemma BodyPart(fields: seq<Header>, body: seq<byte>, n: nat)
    requires fields != [] && Fit(fields, body) && n <= |body|
    ensures var st := Run(Opened([], fields, false), body[..n]);
            Cut(st) == st && (n == |body| ==> st.out == [Served(fields)] + Octets(body) + [Done])
    ensures forall cut :: Opened([], fields, cut) == Opened([], fields, false)
  {
    hide Served, Announces, BodyLength, Run;
    var st := Opened([], fields, false);
    if Announces(fields) {
      RunBody(st, body[..n]);
      assert body[..|body|] == body;
    } else {
      assert body[..n] == [];
      RunEmpty(st);
      assert [Served(fields)] + Octets(body) + [Done] == [Served(fields), Done];
    }
  }

  lemma RunEmpty(st: Reader)
    requires Valid(st)
    ensures Run(st, []) == st
  {
  }

  lemma {:induction false} BodyArrives(chunks: seq<seq<byte>>, head: seq<byte>, body: seq<byte>)
    requires Completes(START, head) && |head| <= 4096 && Flatten(chunks) <= head + body
    ensures ScanAll(START, head).Complete? && ScanAll(START, head).fields != []
    ensures var (fields, s, st) := (ScanAll(START, head).fields, Flatten(chunks), ReadChunks(chunks));
            Fit(fields, body) && |s| >= |head| ==> st == Run(Opened([], fields, false), s[|head|..])
    decreases |chunks|
  {
    hide ScanAll, Completes, Run, Valid, Cut, InPart, Opened, Served, Flatten, Fit;
    CompleteHasFields(head);
    var fields := ScanAll(START, head).fields;
    if chunks == [] {
      NothingRead();
      HeadIsSome(head);
    } else if Fit(fields, body) {
      var n := |chunks| - 1;
      var rest, x := chunks[..n], chunks[n];
      assert chunks == rest + [x];
      FlattenSnoc(rest, x);
      var s := Flatten(rest);
      assert s <= head + body by {
        assert s == Flatten(chunks)[..|s|];
      }
      BodyArrives(rest, head, body);
      MeetsHead(s, head, body);
      HeadArrives(rest, head);
      ReadChunksSnoc(rest, x);
      if |s + x| >= |head| {
        var m := |s + x| - |head|;
        MeetsHead(s + x, head, body);
        assert body[..m] == (s + x)[|head|..];
        BodyPart(fields, body, m);
        if |s| < |head| {
          PartEnds(ReadChunks(rest), s, x, head);
          assert x[|head| - |s|..] == (s + x)[|head|..];
        } else {
          RunConcat(Opened([], fields, false), s[|head|..], x);
          assert s[|head|..] + x == (s + x)[|head|..];
        }
      }
    }
  }

  lemma MeetsHead(s: seq<byte>, head: seq<byte>, body: seq<byte>)
    requires s <= head + body
    ensures Meets(s, head) && (|s| >= |head| ==> s[|head|..] == body[..|s| - |head|])
  {
    assert head == (head + body)[..|head|];
    if |s| >= |head| {
      assert s[..|head|] == head;
    } else {
      assert s == head[..|s|];
    }
  }

  lemma ExchangeRead(name: seq<byte>, url: seq<byte>, headers: seq<Header>, body: seq<byte>, i: nat,
                     chunks: seq<seq<byte>>)
    requires IsRequest(name, url, headers) && |HeadOf(name, url, headers)| <= 4096
    requires if body == [] then SaysNoLength(headers) else SaysLength(headers, i, |body|)
    requires Flatten(chunks) == HeadOf(name, url, headers) + body
    ensures ReadChunks(chunks).out == [Served(FieldsOf(name, url, headers))] + Octets(body) + [Done]
  {
    hide ReadChunks, Flatten, HttpSpec.Valid, Run, Completes, ScanAll, Served, HeadOf, IsRequest, FieldsOf, Octets,
         SaysLength, SaysNoLength, Opened, Announces, BodyLength;
    var head, fields := HeadOf(name, url, headers), FieldsOf(name, url, headers);
    ScanHead(name, url, headers);
    if body == [] {
      NoLengthIsSaid(name, url, headers);
    } else {
      LengthIsSaid(name, url, headers, i, |body|);
    }
    BodyArrives(chunks, head, body);
    BodyPart(fields, body, |body|);
    assert (head + body)[|head|..] == body[..|body|];
  }

  /**
   A whole exchange: the request, and the octets of its body as far as Content-Length says, with the end signalled, in
   whatever chunks. Without Content-Length the end is signalled at once.
   */
  method ExchangeArrives(name: seq<byte>, url: seq<byte>, headers: seq<Header>, body: seq<byte>, i: nat,
                         chunks: seq<seq<byte>>)
    returns (parser: HttpParser, ok: bool)
    requires IsRequest(name, url, headers) && |HeadOf(name, url, headers)| <= 4096
    requires if body == [] then SaysNoLength(headers) else SaysLength(headers, i, |body|)
    requires Flatten(chunks) == HeadOf(name, url, headers) + body
    ensures var said := Flat(parser.log);
            said != [] && Asks(said[0], name, url, headers) && said[1..] == Octets(body) + [Done]
  {
    hide ReadChunks, Flatten, HttpSpec.Valid, Run, Served, HeadOf, IsRequest, FieldsOf, Asks, SaysLength, SaysNoLength,
         Octets, Quiet, LongHeadIsCut, ZeroHeadIsCut;
    parser, ok := HttpParsers.Receive(chunks);
    ExchangeRead(name, url, headers, body, i, chunks);
    ServedAsks(name, url, headers);
    assert Flat(parser.log) == [Served(FieldsOf(name, url, headers))] + (Octets(body) + [Done]);
  }

  // ---- Too many octets ----

  /** A head of more than 4096 octets that comes in two pieces is a failure; whole, it is served. */
  lemma LongHeadFails(head: seq<byte>, k: nat)
    requires Completes(START, head) && |head| > 4096 && 0 < k < |head|
    ensures ReadChunks([head[..k], head[k..]]).phase.Failed? && !ReadChunks([head]).phase.Failed?
    ensures ScanAll(START, head).Complete? && ScanAll(START, head).fields != []
    ensures ReadChunks([head]).out != [] && ReadChunks([head]).out[0] == Served(ScanAll(START, head).fields)
  {
    hide ScanAll, Completes, ReadChunks, Run, Opened, Served, LongHeadIsCut, ZeroHeadIsCut, Comes, Quiet;
    LongHeadCut(head, k);
    CutsMean([head]);
    CutsMean([head[..k], head[k..]]);
    CompleteHasFields(head);
    FreshIsValid();
    RunCompletes(FRESH, head);
    ReadWhole(head);
    OpenedServes(ScanAll(START, head).fields, false);
  }
}
