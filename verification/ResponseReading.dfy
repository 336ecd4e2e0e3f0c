/** A client that reads responses by sections 3 and 3.3.3 of RFC 7230, and what it makes of what is written here. */
module ResponseReading {
  import opened Utilities
  import opened HttpResponses

  // ---- The client ----

  /** Where the first line ends, or -1. */
  function LineEnd(s: string): (k: int)
    ensures k == -1 || 0 <= k <= |s| - 2
  {
    if |s| < 2 then -1
    else if s[0] == '\r' && s[1] == '\n' then 0
    else
      var k := LineEnd(s[1..]);
      if k == -1 then -1 else k + 1
  }

  datatype Head = Unended | Head(lines: seq<string>, rest: string)

  /** The lines up to an empty one, and what follows that. */
  function ReadHead(s: string): (h: Head)
    decreases |s|
  {
    var k := LineEnd(s);
    if k == -1 then Unended
    else if k == 0 then Head([], s[2..])
    else
      var more := ReadHead(s[k + 2..]);
      if more.Unended? then Unended else Head([s[..k]] + more.lines, more.rest)
  }

  /** A line that gives a value to `key`. */
  predicate Gives(line: string, key: string) {
    |key| + 2 <= |line| && line[..|key|] == key && line[|key|..|key| + 2] == ": "
  }

  /** The value that the first such line gives, or nothing. */
  function Given(lines: seq<string>, key: string): (v: string) {
    if lines == [] then ""
    else if Gives(lines[0], key) then lines[0][|key| + 2..]
    else Given(lines[1..], key)
  }

  datatype Response = Unreadable | Response(status: string, headers: seq<string>, body: string, rest: string)

  /** The encoding says where the body ends, or else its length does. */
  function ReadResponse(s: string): (r: Response) {
    var h := ReadHead(s);
    if h.Unended? || h.lines == [] then Unreadable
    else
      var status, headers := h.lines[0], h.lines[1..];
      if Given(headers, "Transfer-Encoding") == "chunked" then
        var d := DecodeChunked(h.rest);
        if d.Malformed? then Unreadable else Response(status, headers, d.data, d.rest)
      else
        var length := Given(headers, "Content-Length");
        if length == "" || !AllDigits(length, 10) || Parse(length, 10) > |h.rest| then Unreadable
        else Response(status, headers, h.rest[..Parse(length, 10)], h.rest[Parse(length, 10)..])
  }

  /** What digits are worth, in both bases. */
  lemma DigitsAreWorth(i: nat)
    requires i < 16
    ensures DigitValue("0123456789abcdef"[i]) == DigitValue("0123456789ABCDEF"[i]) == i
  {
  }

  // ---- Heads ----

  /** Something that stands in a line of its own. */
  predicate IsLine(line: string) { line != "" && '\r' !in line }

  predicate AreLines(lines: seq<string>) {
    forall i :: 0 <= i < |lines| ==> IsLine(lines[i])
  }

  function Text(lines: seq<string>): (s: string) {
    if lines == [] then "" else lines[0] + CRLF + Text(lines[1..])
  }

  lemma {:induction false} TextSnoc(lines: seq<string>, line: string)
    ensures Text(lines + [line]) == Text(lines) + (line + CRLF)
  {
    if lines == [] {
      assert [] + [line] == [line] && [line][1..] == [];
      assert line + CRLF + "" == "" + (line + CRLF);
    } else {
      assert (lines + [line])[1..] == lines[1..] + [line];
      TextSnoc(lines[1..], line);
      assert lines[0] + CRLF + (Text(lines[1..]) + (line + CRLF)) == lines[0] + CRLF + Text(lines[1..]) + (line + CRLF);
    }
  }

  lemma {:induction false} LineEnds(line: string, more: string)
    requires '\r' !in line
    ensures LineEnd(line + CRLF + more) == |line|
    decreases |line|
  {
    var s := line + CRLF + more;
    if line == "" {
      assert s[0] == '\r' && s[1] == '\n';
    } else {
      assert s[1..] == line[1..] + CRLF + more && s[0] == line[0];
      LineEnds(line[1..], more);
    }
  }

  lemma {:induction false} HeadIsRead(lines: seq<string>, rest: string)
    requires AreLines(lines)
    ensures ReadHead(Text(lines) + CRLF + rest) == Head(lines, rest)
  {
    hide LineEnd;
    if lines == [] {
      LineEnds("", rest);
      assert "" + CRLF + rest == CRLF + rest && (CRLF + rest)[2..] == rest;
    } else {
      var line, more := lines[0], Text(lines[1..]) + CRLF + rest;
      HeadIsRead(lines[1..], rest);
      LineEnds(line, more);
      assert Text(lines) + CRLF + rest == line + CRLF + more;
      assert (line + CRLF + more)[..|line|] == line && (line + CRLF + more)[|line| + 2..] == more;
      assert lines == [line] + lines[1..];
    }
  }

  // ---- Lines of a response ----

  /** A header of the application: it neither breaks lines nor says anything about the body. */
  predicate IsHeader(key: string, value: string) {
    && '\r' !in key && '\r' !in value
    && !Gives(key + ": " + value, "Transfer-Encoding") && !Gives(key + ": " + value, "Content-Length")
  }

  predicate AreHeaders(headers: seq<(string, string)>) {
    forall i :: 0 <= i < |headers| ==> IsHeader(headers[i].0, headers[i].1)
  }

  function HeaderLines(headers: seq<(string, string)>): (lines: seq<string>)
    ensures |lines| == |headers|
  {
    seq(|headers|, i requires 0 <= i < |headers| => headers[i].0 + ": " + headers[i].1)
  }

  /** What the program itself says of the body. */
  function OwnLines(chunked: bool, length: nat): (lines: seq<string>) {
    ["uWebSockets: 18", if chunked then "Transfer-Encoding: chunked" else "Content-Length: " + Digits(length, 10)]
  }

  lemma OwnText(chunked: bool, length: nat)
    ensures Text(OwnLines(chunked, length)) == if chunked then ChunkedLines() else LengthLines(length, true)
  {
    hide Digits;
    var lines := OwnLines(chunked, length);
    assert Text(lines[2..]) == "";
    assert Text(lines[1..]) == lines[1] + CRLF + "" by {
      assert lines[1..][1..] == lines[2..];
    }
    assert Text(lines) == lines[0] + CRLF + Text(lines[1..]);
    assert "uWebSockets" + ": " + "18" == lines[0];
    if chunked {
      assert "Transfer-Encoding" + ": " + "chunked" == lines[1];
    } else {
      assert "Content-Length" + ": " + Digits(length, 10) == lines[1];
    }
  }

  lemma NoBreaks(n: nat)
    ensures '\r' !in Digits(n, 10)
  {
    hide Digits;
    ParseDigits(n, 10);
    assert DigitValue('\r') == 16;
  }

  lemma OwnAreLines(chunked: bool, length: nat)
    ensures AreLines(OwnLines(chunked, length))
  {
    hide Digits;
    NoBreaks(length);
  }

  lemma {:induction false} TextConcat(a: seq<string>, b: seq<string>)
    ensures Text(a + b) == Text(a) + Text(b)
    decreases |a|
  {
    if a == [] {
      assert a + b == b;
    } else {
      assert (a + b)[1..] == a[1..] + b;
      TextConcat(a[1..], b);
    }
  }

  lemma {:induction false} GivenFurther(lines: seq<string>, more: seq<string>, key: string)
    requires forall i :: 0 <= i < |lines| ==> !Gives(lines[i], key)
    ensures Given(lines + more, key) == Given(more, key)
    decreases |lines|
  {
    hide Gives;
    if lines == [] {
      assert lines + more == more;
    } else {
      assert (lines + more)[1..] == lines[1..] + more;
      GivenFurther(lines[1..], more, key);
    }
  }

  /** What the program's own lines give. */
  lemma OwnGiven(chunked: bool, length: nat)
    ensures Given(OwnLines(chunked, length), "Transfer-Encoding") == if chunked then "chunked" else ""
    ensures !chunked ==> Given(OwnLines(chunked, length), "Content-Length") == Digits(length, 10)
  {
    hide Digits;
    var lines := OwnLines(chunked, length);
    assert lines[0][..1] == "u" && lines[1..] == [lines[1]] && lines[1..][1..] == [];
    NotGiven(lines[0], "Transfer-Encoding");
    NotGiven(lines[0], "Content-Length");
    if chunked {
      GivenBy("Transfer-Encoding", "chunked");
      assert lines[1] == "Transfer-Encoding" + ": " + "chunked";
    } else {
      GivenBy("Content-Length", Digits(length, 10));
      assert lines[1] == "Content-Length" + ": " + Digits(length, 10);
      NotGiven(lines[1], "Transfer-Encoding");
      assert Given(lines[1..], "Transfer-Encoding") == Given([], "Transfer-Encoding") == "";
    }
  }

  lemma NotGiven(line: string, key: string)
    requires line != "" && key != "" && line[0] != key[0]
    ensures !Gives(line, key)
  {
    assert |key| <= |line| ==> line[..|key|][0] == line[0];
  }

  lemma GivenBy(key: string, value: string)
    ensures var line := key + ": " + value; Gives(line, key) && line[|key| + 2..] == value
  {
    var line := key + ": " + value;
    assert line[..|key|] == key && line[|key|..|key| + 2] == ": ";
  }

  // ---- Responses ----

  /** The head of a response: status, headers, and what the program says itself. */
  function HeadLines(status: string, headers: seq<(string, string)>, chunked: bool, length: nat): (lines: seq<string>) {
    ["HTTP/1.1 " + status] + HeaderLines(headers) + OwnLines(chunked, length)
  }

  lemma HeadLinesAreLines(status: string, headers: seq<(string, string)>, chunked: bool, length: nat)
    requires '\r' !in status && AreHeaders(headers)
    ensures AreLines(HeadLines(status, headers, chunked, length))
  {
    hide OwnLines, Gives;
    OwnAreLines(chunked, length);
    forall i | 0 <= i < |headers| ensures IsLine(HeaderLines(headers)[i]) {
      assert IsHeader(headers[i].0, headers[i].1);
      assert |headers[i].0 + ": " + headers[i].1| >= 2;
    }
    assert |"HTTP/1.1 " + status| >= 9;
  }

  /** A response with such a head is read by its encoding, or by its length. */
  lemma ResponseIsRead(status: string, headers: seq<(string, string)>, chunked: bool, body: string, rest: string)
    requires '\r' !in status && AreHeaders(headers)
    requires if chunked then DecodeChunked(rest) == Body(body, "") else rest == body
    ensures ReadResponse(Text(HeadLines(status, headers, chunked, |body|)) + CRLF + rest)
         == Response("HTTP/1.1 " + status, HeaderLines(headers) + OwnLines(chunked, |body|), body, "")
  {
    hide OwnLines, Digits, DecodeChunked, Given, Gives, ReadHead, Text, AreLines, Parse, AllDigits;
    var lines := HeadLines(status, headers, chunked, |body|);
    HeadLinesAreLines(status, headers, chunked, |body|);
    HeadIsRead(lines, rest);
    var given := HeaderLines(headers) + OwnLines(chunked, |body|);
    assert lines[1..] == given;
    assert forall i :: 0 <= i < |headers| ==> IsHeader(headers[i].0, headers[i].1);
    GivenFurther(HeaderLines(headers), OwnLines(chunked, |body|), "Transfer-Encoding");
    GivenFurther(HeaderLines(headers), OwnLines(chunked, |body|), "Content-Length");
    OwnGiven(chunked, |body|);
    ParseDigits(|body|, 10);
    assert rest[..|rest|] == rest && rest[|rest|..] == "";
    NotChunked();
  }

  lemma NotChunked()
    ensures "" != "chunked"
  {
  }

  /** The head that status and headers make, before the program adds its own lines. */
  function Begun(status: string, headers: seq<(string, string)>): (s: string) {
    Text(["HTTP/1.1 " + status] + HeaderLines(headers))
  }

  lemma BegunOn(status: string, headers: seq<(string, string)>, i: nat)
    requires i < |headers|
    ensures Begun(status, headers[..i + 1]) == Begun(status, headers[..i]) + HeaderLine(headers[i].0, headers[i].1)
  {
    hide Text;
    var lines := ["HTTP/1.1 " + status] + HeaderLines(headers[..i]);
    TextSnoc(lines, headers[i].0 + ": " + headers[i].1);
    assert ["HTTP/1.1 " + status] + HeaderLines(headers[..i + 1]) == lines + [headers[i].0 + ": " + headers[i].1];
  }

  lemma BegunAlone(status: string)
    ensures Begun(status, []) == StatusLine(status)
  {
    var lines := ["HTTP/1.1 " + status] + HeaderLines([]);
    assert lines == ["HTTP/1.1 " + status] && lines[1..] == [];
    assert Text(lines) == "HTTP/1.1 " + status + CRLF + "";
  }

  lemma BegunEnds(status: string, headers: seq<(string, string)>, chunked: bool, length: nat)
    ensures Begun(status, headers) + (if chunked then ChunkedLines() else LengthLines(length, true))
         == Text(HeadLines(status, headers, chunked, length))
  {
    hide Text, OwnLines, ChunkedLines, LengthLines;
    OwnText(chunked, length);
    TextConcat(["HTTP/1.1 " + status] + HeaderLines(headers), OwnLines(chunked, length));
  }

  /** A status and headers. */
  method Start(status: string, headers: seq<(string, string)>) returns (r: HttpResponse)
    ensures fresh(r) && r.Valid() && r.responsePending && !r.endCalled && !r.writeCalled && r.statusCalled
    ensures r.head == Begun(status, headers)
  {
    hide Begun, HeaderLine, StatusLine;
    r := new HttpResponse();
    BegunAlone(status);
    EmptyHead(r);
    r.WriteStatus(status);
    assert headers[..0] == [];
    for i := 0 to |headers|
      invariant fresh(r) && r.Valid() && r.responsePending && !r.endCalled && !r.writeCalled && r.statusCalled
      invariant r.head == Begun(status, headers[..i])
    {
      BegunOn(status, headers, i);
      r.WriteHeader(headers[i].0, headers[i].1);
      assert "" + HeaderLine(headers[i].0, headers[i].1) == HeaderLine(headers[i].0, headers[i].1);
    }
    assert headers[..|headers|] == headers;
  }

  lemma EmptyHead(r: HttpResponse)
    requires r.Valid() && r.out == "" && r.responsePending && !r.writeCalled && !r.endCalled
    ensures r.head == "" && forall s: string :: "" + s == s
  {
  }

  /**
   The round trip: a status, headers, any pieces and a last one. A client reads the status, the headers, the program's
   own lines, and the pieces put together as the body.
   */
  method Respond(status: string, headers: seq<(string, string)>, pieces: seq<string>, last: string)
    returns (r: HttpResponse)
    requires '\r' !in status && AreHeaders(headers) && |last| < 0x8000_0000
    requires forall i :: 0 <= i < |pieces| ==> |pieces[i]| < 0x8000_0000
    ensures fresh(r) && !r.responsePending
    ensures ReadResponse(r.out)
         == var body := Concat(pieces + [last]);
            Response("HTTP/1.1 " + status, HeaderLines(headers) + OwnLines(!AllEmpty(pieces), |body|), body, "")
  {
    hide DecodeChunked, Concat, Pieces, AllEmpty, ChunkedLines, LengthLines, DefaultStatus, EndsWith, Begun,
         ReadResponse, HeadLines, OwnLines, HeaderLines, AreHeaders;
    r := Start(status, headers);
    ghost var begun := r.head;
    NothingWritten(pieces);
    for i := 0 to |pieces|
      invariant fresh(r) && r.Valid() && r.responsePending && !r.endCalled && r.statusCalled
      invariant Concat(r.chunks) == Concat(pieces[..i]) && (r.writeCalled <==> !AllEmpty(pieces[..i]))
      invariant r.head == begun + if r.writeCalled then ChunkedLines() else ""
    {
      OneMorePiece(r.chunks, pieces, i);
      NoStatus();
      r.Write(pieces[i]);
    }
    ghost var chunked := r.writeCalled;
    WrittenSnoc(r.chunks, pieces, last);
    if !chunked {
      LastAlone(pieces, last);
    }
    NoStatus();
    assert last[..|last|] == last && "" + last == last && begun + "" == begun;
    var _ := r.InternalEnd(last, |last|, false, true, |last|, false);
    BegunEnds(status, headers, chunked, |Concat(pieces + [last])|);
    ghost var body := Concat(pieces + [last]);
    ghost var rest := if chunked then r.out[|r.head| + 2..] else last;
    assert r.out == r.head + CRLF + rest;
    ResponseIsRead(status, headers, chunked, body, rest);
  }

  lemma NoStatus()
    ensures DefaultStatus(true) == "" && forall s: string :: s + "" == s
  {
  }

  lemma LastAlone(pieces: seq<string>, last: string)
    requires AllEmpty(pieces)
    ensures Concat(pieces + [last]) == last
  {
    ConcatSnoc(pieces, last);
    ConcatEmpty(pieces);
    assert "" + last == last;
  }

  lemma {:induction false} ConcatEmpty(pieces: seq<string>)
    requires AllEmpty(pieces)
    ensures Concat(pieces) == ""
  {
    if pieces != [] {
      ConcatEmpty(pieces[1..]);
    }
  }
}
