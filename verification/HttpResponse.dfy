/** Responses: a body in chunks, or of announced length. */
module HttpResponses {
  import opened Utilities

  const CRLF: string := ['\r', '\n']

  // ---- Chunked bodies: section 4.1 of RFC 7230 ----

  datatype Decoded = Malformed | Body(data: string, rest: string)

  /** How many hexadecimal digits a string starts with. */
  function HexRun(s: string): (n: nat)
    ensures n <= |s|
  {
    if s == "" || DigitValue(s[0]) >= 16 then 0 else 1 + HexRun(s[1..])
  }

  /** Reads chunks up to the last, of size 0, and the empty line after it; what follows is not part of the body. */
  function DecodeChunked(s: string): (d: Decoded)
    decreases |s|
  {
    var k := HexRun(s);
    if k == 0 || k + 2 > |s| || s[k..k + 2] != CRLF then Malformed
    else
      var size, rest := Parse(s[..k], 16), s[k + 2..];
      if size == 0 then (if |rest| >= 2 && rest[..2] == CRLF then Body("", rest[2..]) else Malformed)
      else if size + 2 > |rest| || rest[size..size + 2] != CRLF then Malformed
      else
        var more := DecodeChunked(rest[size + 2..]);
        if more.Malformed? then Malformed else Body(rest[..size] + more.data, more.rest)
  }

  function Concat(chunks: seq<string>): (s: string) {
    if chunks == [] then "" else chunks[0] + Concat(chunks[1..])
  }

  /** A chunk with its size in front. */
  function Chunk(data: string): (s: string) {
    Digits(|data|, 16) + CRLF + data
  }

  /** Chunks as they are written: each with a line break in front of it. */
  function Pieces(chunks: seq<string>): (s: string)
    decreases |chunks|
  {
    if chunks == [] then "" else Pieces(chunks[..|chunks| - 1]) + CRLF + Chunk(chunks[|chunks| - 1])
  }

  /** The end of a chunked body, as it is written. */
  const LAST: string := CRLF + "0" + CRLF + CRLF

  lemma {:induction false} HexRunOfDigits(digits: string, rest: string)
    requires AllDigits(digits, 16) && (rest == "" || DigitValue(rest[0]) >= 16)
    ensures HexRun(digits + rest) == |digits|
  {
    hide DigitValue;
    if digits == "" {
      assert digits + rest == rest;
    } else {
      assert (digits + rest)[1..] == digits[1..] + rest && (digits + rest)[0] == digits[0];
      HexRunOfDigits(digits[1..], rest);
    }
  }

  lemma CrlfIsNoDigit()
    ensures |CRLF| == 2 && DigitValue(CRLF[0]) >= 16
  {
  }

  /** The decoder reads the size line that the response writes. */
  lemma SizeLine(n: nat, rest: string)
    ensures var s := Digits(n, 16) + CRLF + rest;
            var k := |Digits(n, 16)|;
            && k > 0 && HexRun(s) == k && k + 2 <= |s| && s[k..k + 2] == CRLF && s[k + 2..] == rest
            && Parse(s[..k], 16) == n
  {
    hide Digits, Parse, HexRun, DigitValue;
    CrlfIsNoDigit();
    ParseDigits(n, 16);
    var d := Digits(n, 16);
    assert d + CRLF + rest == d + (CRLF + rest);
    assert (CRLF + rest)[0] == CRLF[0];
    HexRunOfDigits(d, CRLF + rest);
    assert (d + CRLF + rest)[..|d|] == d;
    assert (d + CRLF + rest)[|d|..|d| + 2] == CRLF;
  }

  /** One chunk, decoded. */
  lemma DecodeOne(data: string, more: string)
    requires data != ""
    ensures DecodeChunked(Chunk(data) + CRLF + more)
         == var d := DecodeChunked(more); if d.Malformed? then Malformed else Body(data + d.data, d.rest)
  {
    hide Digits, Parse, HexRun, DigitValue;
    CrlfIsNoDigit();
    var rest := data + CRLF + more;
    SizeLine(|data|, rest);
    assert Chunk(data) + CRLF + more == Digits(|data|, 16) + CRLF + rest;
    assert rest[..|data|] == data && rest[|data|..|data| + 2] == CRLF && rest[|data| + 2..] == more;
  }

  lemma DecodeLast(rest: string)
    ensures DecodeChunked("0" + CRLF + CRLF + rest) == Body("", rest)
  {
    hide Digits, Parse, HexRun, DigitValue;
    CrlfIsNoDigit();
    ZeroDigits();
    SizeLine(0, CRLF + rest);
    assert "0" + CRLF + CRLF + rest == "0" + CRLF + (CRLF + rest);
    assert (CRLF + rest)[..2] == CRLF && (CRLF + rest)[2..] == rest;
  }

  lemma ZeroDigits()
    ensures Digits(0, 16) == "0"
  {
  }

  /** All chunks after a given one, as they stand behind the line break of the first. */
  function Encoded(chunks: seq<string>): (s: string) {
    if chunks == [] then "0" + CRLF + CRLF else Chunk(chunks[0]) + CRLF + Encoded(chunks[1..])
  }

  /** What is written is a line break, which ends the head, and then chunks each with a line break behind it. */
  lemma {:induction false} PiecesAreEncoded(chunks: seq<string>)
    ensures Pieces(chunks) + LAST == CRLF + Encoded(chunks)
  {
    hide Chunk;
    PiecesThen(chunks, []);
    assert chunks + [] == chunks;
    assert LAST == CRLF + Encoded([]);
  }

  lemma {:induction false} PiecesThen(front: seq<string>, back: seq<string>)
    ensures Pieces(front) + CRLF + Encoded(back) == CRLF + Encoded(front + back)
    decreases |front|
  {
    hide Chunk;
    if front == [] {
      assert front + back == back;
      assert "" + CRLF + Encoded(back) == CRLF + Encoded(back);
    } else {
      var n := |front| - 1;
      var last := front[n];
      PiecesThen(front[..n], [last] + back);
      assert front[..n] + ([last] + back) == front + back;
      assert ([last] + back)[1..] == back && ([last] + back)[0] == last;
      assert Pieces(front[..n]) + CRLF + Chunk(last) + CRLF + Encoded(back)
          == Pieces(front[..n]) + CRLF + (Chunk(last) + CRLF + Encoded(back));
    }
  }

  /** A decoder gets back what has been written. */
  lemma {:induction false} DecodeEncoded(chunks: seq<string>, rest: string)
    requires forall i :: 0 <= i < |chunks| ==> chunks[i] != ""
    ensures DecodeChunked(Encoded(chunks) + rest) == Body(Concat(chunks), rest)
  {
    hide Chunk, DecodeChunked;
    if chunks == [] {
      DecodeLast(rest);
    } else {
      DecodeEncoded(chunks[1..], rest);
      assert Encoded(chunks) + rest == Chunk(chunks[0]) + CRLF + (Encoded(chunks[1..]) + rest);
      DecodeOne(chunks[0], Encoded(chunks[1..]) + rest);
    }
  }

  // ---- Responses ----

  function HeaderLine(key: string, value: string): string {
    key + ": " + value + CRLF
  }

  function StatusLine(status: string): string {
    "HTTP/1.1 " + status + CRLF
  }

  /** The status line that is written if the application has written none. */
  function DefaultStatus(statusCalled: bool): string {
    if statusCalled then "" else StatusLine("200 OK")
  }

  /** What a response in chunks adds to its head. */
  function ChunkedLines(): string {
    HeaderLine("uWebSockets", "18") + HeaderLine("Transfer-Encoding", "chunked")
  }

  /** What a response of announced length adds to its head. */
  function LengthLines(totalSize: nat, allowContentLength: bool): string {
    HeaderLine("uWebSockets", "18")
    + if allowContentLength then HeaderLine("Content-Length", Digits(totalSize, 10)) else ""
  }

  predicate EndsWith(s: string, t: string) {
    |t| <= |s| && s[|s| - |t|..] == t
  }

  class HttpResponse {
    /** Everything written so far, in order. */
    var out: string

    var statusCalled: bool
    var writeCalled: bool
    var endCalled: bool
    var responsePending: bool
    var offset: nat

    /** The head, up to the empty line that ends it. */
    ghost var head: string

    /** What has been written of the body, in chunks or in one. */
    ghost var chunks: seq<string>
    ghost var body: string

    ghost predicate Valid()
      reads this
    {
      && (writeCalled || endCalled ==> statusCalled)
      && (writeCalled ==> !endCalled && chunks != [] && forall i :: 0 <= i < |chunks| ==> chunks[i] != "")
      && (writeCalled ==> EndsWith(head, ChunkedLines()))
      && (!writeCalled ==> chunks == [])
      && (!endCalled ==> body == "") && offset == |body|
      && (responsePending ==>
            out == if writeCalled then head + Pieces(chunks) else if endCalled then head + CRLF + body else head)
    }

    /** This holds even when something has been written that does not belong there. */
    predicate Begun()
      reads this
    {
      responsePending && (writeCalled || endCalled ==> statusCalled)
    }

    constructor ()
      ensures Valid() && out == "" && responsePending && !statusCalled && !writeCalled && !endCalled
    {
      out, statusCalled, writeCalled, endCalled, responsePending, offset := "", false, false, false, true, 0;
      head, chunks, body := "", [], "";
    }

    method Put(data: string)
      modifies `out
      ensures out == old(out) + data
    {
      out := out + data;
    }

    method WriteUnsignedHex(value: nat)
      requires value < 0x1_0000_0000
      modifies `out
      ensures out == old(out) + Digits(value, 16)
    {
      var buf := new char[10];
      var length := U32ToaHex(value, buf);
      Put(buf[..length]);
    }

    method WriteUnsigned(value: nat)
      requires value < 0x1_0000_0000
      modifies `out
      ensures out == old(out) + Digits(value, 10)
    {
      var buf := new char[10];
      var length := U32Toa(value, buf);
      Put(buf[..length]);
    }

    /** The status line, unless there is one already. */
    method WriteStatus(status: string)
      requires Begun()
      modifies `out, `statusCalled, `head
      ensures statusCalled && (old(Valid()) ==> Valid())
      ensures var line := if old(statusCalled) then "" else StatusLine(status);
              out == old(out) + line && head == old(head) + line
    {
      if statusCalled {
        assert out + "" == out && head + "" == head;
        return;
      }
      statusCalled := true;
      Put("HTTP/1.1 ");
      Put(status);
      Put(CRLF);
      head := head + StatusLine(status);
      assert out == old(out) + StatusLine(status);
    }

    /**
     A header, after a status line if there is none yet. It becomes part of the head if the body has not begun, and is
     mistaken for a part of the body if it has: the response is no longer what its chunks or its length say.
     */
    method WriteHeader(key: string, value: string)
      requires Begun()
      modifies `out, `statusCalled, `head
      ensures statusCalled && out == old(out) + (DefaultStatus(old(statusCalled)) + HeaderLine(key, value))
      ensures head == old(head) + if writeCalled || endCalled then ""
                                  else DefaultStatus(old(statusCalled)) + HeaderLine(key, value)
      ensures old(Valid()) ==> (Valid() <==> !writeCalled && !endCalled)
    {
      hide Pieces, HeaderLine, ChunkedLines, StatusLine;
      WriteStatus("200 OK");
      HeaderLineIsNotEmpty(key, value);
      ghost var front := out;
      PutHeaderLine(key, value);
      assert out == old(out) + (DefaultStatus(old(statusCalled)) + HeaderLine(key, value));
      if !writeCalled && !endCalled {
        head := head + HeaderLine(key, value);
      }
      assert head == old(head) + if writeCalled || endCalled then ""
                                 else DefaultStatus(old(statusCalled)) + HeaderLine(key, value);
      assert |out| > |front|;
    }

    method PutHeaderLine(key: string, value: string)
      modifies `out
      ensures out == old(out) + HeaderLine(key, value)
    {
      Put(key);
      Put(": ");
      Put(value);
      Put(CRLF);
      assert out == old(out) + (key + ": " + value + CRLF);
    }

    method WriteMark()
      requires Begun() && statusCalled && !writeCalled
      modifies `out, `statusCalled, `head
      ensures statusCalled && out == old(out) + HeaderLine("uWebSockets", "18")
      ensures head == old(head) + if endCalled then "" else HeaderLine("uWebSockets", "18")
      ensures old(Valid()) && !endCalled ==> Valid()
    {
      hide HeaderLine, Pieces;
      WriteHeader("uWebSockets", "18");
      assert "" + HeaderLine("uWebSockets", "18") == HeaderLine("uWebSockets", "18");
    }

    /** The headers of a response in chunks. */
    method BeginChunks()
      requires Begun() && statusCalled && !writeCalled
      modifies `out, `statusCalled, `head
      ensures statusCalled && out == old(out) + ChunkedLines()
      ensures !endCalled ==> head == old(head) + ChunkedLines() && EndsWith(head, ChunkedLines())
      ensures old(Valid()) && !endCalled ==> Valid()
    {
      hide HeaderLine, Pieces, ChunkedLines, EndsWith, DefaultStatus;
      TwoLines(out);
      TwoLines(head);
      WriteMark();
      WriteHeader("Transfer-Encoding", "chunked");
      assert !endCalled ==> head == old(head) + ChunkedLines();
    }

    /**
     A chunk of the body; empty ones are not sent. After a part of a body of announced length a chunk, with the lines
     that belong in the head, becomes a part of that body: the response is no longer what its length says.
     */
    method Write(data: string)
      requires Valid() && responsePending && |data| < 0x8000_0000
      modifies `out, `statusCalled, `writeCalled, `head, `chunks
      ensures statusCalled && writeCalled == (old(writeCalled) || data != "")
      ensures Valid() <==> !endCalled || data == ""
      ensures chunks == old(chunks) + if data == "" then [] else [data]
      ensures !endCalled ==> head == old(head) + DefaultStatus(old(statusCalled))
                                     + if !old(writeCalled) && writeCalled then ChunkedLines() else ""
      ensures out == old(out) + DefaultStatus(old(statusCalled))
                     + (if !old(writeCalled) && writeCalled then ChunkedLines() else "")
                     + (if data == "" then "" else CRLF + Chunk(data))
    {
      hide Chunk, HeaderLine, ChunkedLines, StatusLine, EndsWith, Pieces;
      WriteStatus("200 OK");
      assert head == head + "" && out == out + "";
      if |data| == 0 {
        return;
      }
      NoPieces();
      if !writeCalled {
        BeginChunks();
        writeCalled := true;
        assert head + Pieces([]) == head;
      }
      AddChunk(data);
    }

    lemma NoPieces()
      ensures Pieces([]) == ""
    {
    }

    method AddChunk(data: string)
      requires |data| < 0x8000_0000
      modifies `out, `chunks
      ensures chunks == old(chunks) + [data] && out == old(out) + (CRLF + Chunk(data))
      ensures old(out == head + Pieces(chunks)) ==> out == head + Pieces(chunks)
    {
      hide Chunk, Pieces;
      PutChunk(data);
      PiecesSnoc(chunks, data);
      assert old(out == head + Pieces(chunks)) ==> out == head + (Pieces(chunks) + CRLF + Chunk(data));
      assert out == old(out) + (CRLF + Chunk(data));
      chunks := chunks + [data];
    }

    /** A line break, the size, and the data. */
    method PutChunk(data: string)
      requires |data| < 0x8000_0000
      modifies `out
      ensures out == old(out) + CRLF + Chunk(data)
    {
      Put(CRLF);
      WriteUnsignedHex(|data|);
      Put(CRLF);
      Put(data);
      assert out == old(out) + CRLF + (Digits(|data|, 16) + CRLF + data);
    }

    /** The end of a response in chunks: a decoder gets the whole body back. */
    method EndChunked(data: string)
      requires Valid() && responsePending && writeCalled && |data| < 0x8000_0000
      modifies `out, `responsePending, `chunks
      ensures Valid() && !responsePending && chunks == old(chunks) + if data == "" then [] else [data]
      ensures |head| + 2 <= |out| && out[..|head|] == head && out[|head|..|head| + 2] == CRLF
      ensures DecodeChunked(out[|head| + 2..]) == Body(Concat(chunks), "")
    {
      hide DecodeChunked, Concat, Pieces, ChunkedLines, EndsWith;
      if |data| != 0 {
        AddChunk(data);
      }
      Put(LAST);
      responsePending := false;
      ChunksEnd(head, chunks);
    }

    /**
     The end of a response of announced length, or a part of it: `accepted` is how much of the data the socket takes,
     all of it unless the data is optional, and `failed` whether the socket could not write everything.
     */
    method EndPlain(data: string, totalSize: nat, allowContentLength: bool, accepted: nat, failed: bool)
      returns (success: bool)
      requires Valid() && responsePending && statusCalled && !writeCalled
      requires totalSize < 0x8000_0000 && accepted <= |data|
      modifies `out, `statusCalled, `endCalled, `responsePending, `offset, `head, `body
      ensures Valid() && endCalled && body == old(body) + data[..accepted] && offset == |body|
      ensures out == head + CRLF + body
      ensures head == old(head) + if old(endCalled) then "" else LengthLines(totalSize, allowContentLength)
      ensures responsePending <==> offset != totalSize
      ensures success <==> accepted == |data| && !failed
    {
      hide LengthLines;
      ghost var was := head;
      if !endCalled {
        PutLength(totalSize, allowContentLength);
      } else {
        assert head == was + "";
      }
      Put(data[..accepted]);
      assert out == head + CRLF + (body + data[..accepted]);
      body := body + data[..accepted];
      offset := offset + accepted;
      success := accepted == |data| && !failed;
      if offset == totalSize {
        responsePending := false;
      }
    }

    /** The mark, the length, and the empty line. */
    method PutLength(totalSize: nat, allowContentLength: bool)
      requires Valid() && responsePending && statusCalled && !writeCalled && !endCalled && totalSize < 0x8000_0000
      modifies `out, `statusCalled, `endCalled, `head
      ensures Valid() && endCalled && head == old(head) + LengthLines(totalSize, allowContentLength)
    {
      hide Digits, HeaderLine, Pieces, EndsWith;
      WriteMark();
      ghost var line := if allowContentLength then HeaderLine("Content-Length", Digits(totalSize, 10)) else "";
      if allowContentLength {
        PutLengthLine(totalSize);
      } else {
        Put(CRLF);
      }
      assert head + line == old(head) + LengthLines(totalSize, allowContentLength);
      head := head + line;
      endCalled := true;
      assert out == head + CRLF + body;
    }

    /** The length, and the empty line. */
    method PutLengthLine(totalSize: nat)
      requires totalSize < 0x8000_0000
      modifies `out
      ensures out == old(out) + HeaderLine("Content-Length", Digits(totalSize, 10)) + CRLF
    {
      hide Digits;
      Put("Content-Length: ");
      WriteUnsigned(totalSize);
      Put(CRLF + CRLF);
      assert out == old(out) + ("Content-Length" + ": " + Digits(totalSize, 10) + CRLF) + CRLF;
    }

    /** internalEnd: ends a response one way or the other. */
    method InternalEnd(data: string, totalSize: nat, optional: bool, allowContentLength: bool, accepted: nat,
                       failed: bool)
      returns (success: bool)
      requires Valid() && responsePending && |data| < 0x8000_0000 && totalSize < 0x8000_0000
      requires accepted <= |data| && (!optional ==> accepted == |data|)
      modifies this
      ensures Valid() && writeCalled == old(writeCalled)
      ensures writeCalled ==>
                && !responsePending && chunks == old(chunks) + (if data == "" then [] else [data])
                && |head| + 2 <= |out| && out[..|head|] == head && out[|head|..|head| + 2] == CRLF
                && DecodeChunked(out[|head| + 2..]) == Body(Concat(chunks), "")
                && head == old(head) && EndsWith(head, ChunkedLines())
      ensures !writeCalled ==>
                && endCalled && body == old(body) + data[..accepted] && out == head + CRLF + body
                && (responsePending <==> |body| != if totalSize == 0 then |data| else totalSize)
      ensures !writeCalled ==>
                head == old(head) + DefaultStatus(old(statusCalled))
                        + if old(endCalled) then "" else LengthLines(if totalSize == 0 then |data| else totalSize,
                                                                     allowContentLength)
      ensures success <==> writeCalled || (accepted == |data| && !failed)
    {
      hide DecodeChunked, ChunkedLines, LengthLines, Pieces, StatusLine;
      WriteStatus("200 OK");
      if writeCalled {
        assert head == old(head) + "" == old(head);
        EndChunked(data);
        success := true;
      } else {
        success := EndPlain(data, if totalSize == 0 then |data| else totalSize, allowContentLength, accepted, failed);
      }
    }
  }

  lemma TwoLines(s: string)
    ensures s + HeaderLine("uWebSockets", "18") + (DefaultStatus(true) + HeaderLine("Transfer-Encoding", "chunked"))
         == s + ChunkedLines()
    ensures EndsWith(s + ChunkedLines(), ChunkedLines())
  {
    hide HeaderLine;
    var last := HeaderLine("Transfer-Encoding", "chunked");
    assert DefaultStatus(true) + last == last;
  }

  lemma HeaderLineIsNotEmpty(key: string, value: string)
    ensures HeaderLine(key, value) != ""
  {
    assert |HeaderLine(key, value)| >= |CRLF|;
  }

  /** A head with its chunks and their end. */
  lemma ChunksEnd(head: string, chunks: seq<string>)
    requires forall i :: 0 <= i < |chunks| ==> chunks[i] != ""
    ensures var out := head + Pieces(chunks) + LAST;
            && |head| + 2 <= |out| && out[..|head|] == head && out[|head|..|head| + 2] == CRLF
            && DecodeChunked(out[|head| + 2..]) == Body(Concat(chunks), "")
  {
    hide DecodeChunked, Concat, Pieces, Encoded;
    var out := head + Pieces(chunks) + LAST;
    PiecesAreEncoded(chunks);
    DecodeEncoded(chunks, "");
    assert Encoded(chunks) + "" == Encoded(chunks);
    assert out == head + (CRLF + Encoded(chunks)) == head + CRLF + Encoded(chunks);
    assert out[|head| + 2..] == Encoded(chunks);
  }

  lemma PiecesSnoc(chunks: seq<string>, data: string)
    ensures Pieces(chunks + [data]) == Pieces(chunks) + CRLF + Chunk(data)
  {
    hide Chunk;
    assert (chunks + [data])[..|chunks|] == chunks;
  }

  lemma {:induction false} ConcatSnoc(chunks: seq<string>, data: string)
    ensures Concat(chunks + [data]) == Concat(chunks) + data
  {
    if chunks == [] {
      assert [] + [data] == [data] && [data][1..] == [] && data + "" == data;
    } else {
      assert (chunks + [data])[1..] == chunks[1..] + [data];
      ConcatSnoc(chunks[1..], data);
      assert chunks[0] + (Concat(chunks[1..]) + data) == chunks[0] + Concat(chunks[1..]) + data;
    }
  }

  predicate AllEmpty(pieces: seq<string>) {
    forall i :: 0 <= i < |pieces| ==> pieces[i] == ""
  }

  lemma WrittenSnoc(chunks: seq<string>, pieces: seq<string>, piece: string)
    requires Concat(chunks) == Concat(pieces)
    ensures Concat(chunks + if piece == "" then [] else [piece]) == Concat(pieces + [piece])
  {
    hide Concat;
    ConcatSnoc(pieces, piece);
    ConcatSnoc(chunks, piece);
    assert chunks + [] == chunks && Concat(pieces) + "" == Concat(pieces);
  }

  lemma AllEmptySnoc(pieces: seq<string>, piece: string)
    ensures AllEmpty(pieces + [piece]) <==> AllEmpty(pieces) && piece == ""
  {
    var more := pieces + [piece];
    assert more[|pieces|] == piece;
    if AllEmpty(more) {
      assert forall i :: 0 <= i < |pieces| ==> pieces[i] == more[i];
    }
  }

  /** Piece number `i` comes to those before it. */
  lemma OneMorePiece(chunks: seq<string>, pieces: seq<string>, i: nat)
    requires i < |pieces| && Concat(chunks) == Concat(pieces[..i])
    ensures Concat(chunks + if pieces[i] == "" then [] else [pieces[i]]) == Concat(pieces[..i + 1])
    ensures AllEmpty(pieces[..i + 1]) <==> AllEmpty(pieces[..i]) && pieces[i] == ""
  {
    hide Concat, AllEmpty;
    assert pieces[..i + 1] == pieces[..i] + [pieces[i]];
    WrittenSnoc(chunks, pieces[..i], pieces[i]);
    AllEmptySnoc(pieces[..i], pieces[i]);
  }

  /** The head of a response to which the application has added nothing. */
  function PlainHead(statusCalled: bool, lines: string): string {
    (if statusCalled then StatusLine("200 OK") else "") + lines
  }

  lemma PlainHeadOn(statusCalled: bool, begun: bool, begins: bool)
    requires begun ==> begins && statusCalled
    ensures PlainHead(statusCalled, if begun then ChunkedLines() else "") + DefaultStatus(statusCalled)
            + (if !begun && begins then ChunkedLines() else "")
         == PlainHead(true, if begins then ChunkedLines() else "")
  {
    hide StatusLine, ChunkedLines;
  }

  lemma PlainHeadEnds(statusCalled: bool, lines: string)
    ensures PlainHead(statusCalled, "") + DefaultStatus(statusCalled) + lines == PlainHead(true, lines)
  {
    hide StatusLine;
  }

  /** Any pieces, written one after the other. */
  method WriteAll(pieces: seq<string>) returns (r: HttpResponse)
    requires forall i :: 0 <= i < |pieces| ==> |pieces[i]| < 0x8000_0000
    ensures fresh(r) && r.Valid() && r.responsePending && !r.endCalled
    ensures Concat(r.chunks) == Concat(pieces) && (r.writeCalled <==> !AllEmpty(pieces))
    ensures r.head == PlainHead(r.statusCalled, if r.writeCalled then ChunkedLines() else "")
  {
    hide Concat, Pieces, AllEmpty, ChunkedLines, PlainHead, DefaultStatus, EndsWith;
    r := new HttpResponse();
    NothingWritten(pieces);
    for i := 0 to |pieces|
      invariant fresh(r) && r.Valid() && r.responsePending && !r.endCalled
      invariant Concat(r.chunks) == Concat(pieces[..i])
      invariant r.writeCalled <==> !AllEmpty(pieces[..i])
      invariant r.head == PlainHead(r.statusCalled, if r.writeCalled then ChunkedLines() else "")
    {
      OneMorePiece(r.chunks, pieces, i);
      PlainHeadOn(r.statusCalled, r.writeCalled, r.writeCalled || pieces[i] != "");
      r.Write(pieces[i]);
    }
  }

  /** Any pieces, written one after the other and ended, come out of a decoder in one. */
  method Stream(pieces: seq<string>, last: string) returns (r: HttpResponse)
    requires forall i :: 0 <= i < |pieces| ==> |pieces[i]| < 0x8000_0000
    requires |last| < 0x8000_0000
    ensures fresh(r) && !r.responsePending
    ensures !AllEmpty(pieces) ==>
              && r.head == StatusLine("200 OK") + ChunkedLines()
              && |r.head| + 2 <= |r.out| && r.out[..|r.head|] == r.head && r.out[|r.head|..|r.head| + 2] == CRLF
              && DecodeChunked(r.out[|r.head| + 2..]) == Body(Concat(pieces + [last]), "")
    ensures AllEmpty(pieces) ==>
              && r.head == StatusLine("200 OK") + LengthLines(|last|, true)
              && r.out == r.head + CRLF + last
  {
    hide DecodeChunked, Concat, Pieces, AllEmpty, StatusLine, ChunkedLines, LengthLines, DefaultStatus, EndsWith;
    r := WriteAll(pieces);
    WrittenSnoc(r.chunks, pieces, last);
    assert last[..|last|] == last && "" + last == last;
    PlainHeadEnds(r.statusCalled, LengthLines(|last|, true));
    var _ := r.InternalEnd(last, |last|, false, true, |last|, false);
  }

  lemma NothingWritten(pieces: seq<string>)
    ensures AllEmpty(pieces[..0]) && Concat([]) == Concat(pieces[..0]) && pieces[..|pieces|] == pieces
    ensures PlainHead(false, "") == ""
  {
    assert pieces[..0] == [];
  }
}
