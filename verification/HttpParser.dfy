/** The HTTP parser: heads and bodies out of chunks cut anywhere. */
module HttpParsers {
  import opened Bytes
  import opened HttpSpec
  import opened HttpHeaders
  import opened HttpChunks
  import opened HttpCuts
  import opened BloomFilters
  import Utilities

  const MINIMUM_HTTP_POST_PADDING: nat := 32

  // ---- Requests ----

  /** The keys up to the first empty one. */
  ghost predicate Named(headers: seq<Header>, j: nat) {
    1 <= j < |headers| && forall i :: 1 <= i <= j ==> headers[i].key != []
  }

  ghost predicate Filled(added: set<seq<byte>>, headers: seq<Header>) {
    forall j: nat :: Named(headers, j) ==> headers[j].key in added
  }

  class HttpRequest {
    var headers: seq<Header>
    var querySeparator: nat
    const bf: BloomFilter

    constructor ()
      ensures fresh(bf) && fresh(bf.filter) && bf.Valid()
    {
      headers, querySeparator := [], 0;
      bf := new BloomFilter();
    }

    /** Adds all headers to the filter. */
    method Fill()
      requires bf.Valid()
      modifies bf, bf.filter
      ensures bf.Valid() && Filled(bf.added, headers)
    {
      hide Stands;
      var h := 1;
      while h < |headers| && headers[h].key != []
        invariant 1 <= h && (h <= |headers| || h == 1)
        invariant bf.Valid()
        invariant forall i :: 1 <= i < h ==> headers[i].key in bf.added
      {
        bf.Add(headers[h].key);
        h := h + 1;
      }
    }

    /** The value of the first header of a name, or nothing. */
    method GetHeader(name: seq<byte>) returns (value: seq<byte>)
      requires bf.Valid() && Filled(bf.added, headers) && headers != [] && name != []
      ensures value == HeaderValue(headers, name)
    {
      hide Stands, LookUp, Filled;
      var might := bf.MightHave(name);
      if might {
        var h := 1;
        while h < |headers| && headers[h].key != []
          invariant 1 <= h <= |headers|
          invariant LookUp(headers[1..], name) == LookUp(headers[h..], name)
        {
          LookUpNext(headers, name, h);
          if headers[h].key == name {
            return headers[h].value;
          }
          h := h + 1;
        }
        LookUpNext(headers, name, h);
        return [];
      }
      NotFiltered(bf.added, headers, name, 1);
      return [];
    }
  }

  lemma LookUpNext(headers: seq<Header>, name: seq<byte>, h: nat)
    requires h <= |headers|
    ensures LookUp(headers[h..], name)
         == if h == |headers| || headers[h].key == [] then []
            else if headers[h].key == name then headers[h].value
            else LookUp(headers[h + 1..], name)
  {
    if h < |headers| {
      assert headers[h..][0] == headers[h] && headers[h..][1..] == headers[h + 1..];
    }
  }

  /** A name that has not been added is not there. */
  lemma {:induction false} NotFiltered(added: set<seq<byte>>, headers: seq<Header>, name: seq<byte>, h: nat)
    requires Filled(added, headers) && name !in added
    requires 1 <= h <= |headers| && forall i :: 1 <= i < h ==> headers[i].key != []
    ensures LookUp(headers[h..], name) == []
    decreases |headers| - h
  {
    hide LookUp;
    LookUpNext(headers, name, h);
    if h < |headers| && headers[h].key != [] {
      assert Named(headers, h);
      NotFiltered(added, headers, name, h + 1);
    }
  }

  method ToUnsignedInteger(str: seq<byte>) returns (n: nat)
    ensures n == ToUnsigned(str)
    ensures Utilities.AllDigits(Text(str), 10) ==> n == Utilities.Parse(Text(str), 10) % 0x1_0000_0000
  {
    hide Value, Text;
    n := 0;
    assert str[..0] == [];
    for i := 0 to |str|
      invariant n == ToUnsigned(str[..i])
    {
      assert str[..i + 1][..i] == str[..i];
      n := (n * 10 + (Value(str[i]) - 48)) % 0x1_0000_0000;
    }
    assert str[..|str|] == str;
    if Utilities.AllDigits(Text(str), 10) {
      ToUnsignedIsParse(str);
    }
  }

  // ---- The parser ----

  class HttpParser {
    var fallback: seq<byte>
    var remainingStreamingBytes: nat

    /** The calls of the handlers. */
    ghost var log: seq<Emit>

    constructor ()
      ensures Valid() && Abs() == FRESH
    {
      fallback, remainingStreamingBytes, log := [], 0, [];
      new;
      NothingIsKept();
    }

    lemma NothingIsKept()
      requires fallback == []
      ensures Valid() && Abs() == Now()
    {
      assert forall k: nat :: k == 0 ==> fallback[..k] == [];
    }

    /** At most 4095 octets of a head are kept between chunks, and nothing while a body is awaited. */
    ghost predicate Valid()
      reads this
    {
      && |fallback| < MAX_FALLBACK_SIZE && Incomplete(START, fallback)
      && (remainingStreamingBytes > 0 ==> fallback == [])
    }

    /** Where the reader stands between heads and bodies. */
    ghost function Now(): Reader
      reads this
    {
      Reader(if remainingStreamingBytes > 0 then Streaming(remainingStreamingBytes) else Heading(START, 0, false),
             Flat(log))
    }

    /** Where the reader stands, the beginning of a head included. */
    ghost function Abs(): Reader
      reads this
    {
      Reader(if remainingStreamingBytes > 0 then Streaming(remainingStreamingBytes)
             else Heading(ScanAll(START, fallback), |fallback|, fallback != []), Flat(log))
    }

    lemma AbsIsValid()
      requires Valid()
      ensures HttpSpec.Valid(Abs()) && (remainingStreamingBytes == 0 ==> Keeps(Abs(), fallback))
      ensures fallback == [] ==> Abs() == Now()
    {
      hide ScanStep;
      IncompleteIsValid(START, fallback);
    }

    /** A head, if there is one, up to where its body is to be dealt with. */
    method TakeHead(buf: array<byte>, start: nat, end: nat, req: HttpRequest) returns (consumed: nat, announced: bool)
      requires start <= end && end + 1 < buf.Length && buf[end] == CR && remainingStreamingBytes == 0
      requires req.bf.Valid() && buf as object != req.bf.filter as object
      modifies buf, req, req.bf, req.bf.filter, `remainingStreamingBytes, `log
      ensures consumed <= end - start && buf[end..] == old(buf[end..]) && req.bf.Valid()
      ensures consumed == 0 ==>
                NoHead(old(buf[start..end]), buf[start..end]) && log == old(log) && remainingStreamingBytes == 0
      ensures consumed != 0 ==> buf[start + consumed..end] == old(buf[start + consumed..end])
      ensures consumed != 0 ==> Completes(START, old(buf[start..start + consumed]))
      ensures consumed != 0 ==>
                var scan := ScanAll(START, old(buf[start..start + consumed]));
                scan.Complete? && scan.fields != [] && Now() == Opened(Flat(old(log)), scan.fields, true)
      ensures consumed != 0 ==> announced == Announces(ScanAll(START, old(buf[start..start + consumed])).fields)
      ensures consumed != 0 && !announced ==> remainingStreamingBytes == 0
      ensures consumed != 0 ==>
                var fields := ScanAll(START, old(buf[start..start + consumed])).fields;
                log == old(log) + [Called(Served(fields))] + if Announces(fields) then [] else [Data([], true)]
    {
      hide BloomFilter.Valid, NoHead, Completes, ScanAll, HeaderValue, ToUnsigned, Filled, Url, QuerySeparator, Flat;
      announced := false;
      var headers;
      consumed, headers := GetHeaders(buf, start, end);
      if consumed == 0 {
        return;
      }
      /* The version is stripped from the URL. */
      ghost var fields := headers;
      var url := Url(headers[0].value);
      headers := [Header(headers[0].key, url)] + headers[1..];
      assert headers[1..] == fields[1..];
      req.headers, req.querySeparator := headers, QuerySeparator(url);
      req.Fill();
      /* The request handler. */
      ghost var request := Request(headers, QuerySeparator(url));
      FlatCalled(log, request);
      log := log + [Called(request)];
      var contentLengthString := req.GetHeader(CONTENT_LENGTH);
      SameValue(fields, headers);
      if |contentLengthString| != 0 {
        announced := true;
        remainingStreamingBytes := ToUnsignedInteger(contentLengthString);
      } else {
        FlatData(log, [], true);
        log := log + [Data([], true)];
      }
    }

    /** A piece of a body. */
    method EmitPiece(octets: seq<byte>)
      requires |octets| <= remainingStreamingBytes
      modifies `remainingStreamingBytes, `log
      ensures remainingStreamingBytes == old(remainingStreamingBytes) - |octets|
      ensures Now() == if old(remainingStreamingBytes) > 0 then AfterBody(old(Now()), octets) else Signalled(old(Now()))
      ensures log == old(log) + [Data(octets, |octets| == old(remainingStreamingBytes))]
    {
      hide Flat;
      FlatData(log, octets, |octets| == remainingStreamingBytes);
      log := log + [Data(octets, |octets| == remainingStreamingBytes)];
      remainingStreamingBytes := remainingStreamingBytes - |octets|;
    }

    /** As much of a body as there is between `d` and the end of a chunk; if its length is 0, that is signalled. */
    method EmitBody(data: array<byte>, d: nat, length: nat, ghost st: Reader, ghost was: seq<byte>) returns (next: nat)
      requires d <= length <= data.Length && |was| == length && data[d..length] == was[d..]
      requires HttpSpec.Valid(st)
      requires Follows(st, was, d, if remainingStreamingBytes > 0 then Now() else Signalled(Now()))
      modifies `remainingStreamingBytes, `log
      ensures d <= next <= length && data[next..length] == was[next..] && Follows(st, was, next, Now())
      ensures remainingStreamingBytes > 0 ==> next == length
      ensures log == old(log) + [Data(was[d..next], next - d == old(remainingStreamingBytes))]
    {
      hide Follows, Flat;
      var emittable := if remainingStreamingBytes < length - d then remainingStreamingBytes else length - d;
      SlicesAgree(was, data[d..length], d, emittable);
      assert data[d..length][..emittable] == data[d..d + emittable];
      assert data[d..length][emittable..] == data[d + emittable..length];
      if remainingStreamingBytes > 0 {
        FollowsBody(st, was, d, emittable, Now());
      }
      EmitPiece(data[d..d + emittable]);
      next := d + emittable;
    }

    /** All heads that are there, and their bodies as far as they are there. */
    method ConsumeAll(data: array<byte>, from: nat, length: nat, req: HttpRequest, ghost st: Reader,
                      ghost was: seq<byte>)
      returns (d: nat)
      requires from <= length && length + 1 < data.Length && |was| == length && data[from..length] == was[from..]
      requires HttpSpec.Valid(st) && Follows(st, was, from, Now())
      requires remainingStreamingBytes == 0
      requires req.bf.Valid() && data as object != req.bf.filter as object
      modifies data, req, req.bf, req.bf.filter, `remainingStreamingBytes, `log
      ensures from <= d <= length && Follows(st, was, d, Now())
      ensures remainingStreamingBytes > 0 ==> d == length
      ensures NoHead(was[d..], data[d..length])
    {
      hide BloomFilter.Valid, Follows, Flat, NoHead, Completes, ScanAll, Opened;
      d := from;
      data[length] := CR;
      assert data[from..length] == was[from..];
      while d < length
        invariant from <= d <= length && data[length] == CR && req.bf.Valid()
        invariant data[d..length] == was[d..]
        invariant Follows(st, was, d, Now())
        invariant remainingStreamingBytes > 0 ==> d == length
        decreases length - d
      {
        ghost var now, region := Now(), data[d..length];
        assert forall c :: 0 <= c <= length - d ==> data[d..d + c] == region[..c] && data[d + c..length] == region[c..];
        var consumed, announced := TakeHead(data, d, length, req);
        assert data[length] == data[length..][0];
        if consumed == 0 {
          return;
        }
        SlicesAgree(was, region, d, consumed);
        FollowsHead(st, was, d, consumed, now);
        OpenedUncut(now.out, ScanAll(START, was[d..d + consumed]).fields);
        d := d + consumed;
        if announced {
          d := EmitBody(data, d, length, st, was);
        }
      }
      NoHeadInNothing(was[d..], data[d..length]);
    }

    /**
     A chunk goes on with a head that has been kept: up to 4096 octets are put together, and at most one head is
     taken from them. `d` is how much of the chunk that takes.
     */
    method ConsumeKept(data: array<byte>, length: nat, req: HttpRequest, ghost st: Reader, ghost was: seq<byte>)
      returns (d: nat, headed: bool, ok: bool)
      requires Valid() && fallback != [] && remainingStreamingBytes == 0 && st == Abs() && HttpSpec.Valid(st)
      requires length <= data.Length && was == data[..length] && req.bf.Valid()
      modifies this, req, req.bf, req.bf.filter
      ensures headed ==> ok && d <= length && fallback == [] && Follows(st, was, d, Now()) && req.bf.Valid()
      ensures headed ==> exists fields ::
                fields != []
                && log == old(log) + [Called(Served(fields))] + if Announces(fields) then [] else [Data([], true)]
      ensures !headed && ok ==> Valid() && Abs() == Run(st, was)
      ensures !headed && !ok ==> Run(st, was) == Reader(Failed, Flat(log))
    {
      hide BloomFilter.Valid, Follows, Flat, NoHead, Completes, ScanAll, Opened, Run, Incomplete, Keeps;
      AbsIsValid();
      ghost var kept := fallback;
      var had := |fallback|;
      var maxCopyDistance := if MAX_FALLBACK_SIZE - had < length then MAX_FALLBACK_SIZE - had else length;
      fallback := fallback + data[..maxCopyDistance];
      assert data[..maxCopyDistance] == was[..maxCopyDistance];
      var n := |fallback|;
      var tmp := Padded(fallback);
      assert forall c :: 0 <= c <= n ==> tmp[0..0 + c] == fallback[..c];
      var consumed, _ := TakeHead(tmp, 0, n, req);
      if consumed != 0 {
        FollowsKept(st, kept, was, maxCopyDistance, consumed);
        ghost var fields := ScanAll(START, (kept + was[..maxCopyDistance])[..consumed]).fields;
        assert log == old(log) + [Called(Served(fields))] + if Announces(fields) then [] else [Data([], true)];
        fallback := [];
        return consumed - had, true, true;
      }
      fallback := tmp[..n];
      assert tmp[0..n] == fallback;
      NoHeadAgain(kept + was[..maxCopyDistance], fallback);
      NoHeadIsIncomplete(kept + was[..maxCopyDistance], fallback);
      if n == MAX_FALLBACK_SIZE {
        KeepsTooMuch(st, kept, was, maxCopyDistance);
        FlatErrored(log);
        log := log + [Errored];
        return 0, false, false;
      }
      assert was[..maxCopyDistance] == was;
      KeepsMore(st, kept, was);
      return 0, false, true;
    }

    /** A chunk, to which at least 32 octets of padding have been added. */
    method ConsumePostPadded(data: array<byte>, length: nat) returns (ok: bool)
      requires Valid() && length + MINIMUM_HTTP_POST_PADDING <= data.Length
      modifies this, data
      ensures HttpSpec.Valid(old(Abs()))
      ensures ok ==> Valid()
      ensures var r := Cut(Run(old(Abs()), old(data[..length])));
              (ok <==> !r.phase.Failed?) && (ok ==> Abs() == r) && Flat(log) == r.out
    {
      hide BloomFilter.Valid, Follows, Flat, NoHead, ScanAll, Run, Incomplete, Keeps, HttpSpec.Valid;
      AbsIsValid();
      ghost var st, was := Abs(), data[..length];
      FollowsNothing(st, was);
      FollowsAll(st, was);
      var req := new HttpRequest();
      var d := 0;
      assert was[0..] == was == data[0..length];
      if remainingStreamingBytes > 0 {
        d := EmitBody(data, 0, length, st, was);
        if remainingStreamingBytes > 0 || d == length {
          NothingIsKept();
          return true;
        }
      } else if fallback != [] {
        var headed;
        d, headed, ok := ConsumeKept(data, length, req, st, was);
        if !headed {
          return ok;
        }
        assert data[d..length] == was[d..];
        if remainingStreamingBytes > 0 {
          d := EmitBody(data, d, length, st, was);
          if remainingStreamingBytes > 0 || d == length {
            NothingIsKept();
            return true;
          }
        }
      }
      d := ConsumeAll(data, d, length, req, st, was);
      ok := KeepRest(data, d, length, st, was);
    }

    /** Keeps what is left of a chunk, the beginning of a head. */
    method KeepRest(data: array<byte>, d: nat, length: nat, ghost st: Reader, ghost was: seq<byte>) returns (ok: bool)
      requires d <= length <= data.Length && |was| == length && fallback == [] && HttpSpec.Valid(st)
      requires Follows(st, was, d, Now()) && NoHead(was[d..], data[d..length])
      requires remainingStreamingBytes > 0 ==> d == length
      modifies this
      ensures ok ==> Valid()
      ensures var r := Cut(Run(st, was));
              (ok <==> !r.phase.Failed?) && (ok ==> Abs() == r) && Flat(log) == r.out
    {
      hide BloomFilter.Valid, Follows, Flat, NoHead, ScanAll, Run, Incomplete;
      FollowsAll(st, was);
      NoHeadAgain(was[d..], data[d..length]);
      NoHeadIsIncomplete(was[d..], data[d..length]);
      if remainingStreamingBytes == 0 {
        FollowsRest(st, was, d, Now());
      }
      NoRest();
      if d < length {
        if length - d < MAX_FALLBACK_SIZE {
          fallback := fallback + data[d..length];
          assert fallback == data[d..length];
        } else {
          FlatErrored(log);
          log := log + [Errored];
          return false;
        }
      } else {
        assert was[d..] == [] == data[d..length];
      }
      return true;
    }
  }

  lemma NoRest()
    ensures ScanAll(START, []) == START
  {
  }

  lemma NoHeadIsIncomplete(was: seq<byte>, now: seq<byte>)
    requires NoHead(was, now)
    ensures Incomplete(START, was) && |now| == |was|
  {
  }

  /** Following to the end of a chunk. */
  lemma FollowsAll(st: Reader, was: seq<byte>)
    requires HttpSpec.Valid(st)
    ensures forall now :: Follows(st, was, |was|, now) ==> Run(st, was) == now
  {
    assert was[..|was|] == was;
  }

  /** A copy with room for the fence and the padding. */
  method Padded(s: seq<byte>) returns (tmp: array<byte>)
    ensures fresh(tmp) && tmp.Length == |s| + MINIMUM_HTTP_POST_PADDING && tmp[..|s|] == s && tmp[|s|] == CR
  {
    tmp := new byte[|s| + MINIMUM_HTTP_POST_PADDING](i => if 0 <= i < |s| then s[i] else CR);
  }

  lemma SlicesAgree(was: seq<byte>, region: seq<byte>, d: nat, n: nat)
    requires d + n <= |was| && region == was[d..]
    ensures region[..n] == was[d..d + n] && region[n..] == was[d + n..]
  {
  }

  lemma NoHeadInNothing(was: seq<byte>, now: seq<byte>)
    requires was == [] && now == []
    ensures NoHead(was, now)
  {
    assert forall k: nat :: k == 0 ==> was[..k] == [];
  }

  /** The request line plays no part in looking up headers. */
  lemma SameValue(fields: seq<Header>, headers: seq<Header>)
    requires fields != [] && headers != [] && headers[1..] == fields[1..]
    ensures HeaderValue(headers, CONTENT_LENGTH) == HeaderValue(fields, CONTENT_LENGTH)
    ensures Announces(headers) == Announces(fields) && BodyLength(headers) == BodyLength(fields)
  {
  }

  // ---- Whole streams ----

  /**
   However a stream is cut, the parser makes of it what the reader does, which knows of the cuts. It calls the error
   handler if and only if a chunk ends inside a head of which 4096 octets come that do not complete it. Otherwise
   requests, bodies and signals are those of the whole stream, but for the signals of bodies of length 0; and these are
   all there if and only if no head of such a request is cut.
   */
  method Receive(chunks: seq<seq<byte>>) returns (parser: HttpParser, ok: bool)
    ensures ok <==> !ReadChunks(chunks).phase.Failed?
    ensures ok ==> parser.Abs() == ReadChunks(chunks)
    ensures ok <==> !LongHeadIsCut(chunks)
    ensures HttpSpec.Valid(FRESH)
    ensures var said, whole := Flat(parser.log), Run(FRESH, Flatten(chunks)).out;
            && said == ReadChunks(chunks).out && Quiet(said) <= Quiet(whole)
            && (ok ==> Quiet(said) == Quiet(whole) && (said == whole <==> !ZeroHeadIsCut(chunks)))
  {
    hide Run, ReadChunks, Cut, Flatten, HttpSpec.Valid, ZeroHeadIsCut, LongHeadIsCut, Quiet, Comes;
    parser := new HttpParser();
    ok := true;
    assert chunks[..0] == [];
    NoChunks();
    for i := 0 to |chunks|
      invariant fresh(parser)
      invariant ok ==> parser.Valid() && parser.Abs() == ReadChunks(chunks[..i])
      invariant ok <==> !ReadChunks(chunks[..i]).phase.Failed?
      invariant Flat(parser.log) == ReadChunks(chunks[..i]).out
    {
      assert chunks[..i + 1] == chunks[..i] + [chunks[i]];
      ReadChunksSnoc(chunks[..i], chunks[i]);
      if ok {
        var data := Padded(chunks[i]);
        ok := parser.ConsumePostPadded(data, |chunks[i]|);
      } else {
        RunFailed(ReadChunks(chunks[..i]), chunks[i]);
        CutFailed(ReadChunks(chunks[..i]));
      }
    }
    assert chunks[..|chunks|] == chunks;
    CutsMean(chunks);
  }

  lemma CutFailed(st: Reader)
    requires st.phase.Failed?
    ensures Cut(st) == st
  {
  }
}
