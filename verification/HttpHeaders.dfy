/** getHeaders: a head is read in place, its keys being turned into lower case on the way. */
module HttpHeaders {
  import opened Bytes
  import opened HttpSpec

  /** `now` is `was` with octets changed that make no difference to the scan. */
  ghost predicate Alike(was: seq<byte>, now: seq<byte>, n: nat) {
    && |now| == |was| && n <= |was| && now[n..] == was[n..]
    && forall k {:trigger was[..k]} :: 0 <= k <= n ==> ScanAll(START, now[..k]) == ScanAll(START, was[..k])
  }

  /** The first `n` octets are scanned, with result `sc`, and did not complete a head. */
  ghost predicate Scanned(was: seq<byte>, now: seq<byte>, n: nat, sc: Scan) {
    Alike(was, now, n) && ScanAll(START, was[..n]) == sc && Incomplete(START, was[..n])
  }

  lemma ScannedNothing(was: seq<byte>)
    ensures Scanned(was, was, 0, START)
  {
    assert was[..0] == [];
  }

  lemma IncompleteSnoc(scan: Scan, h: seq<byte>, b: byte)
    requires Incomplete(scan, h) && !ScanStep(ScanAll(scan, h), b).Complete?
    ensures Incomplete(scan, h + [b])
  {
    hide ScanAll, ScanStep;
    forall k | 0 <= k <= |h| + 1 ensures !ScanAll(scan, (h + [b])[..k]).Complete? {
      if k <= |h| {
        assert (h + [b])[..k] == h[..k];
      } else {
        assert (h + [b])[..k] == h + [b];
        ScanSnoc(scan, h, b);
      }
    }
  }

  /** One more octet, as it was or in lower case. */
  lemma ScannedSnoc(was: seq<byte>, now: seq<byte>, n: nat, sc: Scan, b: byte)
    requires Scanned(was, now, n, sc) && n < |was|
    requires ScanStep(sc, b) == ScanStep(sc, was[n]) && !ScanStep(sc, b).Complete?
    ensures Scanned(was, now[n := b], n + 1, ScanStep(sc, was[n]))
  {
    hide ScanAll, ScanStep, Incomplete;
    var now' := now[n := b];
    assert was[..n + 1] == was[..n] + [was[n]] && now'[..n + 1] == now[..n] + [b];
    ScanSnoc(START, was[..n], was[n]);
    ScanSnoc(START, now[..n], b);
    IncompleteSnoc(START, was[..n], was[n]);
    assert now'[n + 1..] == was[n..][1..];
    forall k | 0 <= k <= n + 1 ensures ScanAll(START, now'[..k]) == ScanAll(START, was[..k]) {
      if k <= n {
        assert now'[..k] == now[..k];
        assert ScanAll(START, now[..k]) == ScanAll(START, was[..k]);
      }
    }
  }

  lemma ScannedSame(was: seq<byte>, now: seq<byte>, n: nat, sc: Scan)
    requires Scanned(was, now, n, sc) && n < |was| && !ScanStep(sc, was[n]).Complete?
    ensures now[n] == was[n] && Scanned(was, now, n + 1, ScanStep(sc, was[n]))
  {
    hide ScanAll, ScanStep, Incomplete;
    assert now[n] == now[n..][0] == was[n..][0] == was[n];
    assert now[n := was[n]] == now;
    ScannedSnoc(was, now, n, sc, was[n]);
  }

  lemma ScannedLower(was: seq<byte>, now: seq<byte>, n: nat, sc: Scan)
    requires Scanned(was, now, n, sc) && n < |was| && sc.InKey? && IsKeyOctet(was[n])
    ensures now[n] == was[n]
    ensures Scanned(was, now[n := Lower(was[n])], n + 1, InKey(sc.fields, sc.key + [Lower(was[n])]))
  {
    hide Lower, IsKeyOctet, IsSkipped, Scanned;
    LowerKeeps(was[n]);
    ScannedSnoc(was, now, n, sc, Lower(was[n]));
    ScannedAt(was, now, n, sc);
  }

  lemma ScannedAt(was: seq<byte>, now: seq<byte>, n: nat, sc: Scan)
    requires Scanned(was, now, n, sc)
    ensures |now| == |was| && n <= |was| && now[n..] == was[n..] && (n < |was| ==> now[n] == was[n])
  {
    assert n < |was| ==> now[n] == now[n..][0] == was[n..][0] == was[n];
  }

  /** From where the rest is the same, it makes no difference any more. */
  lemma {:induction false} AlikeAll(was: seq<byte>, now: seq<byte>, n: nat)
    requires Alike(was, now, n)
    ensures Alike(was, now, |was|)
    decreases |was| - n
  {
    hide ScanAll, ScanStep;
    if n < |was| {
      assert now[n] == now[n..][0] == was[n..][0] == was[n];
      assert was[..n + 1] == was[..n] + [was[n]] && now[..n + 1] == now[..n] + [was[n]];
      ScanSnoc(START, was[..n], was[n]);
      ScanSnoc(START, now[..n], was[n]);
      assert ScanAll(START, now[..n]) == ScanAll(START, was[..n]);
      assert now[n + 1..] == was[n..][1..];
      AlikeAll(was, now, n + 1);
    }
  }

  /** A scan that is stuck stays incomplete. */
  lemma {:induction false} StuckStays(was: seq<byte>, n: nat)
    requires n <= |was| && Incomplete(START, was[..n]) && ScanAll(START, was[..n]).Stuck?
    ensures Incomplete(START, was)
    decreases |was| - n
  {
    hide ScanAll, Incomplete;
    if n < |was| {
      assert was[..n + 1] == was[..n] + [was[n]];
      ScanSnoc(START, was[..n], was[n]);
      IncompleteSnoc(START, was[..n], was[n]);
      StuckStays(was, n + 1);
    } else {
      assert was[..n] == was;
    }
  }

  /** What holds when getHeaders gives up: there is no head yet, and trying again will not see a difference. */
  ghost predicate NoHead(was: seq<byte>, now: seq<byte>) {
    Incomplete(START, was) && Alike(was, now, |was|)
  }

  lemma GiveUp(was: seq<byte>, now: seq<byte>, n: nat, sc: Scan)
    requires Scanned(was, now, n, sc) && (n == |was| || sc.Stuck?)
    ensures NoHead(was, now)
  {
    hide ScanAll, Incomplete;
    AlikeAll(was, now, n);
    if n == |was| {
      assert was[..n] == was;
    } else {
      StuckStays(was, n);
    }
  }

  lemma NoHeadAgain(was: seq<byte>, now: seq<byte>)
    requires NoHead(was, now)
    ensures Incomplete(START, now) && ScanAll(START, now) == ScanAll(START, was)
  {
    hide ScanAll;
    assert was[..|was|] == was && now[..|was|] == now;
    forall k | 0 <= k <= |now| ensures !ScanAll(START, now[..k]).Complete? {
      assert ScanAll(START, now[..k]) == ScanAll(START, was[..k]);
    }
  }

  /** The head is complete at `n`. */
  lemma HeadDone(was: seq<byte>, now: seq<byte>, n: nat, fields: seq<Header>)
    requires Scanned(was, now, n, SawCr(fields)) && n < |was| && was[n] == LF
    ensures Completes(START, was[..n + 1]) && ScanAll(START, was[..n + 1]) == Complete(fields)
            && now[n + 1..] == was[n + 1..]
  {
    hide ScanAll, Incomplete;
    assert was[..n + 1] == was[..n] + [was[n]] && was[..n + 1][..n] == was[..n];
    ScanSnoc(START, was[..n], was[n]);
    assert now[n + 1..] == now[n..][1..] == was[n..][1..];
  }

  // ---- In place ----

  /** The key loop. */
  method ReadKey(buf: array<byte>, start: nat, end: nat, from: nat, ghost was: seq<byte>, ghost fields: seq<Header>)
    returns (p: nat)
    requires start <= from <= end < buf.Length && buf[end] == CR
    requires Scanned(was, buf[start..end], from - start, InKey(fields, []))
    modifies buf
    ensures from <= p <= end && !IsKeyOctet(buf[p])
    ensures Scanned(was, buf[start..end], p - start, InKey(fields, buf[from..p]))
    ensures buf[..start] == old(buf[..start]) && buf[end..] == old(buf[end..]) && buf[end] == CR
  {
    hide Scanned, IsKeyOctet, Lower;
    p := from;
    CrIsNoKey();
    ScannedAt(was, buf[start..end], from - start, InKey(fields, []));
    assert buf[from..p] == [];
    while IsKeyOctet(buf[p])
      invariant from <= p <= end
      invariant Scanned(was, buf[start..end], p - start, InKey(fields, buf[from..p]))
      invariant buf[..start] == old(buf[..start]) && buf[end..] == old(buf[end..]) && buf[end] == CR
      decreases end - p
    {
      ghost var now := buf[start..end];
      ScannedAt(was, now, p - start, InKey(fields, buf[from..p]));
      ScannedLower(was, now, p - start, InKey(fields, buf[from..p]));
      ghost var key := buf[from..p];
      buf[p] := Lower(buf[p]);
      assert buf[start..end] == now[p - start := Lower(was[p - start])];
      assert buf[from..p + 1] == key + [Lower(was[p - start])];
      p := p + 1;
    }
  }

  /** The loop from the end of a key to the value. */
  method SkipToValue(buf: array<byte>, start: nat, end: nat, from: nat, ghost was: seq<byte>, ghost fields: seq<Header>,
                     ghost key: seq<byte>)
    returns (p: nat)
    requires start <= from <= end < buf.Length && buf[end] == CR
    requires Scanned(was, buf[start..end], from - start, Skipping(fields, key))
    ensures from <= p <= end && !IsSkipped(buf[p])
    ensures Scanned(was, buf[start..end], p - start, Skipping(fields, key))
  {
    hide Scanned, IsSkipped;
    CrIsNoKey();
    p := from;
    while IsSkipped(buf[p])
      invariant from <= p <= end
      invariant Scanned(was, buf[start..end], p - start, Skipping(fields, key))
      decreases end - p
    {
      SkippedIsNotCr(buf[p]);
      ScannedAt(was, buf[start..end], p - start, Skipping(fields, key));
      ScannedSame(was, buf[start..end], p - start, Skipping(fields, key));
      p := p + 1;
    }
  }

  lemma SkippedIsNotCr(b: byte)
    requires IsSkipped(b)
    ensures b != CR
  {
  }

  /** The scan while a value that starts at `from` is read. */
  ghost function ValueSoFar(fields: seq<Header>, key: seq<byte>, value: seq<byte>): Scan {
    if value == [] then Skipping(fields, key) else InValue(fields, key, value)
  }

  /** memchr: the first carriage return of the value, or -1. */
  method FindCr(buf: array<byte>, start: nat, end: nat, from: nat, ghost was: seq<byte>, ghost fields: seq<Header>,
                ghost key: seq<byte>)
    returns (q: int)
    requires start <= from <= end < buf.Length && !IsSkipped(buf[from])
    requires Scanned(was, buf[start..end], from - start, Skipping(fields, key))
    ensures q == -1 || from <= q < end
    ensures q == -1 ==> NoHead(was, buf[start..end])
    ensures q != -1 ==> buf[q] == CR && Scanned(was, buf[start..end], q + 1 - start, ValueCr(fields, key, buf[from..q]))
  {
    hide Scanned, IsSkipped, NoHead;
    q := from;
    assert buf[from..q] == [];
    ScannedAt(was, buf[start..end], from - start, Skipping(fields, key));
    while q < end && buf[q] != CR
      invariant from <= q <= end
      invariant Scanned(was, buf[start..end], q - start, ValueSoFar(fields, key, buf[from..q]))
    {
      ghost var sc := ValueSoFar(fields, key, buf[from..q]);
      ScannedAt(was, buf[start..end], q - start, sc);
      ScannedSame(was, buf[start..end], q - start, sc);
      assert buf[from..q + 1] == buf[from..q] + [buf[q]];
      q := q + 1;
    }
    ghost var sc := ValueSoFar(fields, key, buf[from..q]);
    ScannedAt(was, buf[start..end], q - start, sc);
    if q == end {
      GiveUp(was, buf[start..end], q - start, sc);
      return -1;
    }
    ScannedSame(was, buf[start..end], q - start, sc);
  }

  /** What one turn of the loop over the lines finds. */
  datatype Line = NoLine | EndOfHead | HeaderLine(header: Header)

  /** The scan after a line. */
  ghost function AfterLine(fields: seq<Header>, header: Header): Scan {
    if |fields| + 1 == MAX_HEADERS then Stuck else InKey(fields + [header], [])
  }

  /** After a carriage return in place of a key: the end of the head, or nothing. */
  method EndOrNothing(buf: array<byte>, start: nat, end: nat, p: nat, i: nat, ghost was: seq<byte>,
                      ghost fields: seq<Header>,
                      ghost key: seq<byte>)
    returns (line: Line)
    requires start <= p <= end && end + 1 < buf.Length && buf[end] == CR && buf[p] == CR && i == |fields|
    requires Scanned(was, buf[start..end], p - start, InKey(fields, key))
    ensures line.NoLine? || line.EndOfHead?
    ensures line.NoLine? ==> NoHead(was, buf[start..end])
    ensures line.EndOfHead? ==>
              && p + 2 <= end && i > 0 && Completes(START, was[..p + 2 - start])
              && ScanAll(START, was[..p + 2 - start]) == Complete(fields)
              && buf[start..end][p + 2 - start..] == was[p + 2 - start..]
  {
    hide Scanned, NoHead, Completes, ScanAll, IsKeyOctet, IsSkipped;
    CrIsNoKey();
    ghost var now := buf[start..end];
    ScannedAt(was, now, p - start, InKey(fields, key));
    if p == end {
      GiveUp(was, now, p - start, InKey(fields, key));
      return NoLine;
    }
    ScannedSame(was, now, p - start, InKey(fields, key));
    if i == 0 {
      GiveUp(was, now, p + 1 - start, Stuck);
      return NoLine;
    }
    ScannedAt(was, now, p + 1 - start, SawCr(fields));
    if buf[p + 1] == LF {
      HeadDone(was, now, p + 1 - start, fields);
      return EndOfHead;
    }
    if p + 1 == end {
      GiveUp(was, now, p + 1 - start, SawCr(fields));
    } else {
      ScannedSame(was, now, p + 1 - start, SawCr(fields));
      GiveUp(was, now, p + 2 - start, Stuck);
    }
    return NoLine;
  }

  /** The value of a line, from the octet that ended its key. */
  method ReadRest(buf: array<byte>, start: nat, end: nat, from: nat, key: seq<byte>, ghost was: seq<byte>,
                  ghost fields: seq<Header>)
    returns (line: Line, next: nat)
    requires start <= from < end && end + 1 < buf.Length && buf[end] == CR && buf[from] != CR && !IsKeyOctet(buf[from])
    requires Scanned(was, buf[start..end], from - start, InKey(fields, key))
    ensures line.NoLine? || line.HeaderLine?
    ensures line.NoLine? ==> NoHead(was, buf[start..end])
    ensures line.HeaderLine? ==>
              from < next <= end && Scanned(was, buf[start..end], next - start, AfterLine(fields, line.header))
  {
    hide Scanned, NoHead, IsKeyOctet, IsSkipped;
    ghost var now := buf[start..end];
    ScannedAt(was, now, from - start, InKey(fields, key));
    ScannedSame(was, now, from - start, InKey(fields, key));
    var preliminaryValue := SkipToValue(buf, start, end, from + 1, was, fields, key);
    var p := FindCr(buf, start, end, preliminaryValue, was, fields, key);
    if p == -1 {
      return NoLine, 0;
    }
    ghost var sc := ValueCr(fields, key, buf[preliminaryValue..p]);
    ScannedAt(was, now, p + 1 - start, sc);
    if buf[p + 1] == LF {
      CrIsNoKey();
      ScannedSame(was, now, p + 1 - start, sc);
      return HeaderLine(Header(key, buf[preliminaryValue..p])), p + 2;
    }
    if p + 1 == end {
      GiveUp(was, now, p + 1 - start, sc);
    } else {
      ScannedSame(was, now, p + 1 - start, sc);
      GiveUp(was, now, p + 2 - start, Stuck);
    }
    return NoLine, 0;
  }

  /** One turn of the loop over the lines. */
  method ReadLine(buf: array<byte>, start: nat, end: nat, from: nat, i: nat, ghost was: seq<byte>,
                  ghost fields: seq<Header>)
    returns (line: Line, next: nat)
    requires start <= from <= end && end + 1 < buf.Length && buf[end] == CR && i == |fields|
    requires Scanned(was, buf[start..end], from - start, InKey(fields, []))
    modifies buf
    ensures buf[..start] == old(buf[..start]) && buf[end..] == old(buf[end..])
    ensures line.NoLine? ==> NoHead(was, buf[start..end])
    ensures line.HeaderLine? ==>
              from < next <= end && Scanned(was, buf[start..end], next - start, AfterLine(fields, line.header))
    ensures line.EndOfHead? ==>
              && from < next <= end && start + 2 <= next && i > 0 && Completes(START, was[..next - start])
              && ScanAll(START, was[..next - start]) == Complete(fields)
              && buf[start..end][next - start..] == was[next - start..]
  {
    hide Scanned, NoHead, Completes, ScanAll, IsKeyOctet, IsSkipped, AfterLine;
    var p := ReadKey(buf, start, end, from, was, fields);
    ScannedAt(was, buf[start..end], p - start, InKey(fields, buf[from..p]));
    if buf[p] == CR {
      line := EndOrNothing(buf, start, end, p, i, was, fields, buf[from..p]);
      next := p + 2;
    } else {
      line, next := ReadRest(buf, start, end, p, buf[from..p], was, fields);
    }
  }

  /** A head, from `start`: its length and fields, or 0 if it is not there (yet). */
  method GetHeaders(buf: array<byte>, start: nat, end: nat) returns (consumed: nat, headers: seq<Header>)
    requires start <= end && end + 1 < buf.Length && buf[end] == CR
    modifies buf
    ensures buf[..start] == old(buf[..start]) && buf[end..] == old(buf[end..])
    ensures consumed == 0 ==> NoHead(old(buf[start..end]), buf[start..end])
    ensures consumed != 0 ==> 0 < consumed <= end - start && headers != []
    ensures consumed != 0 ==> buf[start + consumed..end] == old(buf[start + consumed..end])
    ensures consumed != 0 ==> Completes(START, old(buf[start..start + consumed]))
    ensures consumed != 0 ==> ScanAll(START, old(buf[start..start + consumed])) == Complete(headers)
  {
    hide Scanned, NoHead, Completes, ScanAll;
    ghost var was, front, back := buf[start..end], buf[..start], buf[end..];
    var p := start;
    headers := [];
    ScannedNothing(was);
    for i := 0 to MAX_HEADERS
      invariant start <= p <= end && |headers| == i
      invariant buf[..start] == front && buf[end..] == back
      invariant Scanned(was, buf[start..end], p - start, if i == MAX_HEADERS then Stuck else InKey(headers, []))
    {
      var line, next := ReadLine(buf, start, end, p, i, was, headers);
      match line
      case NoLine =>
        return 0, headers;
      case EndOfHead =>
        assert buf[start..end][next - start..] == buf[next..end];
        assert was[..next - start] == old(buf[start..next]) && was[next - start..] == old(buf[next..end]);
        return next - start, headers;
      case HeaderLine(header) =>
        p, headers := next, headers + [header];
    }
    GiveUp(was, buf[start..end], p - start, Stuck);
    return 0, headers;
  }
}
