/** The in-place unmasking loops: unrolled by four, rounded up, and with source and destination overlapping. */
module Unmasking {
  import opened Bytes

  /** Octets a rounded-up loop over `length` octets touches: one quad more than it needs when there is no remainder. */
  function Rounded(length: nat): (n: nat)
    ensures length < n <= length + 4 && n % 4 == 0
  {
    (length / 4 + 1) * 4
  }

  /** `s` with the octets from `at` on replaced by `patch`. */
  function Patch(s: seq<byte>, at: nat, patch: seq<byte>): (r: seq<byte>)
    requires at + |patch| <= |s|
    ensures |r| == |s|
  {
    s[..at] + patch + s[at + |patch|..]
  }

  lemma PatchNothing(s: seq<byte>, at: nat)
    requires at <= |s|
    ensures Patch(s, at, []) == s
  {
  }

  lemma PatchMore(s: seq<byte>, at: nat, p: seq<byte>, b: byte)
    requires at + |p| < |s|
    ensures Patch(s, at, p)[at + |p| := b] == Patch(s, at, p + [b])
  {
  }

  lemma PatchTwice(s: seq<byte>, at: nat, p: seq<byte>, q: seq<byte>)
    requires at + |p| + |q| <= |s|
    ensures Patch(Patch(s, at, p), at + |p|, q) == Patch(s, at, p + q)
  {
  }

  lemma PatchedBeyond(s: seq<byte>, at: nat, p: seq<byte>, lo: nat, hi: nat)
    requires at + |p| <= lo <= hi <= |s|
    ensures Patch(s, at, p)[lo..hi] == s[lo..hi]
  {
  }

  lemma PatchedParts(s: seq<byte>, at: nat, p: seq<byte>, n: nat)
    requires at + |p| <= |s| && n <= |p|
    ensures Patch(s, at, p)[at..at + n] == p[..n]
  {
  }

  /** One pass of the unrolled loops. */
  method UnmaskOneQuad(buf: array<byte>, dst: nat, src: nat, mask: array<byte>)
    requires mask.Length == 4 && mask != buf
    requires dst <= src && src + 4 <= buf.Length
    modifies buf
    ensures buf[..] == Patch(old(buf[..]), dst, [Xor(old(buf[src]), mask[0]), Xor(old(buf[src + 1]), mask[1]),
                                                 Xor(old(buf[src + 2]), mask[2]), Xor(old(buf[src + 3]), mask[3])])
  {
    hide Xor;
    buf[dst] := Xor(buf[src], mask[0]);
    buf[dst + 1] := Xor(buf[src + 1], mask[1]);
    buf[dst + 2] := Xor(buf[src + 2], mask[2]);
    buf[dst + 3] := Xor(buf[src + 3], mask[3]);
  }

  /** What one more quad adds to what the loops have done so far. */
  lemma OneMoreQuad(key: seq<byte>, was: seq<byte>, dst: nat, src: nat, n: nat)
    requires |key| == 4 && n % 4 == 0 && dst <= src && src + n + 4 <= |was|
    ensures var now := Patch(was, dst, Unmask(key, was[src..src + n]));
            var q := now[src + n..src + n + 4];
            Patch(now, dst + n, [Xor(q[0], key[0]), Xor(q[1], key[1]), Xor(q[2], key[2]), Xor(q[3], key[3])])
            == Patch(was, dst, Unmask(key, was[src..src + n + 4]))
  {
    hide Xor, Unmask, Patch;
    var u := Unmask(key, was[src..src + n]);
    PatchedBeyond(was, dst, u, src + n, src + n + 4);
    var q := was[src + n..src + n + 4];
    assert was[src..src + n] + q == was[src..src + n + 4];
    UnmaskQuad(key, was[src..src + n], q);
    PatchTwice(was, dst, u, [Xor(q[0], key[0]), Xor(q[1], key[1]), Xor(q[2], key[2]), Xor(q[3], key[3])]);
  }

  /**
   Copies unmasked octets forwards to a lower (or the same) place. Source octets are read before the
   overlapping destination reaches them; nothing outside the destination changes.
   */
  method UnmaskImprecise(buf: array<byte>, dst: nat, src: nat, mask: array<byte>, length: nat)
    requires mask.Length == 4 && mask != buf
    requires dst <= src && src + Rounded(length) <= buf.Length
    modifies buf
    ensures buf[..] == Patch(old(buf[..]), dst, Unmask(mask[..], old(buf[..])[src..src + Rounded(length)]))
  {
    hide Xor, Unmask, Patch;
    ghost var was, key, n0 := buf[..], mask[..], length / 4 + 1;
    var n := length / 4 + 1;
    var d, s := dst, src;
    NoQuads(key, was, dst, src);
    while n > 0
      invariant 0 <= n <= n0 && d == dst + 4 * (n0 - n) && s == src + 4 * (n0 - n)
      invariant mask[..] == key
      invariant buf[..] == Patch(was, dst, Unmask(key, was[src..s]))
    {
      OneMoreQuad(key, was, dst, src, s - src);
      ghost var q := buf[..][s..s + 4];
      UnmaskOneQuad(buf, d, s, mask);
      assert q == [q[0], q[1], q[2], q[3]];
      d, s, n := d + 4, s + 4, n - 1;
    }
  }

  lemma NoQuads(key: seq<byte>, was: seq<byte>, dst: nat, src: nat)
    requires |key| == 4 && dst <= |was| && src <= |was|
    ensures was == Patch(was, dst, Unmask(key, was[src..src]))
  {
    assert was[src..src] == [];
  }

  /** The same with the key inside the buffer, where the destination overwrites it: it is copied out first. */
  method UnmaskImpreciseCopyMask(buf: array<byte>, dst: nat, src: nat, maskAt: nat, length: nat)
    requires maskAt + 4 <= buf.Length
    requires dst <= src && src + Rounded(length) <= buf.Length
    modifies buf
    ensures buf[..]
            == Patch(old(buf[..]), dst, Unmask(old(buf[maskAt..maskAt + 4]), old(buf[..])[src..src + Rounded(length)]))
  {
    hide Unmask, Patch;
    var mask := new byte[4] [buf[maskAt], buf[maskAt + 1], buf[maskAt + 2], buf[maskAt + 3]];
    assert mask[..] == buf[maskAt..maskAt + 4];
    assert buf[..] == old(buf[..]);
    UnmaskImprecise(buf, dst, src, mask, length);
  }

  /** Unmasks whole quads where they lie. */
  method UnmaskInplace(buf: array<byte>, data: nat, stop: nat, mask: array<byte>)
    requires mask.Length == 4 && mask != buf
    requires data <= stop <= buf.Length && (stop - data) % 4 == 0
    modifies buf
    ensures buf[..] == Patch(old(buf[..]), data, Unmask(mask[..], old(buf[..])[data..stop]))
  {
    hide Xor, Unmask, Patch;
    ghost var was, key := buf[..], mask[..];
    var d := data;
    NoQuads(key, was, data, data);
    while d < stop
      invariant data <= d <= stop && (d - data) % 4 == 0
      invariant mask[..] == key
      invariant buf[..] == Patch(was, data, Unmask(key, was[data..d]))
    {
      OneMoreQuad(key, was, data, data, d - data);
      ghost var q := buf[..][d..d + 4];
      UnmaskOneQuad(buf, d, d, mask);
      assert q == [q[0], q[1], q[2], q[3]];
      d := d + 4;
    }
  }

  lemma KeyInPlace(key: seq<byte>)
    requires |key| == 4
    ensures Rotate(key, 0) == key
  {
  }

  /** What one more octet adds, `n` octets into the payload. */
  lemma OneMoreOctet(key: seq<byte>, was: seq<byte>, at: nat, n: nat)
    requires |key| == 4 && at + n < |was|
    ensures var now := Patch(was, at, Unmask(key, was[at..at + n]));
            now[at + n := Xor(now[at + n], key[n % 4])] == Patch(was, at, Unmask(key, was[at..at + n + 1]))
  {
    hide Xor, Unmask, Patch;
    var u := Unmask(key, was[at..at + n]);
    var now := Patch(was, at, u);
    var b := was[at + n];
    PatchedBeyond(was, at, u, at + n, at + n + 1);
    assert now[at + n..at + n + 1][0] == now[at + n] && was[at + n..at + n + 1][0] == b;
    assert was[at..at + n] + [b] == was[at..at + n + 1];
    UnmaskSnoc(key, was[at..at + n], b);
    UpdateIsPatch(now, at + n, Xor(b, key[n % 4]));
    PatchTwice(was, at, u, [Xor(b, key[n % 4])]);
  }

  lemma UpdateIsPatch(s: seq<byte>, at: nat, b: byte)
    requires at < |s|
    ensures s[at := b] == Patch(s, at, [b])
  {
  }

  /** The rest of a payload, unmasked where it lies: whole quads, then what remains. Nothing else changes. */
  method UnmaskExactly(buf: array<byte>, at: nat, n: nat, mask: array<byte>)
    requires mask.Length == 4 && mask != buf && at + n <= buf.Length
    modifies buf
    ensures buf[..] == Patch(old(buf[..]), at, Unmask(mask[..], old(buf[..])[at..at + n]))
  {
    hide Xor, Unmask, Patch;
    ghost var was, key := buf[..], mask[..];
    var quads := n / 4;
    UnmaskInplace(buf, at, at + quads * 4, mask);
    var i, rest := 0, n % 4;
    while i < rest
      invariant 0 <= i <= rest && mask[..] == key
      invariant buf[..] == Patch(was, at, Unmask(key, was[at..at + quads * 4 + i]))
    {
      OneMoreOctet(key, was, at, quads * 4 + i);
      assert (quads * 4 + i) % 4 == i;
      ghost var now := buf[..];
      buf[at + quads * 4 + i] := Xor(buf[at + quads * 4 + i], mask[i]);
      assert buf[..] == now[at + quads * 4 + i := Xor(now[at + quads * 4 + i], key[i])];
      i := i + 1;
    }
  }

  /** The places the four octets of the key go to. */
  lemma Places(offset: nat)
    requires offset <= 4
    ensures offset % 4 == if offset == 4 then 0 else offset
    ensures (1 + offset) % 4 == if offset >= 3 then offset - 3 else offset + 1
    ensures (2 + offset) % 4 == if offset >= 2 then offset - 2 else offset + 2
    ensures (3 + offset) % 4 == if offset >= 1 then offset - 1 else offset + 3
  {
  }

  /** Moves octet i of the key to place i + offset, which makes it the key seen 4 - offset octets further on. */
  method RotateMask(offset: nat, mask: array<byte>)
    requires mask.Length == 4 && offset <= 4
    modifies mask
    ensures mask[..] == Rotate(old(mask[..]), 4 - offset)
  {
    hide Rotate;
    Places(offset);
    var original := [mask[0], mask[1], mask[2], mask[3]];
    assert original == mask[..];
    FullTurn(original);
    KeyInPlace(original);
    mask[(0 + offset) % 4] := original[0];
    mask[(1 + offset) % 4] := original[1];
    mask[(2 + offset) % 4] := original[2];
    mask[(3 + offset) % 4] := original[3];
    if offset == 0 || offset == 4 {
      assert mask[..] == original;
    } else if offset == 1 {
      assert mask[..] == [original[3], original[0], original[1], original[2]];
    } else if offset == 2 {
      assert mask[..] == [original[2], original[3], original[0], original[1]];
    } else {
      assert mask[..] == [original[1], original[2], original[3], original[0]];
    }
  }

  /** `now` differs from `was` at most in the places `lo` to `hi`. */
  ghost predicate Kept(was: seq<byte>, now: seq<byte>, lo: nat, hi: nat) {
    |now| == |was| && forall i :: 0 <= i < |was| && !(lo <= i < hi) ==> now[i] == was[i]
  }

  lemma KeptSlice(was: seq<byte>, now: seq<byte>, lo: nat, hi: nat, a: nat, b: nat)
    requires Kept(was, now, lo, hi) && a <= b <= |was| && (b <= lo || hi <= a)
    ensures now[a..b] == was[a..b]
  {
  }

  lemma KeptWider(was: seq<byte>, now: seq<byte>, lo: nat, hi: nat, lo': nat, hi': nat)
    requires Kept(was, now, lo, hi) && lo' <= lo && hi <= hi'
    ensures Kept(was, now, lo', hi')
  {
  }

  lemma KeptTwice(was: seq<byte>, mid: seq<byte>, now: seq<byte>, lo: nat, hi: nat)
    requires Kept(was, mid, lo, hi) && Kept(mid, now, lo, hi)
    ensures Kept(was, now, lo, hi)
  {
  }

  lemma PatchKeeps(s: seq<byte>, at: nat, p: seq<byte>)
    requires at + |p| <= |s|
    ensures Kept(s, Patch(s, at, p), at, at + |p|)
  {
  }

  /**
   Unmasking `n` octets from `src` to `dst`, rounded up, leaves them at `dst` and touches neither what
   precedes `dst` nor what starts four octets after the last of them.
   */
  lemma UnmaskedPatch(key: seq<byte>, was: seq<byte>, dst: nat, src: nat, n: nat)
    requires |key| == 4 && dst <= src && src + Rounded(n) <= |was|
    ensures var now := Patch(was, dst, Unmask(key, was[src..src + Rounded(n)]));
            && now[dst..dst + n] == Unmask(key, was[src..src + n])
            && Kept(was, now, dst, dst + n + 4)
  {
    hide Unmask, Patch, Kept;
    var masked := was[src..src + Rounded(n)];
    var patch := Unmask(key, masked);
    PatchedParts(was, dst, patch, n);
    UnmaskPrefix(key, masked, n);
    assert masked[..n] == was[src..src + n];
    PatchKeeps(was, dst, patch);
    KeptWider(was, Patch(was, dst, patch), dst, dst + Rounded(n), dst, dst + n + 4);
  }

  lemma UnmaskedExactly(key: seq<byte>, was: seq<byte>, at: nat, n: nat)
    requires |key| == 4 && at + n <= |was|
    ensures var now := Patch(was, at, Unmask(key, was[at..at + n]));
            now[at..at + n] == Unmask(key, was[at..at + n]) && Kept(was, now, at, at + n)
  {
    hide Unmask, Patch, Kept;
    var patch := Unmask(key, was[at..at + n]);
    PatchedParts(was, at, patch, n);
    PatchKeeps(was, at, patch);
  }
}
