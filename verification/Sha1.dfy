/** SHA-1 as FIPS 180-4 writes it down, and as it is computed in place with rotating registers. */
module Sha1 {
  import opened Bytes

  type word = bv32

  // ---- FIPS 180-4 ----

  /** Circular left shift, section 3.2. */
  function Rol(value: word, bits: nat): word
    requires 0 < bits < 32
  {
    (value << bits) | (value >> (32 - bits))
  }

  /** Addition is modulo 2^32. */
  function Add(x: word, y: word): word { x + y }

  function Sum(v: word, w: word, x: word, y: word, z: word): word { v + w + x + y + z }

  function Ch(x: word, y: word, z: word): word { (x & y) ^ (!x & z) }

  function Parity(x: word, y: word, z: word): word { x ^ y ^ z }

  function Maj(x: word, y: word, z: word): word { (x & y) ^ (x & z) ^ (y & z) }

  /** The functions of section 4.1.1. */
  function F(t: nat, x: word, y: word, z: word): word {
    if t < 20 then Ch(x, y, z) else if 40 <= t < 60 then Maj(x, y, z) else Parity(x, y, z)
  }

  /** The constants of section 4.2.1. */
  function K(t: nat): word {
    if t < 20 then 0x5a827999 else if t < 40 then 0x6ed9eba1 else if t < 60 then 0x8f1bbcdc else 0xca62c1d6
  }

  /** They are the first 32 bits of square roots: the root of 2, 3, 5 or 10, times 2^30. */
  lemma KIsRoot(t: nat)
    requires t < 80
    ensures var n, k := if t < 20 then 2 else if t < 40 then 3 else if t < 60 then 5 else 10, K(t) as int;
            k * k <= n * 0x1000_0000_0000_0000 < (k + 1) * (k + 1)
  {
    LiteralConstants();
  }

  lemma LiteralConstants()
    ensures 0x5a827999 as word as int == 1518500249 && 0x6ed9eba1 as word as int == 1859775393
    ensures 0x8f1bbcdc as word as int == 2400959708 && 0xca62c1d6 as word as int == 3395469782
  {
  }

  /** The word of the schedule that comes of four earlier ones. */
  function Mixed(w3: word, w8: word, w14: word, w16: word): word { Rol(w3 ^ w8 ^ w14 ^ w16, 1) }

  /** The message schedule, section 6.1.2 step 1. */
  function Schedule(m: seq<word>, t: nat): word
    requires |m| == 16
  {
    if t < 16 then m[t]
    else Mixed(Schedule(m, t - 3), Schedule(m, t - 8), Schedule(m, t - 14), Schedule(m, t - 16))
  }

  datatype Registers = Registers(a: word, b: word, c: word, d: word, e: word)

  /** One round, section 6.1.2 step 3. */
  function Round(t: nat, r: Registers, w: word): Registers {
    Registers(Sum(Rol(r.a, 5), F(t, r.b, r.c, r.d), r.e, K(t), w), r.a, Rol(r.b, 30), r.c, r.d)
  }

  function Rounds(m: seq<word>, h: Registers, t: nat): Registers
    requires |m| == 16
  {
    if t == 0 then h else Round(t - 1, Rounds(m, h, t - 1), Schedule(m, t - 1))
  }

  /** The hash value after one more block, section 6.1.2 step 4. */
  function Compress(m: seq<word>, h: Registers): Registers
    requires |m| == 16
  {
    var r := Rounds(m, h, 80);
    Registers(Add(r.a, h.a), Add(r.b, h.b), Add(r.c, h.c), Add(r.d, h.d), Add(r.e, h.e))
  }

  // ---- Rotating registers ----

  /** The registers before round `t`, which stand in the array turned by `t` places. */
  function RegistersAt(s: seq<word>, t: nat): Registers
    requires |s| == 5
  {
    Registers(s[(4 + t) % 5], s[(3 + t) % 5], s[(2 + t) % 5], s[(1 + t) % 5], s[t % 5])
  }

  /** What a round adds to a register. */
  function Increased(e: word, f: word, w: word, k: word, r: word): word { e + (f + w + k + r) }

  /** What a round does to the array. */
  function Turned(s: seq<word>, t: nat, f: word, w: word, k: word): (r: seq<word>)
    requires |s| == 5
    ensures |r| == 5
  {
    s[t % 5 := Increased(s[t % 5], f, w, k, Rol(s[(4 + t) % 5], 5))][(3 + t) % 5 := Rol(s[(3 + t) % 5], 30)]
  }

  lemma AddCommutes(x: word, y: word)
    ensures Add(x, y) == Add(y, x)
  {
  }

  lemma SumInAnyOrder(e: word, f: word, w: word, k: word, r: word)
    ensures Increased(e, f, w, k, r) == Sum(r, f, e, k, w)
  {
  }

  lemma TurnedIsRound(s: seq<word>, t: nat, w: word)
    requires |s| == 5
    ensures var r := RegistersAt(s, t);
            RegistersAt(Turned(s, t, F(t, r.b, r.c, r.d), w, K(t)), t + 1) == Round(t, r, w)
  {
    hide Sum, Increased, Rol, F, K;
    var r := RegistersAt(s, t);
    SumInAnyOrder(r.e, F(t, r.b, r.c, r.d), w, K(t), Rol(r.a, 5));
    Places(t);
  }

  /** The five places of the array, and where they are in the next round. */
  lemma Places(t: nat)
    ensures var p := t % 5;
            && (4 + (t + 1)) % 5 == p && (3 + (t + 1)) % 5 == (4 + t) % 5 && (2 + (t + 1)) % 5 == (3 + t) % 5
            && (1 + (t + 1)) % 5 == (2 + t) % 5 && (t + 1) % 5 == (1 + t) % 5
            && (4 + t) % 5 != p && (3 + t) % 5 != p && (2 + t) % 5 != p && (1 + t) % 5 != p
            && (4 + t) % 5 != (3 + t) % 5 && (3 + t) % 5 != (2 + t) % 5 && (3 + t) % 5 != (1 + t) % 5
  {
  }

  lemma ChooseFast(x: word, y: word, z: word)
    ensures (x & (y ^ z)) ^ z == Ch(x, y, z)
  {
  }

  lemma MajorityFast(x: word, y: word, z: word)
    ensures ((x | y) & z) | (x & y) == Maj(x, y, z)
  {
  }

  // ---- The schedule in sixteen words ----

  /** The array holds the sixteen words of the schedule up to the one before `t`, each at its index modulo 16. */
  ghost predicate Window(b: seq<word>, m: seq<word>, t: nat)
    requires |b| == 16 && |m| == 16
  {
    forall k: nat :: (if t < 16 then k < 16 else t - 16 <= k < t) ==> b[k % 16] == Schedule(m, k)
  }

  lemma WindowStart(m: seq<word>)
    requires |m| == 16
    ensures Window(m, m, 0)
  {
  }

  /** Until round 16 the words of the message are used as they are. */
  lemma WindowEarly(b: seq<word>, m: seq<word>, t: nat)
    requires |b| == 16 && |m| == 16 && t < 16 && Window(b, m, t)
    ensures b[t] == Schedule(m, t) && Window(b, m, t + 1)
  {
    hide Schedule;
    assert b[t % 16] == Schedule(m, t);
  }

  function Blk(b: seq<word>, i: nat): word
    requires |b| == 16 && i < 16
  {
    Mixed(b[(i + 13) % 16], b[(i + 8) % 16], b[(i + 2) % 16], b[i])
  }

  /** Later the word of sixteen rounds ago makes room for the next one. */
  lemma WindowLater(b: seq<word>, m: seq<word>, t: nat)
    requires |b| == 16 && |m| == 16 && 16 <= t && Window(b, m, t)
    ensures Blk(b, t % 16) == Schedule(m, t) && Window(b[t % 16 := Blk(b, t % 16)], m, t + 1)
  {
    hide Schedule, Mixed;
    Residues(t);
    assert b[(t - 3) % 16] == Schedule(m, t - 3) && b[(t - 8) % 16] == Schedule(m, t - 8)
           && b[(t - 14) % 16] == Schedule(m, t - 14) && b[(t - 16) % 16] == Schedule(m, t - 16);
    ScheduleLater(m, t);
    forall k: nat | t + 1 - 16 <= k < t + 1 ensures b[t % 16 := Blk(b, t % 16)][k % 16] == Schedule(m, k) {
      if k < t {
        OtherResidue(k, t);
        assert b[k % 16] == Schedule(m, k);
      }
    }
  }

  lemma Residues(t: nat)
    requires t >= 16
    ensures var i := t % 16;
            (t - 3) % 16 == (i + 13) % 16 && (t - 8) % 16 == (i + 8) % 16
            && (t - 14) % 16 == (i + 2) % 16 && (t - 16) % 16 == i
  {
    var q, i := t / 16, t % 16;
    assert t == 16 * q + i;
    Remainder(q - 1, i);
    Remainder(if i < 3 then q - 1 else q, if i < 3 then i + 13 else i - 3);
    Remainder(if i < 8 then q - 1 else q, if i < 8 then i + 8 else i - 8);
    Remainder(if i < 14 then q - 1 else q, if i < 14 then i + 2 else i - 14);
  }

  lemma Remainder(q: int, r: nat)
    requires r < 16
    ensures (16 * q + r) % 16 == r
  {
  }

  lemma OtherResidue(k: nat, t: nat)
    requires t < k + 16 && k < t
    ensures k % 16 != t % 16
  {
  }

  lemma ScheduleLater(m: seq<word>, t: nat)
    requires |m| == 16 && t >= 16
    ensures Schedule(m, t) == Mixed(Schedule(m, t - 3), Schedule(m, t - 8), Schedule(m, t - 14), Schedule(m, t - 16))
  {
  }

  // ---- The rounds in place ----

  /** The state of the computation before round `t`. */
  ghost predicate Before(a: seq<word>, b: seq<word>, m: seq<word>, h: Registers, t: nat)
    requires |a| == 5 && |b| == 16 && |m| == 16
  {
    RegistersAt(a, t) == Rounds(m, h, t) && Window(b, m, t)
  }

  /** Turning the array with the right word and function is one round; `i` is where the round stands modulo 5. */
  lemma RoundInPlace(s: seq<word>, m: seq<word>, h: Registers, t: nat, i: nat, f: word, w: word, k: word)
    requires |s| == 5 && |m| == 16 && RegistersAt(s, t) == Rounds(m, h, t) && i % 5 == t % 5
    requires f == F(t, s[(3 + i) % 5], s[(2 + i) % 5], s[(1 + i) % 5]) && w == Schedule(m, t) && k == K(t)
    ensures RegistersAt(Turned(s, i, f, w, k), t + 1) == Rounds(m, h, t + 1)
  {
    hide F, K, Schedule, Round, Rol, Increased;
    SamePlaces(i, t);
    assert Turned(s, i, f, w, k) == Turned(s, t, f, w, k);
    TurnedAgain(s, t, f, w, k);
  }

  lemma SamePlaces(i: nat, t: nat)
    requires i % 5 == t % 5
    ensures (4 + i) % 5 == (4 + t) % 5 && (3 + i) % 5 == (3 + t) % 5 && (2 + i) % 5 == (2 + t) % 5
            && (1 + i) % 5 == (1 + t) % 5
  {
    Place(4, i);
    Place(4, t);
    Place(3, i);
    Place(3, t);
    Place(2, i);
    Place(2, t);
    Place(1, i);
    Place(1, t);
  }

  lemma Place(k: nat, t: nat)
    requires k < 5
    ensures (k + t) % 5 == if k + t % 5 < 5 then k + t % 5 else k + t % 5 - 5
  {
    var q, r := t / 5, t % 5;
    assert t == 5 * q + r;
    Fifth(if k + r < 5 then q else q + 1, if k + r < 5 then k + r else k + r - 5);
  }

  lemma Fifth(q: nat, r: nat)
    requires r < 5
    ensures (5 * q + r) % 5 == r
  {
  }

  lemma TurnedAgain(s: seq<word>, t: nat, f: word, w: word, k: word)
    requires |s| == 5 && f == F(t, s[(3 + t) % 5], s[(2 + t) % 5], s[(1 + t) % 5]) && k == K(t)
    ensures RegistersAt(Turned(s, t, f, w, k), t + 1) == Round(t, RegistersAt(s, t), w)
  {
    hide F, K, Turned, Round;
    TurnedIsRound(s, t, w);
  }

  /** The two assignments every case ends with. */
  method Turn(i: nat, a: array<word>, f: word, w: word, k: word)
    requires a.Length == 5
    modifies a
    ensures a[..] == Turned(old(a[..]), i, f, w, k)
  {
    hide Rol, Increased;
    Places(i);
    a[i % 5] := Increased(a[i % 5], f, w, k, Rol(a[(4 + i) % 5], 5));
    a[(3 + i) % 5] := Rol(a[(3 + i) % 5], 30);
  }

  /** Rounds 0 to 15. */
  method Sha1Loop1(i: nat, a: array<word>, b: array<word>, ghost m: seq<word>, ghost h: Registers)
    requires a.Length == 5 && b.Length == 16 && a != b && |m| == 16 && i < 16 && Before(a[..], b[..], m, h, i)
    modifies a
    ensures Before(a[..], b[..], m, h, i + 1)
  {
    hide Turned, Schedule, Rounds, Window, Ch, RegistersAt;
    WindowEarly(b[..], m, i);
    ChooseFast(a[(3 + i) % 5], a[(2 + i) % 5], a[(1 + i) % 5]);
    var f := (a[(3 + i) % 5] & (a[(2 + i) % 5] ^ a[(1 + i) % 5])) ^ a[(1 + i) % 5];
    RoundInPlace(a[..], m, h, i, i, f, b[i], 0x5a827999);
    Turn(i, a, f, b[i], 0x5a827999);
  }

  /** Rounds 16 to 19. */
  method Sha1Loop2(i: nat, a: array<word>, b: array<word>, ghost m: seq<word>, ghost h: Registers)
    requires a.Length == 5 && b.Length == 16 && a != b && |m| == 16 && i < 4 && Before(a[..], b[..], m, h, 16 + i)
    modifies a, b
    ensures Before(a[..], b[..], m, h, 17 + i)
  {
    hide Turned, Schedule, Rounds, Window, Ch, RegistersAt, Blk;
    NextWord(b[..], m, 16 + i, i);
    b[i] := Blk(b[..], i);
    ChooseFast(a[(4 + i) % 5], a[(3 + i) % 5], a[(2 + i) % 5]);
    var f := (a[(4 + i) % 5] & (a[(3 + i) % 5] ^ a[(2 + i) % 5])) ^ a[(2 + i) % 5];
    RoundInPlace(a[..], m, h, 16 + i, 1 + i, f, b[i], 0x5a827999);
    Turn(1 + i, a, f, b[i], 0x5a827999);
  }

  /** Rounds 20 to 39. */
  method Sha1Loop3(i: nat, a: array<word>, b: array<word>, ghost m: seq<word>, ghost h: Registers)
    requires a.Length == 5 && b.Length == 16 && a != b && |m| == 16 && i < 20 && Before(a[..], b[..], m, h, 20 + i)
    modifies a, b
    ensures Before(a[..], b[..], m, h, 21 + i)
  {
    hide Turned, Schedule, Rounds, Window, Parity, RegistersAt, Blk;
    NextWord(b[..], m, 20 + i, (i + 4) % 16);
    b[(i + 4) % 16] := Blk(b[..], (i + 4) % 16);
    var f := Parity(a[(3 + i) % 5], a[(2 + i) % 5], a[(1 + i) % 5]);
    RoundInPlace(a[..], m, h, 20 + i, i, f, b[(i + 4) % 16], 0x6ed9eba1);
    Turn(i, a, f, b[(i + 4) % 16], 0x6ed9eba1);
  }

  /** Rounds 40 to 59. */
  method Sha1Loop4(i: nat, a: array<word>, b: array<word>, ghost m: seq<word>, ghost h: Registers)
    requires a.Length == 5 && b.Length == 16 && a != b && |m| == 16 && i < 20 && Before(a[..], b[..], m, h, 40 + i)
    modifies a, b
    ensures Before(a[..], b[..], m, h, 41 + i)
  {
    hide Turned, Schedule, Rounds, Window, Maj, RegistersAt, Blk;
    NextWord(b[..], m, 40 + i, (i + 8) % 16);
    b[(i + 8) % 16] := Blk(b[..], (i + 8) % 16);
    MajorityFast(a[(3 + i) % 5], a[(2 + i) % 5], a[(1 + i) % 5]);
    var f := ((a[(3 + i) % 5] | a[(2 + i) % 5]) & a[(1 + i) % 5]) | (a[(3 + i) % 5] & a[(2 + i) % 5]);
    RoundInPlace(a[..], m, h, 40 + i, i, f, b[(i + 8) % 16], 0x8f1bbcdc);
    Turn(i, a, f, b[(i + 8) % 16], 0x8f1bbcdc);
  }

  /** Rounds 60 to 79. */
  method Sha1Loop5(i: nat, a: array<word>, b: array<word>, ghost m: seq<word>, ghost h: Registers)
    requires a.Length == 5 && b.Length == 16 && a != b && |m| == 16 && i < 20 && Before(a[..], b[..], m, h, 60 + i)
    modifies a, b
    ensures Before(a[..], b[..], m, h, 61 + i)
  {
    hide Turned, Schedule, Rounds, Window, Parity, RegistersAt, Blk;
    NextWord(b[..], m, 60 + i, (i + 12) % 16);
    b[(i + 12) % 16] := Blk(b[..], (i + 12) % 16);
    var f := Parity(a[(3 + i) % 5], a[(2 + i) % 5], a[(1 + i) % 5]);
    RoundInPlace(a[..], m, h, 60 + i, i, f, b[(i + 12) % 16], 0xca62c1d6);
    Turn(i, a, f, b[(i + 12) % 16], 0xca62c1d6);
  }

  /** The next word of the schedule, wherever it goes. */
  lemma NextWord(b: seq<word>, m: seq<word>, t: nat, p: nat)
    requires |b| == 16 && |m| == 16 && t >= 16 && Window(b, m, t) && p < 16 && p == t % 16
    ensures Window(b[p := Blk(b, p)], m, t + 1) && Blk(b, p) == Schedule(m, t)
  {
    hide Window, Blk, Schedule;
    WindowLater(b, m, t);
  }

  /** One more block, in place: the hash value is updated and the block used up. */
  method Sha1Block(hash: array<word>, b: array<word>)
    requires hash.Length == 5 && b.Length == 16 && hash != b
    modifies hash, b
    ensures Held(hash[..]) == Compress(old(b[..]), Held(old(hash[..])))
  {
    hide Before, Compress, Held, Schedule;
    ghost var m, h := b[..], Held(hash[..]);
    HeldIs(hash[..]);
    var a := new word[5][hash[4], hash[3], hash[2], hash[1], hash[0]];
    RoundsStart(a[..], m, h);
    for i := 0 to 16
      invariant hash[..] == old(hash[..]) && Before(a[..], b[..], m, h, i)
    {
      Sha1Loop1(i, a, b, m, h);
    }
    for i := 0 to 4
      invariant hash[..] == old(hash[..]) && Before(a[..], b[..], m, h, 16 + i)
    {
      Sha1Loop2(i, a, b, m, h);
    }
    for i := 0 to 20
      invariant hash[..] == old(hash[..]) && Before(a[..], b[..], m, h, 20 + i)
    {
      Sha1Loop3(i, a, b, m, h);
    }
    for i := 0 to 20
      invariant hash[..] == old(hash[..]) && Before(a[..], b[..], m, h, 40 + i)
    {
      Sha1Loop4(i, a, b, m, h);
    }
    for i := 0 to 20
      invariant hash[..] == old(hash[..]) && Before(a[..], b[..], m, h, 60 + i)
    {
      Sha1Loop5(i, a, b, m, h);
    }
    Fold(hash, a, b[..], m, h);
  }

  /** The hash value in the order of the array. */
  function Held(s: seq<word>): Registers
    requires |s| == 5
  {
    Registers(s[0], s[1], s[2], s[3], s[4])
  }

  lemma HeldIs(s: seq<word>)
    requires |s| == 5
    ensures Held(s) == Registers(s[0], s[1], s[2], s[3], s[4])
  {
  }

  lemma RoundsStart(a: seq<word>, m: seq<word>, h: Registers)
    requires |a| == 5 && |m| == 16 && a == [h.e, h.d, h.c, h.b, h.a]
    ensures Before(a, m, m, h, 0)
  {
    hide Schedule;
    WindowStart(m);
  }

  /** Adds the registers to the hash value. */
  method Fold(hash: array<word>, a: array<word>, ghost b: seq<word>, ghost m: seq<word>, ghost h: Registers)
    requires hash.Length == 5 && a.Length == 5 && hash != a && |b| == 16 && |m| == 16 && h == Held(hash[..])
    requires Before(a[..], b, m, h, 80)
    modifies hash
    ensures Held(hash[..]) == Compress(m, h)
  {
    hide Rounds, Add, Window;
    hash[0] := Add(hash[0], a[4]);
    hash[1] := Add(hash[1], a[3]);
    hash[2] := Add(hash[2], a[2]);
    hash[3] := Add(hash[3], a[1]);
    hash[4] := Add(hash[4], a[0]);
    AddCommutes(h.a, a[4]);
    AddCommutes(h.b, a[3]);
    AddCommutes(h.c, a[2]);
    AddCommutes(h.d, a[1]);
    AddCommutes(h.e, a[0]);
  }
}
