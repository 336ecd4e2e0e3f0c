/** The filter in front of the header list. */
module BloomFilters {
  import opened Bytes

  /** `char` is signed. */
  function Signed(b: byte): (n: int)
    ensures -128 <= n < 128
  {
    if Value(b) < 128 then Value(b) else Value(b) - 256
  }

  function Hash1(key: seq<byte>): (h: nat)
    requires key != []
    ensures h < 512
  {
    (Signed(key[|key| - 1]) - 8 * |key|) % 512
  }

  function Hash2(key: seq<byte>): (h: nat)
    requires key != []
    ensures h < 512
  {
    (Signed(key[0]) + 16 * |key|) % 512
  }

  function Hash3(key: seq<byte>): (h: nat)
    requires |key| >= 2
    ensures h < 512
  {
    (Signed(key[|key| - 2]) - 97 - 32 * |key|) % 512
  }

  /** The bits that stand for a key. */
  function Bits(key: seq<byte>): (s: set<nat>)
    requires key != []
    ensures forall i :: i in s ==> i < 512
  {
    {Hash1(key), Hash2(key)} + if |key| >= 2 then {Hash3(key)} else {}
  }

  /** A bit stands for one of the keys. */
  ghost predicate Stands(keys: set<seq<byte>>, i: nat) {
    exists k :: k in keys && k != [] && i in Bits(k)
  }

  class BloomFilter {
    const filter: array<bool>

    /** The keys that have been added. */
    ghost var added: set<seq<byte>>

    /** Exactly the bits are set that stand for a key that has been added. */
    ghost predicate Valid()
      reads this, filter
    {
      && filter.Length == 512 && [] !in added
      && forall i :: 0 <= i < 512 ==> (filter[i] <==> Stands(added, i))
    }

    constructor ()
      ensures Valid() && added == {} && fresh(filter)
    {
      filter := new bool[512](_ => false);
      added := {};
    }

    /**
     True if and only if the keys that have been added leave no bit of this one open, so never false of one of them.
     */
    method MightHave(key: seq<byte>) returns (r: bool)
      requires Valid() && key != []
      ensures r <==> forall i :: i in Bits(key) ==> Stands(added, i)
      ensures key in added ==> r
    {
      hide Hash1, Hash2, Hash3, Stands;
      r := filter[Hash1(key)] && filter[Hash2(key)] && (|key| < 2 || filter[Hash3(key)]);
      StandsForItself(added, key);
    }

    /** What has been added once is found ever after: there are no false negatives. */
    method Add(key: seq<byte>)
      requires Valid() && key != []
      modifies `added, filter
      ensures Valid() && added == old(added) + {key}
    {
      hide Hash1, Hash2, Hash3, Stands, Bits;
      SetsItsBits(added, key);
      SetBits(key);
      added := added + {key};
    }

    method SetBits(key: seq<byte>)
      requires filter.Length == 512 && key != []
      modifies filter
      ensures forall i :: 0 <= i < 512 ==> filter[i] == (old(filter[i]) || i in Bits(key))
    {
      hide Hash1, Hash2, Hash3;
      filter[Hash1(key)] := true;
      filter[Hash2(key)] := true;
      if |key| >= 2 {
        filter[Hash3(key)] := true;
      }
    }
  }

  lemma StandsForItself(keys: set<seq<byte>>, key: seq<byte>)
    requires key != []
    ensures key in keys ==> forall i :: i in Bits(key) ==> Stands(keys, i)
  {
  }

  lemma SetsItsBits(keys: set<seq<byte>>, key: seq<byte>)
    requires key != []
    ensures forall i: nat :: Stands(keys + {key}, i) <==> Stands(keys, i) || i in Bits(key)
  {
    hide Bits;
    forall i: nat ensures Stands(keys + {key}, i) <==> Stands(keys, i) || i in Bits(key) {
      if Stands(keys, i) {
        var k :| k in keys && k != [] && i in Bits(k);
        assert k in keys + {key};
      }
      if i in Bits(key) {
        assert key in keys + {key};
      }
    }
  }
}
