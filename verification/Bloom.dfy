/** Bloom filters: double hashing over a bit array, with the program's 32-bit wrapping arithmetic. */
module Bloom {
  import opened ByteStrings

  type Word = x: int | 0 <= x < 0x1_0000_0000

  // ----- hashing ------------------------------------------------------------------------------

  function Xor(a: Word, b: Byte): Word {
    ((a as bv32) ^ (b as bv32)) as int
  }

  function HashFrom(data: Bytes, h: Word): Word {
    if data == [] then (h * 0x9E37_79B1) % U32_LIMIT
    else HashFrom(data[1..], Xor((h * 0x0001_9360) % U32_LIMIT, data[0]))
  }

  /** `bloom_hash`: multiply and xor, wrapping at 32 bits. */
  function BloomHash(data: Bytes): Word {
    HashFrom(data, |data| % U32_LIMIT)
  }

  method ComputeHash(data: Bytes) returns (h: Word)
    ensures h == BloomHash(data)
  {
    h := |data| % U32_LIMIT;
    for i := 0 to |data|
      invariant HashFrom(data[i..], h) == BloomHash(data)
    {
      h := Xor((h * 0x0001_9360) % U32_LIMIT, data[i]);
      assert data[i..][1..] == data[i + 1..];
    }
    h := (h * 0x9E37_79B1) % U32_LIMIT;
  }

  /** The hash of the empty string and of "a". */
  lemma HashVectors()
    ensures BloomHash([]) == 0 && BloomHash([97]) == 4073266353
  {
    hide Xor;
    XorVector();
    OneByte(97, 1);
  }

  lemma OneByte(b: Byte, h: Word)
    ensures HashFrom([b], h) == (Xor((h * 0x0001_9360) % U32_LIMIT, b) * 0x9E37_79B1) % U32_LIMIT
  {
    hide Xor;
    assert [b][1..] == [];
  }

  lemma XorVector()
    ensures Xor(0x19360, 97) == 103169
  {
    assert (0x19360 as bv32) ^ (97 as bv32) == 103169 as bv32;
  }

  /** The distance between consecutive probes: the high bits of the hash, at least one. */
  function Delta(h: Word): Word {
    if h / 0x2_0000 > 1 then h / 0x2_0000 else 1
  }

  /** The hash behind probe `i`, wrapping at 32 bits. */
  function Probe(key: Bytes, i: nat): Word {
    if i == 0 then BloomHash(key) else (Probe(key, i - 1) + Delta(BloomHash(key))) % U32_LIMIT
  }

  // ----- bits ---------------------------------------------------------------------------------

  predicate TestBit(b: nat, i: nat) {
    if i == 0 then b % 2 == 1 else TestBit(b / 2, i - 1)
  }

  /** `b | (1 << i)`. */
  function SetBit(b: nat, i: nat): nat {
    if i == 0 then (if b % 2 == 1 then b else b + 1) else b % 2 + 2 * SetBit(b / 2, i - 1)
  }

  function Pow2(n: nat): nat {
    if n == 0 then 1 else 2 * Pow2(n - 1)
  }

  lemma {:induction false} SetBitBound(b: nat, i: nat, n: nat)
    requires b < Pow2(n) && i < n
    ensures SetBit(b, i) < Pow2(n)
  {
    if i > 0 {
      SetBitBound(b / 2, i - 1, n - 1);
    }
  }

  /** Setting a bit sets it and leaves every other bit alone. */
  lemma {:induction false} SetBitSets(b: nat, i: nat, j: nat)
    ensures TestBit(SetBit(b, i), j) <==> i == j || TestBit(b, j)
  {
    if i > 0 && j > 0 {
      SetBitSets(b / 2, i - 1, j - 1);
    }
  }

  function SetByteBit(b: Byte, i: nat): Byte
    requires i < 8
  {
    assert Pow2(8) == 256 by {
      assert Pow2(4) == 16;
    }
    SetBitBound(b, i, 8);
    SetBit(b, i)
  }

  predicate BitAt(bits: Bytes, pos: nat)
    requires pos < 8 * |bits|
  {
    TestBit(bits[pos / 8], pos % 8)
  }

  function WithBit(bits: Bytes, pos: nat): (r: Bytes)
    requires pos < 8 * |bits|
    ensures |r| == |bits|
  {
    bits[pos / 8 := SetByteBit(bits[pos / 8], pos % 8)]
  }

  lemma WithBitSets(bits: Bytes, pos: nat, other: nat)
    requires pos < 8 * |bits| && other < 8 * |bits|
    ensures BitAt(WithBit(bits, pos), other) <==> pos == other || BitAt(bits, other)
  {
    SetBitSets(bits[pos / 8], pos % 8, other % 8);
  }

  // ----- the filter ---------------------------------------------------------------------------

  /** The number of addressable bits: the byte count times eight, cast to u32. */
  function BitCount(bits: Bytes): (n: nat)
    ensures n <= 8 * |bits|
  {
    (8 * |bits|) % U32_LIMIT
  }

  function InsertProbes(bits: Bytes, key: Bytes, i: nat, k: nat): (r: Bytes)
    requires BitCount(bits) != 0 && i <= k
    ensures |r| == |bits|
    decreases k - i
  {
    if i == k then bits else InsertProbes(WithBit(bits, Probe(key, i) % BitCount(bits)), key, i + 1, k)
  }

  predicate HasProbes(bits: Bytes, key: Bytes, i: nat, k: nat)
    requires BitCount(bits) != 0 && i <= k
    decreases k - i
  {
    i == k || (BitAt(bits, Probe(key, i) % BitCount(bits)) && HasProbes(bits, key, i + 1, k))
  }

  /** The bit array after inserting a key; without addressable bits nothing happens. */
  function Inserted(bits: Bytes, k: nat, key: Bytes): (r: Bytes)
    ensures |r| == |bits|
  {
    if BitCount(bits) == 0 then bits else InsertProbes(bits, key, 0, k)
  }

  function InsertedAll(bits: Bytes, k: nat, keys: seq<Bytes>): (r: Bytes)
    ensures |r| == |bits|
    decreases |keys|
  {
    if keys == [] then bits else InsertedAll(Inserted(bits, k, keys[0]), k, keys[1..])
  }

  /** The closed form of the probes: each adds the key's distance once more, wrapping at 32 bits. */
  lemma {:induction false} ProbeIs(key: Bytes, i: nat)
    ensures var h := BloomHash(key);
            Probe(key, i) == (h + i * (if h >= 0x4_0000 then h / 0x2_0000 else 1)) % U32_LIMIT
  {
    if i > 0 {
      var h, d := BloomHash(key), Delta(BloomHash(key));
      ProbeIs(key, i - 1);
      WrappedSum(h + (i - 1) * d, d);
      assert h + (i - 1) * d + d == h + i * d;
    }
  }

  lemma WrappedSum(a: nat, b: nat)
    ensures (a % U32_LIMIT + b) % U32_LIMIT == (a + b) % U32_LIMIT
  {
  }

  /** The query; without addressable bits it denies everything. */
  predicate MayContain(bits: Bytes, k: nat, key: Bytes) {
    BitCount(bits) != 0 && HasProbes(bits, key, 0, k)
  }

  // ----- sizing -------------------------------------------------------------------------------

  lemma {:induction false} ZeroBits(i: nat)
    ensures !TestBit(0, i)
  {
    if i > 0 {
      ZeroBits(i - 1);
    }
  }

  lemma NothingIsSet()
    ensures forall i: nat :: !TestBit(0, i)
  {
    forall i: nat ensures !TestBit(0, i) { ZeroBits(i); }
  }

  /** The fewest bytes that hold so many bits for each key, and no fewer than 64 bits; none is set. */
  function EmptyBits(numKeys: nat, bitsPerKey: nat): (bits: Bytes)
    ensures numKeys * bitsPerKey <= 8 * |bits| && 8 <= |bits|
    ensures |bits| == 8 || 8 * |bits| < numKeys * bitsPerKey + 8
    ensures forall pos :: 0 <= pos < 8 * |bits| ==> !BitAt(bits, pos)
  {
    NothingIsSet();
    var total := if numKeys * bitsPerKey > 64 then numKeys * bitsPerKey else 64;
    seq((total + 7) / 8, _ => 0)
  }

  /** The filter can be probed unless its size, in whole bytes, is a multiple of 2^32 bits. */
  lemma SizeIsUsableIff(numKeys: nat, bitsPerKey: nat)
    ensures BitCount(EmptyBits(numKeys, bitsPerKey)) != 0
            <==> numKeys * bitsPerKey <= 64 || ((numKeys * bitsPerKey + 7) / 8 * 8) % U32_LIMIT != 0
  {
  }

  class BloomFilter {
    var bits: Bytes
    var k: Byte

    /** An empty filter; `ensure_capacity` gives it its zeroed bits. */
    constructor (k: Byte)
      ensures bits == [] && this.k == k
    {
      bits := [];
      this.k := k;
    }

    method EnsureCapacity(numKeys: nat, bitsPerKey: nat)
      modifies this
      ensures k == old(k)
      ensures bits == EmptyBits(numKeys, bitsPerKey)
    {
      var total := if numKeys * bitsPerKey > 64 then numKeys * bitsPerKey else 64;
      bits := seq((total + 7) / 8, _ => 0);
    }

    method Insert(key: Bytes)
      modifies this
      ensures k == old(k)
      ensures bits == Inserted(old(bits), k, key)
    {
      var n := BitCount(bits);
      if n == 0 {
        return;
      }
      var hash := ComputeHash(key);
      var h, delta := hash, Delta(hash);
      for i := 0 to k
        invariant k == old(k) && |bits| == |old(bits)| && i <= k
        invariant h == Probe(key, i)
        invariant InsertProbes(bits, key, i, k) == Inserted(old(bits), k, key)
      {
        bits := WithBit(bits, h % n);
        h := (h + delta) % U32_LIMIT;
      }
    }

    method Query(key: Bytes) returns (maybe: bool)
      ensures maybe == MayContain(bits, k, key)
    {
      var n := BitCount(bits);
      if n == 0 {
        return false;
      }
      var hash := ComputeHash(key);
      var h, delta := hash, Delta(hash);
      for i := 0 to k
        invariant i <= k
        invariant h == Probe(key, i)
        invariant HasProbes(bits, key, i, k) == MayContain(bits, k, key)
      {
        if !BitAt(bits, h % n) {
          return false;
        }
        h := (h + delta) % U32_LIMIT;
      }
      return true;
    }
  }

  /** `finish`: the bits followed by the probe count. */
  function Finish(bits: Bytes, k: Byte): Bytes {
    bits + [k]
  }

  /** `from_bytes`: the last byte is the probe count. */
  function FromBytes(data: Bytes): Option<(Bytes, Byte)> {
    if data == [] then None else Some((data[..|data| - 1], data[|data| - 1]))
  }

  // ----- no false negatives -------------------------------------------------------------------

  ghost predicate BitsKept(a: Bytes, b: Bytes) {
    |a| == |b| && forall pos :: 0 <= pos < 8 * |a| && BitAt(a, pos) ==> BitAt(b, pos)
  }

  lemma {:induction false} ProbesKeepBits(bits: Bytes, key: Bytes, i: nat, k: nat)
    requires BitCount(bits) != 0 && i <= k
    ensures BitsKept(bits, InsertProbes(bits, key, i, k))
    decreases k - i
  {
    if i < k {
      var pos := Probe(key, i) % BitCount(bits);
      ProbesKeepBits(WithBit(bits, pos), key, i + 1, k);
      forall other | 0 <= other < 8 * |bits| && BitAt(bits, other) ensures BitAt(WithBit(bits, pos), other) {
        WithBitSets(bits, pos, other);
      }
    }
  }

  lemma {:induction false} InsertedHasProbes(bits: Bytes, key: Bytes, i: nat, k: nat)
    requires BitCount(bits) != 0 && i <= k
    ensures HasProbes(InsertProbes(bits, key, i, k), key, i, k)
    decreases k - i
  {
    if i < k {
      var pos := Probe(key, i) % BitCount(bits);
      WithBitSets(bits, pos, pos);
      ProbesKeepBits(WithBit(bits, pos), key, i + 1, k);
      InsertedHasProbes(WithBit(bits, pos), key, i + 1, k);
    }
  }

  lemma {:induction false} HasProbesKept(a: Bytes, b: Bytes, key: Bytes, i: nat, k: nat)
    requires BitCount(a) != 0 && i <= k && BitsKept(a, b)
    requires HasProbes(a, key, i, k)
    ensures HasProbes(b, key, i, k)
    decreases k - i
  {
    if i < k {
      HasProbesKept(a, b, key, i + 1, k);
    }
  }

  lemma {:induction false} InsertionsKeep(bits: Bytes, k: nat, keys: seq<Bytes>, key: Bytes)
    requires MayContain(bits, k, key)
    ensures MayContain(InsertedAll(bits, k, keys), k, key)
    decreases |keys|
  {
    if keys != [] {
      ProbesKeepBits(bits, keys[0], 0, k);
      HasProbesKept(bits, Inserted(bits, k, keys[0]), key, 0, k);
      InsertionsKeep(Inserted(bits, k, keys[0]), k, keys[1..], key);
    }
  }

  lemma {:induction false} InsertedKeysAnswer(bits: Bytes, k: nat, keys: seq<Bytes>, j: nat)
    requires BitCount(bits) != 0 && j < |keys|
    ensures MayContain(InsertedAll(bits, k, keys), k, keys[j])
    decreases |keys|
  {
    var next := Inserted(bits, k, keys[0]);
    if j == 0 {
      InsertedHasProbes(bits, keys[0], 0, k);
      InsertionsKeep(next, k, keys[1..], keys[0]);
    } else {
      InsertedKeysAnswer(next, k, keys[1..], j - 1);
    }
  }

  /**
   * No false negatives, exactly when the bit count survives its cast to u32: every key inserted, in any
   * order and any number, is answered "maybe" by the filter rebuilt from the serialised bytes.
   */
  lemma NoFalseNegatives(bits: Bytes, k: Byte, keys: seq<Bytes>)
    requires keys != []
    ensures var rebuilt := FromBytes(Finish(InsertedAll(bits, k, keys), k));
            && rebuilt.Some?
            && ((forall j :: 0 <= j < |keys| ==> MayContain(rebuilt.value.0, rebuilt.value.1, keys[j]))
                <==> BitCount(bits) != 0)
  {
    var after := InsertedAll(bits, k, keys);
    var data := Finish(after, k);
    assert data[..|data| - 1] == after;
    if BitCount(bits) != 0 {
      forall j | 0 <= j < |keys| ensures MayContain(after, k, keys[j]) {
        InsertedKeysAnswer(bits, k, keys, j);
      }
    } else {
      assert !MayContain(after, k, keys[0]);
    }
  }

  // ----- exactly the bits of the inserted keys ------------------------------------------------

  /** The bit that probe `i` of the key falls on among `n`. */
  function ProbedBit(key: Bytes, i: nat, n: nat): (pos: nat)
    requires n > 0
    ensures pos < n
  {
    Probe(key, i) % n
  }

  /** Among `n` bits, `pos` is where one of the probes `i` to `k` of the key falls. */
  ghost predicate Probed(key: Bytes, i: nat, k: nat, n: nat, pos: nat)
    requires n > 0
  {
    exists j: nat :: i <= j < k && ProbedBit(key, j, n) == pos
  }

  /** Some probe of some of the keys falls there. */
  ghost predicate ProbedByAny(keys: seq<Bytes>, k: nat, n: nat, pos: nat)
    requires n > 0
  {
    exists key :: key in keys && Probed(key, 0, k, n, pos)
  }

  lemma {:induction false} ProbesSet(bits: Bytes, key: Bytes, i: nat, k: nat, pos: nat)
    requires BitCount(bits) != 0 && i <= k && pos < 8 * |bits|
    ensures BitAt(InsertProbes(bits, key, i, k), pos) <==> BitAt(bits, pos) || Probed(key, i, k, BitCount(bits), pos)
    decreases k - i
  {
    hide Probe, BitAt, WithBit;
    if i < k {
      var first := ProbedBit(key, i, BitCount(bits));
      WithBitSets(bits, first, pos);
      ProbesSet(WithBit(bits, first), key, i + 1, k, pos);
      ProbedFirst(key, i, k, BitCount(bits), pos);
    }
  }

  lemma ProbedFirst(key: Bytes, i: nat, k: nat, n: nat, pos: nat)
    requires i < k && n > 0
    ensures Probed(key, i, k, n, pos) <==> ProbedBit(key, i, n) == pos || Probed(key, i + 1, k, n, pos)
  {
    hide ProbedBit;
  }

  lemma {:induction false} InsertionsSet(bits: Bytes, k: nat, keys: seq<Bytes>, pos: nat)
    requires BitCount(bits) != 0 && pos < 8 * |bits|
    ensures BitAt(InsertedAll(bits, k, keys), pos)
       <==> BitAt(bits, pos) || ProbedByAny(keys, k, BitCount(bits), pos)
    decreases |keys|
  {
    hide InsertProbes, BitAt, Probe, Probed;
    if keys != [] {
      ProbesSet(bits, keys[0], 0, k, pos);
      InsertionsSet(Inserted(bits, k, keys[0]), k, keys[1..], pos);
      assert forall key :: key in keys <==> key == keys[0] || key in keys[1..];
    }
  }

  lemma {:induction false} HasProbesIff(bits: Bytes, key: Bytes, i: nat, k: nat)
    requires BitCount(bits) != 0 && i <= k
    ensures HasProbes(bits, key, i, k) <==> forall j: nat :: i <= j < k ==> BitAt(bits, ProbedBit(key, j, BitCount(bits)))
    decreases k - i
  {
    hide Probe, BitAt;
    if i < k {
      assert BitAt(bits, ProbedBit(key, i, BitCount(bits))) == BitAt(bits, Probe(key, i) % BitCount(bits));
      HasProbesIff(bits, key, i + 1, k);
      hide ProbedBit;
    }
  }

  /**
   * A filter built from these keys answers "maybe" exactly to the keys all of whose probes fall on bits that
   * probes of inserted keys fell on: that is what a false positive takes.
   */
  lemma MaybeIff(numKeys: nat, bitsPerKey: nat, k: nat, keys: seq<Bytes>, key: Bytes)
    ensures var bits := InsertedAll(EmptyBits(numKeys, bitsPerKey), k, keys);
            var n := BitCount(bits);
            MayContain(bits, k, key)
            <==> n != 0 && forall i: nat :: i < k ==> ProbedByAny(keys, k, n, ProbedBit(key, i, n))
  {
    hide InsertedAll, InsertProbes, HasProbes, Probe, EmptyBits, BitAt, ProbedByAny, ProbedBit;
    var empty := EmptyBits(numKeys, bitsPerKey);
    var bits := InsertedAll(empty, k, keys);
    var n := BitCount(bits);
    if n != 0 {
      HasProbesIff(bits, key, 0, k);
      forall i: nat | i < k
        ensures BitAt(bits, ProbedBit(key, i, n)) <==> ProbedByAny(keys, k, n, ProbedBit(key, i, n))
      {
        InsertionsSet(empty, k, keys, ProbedBit(key, i, n));
      }
    }
  }
}
