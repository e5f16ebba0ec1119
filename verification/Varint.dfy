/** Variable-length integers: seven payload bits a byte, least significant group first. */
module Varints {
  import opened ByteStrings

  const MORE_BIT: nat := 0x80
  const MAX_VARINT32_LEN: nat := 5
  const MAX_VARINT64_LEN: nat := 10

  /** The encoding of `n`. */
  function Varint(n: nat): (b: Bytes)
    ensures b != []
  {
    if n < MORE_BIT then [n] else [n % MORE_BIT + MORE_BIT] + Varint(n / MORE_BIT)
  }

  function Pow128(k: nat): (p: nat)
    ensures p > 0
  {
    if k == 0 then 1 else 128 * Pow128(k - 1)
  }

  /** `encode_varint32` and `encode_varint64`: append the encoding of `value` to `buf`. */
  method EncodeVarint(buf: Bytes, value: nat) returns (out: Bytes, written: nat)
    ensures out == buf + Varint(value)
    ensures written == |Varint(value)|
  {
    out := buf;
    var v: nat := value;
    while v >= MORE_BIT
      invariant out + Varint(v) == buf + Varint(value)
    {
      out := out + [v % MORE_BIT + MORE_BIT];
      v := v / MORE_BIT;
    }
    out := out + [v];
    written := |out| - |buf|;
  }

  /**
   * The decoder from byte `i` on, with `acc` already assembled and `scale` = 128^i the weight of the
   * next payload. The accumulator is a u64, so payload bits shifted past bit 63 are lost.
   */
  function DecodeFrom(buf: Bytes, i: nat, maxLen: nat, acc: nat, scale: nat): Result<(nat, nat)>
    decreases maxLen - i
  {
    if i >= maxLen || i >= |buf| then Corrupted
    else
      var acc' := (acc + buf[i] % MORE_BIT * scale) % U64_LIMIT;
      if buf[i] < MORE_BIT then Ok((acc', i + 1))
      else DecodeFrom(buf, i + 1, maxLen, acc', scale * MORE_BIT)
  }

  function Decode(buf: Bytes, maxLen: nat): (r: Result<(nat, nat)>)
    ensures r.Ok? ==> 0 < r.value.1 <= |buf| && r.value.1 <= maxLen && r.value.0 < U64_LIMIT
  {
    DecodeConsumes(buf, 0, maxLen, 0, 1);
    DecodeFrom(buf, 0, maxLen, 0, 1)
  }

  lemma {:induction false} DecodeConsumes(buf: Bytes, i: nat, maxLen: nat, acc: nat, scale: nat)
    ensures var r := DecodeFrom(buf, i, maxLen, acc, scale);
            r.Ok? ==> i < r.value.1 <= |buf| && r.value.1 <= maxLen && r.value.0 < U64_LIMIT
    decreases maxLen - i
  {
    if i < maxLen && i < |buf| && buf[i] >= MORE_BIT {
      DecodeConsumes(buf, i + 1, maxLen, (acc + buf[i] % MORE_BIT * scale) % U64_LIMIT, scale * MORE_BIT);
    }
  }

  /** `decode_varint32`: at most five bytes, the 64-bit result cast to u32. */
  function Decode32(buf: Bytes): (r: Result<(nat, nat)>)
    ensures r.Ok? ==> r.value.0 < U32_LIMIT && 0 < r.value.1 <= |buf| && r.value.1 <= MAX_VARINT32_LEN
  {
    var p :- Decode(buf, MAX_VARINT32_LEN);
    Ok((p.0 % U32_LIMIT, p.1))
  }

  /** `decode_varint64`: at most ten bytes. */
  function Decode64(buf: Bytes): (r: Result<(nat, nat)>)
    ensures r.Ok? ==> r.value.0 < U64_LIMIT && 0 < r.value.1 <= |buf| && r.value.1 <= MAX_VARINT64_LEN
  {
    Decode(buf, MAX_VARINT64_LEN)
  }

  /** The decoding loop of `decode_varint`, proved against `Decode`. */
  method DecodeVarint(buf: Bytes, maxLen: nat) returns (r: Result<(nat, nat)>)
    ensures r == Decode(buf, maxLen)
  {
    var result: nat, scale: nat, i: nat := 0, 1, 0;
    while i < |buf| && i < maxLen
      invariant i <= maxLen || i == 0
      invariant DecodeFrom(buf, i, maxLen, result, scale) == DecodeFrom(buf, 0, maxLen, 0, 1)
      decreases maxLen - i
    {
      result := (result + buf[i] % MORE_BIT * scale) % U64_LIMIT;
      if buf[i] < MORE_BIT {
        return Ok((result, i + 1));
      }
      scale := scale * MORE_BIT;
      i := i + 1;
    }
    return Corrupted;
  }

  // ----- what the decoder makes of any bytes --------------------------------------------------

  /** The payloads of these bytes, the first one least significant. */
  function Payload(bs: Bytes): nat {
    if bs == [] then 0 else bs[0] % MORE_BIT + MORE_BIT * Payload(bs[1..])
  }

  /** Byte `k` is the first without the bit that announces another. */
  predicate EndsAt(buf: Bytes, k: nat) {
    k < |buf| && buf[k] < MORE_BIT && forall j :: 0 <= j < k ==> buf[j] >= MORE_BIT
  }

  lemma {:induction false} DecodeFromReads(buf: Bytes, i: nat, maxLen: nat, acc: nat, scale: nat)
    requires forall j :: 0 <= j < i && j < |buf| ==> buf[j] >= MORE_BIT
    ensures match DecodeFrom(buf, i, maxLen, acc, scale)
            case Corrupted => forall k :: i <= k < maxLen ==> !EndsAt(buf, k)
            case Ok(p) => i < p.1 <= maxLen && EndsAt(buf, p.1 - 1) && p.0 == (acc + Payload(buf[i..p.1]) * scale) % U64_LIMIT
    decreases maxLen - i
  {
    hide Payload, Pow128;
    if i < maxLen && i < |buf| {
      var d := buf[i] % MORE_BIT;
      if buf[i] >= MORE_BIT {
        var acc', scale' := (acc + d * scale) % U64_LIMIT, scale * MORE_BIT;
        DecodeFromReads(buf, i + 1, maxLen, acc', scale');
        var r := DecodeFrom(buf, i + 1, maxLen, acc', scale');
        if r.Ok? {
          PayloadFirst(buf, i, r.value.1);
          OneMorePayload(acc, d, scale, Payload(buf[i + 1..r.value.1]));
        }
      } else {
        PayloadFirst(buf, i, i + 1);
        NoPayload(buf, i + 1);
      }
    }
  }

  lemma PayloadFirst(buf: Bytes, i: nat, j: nat)
    requires i < j <= |buf|
    ensures Payload(buf[i..j]) == buf[i] % MORE_BIT + Payload(buf[i + 1..j]) * MORE_BIT
  {
    assert buf[i..j][1..] == buf[i + 1..j];
  }

  lemma NoPayload(buf: Bytes, i: nat)
    requires i <= |buf|
    ensures Payload(buf[i..i]) == 0
  {
  }

  lemma OneMorePayload(acc: nat, d: nat, scale: nat, more: nat)
    ensures ((acc + d * scale) % U64_LIMIT + more * (scale * MORE_BIT)) % U64_LIMIT == (acc + (d + more * MORE_BIT) * scale) % U64_LIMIT
  {
    SplitWeight(d, more, scale);
    WrappedAdd(acc + d * scale, more * (scale * MORE_BIT));
  }

  lemma WrappedAdd(a: nat, b: nat)
    ensures (a % U64_LIMIT + b) % U64_LIMIT == (a + b) % U64_LIMIT
  {
  }

  /** On any bytes, decoding reads the payloads up to the first byte that ends them, and fails if none of the first `maxLen` does. */
  lemma DecodeReads(buf: Bytes, maxLen: nat)
    ensures match Decode(buf, maxLen)
            case Corrupted => forall k :: 0 <= k < maxLen ==> !EndsAt(buf, k)
            case Ok(p) => EndsAt(buf, p.1 - 1) && p.1 <= maxLen && p.0 == Payload(buf[..p.1]) % U64_LIMIT
  {
    hide DecodeFrom, EndsAt, Payload;
    DecodeFromReads(buf, 0, maxLen, 0, 1);
    if Decode(buf, maxLen).Ok? {
      assert buf[0..Decode(buf, maxLen).value.1] == buf[..Decode(buf, maxLen).value.1];
    }
  }

  // ----- length and round trip ----------------------------------------------------------------

  lemma {:induction false} VarintLength(n: nat, k: nat)
    requires k > 0
    ensures |Varint(n)| <= k <==> n < Pow128(k)
  {
    assert Pow128(1) == 128 * Pow128(0) == 128;
    if n >= MORE_BIT {
      if k > 1 {
        VarintLength(n / MORE_BIT, k - 1);
      } else {
        assert |Varint(n)| == 1 + |Varint(n / MORE_BIT)|;
      }
    } else if k > 1 {
      Pow128Monotone(1, k);
    }
  }

  lemma {:induction false} Pow128Monotone(a: nat, b: nat)
    requires a <= b
    ensures Pow128(a) <= Pow128(b)
  {
    if a < b {
      Pow128Monotone(a, b - 1);
    }
  }

  lemma Pow128Limits()
    ensures Pow128(4) < U32_LIMIT <= Pow128(5)
    ensures Pow128(9) < U64_LIMIT <= Pow128(10)
  {
  }

  /**
   * Decoding resumes correctly in the middle: with `acc` collected so far, the bytes of `n` at
   * position `i` add `n * scale`, whatever bytes follow.
   */
  lemma {:induction false} DecodeFromEncoded(pre: Bytes, n: nat, rest: Bytes, maxLen: nat, acc: nat, scale: nat)
    requires |pre| + |Varint(n)| <= maxLen
    requires acc + n * scale < U64_LIMIT
    ensures DecodeFrom(pre + Varint(n) + rest, |pre|, maxLen, acc, scale)
         == Ok((acc + n * scale, |pre| + |Varint(n)|))
    decreases n
  {
    hide Varint, DecodeFrom;
    VarintUnrolls(pre, n, rest);
    if n >= MORE_BIT {
      var low: nat, high: nat := n % MORE_BIT, n / MORE_BIT;
      SplitWeight(low, high, scale);
      DecodeOne(pre + Varint(n) + rest, |pre|, maxLen, acc, scale, low);
      DecodeFromEncoded(pre + [low + MORE_BIT], high, rest, maxLen, acc + low * scale, scale * MORE_BIT);
    } else {
      DecodeOne(pre + Varint(n) + rest, |pre|, maxLen, acc, scale, n);
    }
  }

  /** One byte with payload `p` that the accumulator has room for. */
  lemma DecodeOne(buf: Bytes, i: nat, maxLen: nat, acc: nat, scale: nat, p: nat)
    requires i < maxLen && i < |buf| && p < MORE_BIT && (buf[i] == p || buf[i] == p + MORE_BIT)
    requires acc + p * scale < U64_LIMIT
    ensures DecodeFrom(buf, i, maxLen, acc, scale)
         == if buf[i] < MORE_BIT then Ok((acc + p * scale, i + 1))
            else DecodeFrom(buf, i + 1, maxLen, acc + p * scale, scale * MORE_BIT)
  {
    assert buf[i] % MORE_BIT == p;
    assert 0 <= acc + p * scale < U64_LIMIT by { assert p * scale >= 0; }
    assert (acc + p * scale) % U64_LIMIT == acc + p * scale;
  }

  /** The first byte of an encoding, and the rest of it. */
  lemma VarintUnrolls(pre: Bytes, n: nat, rest: Bytes)
    ensures n < MORE_BIT ==> (pre + Varint(n) + rest)[|pre|] == n && |Varint(n)| == 1
    ensures n >= MORE_BIT ==> (pre + Varint(n) + rest)[|pre|] == n % MORE_BIT + MORE_BIT
    ensures n >= MORE_BIT ==> pre + Varint(n) + rest == (pre + [n % MORE_BIT + MORE_BIT]) + Varint(n / MORE_BIT) + rest
    ensures n >= MORE_BIT ==> |Varint(n)| == 1 + |Varint(n / MORE_BIT)|
  {
  }

  lemma SplitWeight(low: nat, high: nat, scale: nat)
    ensures (low + high * MORE_BIT) * scale == low * scale + high * (scale * MORE_BIT)
    ensures low * scale >= 0 && high * (scale * MORE_BIT) >= 0
  {
  }

  /** Decoding an encoded u32 returns it and its length, whatever follows it in the buffer. */
  lemma RoundTrip32(n: nat, rest: Bytes)
    requires n < U32_LIMIT
    ensures Decode32(Varint(n) + rest) == Ok((n, |Varint(n)|))
    ensures |Varint(n)| <= MAX_VARINT32_LEN
  {
    Pow128Limits();
    VarintLength(n, 5);
    DecodeFromEncoded([], n, rest, MAX_VARINT32_LEN, 0, 1);
    assert [] + Varint(n) + rest == Varint(n) + rest;
  }

  /** Decoding an encoded u64 returns it and its length, whatever follows it in the buffer. */
  lemma RoundTrip64(n: nat, rest: Bytes)
    requires n < U64_LIMIT
    ensures Decode64(Varint(n) + rest) == Ok((n, |Varint(n)|))
    ensures |Varint(n)| <= MAX_VARINT64_LEN
  {
    Pow128Limits();
    VarintLength(n, 10);
    DecodeFromEncoded([], n, rest, MAX_VARINT64_LEN, 0, 1);
    assert [] + Varint(n) + rest == Varint(n) + rest;
  }

  // ----- length-prefixed byte strings ---------------------------------------------------------

  /** A length cast to u32 and written as a varint, then the bytes themselves. */
  function Sized(b: Bytes): Bytes {
    Varint(|b| % U32_LIMIT) + b
  }

  /** A length-prefixed slice and what follows it. */
  function TakeSized(data: Bytes): (r: Result<(Bytes, Bytes)>)
    ensures r.Ok? ==> |r.value.0| < U32_LIMIT && |r.value.1| < |data|
  {
    var p :- Decode32(data);
    if p.1 + p.0 > |data| then Corrupted
    else Ok((data[p.1..p.1 + p.0], data[p.1 + p.0..]))
  }

  lemma TakeSizedRoundTrip(b: Bytes, rest: Bytes)
    requires |b| < U32_LIMIT
    ensures TakeSized(Sized(b) + rest) == Ok((b, rest))
  {
    var n := |Varint(|b|)|;
    RoundTrip32(|b|, b + rest);
    var data := Sized(b) + rest;
    assert data == Varint(|b|) + (b + rest);
    assert data[n..n + |b|] == b;
    assert data[n + |b|..] == rest;
  }

  // ----- encodings cut short ------------------------------------------------------------------

  lemma {:induction false} VarintContinues(n: nat, j: nat)
    requires j + 1 < |Varint(n)|
    ensures Varint(n)[j] >= MORE_BIT
  {
    if j > 0 {
      VarintContinues(n / MORE_BIT, j - 1);
    }
  }

  /** An encoding that was cut short does not decode. */
  lemma CutVarintFails(n: nat, m: nat, maxLen: nat)
    requires m < |Varint(n)|
    ensures Decode(Varint(n)[..m], maxLen) == Corrupted
  {
    hide Varint, Decode;
    DecodeReads(Varint(n)[..m], maxLen);
    forall j | 0 <= j < m ensures Varint(n)[j] >= MORE_BIT {
      VarintContinues(n, j);
    }
  }

  /** A buffer that is cut inside a length-prefixed string fails; cut behind it, the string is read. */
  lemma CutSized(b: Bytes, rest: Bytes, m: nat)
    requires |b| < U32_LIMIT && m <= |Sized(b) + rest|
    ensures TakeSized((Sized(b) + rest)[..m]) == if m < |Sized(b)| then Corrupted else Ok((b, rest[..m - |Sized(b)|]))
  {
    hide Varint, Decode32, TakeSized;
    var n, data := |Varint(|b|)|, (Sized(b) + rest)[..m];
    if m < n {
      assert data == Varint(|b|)[..m];
      CutVarintFails(|b|, m, MAX_VARINT32_LEN);
      CutPrefixFails(data);
    } else if m < |Sized(b)| {
      assert data == Varint(|b|) + b[..m - n];
      RoundTrip32(|b|, b[..m - n]);
      ShortBodyFails(data);
    } else {
      assert data == Sized(b) + rest[..m - |Sized(b)|];
      TakeSizedRoundTrip(b, rest[..m - |Sized(b)|]);
    }
  }

  lemma CutPrefixFails(data: Bytes)
    requires Decode(data, MAX_VARINT32_LEN) == Corrupted
    ensures Decode32(data) == Corrupted && TakeSized(data) == Corrupted
  {
  }

  lemma ShortBodyFails(data: Bytes)
    requires Decode32(data).Ok? && Decode32(data).value.1 + Decode32(data).value.0 > |data|
    ensures TakeSized(data) == Corrupted
  {
  }
}
