/** Byte strings: fixed-width little-endian integers and the lexicographic order of byte slices. */
module ByteStrings {

  type Byte = x: int | 0 <= x < 256

  type Bytes = seq<Byte>

  const U32_LIMIT: nat := 0x1_0000_0000
  const U64_LIMIT: nat := 0x1_0000_0000_0000_0000

  /** Outcome of an operation that the program rejects as "corrupted" or as an invalid argument. */
  datatype Result<+T> = Ok(value: T) | Corrupted {
    predicate IsFailure() {
      Corrupted?
    }
    function PropagateFailure<U>(): Result<U>
      requires Corrupted?
    {
      Corrupted
    }
    function Extract(): T
      requires Ok?
    {
      value
    }
  }

  datatype Option<+T> = None | Some(value: T)

  datatype Ordering = Less | Equal | Greater

  function Concat<T>(lists: seq<seq<T>>): seq<T> {
    if lists == [] then [] else lists[0] + Concat(lists[1..])
  }

  /** What was collected so far in front of what the rest gives, if it gives anything. */
  function Prepend<T>(done: seq<T>, rest: Result<seq<T>>): Result<seq<T>> {
    match rest
    case Corrupted => Corrupted
    case Ok(more) => Ok(done + more)
  }

  lemma PrependMore<T>(done: seq<T>, x: T, rest: Result<seq<T>>)
    ensures Prepend(done, Prepend([x], rest)) == Prepend(done + [x], rest)
    ensures Prepend([], rest) == rest && Prepend(done, Ok([])) == Ok(done)
  {
    if rest.Ok? {
      assert done + ([x] + rest.value) == done + [x] + rest.value && [] + rest.value == rest.value;
    }
    assert done + [] == done;
  }

  lemma EmptyOrInhabited<T>(s: seq<T>)
    ensures s == [] || exists x :: x in s
  {
    if s != [] {
      assert s[0] in s;
    }
  }

  // ----- little-endian integers ---------------------------------------------------------------

  function Pow256(width: nat): (p: nat)
    ensures p > 0
  {
    if width == 0 then 1 else 256 * Pow256(width - 1)
  }

  /** The low `width` bytes of `n`, least significant first (`to_le_bytes` of a cast integer). */
  function LittleEndian(n: nat, width: nat): (b: Bytes)
    ensures |b| == width
  {
    if width == 0 then [] else [n % 256] + LittleEndian(n / 256, width - 1)
  }

  function FromLittleEndian(b: Bytes): nat {
    if b == [] then 0 else b[0] + 256 * FromLittleEndian(b[1..])
  }

  /** Reading back `width` little-endian bytes gives the integer modulo 256^width. */
  lemma {:induction false} LittleEndianRoundTrip(n: nat, width: nat)
    requires n < Pow256(width)
    ensures FromLittleEndian(LittleEndian(n, width)) == n
  {
    if width > 0 {
      LittleEndianRoundTrip(n / 256, width - 1);
      assert LittleEndian(n, width)[1..] == LittleEndian(n / 256, width - 1);
    }
  }

  lemma {:induction false} FromLittleEndianBound(b: Bytes)
    ensures FromLittleEndian(b) < Pow256(|b|)
  {
    if b != [] {
      FromLittleEndianBound(b[1..]);
    }
  }

  lemma WidthLimits()
    ensures Pow256(2) == 0x1_0000
    ensures Pow256(4) == U32_LIMIT
    ensures Pow256(8) == U64_LIMIT
  {
  }

  // ----- lexicographic order ------------------------------------------------------------------

  /** Strict lexicographic order of byte slices (a proper prefix comes first). */
  predicate Before(a: Bytes, b: Bytes) {
    b != [] && (a == [] || a[0] < b[0] || (a[0] == b[0] && Before(a[1..], b[1..])))
  }

  function Compare(a: Bytes, b: Bytes): Ordering {
    if a == b then Equal else if Before(a, b) then Less else Greater
  }

  /** An order embedding of byte strings into the reals: it lets linear arithmetic decide key comparisons. */
  ghost function Rank(a: Bytes): real {
    if a == [] then 0.0 else (a[0] as real + 1.0 + Rank(a[1..])) / 257.0
  }

  lemma {:induction false} RankBounds(a: Bytes)
    ensures 0.0 <= Rank(a) < 1.0
    ensures a != [] ==> Rank(a) > 0.0
  {
    if a != [] {
      RankBounds(a[1..]);
    }
  }

  lemma {:induction false} RankEmbeds(a: Bytes, b: Bytes)
    ensures Before(a, b) <==> Rank(a) < Rank(b)
    ensures a == b <==> Rank(a) == Rank(b)
  {
    RankBounds(a);
    RankBounds(b);
    if a != [] && b != [] {
      RankBounds(a[1..]);
      RankBounds(b[1..]);
      RankEmbeds(a[1..], b[1..]);
      assert a == [a[0]] + a[1..] && b == [b[0]] + b[1..];
    }
  }

  /** The byte-string order is a strict total order. */
  lemma OrderFacts()
    ensures forall a: Bytes, b: Bytes {:trigger Before(a, b)} :: Before(a, b) <==> Rank(a) < Rank(b)
    ensures forall a: Bytes, b: Bytes {:trigger Rank(a), Rank(b)} :: a == b <==> Rank(a) == Rank(b)
  {
    forall a: Bytes, b: Bytes
      ensures (Before(a, b) <==> Rank(a) < Rank(b)) && (a == b <==> Rank(a) == Rank(b))
    {
      RankEmbeds(a, b);
    }
  }

}
