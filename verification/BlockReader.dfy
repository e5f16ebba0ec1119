/** Reading blocks: restart-point binary search, prefix-decoding scan and iteration. */
module BlockReaders {
  import opened ByteStrings
  import opened InternalKeys
  import opened Varints
  import opened Blocks

  type Comparator = (Bytes, Bytes) -> Ordering

  /** A parsed view of block bytes: the entries end where the restart array starts. */
  datatype Block = Block(data: Bytes, restartsOffset: nat, numRestarts: nat) {
    predicate Valid() {
      restartsOffset + 4 * numRestarts + 4 == |data|
    }
  }

  function ParseBlock(data: Bytes): (r: Result<Block>)
    ensures r.Ok? ==> r.value.Valid() && r.value.data == data
  {
    if |data| < 4 then Corrupted
    else
      var n := FromLittleEndian(data[|data| - 4..]);
      if |data| < 4 + 4 * n then Corrupted else Ok(Block(data, |data| - 4 - 4 * n, n))
  }

  function RestartOffset(b: Block, i: nat): nat
    requires b.Valid() && i < b.numRestarts
  {
    FromLittleEndian(b.data[b.restartsOffset + 4 * i..b.restartsOffset + 4 * i + 4])
  }

  datatype Header = Header(shared: nat, nonShared: nat, valueLen: nat, keyStart: nat)

  function ReadHeader(data: Bytes, offset: nat): (h: Option<Header>)
    ensures h.Some? ==> offset < h.value.keyStart <= |data|
  {
    if offset > |data| then None
    else
      match Decode32(data[offset..])
      case Corrupted => None
      case Ok(s) =>
        match Decode32(data[offset + s.1..])
        case Corrupted => None
        case Ok(n) =>
          match Decode32(data[offset + s.1 + n.1..])
          case Corrupted => None
          case Ok(v) => Some(Header(s.0, n.0, v.0, offset + s.1 + n.1 + v.1))
  }

  /** The entry at a restart point: its key delta is the whole key. */
  function EntryAt(b: Block, offset: nat): Option<KV> {
    match ReadHeader(b.data, offset)
    case None => None
    case Some(h) =>
      if h.keyStart + h.nonShared + h.valueLen > |b.data| then None
      else Some(KV(b.data[h.keyStart..h.keyStart + h.nonShared],
                   b.data[h.keyStart + h.nonShared..h.keyStart + h.nonShared + h.valueLen]))
  }

  function RestartKey(b: Block, i: nat): Option<Bytes>
    requires b.Valid() && i < b.numRestarts
  {
    match EntryAt(b, RestartOffset(b, i))
    case None => None
    case Some(kv) => Some(kv.key)
  }

  datatype Parsed = Parsed(kv: KV, next: nat)

  /** The entry at `offset`, its key rebuilt from the previous key. */
  function ParseEntry(b: Block, offset: nat, lastKey: Bytes): (p: Option<Parsed>)
    requires b.Valid()
    ensures p.Some? ==> offset < p.value.next <= b.restartsOffset
  {
    match ReadHeader(b.data, offset)
    case None => None
    case Some(h) =>
      var valueStart := h.keyStart + h.nonShared;
      var next := valueStart + h.valueLen;
      if next > b.restartsOffset || h.shared > |lastKey| then None
      else Some(Parsed(KV(lastKey[..h.shared] + b.data[h.keyStart..valueStart], b.data[valueStart..next]), next))
  }

  // ----- searches -----------------------------------------------------------------------------

  /** Binary search for the first restart key not below the target. */
  function SeekRestart(b: Block, target: Bytes, cmp: Comparator, lo: nat, hi: nat): (r: Option<nat>)
    requires b.Valid() && lo <= hi <= b.numRestarts
    ensures r.Some? ==> lo <= r.value <= hi
    decreases hi - lo
  {
    if lo == hi then Some(lo)
    else
      var mid := (lo + hi) / 2;
      match RestartKey(b, mid)
      case None => None
      case Some(key) =>
        if cmp(target, key) == Greater then SeekRestart(b, target, cmp, mid + 1, hi)
        else SeekRestart(b, target, cmp, lo, mid)
  }

  /** Linear scan for the first entry not below the target. */
  function ScanFrom(b: Block, target: Bytes, cmp: Comparator, offset: nat, lastKey: Bytes): Option<KV>
    requires b.Valid()
    decreases b.restartsOffset - offset
  {
    match ParseEntry(b, offset, lastKey)
    case None => None
    case Some(p) =>
      if cmp(target, p.kv.key) != Greater then Some(p.kv)
      else if p.next >= b.restartsOffset then None
      else ScanFrom(b, target, cmp, p.next, p.kv.key)
  }

  function LowerBound(b: Block, target: Bytes, cmp: Comparator): Option<KV>
    requires b.Valid() && b.numRestarts > 0
  {
    match SeekRestart(b, target, cmp, 0, b.numRestarts)
    case None => None
    case Some(lo) =>
      var start := if lo == 0 then 0 else lo - 1;
      match RestartKey(b, start)
      case None => None
      case Some(key) => ScanFrom(b, target, cmp, RestartOffset(b, start), key)
  }

  /** The bytes are a piece of the block in front of its restart array. */
  ghost predicate IsPiece(b: Block, value: Bytes)
    requires b.Valid()
  {
    exists i: nat, j: nat :: i <= j <= b.restartsOffset && value == b.data[i..j]
  }

  lemma {:induction false} ScanAnswers(b: Block, target: Bytes, cmp: Comparator, offset: nat, lastKey: Bytes)
    requires b.Valid()
    ensures var r := ScanFrom(b, target, cmp, offset, lastKey); r.Some? ==> cmp(target, r.value.key) != Greater && IsPiece(b, r.value.value)
    decreases b.restartsOffset - offset
  {
    ParsedPiece(b, offset, lastKey);
    hide ParseEntry, IsPiece;
    var p := ParseEntry(b, offset, lastKey);
    if p.Some? && cmp(target, p.value.kv.key) == Greater && p.value.next < b.restartsOffset {
      ScanAnswers(b, target, cmp, p.value.next, p.value.kv.key);
    }
  }

  lemma ParsedPiece(b: Block, offset: nat, lastKey: Bytes)
    requires b.Valid()
    ensures var p := ParseEntry(b, offset, lastKey); p.Some? ==> IsPiece(b, p.value.kv.value)
  {
    hide Decode32;
  }

  /** On any bytes, and with any comparator, what a search answers is not below the target, and its value lies in the block. */
  lemma LowerBoundAnswers(b: Block, target: Bytes, cmp: Comparator)
    requires b.Valid() && b.numRestarts > 0
    ensures var r := LowerBound(b, target, cmp); r.Some? ==> cmp(target, r.value.key) != Greater && IsPiece(b, r.value.value)
  {
    hide ScanFrom, IsPiece;
    forall offset, key ensures var r := ScanFrom(b, target, cmp, offset, key); r.Some? ==> cmp(target, r.value.key) != Greater && IsPiece(b, r.value.value) {
      ScanAnswers(b, target, cmp, offset, key);
    }
  }

  /** `lower_bound_kv`, and `lower_bound` when only the value is used. */
  method LowerBoundKv(b: Block, target: Bytes, cmp: Comparator) returns (r: Option<KV>)
    requires b.Valid() && b.numRestarts > 0
    ensures r == LowerBound(b, target, cmp)
  {
    hide ParseEntry, RestartKey, RestartOffset;
    var lo: nat, hi: nat := 0, b.numRestarts;
    while lo < hi
      invariant lo <= hi <= b.numRestarts
      invariant SeekRestart(b, target, cmp, lo, hi) == SeekRestart(b, target, cmp, 0, b.numRestarts)
    {
      var mid := (lo + hi) / 2;
      var key := RestartKey(b, mid);
      if key.None? {
        return None;
      }
      if cmp(target, key.value) == Greater {
        lo := mid + 1;
      } else {
        hi := mid;
      }
    }
    var start := if lo == 0 then 0 else lo - 1;
    var offset := RestartOffset(b, start);
    var first := RestartKey(b, start);
    if first.None? {
      return None;
    }
    var lastKey := first.value;
    while true
      invariant ScanFrom(b, target, cmp, offset, lastKey) == LowerBound(b, target, cmp)
      decreases b.restartsOffset - offset
    {
      var p := ParseEntry(b, offset, lastKey);
      if p.None? {
        return None;
      }
      if cmp(target, p.value.kv.key) != Greater {
        return Some(p.value.kv);
      }
      offset := p.value.next;
      lastKey := p.value.kv.key;
      if offset >= b.restartsOffset {
        return None;
      }
    }
  }

  /** Outcome of the exact search's restart phase. */
  datatype Seek = At(restart: nat) | After(lo: nat) | Broken

  function SeekExact(b: Block, target: Bytes, cmp: Comparator, lo: nat, hi: nat): (r: Seek)
    requires b.Valid() && lo <= hi <= b.numRestarts
    ensures r.At? ==> lo <= r.restart < hi
    ensures r.After? ==> lo <= r.lo <= hi
    decreases hi - lo
  {
    if lo == hi then After(lo)
    else
      var mid := (lo + hi) / 2;
      match RestartKey(b, mid)
      case None => Broken
      case Some(key) =>
        match cmp(target, key)
        case Less => SeekExact(b, target, cmp, lo, mid)
        case Equal => At(mid)
        case Greater => SeekExact(b, target, cmp, mid + 1, hi)
  }

  function ScanExact(b: Block, target: Bytes, cmp: Comparator, offset: nat, lastKey: Bytes): Option<Bytes>
    requires b.Valid()
    decreases b.restartsOffset - offset
  {
    match ParseEntry(b, offset, lastKey)
    case None => None
    case Some(p) =>
      match cmp(target, p.kv.key)
      case Less => None
      case Equal => Some(p.kv.value)
      case Greater => if p.next >= b.restartsOffset then None else ScanExact(b, target, cmp, p.next, p.kv.key)
  }

  function Get(b: Block, target: Bytes, cmp: Comparator): Option<Bytes>
    requires b.Valid()
  {
    match SeekExact(b, target, cmp, 0, b.numRestarts)
    case Broken => None
    case At(i) => (match EntryAt(b, RestartOffset(b, i))
                   case None => None
                   case Some(kv) => Some(kv.value))
    case After(lo) =>
      if lo == 0 then None
      else
        match RestartKey(b, lo - 1)
        case None => None
        case Some(key) => ScanExact(b, target, cmp, RestartOffset(b, lo - 1), key)
  }

  /** One probe of the exact binary search. */
  lemma SeekStep(b: Block, target: Bytes, cmp: Comparator, lo: nat, hi: nat)
    requires b.Valid() && lo < hi <= b.numRestarts
    ensures var mid := (lo + hi) / 2;
            SeekExact(b, target, cmp, lo, hi)
            == match RestartKey(b, mid)
               case None => Broken
               case Some(key) =>
                 match cmp(target, key)
                 case Less => SeekExact(b, target, cmp, lo, mid)
                 case Equal => At(mid)
                 case Greater => SeekExact(b, target, cmp, mid + 1, hi)
  {
    hide RestartKey;
  }

  /** One entry of the exact scan. */
  lemma ScanStep(b: Block, target: Bytes, cmp: Comparator, offset: nat, lastKey: Bytes)
    requires b.Valid()
    ensures ScanExact(b, target, cmp, offset, lastKey)
         == match ParseEntry(b, offset, lastKey)
            case None => None
            case Some(p) =>
              match cmp(target, p.kv.key)
              case Less => None
              case Equal => Some(p.kv.value)
              case Greater => if p.next >= b.restartsOffset then None else ScanExact(b, target, cmp, p.next, p.kv.key)
  {
    hide ParseEntry;
  }

  /** Where the restart phase ends decides the answer. */
  lemma SoughtAt(b: Block, target: Bytes, cmp: Comparator, seek: Seek)
    requires b.Valid() && seek == SeekExact(b, target, cmp, 0, b.numRestarts)
    ensures Get(b, target, cmp)
         == match seek
            case Broken => None
            case At(i) => (match EntryAt(b, RestartOffset(b, i))
                           case None => None
                           case Some(kv) => Some(kv.value))
            case After(lo) =>
              if lo == 0 then None
              else
                match RestartKey(b, lo - 1)
                case None => None
                case Some(key) => ScanExact(b, target, cmp, RestartOffset(b, lo - 1), key)
  {
    hide SeekExact, ScanExact, RestartKey, EntryAt, RestartOffset;
  }

  lemma SeekEnds(b: Block, target: Bytes, cmp: Comparator, lo: nat)
    requires b.Valid() && lo <= b.numRestarts
    ensures SeekExact(b, target, cmp, lo, lo) == After(lo)
  {
  }

  /** `get`: the restart phase, which may already hit, and the scan behind it. */
  method GetValue(b: Block, target: Bytes, cmp: Comparator) returns (r: Option<Bytes>)
    requires b.Valid()
    ensures r == Get(b, target, cmp)
  {
    hide ParseEntry, RestartKey, RestartOffset, EntryAt, SeekExact, ScanExact, Get;
    var lo: nat, hi: nat := 0, b.numRestarts;
    ghost var seek := SeekExact(b, target, cmp, 0, b.numRestarts);
    SoughtAt(b, target, cmp, seek);
    while lo < hi
      invariant lo <= hi <= b.numRestarts
      invariant SeekExact(b, target, cmp, lo, hi) == seek
    {
      SeekStep(b, target, cmp, lo, hi);
      var mid := (lo + hi) / 2;
      var key := RestartKey(b, mid);
      if key.None? {
        return None;
      }
      match cmp(target, key.value) {
        case Less => hi := mid;
        case Equal =>
          var kv := EntryAt(b, RestartOffset(b, mid));
          if kv.None? {
            return None;
          }
          return Some(kv.value.value);
        case Greater => lo := mid + 1;
      }
    }
    SeekEnds(b, target, cmp, lo);
    if lo == 0 {
      return None;
    }
    var offset := RestartOffset(b, lo - 1);
    var first := RestartKey(b, lo - 1);
    if first.None? {
      return None;
    }
    var lastKey := first.value;
    while true
      invariant ScanExact(b, target, cmp, offset, lastKey) == Get(b, target, cmp)
      decreases b.restartsOffset - offset
    {
      ScanStep(b, target, cmp, offset, lastKey);
      var p := ParseEntry(b, offset, lastKey);
      if p.None? {
        return None;
      }
      match cmp(target, p.value.kv.key) {
        case Less => return None;
        case Equal => return Some(p.value.kv.value);
        case Greater =>
          offset := p.value.next;
          lastKey := p.value.kv.key;
          if offset >= b.restartsOffset {
            return None;
          }
      }
    }
  }

  // ----- iteration ----------------------------------------------------------------------------

  function IterFrom(b: Block, offset: nat, lastKey: Bytes): seq<KV>
    requires b.Valid()
    decreases b.restartsOffset - offset
  {
    if offset >= b.restartsOffset then []
    else
      match ParseEntry(b, offset, lastKey)
      case None => []
      case Some(p) => [p.kv] + IterFrom(b, p.next, p.kv.key)
  }

  /** All entries of a block, in storage order. */
  function BlockEntries(b: Block): seq<KV>
    requires b.Valid()
  {
    IterFrom(b, 0, [])
  }

  class BlockIter {
    const block: Block
    var offset: nat
    var lastKey: Bytes

    constructor (b: Block)
      requires b.Valid()
      ensures block == b && Remaining() == BlockEntries(b)
    {
      block := b;
      offset := 0;
      lastKey := [];
    }

    /** What the iterator has still to yield. */
    ghost function Remaining(): seq<KV>
      reads this
      requires block.Valid()
    {
      IterFrom(block, offset, lastKey)
    }

    method Next() returns (r: Option<KV>)
      requires block.Valid()
      modifies this
      ensures r.None? ==> old(Remaining()) == [] && Remaining() == []
      ensures r.Some? ==> old(Remaining()) == [r.value] + Remaining()
    {
      if offset >= block.restartsOffset {
        return None;
      }
      var p := ParseEntry(block, offset, lastKey);
      if p.None? {
        return None;
      }
      lastKey := p.value.kv.key;
      offset := p.value.next;
      return Some(p.value.kv);
    }
  }
}
