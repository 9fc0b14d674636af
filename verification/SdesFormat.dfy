/** What an SDES packet (section 6.5 of RFC 3550) says, read straight off its octets. */
module SdesFormat {
  import opened Basics
  import opened Bytes

  const SDES_ID_PRIVATE: byte := 8

  datatype Item = Item(id: byte, value: seq<byte>)
  datatype Chunk = Chunk(ssrc: u32, items: seq<Item>)

  /** The outcome of reading from some offset on: what was read and where reading stopped. */
  datatype Scan<+T> = Bad | Good(value: T, next: nat)

  function RoundUp4(n: nat): (r: nat)
    ensures r % 4 == 0 && n <= r < n + 4
  {
    if n % 4 == 0 then n else n + 4 - n % 4
  }

  /** The items from `at` up to the zero octet that ends the list; `next` is the offset of that octet. */
  function ScanItems(d: seq<byte>, at: nat, end: nat): (r: Scan<seq<Item>>)
    requires end <= |d|
    ensures r.Good? ==> at <= r.next < end && d[r.next] == 0
    decreases end - at
  {
    if at >= end then Bad
    else if d[at] == 0 then Good([], at)
    else if at + 2 > end || at + 2 + d[at + 1] > end then Bad
    else match ScanItems(d, at + 2 + d[at + 1], end)
      case Bad => Bad
      case Good(items, z) => Good([Item(d[at], d[at + 2..at + 2 + d[at + 1]])] + items, z)
  }

  /** One step of reading an item list that is well formed from `at` on. */
  lemma ItemStep(d: seq<byte>, at: nat, end: nat)
    requires end <= |d| && ScanItems(d, at, end).Good?
    ensures at < end && (d[at] == 0 <==> ScanItems(d, at, end).value == [])
    ensures d[at] == 0 ==> ScanItems(d, at, end).next == at
    ensures d[at] != 0 ==>
              var r := ScanItems(d, at, end);
              && at + 1 < end && at + 2 + d[at + 1] < end
              && r.value[0] == Item(d[at], d[at + 2..at + 2 + d[at + 1]])
              && ScanItems(d, at + 2 + d[at + 1], end) == Good(r.value[1..], r.next)
  {}

  /** The chunk at `at`; `next` is the 32-bit boundary after its item list. */
  function ScanChunk(d: seq<byte>, at: nat, end: nat): (r: Scan<Chunk>)
    requires end <= |d|
    ensures r.Good? ==> at + 8 <= r.next <= end && (r.next - at) % 4 == 0
  {
    if at + 8 > end then Bad
    else match ScanItems(d, at + 4, end)
      case Bad => Bad
      case Good(items, z) =>
        var next := at + RoundUp4(z + 1 - at);
        if next > end then Bad else Good(Chunk(GetU32(d, at), items), next)
  }

  /** Exactly `count` chunks that together fill `at..end`. */
  function ScanChunks(d: seq<byte>, at: nat, end: nat, count: nat): (r: Scan<seq<Chunk>>)
    requires end <= |d|
    ensures r.Good? ==> |r.value| == count && r.next == end
    ensures r.Good? ==> at <= end && (end - at) % 4 == 0
    decreases count
  {
    if count == 0 then if at == end then Good([], at) else Bad
    else match ScanChunk(d, at, end)
      case Bad => Bad
      case Good(c, next) =>
        match ScanChunks(d, next, end, count - 1)
        case Bad => Bad
        case Good(cs, e) => Good([c] + cs, e)
  }

  lemma ChunkStep(d: seq<byte>, at: nat, end: nat, count: nat)
    requires end <= |d| && count > 0 && ScanChunks(d, at, end, count).Good?
    ensures at + 8 <= end && ScanChunk(d, at, end).Good?
    ensures ScanItems(d, at + 4, end).Good?
    ensures var c := ScanChunk(d, at, end);
            && c.next == at + RoundUp4(ScanItems(d, at + 4, end).next + 1 - at)
            && c.value == ScanChunks(d, at, end, count).value[0]
            && c.value.ssrc == GetU32(d, at) && c.value.items == ScanItems(d, at + 4, end).value
            && ScanChunks(d, c.next, end, count - 1) == Good(ScanChunks(d, at, end, count).value[1..], end)
  {}

  /** The length without padding, when the padding (section 6.4.1 of RFC 3550) is acceptable. */
  function Unpadded(d: seq<byte>): (r: Option<nat>)
    requires |d| >= 4
    ensures r.Some? ==> 0 < r.value <= |d| && (|d| - r.value) % 4 == 0
  {
    var padcount := d[|d| - 1];
    if d[0] / 32 % 2 == 0 then Some(|d|)
    else if padcount % 4 != 0 || padcount >= |d| then None
    else Some(|d| - padcount)
  }

  function CountField(d: seq<byte>): nat
    requires |d| >= 4
  {
    d[0] % 32
  }

  /** The chunks of a whole SDES packet, or Bad when its format is not understood. */
  function ScanPacket(d: seq<byte>): (r: Scan<seq<Chunk>>)
    requires |d| >= 4
  {
    match Unpadded(d)
    case None => Bad
    case Some(len) => ScanChunks(d, 4, len, CountField(d))
  }

  predicate Known(d: seq<byte>)
    requires |d| >= 4
  {
    ScanPacket(d).Good?
  }

  function Chunks(d: seq<byte>): (cs: seq<Chunk>)
    requires |d| >= 4
    ensures |cs| == if Known(d) then CountField(d) else 0
  {
    match ScanPacket(d) case Bad => [] case Good(cs, _) => cs
  }

  /** The prefix and value strings of a PRIV item, when its prefix length fits the item. */
  function PrivParts(i: Item): Option<(seq<byte>, seq<byte>)> {
    if i.id != SDES_ID_PRIVATE || |i.value| == 0 || i.value[0] > |i.value| - 1 then None
    else Some((i.value[1..1 + i.value[0]], i.value[1 + i.value[0]..]))
  }

  /** The PRIV strings of the item at `at`, octet by octet. */
  lemma PrivOctets(d: seq<byte>, at: nat)
    requires at + 1 < |d| && at + 2 + d[at + 1] <= |d| && d[at + 1] > 0
    requires d[at] == SDES_ID_PRIVATE && d[at + 2] <= d[at + 1] - 1
    ensures PrivParts(Item(d[at], d[at + 2..at + 2 + d[at + 1]]))
         == Some((d[at + 3..at + 3 + d[at + 2]], d[at + 3 + d[at + 2]..at + 2 + d[at + 1]]))
  {
    SubSlice(d, at + 2, at + 2 + d[at + 1], 1, 1 + d[at + 2]);
    SubSlice(d, at + 2, at + 2 + d[at + 1], 1 + d[at + 2], d[at + 1]);
  }

  // ----- the written form

  predicate WritableItem(i: Item) {
    0 < i.id && |i.value| < 0x100
  }

  predicate WritableChunk(c: Chunk) {
    forall k :: 0 <= k < |c.items| ==> WritableItem(c.items[k])
  }

  function WriteItem(i: Item): seq<byte>
    requires WritableItem(i)
  {
    [i.id, |i.value|] + i.value
  }

  function WriteItems(items: seq<Item>): (w: seq<byte>)
    requires forall k :: 0 <= k < |items| ==> WritableItem(items[k])
  {
    if |items| == 0 then [] else WriteItem(items[0]) + WriteItems(items[1..])
  }

  function Zeros(n: nat): (z: seq<byte>)
    ensures |z| == n && forall k :: 0 <= k < n ==> z[k] == 0
  {
    seq(n, _ => 0)
  }

  /** SSRC, items, and one to four zero octets up to the 32-bit boundary. */
  function WriteChunkRaw(ssrc: u32, items: seq<byte>): (w: seq<byte>)
    ensures |w| == 4 + RoundUp4(|items| + 1)
  {
    PutU32(ssrc) + (items + Zeros(RoundUp4(|items| + 1) - |items|))
  }

  function WriteChunk(c: Chunk): seq<byte>
    requires WritableChunk(c)
  {
    WriteChunkRaw(c.ssrc, WriteItems(c.items))
  }

  function WriteChunks(cs: seq<Chunk>): seq<byte>
    requires forall k :: 0 <= k < |cs| ==> WritableChunk(cs[k])
  {
    if |cs| == 0 then [] else WriteChunk(cs[0]) + WriteChunks(cs[1..])
  }

  lemma ReadWrittenItem(d: seq<byte>, at: nat, i: Item)
    requires WritableItem(i) && At(d, at, WriteItem(i))
    ensures d[at] == i.id && d[at + 1] == |i.value|
    ensures d[at + 2..at + 2 + |i.value|] == i.value
  {
    AtSplit(d, at, [i.id, |i.value|], i.value);
    assert d[at..at + 2] == [i.id, |i.value|];
    assert d[at] == d[at..at + 2][0] && d[at + 1] == d[at..at + 2][1];
  }

  lemma ScanWrittenItem(d: seq<byte>, at: nat, end: nat, i: Item, rest: seq<Item>, z: nat)
    requires WritableItem(i) && At(d, at, WriteItem(i)) && at + 2 + |i.value| <= end <= |d|
    requires ScanItems(d, at + 2 + |i.value|, end) == Good(rest, z)
    ensures ScanItems(d, at, end) == Good([i] + rest, z)
  {
    ReadWrittenItem(d, at, i);
  }

  lemma WriteItemSize(i: Item)
    requires WritableItem(i)
    ensures |WriteItem(i)| == 2 + |i.value|
  {}

  /** Reading back a written item list: the items, stopping at the first zero octet after them. */
  lemma {:induction false} ScanWrittenItems(d: seq<byte>, at: nat, end: nat, items: seq<Item>)
    requires end <= |d|
    requires forall k :: 0 <= k < |items| ==> WritableItem(items[k])
    requires At(d, at, WriteItems(items)) && at + |WriteItems(items)| < end
    requires d[at + |WriteItems(items)|] == 0
    ensures ScanItems(d, at, end) == Good(items, at + |WriteItems(items)|)
    decreases |items|
  {
    hide At;
    if |items| > 0 {
      hide WriteItem, WriteItems, ScanItems, WritableItem;
      var first, rest := WriteItem(items[0]), WriteItems(items[1..]);
      WriteItemSize(items[0]);
      WriteItemsStep(items);
      AtSplit(d, at, first, rest);
      ScanWrittenItems(d, at + |first|, end, items[1..]);
      ScanWrittenItem(d, at, end, items[0], items[1..], at + |first| + |rest|);
      HeadTail(items);
    }
  }

  lemma WriteItemsStep(items: seq<Item>)
    requires |items| > 0 && forall k :: 0 <= k < |items| ==> WritableItem(items[k])
    ensures WriteItems(items) == WriteItem(items[0]) + WriteItems(items[1..])
  {}

  /** Where the parts of a written chunk are. */
  lemma ReadWrittenChunk(d: seq<byte>, at: nat, ssrc: u32, items: seq<byte>)
    requires At(d, at, WriteChunkRaw(ssrc, items))
    ensures at + 4 + |items| < |d| && At(d, at + 4, items)
    ensures GetU32(d, at) == ssrc && d[at + 4 + |items|] == 0
  {
    var pad := Zeros(RoundUp4(|items| + 1) - |items|);
    AtSplit(d, at, PutU32(ssrc), items + pad);
    AtSplit(d, at + 4, items, pad);
    GetPutU32(d, at, ssrc);
    assert d[at + 4 + |items|] == d[at + 4 + |items|..at + 4 + |items| + |pad|][0];
  }

  lemma RoundUp4Shift(n: nat)
    ensures RoundUp4(n + 4) == RoundUp4(n) + 4
  {}

  lemma ScanWrittenChunk(d: seq<byte>, at: nat, end: nat, c: Chunk)
    requires end <= |d| && WritableChunk(c)
    requires At(d, at, WriteChunk(c)) && at + |WriteChunk(c)| <= end
    ensures ScanChunk(d, at, end) == Good(c, at + |WriteChunk(c)|)
  {
    hide ScanItems, WriteItems;
    var n := |WriteItems(c.items)|;
    ReadWrittenChunk(d, at, c.ssrc, WriteItems(c.items));
    RoundUp4Shift(n + 1);
    assert at + 4 + n < end;
    ScanWrittenItems(d, at + 4, end, c.items);
  }

  lemma {:induction false} ScanWrittenChunks(d: seq<byte>, at: nat, end: nat, cs: seq<Chunk>)
    requires end <= |d| && forall k :: 0 <= k < |cs| ==> WritableChunk(cs[k])
    requires At(d, at, WriteChunks(cs)) && end == at + |WriteChunks(cs)|
    ensures ScanChunks(d, at, end, |cs|) == Good(cs, end)
    decreases |cs|
  {
    hide ScanItems, ScanChunk, WriteItems, WriteChunk;
    if |cs| > 0 {
      AtSplit(d, at, WriteChunk(cs[0]), WriteChunks(cs[1..]));
      ScanWrittenChunk(d, at, end, cs[0]);
      ScanWrittenChunks(d, at + |WriteChunk(cs[0])|, end, cs[1..]);
      HeadTail(cs);
    }
  }

  /** A PRIV item built from a prefix and a value gives both strings back. */
  lemma PrivRoundTrip(prefix: seq<byte>, value: seq<byte>)
    requires |prefix| + 1 + |value| < 0x100
    ensures PrivParts(Item(SDES_ID_PRIVATE, [|prefix|] + prefix + value)) == Some((prefix, value))
  {
    var whole: seq<byte> := [|prefix|] + prefix + value;
    assert whole[1..1 + |prefix|] == prefix && whole[1 + |prefix|..] == value;
  }

  // ----- padding

  /** The same octets from some offset up to an end. */
  predicate Alike(d: seq<byte>, e: seq<byte>, from: nat, end: nat) {
    end <= |d| && end <= |e| && forall i :: from <= i < end ==> d[i] == e[i]
  }

  lemma AlikeSlices(d: seq<byte>, e: seq<byte>, from: nat, end: nat, lo: nat, hi: nat)
    requires Alike(d, e, from, end) && from <= lo <= hi <= end
    ensures d[lo..hi] == e[lo..hi] && (lo + 4 <= hi ==> GetU32(d, lo) == GetU32(e, lo))
  {}

  lemma {:induction false} ItemsAlike(d: seq<byte>, e: seq<byte>, at: nat, end: nat)
    requires Alike(d, e, at, end)
    ensures ScanItems(d, at, end) == ScanItems(e, at, end)
    decreases end - at
  {
    if at + 2 <= end && d[at] != 0 && at + 2 + d[at + 1] <= end {
      AlikeSlices(d, e, at, end, at + 2, at + 2 + d[at + 1]);
      ItemsAlike(d, e, at + 2 + d[at + 1], end);
    }
  }

  lemma ChunkAlike(d: seq<byte>, e: seq<byte>, at: nat, end: nat)
    requires Alike(d, e, at, end)
    ensures ScanChunk(d, at, end) == ScanChunk(e, at, end)
  {
    hide ScanItems, GetU32;
    if at + 8 <= end {
      ItemsAlike(d, e, at + 4, end);
      AlikeSlices(d, e, at, end, at, at + 4);
    }
  }

  lemma {:induction false} ChunksAlike(d: seq<byte>, e: seq<byte>, at: nat, end: nat, count: nat)
    requires Alike(d, e, at, end)
    ensures ScanChunks(d, at, end, count) == ScanChunks(e, at, end, count)
    decreases count
  {
    hide ScanChunk;
    if count > 0 {
      ChunkAlike(d, e, at, end);
      var c := ScanChunk(d, at, end);
      if c.Good? {
        ChunksAlike(d, e, c.next, end, count - 1);
      }
    }
  }

  /** A packet without padding, with its padding bit set and `pad` behind it, which ends in its own length. */
  function Padded(d: seq<byte>, pad: seq<byte>): seq<byte>
    requires |d| >= 4 && d[0] / 32 % 2 == 0
  {
    [d[0] + 32] + d[1..] + pad
  }

  predicate PadFits(pad: seq<byte>) {
    0 < |pad| < 0x100 && |pad| % 4 == 0 && pad[|pad| - 1] == |pad|
  }

  /** Padding is taken off again. */
  lemma PaddedFields(d: seq<byte>, pad: seq<byte>)
    requires |d| >= 4 && d[0] / 32 % 2 == 0 && PadFits(pad)
    ensures var e := Padded(d, pad);
            && |e| == |d| + |pad| && Alike(e, d, 1, |d|) && CountField(e) == CountField(d)
            && Unpadded(e) == Some(|d|) && Unpadded(d) == Some(|d|)
  {
    var e := Padded(d, pad);
    assert e[|e| - 1] == pad[|pad| - 1];
    var x: int := d[0];
    assert (x + 32) / 32 == x / 32 + 1 && (x + 32) % 32 == x % 32;
  }

  /** A padded description is of known format exactly when it is so without, and has the same chunks. */
  lemma PaddedChunks(d: seq<byte>, pad: seq<byte>)
    requires |d| >= 4 && d[0] / 32 % 2 == 0 && PadFits(pad)
    ensures var e := Padded(d, pad); (Known(e) <==> Known(d)) && Chunks(e) == Chunks(d)
  {
    hide Padded, Unpadded, ScanChunks, CountField;
    var e := Padded(d, pad);
    PaddedFields(d, pad);
    ChunksAlike(e, d, 4, |d|, CountField(d));
  }
}
