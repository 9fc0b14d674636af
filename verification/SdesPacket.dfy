/** The SDES packet object: its validating constructor and its chunk and item iterators. */
module SdesPacket {
  import opened Basics
  import opened Bytes
  import opened SdesFormat

  datatype ItemType = NoItem | CNAME | NAME | EMAIL | PHONE | LOC | TOOL | NOTE | PRIV | Unknown

  function TypeOfId(id: byte): ItemType {
    match id
    case 0 => NoItem
    case 1 => CNAME
    case 2 => NAME
    case 3 => EMAIL
    case 4 => PHONE
    case 5 => LOC
    case 6 => TOOL
    case 7 => NOTE
    case 8 => PRIV
    case _ => Unknown
  }

  /** What a client reads of one item through the accessors. */
  datatype ItemView = ItemView(t: ItemType, value: seq<byte>)
  datatype ChunkView = ChunkView(ssrc: u32, items: seq<ItemView>)

  function ViewItem(i: Item): ItemView {
    ItemView(TypeOfId(i.id), i.value)
  }

  function ViewItems(items: seq<Item>): (v: seq<ItemView>)
    ensures |v| == |items|
  {
    if |items| == 0 then [] else [ViewItem(items[0])] + ViewItems(items[1..])
  }

  function ViewChunks(cs: seq<Chunk>): (v: seq<ChunkView>)
    ensures |v| == |cs|
  {
    if |cs| == 0 then [] else [ChunkView(cs[0].ssrc, ViewItems(cs[0].items))] + ViewChunks(cs[1..])
  }

  class RTCPSDESPacket {
    const data: seq<byte>
    var knownformat: bool
    var currentchunk: nat  // offset into data, 0 for the null pointer
    var curchunknum: nat
    var itemoffset: nat

    /** The end of the part without padding. */
    ghost function End(): (e: nat)
      requires |data| >= 4
      ensures e <= |data|
    {
      match Unpadded(data) case None => 0 case Some(len) => len
    }

    /** The chunks from the current one on. */
    ghost function FromCurrentChunk(): Scan<seq<Chunk>>
      requires |data| >= 4 && curchunknum <= CountField(data)
      reads this
    {
      ScanChunks(data, currentchunk, End(), CountField(data) - curchunknum + 1)
    }

    /** The items of the current chunk from the current one on. */
    ghost function FromCurrentItem(): Scan<seq<Item>>
      requires |data| >= 4
      reads this
    {
      ScanItems(data, currentchunk + itemoffset, End())
    }

    ghost predicate Valid()
      reads this
    {
      && |data| >= 4
      && knownformat == Known(data)
      && (knownformat && currentchunk != 0 ==>
            && 1 <= curchunknum <= CountField(data)
            && FromCurrentChunk().Good?
            && 4 <= itemoffset
            && FromCurrentItem().Good?)
    }

    ghost predicate OnChunk()
      reads this
    {
      Valid() && knownformat && currentchunk != 0
    }

    ghost function ChunksLeft(): (cs: seq<Chunk>)
      requires OnChunk()
      reads this
      ensures |cs| == CountField(data) - curchunknum + 1
    {
      FromCurrentChunk().value
    }

    ghost function ItemsLeft(): seq<Item>
      requires OnChunk()
      reads this
    {
      FromCurrentItem().value
    }

    constructor (d: seq<byte>)
      requires |d| >= 4
      ensures Valid() && data == d && currentchunk == 0
      ensures knownformat == Known(d)
    {
      data := d;
      knownformat := false;
      currentchunk := 0;
      itemoffset := 0;
      curchunknum := 0;
      new;
      var len := |d|;
      if d[0] / 32 % 2 != 0 {
        var padcount := d[|d| - 1];
        if padcount % 4 != 0 {
          return;
        }
        if padcount >= len {
          return;
        }
        len := len - padcount;
      }
      assert Unpadded(d) == Some(len);
      if CountField(d) == 0 {
        if len != 4 {
          return;
        }
      } else {
        if len < 4 {
          return;
        }
        var ok := CheckChunks(d, len);
        if !ok {
          return;
        }
      }
      knownformat := true;
    }

    /** The chunk loop of the constructor: `ssrccount` chunks fill the octets from the header to `end`. */
    static method CheckChunks(d: seq<byte>, end: nat) returns (ok: bool)
      requires 4 <= end <= |d| && CountField(d) > 0
      ensures ok == ScanChunks(d, 4, end, CountField(d)).Good?
    {
      hide ScanItems, ScanChunk;
      var ssrccount: nat := CountField(d);
      var chunk: nat := 4;
      ok := true;
      while ok && ssrccount > 0 && end - chunk > 0
        invariant 4 <= chunk <= end
        invariant ok ==> ScanChunks(d, 4, end, CountField(d)).Good? == ScanChunks(d, chunk, end, ssrccount).Good?
        invariant !ok ==> !ScanChunks(d, 4, end, CountField(d)).Good?
        decreases ok, ssrccount
      {
        var chunkoffset;
        ok, chunkoffset := CheckChunk(d, chunk, end);
        ssrccount := ssrccount - 1;
        chunk := chunk + chunkoffset;
      }
      ok := ok && end - chunk == 0 && ssrccount == 0;
    }

    /** The item loop of the constructor: `len` octets are left from `chunk` on. */
    static method CheckChunk(d: seq<byte>, chunk: nat, end: nat) returns (ok: bool, chunkoffset: nat)
      requires chunk <= end <= |d|
      ensures ok == ScanChunk(d, chunk, end).Good?
      ensures chunk + chunkoffset <= end && (ok ==> ScanChunk(d, chunk, end).next == chunk + chunkoffset)
    {
      var len: nat := end - chunk;
      ok, chunkoffset := false, 0;
      if len >= 8 {
        len := len - 4;
        chunkoffset := 4;
        ghost var whole := ScanItems(d, chunk + 4, end);
        while len >= 1 && d[chunk + chunkoffset] != 0 && len >= 2 && d[chunk + chunkoffset + 1] <= len - 2
          invariant chunkoffset >= 4 && chunk + chunkoffset + len == end
          invariant SameTail(whole, ScanItems(d, chunk + chunkoffset, end))
          decreases len
        {
          var itemlen := d[chunk + chunkoffset + 1];
          len := len - 2 - itemlen;
          chunkoffset := chunkoffset + 2 + itemlen;
        }
        if len >= 1 && d[chunk + chunkoffset] == 0 {
          len := len - 1;
          chunkoffset := chunkoffset + 1;
          var addoffset := if chunkoffset % 4 != 0 then 4 - chunkoffset % 4 else 0;
          if addoffset <= len {
            chunkoffset := chunkoffset + addoffset;
            ok := true;
          }
        }
      }
    }

    /** Two readings of an item list fail together or end at the same octet. */
    static ghost predicate SameTail(a: Scan<seq<Item>>, b: Scan<seq<Item>>) {
      a.Good? == b.Good? && (a.Good? ==> a.next == b.next)
    }

    function GetChunkCount(): nat
      requires |data| >= 4
      reads this
    {
      if knownformat then CountField(data) else 0
    }

    method GotoFirstChunk() returns (ok: bool)
      requires Valid()
      modifies this
      ensures Valid() && knownformat == old(knownformat)
      ensures ok == (Chunks(data) != [])
      ensures ok ==> OnChunk() && ChunksLeft() == Chunks(data) && ItemsLeft() == Chunks(data)[0].items
    {
      if GetChunkCount() == 0 {
        currentchunk := 0;
        return false;
      }
      currentchunk := 4;
      curchunknum := 1;
      itemoffset := 4;
      return true;
    }

    /** The size of the current chunk: past its items to the next 32-bit boundary. */
    method SkipChunk() returns (offset: nat)
      requires OnChunk()
      ensures ScanChunk(data, currentchunk, End()).Good?
      ensures currentchunk + offset == ScanChunk(data, currentchunk, End()).next
    {
      hide ScanItems, ScanChunk, ScanChunks;
      ChunkStep(data, currentchunk, End(), CountField(data) - curchunknum + 1);
      ghost var z := ScanItems(data, currentchunk + 4, End()).next;
      offset := 4;
      while data[currentchunk + offset] != 0
        invariant 4 <= offset && currentchunk + offset < End()
        invariant ScanItems(data, currentchunk + offset, End()).Good?
        invariant z == ScanItems(data, currentchunk + offset, End()).next
        decreases End() - currentchunk - offset
      {
        ItemStep(data, currentchunk + offset, End());
        offset := offset + 2 + data[currentchunk + offset + 1];
      }
      ItemStep(data, currentchunk + offset, End());
      offset := offset + 1;
      if offset % 4 != 0 {
        offset := offset + (4 - offset % 4);
      }
    }

    method GotoNextChunk() returns (ok: bool)
      requires Valid()
      modifies this
      ensures Valid() && knownformat == old(knownformat)
      ensures ok == (old(OnChunk()) && |old(ChunksLeft())| > 1)
      ensures ok ==> OnChunk() && ChunksLeft() == old(ChunksLeft())[1..] && ItemsLeft() == ChunksLeft()[0].items
    {
      hide ScanItems, ScanChunk, ScanChunks;
      ok := false;
      if knownformat && currentchunk != 0 && curchunknum != GetChunkCount() {
        var offset := SkipChunk();
        ghost var left := CountField(data) - curchunknum + 1;
        ChunkStep(data, currentchunk, End(), left);
        ChunkStep(data, currentchunk + offset, End(), left - 1);
        currentchunk := currentchunk + offset;
        curchunknum := curchunknum + 1;
        itemoffset := 4;
        ok := true;
      }
    }

    method GetChunkSSRC() returns (ssrc: u32)
      requires Valid()
      ensures OnChunk() ==> ssrc == ChunksLeft()[0].ssrc
      ensures !OnChunk() ==> ssrc == 0
    {
      if !knownformat || currentchunk == 0 {
        return 0;
      }
      return GetU32(data, currentchunk);
    }

    method GotoFirstItem() returns (ok: bool)
      requires Valid()
      modifies this`itemoffset
      ensures Valid() && (OnChunk() ==> ChunksLeft() == old(ChunksLeft()))
      ensures ok == (OnChunk() && ChunksLeft()[0].items != [])
      ensures OnChunk() ==> ItemsLeft() == ChunksLeft()[0].items
    {
      if !knownformat || currentchunk == 0 {
        return false;
      }
      itemoffset := 4;
      return data[currentchunk + itemoffset] != 0;
    }

    /** The cursor stays on the last item when there is no next one. */
    method GotoNextItem() returns (ok: bool)
      requires Valid()
      modifies this`itemoffset
      ensures Valid() && (OnChunk() ==> ChunksLeft() == old(ChunksLeft()))
      ensures ok == (OnChunk() && |old(ItemsLeft())| > 1)
      ensures OnChunk() ==> ItemsLeft() == if ok then old(ItemsLeft())[1..] else old(ItemsLeft())
    {
      hide ScanItems, ScanChunk, ScanChunks;
      ok := false;
      if knownformat && currentchunk != 0 {
        ghost var was := ItemsLeft();
        ItemStep(data, currentchunk + itemoffset, End());
        if data[currentchunk + itemoffset] != 0 {
          var offset := itemoffset + 2 + data[currentchunk + itemoffset + 1];
          ItemStep(data, currentchunk + offset, End());
          if data[currentchunk + offset] != 0 {
            itemoffset := offset;
            ok := true;
          }
        }
      }
    }

    /** GetItemType, GetItemLength and GetItemData of the current item. */
    method GetItem() returns (v: ItemView)
      requires Valid()
      ensures OnChunk() && ItemsLeft() != [] ==> v == ViewItem(ItemsLeft()[0])
      ensures !OnChunk() || ItemsLeft() == [] ==> v == ItemView(NoItem, [])
    {
      if !knownformat || currentchunk == 0 || data[currentchunk + itemoffset] == 0 {
        return ItemView(NoItem, []);
      }
      var at := currentchunk + itemoffset;
      return ItemView(TypeOfId(data[at]), data[at + 2..at + 2 + data[at + 1]]);
    }

    /** The PRIV strings of the current item, both empty when it has none. */
    ghost function CurrentPriv(): (seq<byte>, seq<byte>)
      requires Valid()
      reads this
    {
      if OnChunk() && ItemsLeft() != [] && PrivParts(ItemsLeft()[0]).Some?
      then PrivParts(ItemsLeft()[0]).value else ([], [])
    }

    /** The PRIV prefix and value accessors of the current item. */
    method GetPRIV() returns (prefix: seq<byte>, value: seq<byte>)
      requires Valid()
      ensures (prefix, value) == CurrentPriv()
    {
      hide ScanItems, ScanChunk, ScanChunks;
      prefix, value := [], [];
      if knownformat && currentchunk != 0 {
        var at := currentchunk + itemoffset;
        ItemStep(data, at, End());
        if data[at] == SDES_ID_PRIVATE && data[at + 1] != 0 {
          var prefixlength := data[at + 2];
          if prefixlength <= data[at + 1] - 1 {
            PrivOctets(data, at);
            prefix := data[at + 3..at + 3 + prefixlength];
            value := data[at + 3 + prefixlength..at + 2 + data[at + 1]];
          }
        }
      }
    }

    /** The item loop a receiver runs over the current chunk. */
    method ReadItems() returns (items: seq<ItemView>)
      requires OnChunk()
      modifies this`itemoffset
      ensures OnChunk() && ChunksLeft() == old(ChunksLeft())
      ensures items == ViewItems(ChunksLeft()[0].items)
    {
      hide ScanItems, ScanChunk, ScanChunks;
      items := [];
      var more := GotoFirstItem();
      ghost var all := ChunksLeft()[0].items;
      while more
        invariant OnChunk() && ChunksLeft() == old(ChunksLeft())
        invariant more ==> ItemsLeft() != [] && ViewItems(all) == items + ViewItems(ItemsLeft())
        invariant !more ==> ViewItems(all) == items
        decreases if more then |ItemsLeft()| else 0
      {
        var v := GetItem();
        items := items + [v];
        more := GotoNextItem();
      }
    }

    /** The chunk loop a receiver runs over the packet (do ... while GotoNextChunk). */
    method ReadChunks() returns (views: seq<ChunkView>)
      requires Valid()
      modifies this
      ensures Valid() && views == ViewChunks(Chunks(data))
      ensures |views| == if knownformat then CountField(data) else 0
    {
      hide ScanItems, ScanChunk, ScanChunks, ScanPacket, ViewItems, FromCurrentChunk, FromCurrentItem;
      views := [];
      ghost var all := ViewChunks(Chunks(data));
      var more := GotoFirstChunk();
      while more
        invariant Valid() && knownformat == old(knownformat)
        invariant more ==> OnChunk() && all == views + ViewChunks(ChunksLeft())
        invariant !more ==> all == views
        decreases if more then |ChunksLeft()| else 0
      {
        ghost var left := ChunksLeft();
        var ssrc := GetChunkSSRC();
        var items := ReadItems();
        views := views + [ChunkView(ssrc, items)];
        assert all == views + ViewChunks(left[1..]);
        more := GotoNextChunk();
      }
    }
  }
}
