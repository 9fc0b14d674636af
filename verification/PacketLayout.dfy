/** How the builder lays a compound packet out, and the sizes it predicts. */
module PacketLayout {
  import opened Bytes
  import opened SdesFormat
  import opened RtcpFormat

  /** Reports and chunks per packet: the count field has five bits. */
  const MAX_GROUP := 31

  /** An SDES source while building: its items as octets, and their running total. */
  datatype SdesSource = SdesSource(ssrc: u32, items: seq<seq<byte>>, totalitemsize: nat) {
    predicate Consistent() {
      totalitemsize == |Flatten(items)|
    }

    function NeededBytes(): nat {
      4 + RoundUp4(totalitemsize + 1)
    }

    function NeededBytesWithExtraItem(itemdatalength: nat): nat {
      4 + RoundUp4(totalitemsize + 2 + itemdatalength + 1)
    }

    function AddItem(buf: seq<byte>): SdesSource {
      SdesSource(ssrc, items + [buf], totalitemsize + |buf|)
    }

    function Octets(): seq<byte> {
      WriteChunkRaw(ssrc, Flatten(items))
    }
  }

  // ----- size predictions

  /** Packets needed for `n` report blocks or chunks. */
  function Groups(n: nat): nat {
    if n % MAX_GROUP != 0 then n / MAX_GROUP + 1 else n / MAX_GROUP
  }

  function ReportNeeded(isSR: bool, headerlength: nat, n: nat): nat {
    if n == 0 then if headerlength == 0 then 0 else 4 + headerlength
    else n * 24 + Groups(n) * 8 + if isSR then 20 else 0
  }

  function ReportNeededWithExtraBlock(isSR: bool, n: nat): nat {
    (n + 1) * 24 + Groups(n + 1) * 8 + if isSR then 20 else 0
  }

  function SumNeeded(sources: seq<SdesSource>): nat {
    if |sources| == 0 then 0 else sources[0].NeededBytes() + SumNeeded(sources[1..])
  }

  function SdesNeeded(sources: seq<SdesSource>): nat {
    if sources == [] then 0 else SumNeeded(sources) + Groups(|sources|) * 4
  }

  /** The item goes to the last source. */
  function SdesNeededWithExtraItem(sources: seq<SdesSource>, itemdatalength: nat): nat {
    if sources == [] then 0
    else SumNeeded(sources[..|sources| - 1]) + sources[|sources| - 1].NeededBytesWithExtraItem(itemdatalength)
         + Groups(|sources|) * 4
  }

  /** Zero when there is no source yet, whatever the first one will cost. */
  function SdesNeededWithExtraSource(sources: seq<SdesSource>): nat {
    if sources == [] then 0 else SumNeeded(sources) + 8 + Groups(|sources| + 1) * 4
  }

  lemma {:induction false} SumNeededSnoc(a: seq<SdesSource>, s: SdesSource)
    ensures SumNeeded(a + [s]) == SumNeeded(a) + s.NeededBytes()
  {
    if |a| == 0 {
      assert a + [s] == [s];
    } else {
      SumNeededSnoc(a[1..], s);
      assert (a + [s])[1..] == a[1..] + [s];
    }
  }

  /** The report prediction is what the report takes with one more block. */
  lemma ReportPrediction(isSR: bool, headerlength: nat, n: nat)
    ensures ReportNeededWithExtraBlock(isSR, n) == ReportNeeded(isSR, headerlength, n + 1)
  {}

  /** The item prediction is what the sources take with the item added to the last one. */
  lemma ItemPrediction(sources: seq<SdesSource>, buf: seq<byte>)
    requires sources != [] && |buf| >= 2
    ensures SdesNeededWithExtraItem(sources, |buf| - 2)
         == SdesNeeded(sources[|sources| - 1 := sources[|sources| - 1].AddItem(buf)])
  {
    var front, last := sources[..|sources| - 1], sources[|sources| - 1];
    SumNeededSnoc(front, last.AddItem(buf));
    assert sources[|sources| - 1 := last.AddItem(buf)] == front + [last.AddItem(buf)];
  }

  /** The source prediction is exact but for the first source, which takes 12 octets and is predicted to take none. */
  lemma SourcePrediction(sources: seq<SdesSource>, ssrc: u32)
    ensures SdesNeeded(sources + [SdesSource(ssrc, [], 0)])
         == SdesNeededWithExtraSource(sources) + if sources == [] then 12 else 0
    ensures sources == [] ==> SdesNeeded(sources) == SdesNeededWithExtraSource(sources) == 0
  {
    SumNeededSnoc(sources, SdesSource(ssrc, [], 0));
    assert SdesSource(ssrc, [], 0).NeededBytes() == 8;
  }

  // ----- the packets

  /** The first `MAX_GROUP` elements. */
  function Group<T>(xs: seq<T>): (g: seq<T>)
    ensures |g| <= MAX_GROUP && |g| <= |xs| && (xs != [] ==> g != [])
  {
    if |xs| <= MAX_GROUP then xs else xs[..MAX_GROUP]
  }

  /** A report packet with as many blocks as fit, then receiver reports for the others. */
  function ReportPackets(isSR: bool, head: seq<byte>, blocks: seq<seq<byte>>): (ps: seq<seq<byte>>)
    requires |head| >= 4
    ensures |ps| > 0
    decreases |blocks|
  {
    var first := ReportPacket(isSR, head, Group(blocks));
    if |blocks| <= MAX_GROUP then [first] else [first] + ReportPackets(false, head, blocks[MAX_GROUP..])
  }

  function ReportPacket(isSR: bool, head: seq<byte>, group: seq<seq<byte>>): seq<byte>
    requires |head| >= 4 && |group| <= MAX_GROUP
  {
    if isSR then Framed(|group|, RTCPTYPE_SR, head + Flatten(group))
    else Framed(|group|, RTCPTYPE_RR, head[..4] + Flatten(group))
  }

  function SdesPackets(chunks: seq<seq<byte>>): seq<seq<byte>>
    decreases |chunks|
  {
    if chunks == [] then []
    else
      var first := Framed(|Group(chunks)|, RTCPTYPE_SDES, Flatten(Group(chunks)));
      if |chunks| <= MAX_GROUP then [first] else [first] + SdesPackets(chunks[MAX_GROUP..])
  }

  function SourceOctets(sources: seq<SdesSource>): (r: seq<seq<byte>>)
    ensures |r| == |sources| && forall k :: 0 <= k < |r| ==> r[k] == sources[k].Octets()
  {
    seq(|sources|, k requires 0 <= k < |sources| => sources[k].Octets())
  }

  lemma GroupsStep(n: nat)
    ensures Groups(n + MAX_GROUP) == Groups(n) + 1
    ensures 0 < n <= MAX_GROUP ==> Groups(n) == 1
  {}

  lemma FlattenGroups(xs: seq<seq<byte>>)
    requires |xs| > MAX_GROUP
    ensures |Flatten(xs)| == |Flatten(xs[..MAX_GROUP])| + |Flatten(xs[MAX_GROUP..])|
  {
    FlattenConcat(xs[..MAX_GROUP], xs[MAX_GROUP..]);
    assert xs == xs[..MAX_GROUP] + xs[MAX_GROUP..];
  }

  /** The report part takes what was predicted. */
  lemma {:induction false} ReportPacketsSize(isSR: bool, head: seq<byte>, blocks: seq<seq<byte>>)
    requires |head| >= 4 && (isSR ==> |head| == 24)
    requires forall k :: 0 <= k < |blocks| ==> |blocks[k]| == 24
    ensures |Flatten(ReportPackets(isSR, head, blocks))| == ReportNeeded(isSR, if isSR then 24 else 4, |blocks|)
    decreases |blocks|
  {
    hide Framed;
    var g := Group(blocks);
    FlattenUniform(g, 24);
    var body := (if isSR then head else head[..4]) + Flatten(g);
    FramedSize(|g|, if isSR then RTCPTYPE_SR else RTCPTYPE_RR, body);
    if |blocks| <= MAX_GROUP {
      GroupsStep(|blocks|);
    } else {
      ReportPacketsSize(false, head, blocks[MAX_GROUP..]);
      GroupsStep(|blocks| - MAX_GROUP);
    }
  }

  lemma FramedSize(count: nat, code: byte, body: seq<byte>)
    requires count < 32
    ensures |Framed(count, code, body)| == 4 + |body|
  {}

  lemma {:induction false} SumNeededIsSize(sources: seq<SdesSource>)
    requires forall k :: 0 <= k < |sources| ==> sources[k].Consistent()
    ensures |Flatten(SourceOctets(sources))| == SumNeeded(sources)
  {
    if |sources| > 0 {
      SumNeededIsSize(sources[1..]);
      assert SourceOctets(sources)[1..] == SourceOctets(sources[1..]);
    }
  }

  lemma {:induction false} SdesPacketsSize(chunks: seq<seq<byte>>)
    ensures |Flatten(SdesPackets(chunks))| == |Flatten(chunks)| + Groups(|chunks|) * 4
    decreases |chunks|
  {
    hide Framed;
    if chunks != [] {
      FramedSize(|Group(chunks)|, RTCPTYPE_SDES, Flatten(Group(chunks)));
      if |chunks| <= MAX_GROUP {
        GroupsStep(|chunks|);
      } else {
        FlattenGroups(chunks);
        SdesPacketsSize(chunks[MAX_GROUP..]);
        GroupsStep(|chunks| - MAX_GROUP);
      }
    }
  }

  /** The SDES part takes what was predicted. */
  lemma SdesSize(sources: seq<SdesSource>)
    requires forall k :: 0 <= k < |sources| ==> sources[k].Consistent()
    ensures |Flatten(SdesPackets(SourceOctets(sources)))| == SdesNeeded(sources)
  {
    SumNeededIsSize(sources);
    SdesPacketsSize(SourceOctets(sources));
  }
}
