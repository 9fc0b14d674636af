/** The writing loops of EndBuild: `curbuf` is where the next packet goes, `offset` the cursor inside it. */
module PacketWriter {
  import opened Bytes
  import opened SdesFormat
  import opened RtcpFormat
  import opened PacketLayout
  import opened CompoundPacket

  /** Fills in the common header in front of a body that has been written already. */
  method PutHeader(buf: array<byte>, curbuf: nat, count: nat, code: byte, offset: nat, ghost body: seq<byte>)
    requires offset == 4 + |body| && curbuf + offset <= buf.Length && count < 32
    requires buf[curbuf + 4..curbuf + offset] == body
    modifies buf
    ensures buf[..curbuf + offset] == old(buf[..curbuf]) + Framed(count, code, body)
  {
    var length := (offset / 4 - 1) % 0x1_0000;
    buf[curbuf] := 128 + count;
    buf[curbuf + 1] := code;
    buf[curbuf + 2] := length / 0x100;
    buf[curbuf + 3] := length % 0x100;
    assert buf[curbuf..curbuf + 4] == Header(count, code, offset);
    assert buf[..curbuf] == old(buf[..curbuf]);
    assert buf[curbuf + 4..curbuf + offset] == old(buf[curbuf + 4..curbuf + offset]);
    assert buf[..curbuf + offset] == buf[..curbuf] + (buf[curbuf..curbuf + 4] + buf[curbuf + 4..curbuf + offset]);
  }

  /** Two stretches written one after the other. */
  lemma Joined(s: seq<byte>, start: seq<byte>, a: seq<byte>, b: seq<byte>)
    requires s == start + a + b
    ensures s[|start|..] == a + b && s[..|start|] == start
  {}

  /** Copies report blocks from number `it` on, at most 31 of them. */
  method CopyGroup(buf: array<byte>, at: nat, blocks: seq<seq<byte>>, it: nat) returns (end: nat, next: nat, count: nat)
    requires it <= |blocks| && at + |Flatten(Group(blocks[it..]))| <= buf.Length
    modifies buf
    ensures count == |Group(blocks[it..])| && next == it + count
    ensures end == at + |Flatten(Group(blocks[it..]))|
    ensures buf[..end] == old(buf[..at]) + Flatten(Group(blocks[it..]))
  {
    ghost var group := Group(blocks[it..]);
    end, next, count := at, it, 0;
    while next != |blocks| && count < 31
      invariant count <= |group| && next == it + count && end <= buf.Length
      invariant end == at + |Flatten(group[..count])|
      invariant buf[..end] == old(buf[..at]) + Flatten(group[..count])
    {
      FlattenTake(group, count);
      PrefixFits(group, count + 1);
      assert blocks[next] == group[count];
      Assoc(old(buf[..at]), Flatten(group[..count]), group[count]);
      CopyTo(buf, end, blocks[next]);
      end := end + |blocks[next]|;
      count := count + 1;
      next := next + 1;
    }
    assert group[..count] == group;
  }

  lemma PrefixFits(a: seq<seq<byte>>, k: nat)
    requires k <= |a|
    ensures |Flatten(a[..k])| <= |Flatten(a)|
  {
    FlattenConcat(a[..k], a[k..]);
    assert a == a[..k] + a[k..];
  }

  /** One report packet with the blocks from number `it` on. */
  method WriteReportPacket(buf: array<byte>, curbuf: nat, isSR: bool, head: seq<byte>, blocks: seq<seq<byte>>, it: nat)
    returns (offset: nat, next: nat)
    requires |head| >= 4 && it <= |blocks|
    requires curbuf + |ReportPacket(isSR, head, Group(blocks[it..]))| <= buf.Length
    modifies buf
    ensures next == it + |Group(blocks[it..])|
    ensures offset == |ReportPacket(isSR, head, Group(blocks[it..]))|
    ensures buf[..curbuf + offset] == old(buf[..curbuf]) + ReportPacket(isSR, head, Group(blocks[it..]))
  {
    hide Flatten, Framed;
    ghost var body := Flatten(Group(blocks[it..]));
    var part := if isSR then head else head[..4];
    FramedSize(|Group(blocks[it..])|, if isSR then RTCPTYPE_SR else RTCPTYPE_RR, part + body);
    ghost var start := buf[..curbuf + 4];
    CopyTo(buf, curbuf + 4, part);
    var end, count;
    end, next, count := CopyGroup(buf, curbuf + 4 + |part|, blocks, it);
    offset := end - curbuf;
    Joined(buf[..end], start, part, body);
    assert buf[..curbuf] == start[..curbuf];
    assert buf[curbuf + 4..end] == buf[..end][curbuf + 4..];
    PutHeader(buf, curbuf, count, if isSR then RTCPTYPE_SR else RTCPTYPE_RR, offset, part + body);
  }

  /** Room for the first packet of a list, and for the others after it. */
  lemma FirstFits(all: seq<seq<byte>>, written: seq<seq<byte>>, p: seq<byte>, rest: seq<seq<byte>>)
    requires all == written + ([p] + rest)
    ensures |Flatten(written)| + |p| <= |Flatten(all)|
    ensures Flatten(written + [p]) == Flatten(written) + p
    ensures all == (written + [p]) + rest
  {
    FlattenConcat(written, [p] + rest);
    FlattenConcat([p], rest);
    FlattenSnoc(written, p);
    assert Flatten([p]) == p;
  }

  /** The packet objects created for these octets. */
  ghost predicate MadeFrom(packets: seq<Packet>, octets: seq<seq<byte>>) {
    && |packets| == |octets|
    && forall k :: 0 <= k < |packets| ==> |octets[k]| >= 4 && packets[k] == PacketOf(octets[k])
  }

  lemma MadeSnoc(packets: seq<Packet>, octets: seq<seq<byte>>, t: PacketType, count: nat, code: byte, body: seq<byte>)
    requires MadeFrom(packets, octets) && count < 32 && t == TypeOfCode(code)
    ensures MadeFrom(packets + [Packet(t, Framed(count, code, body))], octets + [Framed(count, code, body)])
  {
    assert Framed(count, code, body)[1] == code;
  }

  lemma MadeSnocReport(packets: seq<Packet>, octets: seq<seq<byte>>, isSR: bool, head: seq<byte>, group: seq<seq<byte>>)
    requires |head| >= 4 && |group| <= MAX_GROUP && MadeFrom(packets, octets)
    ensures MadeFrom(packets + [Packet(if isSR then SR else RR, ReportPacket(isSR, head, group))],
                     octets + [ReportPacket(isSR, head, group)])
  {
    hide Framed, MadeFrom, Flatten;
    MadeSnoc(packets, octets, if isSR then SR else RR, |group|, if isSR then RTCPTYPE_SR else RTCPTYPE_RR,
             (if isSR then head else head[..4]) + Flatten(group));
  }

  lemma NothingWritten()
    ensures Flatten([]) == [] && MadeFrom([], [])
  {}

  lemma MadeConcat(p: seq<Packet>, a: seq<seq<byte>>, q: seq<Packet>, b: seq<seq<byte>>)
    requires MadeFrom(p, a) && MadeFrom(q, b)
    ensures MadeFrom(p + q, a + b)
  {
    hide PacketOf;
  }

  /** The octets and sizes of four lists of packets written one after the other. */
  lemma PartSizes(r: seq<seq<byte>>, s: seq<seq<byte>>, a: seq<seq<byte>>, b: seq<seq<byte>>)
    ensures Flatten(r + s + a + b) == Flatten(r) + Flatten(s) + Flatten(a) + Flatten(b)
  {
    FlattenConcat(r + s + a, b);
    FlattenConcat(r + s, a);
    FlattenConcat(r, s);
  }

  /** The packets after the first one. */
  lemma AfterFirst(isSR: bool, head: seq<byte>, left: seq<seq<byte>>) returns (rest: seq<seq<byte>>)
    requires |head| >= 4
    ensures ReportPackets(isSR, head, left) == [ReportPacket(isSR, head, Group(left))] + rest
    ensures |Group(left)| == |left| ==> rest == []
    ensures |Group(left)| < |left| ==> rest == ReportPackets(false, head, left[|Group(left)|..])
  {
    hide ReportPacket;
    rest := if |left| <= MAX_GROUP then [] else ReportPackets(false, head, left[MAX_GROUP..]);
  }

  /** The report part of EndBuild. */
  method WriteReports(buf: array<byte>, start: nat, isSR: bool, head: seq<byte>, blocks: seq<seq<byte>>)
    returns (curbuf: nat, packets: seq<Packet>)
    requires |head| >= 4 && start + |Flatten(ReportPackets(isSR, head, blocks))| <= buf.Length
    modifies buf
    ensures curbuf == start + |Flatten(ReportPackets(isSR, head, blocks))|
    ensures buf[..curbuf] == old(buf[..start]) + Flatten(ReportPackets(isSR, head, blocks))
    ensures MadeFrom(packets, ReportPackets(isSR, head, blocks))
  {
    hide Flatten, ReportPacket, MadeFrom, ReportPackets, Group;
    ghost var all := ReportPackets(isSR, head, blocks);
    ghost var written: seq<seq<byte>> := [];
    assert blocks[0..] == blocks && written + all == all;
    NothingWritten();
    packets := [];
    curbuf := start;
    var it, firstpacket, done := 0, true, false;
    while !done
      invariant it <= |blocks|
      invariant !done ==> all == written + ReportPackets(firstpacket && isSR, head, blocks[it..])
      invariant done ==> all == written
      invariant curbuf == start + |Flatten(written)| <= buf.Length
      invariant buf[..curbuf] == old(buf[..start]) + Flatten(written)
      invariant MadeFrom(packets, written)
      decreases !done, |blocks| - it
    {
      ghost var left := blocks[it..];
      ghost var p := ReportPacket(firstpacket && isSR, head, Group(left));
      ghost var rest := AfterFirst(firstpacket && isSR, head, left);
      FirstFits(all, written, p, rest);
      var offset, next := WriteReportPacket(buf, curbuf, firstpacket && isSR, head, blocks, it);
      Assoc(old(buf[..start]), Flatten(written), p);
      MadeSnocReport(packets, written, firstpacket && isSR, head, Group(left));
      assert buf[curbuf..curbuf + offset] == p;
      packets := packets + [Packet(if firstpacket && isSR then SR else RR, buf[curbuf..curbuf + offset])];
      firstpacket := false;
      written := written + [p];
      assert blocks[next..] == left[|Group(left)|..];
      it := next;
      curbuf := curbuf + offset;
      if it == |blocks| {
        done := true;
      }
    }
  }

  /** One SDES source: SSRC, items, the terminating zero and zeros up to the 32-bit boundary. */
  method WriteSource(buf: array<byte>, curbuf: nat, from: nat, source: SdesSource) returns (offset: nat)
    requires from % 4 == 0 && curbuf + from + |source.Octets()| <= buf.Length
    modifies buf
    ensures offset == from + |source.Octets()|
    ensures buf[..curbuf + offset] == old(buf[..curbuf + from]) + source.Octets()
  {
    hide PutU32, Flatten, Zeros, RoundUp4;
    ghost var start := buf[..curbuf + from];
    ghost var items := Flatten(source.items);
    AlignAnywhere(from + 4, |items|);
    CopyTo(buf, curbuf + from, PutU32(source.ssrc));
    offset := CopyItems(buf, curbuf, from + 4, source.items);
    offset := EndItems(buf, curbuf, offset);
    ghost var pad := Zeros(RoundUp4(|items| + 1) - |items|);
    Assoc(start, PutU32(source.ssrc), items);
    Assoc(start, PutU32(source.ssrc) + items, pad);
    Assoc(PutU32(source.ssrc), items, pad);
  }

  lemma AlignAnywhere(base: nat, n: nat)
    requires base % 4 == 0
    ensures RoundUp4(base + n + 1) - (base + n) == RoundUp4(n + 1) - n
  {}

  /** The zero octet that ends an item list, then zeros up to the 32-bit boundary. */
  method EndItems(buf: array<byte>, curbuf: nat, from: nat) returns (offset: nat)
    requires curbuf + RoundUp4(from + 1) <= buf.Length
    modifies buf
    ensures offset == RoundUp4(from + 1)
    ensures buf[..curbuf + offset] == old(buf[..curbuf + from]) + Zeros(RoundUp4(from + 1) - from)
  {
    ghost var head := buf[..curbuf + from];
    CopyTo(buf, curbuf + from, [0]);
    offset := from + 1;
    var r := offset % 4;
    if r != 0 {
      CopyTo(buf, curbuf + offset, Zeros(4 - r));
      offset := offset + (4 - r);
      ZerosJoin(head, 4 - r);
    } else {
      ZerosJoin(head, 0);
    }
  }

  lemma ZerosJoin(head: seq<byte>, n: nat)
    ensures head + [0] + Zeros(n) == head + Zeros(1 + n)
    ensures head + [0] == head + Zeros(1)
  {}

  method CopyItems(buf: array<byte>, curbuf: nat, from: nat, items: seq<seq<byte>>) returns (offset: nat)
    requires curbuf + from + |Flatten(items)| <= buf.Length
    modifies buf
    ensures offset == from + |Flatten(items)|
    ensures buf[..curbuf + offset] == old(buf[..curbuf + from]) + Flatten(items)
  {
    offset := from;
    for k := 0 to |items|
      invariant offset == from + |Flatten(items[..k])| && curbuf + offset <= buf.Length
      invariant buf[..curbuf + offset] == old(buf[..curbuf + from]) + Flatten(items[..k])
    {
      FlattenTake(items, k);
      PrefixFits(items, k + 1);
      Assoc(old(buf[..curbuf + from]), Flatten(items[..k]), items[k]);
      CopyTo(buf, curbuf + offset, items[k]);
      offset := offset + |items[k]|;
    }
    assert items[..|items|] == items;
  }

  /** The sources from number `it` on, at most 31 of them, behind the header. */
  method WriteGroup(buf: array<byte>, curbuf: nat, sources: seq<SdesSource>, it: nat)
    returns (offset: nat, next: nat, sourcecount: nat)
    requires it <= |sources| && curbuf + 4 + |Flatten(Group(SourceOctets(sources[it..])))| <= buf.Length
    modifies buf
    ensures sourcecount == |Group(sources[it..])| && next == it + sourcecount
    ensures offset == 4 + |Flatten(Group(SourceOctets(sources[it..])))|
    ensures buf[..curbuf + offset] == old(buf[..curbuf + 4]) + Flatten(Group(SourceOctets(sources[it..])))
  {
    hide Flatten, PutU32, Zeros;
    ghost var group := Group(SourceOctets(sources[it..]));
    NothingWritten();
    assert group[..0] == [];
    offset, next, sourcecount := 4, it, 0;
    while next != |sources| && sourcecount < 31
      invariant sourcecount <= |group| && next == it + sourcecount
      invariant offset == 4 + |Flatten(group[..sourcecount])| && curbuf + offset <= buf.Length && offset % 4 == 0
      invariant buf[..curbuf + offset] == old(buf[..curbuf + 4]) + Flatten(group[..sourcecount])
    {
      FlattenTake(group, sourcecount);
      PrefixFits(group, sourcecount + 1);
      assert group[sourcecount] == sources[next].Octets();
      Assoc(old(buf[..curbuf + 4]), Flatten(group[..sourcecount]), group[sourcecount]);
      offset := WriteSource(buf, curbuf, offset, sources[next]);
      next := next + 1;
      sourcecount := sourcecount + 1;
    }
    assert group[..sourcecount] == group;
  }

  /** The SDES packets after the first one. */
  lemma AfterFirstSdes(left: seq<seq<byte>>) returns (rest: seq<seq<byte>>)
    requires left != []
    ensures SdesPackets(left) == [Framed(|Group(left)|, RTCPTYPE_SDES, Flatten(Group(left)))] + rest
    ensures |Group(left)| == |left| ==> rest == []
    ensures |Group(left)| < |left| ==> rest == SdesPackets(left[|Group(left)|..])
  {
    hide Framed, Flatten;
    rest := if |left| <= MAX_GROUP then [] else SdesPackets(left[MAX_GROUP..]);
  }

  lemma GroupSize<A, B>(a: seq<A>, b: seq<B>)
    requires |a| == |b|
    ensures |Group(a)| == |Group(b)|
  {}

  lemma SourceOctetsFrom(sources: seq<SdesSource>, it: nat)
    requires it <= |sources|
    ensures SourceOctets(sources)[it..] == SourceOctets(sources[it..])
  {}

  /** The SDES part of EndBuild. */
  method WriteSdes(buf: array<byte>, start: nat, sources: seq<SdesSource>) returns (curbuf: nat, packets: seq<Packet>)
    requires sources != [] && start + |Flatten(SdesPackets(SourceOctets(sources)))| <= buf.Length
    modifies buf
    ensures curbuf == start + |Flatten(SdesPackets(SourceOctets(sources)))|
    ensures buf[..curbuf] == old(buf[..start]) + Flatten(SdesPackets(SourceOctets(sources)))
    ensures MadeFrom(packets, SdesPackets(SourceOctets(sources)))
  {
    hide Flatten, MadeFrom, SdesPackets, Group, Framed, SourceOctets;
    ghost var octets := SourceOctets(sources);
    ghost var all := SdesPackets(octets);
    ghost var written: seq<seq<byte>> := [];
    assert octets[0..] == octets && written + all == all;
    NothingWritten();
    packets := [];
    curbuf := start;
    var sourceit, done := 0, false;
    while !done
      invariant sourceit <= |sources|
      invariant !done ==> sourceit < |sources| && all == written + SdesPackets(octets[sourceit..])
      invariant done ==> all == written
      invariant curbuf == start + |Flatten(written)| <= buf.Length
      invariant buf[..curbuf] == old(buf[..start]) + Flatten(written)
      invariant MadeFrom(packets, written)
      decreases !done, |sources| - sourceit
    {
      ghost var left := octets[sourceit..];
      ghost var body := Flatten(Group(left));
      ghost var p := Framed(|Group(left)|, RTCPTYPE_SDES, body);
      ghost var rest := AfterFirstSdes(left);
      FramedSize(|Group(left)|, RTCPTYPE_SDES, body);
      FirstFits(all, written, p, rest);
      SourceOctetsFrom(sources, sourceit);
      GroupSize(left, sources[sourceit..]);
      var offset, sourcecount;
      ghost var before := buf[..curbuf + 4];
      offset, sourceit, sourcecount := WriteGroup(buf, curbuf, sources, sourceit);
      Joined(buf[..curbuf + offset], before, body, []);
      assert buf[..curbuf] == before[..curbuf];
      assert buf[curbuf + 4..curbuf + offset] == body;
      PutHeader(buf, curbuf, sourcecount, RTCPTYPE_SDES, offset, body);
      Assoc(old(buf[..start]), Flatten(written), p);
      MadeSnoc(packets, written, SDES, |Group(left)|, RTCPTYPE_SDES, body);
      assert buf[curbuf..curbuf + offset] == p;
      packets := packets + [Packet(SDES, buf[curbuf..curbuf + offset])];
      written := written + [p];
      assert octets[sourceit..] == left[|Group(left)|..];
      curbuf := curbuf + offset;
      if sourceit == |sources| {
        done := true;
      }
    }
  }

  /** The APP and BYE parts of EndBuild: packets that were framed when they were added. */
  method WriteBuffers(buf: array<byte>, start: nat, parts: seq<seq<byte>>, t: PacketType)
    returns (curbuf: nat, packets: seq<Packet>)
    requires start + |Flatten(parts)| <= buf.Length
    requires forall k :: 0 <= k < |parts| ==> |parts[k]| >= 4 && TypeOfCode(parts[k][1]) == t
    modifies buf
    ensures curbuf == start + |Flatten(parts)|
    ensures buf[..curbuf] == old(buf[..start]) + Flatten(parts)
    ensures MadeFrom(packets, parts)
  {
    packets := [];
    curbuf := start;
    for k := 0 to |parts|
      invariant curbuf == start + |Flatten(parts[..k])| <= buf.Length
      invariant buf[..curbuf] == old(buf[..start]) + Flatten(parts[..k])
      invariant MadeFrom(packets, parts[..k])
    {
      FlattenTake(parts, k);
      PrefixFits(parts, k + 1);
      Assoc(old(buf[..start]), Flatten(parts[..k]), parts[k]);
      CopyTo(buf, curbuf, parts[k]);
      assert buf[curbuf..curbuf + |parts[k]|] == parts[k];
      packets := packets + [Packet(t, buf[curbuf..curbuf + |parts[k]|])];
      curbuf := curbuf + |parts[k]|;
    }
    assert parts[..|parts|] == parts;
  }

  /** The SDES part, which is skipped when there is no source. */
  method WriteAnySdes(buf: array<byte>, start: nat, sources: seq<SdesSource>)
          returns (curbuf: nat, packets: seq<Packet>)
    requires start + |Flatten(SdesPackets(SourceOctets(sources)))| <= buf.Length
    modifies buf
    ensures curbuf == start + |Flatten(SdesPackets(SourceOctets(sources)))|
    ensures buf[..curbuf] == old(buf[..start]) + Flatten(SdesPackets(SourceOctets(sources)))
    ensures MadeFrom(packets, SdesPackets(SourceOctets(sources)))
  {
    if sources != [] {
      curbuf, packets := WriteSdes(buf, start, sources);
    } else {
      curbuf, packets := start, [];
    }
  }

  /** The writing part of EndBuild. */
  method WriteCompound(buf: array<byte>, isSR: bool, head: seq<byte>, blocks: seq<seq<byte>>, sources: seq<SdesSource>,
                       apps: seq<seq<byte>>, byes: seq<seq<byte>>) returns (packets: seq<Packet>)
    requires |head| >= 4
    requires forall k :: 0 <= k < |apps| ==> |apps[k]| >= 4 && TypeOfCode(apps[k][1]) == APP
    requires forall k :: 0 <= k < |byes| ==> |byes[k]| >= 4 && TypeOfCode(byes[k][1]) == BYE
    requires buf.Length ==
               |Flatten(ReportPackets(isSR, head, blocks) + SdesPackets(SourceOctets(sources)) + apps + byes)|
    modifies buf
    ensures buf[..] == Flatten(ReportPackets(isSR, head, blocks) + SdesPackets(SourceOctets(sources)) + apps + byes)
    ensures MadeFrom(packets, ReportPackets(isSR, head, blocks) + SdesPackets(SourceOctets(sources)) + apps + byes)
  {
    hide Flatten, MadeFrom, ReportPackets, SdesPackets, SourceOctets;
    ghost var r, s := ReportPackets(isSR, head, blocks), SdesPackets(SourceOctets(sources));
    PartSizes(r, s, apps, byes);
    var curbuf, more;
    curbuf, packets := WriteReports(buf, 0, isSR, head, blocks);
    assert buf[..curbuf] == Flatten(r);
    curbuf, more := WriteAnySdes(buf, curbuf, sources);
    MadeConcat(packets, r, more, s);
    packets := packets + more;
    curbuf, more := WriteBuffers(buf, curbuf, apps, APP);
    MadeConcat(packets, r + s, more, apps);
    packets := packets + more;
    curbuf, more := WriteBuffers(buf, curbuf, byes, BYE);
    MadeConcat(packets, r + s + apps, more, byes);
    packets := packets + more;
    assert buf[..curbuf] == buf[..];
  }
}
