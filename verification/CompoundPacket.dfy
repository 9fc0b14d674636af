/** The compound packet parser. */
module CompoundPacket {
  import opened Bytes
  import opened SdesFormat
  import opened RtcpFormat

  datatype ParseResult = Invalid | Parsed(packets: seq<Packet>)

  /** The largest packet its 16-bit length field can describe. */
  const MAX_PACKET := 0x1_0000 * 4

  function PacketOf(d: seq<byte>): Packet
    requires |d| >= 4
  {
    Packet(TypeOfCode(d[1]), d)
  }

  /** The rules for one packet in a compound packet (section 6.1 of RFC 3550). */
  predicate FrameOk(d: seq<byte>, first: bool, last: bool) {
    && |d| >= 4
    && d[0] / 64 == 2
    && (first ==> d[1] == RTCPTYPE_SR || d[1] == RTCPTYPE_RR)
    && |d| == 4 * (GetU16(d, 2) + 1)
    && (d[0] / 32 % 2 != 0 ==> last)
  }

  /** `ps` is a non-empty cut of `d` into acceptable packets. */
  predicate IsSplit(d: seq<byte>, first: bool, ps: seq<seq<byte>>) {
    && |ps| > 0
    && Flatten(ps) == d
    && forall i :: 0 <= i < |ps| ==> FrameOk(ps[i], first && i == 0, i == |ps| - 1)
  }

  function PacketsOf(ps: seq<seq<byte>>): (r: seq<Packet>)
    requires forall i :: 0 <= i < |ps| ==> |ps[i]| >= 4
    ensures |r| == |ps| && forall i :: 0 <= i < |ps| ==> r[i] == PacketOf(ps[i])
  {
    seq(|ps|, i requires 0 <= i < |ps| => PacketOf(ps[i]))
  }

  /** What the parser reads in `d`, packet by packet. */
  function ParseFrom(d: seq<byte>, first: bool): ParseResult
    decreases |d|
  {
    if |d| < 4 || d[0] / 64 != 2 then Invalid
    else if first && d[1] != RTCPTYPE_SR && d[1] != RTCPTYPE_RR then Invalid
    else
      var length := 4 * (GetU16(d, 2) + 1);
      if length > |d| || (d[0] / 32 % 2 != 0 && length != |d|) then Invalid
      else if length == |d| then Parsed([PacketOf(d)])
      else match ParseFrom(d[length..], false)
        case Invalid => Invalid
        case Parsed(ps) => Parsed([PacketOf(d[..length])] + ps)
  }

  /** A result of the parser is a split of the whole input. */
  lemma {:induction false} ParsedIsSplit(d: seq<byte>, first: bool) returns (ps: seq<seq<byte>>)
    requires ParseFrom(d, first).Parsed?
    ensures IsSplit(d, first, ps) && ParseFrom(d, first) == Parsed(PacketsOf(ps))
    decreases |d|
  {
    hide GetU16, TypeOfCode;
    var length := 4 * (GetU16(d, 2) + 1);
    if length == |d| {
      ps := [d];
      assert Flatten(ps) == d;
    } else {
      var rest := ParsedIsSplit(d[length..], false);
      ps := [d[..length]] + rest;
      FrameOfPrefix(d, length, first);
      SplitWith(d[..length], d[length..], first, rest);
      assert d == d[..length] + d[length..];
    }
  }

  lemma FrameOfPrefix(d: seq<byte>, length: nat, first: bool)
    requires 4 <= length < |d| && length == 4 * (GetU16(d, 2) + 1) && d[0] / 64 == 2 && d[0] / 32 % 2 == 0
    requires first ==> d[1] == RTCPTYPE_SR || d[1] == RTCPTYPE_RR
    ensures FrameOk(d[..length], first, false)
  {}

  /** An acceptable packet in front of a split. */
  lemma SplitWith(f: seq<byte>, d: seq<byte>, first: bool, rest: seq<seq<byte>>)
    requires |f| >= 4 && FrameOk(f, first, false) && IsSplit(d, false, rest)
    requires forall i :: 0 <= i < |rest| ==> |rest[i]| >= 4
    ensures IsSplit(f + d, first, [f] + rest) && PacketsOf([f] + rest) == [PacketOf(f)] + PacketsOf(rest)
  {
    hide FrameOk;
    var ps := [f] + rest;
    assert ps[1..] == rest;
    forall i | 0 <= i < |ps|
      ensures FrameOk(ps[i], first && i == 0, i == |ps| - 1)
    {
      assert i > 0 ==> ps[i] == rest[i - 1];
    }
  }

  /** The parser takes an acceptable packet off the front. */
  lemma ParseFrame(f: seq<byte>, rest: seq<byte>, first: bool)
    requires FrameOk(f, first, rest == [])
    ensures rest == [] ==> ParseFrom(f + rest, first) == Parsed([PacketOf(f)])
    ensures rest != [] ==> ParseFrom(f + rest, first) ==
                             match ParseFrom(rest, false)
                             case Invalid => Invalid
                             case Parsed(ps) => Parsed([PacketOf(f)] + ps)
  {
    var d := f + rest;
    assert GetU16(d, 2) == GetU16(f, 2) && d[0] == f[0] && d[1] == f[1];
    if rest == [] {
      assert d == f;
    } else {
      assert d[..|f|] == f && d[|f|..] == rest;
    }
  }

  /** A split of the input is what the parser finds. */
  lemma {:induction false} SplitIsParsed(d: seq<byte>, first: bool, ps: seq<seq<byte>>)
    requires IsSplit(d, first, ps)
    ensures ParseFrom(d, first) == Parsed(PacketsOf(ps))
    decreases |ps|
  {
    hide ParseFrom, GetU16;
    var rest := ps[1..];
    assert FrameOk(ps[0], first, |ps| == 1);
    if |ps| > 1 {
      assert FrameOk(rest[0], false, |rest| == 1);
      FlattenNonEmpty(rest);
      SplitIsParsed(Flatten(rest), false, rest);
      assert PacketsOf(ps) == [PacketOf(ps[0])] + PacketsOf(rest);
    }
    ParseFrame(ps[0], Flatten(rest), first);
  }

  lemma FlattenNonEmpty(ps: seq<seq<byte>>)
    requires |ps| > 0 && FrameOk(ps[0], false, |ps| == 1)
    ensures Flatten(ps) != []
  {}

  class RTCPCompoundPacket {
    var error: bool
    var compoundpacket: array?<byte>
    var rtcppacklist: seq<Packet>

    constructor (packet: array<byte>)
      ensures error == ParseFrom(packet[..], true).Invalid?
      ensures error ==> compoundpacket == null && rtcppacklist == []
      ensures !error ==> compoundpacket == packet && Parsed(rtcppacklist) == ParseFrom(packet[..], true)
    {
      error := false;
      compoundpacket := null;
      rtcppacklist := [];
      new;
      var ok := ParseData(packet);
      error := !ok;
      if ok {
        compoundpacket := packet;
      }
    }

    /** `data` is the offset reached and `datalen` what is left from there. */
    method ParseData(packet: array<byte>) returns (ok: bool)
      requires rtcppacklist == []
      modifies this`rtcppacklist
      ensures ok == ParseFrom(packet[..], true).Parsed?
      ensures rtcppacklist == if ok then ParseFrom(packet[..], true).packets else []
    {
      hide ParseFrom, Resume, Takes, GetU16, PacketOf;
      ghost var whole := ParseFrom(packet[..], true);
      var data: nat, datalen: nat := 0, packet.Length;
      Start(packet[..]);
      if datalen < 4 {
        return false;
      }
      assert packet[0..] == packet[..];
      var first := true;
      ok := true;
      while ok && (first || datalen >= 4)
        invariant data + datalen == packet.Length && (first ==> datalen >= 4)
        invariant ok ==> Resume(whole, rtcppacklist, packet[data..], first)
        invariant !ok ==> whole.Invalid?
        decreases ok, datalen
      {
        ghost var rest := packet[data..];
        var good, length := CheckHeader(packet, data, first);
        if !good
        {
          Stop(whole, rtcppacklist, rest, first);
          ok := false;
        } else {
          Cut(packet, data, length);
          Advance(whole, rtcppacklist, rest, first, length);
          first := false;
          rtcppacklist := rtcppacklist + [PacketOf(packet[data..data + length])];
          datalen := datalen - length;
          data := data + length;
        }
      }
      if ok && datalen != 0 {
        Stop(whole, rtcppacklist, packet[data..], first);
        ok := false;
      }
      if ok {
        assert packet[data..] == [];
        Done(whole, rtcppacklist);
      } else {
        rtcppacklist := [];
      }
    }

    /** The rest starts with an acceptable packet of `length` octets. */
    static ghost predicate Takes(rest: seq<byte>, first: bool, length: nat) {
      && 4 <= length <= |rest|
      && rest[0] / 64 == 2 && (first ==> rest[1] == RTCPTYPE_SR || rest[1] == RTCPTYPE_RR)
      && length == 4 * (GetU16(rest, 2) + 1) && (rest[0] / 32 % 2 != 0 ==> length == |rest|)
    }

    static lemma Stop(whole: ParseResult, done: seq<Packet>, rest: seq<byte>, first: bool)
      requires Resume(whole, done, rest, first)
      requires if first || |rest| >= 4 then |rest| >= 4 && !Takes(rest, first, 4 * (GetU16(rest, 2) + 1))
                 else rest != []
      ensures whole == Invalid
    {}

    static lemma Done(whole: ParseResult, done: seq<Packet>)
      requires Resume(whole, done, [], false)
      ensures whole == Parsed(done)
    {}

    static lemma Start(d: seq<byte>)
      ensures |d| < 4 ==> ParseFrom(d, true).Invalid?
      ensures |d| >= 4 ==> Resume(ParseFrom(d, true), [], d, true)
    {}

    static lemma Cut(packet: array<byte>, data: nat, length: nat)
      requires data + length <= packet.Length
      ensures packet[data..][..length] == packet[data..data + length]
      ensures packet[data..][length..] == packet[data + length..]
    {}

    /** Taking one packet off the rest. */
    static lemma Advance(whole: ParseResult, done: seq<Packet>, rest: seq<byte>, first: bool, length: nat)
      requires Resume(whole, done, rest, first) && Takes(rest, first, length)
      ensures Resume(whole, done + [PacketOf(rest[..length])], rest[length..], false)
    {
      if length == |rest| {
        assert rest[..length] == rest;
      } else if ParseFrom(rest[length..], false).Parsed? {
        Assoc(done, [PacketOf(rest[..length])], ParseFrom(rest[length..], false).packets);
      }
    }

    /** The checks on the common header of the packet at `data`. */
    static method CheckHeader(packet: array<byte>, data: nat, first: bool) returns (good: bool, length: nat)
      requires data + 4 <= packet.Length
      ensures length == 4 * (GetU16(packet[data..], 2) + 1)
      ensures good == Takes(packet[data..], first, length)
      ensures good ==> 4 <= length <= packet.Length - data
    {
      var datalen := packet.Length - data;
      good := packet[data] / 64 == 2;
      if first && packet[data + 1] != RTCPTYPE_SR && packet[data + 1] != RTCPTYPE_RR {
        good := false;
      }
      var high: int := packet[data + 2];
      length := (high * 0x100 + packet[data + 3] + 1) * 4;
      if length > datalen {
        good := false;
      }
      if packet[data] / 32 % 2 != 0 && length != datalen {
        good := false;
      }
    }

    /** The whole result is the packets found so far followed by what is in the rest. */
    static ghost predicate Resume(whole: ParseResult, done: seq<Packet>, rest: seq<byte>, first: bool) {
      if rest == [] && !first then whole == Parsed(done)
      else whole == match ParseFrom(rest, first) case Invalid => Invalid case Parsed(ps) => Parsed(done + ps)
    }
  }
}
