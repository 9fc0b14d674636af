/** Octets, network byte order and the concatenation of buffers. */
module Bytes {
  type byte = x: int | 0 <= x < 0x100
  type u16 = x: int | 0 <= x < 0x1_0000
  type u32 = x: int | 0 <= x < 0x1_0000_0000

  /** htons: the two octets of `x`, most significant first. */
  function PutU16(x: u16): (s: seq<byte>)
    ensures |s| == 2
  {
    [x / 0x100, x % 0x100]
  }

  /** htonl: the four octets of `x`, most significant first. */
  function PutU32(x: u32): (s: seq<byte>)
    ensures |s| == 4
  {
    PutU16(x / 0x1_0000) + PutU16(x % 0x1_0000)
  }

  /** ntohs of the two octets at `at`. */
  function GetU16(d: seq<byte>, at: nat): u16
    requires at + 2 <= |d|
  {
    var hi: int := d[at];
    hi * 0x100 + d[at + 1]
  }

  /** ntohl of the four octets at `at`. */
  function GetU32(d: seq<byte>, at: nat): u32
    requires at + 4 <= |d|
  {
    var hi: int := GetU16(d, at);
    hi * 0x1_0000 + GetU16(d, at + 2)
  }

  /** `part` occurs in `d` at offset `at`. */
  predicate At(d: seq<byte>, at: nat, part: seq<byte>) {
    at + |part| <= |d| && d[at..at + |part|] == part
  }

  lemma AtSplit(d: seq<byte>, at: nat, a: seq<byte>, b: seq<byte>)
    requires At(d, at, a + b)
    ensures At(d, at, a) && At(d, at + |a|, b)
  {
    var whole := d[at..at + |a + b|];
    assert whole[..|a|] == a && whole[|a|..] == b;
    assert d[at..at + |a|] == whole[..|a|];
    assert d[at + |a|..at + |a| + |b|] == whole[|a|..];
  }

  lemma GetPutU32(d: seq<byte>, at: nat, x: u32)
    requires At(d, at, PutU32(x))
    ensures GetU32(d, at) == x
  {
    assert d[at..at + 4] == PutU32(x);
    assert d[at] == PutU32(x)[0] && d[at + 1] == PutU32(x)[1]
        && d[at + 2] == PutU32(x)[2] && d[at + 3] == PutU32(x)[3];
  }

  /** The buffers of `parts`, one after the other. */
  function Flatten(parts: seq<seq<byte>>): seq<byte> {
    if |parts| == 0 then [] else parts[0] + Flatten(parts[1..])
  }

  lemma SubSlice<T>(s: seq<T>, lo: nat, hi: nat, i: nat, j: nat)
    requires lo <= hi <= |s| && i <= j <= hi - lo
    ensures s[lo..hi][i..j] == s[lo + i..lo + j]
  {
    forall k | 0 <= k < j - i
      ensures s[lo..hi][i..j][k] == s[lo + i..lo + j][k]
    {
      assert s[lo..hi][i + k] == s[lo + (i + k)];
    }
  }

  lemma HeadTail<T>(s: seq<T>)
    requires |s| > 0
    ensures [s[0]] + s[1..] == s
  {}

  lemma Assoc<T>(a: seq<T>, b: seq<T>, c: seq<T>)
    ensures (a + b) + c == a + (b + c)
  {}

  lemma {:induction false} FlattenConcat(a: seq<seq<byte>>, b: seq<seq<byte>>)
    ensures Flatten(a + b) == Flatten(a) + Flatten(b)
  {
    if |a| == 0 {
      assert a + b == b;
    } else {
      assert (a + b)[1..] == a[1..] + b;
      FlattenConcat(a[1..], b);
      Assoc(a[0], Flatten(a[1..]), Flatten(b));
    }
  }

  lemma FlattenSnoc(a: seq<seq<byte>>, x: seq<byte>)
    ensures Flatten(a + [x]) == Flatten(a) + x
  {
    FlattenConcat(a, [x]);
    assert Flatten([x]) == x;
  }

  /** The prefix of a list of buffers up to and including the k-th. */
  lemma FlattenTake(a: seq<seq<byte>>, k: nat)
    requires k < |a|
    ensures Flatten(a[..k + 1]) == Flatten(a[..k]) + a[k]
  {
    FlattenSnoc(a[..k], a[k]);
    assert a[..k + 1] == a[..k] + [a[k]];
  }

  /** Buffers that all have length `n` take n times their number. */
  lemma {:induction false} FlattenUniform(a: seq<seq<byte>>, n: nat)
    requires forall i :: 0 <= i < |a| ==> |a[i]| == n
    ensures |Flatten(a)| == n * |a|
  {
    if |a| > 0 {
      FlattenUniform(a[1..], n);
    }
  }

  /** memcpy into a buffer: everything before the destination stays as it was. */
  method CopyTo(buf: array<byte>, at: nat, src: seq<byte>)
    requires at + |src| <= buf.Length
    modifies buf
    ensures buf[..at + |src|] == old(buf[..at]) + src
  {
    for i := 0 to |src|
      invariant buf[..at] == old(buf[..at])
      invariant buf[at..at + i] == src[..i]
    {
      buf[at + i] := src[i];
      assert buf[at..at + i + 1] == buf[at..at + i] + [src[i]];
    }
    assert buf[..at + |src|] == buf[..at] + buf[at..at + |src|];
  }
}
