/** `uuid_to_bin` and `bin_to_uuid`: the byte swap that makes version-1 UUIDs sort by time. */
module UuidLayout {
  import opened Optional

  type Byte = b: int | 0 <= b < 256

  /** A UUID is its sixteen bytes, most significant first. */
  type Uuid = bs: seq<Byte> | |bs| == 16 witness seq(16, i => 0)

  /** `uuid.UUID(bytes=...)` refuses any other length. */
  function FromBytes(bs: seq<Byte>): Option<Uuid> {
    if |bs| == 16 then Some(bs) else None
  }

  function SwapUuidSections(u: Uuid, recovery: bool): seq<Byte> {
    if recovery then u[4..8] + u[2..4] + u[..2] + u[8..]
    else u[6..8] + u[4..6] + u[..4] + u[8..]
  }

  function UuidToBin(u: Uuid, swapFlag: int): seq<Byte> {
    if swapFlag == 1 then SwapUuidSections(u, false) else u
  }

  function BinToUuid(bs: seq<Byte>, swapFlag: int): Option<Uuid> {
    var u := FromBytes(bs);
    if u.None? then None
    else if swapFlag == 1 then FromBytes(SwapUuidSections(u.value, true)) else u
  }

  /** Both ways round, for every UUID, every sixteen bytes and every flag. */
  lemma UuidRoundTrip(u: Uuid, swapFlag: int)
    ensures BinToUuid(UuidToBin(u, swapFlag), swapFlag) == Some(u)
    ensures BinToUuid(u, swapFlag).Some? && UuidToBin(BinToUuid(u, swapFlag).value, swapFlag) == u
  {
    SwapsUndoEachOther(u);
  }

  lemma SwapsUndoEachOther(u: Uuid)
    ensures |SwapUuidSections(u, false)| == 16 && SwapUuidSections(SwapUuidSections(u, false), true) == u
    ensures |SwapUuidSections(u, true)| == 16 && SwapUuidSections(SwapUuidSections(u, true), false) == u
  {
    var parts := u[..4] + u[4..6] + u[6..8] + u[8..];
    assert u == parts;
    var there := SwapUuidSections(u, false);
    assert there[4..8] == u[..4] && there[2..4] == u[4..6] && there[..2] == u[6..8] && there[8..] == u[8..];
    var halves := u[..2] + u[2..4] + u[4..8] + u[8..];
    assert u == halves;
    var back := SwapUuidSections(u, true);
    assert back[6..8] == u[..2] && back[4..6] == u[2..4] && back[..4] == u[4..8] && back[8..] == u[8..];
  }

  /** Only the time fields move, and only with the flag; bytes of any other number are refused. */
  lemma OnlyTimeMoves(u: Uuid, bs: seq<Byte>, swapFlag: int)
    ensures |UuidToBin(u, swapFlag)| == 16 && UuidToBin(u, swapFlag)[8..] == u[8..]
    ensures swapFlag != 1 ==> UuidToBin(u, swapFlag) == u && BinToUuid(u, swapFlag) == Some(u)
    ensures BinToUuid(bs, swapFlag).None? <==> |bs| != 16
  {
  }

  // -------------------------------------------------------------- time order

  /** The number a byte string denotes, most significant byte first. */
  function BigEndian(bs: seq<Byte>): nat {
    if bs == [] then 0 else BigEndian(bs[..|bs| - 1]) * 256 + bs[|bs| - 1]
  }

  /** How Python orders byte strings. */
  predicate BytesLess(a: seq<Byte>, b: seq<Byte>) {
    b != [] && (a == [] || a[0] < b[0] || (a[0] == b[0] && BytesLess(a[1..], b[1..])))
  }

  // The fields of section 4.1.2 of RFC 4122.
  function TimeLow(u: Uuid): nat { BigEndian(u[..4]) }
  function TimeMid(u: Uuid): nat { BigEndian(u[4..6]) }
  function TimeHiAndVersion(u: Uuid): nat { BigEndian(u[6..8]) }
  function Version(u: Uuid): nat { TimeHiAndVersion(u) / 0x1000 }

  /** The 60-bit timestamp. */
  function Timestamp(u: Uuid): nat {
    (TimeHiAndVersion(u) % 0x1000) * 0x1_0000_0000_0000 + TimeMid(u) * 0x1_0000_0000 + TimeLow(u)
  }

  function Power256(n: nat): nat {
    if n == 0 then 1 else 256 * Power256(n - 1)
  }

  lemma {:induction false} BigEndianBound(bs: seq<Byte>)
    ensures BigEndian(bs) < Power256(|bs|)
  {
    if bs != [] { BigEndianBound(bs[..|bs| - 1]); }
  }

  lemma ShiftByOneByte(x: nat, p: nat, y: nat, z: nat)
    ensures (x * p + y) * 256 + z == x * (256 * p) + (y * 256 + z)
  {
  }

  lemma {:induction false} BigEndianConcat(a: seq<Byte>, b: seq<Byte>)
    ensures BigEndian(a + b) == BigEndian(a) * Power256(|b|) + BigEndian(b)
  {
    if b == [] {
      assert a + b == a;
    } else {
      var front, last := b[..|b| - 1], b[|b| - 1];
      assert (a + b)[..|a + b| - 1] == a + front;
      BigEndianConcat(a, front);
      ShiftByOneByte(BigEndian(a), Power256(|front|), BigEndian(front), last);
    }
  }

  /** Byte strings of one length are ordered as the numbers they denote. */
  lemma {:induction false} BytesLessIsNumeric(a: seq<Byte>, b: seq<Byte>)
    requires |a| == |b|
    ensures BytesLess(a, b) <==> BigEndian(a) < BigEndian(b)
  {
    if a != [] {
      var p := Power256(|a| - 1);
      assert a == [a[0]] + a[1..] && b == [b[0]] + b[1..];
      BigEndianConcat([a[0]], a[1..]);
      BigEndianConcat([b[0]], b[1..]);
      assert [a[0]][..0] == [] && [b[0]][..0] == [];
      assert BigEndian([a[0]]) == a[0] && BigEndian([b[0]]) == b[0];
      BigEndianBound(a[1..]);
      BigEndianBound(b[1..]);
      BytesLessIsNumeric(a[1..], b[1..]);
      LeadingByteDecides(a[0], BigEndian(a[1..]), b[0], BigEndian(b[1..]), p);
    }
  }

  lemma LeadingByteDecides(x: nat, r: nat, y: nat, t: nat, p: nat)
    requires r < p && t < p
    ensures x * p + r < y * p + t <==> x < y || (x == y && r < t)
  {
    if x < y {
      assert (x + 1) * p <= y * p;
    } else if y < x {
      assert (y + 1) * p <= x * p;
    }
  }

  /** The first eight stored bytes denote version, then timestamp. */
  lemma StoredBytesDenoteTime(u: Uuid)
    ensures |UuidToBin(u, 1)| == 16
    ensures BigEndian(UuidToBin(u, 1)[..8]) == Version(u) * 0x1000_0000_0000_0000 + Timestamp(u)
    ensures Timestamp(u) < 0x1000_0000_0000_0000
  {
    var head := u[6..8] + u[4..6] + u[..4];
    assert UuidToBin(u, 1)[..8] == head;
    BigEndianConcat(u[6..8] + u[4..6], u[..4]);
    BigEndianConcat(u[6..8], u[4..6]);
    assert Power256(4) == 0x1_0000_0000 by { PowersOf256(); }
    assert Power256(2) == 0x1_0000 by { PowersOf256(); }
    BigEndianBound(u[..4]);
    BigEndianBound(u[4..6]);
    var hv := TimeHiAndVersion(u);
    assert hv == (hv / 0x1000) * 0x1000 + hv % 0x1000;
  }

  lemma PowersOf256()
    ensures Power256(2) == 0x1_0000 && Power256(4) == 0x1_0000_0000
  {
  }

  /** Stored bytes sort by version and then by timestamp; two UUIDs of one version sort by time alone. */
  lemma StoredBytesSortByTime(u: Uuid, v: Uuid)
    ensures |UuidToBin(u, 1)| == 16 && |UuidToBin(v, 1)| == 16
    ensures BytesLess(UuidToBin(u, 1)[..8], UuidToBin(v, 1)[..8]) <==>
              Version(u) < Version(v) || (Version(u) == Version(v) && Timestamp(u) < Timestamp(v))
    ensures Version(u) == Version(v) == 1 ==>
              (BytesLess(UuidToBin(u, 1)[..8], UuidToBin(v, 1)[..8]) <==> Timestamp(u) < Timestamp(v))
  {
    StoredBytesDenoteTime(u);
    StoredBytesDenoteTime(v);
    BytesLessIsNumeric(UuidToBin(u, 1)[..8], UuidToBin(v, 1)[..8]);
  }
}
