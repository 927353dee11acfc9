/** The on-disk format of a virtual tape: 48-byte block headers chained through a flat file. */
module TapeFormat {
  import opened Bytes
  import Crc32c

  const HDR_SIZE: nat := 48
  const MAM_SIZE: nat := 1104
  const FIRST_HDR: nat := 1152

  const BLK_UNCOMPRESS_DATA: nat := 0x02
  const BLK_BOT: nat := 0x10
  const BLK_EOD: nat := 0x20
  const BLK_FILEMARK: nat := 0x40

  /** Sizes travel as C ints, offsets as loff_t. */
  const SIZE_LIMIT: nat := 0x8000_0000
  const OFFSET_LIMIT: nat := 0x8000_0000_0000_0000

  // ---- header codec ----

  datatype Header = Header(ondiskSz: nat, blkSz: nat, blkType: nat,
                           blkNum: nat, prev: nat, curr: nat, next: nat)
  {
    /** Three 32-bit fields and four 64-bit fields. */
    predicate Fits()
    {
      && ondiskSz < Limit(4) && blkSz < Limit(4) && blkType < Limit(4)
      && blkNum < Limit(8) && prev < Limit(8) && curr < Limit(8) && next < Limit(8)
    }
  }

  function Payload(h: Header): (p: seq<byte>)
    requires h.Fits()
    ensures |p| == HDR_SIZE - 4
  {
    PutBe(h.ondiskSz, 4) + PutBe(h.blkSz, 4) + PutBe(h.blkType, 4)
    + PutBe(h.blkNum, 8) + PutBe(h.prev, 8) + PutBe(h.curr, 8) + PutBe(h.next, 8)
  }

  /** The low n bits of b, most significant first. */
  function Bools(b: nat, n: nat): (s: seq<bool>)
    ensures |s| == n
  {
    if n == 0 then [] else Bools(b / 2, n - 1) + [b % 2 == 1]
  }

  function Mask(on: bool, m: bv8): bv8 { if on then m else 0 }

  function Pack(s: seq<bool>): bv8
    requires |s| == 8
  {
    Mask(s[0], 0x80) | Mask(s[1], 0x40) | Mask(s[2], 0x20) | Mask(s[3], 0x10)
    | Mask(s[4], 0x08) | Mask(s[5], 0x04) | Mask(s[6], 0x02) | Mask(s[7], 0x01)
  }

  /** A byte as a bit vector. */
  function Octet(b: byte): bv8 { Pack(Bools(b, 8)) }

  function Bit(on: bool): nat { if on then 1 else 0 }

  function Value(s: seq<bool>): nat
  {
    if s == [] then 0 else 2 * Value(s[..|s| - 1]) + Bit(s[|s| - 1])
  }

  lemma {:induction false} BoolsValue(b: nat, n: nat)
    requires b < Pow2(n)
    ensures Value(Bools(b, n)) == b
  {
    if n > 0 {
      BoolsValue(b / 2, n - 1);
      assert Bools(b, n)[..n - 1] == Bools(b / 2, n - 1);
    }
  }

  lemma PackValue(s: seq<bool>)
    requires |s| == 8
    ensures Pack(s) as int == 128 * Bit(s[0]) + 64 * Bit(s[1]) + 32 * Bit(s[2]) + 16 * Bit(s[3])
                            + 8 * Bit(s[4]) + 4 * Bit(s[5]) + 2 * Bit(s[6]) + Bit(s[7])
  {
  }

  lemma Halve(s: seq<bool>, n: nat)
    requires 0 < n <= |s|
    ensures Value(s[..n]) == 2 * Value(s[..n - 1]) + Bit(s[n - 1])
  {
    assert s[..n][..n - 1] == s[..n - 1];
  }

  lemma ValueOfFour(s: seq<bool>, n: nat)
    requires 4 <= n <= |s|
    ensures Value(s[..n]) ==
            16 * Value(s[..n - 4]) + 8 * Bit(s[n - 4]) + 4 * Bit(s[n - 3]) + 2 * Bit(s[n - 2]) + Bit(s[n - 1])
  {
    Halve(s, n);
    Halve(s, n - 1);
    Halve(s, n - 2);
    Halve(s, n - 3);
  }

  /** The byte keeps its value. */
  lemma OctetValue(b: byte)
    ensures Octet(b) as int == b
  {
    assert Pow2(4) == 16 && Pow2(8) == 256;
    BoolsValue(b, 8);
    var s := Bools(b, 8);
    assert s[..8] == s && Value(s[..0]) == 0;
    ValueOfFour(s, 8);
    ValueOfFour(s, 4);
    PackValue(s);
  }

  function ToBits(bs: seq<byte>): (r: seq<bv8>)
    ensures |r| == |bs|
    ensures forall i :: 0 <= i < |bs| ==> r[i] == Octet(bs[i])
  {
    seq(|bs|, i requires 0 <= i < |bs| => Octet(bs[i]))
  }

  /** The four bytes that a little-endian host stores for a 32-bit word. */
  function HostBytes(c: bv32): (p: seq<byte>)
    ensures |p| == 4
  {
    [((c & 0xFF) as bv8) as int, (((c >> 8) & 0xFF) as bv8) as int,
     (((c >> 16) & 0xFF) as bv8) as int, (((c >> 24) & 0xFF) as bv8) as int]
  }

  function SumFrom(seed: bv32, payload: seq<byte>): (p: seq<byte>)
    ensures |p| == 4
  {
    HostBytes(!Crc32c.Crc(seed, ToBits(payload)))
  }

  function Checksum(payload: seq<byte>): (p: seq<byte>)
    ensures |p| == 4
  {
    SumFrom(0xFFFF_FFFF, payload)
  }

  /** What ssc_write_blkhdr stores. */
  function Encode(h: Header): (p: seq<byte>)
    requires h.Fits()
    ensures |p| == HDR_SIZE
  {
    Checksum(Payload(h)) + Payload(h)
  }

  /** What ssc_read_blkhdr fills in; a checksum mismatch is only reported, never refused. */
  function Decode(p: seq<byte>): (h: Header)
    requires |p| == HDR_SIZE
  {
    Header(GetBe(p[4..8]), GetBe(p[8..12]), GetBe(p[12..16]),
           GetBe(p[16..24]), GetBe(p[24..32]), GetBe(p[32..40]), GetBe(p[40..48]))
  }

  predicate ChecksumOk(p: seq<byte>)
    requires |p| == HDR_SIZE
  {
    p[..4] == Checksum(p[4..])
  }

  lemma Parts<T>(s: seq<T>, a: seq<T>, b: seq<T>, c: seq<T>, d: seq<T>, e: seq<T>, f: seq<T>, g: seq<T>)
    requires |s| == |a| == |b| == |c| == 4 && |d| == |e| == |f| == |g| == 8
    ensures var p := s + (a + b + c + d + e + f + g);
            && p[..4] == s && p[4..] == a + b + c + d + e + f + g
            && p[4..8] == a && p[8..12] == b && p[12..16] == c
            && p[16..24] == d && p[24..32] == e && p[32..40] == f && p[40..48] == g
  {
  }

  lemma RoundTrip(h: Header)
    requires h.Fits()
    ensures Decode(Encode(h)) == h
    ensures ChecksumOk(Encode(h))
  {
    Parts(Checksum(Payload(h)), PutBe(h.ondiskSz, 4), PutBe(h.blkSz, 4), PutBe(h.blkType, 4),
          PutBe(h.blkNum, 8), PutBe(h.prev, 8), PutBe(h.curr, 8), PutBe(h.next, 8));
    GetPut(h.ondiskSz, 4);
    GetPut(h.blkSz, 4);
    GetPut(h.blkType, 4);
    GetPut(h.blkNum, 8);
    GetPut(h.prev, 8);
    GetPut(h.curr, 8);
    GetPut(h.next, 8);
  }

  /** Where struct blk_header has its fields, most significant byte first, behind the checksum. */
  lemma FieldOffsets(h: Header)
    requires h.Fits()
    ensures var p := Encode(h);
            && GetBe(p[4..8]) == h.ondiskSz && GetBe(p[8..12]) == h.blkSz && GetBe(p[12..16]) == h.blkType
            && GetBe(p[16..24]) == h.blkNum && GetBe(p[24..32]) == h.prev && GetBe(p[32..40]) == h.curr
            && GetBe(p[40..48]) == h.next
  {
    RoundTrip(h);
  }

  lemma Joined<T>(p: seq<T>)
    requires |p| == HDR_SIZE
    ensures p[4..] == p[4..8] + p[8..12] + p[12..16] + p[16..24] + p[24..32] + p[32..40] + p[40..48]
  {
  }

  /** Any 48 bytes that are read are the bytes that would be written for the header read, but for the checksum. */
  lemma ReadIsWritten(p: seq<byte>)
    requires |p| == HDR_SIZE
    ensures Decode(p).Fits() && Payload(Decode(p)) == p[4..]
    ensures Encode(Decode(p)) == p <==> ChecksumOk(p)
  {
    PutGet(p[4..8]);
    PutGet(p[8..12]);
    PutGet(p[12..16]);
    PutGet(p[16..24]);
    PutGet(p[24..32]);
    PutGet(p[32..40]);
    PutGet(p[40..48]);
    Joined(p);
    assert p == p[..4] + p[4..];
    RoundTrip(Decode(p));
  }

  // ---- the codec as a pair of functions, and the law that the drive relies on ----

  datatype Codec = Codec(put: Header -> seq<byte>, get: seq<byte> -> Header)

  ghost predicate Lawful(c: Codec)
  {
    forall h: Header :: |c.put(h)| == HDR_SIZE && (h.Fits() ==> c.get(c.put(h)) == h)
  }

  function PutHeader(h: Header): seq<byte>
  {
    if h.Fits() then Encode(h) else Zeros(HDR_SIZE)
  }

  function GetHeader(p: seq<byte>): Header
  {
    if |p| == HDR_SIZE then Decode(p) else Header(0, 0, 0, 0, 0, 0, 0)
  }

  lemma BlockHeadersLawful()
    ensures Lawful(Codec(PutHeader, GetHeader))
  {
    forall h: Header
      ensures |PutHeader(h)| == HDR_SIZE && (h.Fits() ==> GetHeader(PutHeader(h)) == h)
    {
      if h.Fits() {
        RoundTrip(h);
      }
    }
  }

  // ---- the checksum ----

  lemma SameByte(c: bv8, d: bv8, b: byte)
    requires c as int == b && d as int == b
    ensures c == d
  {
  }

  lemma HostBytesInjective(c: bv32, d: bv32)
    requires HostBytes(c) == HostBytes(d)
    ensures c == d
  {
    assert forall i | 0 <= i < 4 :: HostBytes(c)[i] == HostBytes(d)[i];
    SameByte((c & 0xFF) as bv8, (d & 0xFF) as bv8, HostBytes(c)[0]);
    SameByte(((c >> 8) & 0xFF) as bv8, ((d >> 8) & 0xFF) as bv8, HostBytes(c)[1]);
    SameByte(((c >> 16) & 0xFF) as bv8, ((d >> 16) & 0xFF) as bv8, HostBytes(c)[2]);
    SameByte(((c >> 24) & 0xFF) as bv8, ((d >> 24) & 0xFF) as bv8, HostBytes(c)[3]);
    SameWord(c, d);
  }

  lemma SameWord(c: bv32, d: bv32)
    requires (c & 0xFF) as bv8 == (d & 0xFF) as bv8
    requires ((c >> 8) & 0xFF) as bv8 == ((d >> 8) & 0xFF) as bv8
    requires ((c >> 16) & 0xFF) as bv8 == ((d >> 16) & 0xFF) as bv8
    requires ((c >> 24) & 0xFF) as bv8 == ((d >> 24) & 0xFF) as bv8
    ensures c == d
  {
  }

  lemma NotInjective(c: bv32, d: bv32)
    requires !c == !d
    ensures c == d
  {
  }

  function Pow2(n: nat): nat { if n == 0 then 1 else 2 * Pow2(n - 1) }

  lemma {:induction false} BoolsInjective(a: nat, b: nat, n: nat)
    requires a < Pow2(n) && b < Pow2(n) && Bools(a, n) == Bools(b, n)
    ensures a == b
  {
    if n > 0 {
      assert Bools(a, n)[n - 1] == Bools(b, n)[n - 1];
      assert Bools(a / 2, n - 1) == Bools(a, n)[..n - 1] == Bools(b, n)[..n - 1] == Bools(b / 2, n - 1);
      BoolsInjective(a / 2, b / 2, n - 1);
    }
  }

  lemma PackInjective(s: seq<bool>, t: seq<bool>)
    requires |s| == |t| == 8 && Pack(s) == Pack(t)
    ensures s == t
  {
    assert s[0] == t[0] && s[1] == t[1] && s[2] == t[2] && s[3] == t[3];
    assert s[4] == t[4] && s[5] == t[5] && s[6] == t[6] && s[7] == t[7];
  }

  lemma OctetInjective(a: byte, b: byte)
    requires Octet(a) == Octet(b)
    ensures a == b
  {
    PackInjective(Bools(a, 8), Bools(b, 8));
    assert Pow2(4) == 16 && Pow2(8) == 256;
    BoolsInjective(a, b, 8);
  }

  lemma ToBitsInjective(a: seq<byte>, b: seq<byte>)
    requires |a| == |b| && ToBits(a) == ToBits(b)
    ensures a == b
  {
    forall i | 0 <= i < |a|
      ensures a[i] == b[i]
    {
      assert ToBits(a)[i] == ToBits(b)[i];
      OctetInjective(a[i], b[i]);
    }
  }

  lemma HostBytesOfNot(c: bv32, d: bv32)
    requires c != d
    ensures HostBytes(!c) != HostBytes(!d)
  {
    if HostBytes(!c) == HostBytes(!d) {
      HostBytesInjective(!c, !d);
      NotInjective(c, d);
    }
  }

  lemma CrcDetects(seed: bv32, a: seq<byte>, b: seq<byte>, k: nat)
    requires |a| == |b| && a != b
    requires forall i :: 0 <= i < |a| && !(k <= i < k + 4) ==> a[i] == b[i]
    ensures Crc32c.Crc(seed, ToBits(a)) != Crc32c.Crc(seed, ToBits(b))
  {
    if ToBits(a) == ToBits(b) {
      ToBitsInjective(a, b);
    }
    Crc32c.BurstDetected(seed, ToBits(a), ToBits(b), k);
  }

  lemma SumDiffers(seed: bv32, a: seq<byte>, b: seq<byte>, c: bv32, d: bv32)
    requires c == Crc32c.Crc(seed, ToBits(a)) && d == Crc32c.Crc(seed, ToBits(b)) && c != d
    ensures SumFrom(seed, a) != SumFrom(seed, b)
  {
    HostBytesOfNot(c, d);
  }

  lemma SumDetects(seed: bv32, a: seq<byte>, b: seq<byte>, k: nat)
    requires |a| == |b| && a != b
    requires forall i :: 0 <= i < |a| && !(k <= i < k + 4) ==> a[i] == b[i]
    ensures SumFrom(seed, a) != SumFrom(seed, b)
  {
    CrcDetects(seed, a, b, k);
    SumDiffers(seed, a, b, Crc32c.Crc(seed, ToBits(a)), Crc32c.Crc(seed, ToBits(b)));
  }

  /** A stored header whose fields are damaged within four consecutive bytes fails its checksum. */
  lemma DamageDetected(h: Header, p: seq<byte>, k: nat)
    requires h.Fits() && |p| == HDR_SIZE
    requires p != Encode(h) && p[..4] == Encode(h)[..4]
    requires forall i :: 4 <= i < HDR_SIZE && !(k <= i < k + 4) ==> p[i] == Encode(h)[i]
    ensures !ChecksumOk(p)
  {
    var q := Encode(h);
    RoundTrip(h);
    assert p == p[..4] + p[4..] && q == q[..4] + q[4..];
    var lo := if k < 4 then 0 else k - 4;
    forall i | 0 <= i < HDR_SIZE - 4 && !(lo <= i < lo + 4)
      ensures p[4..][i] == q[4..][i]
    {
      assert p[i + 4] == q[i + 4];
    }
    SumDetects(0xFFFF_FFFF, p[4..], q[4..], lo);
  }
}
