/** Octets, the big-endian put/get pairs, and positioned writes to a flat file. */
module Bytes {

  type byte = b: int | 0 <= b < 0x100

  // ---- big-endian integers, as get_unaligned_be* and put_unaligned_be* move them ----

  /** The first number that does not fit n bytes. */
  function Limit(n: nat): (r: nat)
    ensures r > 0
  {
    if n == 0 then 1 else 0x100 * Limit(n - 1)
  }

  function GetBe(p: seq<byte>): (v: nat)
  {
    if p == [] then 0 else GetBe(p[..|p| - 1]) * 0x100 + p[|p| - 1]
  }

  function PutBe(v: nat, n: nat): (p: seq<byte>)
    ensures |p| == n
  {
    if n == 0 then [] else PutBe(v / 0x100, n - 1) + [v % 0x100]
  }

  lemma {:induction false} GetPut(v: nat, n: nat)
    requires v < Limit(n)
    ensures GetBe(PutBe(v, n)) == v
  {
    if n > 0 {
      GetPut(v / 0x100, n - 1);
      assert PutBe(v, n)[..n - 1] == PutBe(v / 0x100, n - 1);
    }
  }

  lemma {:induction false} PutGet(p: seq<byte>)
    ensures GetBe(p) < Limit(|p|)
    ensures PutBe(GetBe(p), |p|) == p
  {
    if p != [] {
      PutGet(p[..|p| - 1]);
      assert p == p[..|p| - 1] + [p[|p| - 1]];
    }
  }

  /** The first byte counts most. */
  lemma {:induction false} MostSignificantFirst(b: byte, p: seq<byte>)
    ensures GetBe([b] + p) == b * Limit(|p|) + GetBe(p)
    decreases |p|
  {
    if p == [] {
      assert ([b] + p)[..0] == [];
    } else {
      MostSignificantFirst(b, p[..|p| - 1]);
      assert ([b] + p)[..|p|] == [b] + p[..|p| - 1];
    }
  }

  // ---- pread64 / pwrite64 on a regular file ----

  function Zeros(n: nat): (z: seq<byte>)
    ensures |z| == n && forall i :: 0 <= i < n ==> z[i] == 0
  {
    seq(n, _ => 0)
  }

  /** The bytes [lo, hi) of the file. */
  function Range(file: seq<byte>, lo: nat, hi: nat): (s: seq<byte>)
    requires lo <= hi <= |file|
    ensures |s| == hi - lo
  {
    file[lo..hi]
  }

  /** pwrite64: overwrites in place, and a write past the end first fills the gap with zeros. */
  function Pwrite(file: seq<byte>, off: nat, data: seq<byte>): (r: seq<byte>)
    ensures data == [] ==> r == file
    ensures data != [] ==> |r| == if off + |data| <= |file| then |file| else off + |data|
    ensures off + |data| <= |r| || data == []
    ensures data != [] ==> r[off..off + |data|] == data
  {
    if data == [] then file
    else
      var before := if off <= |file| then file[..off] else file + Zeros(off - |file|);
      var after := if off + |data| <= |file| then file[off + |data|..] else [];
      before + data + after
  }

  /** A write leaves every range that it does not meet as it was. */
  lemma PwriteElsewhere(file: seq<byte>, off: nat, data: seq<byte>, lo: nat, hi: nat)
    requires lo <= hi <= |file|
    requires hi <= off || off + |data| <= lo
    ensures hi <= |Pwrite(file, off, data)|
    ensures Range(Pwrite(file, off, data), lo, hi) == Range(file, lo, hi)
  {
    var r := Pwrite(file, off, data);
    if data != [] {
      forall i | lo <= i < hi
        ensures r[i] == file[i]
      {
      }
      assert Range(r, lo, hi) == Range(file, lo, hi);
    }
  }
}
