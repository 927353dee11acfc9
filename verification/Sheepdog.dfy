/** A virtual disk in the sheepdog object store: a flat image cut into objects, copied on the first write. */
module Sheepdog {
  import opened Bytes

  const VDI_SPACE := 0x1_0000_0000
  const MAX_DATA_OBJS := 0x10_0000

  /** vid_to_data_oid */
  function DataOid(vid: nat, idx: nat): nat
  {
    vid * VDI_SPACE + idx
  }

  function Owner(oid: nat): nat
  {
    oid / VDI_SPACE
  }

  /** data_oid_to_idx */
  function Index(oid: nat): nat
  {
    oid % MAX_DATA_OBJS
  }

  lemma OidParts(vid: nat, idx: nat)
    requires idx < MAX_DATA_OBJS
    ensures Owner(DataOid(vid, idx)) == vid && Index(DataOid(vid, idx)) == idx
  {
  }

  /** The connection's cached inode (the object size, the disk's own id, the owner of each object, 0 for none), the
      objects that the servers hold, and the owner table in the inode object there. */
  datatype Disk = Disk(size: nat, vid: nat, owners: seq<nat>, store: map<nat, seq<byte>>, saved: seq<nat>)

  predicate Stored(store: map<nat, seq<byte>>, size: nat, owners: seq<nat>)
  {
    forall idx | 0 <= idx < |owners| && owners[idx] != 0 ::
      DataOid(owners[idx], idx) in store && |store[DataOid(owners[idx], idx)]| == size
  }

  predicate Ok(d: Disk)
  {
    && d.size > 0 && d.vid > 0 && |d.owners| <= MAX_DATA_OBJS
    && Stored(d.store, d.size, d.owners)
  }

  // ---- the flat image ----

  /** The byte at offset o of object idx, in the image that an owner table defines. */
  function ByteOf(store: map<nat, seq<byte>>, size: nat, owners: seq<nat>, idx: nat, o: nat): byte
    requires Stored(store, size, owners) && idx < |owners| && o < size
  {
    if owners[idx] == 0 then 0 else store[DataOid(owners[idx], idx)][o]
  }

  function Byte(d: Disk, idx: nat, o: nat): byte
    requires Ok(d) && idx < |d.owners| && o < d.size
  {
    ByteOf(d.store, d.size, d.owners, idx, o)
  }

  /** Where object idx begins in the flat image; the whole image ends at Start(size, |owners|). */
  function Start(size: nat, idx: nat): nat
  {
    if idx == 0 then 0 else Start(size, idx - 1) + size
  }

  /** The address of a byte in the flat image. */
  function Flat(size: nat, idx: nat, o: nat): nat
  {
    Start(size, idx) + o
  }

  // ---- what one object write does ----

  /** The contents an object starts from: its own, the copied one's, or zeros. */
  function Base(d: Disk, idx: nat): (b: seq<byte>)
    requires Ok(d) && idx < |d.owners|
    ensures |b| == d.size && forall o | 0 <= o < d.size :: b[o] == Byte(d, idx, o)
  {
    if d.owners[idx] == 0 then Zeros(d.size) else d.store[DataOid(d.owners[idx], idx)]
  }

  function WriteObject(d: Disk, idx: nat, at: nat, data: seq<byte>): Disk
    requires Ok(d) && idx < |d.owners|
  {
    d.(store := d.store[DataOid(d.vid, idx) := Pwrite(Base(d, idx), at, data)], owners := d.owners[idx := d.vid])
  }

  /** No object of another disk is changed. */
  predicate OthersKept(d: Disk, e: Disk)
  {
    forall oid | oid in d.store && Owner(oid) != d.vid :: oid in e.store && e.store[oid] == d.store[oid]
  }

  lemma WriteObjectKeeps(d: Disk, idx: nat, at: nat, data: seq<byte>)
    requires Ok(d) && idx < |d.owners| && at + |data| <= d.size
    ensures Ok(WriteObject(d, idx, at, data)) && OthersKept(d, WriteObject(d, idx, at, data))
  {
    var e := WriteObject(d, idx, at, data);
    OidParts(d.vid, idx);
    forall i | 0 <= i < |e.owners| && e.owners[i] != 0
      ensures DataOid(e.owners[i], i) in e.store && |e.store[DataOid(e.owners[i], i)]| == e.size
    {
      OidParts(e.owners[i], i);
    }
  }

  lemma Written(base: seq<byte>, at: nat, data: seq<byte>, o: nat)
    requires at + |data| <= |base| && o < |base|
    ensures |Pwrite(base, at, data)| == |base|
    ensures Pwrite(base, at, data)[o] == if at <= o < at + |data| then data[o - at] else base[o]
  {
  }

  lemma WriteObjectByte(d: Disk, idx: nat, at: nat, data: seq<byte>, j: nat, o: nat)
    requires Ok(d) && idx < |d.owners| && at + |data| <= d.size && j < |d.owners| && o < d.size
    requires Ok(WriteObject(d, idx, at, data))
    ensures Byte(WriteObject(d, idx, at, data), j, o) ==
      if j == idx && at <= o < at + |data| then data[o - at] else Byte(d, j, o)
  {
    OidParts(d.vid, idx);
    OidParts(d.owners[j], j);
    Written(Base(d, idx), at, data, o);
  }

  // ---- addresses ----

  lemma {:induction false} StartIs(size: nat, idx: nat)
    ensures Start(size, idx) == idx * size
  {
    if idx > 0 {
      StartIs(size, idx - 1);
      assert idx * size == (idx - 1) * size + size;
    }
  }

  lemma {:induction false} FlatApart(size: nat, j: nat, i: nat)
    requires j < i
    ensures Start(size, j) + size <= Start(size, i)
  {
    if i > j + 1 {
      FlatApart(size, j, i - 1);
    }
  }

  /** The first object of a range, and the one after its last. */
  function FirstIndex(size: nat, offset: nat): nat
    requires size > 0
  {
    offset / size
  }

  function EndIndex(size: nat, offset: nat, len: nat): nat
    requires size > 0
  {
    (offset + len + (size - 1)) / size
  }

  lemma IndexRange(size: nat, offset: nat, len: nat, n: nat)
    requires size > 0 && offset + len <= Start(size, n)
    ensures Flat(size, FirstIndex(size, offset), offset % size) == offset
    ensures offset + len <= Start(size, EndIndex(size, offset, len))
    ensures FirstIndex(size, offset) <= EndIndex(size, offset, len) <= n
    ensures EndIndex(size, offset, len) > 0 ==> Start(size, EndIndex(size, offset, len) - 1) < offset + len
  {
    var first, end := FirstIndex(size, offset), EndIndex(size, offset, len);
    Divides(offset, size);
    Divides(offset + len + (size - 1), size);
    if end > n {
      FlatApart(size, n, end);
    }
    if first > end {
      FlatApart(size, end, first);
    }
  }

  lemma Divides(p: nat, size: nat)
    requires size > 0
    ensures p == Start(size, p / size) + p % size
  {
    StartIs(size, p / size);
    assert p == p / size * size + p % size;
  }

  // ---- a write, as the flat image sees it ----

  /** The byte at (j, o) when buf[..n] has been written at offset to the image of d. */
  function Expected(d: Disk, offset: nat, buf: seq<byte>, n: nat, j: nat, o: nat): byte
    requires Ok(d) && n <= |buf| && j < |d.owners| && o < d.size
  {
    var p := Flat(d.size, j, o);
    if offset <= p < offset + n then buf[p - offset] else Byte(d, j, o)
  }

  predicate Inside(d: Disk, j: nat, o: nat)
  {
    j < |d.owners| && o < d.size
  }

  /** The image of e is that of d with buf[..n] written at offset. */
  ghost predicate Wrote(d: Disk, e: Disk, offset: nat, buf: seq<byte>, n: nat)
    requires Ok(d) && Ok(e) && n <= |buf|
  {
    && e.size == d.size && e.vid == d.vid && |e.owners| == |d.owners|
    && forall j, o | Inside(d, j, o) :: Byte(e, j, o) == Expected(d, offset, buf, n, j, o)
  }

  lemma PieceByte(d: Disk, e: Disk, offset: nat, buf: seq<byte>, n: nat, idx: nat, at: nat, k: nat, j: nat, o: nat)
    requires Ok(d) && Ok(e) && e.size == d.size && |e.owners| == |d.owners| && n + k <= |buf| && Inside(d, j, o)
    requires idx < |e.owners| && at + k <= e.size && offset + n == Flat(e.size, idx, at)
    requires Byte(e, j, o) == Expected(d, offset, buf, n, j, o)
    requires Ok(WriteObject(e, idx, at, buf[n..n + k]))
    ensures Byte(WriteObject(e, idx, at, buf[n..n + k]), j, o) == Expected(d, offset, buf, n + k, j, o)
  {
    WriteObjectByte(e, idx, at, buf[n..n + k], j, o);
    if j < idx {
      FlatApart(d.size, j, idx);
    } else if idx < j {
      FlatApart(d.size, idx, j);
    }
  }

  /** Writing the next piece, which lies in one object. */
  lemma WrotePiece(d: Disk, e: Disk, offset: nat, buf: seq<byte>, n: nat, idx: nat, at: nat, k: nat)
    requires Ok(d) && Ok(e) && n + k <= |buf| && Wrote(d, e, offset, buf, n)
    requires idx < |e.owners| && at + k <= e.size && offset + n == Flat(e.size, idx, at)
    ensures var f := WriteObject(e, idx, at, buf[n..n + k]); Ok(f) && Wrote(d, f, offset, buf, n + k)
  {
    var f := WriteObject(e, idx, at, buf[n..n + k]);
    WriteObjectKeeps(e, idx, at, buf[n..n + k]);
    forall j, o | Inside(d, j, o)
      ensures Byte(f, j, o) == Expected(d, offset, buf, n + k, j, o)
    {
      PieceByte(d, e, offset, buf, n, idx, at, k, j, o);
    }
  }

  lemma WroteNothing(d: Disk, offset: nat, buf: seq<byte>)
    requires Ok(d)
    ensures Wrote(d, d, offset, buf, 0)
  {
  }

  /** Another disk or snapshot, whose table does not name this disk, keeps its image. */
  lemma OtherImagesKept(d: Disk, e: Disk, table: seq<nat>)
    requires OthersKept(d, e) && |table| <= MAX_DATA_OBJS && d.vid !in table && Stored(d.store, d.size, table)
    ensures Stored(e.store, d.size, table)
    ensures forall j, o | 0 <= j < |table| && 0 <= o < d.size ::
      ByteOf(e.store, d.size, table, j, o) == ByteOf(d.store, d.size, table, j, o)
  {
    forall j | 0 <= j < |table| && table[j] != 0
      ensures DataOid(table[j], j) in e.store && e.store[DataOid(table[j], j)] == d.store[DataOid(table[j], j)]
    {
      OidParts(table[j], j);
    }
  }

  // ---- the image as one sequence ----

  lemma Split(p: nat, size: nat, n: nat)
    requires size > 0 && p < Start(size, n)
    ensures p / size < n && Flat(size, p / size, p % size) == p
  {
    Divides(p, size);
    if p / size > n {
      FlatApart(size, n, p / size);
    }
  }

  function At(d: Disk, p: nat): byte
    requires Ok(d) && p < Start(d.size, |d.owners|)
  {
    Split(p, d.size, |d.owners|);
    Byte(d, p / d.size, p % d.size)
  }

  function Image(d: Disk): (r: seq<byte>)
    requires Ok(d)
    ensures |r| == Start(d.size, |d.owners|) && forall p | 0 <= p < |r| :: r[p] == At(d, p)
  {
    seq(Start(d.size, |d.owners|), p requires 0 <= p < Start(d.size, |d.owners|) => At(d, p))
  }

  lemma WroteAt(d: Disk, e: Disk, offset: nat, buf: seq<byte>, p: nat)
    requires Ok(d) && Ok(e) && Wrote(d, e, offset, buf, |buf|) && p < Start(d.size, |d.owners|)
    ensures At(e, p) == if offset <= p < offset + |buf| then buf[p - offset] else At(d, p)
  {
    Split(p, d.size, |d.owners|);
    assert Inside(d, p / d.size, p % d.size) && Byte(e, p / d.size, p % d.size) == At(e, p);
  }

  /** A disk write is a write to the flat image. */
  lemma WroteImage(d: Disk, e: Disk, offset: nat, buf: seq<byte>)
    requires Ok(d) && Ok(e) && Wrote(d, e, offset, buf, |buf|) && offset + |buf| <= Start(d.size, |d.owners|)
    ensures Image(e) == Pwrite(Image(d), offset, buf)
  {
    forall p | 0 <= p < Start(d.size, |d.owners|)
      ensures At(e, p) == if offset <= p < offset + |buf| then buf[p - offset] else At(d, p)
    {
      WroteAt(d, e, offset, buf, p);
    }
    SameBytes(Image(d), Image(e), offset, buf);
  }

  lemma SameBytes(a: seq<byte>, b: seq<byte>, offset: nat, buf: seq<byte>)
    requires offset + |buf| <= |a| == |b|
    requires forall p | 0 <= p < |a| :: b[p] == if offset <= p < offset + |buf| then buf[p - offset] else a[p]
    ensures b == Pwrite(a, offset, buf)
  {
    if buf == [] {
      assert b == a;
    } else {
      assert b == a[..offset] + buf + a[offset + |buf|..];
    }
  }
}
