/** sd_io and update_inode, on the cached inode and an abstract object server. */
module SheepdogIo {
  import opened Bytes
  import opened Sheepdog
  import SheepdogRead

  type Piece = SheepdogRead.Piece

  class Access {
    const size: nat
    const vid: nat
    var owners: seq<nat>                // the cached data_vdi_id
    var store: map<nat, seq<byte>>      // the servers' objects
    var saved: seq<nat>                 // data_vdi_id in the servers' inode object

    ghost function View(): Disk
      reads this
    {
      Disk(size, vid, owners, store, saved)
    }

    constructor (d: Disk)
      ensures View() == d
    {
      size, vid, owners, store, saved := d.size, d.vid, d.owners, d.store, d.saved;
    }

    /** The servers' side of write_object: a new object starts as a copy of cowOid, if given, and else as zeros. */
    method WriteRequest(oid: nat, at: nat, data: seq<byte>, create: bool, cow: bool, cowOid: nat)
      requires create && cow ==> cowOid in store
      requires !create ==> oid in store
      modifies `store
      ensures var base := if !create then old(store)[oid] else if cow then old(store)[cowOid] else Zeros(size);
        store == old(store)[oid := Pwrite(base, at, data)]
    {
      var base := if !create then store[oid] else if cow then store[cowOid] else Zeros(size);
      store := store[oid := Pwrite(base, at, data)];
    }

    /** The body of sd_io's loop for a write. */
    method WritePiece(idx: nat, at: nat, data: seq<byte>) returns (created: bool)
      requires Ok(View()) && idx < |owners|
      modifies `owners, `store
      ensures View() == WriteObject(old(View()), idx, at, data)
      ensures created == (old(owners)[idx] != vid)
    {
      var oid := DataOid(owners[idx], idx);
      var oldOid, create, cow := 0, false, false;
      if owners[idx] != vid {
        create := true;
        if owners[idx] != 0 {
          oldOid := oid;
          cow := true;
        }
        oid := DataOid(vid, idx);
      }
      WriteRequest(oid, at, data, create, cow, oldOid);
      owners := owners[idx := vid];
      return create;
    }

    /** update_inode: the table entries [min, max] are written to the inode object. */
    method UpdateInode(min: nat, max: nat)
      requires |saved| == |owners| && max < |owners|
      modifies `saved
      ensures forall i | 0 <= i < |owners| ::
        |saved| == |owners| && saved[i] == if min <= i <= max then owners[i] else old(saved)[i]
      ensures |saved| == |owners|
    {
      if max < min {
        return;
      }
      saved := saved[..min] + owners[min..max + 1] + saved[max + 1..];
    }

    /** sd_io for a write: the flat image changes exactly as a flat file would, no object of another disk changes,
        and the servers' inode agrees with the cached one at the end. */
    method Write(offset: nat, buf: seq<byte>)
      requires Ok(View()) && saved == owners && offset + |buf| <= Start(size, |owners|)
      modifies this
      ensures Ok(View()) && Wrote(old(View()), View(), offset, buf, |buf|)
      ensures OthersKept(old(View()), View())
      ensures saved == owners
    {
      IndexRange(size, offset, |buf|, |owners|);
      var needUpdate, minDirty, maxDirty :=
        WriteObjects(offset, buf, FirstIndex(size, offset), offset % size, EndIndex(size, offset, |buf|));
      if needUpdate {
        UpdateInode(minDirty, maxDirty);
      }
      assert saved == owners;
    }

    /** Its loop over the objects first, ..., max - 1, of which the first is written from `from` on. */
    method WriteObjects(offset: nat, buf: seq<byte>, first: nat, from: nat, max: nat)
      returns (needUpdate: bool, minDirty: nat, maxDirty: nat)
      requires Ok(View()) && saved == owners && from < size && Flat(size, first, from) == offset
      requires first <= max <= |owners| && offset + |buf| <= Start(size, max)
      requires max > 0 ==> Start(size, max - 1) < offset + |buf|
      modifies `owners, `store
      ensures Ok(View()) && Wrote(old(View()), View(), offset, buf, |buf|)
      ensures OthersKept(old(View()), View())
      ensures Dirty(saved, owners, needUpdate, minDirty, maxDirty)
    {
      ghost var d := View();
      var idx: nat, at: nat, rest: nat := first, from, |buf|;
      needUpdate, minDirty, maxDirty := false, 0xffff_ffff, 0;
      WroteNothing(d, offset, buf);
      while idx < max
        invariant idx <= max && Ok(View()) && OthersKept(d, View()) && |owners| == |d.owners|
        invariant rest <= |buf| && at < size && Wrote(d, View(), offset, buf, |buf| - rest)
        invariant rest > 0 || idx < max ==> offset + (|buf| - rest) == Flat(size, idx, at)
        invariant Dirty(saved, owners, needUpdate, minDirty, maxDirty) && (!needUpdate ==> maxDirty == 0)
      {
        var k := if size - at < rest then size - at else rest;
        DirtyStep(saved, owners, needUpdate, minDirty, maxDirty, idx, vid);
        var created := StepWrite(d, offset, buf, |buf| - rest, idx, at, k);
        if created {
          minDirty := Least(idx, minDirty);
          maxDirty := Most(idx, maxDirty);
          needUpdate := true;
        }
        NextPiece(size, offset, |buf|, rest, idx, at, k, max);
        rest := rest - k;
        at := 0;
        idx := idx + 1;
      }
      Exhausted(size, offset, |buf|, rest, max, at);
    }

    /** sd_io for a read, into a buffer with whatever contents: the pieces cover the range. */
    method Read(offset: nat, buf: array<byte>) returns (ghost ps: seq<Piece>)
      requires Ok(View()) && offset + buf.Length <= Start(size, |owners|)
      modifies buf
      ensures SheepdogRead.Covers(View(), offset, buf.Length, ps, buf.Length)
      ensures buf[..] == SheepdogRead.ReadPieces(View(), offset, ps, buf.Length, old(buf[..]))
      ensures ps != [] ==> ps[0].idx == FirstIndex(size, offset)
    {
      IndexRange(size, offset, buf.Length, |owners|);
      ps := ReadObjects(offset, buf, FirstIndex(size, offset), offset % size, EndIndex(size, offset, buf.Length));
    }

    method ReadObjects(offset: nat, buf: array<byte>, first: nat, from: nat, max: nat) returns (ghost ps: seq<Piece>)
      requires Ok(View()) && from < size && Flat(size, first, from) == offset
      requires first <= max <= |owners| && offset + buf.Length <= Start(size, max)
      requires max > 0 ==> Start(size, max - 1) < offset + buf.Length
      modifies buf
      ensures SheepdogRead.Covers(View(), offset, buf.Length, ps, buf.Length)
      ensures buf[..] == SheepdogRead.ReadPieces(View(), offset, ps, buf.Length, old(buf[..]))
      ensures ps != [] ==> ps[0].idx == first
    {
      ghost var d, was := View(), buf[..];
      ps := [];
      var idx: nat, at: nat, done: nat := first, from, 0;
      while idx < max
        invariant idx <= max && done <= buf.Length && at < size && (at == 0 || done == 0)
        invariant done < buf.Length || idx < max ==> offset + done == Flat(size, idx, at)
        invariant |ps| == idx - first && (ps != [] ==> ps[0].idx == first && ps[|ps| - 1].idx == idx - 1)
        invariant SheepdogRead.Covers(d, offset, buf.Length, ps, done)
        invariant buf[..] == SheepdogRead.ReadPieces(d, offset, ps, done, was)
      {
        var k := if size - at < buf.Length - done then size - at else buf.Length - done;
        ghost var p := SheepdogRead.Piece.Piece(idx, at, k, done);
        Remaining(size, offset, buf.Length, idx, at, done, max);
        PieceAdded(d, offset, ps, p, was);
        ReadOne(idx, at, k, done, buf);
        NextPiece(size, offset, buf.Length, buf.Length - done, idx, at, k, max);
        ps := ps + [p];
        idx, at, done := idx + 1, 0, done + k;
      }
      Exhausted(size, offset, buf.Length, buf.Length - done, max, at);
    }

    /** The body of its loop. */
    method ReadOne(idx: nat, at: nat, k: nat, done: nat, buf: array<byte>)
      requires Ok(View()) && idx < |owners| && at + k <= size && done + k <= buf.Length
      modifies buf
      ensures buf[..] == SheepdogRead.ReadPiece(View(), SheepdogRead.Piece.Piece(idx, at, k, done), old(buf[..]))
    {
      if owners[idx] == 0 {
        Fill(buf, 0, Zeros(k));
      } else {
        Fill(buf, done, store[DataOid(owners[idx], idx)][at..at + k]);
      }
    }

    /** memset and memcpy into the buffer */
    method Fill(buf: array<byte>, at: nat, data: seq<byte>)
      requires at + |data| <= buf.Length
      modifies buf
      ensures buf[..] == old(buf[..at]) + data + old(buf[at + |data|..])
    {
      var i := 0;
      while i < |data|
        invariant 0 <= i <= |data|
        invariant forall x | 0 <= x < buf.Length ::
          buf[x] == if at <= x < at + i then data[x - at] else old(buf[x])
      {
        buf[at + i] := data[i];
        i := i + 1;
      }
    }

    /** One piece, and what it means for the whole write. */
    method StepWrite(ghost d: Disk, ghost offset: nat, buf: seq<byte>, n: nat, idx: nat, at: nat, k: nat)
      returns (created: bool)
      requires Ok(d) && Ok(View()) && OthersKept(d, View()) && n + k <= |buf| && Wrote(d, View(), offset, buf, n)
      requires idx < |owners| && at + k <= size && offset + n == Flat(size, idx, at)
      modifies `owners, `store
      ensures Ok(View()) && OthersKept(d, View()) && Wrote(d, View(), offset, buf, n + k)
      ensures owners == old(owners)[idx := vid] && created == (old(owners)[idx] != vid)
    {
      ghost var e := View();
      created := WritePiece(idx, at, buf[n..n + k]);
      WrotePiece(d, e, offset, buf, n, idx, at, k);
      WriteObjectKeeps(e, idx, at, buf[n..n + k]);
    }
  }

  /** A piece ends where the next object begins, or it is the last. */
  lemma NextPiece(size: nat, offset: nat, len: nat, rest: nat, idx: nat, at: nat, k: nat, max: nat)
    requires at < size && rest <= len && offset + (len - rest) == Flat(size, idx, at)
    requires k == if size - at < rest then size - at else rest
    requires idx < max && Start(size, max - 1) < offset + len
    ensures rest - k > 0 || idx + 1 < max ==> offset + (len - (rest - k)) == Start(size, idx + 1)
  {
    if idx + 1 < max - 1 {
      FlatApart(size, idx + 1, max - 1);
    }
  }

  lemma Exhausted(size: nat, offset: nat, len: nat, rest: nat, max: nat, at: nat)
    requires rest <= len && offset + len <= Start(size, max)
    requires rest > 0 ==> offset + (len - rest) == Flat(size, max, at)
    ensures rest == 0
  {
  }

  lemma Remaining(size: nat, offset: nat, len: nat, idx: nat, at: nat, done: nat, max: nat)
    requires at < size && idx < max && done <= len && offset + done == Flat(size, idx, at)
    requires Start(size, max - 1) < offset + len && (at == 0 || done == 0)
    ensures len > 0 ==> done < len
  {
    if idx < max - 1 {
      FlatApart(size, idx, max - 1);
    }
  }

  lemma PieceAdded(d: Disk, offset: nat, ps: seq<Piece>, p: Piece, buf: seq<byte>)
    requires Ok(d) && SheepdogRead.Covers(d, offset, |buf|, ps, p.done) && SheepdogRead.Placed(d, offset, |buf|, p)
    requires ps != [] ==> p.idx == ps[|ps| - 1].idx + 1
    ensures SheepdogRead.Covers(d, offset, |buf|, ps + [p], p.done + p.k)
    ensures SheepdogRead.ReadPieces(d, offset, ps + [p], p.done + p.k, buf) ==
      SheepdogRead.ReadPiece(d, p, SheepdogRead.ReadPieces(d, offset, ps, p.done, buf))
  {
    SheepdogRead.CoversMore(d, offset, |buf|, ps, p);
    assert (ps + [p])[..|ps|] == ps;
  }

  /** Entries that the servers do not have yet lie between the marks. */
  predicate Dirty(saved: seq<nat>, owners: seq<nat>, marked: bool, min: nat, max: nat)
  {
    && |saved| == |owners| && (marked ==> max < |owners|)
    && forall i | 0 <= i < |owners| && saved[i] != owners[i] :: marked && min <= i <= max
  }

  function Least(a: nat, b: nat): nat { if a < b then a else b }

  function Most(a: nat, b: nat): nat { if a > b then a else b }

  lemma DirtyStep(saved: seq<nat>, owners: seq<nat>, marked: bool, min: nat, max: nat, idx: nat, vid: nat)
    requires Dirty(saved, owners, marked, min, max) && idx < |owners|
    requires !marked ==> max == 0
    ensures if owners[idx] == vid then Dirty(saved, owners[idx := vid], marked, min, max)
      else Dirty(saved, owners[idx := vid], true, Least(idx, min), Most(idx, max))
  {
  }
}
