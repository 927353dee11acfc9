/** What a run of commands gives back, on any tape from any position. */
module TapeTheorems {
  import opened Bytes
  import opened TapeMachine
  import opened TapeDrive

  function Writes(ds: seq<seq<byte>>): (ops: seq<Op>)
    ensures |ops| == |ds|
    ensures forall op | op in ops :: WellFormedOp(op)
  {
    if ds == [] then [] else [Op.Write(ds[0])] + Writes(ds[1..])
  }

  function Reads(ds: seq<seq<byte>>): (ops: seq<Op>)
    ensures |ops| == |ds|
    ensures forall op | op in ops :: WellFormedOp(op)
  {
    if ds == [] then [] else [Op.Read(|ds[0]|)] + Reads(ds[1..])
  }

  function AsBlocks(ds: seq<seq<byte>>): (bs: seq<Block>)
    ensures |bs| == |ds|
  {
    seq(|ds|, i requires 0 <= i < |ds| => Data(ds[i]))
  }

  function GoodReplies(ds: seq<seq<byte>>): (rs: seq<Reply>)
    ensures |rs| == |ds|
  {
    seq(|ds|, i requires 0 <= i < |ds| => Reply(Good, ds[i]))
  }

  lemma PutTwice(t: View, a: seq<Block>, b: seq<Block>)
    requires t.Valid()
    ensures Put(Put(t, a), b) == Put(t, a + b)
  {
    var t1 := Put(t, a);
    assert t1.blocks[..t1.pos] + b == t.blocks[..t.pos] + (a + b);
  }

  /** Writes lay their blocks down in order and discard everything beyond. */
  lemma {:induction false} WritesPut(t: View, ds: seq<seq<byte>>)
    requires t.Valid() && ds != []
    ensures ApplyAll(t, Writes(ds)) == Put(t, AsBlocks(ds))
    decreases |ds|
  {
    var t1, rest := Put(t, [Data(ds[0])]), ds[1..];
    assert Writes(ds)[1..] == Writes(rest) && Apply(t, Writes(ds)[0]) == t1;
    assert AsBlocks(ds) == [Data(ds[0])] + AsBlocks(rest);
    PutTwice(t, [Data(ds[0])], AsBlocks(rest));
    if rest == [] {
      assert [Data(ds[0])] + AsBlocks(rest) == [Data(ds[0])];
    } else {
      WritesPut(t1, rest);
    }
  }

  /** The next blocks of the tape are these. */
  predicate Ahead(t: View, ds: seq<seq<byte>>)
  {
    t.Valid() && t.pos + |ds| <= |t.blocks| && forall i | 0 <= i < |ds| :: t.blocks[t.pos + i] == Data(ds[i])
  }

  lemma ReadOne(t: View, ds: seq<seq<byte>>, max: nat)
    requires Ahead(t, ds) && ds != []
    ensures var t1 := t.(pos := t.pos + 1);
      && Ahead(t1, ds[1..]) && Apply(t, Reads(ds)[0]) == t1 && Answer(t, Reads(ds)[0], max) == Reply(Good, ds[0])
  {
    assert t.blocks[t.pos + 0] == Data(ds[0]);
    var t1 := t.(pos := t.pos + 1);
    forall i | 0 <= i < |ds[1..]|
      ensures t1.blocks[t1.pos + i] == Data(ds[1..][i])
    {
      assert t.blocks[t.pos + (i + 1)] == Data(ds[i + 1]);
    }
  }

  /** Reading data blocks with their own lengths returns them, unaltered and in order. */
  lemma {:induction false} ReadsReturn(t: View, ds: seq<seq<byte>>, max: nat)
    requires Ahead(t, ds)
    ensures Replies(t, Reads(ds), max) == GoodReplies(ds)
    ensures ApplyAll(t, Reads(ds)) == t.(pos := t.pos + |ds|)
    decreases |ds|
  {
    if ds != [] {
      ReadOne(t, ds, max);
      ReadsReturn(t.(pos := t.pos + 1), ds[1..], max);
      assert Reads(ds)[1..] == Reads(ds[1..]);
      assert GoodReplies(ds) == [Reply(Good, ds[0])] + GoodReplies(ds[1..]);
    }
  }

  /** Write any blocks anywhere, space back over them, and read: the same bytes come back, all GOOD. */
  lemma WrittenReadsBack(t: View, ds: seq<seq<byte>>, max: nat)
    requires t.Valid() && ds != []
    ensures var written := ApplyAll(t, Writes(ds));
            var back := Apply(written, Op.SpaceBlocks(0 - |ds|));
            && |written.blocks| == t.pos + |ds| && written.blocks[..t.pos] == t.blocks[..t.pos]
            && back == written.(pos := t.pos)
            && Replies(back, Reads(ds), max) == GoodReplies(ds)
            && ApplyAll(back, Reads(ds)) == written
  {
    WritesPut(t, ds);
    var written := Put(t, AsBlocks(ds));
    var back := Apply(written, Op.SpaceBlocks(0 - |ds|));
    assert back == written.(pos := t.pos);
    forall i | 0 <= i < |ds|
      ensures back.blocks[back.pos + i] == Data(ds[i])
    {
    }
    ReadsReturn(back, ds, max);
  }

  // ---- fixed-length transfers ----

  /** Reading `count` blocks from the i-th chunk on returns the rest of the data. */
  lemma {:induction false} ChunksRead(t: View, data: seq<byte>, i: nat, count: nat, size: nat)
    requires t.Valid() && i <= count && count * size <= |data|
    requires |t.blocks| >= t.pos + count && t.blocks[t.pos..t.pos + count] == Chunks(data, count, size)
    ensures i * size <= count * size
    ensures ReadBlocks(t.blocks, t.pos + i, count - i, size)
         == FixedRead(t.pos + count, Good, data[i * size..count * size])
    decreases count - i
  {
    MulMonotone(i, count, size);
    if i < count {
      MulMonotone(i + 1, count, size);
      ChunksRead(t, data, i + 1, count, size);
      ChunkAt(data, i, count, size);
      assert t.blocks[t.pos + i] == t.blocks[t.pos..t.pos + count][i];
      assert (i + 1) * size == i * size + size;
      assert data[i * size..count * size] == data[i * size..(i + 1) * size] + data[(i + 1) * size..count * size];
    }
  }

  lemma {:induction false} ChunkAt(data: seq<byte>, i: nat, count: nat, size: nat)
    requires i < count && count * size <= |data|
    ensures i * size <= (i + 1) * size <= |data|
    ensures Chunks(data, count, size)[i] == Data(data[i * size..(i + 1) * size])
    decreases count
  {
    MulMonotone(i, i + 1, size);
    MulMonotone(i + 1, count, size);
    MulMonotone(count - 1, count, size);
    if i < count - 1 {
      ChunkAt(data, i, count - 1, size);
    }
  }

  lemma MulMonotone(a: nat, b: nat, c: nat)
    requires a <= b
    ensures a * c <= b * c
  {
  }

  /** A fixed-length write, spaced back over, reads back as one transfer of the blocks that it took. These are exactly
      the data sent when the sizes agree, as they do whenever the write was answered with GOOD. */
  lemma FixedReadsBack(t: View, data: seq<byte>, beyond: seq<byte>, count: nat, size: nat, max: nat)
    requires t.Valid() && count > 0 && count * size <= |data + beyond|
    ensures var written := Apply(t, Op.WriteFixed(data, beyond, count, size));
            var back := Apply(written, Op.SpaceBlocks(0 - count));
            && back == written.(pos := t.pos)
            && Answer(back, Op.ReadFixed(count, size), max) == Reply(Good, (data + beyond)[..count * size])
            && Apply(back, Op.ReadFixed(count, size)) == written
            && (Answer(back, Op.ReadFixed(count, size), max).data == data <==> count * size == |data|)
            && (Answer(t, Op.WriteFixed(data, beyond, count, size), max).status == Good ==> count * size == |data|)
  {
    var written := Apply(t, Op.WriteFixed(data, beyond, count, size));
    var back := Apply(written, Op.SpaceBlocks(0 - count));
    assert back.blocks[back.pos..back.pos + count] == Chunks(data + beyond, count, size);
    ChunksRead(back, data + beyond, 0, count, size);
    if count * size == |data| {
      assert (data + beyond)[..count * size] == data;
    }
  }
}
