/** What an initiator can rely on from each tape command, on every tape and at every position. */
module TapeLaws {
  import opened Bytes
  import opened TapeFormat
  import opened TapeMachine
  import opened TapeLayout
  import opened TapeDrive
  import opened TapeTheorems

  // ---- runs in two parts ----

  lemma {:induction false} RepliesAppend(t: View, a: seq<Op>, b: seq<Op>, max: nat)
    requires t.Valid() && (forall op | op in a + b :: WellFormedOp(op))
    ensures (forall op | op in a :: WellFormedOp(op)) && (forall op | op in b :: WellFormedOp(op))
    ensures Replies(t, a + b, max) == Replies(t, a, max) + Replies(ApplyAll(t, a), b, max)
    decreases |a|
  {
    assert forall op | op in a :: op in a + b;
    assert forall op | op in b :: op in a + b;
    if a == [] {
      assert a + b == b;
    } else {
      assert (a + b)[1..] == a[1..] + b;
      RepliesAppend(Apply(t, a[0]), a[1..], b, max);
    }
  }

  // ---- READ ----

  predicate AtEnd(t: View) { t.pos == |t.blocks| }

  predicate OnMark(t: View) { t.pos < |t.blocks| && t.blocks[t.pos] == Filemark }

  /** The data under the head; a filemark and end of data have none. */
  function Under(t: View): seq<byte>
  {
    if t.pos < |t.blocks| && t.blocks[t.pos].Data? then t.blocks[t.pos].bytes else []
  }

  /** READ returns the common prefix of the request and the block. It reports end of data and filemarks exactly where
      they are, and GOOD exactly for the block's own length. It moves on over a filemark and over a block of which it
      transferred something or all. */
  lemma ReadAnswers(t: View, length: nat, max: nat)
    requires t.Valid()
    ensures var r, t' := Answer(t, Op.Read(length), max), Apply(t, Op.Read(length));
            && r.data <= Under(t) && |r.data| == (if length < |Under(t)| then length else |Under(t)|)
            && (r.status == Good <==> length == |Under(t)|)
            && (r.status == Check(BlankCheck) <==> AtEnd(t) && length > 0)
            && (r.status == Check(FilemarkMet) <==> OnMark(t) && length > 0)
            && (r.status == Check(IncorrectLength) <==> !AtEnd(t) && !OnMark(t) && length != |Under(t)|)
            && t'.blocks == t.blocks
            && (t'.pos == t.pos + 1 <==> OnMark(t) || (!AtEnd(t) && (r.status == Good || r.data != [])))
            && (t'.pos == t.pos || t'.pos == t.pos + 1)
  {
  }

  // ---- REWIND ----

  /** Whatever was written, wherever the tape stood: after REWIND the blocks are read from the first on. */
  lemma RewindReads(t: View, ds: seq<seq<byte>>, max: nat)
    requires t.Valid() && |ds| <= |t.blocks| && t.blocks[..|ds|] == AsBlocks(ds)
    ensures Answer(t, Op.Rewind, max) == Reply(Good, [])
    ensures Replies(Apply(t, Op.Rewind), Reads(ds), max) == GoodReplies(ds)
  {
    var back := Apply(t, Op.Rewind);
    forall i | 0 <= i < |ds|
      ensures back.blocks[back.pos + i] == Data(ds[i])
    {
      assert t.blocks[..|ds|][i] == AsBlocks(ds)[i];
    }
    ReadsReturn(back, ds, max);
  }

  function Session(ds: seq<seq<byte>>, es: seq<seq<byte>>): (ops: seq<Op>)
    ensures forall op | op in ops :: WellFormedOp(op)
  {
    Writes(es) + ([Op.Rewind] + Reads(ds + es))
  }

  /** A run: write behind the blocks ds, rewind, and read everything. The replies to the reads are all the blocks. */
  lemma WriteRewindRead(t: View, ds: seq<seq<byte>>, es: seq<seq<byte>>, max: nat)
    requires t.Valid() && t.blocks[..t.pos] == AsBlocks(ds) && es != []
    ensures Replies(t, Session(ds, es), max)[|es| + 1..] == GoodReplies(ds + es)
  {
    var written, rest := ApplyAll(t, Writes(es)), [Op.Rewind] + Reads(ds + es);
    WritesPut(t, es);
    assert AsBlocks(ds + es) == AsBlocks(ds) + AsBlocks(es);
    assert |AsBlocks(ds)| == |ds| == t.pos;
    assert written.blocks[..|ds + es|] == AsBlocks(ds + es);
    RewindReads(written, ds + es, max);
    RepliesAppend(t, Writes(es), rest, max);
    assert rest[1..] == Reads(ds + es);
    assert Replies(written, rest, max)
        == [Answer(written, Op.Rewind, max)] + Replies(Apply(written, Op.Rewind), rest[1..], max);
  }

  // ---- filemarks ----

  lemma {:induction false} AllMarks(blocks: seq<Block>)
    requires forall i | 0 <= i < |blocks| :: blocks[i] == Filemark
    ensures CountMarks(blocks) == |blocks|
  {
    if blocks != [] {
      AllMarks(blocks[1..]);
    }
  }

  /** WRITE FILEMARKS leaves the blocks before the position, and behind them that many marks and nothing else. */
  lemma MarksWritten(t: View, n: nat, max: nat)
    requires t.Valid() && n > 0
    ensures var t' := Apply(t, Op.WriteFilemarks(n));
            && Answer(t, Op.WriteFilemarks(n), max) == Reply(Good, [])
            && t'.pos == |t'.blocks| == t.pos + n && t'.blocks[..t.pos] == t.blocks[..t.pos]
            && forall i | t.pos <= i < t.pos + n :: t'.blocks[i] == Filemark
  {
  }

  /** Back before them, spacing over as many filemarks as were written comes out behind them with GOOD, and spacing over
      one more reports end of data. */
  lemma MarksSpaced(t: View, n: nat, k: nat, max: nat)
    requires t.Valid() && n > 0
    ensures var t' := Apply(t, Op.WriteFilemarks(n)).(pos := t.pos);
            && Apply(t', Op.SpaceFilemarks(k)) == t'.(pos := t.pos + if k <= n then k else n)
            && Answer(t', Op.SpaceFilemarks(k), max) == Reply(if k <= n then Good else Check(EndOfData), [])
  {
    MarksWritten(t, n, max);
    var t' := Apply(t, Op.WriteFilemarks(n)).(pos := t.pos);
    var q := AfterMarks(t'.blocks, t.pos, k).0;
    AfterMarksMeans(t'.blocks, t.pos, k);
    AllMarks(t'.blocks[t.pos..]);
    AllMarks(t'.blocks[t.pos..q]);
  }

  /** The blocks that reverse filemark spacing looks at: down to the second, from the one under the head if any. */
  function Behind(t: View): seq<Block>
    requires t.Valid()
  {
    if t.blocks == [] then [] else t.blocks[1..if AtEnd(t) then t.pos else t.pos + 1]
  }

  /** SPACE over filemarks: GOOD exactly when the direction has that many; otherwise the end that was met. */
  lemma SpaceFilemarksAnswers(t: View, k: int, max: nat)
    requires t.Valid()
    ensures var r, t' := Answer(t, Op.SpaceFilemarks(k), max), Apply(t, Op.SpaceFilemarks(k));
            && t'.blocks == t.blocks && r.data == []
            && (r.status == Good <==> if k >= 0 then CountMarks(t.blocks[t.pos..]) >= k
                                      else CountMarks(Behind(t)) >= -k)
            && (r.status != Good && k >= 0 ==> r.status == Check(EndOfData) && AtEnd(t'))
            && (r.status != Good && k < 0 ==> r.status == Check(BeginningOfMedium) && t'.pos == 0)
  {
    if k >= 0 {
      AfterMarksMeans(t.blocks, t.pos, k);
    } else if !AtEnd(t) {
      BeforeMarksMeans(t.blocks, t.pos, -k);
    } else if t.pos > 0 {
      BeforeMarksMeans(t.blocks, t.pos - 1, -k);
    }
  }

  // ---- SPACE over blocks ----

  function Steps(k: nat, d: int): (ops: seq<Op>)
    ensures forall op | op in ops :: WellFormedOp(op)
  {
    if k == 0 then [] else [Op.SpaceBlocks(d)] + Steps(k - 1, d)
  }

  /** One step forward is to the next block, one step back to the one before, and there are none beyond the ends. */
  lemma SpaceOne(t: View)
    requires t.Valid()
    ensures Apply(t, Op.SpaceBlocks(0)) == t
    ensures Apply(t, Op.SpaceBlocks(1)) == if AtEnd(t) then t else t.(pos := t.pos + 1)
    ensures Apply(t, Op.SpaceBlocks(-1)) == if t.pos == 0 then t else t.(pos := t.pos - 1)
  {
  }

  /** Spacing over k blocks is k times spacing over one, either way. */
  lemma {:induction false} SpaceIsSteps(t: View, k: nat)
    requires t.Valid()
    ensures Apply(t, Op.SpaceBlocks(k)) == ApplyAll(t, Steps(k, 1))
    ensures Apply(t, Op.SpaceBlocks(0 - k)) == ApplyAll(t, Steps(k, -1))
    decreases k
  {
    if k > 0 {
      SpaceOne(t);
      SpaceIsSteps(Apply(t, Op.SpaceBlocks(1)), k - 1);
      SpaceIsSteps(Apply(t, Op.SpaceBlocks(-1)), k - 1);
      assert Steps(k, 1)[1..] == Steps(k - 1, 1) && Steps(k, -1)[1..] == Steps(k - 1, -1);
    }
  }

  /** Forward spacing is GOOD exactly when it ends on a block, and otherwise reports end of data; spacing back is always
      GOOD. */
  lemma SpaceBlocksAnswers(t: View, k: int, max: nat)
    requires t.Valid()
    ensures var r, t' := Answer(t, Op.SpaceBlocks(k), max), Apply(t, Op.SpaceBlocks(k));
            && t'.blocks == t.blocks && r.data == []
            && (r.status == Good <==> k <= 0 || (t'.pos == t.pos + k && !AtEnd(t')))
            && (r.status != Good ==> r.status == Check(EndOfData) && AtEnd(t'))
  {
  }

  /** Behind end of data, nothing is lost by writing. */
  lemma WriteAtEndOfData(t: View, d: seq<byte>)
    requires t.Valid()
    ensures var end := Apply(t, Op.SpaceEndOfData);
            && AtEnd(end) && Apply(end, Op.Write(d)) == View(t.blocks + [Data(d)], |t.blocks| + 1)
  {
    assert t.blocks[..|t.blocks|] == t.blocks;
  }

  // ---- fixed-length READ ----

  /** The next k blocks are data of that size. */
  predicate Matching(blocks: seq<Block>, p: nat, k: nat, size: nat)
  {
    p + k <= |blocks| && forall i | p <= i < p + k :: blocks[i].Data? && |blocks[i].bytes| == size
  }

  function Join(blocks: seq<Block>, p: nat, k: nat): seq<byte>
    requires p + k <= |blocks|
    decreases k
  {
    if k == 0 then [] else Contents(blocks[p]) + Join(blocks, p + 1, k - 1)
  }

  lemma {:induction false} EndHasNoBytes(blocks: seq<Block>, count: nat)
    ensures ReadBlocks(blocks, |blocks|, count, 0) == FixedRead(|blocks|, Good, [])
  {
    if count > 0 {
      EndHasNoBytes(blocks, count - 1);
    }
  }

  lemma {:induction false} ReadBlocksMeans(blocks: seq<Block>, p: nat, count: nat, size: nat) returns (k: nat)
    requires p <= |blocks|
    ensures k <= count && Matching(blocks, p, k, size) && (k < count ==> !Matching(blocks, p, k + 1, size))
    ensures var mark := k < count && p + k < |blocks| && blocks[p + k] == Filemark;
            var done := k == count || (size == 0 && p + k == |blocks|);
            ReadBlocks(blocks, p, count, size) ==
            FixedRead(if mark then p + k + 1 else p + k,
                      if mark then Check(FilemarkMet) else if done then Good else Check(MediumError),
                      Join(blocks, p, k))
    decreases count
  {
    k := 0;
    if count > 0 && p < |blocks| && blocks[p].Data? && |blocks[p].bytes| == size {
      var j := ReadBlocksMeans(blocks, p + 1, count - 1, size);
      k := j + 1;
      assert k < count && Matching(blocks, p, k + 1, size) ==> Matching(blocks, p + 1, j + 1, size);
    } else if count > 0 && p == |blocks| && size == 0 {
      EndHasNoBytes(blocks, count);
    }
  }

  /** A fixed-length read returns the longest run of blocks of that size, at most `count`. It is GOOD when that is
      all of them, stops behind a filemark, and before any other block; end of data passes for a block without bytes. */
  lemma FixedReadAnswers(t: View, count: nat, size: nat, max: nat) returns (k: nat)
    requires t.Valid()
    ensures k <= count && Matching(t.blocks, t.pos, k, size)
    ensures k < count ==> !Matching(t.blocks, t.pos, k + 1, size)
    ensures var r, t' := Answer(t, Op.ReadFixed(count, size), max), Apply(t, Op.ReadFixed(count, size));
            var stop := t.(pos := t.pos + k);
            && t'.blocks == t.blocks && r.data == Join(t.blocks, t.pos, k)
            && (r.status == Good <==> k == count || (size == 0 && AtEnd(stop)))
            && (r.status == Check(FilemarkMet) <==> k < count && OnMark(stop))
            && (r.status == Good || r.status == Check(FilemarkMet) || r.status == Check(MediumError))
            && t'.pos == t.pos + k + if k < count && OnMark(stop) then 1 else 0
  {
    k := ReadBlocksMeans(t.blocks, t.pos, count, size);
  }

  // ---- WRITE ----

  function TotalBytes(blocks: seq<Block>): nat
  {
    if blocks == [] then 0 else TotalBytes(blocks[..|blocks| - 1]) + Size(blocks[|blocks| - 1])
  }

  lemma {:induction false} EndIsSum(blocks: seq<Block>)
    ensures EndOf(blocks) == FIRST_HDR + HDR_SIZE * |blocks| + TotalBytes(blocks)
  {
    if blocks != [] {
      EndIsSum(blocks[..|blocks| - 1]);
    }
  }

  /** A write of nothing does not even discard what lies beyond. */
  lemma NothingWritten(t: View, d: seq<byte>, beyond: seq<byte>, size: nat)
    requires t.Valid()
    ensures Apply(t, Op.WriteFilemarks(0)) == t && Apply(t, Op.WriteFixed(d, beyond, 0, size)) == t
  {
  }

  /** A write is carried out in any case, and warned about exactly when headers and data of the tape so far exceed the
      capacity. */
  lemma WriteAnswers(t: View, d: seq<byte>, max: nat)
    requires t.Valid()
    ensures var r, t' := Answer(t, Op.Write(d), max), Apply(t, Op.Write(d));
            && t'.blocks == t.blocks[..t.pos] + [Data(d)] && AtEnd(t') && r.data == []
            && (r.status == Check(EndOfMedium) <==> FIRST_HDR + HDR_SIZE * |t'.blocks| + TotalBytes(t'.blocks) > max)
            && (r.status == Good || r.status == Check(EndOfMedium))
  {
    var t' := Apply(t, Op.Write(d));
    EndIsSum(t'.blocks);
    OffsetEnd(t'.blocks);
  }
}
