/** The tape backing store: a flat file and one cached header, refining the abstract tape. */
module TapeDrive {
  import opened Bytes
  import opened TapeFormat
  import opened TapeMachine
  import opened TapeLayout

  /** Every operation's reply, in terms of the abstract tape. */
  function Answer(t: View, op: Op, maxCapacity: nat): Reply
    requires t.Valid() && WellFormedOp(op)
  {
    var after := Apply(t, op);
    match op
    case Write(_) => Reply(WriteStatus(after, maxCapacity, true), [])
    case WriteFixed(data, _, count, size) => Reply(WriteStatus(after, maxCapacity, count * size == |data|), [])
    case WriteFilemarks(_) => Reply(Good, [])
    case Rewind => Reply(Good, [])
    case Read(length) => ReadReply(t, length)
    case ReadFixed(count, size) =>
      var r := ReadBlocks(t.blocks, t.pos, count, size);
      Reply(r.status, r.data)
    case SpaceBlocks(k) => Reply(if k <= 0 || t.pos + k < |t.blocks| then Good else Check(EndOfData), [])
    case SpaceFilemarks(k) => Reply(MarkStatus(k, SpaceMarks(t.blocks, t.pos, k).1), [])
    case SpaceEndOfData => Reply(Good, [])
  }

  function MarkStatus(k: int, ok: bool): Status
  {
    if ok then Good else if k >= 0 then Check(EndOfData) else Check(BeginningOfMedium)
  }

  function WriteStatus(after: View, maxCapacity: nat, complete: bool): Status
    requires after.Valid()
  {
    if Offset(after.blocks, after.pos) > maxCapacity then Check(EndOfMedium)
    else if complete then Good
    else Check(WriteError)
  }

  // ---- runs ----

  /** Every block size and offset of the run fits the C types. */
  ghost predicate RunFits(t: View, ops: seq<Op>)
    requires t.Valid() && forall op | op in ops :: WellFormedOp(op)
    decreases |ops|
  {
    ops == [] || (Fit(Apply(t, ops[0]).blocks) && RunFits(Apply(t, ops[0]), ops[1..]))
  }

  function Replies(t: View, ops: seq<Op>, maxCapacity: nat): (r: seq<Reply>)
    requires t.Valid() && forall op | op in ops :: WellFormedOp(op)
    ensures |r| == |ops|
    decreases |ops|
  {
    if ops == [] then []
    else [Answer(t, ops[0], maxCapacity)] + Replies(Apply(t, ops[0]), ops[1..], maxCapacity)
  }

  // ---- facts that the drive's methods use ----

  lemma NewTapeStored(enc: Header -> seq<byte>, bot: Header, eod: Header, attributes: seq<byte>)
    requires Sized(enc) && |attributes| == MAM_SIZE
    requires bot == BotHeader(bot.blkSz) && eod == HeaderAt([], 0)
    ensures Stored(enc, Pwrite(Pwrite(Pwrite([], 0, enc(bot)), HDR_SIZE, attributes), FIRST_HDR, enc(eod)),
                   bot.blkSz, [])
  {
    var f1 := Pwrite([], 0, enc(bot));
    var f2 := Pwrite(f1, HDR_SIZE, attributes);
    PwriteElsewhere(f1, HDR_SIZE, attributes, 0, HDR_SIZE);
    PwriteElsewhere(f2, FIRST_HDR, enc(eod), 0, HDR_SIZE);
  }

  /** Reading a stored header gives the header back. */
  lemma HeaderReadsBack(c: Codec, file: seq<byte>, capacity: nat, blocks: seq<Block>, i: nat)
    requires Lawful(c) && Fit(blocks) && Stored(c.put, file, capacity, blocks) && i <= |blocks|
    ensures Offset(blocks, i) + HDR_SIZE <= |file|
    ensures c.get(Range(file, Offset(blocks, i), Offset(blocks, i) + HDR_SIZE)) == HeaderAt(blocks, i)
  {
    assert HeaderStored(c.put, file, blocks, i);
    HeaderFits(blocks, i);
  }

  lemma BotReadsBack(c: Codec, file: seq<byte>, capacity: nat, blocks: seq<Block>)
    requires Lawful(c) && capacity < Limit(4) && Stored(c.put, file, capacity, blocks)
    ensures HDR_SIZE <= |file|
    ensures c.get(Range(file, 0, HDR_SIZE)) == BotHeader(capacity)
  {
    assert BotHeader(capacity).Fits() by {
      assert Limit(4) == 0x1_0000_0000;
      assert Limit(8) == 0x1_0000_0000 * Limit(4);
    }
  }

  /** Any leading part of a block's data can be read from behind its header. */
  lemma DataReadsBack(enc: Header -> seq<byte>, file: seq<byte>, capacity: nat, blocks: seq<Block>, i: nat, length: nat)
    requires Stored(enc, file, capacity, blocks) && i < |blocks| && length <= Size(blocks[i])
    ensures Offset(blocks, i) + HDR_SIZE + length <= |file|
    ensures file[Offset(blocks, i) + HDR_SIZE..][..length] == Contents(blocks[i])[..length]
  {
    assert DataStored(file, blocks, i);
    var off := Offset(blocks, i) + HDR_SIZE;
    assert file[off..][..length] == Range(file, off, off + Size(blocks[i]))[..length];
  }

  lemma {:induction false} EndMonotone(a: seq<Block>, b: seq<Block>)
    ensures EndOf(a) <= EndOf(a + b)
  {
    if b == [] {
      assert a + b == a;
    } else {
      EndMonotone(a, b[..|b| - 1]);
      assert (a + b)[..|a + b| - 1] == a + b[..|b| - 1];
    }
  }

  lemma FitPrefix(a: seq<Block>, b: seq<Block>)
    requires Fit(a + b)
    ensures Fit(a)
  {
    EndMonotone(a, b);
    forall i | 0 <= i < |a|
      ensures Size(a[i]) < SIZE_LIMIT
    {
      assert (a + b)[i] == a[i];
    }
  }

  /** Writing blocks one at a time is writing them together, and each step fits if the whole does. */
  lemma AppendStep(t: View, bs: seq<Block>, i: nat)
    requires t.Valid() && i < |bs| && Fit(Put(t, bs).blocks)
    ensures var done := if i == 0 then t else Put(t, bs[..i]);
            && Fit(Appended(done.blocks, done.pos, bs[i]))
            && View(Appended(done.blocks, done.pos, bs[i]), done.pos + 1) == Put(t, bs[..i + 1])
  {
    var next := t.blocks[..t.pos] + bs[..i + 1];
    assert Put(t, bs).blocks == next + bs[i + 1..];
    FitPrefix(next, bs[i + 1..]);
    var done := if i == 0 then t else Put(t, bs[..i]);
    assert Appended(done.blocks, done.pos, bs[i]) == next;
  }

  function Prepend(data: seq<byte>, r: FixedRead): FixedRead
  {
    r.(data := data + r.data)
  }

  /** A fixed-length read is its first round, then the rest unless that round failed. */
  lemma ReadOneMore(blocks: seq<Block>, p: nat, count: nat, size: nat, data: seq<byte>)
    requires p <= |blocks| && count > 0
    ensures var one := ReadBlocks(blocks, p, 1, size);
            Prepend(data, ReadBlocks(blocks, p, count, size))
            == if one.status != Good then Prepend(data, one)
               else Prepend(data + one.data, ReadBlocks(blocks, one.pos, count - 1, size))
  {
    var one := ReadBlocks(blocks, p, 1, size);
    if one.status == Good {
      assert p < |blocks| ==> ReadBlocks(blocks, p + 1, 0, size) == FixedRead(p + 1, Good, []);
      assert p == |blocks| ==> ReadBlocks(blocks, p, 0, size) == FixedRead(p, Good, []);
      var rest := ReadBlocks(blocks, one.pos, count - 1, size);
      assert ReadBlocks(blocks, p, count, size) == Prepend(one.data, rest);
      assert data + (one.data + rest.data) == (data + one.data) + rest.data;
    }
  }

  /** The drive's invariant: the file holds the chain and the cached header is the one at the position. */
  ghost predicate Inv(c: Codec, file: seq<byte>, blk: Header, capacity: nat, blocks: seq<Block>, pos: nat)
  {
    && pos <= |blocks| && Fit(blocks) && capacity < Limit(4)
    && Lawful(c) && Stored(c.put, file, capacity, blocks)
    && blk == HeaderAt(blocks, pos)
  }

  lemma AppendKeepsInv(c: Codec, file: seq<byte>, blk: Header, capacity: nat, blocks: seq<Block>, pos: nat, b: Block,
                       curr: Header, eod: Header)
    requires Inv(c, file, blk, capacity, blocks, pos) && Fit(Appended(blocks, pos, b))
    requires curr == RewrittenHeader(blk, b) && eod == NewEod(curr)
    ensures |c.put(curr)| == HDR_SIZE && eod.curr == curr.curr + HDR_SIZE + |Contents(b)|
    ensures Inv(c, ThreeWrites(file, curr.curr, c.put(curr), c.put(eod), Contents(b)), eod, capacity,
                Appended(blocks, pos, b), pos + 1)
  {
    AppendFromCache(c.put, file, capacity, blocks, pos, b, curr, eod);
  }

  lemma NewTapeInv(c: Codec, bot: Header, eod: Header, attributes: seq<byte>)
    requires Lawful(c) && |attributes| == MAM_SIZE && bot.blkSz < Limit(4)
    requires bot == BotHeader(bot.blkSz) && eod == Header(0, 0, BLK_EOD, 1, 0, FIRST_HDR, FIRST_HDR)
    ensures Inv(c, Pwrite(Pwrite(Pwrite([], 0, c.put(bot)), HDR_SIZE, attributes), FIRST_HDR, c.put(eod)), eod,
                bot.blkSz, [], 0)
  {
    NewTapeStored(c.put, bot, eod, attributes);
  }

  class Drive {
    const codec: Codec
    var file: seq<byte>
    var blk: Header
    var maxCapacity: nat

    ghost var capacity: nat
    ghost var blocks: seq<Block>
    ghost var pos: nat

    ghost predicate Valid()
      reads this
    {
      Inv(codec, file, blk, capacity, blocks, pos)
    }

    ghost function Tape(): (t: View)
      requires Valid()
      reads this
      ensures t.Valid()
    {
      View(blocks, pos)
    }

    /** ssc_read_blkhdr: fails only when fewer than 48 bytes remain. */
    method ReadHeader(offset: nat) returns (failed: bool)
      modifies this`blk
      ensures failed == (offset + HDR_SIZE > |file|)
      ensures !failed ==> blk == codec.get(Range(file, offset, offset + HDR_SIZE))
      ensures failed ==> blk == old(blk)
    {
      failed := offset + HDR_SIZE > |file|;
      if !failed {
        blk := codec.get(Range(file, offset, offset + HDR_SIZE));
      }
    }

    /** skip_next_header */
    method SkipNext() returns (failed: bool)
      requires Valid()
      modifies this`blk, this`pos
      ensures Valid() && !failed
      ensures pos == Clamp(old(pos) + 1, |blocks|)
    {
      ChainShape(blocks, pos);
      ghost var p := Clamp(pos + 1, |blocks|);
      HeaderReadsBack(codec, file, capacity, blocks, p);
      failed := ReadHeader(blk.next);
      pos := p;
    }

    /** skip_prev_header: beginning of tape bounces to the first block. */
    method SkipPrev() returns (failed: bool)
      requires Valid()
      modifies this`blk, this`pos
      ensures Valid() && !failed
      ensures pos == Clamp(old(pos) - 1, |blocks|)
    {
      ChainShape(blocks, pos);
      BotReadsBack(codec, file, capacity, blocks);
      HeaderReadsBack(codec, file, capacity, blocks, Clamp(pos - 1, |blocks|));
      failed := ReadHeader(blk.prev);
      if !failed && blk.blkType == BLK_BOT {
        failed := ReadHeader(blk.next);
      }
      pos := Clamp(pos - 1, |blocks|);
    }

    /** resp_rewind */
    method Rewind() returns (failed: bool)
      requires Valid()
      modifies this`blk, this`pos
      ensures Valid() && !failed
      ensures pos == 0
    {
      BotReadsBack(codec, file, capacity, blocks);
      HeaderReadsBack(codec, file, capacity, blocks, 0);
      failed := ReadHeader(0);
      if !failed {
        failed := ReadHeader(blk.next);
      }
      pos := 0;
    }

    /** append_blk */
    method Append(b: Block)
      requires Valid() && Fit(Appended(blocks, pos, b))
      modifies this`file, this`blk, this`blocks, this`pos
      ensures Valid() && blocks == Appended(old(blocks), old(pos), b) && pos == old(pos) + 1
    {
      var curr := RewrittenHeader(blk, b);
      var eod := NewEod(curr);
      AppendKeepsInv(codec, file, blk, capacity, blocks, pos, b, curr, eod);
      var f := WriteAll(curr, eod, Contents(b));
      assert Inv(codec, f, eod, capacity, Appended(blocks, pos, b), pos + 1);
      file, blk := f, eod;
      blocks, pos := Appended(blocks, pos, b), pos + 1;
    }

    /** The file writes of append_blk; no data is written for an empty block. */
    method WriteAll(curr: Header, eod: Header, data: seq<byte>) returns (f: seq<byte>)
      requires |codec.put(curr)| == HDR_SIZE && eod.curr == curr.curr + HDR_SIZE + |data|
      ensures f == ThreeWrites(file, curr.curr, codec.put(curr), codec.put(eod), data)
    {
      f := Pwrite(file, curr.curr, codec.put(curr));
      f := Pwrite(f, eod.curr, codec.put(eod));
      if |data| > 0 {
        f := Pwrite(f, curr.curr + HDR_SIZE, data);
      }
    }

    /** WRITE(6) without the fixed bit: one block holds all the data. */
    method Write(data: seq<byte>) returns (status: Status)
      requires Valid() && Fit(Apply(Tape(), Op.Write(data)).blocks)
      modifies this`file, this`blk, this`blocks, this`pos
      ensures Valid() && Tape() == Apply(old(Tape()), Op.Write(data))
      ensures Reply(status, []) == Answer(old(Tape()), Op.Write(data), maxCapacity)
    {
      Append(Data(data));
      status := if blk.curr > maxCapacity then Check(EndOfMedium) else Good;
    }

    /** The append loop of the fixed-length and filemark writes. */
    method AppendEach(bs: seq<Block>)
      requires Valid() && bs != [] && Fit(Put(Tape(), bs).blocks)
      modifies this`file, this`blk, this`blocks, this`pos
      ensures Valid() && Tape() == Put(old(Tape()), bs)
    {
      ghost var t := Tape();
      for i := 0 to |bs|
        invariant Valid() && Tape() == if i == 0 then t else Put(t, bs[..i])
      {
        AppendStep(t, bs, i);
        Append(bs[i]);
      }
      assert bs[..|bs|] == bs;
    }

    /** WRITE(6) with the fixed bit: `count` blocks of the mode page's block length. */
    method WriteFixed(data: seq<byte>, beyond: seq<byte>, count: nat, blockLength: nat) returns (status: Status)
      requires count * blockLength <= |data + beyond|
      requires Valid() && Fit(Apply(Tape(), Op.WriteFixed(data, beyond, count, blockLength)).blocks)
      modifies this`file, this`blk, this`blocks, this`pos
      ensures Valid() && Tape() == Apply(old(Tape()), Op.WriteFixed(data, beyond, count, blockLength))
      ensures Reply(status, []) == Answer(old(Tape()), Op.WriteFixed(data, beyond, count, blockLength), maxCapacity)
    {
      if count > 0 {
        AppendEach(Chunks(data + beyond, count, blockLength));
      }
      status := if blk.curr > maxCapacity then Check(EndOfMedium)
                else if count * blockLength != |data| then Check(WriteError)
                else Good;
    }

    /** WRITE FILEMARKS */
    method WriteFilemarks(count: nat)
      requires Valid() && Fit(Apply(Tape(), Op.WriteFilemarks(count)).blocks)
      modifies this`file, this`blk, this`blocks, this`pos
      ensures Valid() && Tape() == Apply(old(Tape()), Op.WriteFilemarks(count))
    {
      if count > 0 {
        AppendEach(Marks(count));
      }
    }

    /** pread64 of a block's leading bytes. */
    method ReadData(length: nat) returns (data: seq<byte>)
      requires Valid() && pos < |blocks| && length <= Size(blocks[pos])
      ensures data == Contents(blocks[pos])[..length]
    {
      DataReadsBack(codec.put, file, capacity, blocks, pos, length);
      data := file[blk.curr + HDR_SIZE..][..length];
    }

    /** resp_var_read; `length` is the smaller of the transfer length and the initiator's buffer. */
    method Read(length: nat) returns (reply: Reply)
      requires Valid()
      modifies this`blk, this`pos
      ensures Valid() && Tape() == Apply(old(Tape()), Op.Read(length))
      ensures reply == Answer(old(Tape()), Op.Read(length), maxCapacity)
    {
      ChainShape(blocks, pos);
      var status, n := Good, length;
      if length != blk.blkSz {
        status := Check(if blk.blkType == BLK_EOD then BlankCheck
                        else if blk.blkType == BLK_FILEMARK then FilemarkMet
                        else IncorrectLength);
        n := if length < blk.blkSz then length else blk.blkSz;
        if n == 0 {
          reply := Reply(status, []);
          if blk.blkType == BLK_FILEMARK {
            var _ := SkipNext();
          }
          return;
        }
      }
      var data := [];
      if n > 0 {
        data := ReadData(n);
      }
      reply := Reply(status, data);
      var _ := SkipNext();
    }

    /** One round of resp_fixed_read. */
    method ReadOne(blockLength: nat) returns (status: Status, data: seq<byte>)
      requires Valid()
      modifies this`blk, this`pos
      ensures Valid()
      ensures FixedRead(pos, status, data) == ReadBlocks(blocks, old(pos), 1, blockLength)
    {
      ChainShape(blocks, pos);
      status, data := Good, [];
      if blk.blkType == BLK_FILEMARK {
        var _ := SkipNext();
        return Check(FilemarkMet), data;
      }
      if blockLength != blk.blkSz {
        return Check(MediumError), data;
      }
      if blockLength > 0 {
        data := ReadData(blockLength);
      }
      var _ := SkipNext();
    }

    /** resp_fixed_read */
    method ReadFixed(count: nat, blockLength: nat) returns (reply: Reply)
      requires Valid()
      modifies this`blk, this`pos
      ensures Valid() && Tape() == Apply(old(Tape()), Op.ReadFixed(count, blockLength))
      ensures reply == Answer(old(Tape()), Op.ReadFixed(count, blockLength), maxCapacity)
    {
      ghost var want := ReadBlocks(blocks, pos, count, blockLength);
      var data := [];
      for i := 0 to count
        invariant Valid()
        invariant want == Prepend(data, ReadBlocks(blocks, pos, count - i, blockLength))
      {
        ReadOneMore(blocks, pos, count - i, blockLength, data);
        var status, d := ReadOne(blockLength);
        data := data + d;
        if status != Good {
          return Reply(status, data);
        }
      }
      reply := Reply(Good, data);
    }

    /** space_blocks: the sign of the count does not change on the way. */
    method SpaceBlocks(distance: int) returns (status: Status)
      requires Valid()
      modifies this`blk, this`pos
      ensures Valid() && Tape() == Apply(old(Tape()), Op.SpaceBlocks(distance))
      ensures Reply(status, []) == Answer(old(Tape()), Op.SpaceBlocks(distance), maxCapacity)
    {
      if distance > 0 {
        status := SpaceForward(distance);
      } else {
        SpaceBack(-distance);
        status := Good;
      }
    }

    method SpaceForward(distance: nat) returns (status: Status)
      requires Valid() && distance > 0
      modifies this`blk, this`pos
      ensures Valid() && pos == Clamp(old(pos) + distance, |blocks|)
      ensures status == if old(pos) + distance < |blocks| then Good else Check(EndOfData)
    {
      for i := 0 to distance
        invariant Valid()
        invariant pos == old(pos) + i && (i > 0 ==> pos < |blocks|)
      {
        var _ := SkipNext();
        var k := Kind();
        if k == BLK_EOD {
          return Check(EndOfData);
        }
      }
      status := Good;
    }

    /** Stepping back from the first block bounces, so beginning of medium is never reported. */
    method SpaceBack(distance: nat)
      requires Valid()
      modifies this`blk, this`pos
      ensures Valid() && pos == Clamp(old(pos) - distance, |blocks|)
    {
      for i := 0 to distance
        invariant Valid() && pos == Clamp(old(pos) - i, |blocks|)
      {
        var _ := SkipPrev();
        var k := Kind();
        if k == BLK_BOT {
          assert false;
        }
      }
    }

    /** The type of the cached header. */
    method Kind() returns (k: nat)
      requires Valid()
      ensures k != BLK_BOT
      ensures k == BLK_EOD <==> pos == |blocks|
      ensures k == BLK_FILEMARK <==> pos < |blocks| && blocks[pos].Filemark?
    {
      k := blk.blkType;
    }

    /** space_filemark_forward */
    method SpaceMarksForward(marks: nat) returns (status: Status)
      requires Valid()
      modifies this`blk, this`pos
      ensures Valid() && pos == AfterMarks(blocks, old(pos), marks).0
      ensures status == if AfterMarks(blocks, old(pos), marks).1 then Good else Check(EndOfData)
    {
      var count := marks;
      while count > 0
        invariant Valid()
        invariant AfterMarks(blocks, pos, count) == AfterMarks(blocks, old(pos), marks)
        decreases |blocks| - pos
      {
        var k := Kind();
        if k == BLK_EOD {
          return Check(EndOfData);
        }
        if k == BLK_FILEMARK {
          count := count - 1;
        }
        var _ := SkipNext();
      }
      status := Good;
    }

    /** space_filemark_reverse: only the first header has a zero back link. */
    method SpaceMarksReverse(marks: nat) returns (status: Status)
      requires Valid()
      modifies this`blk, this`pos
      ensures Valid() && pos == BeforeMarks(blocks, old(pos), marks).0
      ensures status == if BeforeMarks(blocks, old(pos), marks).1 then Good else Check(BeginningOfMedium)
    {
      var count := marks;
      while count > 0
        invariant Valid()
        invariant BeforeMarks(blocks, pos, count) == BeforeMarks(blocks, old(pos), marks)
        decreases pos
      {
        var k := Kind();
        if blk.prev == 0 {
          return Check(BeginningOfMedium);
        }
        if k == BLK_FILEMARK {
          count := count - 1;
        }
        var _ := SkipPrev();
      }
      status := Good;
    }

    /** space_filemark */
    method SpaceFilemarks(marks: int) returns (status: Status)
      requires Valid()
      modifies this`blk, this`pos
      ensures Valid() && pos == SpaceMarks(blocks, old(pos), marks).0
      ensures status == MarkStatus(marks, SpaceMarks(blocks, old(pos), marks).1)
    {
      status := Good;
      if marks > 0 {
        status := SpaceMarksForward(marks);
      } else if marks < 0 {
        status := SpaceMarksReverse(-marks);
      }
    }

    /** SPACE to end of data */
    method SpaceEndOfData()
      requires Valid()
      modifies this`blk, this`pos
      ensures Valid() && pos == |blocks|
    {
      var k := Kind();
      while k != BLK_EOD
        invariant Valid() && (k == BLK_EOD <==> pos == |blocks|)
        decreases |blocks| - pos
      {
        var _ := SkipNext();
        k := Kind();
      }
    }

    /** tape_rdwr_request, one command */
    method Execute(op: Op) returns (reply: Reply)
      requires Valid() && WellFormedOp(op) && Fit(Apply(Tape(), op).blocks)
      modifies this`file, this`blk, this`blocks, this`pos
      ensures Valid() && Tape() == Apply(old(Tape()), op)
      ensures reply == Answer(old(Tape()), op, maxCapacity)
    {
      match op {
        case Write(data) => var status := Write(data); reply := Reply(status, []);
        case WriteFixed(data, beyond, count, size) =>
          var status := WriteFixed(data, beyond, count, size);
          reply := Reply(status, []);
        case WriteFilemarks(n) => WriteFilemarks(n); reply := Reply(Good, []);
        case Read(length) => reply := Read(length);
        case ReadFixed(count, size) => reply := ReadFixed(count, size);
        case _ => reply := Move(op);
      }
    }

    /** REWIND and SPACE */
    method Move(op: Op) returns (reply: Reply)
      requires Valid() && (op.Rewind? || op.SpaceBlocks? || op.SpaceFilemarks? || op.SpaceEndOfData?)
      modifies this`blk, this`pos
      ensures Valid() && Tape() == Apply(old(Tape()), op)
      ensures reply == Answer(old(Tape()), op, maxCapacity)
    {
      var status := Good;
      if op.Rewind? {
        var _ := Rewind();
      } else if op.SpaceBlocks? {
        status := SpaceBlocks(op.distance);
      } else if op.SpaceFilemarks? {
        status := SpaceFilemarks(op.marks);
      } else {
        SpaceEndOfData();
      }
      reply := Reply(status, []);
    }

    /** Any run of commands: the file-backed drive answers exactly as the abstract tape does. */
    method Run(ops: seq<Op>) returns (replies: seq<Reply>)
      requires Valid() && (forall op | op in ops :: WellFormedOp(op)) && RunFits(Tape(), ops)
      modifies this`file, this`blk, this`blocks, this`pos
      ensures Valid() && Tape() == ApplyAll(old(Tape()), ops)
      ensures replies == Replies(old(Tape()), ops, maxCapacity)
    {
      replies := [];
      var rest := ops;
      while rest != []
        invariant Valid() && (forall op | op in rest :: WellFormedOp(op)) && RunFits(Tape(), rest)
        invariant ApplyAll(old(Tape()), ops) == ApplyAll(Tape(), rest)
        invariant Replies(old(Tape()), ops, maxCapacity) == replies + Replies(Tape(), rest, maxCapacity)
      {
        var reply := Execute(rest[0]);
        replies := replies + [reply];
        rest := rest[1..];
      }
    }

    /** ssc_new followed by bs_ssc_open: `megabytes` is the capacity, `mam` the medium's other attributes. */
    constructor (c: Codec, megabytes: nat, mam: seq<byte>)
      requires Lawful(c) && |mam| == MAM_SIZE
      ensures Valid() && Tape() == View([], 0) && codec == c
      ensures maxCapacity == megabytes * 0x10_0000 % Limit(8)
    {
      var limit := megabytes * 0x10_0000 % Limit(8);
      var attributes := mam[..16] + PutBe(limit, 8) + mam[24..];
      var bot := BotHeader(megabytes % Limit(4));
      var eod := Header(0, 0, BLK_EOD, 1, 0, FIRST_HDR, FIRST_HDR);
      var f := Pwrite(Pwrite(Pwrite([], 0, c.put(bot)), HDR_SIZE, attributes), FIRST_HDR, c.put(eod));
      NewTapeInv(c, bot, eod, attributes);
      assert attributes[16..24] == PutBe(limit, 8);
      GetPut(limit, 8);
      codec, file, blk := c, f, eod;
      maxCapacity := GetBe(attributes[16..24]);
      capacity, blocks, pos := bot.blkSz, [], 0;
    }
  }

  /** A new tape with the real header format; a capacity of zero means 8000 megabytes. */
  method NewTape(size: nat, mam: seq<byte>) returns (d: Drive)
    requires |mam| == MAM_SIZE
    ensures fresh(d) && d.Valid() && d.Tape() == View([], 0)
    ensures d.codec == Codec(PutHeader, GetHeader)
    ensures d.maxCapacity == (if size == 0 then 8000 else size) * 0x10_0000 % Limit(8)
  {
    BlockHeadersLawful();
    d := new Drive(Codec(PutHeader, GetHeader), if size == 0 then 8000 else size, mam);
  }
}
