/** The tape that an initiator sees: a sequence of blocks and a position. */
module TapeMachine {
  import opened Bytes

  datatype Block = Data(bytes: seq<byte>) | Filemark

  datatype View = View(blocks: seq<Block>, pos: nat)
  {
    predicate Valid() { pos <= |blocks| }
  }

  datatype Sense = EndOfMedium | WriteError | BlankCheck | FilemarkMet | IncorrectLength
                 | EndOfData | BeginningOfMedium | MediumError | InvalidField

  datatype Status = Good | Check(sense: Sense)

  datatype Reply = Reply(status: Status, data: seq<byte>)

  datatype Op =
    | Write(data: seq<byte>)
    | WriteFixed(data: seq<byte>, beyond: seq<byte>, count: nat, blockLength: nat)
    | WriteFilemarks(count: nat)
    | Rewind
    | Read(length: nat)
    | ReadFixed(count: nat, blockLength: nat)
    | SpaceBlocks(distance: int)
    | SpaceFilemarks(marks: int)
    | SpaceEndOfData

  // ---- one operation ----

  /** Writing anywhere discards what lay beyond. */
  function Put(t: View, written: seq<Block>): (r: View)
    requires t.Valid()
    ensures r.Valid() && r.pos == |r.blocks|
  {
    var blocks := t.blocks[..t.pos] + written;
    View(blocks, |blocks|)
  }

  function Chunks(data: seq<byte>, count: nat, size: nat): (bs: seq<Block>)
    requires count * size <= |data|
    ensures |bs| == count
  {
    if count == 0 then []
    else
      assert (count - 1) * size + size == count * size;
      Chunks(data, count - 1, size) + [Data(data[(count - 1) * size..count * size])]
  }

  function Marks(n: nat): (bs: seq<Block>)
    ensures |bs| == n && forall i :: 0 <= i < n ==> bs[i] == Filemark
  {
    seq(n, _ => Filemark)
  }

  function ReadReply(t: View, length: nat): Reply
    requires t.Valid()
  {
    if t.pos == |t.blocks| then Reply(if length == 0 then Good else Check(BlankCheck), [])
    else match t.blocks[t.pos]
      case Filemark => Reply(if length == 0 then Good else Check(FilemarkMet), [])
      case Data(d) =>
        if length == |d| then Reply(Good, d)
        else Reply(Check(IncorrectLength), d[..if length < |d| then length else |d|])
  }

  /** A read passes a filemark, and passes a block if it transferred any of it or all of an empty one. */
  function ReadPos(t: View, length: nat): (p: nat)
    requires t.Valid()
    ensures t.pos <= p <= |t.blocks|
  {
    if t.pos == |t.blocks| then t.pos
    else match t.blocks[t.pos]
      case Filemark => t.pos + 1
      case Data(d) => if length == |d| || (length > 0 && |d| > 0) then t.pos + 1 else t.pos
  }

  datatype FixedRead = FixedRead(pos: nat, status: Status, data: seq<byte>)

  /** Block after block, until a filemark or a block of another size; end of data is a block of size 0. */
  function ReadBlocks(blocks: seq<Block>, p: nat, count: nat, size: nat): (r: FixedRead)
    requires p <= |blocks|
    ensures p <= r.pos <= |blocks|
    decreases count
  {
    if count == 0 then FixedRead(p, Good, [])
    else if p == |blocks| then
      if size != 0 then FixedRead(p, Check(MediumError), []) else ReadBlocks(blocks, p, count - 1, size)
    else match blocks[p]
      case Filemark => FixedRead(p + 1, Check(FilemarkMet), [])
      case Data(d) =>
        if size != |d| then FixedRead(p, Check(MediumError), [])
        else
          var rest := ReadBlocks(blocks, p + 1, count - 1, size);
          rest.(data := d + rest.data)
  }

  function Clamp(p: int, hi: nat): (r: nat)
    ensures r <= hi
  {
    if p < 0 then 0 else if p > hi then hi else p
  }

  /** The position after the n-th filemark at or after `p`, if there are that many. */
  function AfterMarks(blocks: seq<Block>, p: nat, n: nat): (r: (nat, bool))
    requires p <= |blocks|
    ensures p <= r.0 <= |blocks|
    decreases |blocks| - p
  {
    if n == 0 then (p, true)
    else if p == |blocks| then (p, false)
    else AfterMarks(blocks, p + 1, if blocks[p].Filemark? then n - 1 else n)
  }

  /** Backwards, the code looks at the block it stands on before it steps back. */
  function BeforeMarks(blocks: seq<Block>, p: nat, n: nat): (r: (nat, bool))
    requires p <= |blocks|
    ensures r.0 <= p
    decreases p
  {
    if n == 0 then (p, true)
    else if p == 0 then (p, false)
    else BeforeMarks(blocks, p - 1, if p < |blocks| && blocks[p].Filemark? then n - 1 else n)
  }

  function SpaceMarks(blocks: seq<Block>, p: nat, k: int): (r: (nat, bool))
    requires p <= |blocks|
    ensures r.0 <= |blocks|
  {
    if k >= 0 then AfterMarks(blocks, p, k) else BeforeMarks(blocks, p, -k)
  }

  function Apply(t: View, op: Op): (r: View)
    requires t.Valid() && WellFormedOp(op)
    ensures r.Valid()
  {
    match op
    case Write(data) => Put(t, [Data(data)])
    case WriteFixed(data, beyond, count, size) => if count == 0 then t else Put(t, Chunks(data + beyond, count, size))
    case WriteFilemarks(n) => if n == 0 then t else Put(t, Marks(n))
    case Rewind => t.(pos := 0)
    case Read(length) => t.(pos := ReadPos(t, length))
    case ReadFixed(count, size) => t.(pos := ReadBlocks(t.blocks, t.pos, count, size).pos)
    case SpaceBlocks(k) => t.(pos := Clamp(t.pos + k, |t.blocks|))
    case SpaceFilemarks(k) => t.(pos := SpaceMarks(t.blocks, t.pos, k).0)
    case SpaceEndOfData => t.(pos := |t.blocks|)
  }

  /** A fixed-length write takes the blocks that it announces from the data sent and, when those are too short, from the
      memory `beyond` them. */
  predicate WellFormedOp(op: Op)
  {
    op.WriteFixed? ==> op.count * op.blockLength <= |op.data + op.beyond|
  }

  function ApplyAll(t: View, ops: seq<Op>): (r: View)
    requires t.Valid() && forall op | op in ops :: WellFormedOp(op)
    ensures r.Valid()
    decreases |ops|
  {
    if ops == [] then t else ApplyAll(Apply(t, ops[0]), ops[1..])
  }

  // ---- what filemark spacing means ----

  function CountMarks(blocks: seq<Block>): nat
  {
    if blocks == [] then 0 else CountMarks(blocks[1..]) + if blocks[0].Filemark? then 1 else 0
  }

  /** Forward spacing stops just past the n-th filemark, and fails at end of data exactly when there are fewer. */
  lemma {:induction false} AfterMarksMeans(blocks: seq<Block>, p: nat, n: nat)
    requires p <= |blocks|
    ensures var (q, ok) := AfterMarks(blocks, p, n);
            && ok == (CountMarks(blocks[p..]) >= n)
            && (ok ==> CountMarks(blocks[p..q]) == n && (n > 0 ==> q > p && blocks[q - 1].Filemark?))
            && (!ok ==> q == |blocks|)
    decreases |blocks| - p
  {
    if n > 0 && p < |blocks| {
      var m := if blocks[p].Filemark? then n - 1 else n;
      AfterMarksMeans(blocks, p + 1, m);
      assert blocks[p..][1..] == blocks[p + 1..];
      var q := AfterMarks(blocks, p, n).0;
      assert blocks[p..q][1..] == blocks[p + 1..q];
    }
  }

  lemma {:induction false} CountMarksAppend(a: seq<Block>, b: Block)
    ensures CountMarks(a + [b]) == CountMarks(a) + if b.Filemark? then 1 else 0
  {
    if a == [] {
      assert a + [b] == [b];
    } else {
      assert (a + [b])[1..] == a[1..] + [b];
      CountMarksAppend(a[1..], b);
    }
  }

  /** Reverse spacing counts the block it stands on and stops one block before the n-th filemark, not on it. */
  lemma {:induction false} BeforeMarksMeans(blocks: seq<Block>, p: nat, n: nat)
    requires p < |blocks|
    ensures var (q, ok) := BeforeMarks(blocks, p, n);
            && ok == (CountMarks(blocks[1..p + 1]) >= n)
            && (ok ==> CountMarks(blocks[q + 1..p + 1]) == n && (n > 0 ==> q < p && blocks[q + 1].Filemark?))
            && (!ok ==> q == 0)
    decreases p
  {
    if n > 0 && p > 0 {
      var m := if blocks[p].Filemark? then n - 1 else n;
      BeforeMarksMeans(blocks, p - 1, m);
      var q := BeforeMarks(blocks, p, n).0;
      assert blocks[1..p + 1] == blocks[1..p] + [blocks[p]];
      assert blocks[q + 1..p + 1] == blocks[q + 1..p] + [blocks[p]];
      CountMarksAppend(blocks[1..p], blocks[p]);
      CountMarksAppend(blocks[q + 1..p], blocks[p]);
    }
  }
}
