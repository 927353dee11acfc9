/** Where the blocks of a tape lie in the file, and what one append does to the bytes. */
module TapeLayout {
  import opened Bytes
  import opened TapeFormat
  import opened TapeMachine

  function Size(b: Block): nat
  {
    match b
    case Data(d) => |d|
    case Filemark => 0
  }

  function Contents(b: Block): (d: seq<byte>)
    ensures |d| == Size(b)
  {
    if b.Data? then b.bytes else []
  }

  /** The offset of the header that follows these blocks. */
  function EndOf(blocks: seq<Block>): (end: nat)
    ensures end >= FIRST_HDR + HDR_SIZE * |blocks|
  {
    if blocks == [] then FIRST_HDR
    else EndOf(blocks[..|blocks| - 1]) + HDR_SIZE + Size(blocks[|blocks| - 1])
  }

  function Offset(blocks: seq<Block>, i: nat): (off: nat)
    requires i <= |blocks|
    ensures off >= FIRST_HDR + HDR_SIZE * i
  {
    EndOf(blocks[..i])
  }

  /** The header of block i; the one past the last block marks end of data. */
  function HeaderAt(blocks: seq<Block>, i: nat): Header
    requires i <= |blocks|
  {
    var prev := if i == 0 then 0 else Offset(blocks, i - 1);
    var curr := Offset(blocks, i);
    if i == |blocks| then Header(0, 0, BLK_EOD, i + 1, prev, curr, curr)
    else
      var size := Size(blocks[i]);
      var kind := if blocks[i].Data? then BLK_UNCOMPRESS_DATA else BLK_FILEMARK;
      Header(size, size, kind, i + 1, prev, curr, Offset(blocks, i + 1))
  }

  function BotHeader(capacity: nat): Header
  {
    Header(0, capacity, BLK_BOT, 0, 0, 0, FIRST_HDR)
  }

  /** The sizes fit a C int and the whole chain fits a file offset. */
  predicate Fit(blocks: seq<Block>)
  {
    && EndOf(blocks) + HDR_SIZE < OFFSET_LIMIT
    && forall i :: 0 <= i < |blocks| ==> Size(blocks[i]) < SIZE_LIMIT
  }

  // ---- offsets ----

  lemma OffsetStep(blocks: seq<Block>, i: nat)
    requires i < |blocks|
    ensures Offset(blocks, i + 1) == Offset(blocks, i) + HDR_SIZE + Size(blocks[i])
  {
    assert blocks[..i + 1][..i] == blocks[..i];
  }

  lemma {:induction false} OffsetsIncrease(blocks: seq<Block>, i: nat, j: nat)
    requires i < j <= |blocks|
    ensures Offset(blocks, i) + HDR_SIZE + Size(blocks[i]) <= Offset(blocks, j)
    decreases j - i
  {
    OffsetStep(blocks, j - 1);
    if i < j - 1 {
      OffsetsIncrease(blocks, i, j - 1);
    }
  }

  lemma OffsetEnd(blocks: seq<Block>)
    ensures Offset(blocks, |blocks|) == EndOf(blocks)
  {
    assert blocks[..|blocks|] == blocks;
  }

  lemma OffsetBound(blocks: seq<Block>, i: nat)
    requires i <= |blocks|
    ensures Offset(blocks, i) <= EndOf(blocks)
  {
    OffsetEnd(blocks);
    if i < |blocks| {
      OffsetsIncrease(blocks, i, |blocks|);
    }
  }

  lemma HeaderFits(blocks: seq<Block>, i: nat)
    requires Fit(blocks) && i <= |blocks|
    ensures HeaderAt(blocks, i).Fits()
  {
    assert Limit(4) == 0x1_0000_0000;
    assert Limit(8) == 0x1_0000_0000 * Limit(4);
    OffsetBound(blocks, i);
    if i > 0 {
      OffsetBound(blocks, i - 1);
    }
    if i < |blocks| {
      OffsetBound(blocks, i + 1);
    }
  }

  /** Headers form a doubly linked chain with rising offsets and numbers, and end of data points at itself. */
  lemma ChainShape(blocks: seq<Block>, i: nat)
    requires i <= |blocks|
    ensures HeaderAt(blocks, i).blkNum == i + 1
    ensures i == 0 ==> HeaderAt(blocks, i).prev == 0 && HeaderAt(blocks, i).curr == FIRST_HDR
    ensures i < |blocks| ==>
              && HeaderAt(blocks, i).next == HeaderAt(blocks, i + 1).curr
              && HeaderAt(blocks, i + 1).prev == HeaderAt(blocks, i).curr
              && HeaderAt(blocks, i).curr + HDR_SIZE + HeaderAt(blocks, i).ondiskSz == HeaderAt(blocks, i).next
              && HeaderAt(blocks, i).blkType != BLK_EOD
    ensures i == |blocks| ==>
      HeaderAt(blocks, i).next == HeaderAt(blocks, i).curr && HeaderAt(blocks, i).blkType == BLK_EOD
  {
    if i < |blocks| {
      OffsetStep(blocks, i);
    }
  }

  // ---- the file holds the chain, `enc` being the image of a header on disk ----

  ghost predicate Sized(enc: Header -> seq<byte>)
  {
    forall h :: |enc(h)| == HDR_SIZE
  }

  predicate Holds(file: seq<byte>, off: nat, bs: seq<byte>)
  {
    off + |bs| <= |file| && Range(file, off, off + |bs|) == bs
  }

  ghost predicate HeaderStored(enc: Header -> seq<byte>, file: seq<byte>, blocks: seq<Block>, i: nat)
    requires i <= |blocks|
  {
    Holds(file, Offset(blocks, i), enc(HeaderAt(blocks, i)))
  }

  ghost predicate DataStored(file: seq<byte>, blocks: seq<Block>, i: nat)
    requires i < |blocks|
  {
    Holds(file, Offset(blocks, i) + HDR_SIZE, Contents(blocks[i]))
  }

  ghost predicate Stored(enc: Header -> seq<byte>, file: seq<byte>, capacity: nat, blocks: seq<Block>)
  {
    && Holds(file, 0, enc(BotHeader(capacity)))
    && (forall i :: 0 <= i <= |blocks| ==> HeaderStored(enc, file, blocks, i))
    && (forall i :: 0 <= i < |blocks| ==> DataStored(file, blocks, i))
  }

  // ---- appending ----

  function Appended(blocks: seq<Block>, pos: nat, b: Block): (r: seq<Block>)
    requires pos <= |blocks|
    ensures |r| == pos + 1
  {
    blocks[..pos] + [b]
  }

  /** The three writes of append_blk: the block's header, the new end-of-data header, then the data. */
  function ThreeWrites(file: seq<byte>, off: nat, hdr: seq<byte>, eod: seq<byte>, data: seq<byte>): seq<byte>
  {
    Pwrite(Pwrite(Pwrite(file, off, hdr), off + |hdr| + |data|, eod), off + |hdr|, data)
  }

  lemma WritesElsewhere(file: seq<byte>, off: nat, hdr: seq<byte>, eod: seq<byte>, data: seq<byte>, lo: nat, hi: nat)
    requires lo <= hi <= |file| && hi <= off
    ensures hi <= |ThreeWrites(file, off, hdr, eod, data)|
    ensures Range(ThreeWrites(file, off, hdr, eod, data), lo, hi) == Range(file, lo, hi)
  {
    var f1 := Pwrite(file, off, hdr);
    var f2 := Pwrite(f1, off + |hdr| + |data|, eod);
    PwriteElsewhere(file, off, hdr, lo, hi);
    PwriteElsewhere(f1, off + |hdr| + |data|, eod, lo, hi);
    PwriteElsewhere(f2, off + |hdr|, data, lo, hi);
  }

  lemma WritesHere(file: seq<byte>, off: nat, hdr: seq<byte>, eod: seq<byte>, data: seq<byte>)
    requires hdr != [] && eod != []
    ensures var r := ThreeWrites(file, off, hdr, eod, data);
            var d := off + |hdr|;
            var e := d + |data|;
            Holds(r, off, hdr) && Holds(r, d, data) && Holds(r, e, eod)
  {
    var f1 := Pwrite(file, off, hdr);
    var f2 := Pwrite(f1, off + |hdr| + |data|, eod);
    PwriteElsewhere(f1, off + |hdr| + |data|, eod, off, off + |hdr|);
    PwriteElsewhere(f2, off + |hdr|, data, off, off + |hdr|);
    PwriteElsewhere(f2, off + |hdr|, data, off + |hdr| + |data|, off + |hdr| + |data| + |eod|);
  }

  function AppendBytes(enc: Header -> seq<byte>, file: seq<byte>, blocks: seq<Block>, pos: nat, b: Block): seq<byte>
    requires pos <= |blocks|
  {
    var after := Appended(blocks, pos, b);
    ThreeWrites(file, Offset(after, pos), enc(HeaderAt(after, pos)), enc(HeaderAt(after, pos + 1)), Contents(b))
  }

  /** What lies before the append position keeps its place and its header. */
  lemma SamePrefix(blocks: seq<Block>, pos: nat, b: Block, i: nat)
    requires i <= pos <= |blocks|
    ensures Offset(Appended(blocks, pos, b), i) == Offset(blocks, i)
    ensures i < pos ==> HeaderAt(Appended(blocks, pos, b), i) == HeaderAt(blocks, i)
  {
    var after := Appended(blocks, pos, b);
    assert after[..i] == blocks[..i];
    if i > 0 {
      assert after[..i - 1] == blocks[..i - 1];
    }
    if i < pos {
      assert after[..i + 1] == blocks[..i + 1];
    }
  }

  /** The two headers that append_blk builds from the cached one. */
  function RewrittenHeader(cached: Header, b: Block): Header
  {
    cached.(next := cached.curr + HDR_SIZE + Size(b), ondiskSz := Size(b), blkSz := Size(b),
            blkType := if b.Data? then BLK_UNCOMPRESS_DATA else BLK_FILEMARK)
  }

  function NewEod(rewritten: Header): Header
  {
    Header(0, 0, BLK_EOD, rewritten.blkNum + 1, rewritten.curr, rewritten.next, rewritten.next)
  }

  lemma AppendHeaders(blocks: seq<Block>, pos: nat, b: Block)
    requires pos <= |blocks|
    ensures HeaderAt(Appended(blocks, pos, b), pos) == RewrittenHeader(HeaderAt(blocks, pos), b)
    ensures HeaderAt(Appended(blocks, pos, b), pos + 1) == NewEod(RewrittenHeader(HeaderAt(blocks, pos), b))
  {
    SamePrefix(blocks, pos, b, pos);
    if pos > 0 {
      SamePrefix(blocks, pos, b, pos - 1);
    }
    OffsetStep(Appended(blocks, pos, b), pos);
  }

  lemma EarlierKept(enc: Header -> seq<byte>, file: seq<byte>, blocks: seq<Block>, pos: nat, b: Block,
                    off: nat, bs: seq<byte>)
    requires Sized(enc) && pos <= |blocks|
    requires Holds(file, off, bs) && off + |bs| <= Offset(blocks, pos)
    ensures Holds(AppendBytes(enc, file, blocks, pos, b), off, bs)
  {
    var after := Appended(blocks, pos, b);
    SamePrefix(blocks, pos, b, pos);
    WritesElsewhere(file, Offset(after, pos), enc(HeaderAt(after, pos)), enc(HeaderAt(after, pos + 1)),
                    Contents(b), off, off + |bs|);
  }

  lemma NewStored(enc: Header -> seq<byte>, file: seq<byte>, blocks: seq<Block>, pos: nat, b: Block)
    requires Sized(enc) && pos <= |blocks|
    ensures HeaderStored(enc, AppendBytes(enc, file, blocks, pos, b), Appended(blocks, pos, b), pos)
    ensures HeaderStored(enc, AppendBytes(enc, file, blocks, pos, b), Appended(blocks, pos, b), pos + 1)
    ensures DataStored(AppendBytes(enc, file, blocks, pos, b), Appended(blocks, pos, b), pos)
  {
    var after := Appended(blocks, pos, b);
    OffsetStep(after, pos);
    WritesHere(file, Offset(after, pos), enc(HeaderAt(after, pos)), enc(HeaderAt(after, pos + 1)), Contents(b));
  }

  lemma EarlierHeader(enc: Header -> seq<byte>, file: seq<byte>, blocks: seq<Block>, pos: nat, b: Block, i: nat)
    requires Sized(enc) && i < pos <= |blocks| && HeaderStored(enc, file, blocks, i)
    ensures HeaderStored(enc, AppendBytes(enc, file, blocks, pos, b), Appended(blocks, pos, b), i)
  {
    SamePrefix(blocks, pos, b, i);
    OffsetsIncrease(blocks, i, pos);
    EarlierKept(enc, file, blocks, pos, b, Offset(blocks, i), enc(HeaderAt(blocks, i)));
  }

  lemma EarlierData(enc: Header -> seq<byte>, file: seq<byte>, blocks: seq<Block>, pos: nat, b: Block, i: nat)
    requires Sized(enc) && i < pos <= |blocks| && DataStored(file, blocks, i)
    ensures DataStored(AppendBytes(enc, file, blocks, pos, b), Appended(blocks, pos, b), i)
  {
    SamePrefix(blocks, pos, b, i);
    OffsetsIncrease(blocks, i, pos);
    EarlierKept(enc, file, blocks, pos, b, Offset(blocks, i) + HDR_SIZE, Contents(blocks[i]));
  }

  /** An append leaves a stored chain: the earlier blocks, the new one, and nothing else. */
  lemma AppendStored(enc: Header -> seq<byte>, file: seq<byte>, capacity: nat, blocks: seq<Block>, pos: nat, b: Block)
    requires Sized(enc) && Stored(enc, file, capacity, blocks) && pos <= |blocks|
    ensures Stored(enc, AppendBytes(enc, file, blocks, pos, b), capacity, Appended(blocks, pos, b))
  {
    var after, file' := Appended(blocks, pos, b), AppendBytes(enc, file, blocks, pos, b);
    EarlierKept(enc, file, blocks, pos, b, 0, enc(BotHeader(capacity)));
    NewStored(enc, file, blocks, pos, b);
    forall i | 0 <= i < pos
      ensures HeaderStored(enc, file', after, i) && DataStored(file', after, i)
    {
      EarlierHeader(enc, file, blocks, pos, b, i);
      EarlierData(enc, file, blocks, pos, b, i);
    }
  }

  /** The same, computed from the cached header alone as append_blk does. */
  lemma AppendFromCache(enc: Header -> seq<byte>, file: seq<byte>, capacity: nat, blocks: seq<Block>, pos: nat,
                        b: Block, curr: Header, eod: Header)
    requires Sized(enc) && Stored(enc, file, capacity, blocks) && pos <= |blocks|
    requires curr == RewrittenHeader(HeaderAt(blocks, pos), b) && eod == NewEod(curr)
    ensures Stored(enc, ThreeWrites(file, curr.curr, enc(curr), enc(eod), Contents(b)), capacity,
                   Appended(blocks, pos, b))
    ensures eod == HeaderAt(Appended(blocks, pos, b), pos + 1)
  {
    AppendHeaders(blocks, pos, b);
    AppendStored(enc, file, capacity, blocks, pos, b);
  }
}
