/** sd_io for a read, and exactly when it returns the image. */
module SheepdogRead {
  import opened Bytes
  import opened Sheepdog

  /** A piece of the transfer: k bytes at byte `at` of object idx, for the buffer from `done` on. */
  datatype Piece = Piece(idx: nat, at: nat, k: nat, done: nat)

  predicate Placed(d: Disk, offset: nat, len: nat, p: Piece)
  {
    && p.idx < |d.owners| && p.at < d.size && p.at + p.k <= d.size && offset + p.done == Flat(d.size, p.idx, p.at)
    && p.done + p.k <= len && (len > 0 ==> p.k > 0)
  }

  /** The pieces cover [0, done) of the buffer without gap or overlap, object after object. */
  predicate Covers(d: Disk, offset: nat, len: nat, ps: seq<Piece>, done: nat)
  {
    if ps == [] then done == 0
    else
      var front, p := ps[..|ps| - 1], ps[|ps| - 1];
      && Placed(d, offset, len, p) && p.done + p.k == done && (front != [] ==> p.idx == front[|front| - 1].idx + 1)
      && Covers(d, offset, len, front, p.done)
  }

  lemma CoversMore(d: Disk, offset: nat, len: nat, ps: seq<Piece>, p: Piece)
    requires Covers(d, offset, len, ps, p.done) && Placed(d, offset, len, p)
    requires ps != [] ==> p.idx == ps[|ps| - 1].idx + 1
    ensures Covers(d, offset, len, ps + [p], p.done + p.k)
  {
    assert (ps + [p])[..|ps|] == ps;
  }

  /** Each piece is in place, and ends before the later ones begin. */
  lemma {:induction false} InPlace(d: Disk, offset: nat, len: nat, ps: seq<Piece>, done: nat, i: nat)
    requires Covers(d, offset, len, ps, done) && i < |ps|
    ensures Placed(d, offset, len, ps[i]) && ps[i].done + ps[i].k <= done
    ensures i < |ps| - 1 ==> ps[i].done + ps[i].k <= ps[|ps| - 1].done
  {
    if i < |ps| - 1 {
      InPlace(d, offset, len, ps[..|ps| - 1], ps[|ps| - 1].done, i);
    }
  }

  lemma {:induction false} InOrder(d: Disk, offset: nat, len: nat, ps: seq<Piece>, done: nat, i: nat, j: nat)
    requires Covers(d, offset, len, ps, done) && i < j < |ps|
    ensures ps[i].done + ps[i].k <= ps[j].done
  {
    if j < |ps| - 1 {
      InOrder(d, offset, len, ps[..|ps| - 1], ps[|ps| - 1].done, i, j);
    } else {
      InPlace(d, offset, len, ps, done, i);
    }
  }

  /** The buffer after one piece. For an object that was never written the code clears the first bytes of the
      buffer, not those at `done`. */
  function ReadPiece(d: Disk, p: Piece, buf: seq<byte>): (r: seq<byte>)
    requires Ok(d) && p.idx < |d.owners| && p.at + p.k <= d.size && p.done + p.k <= |buf|
    ensures |r| == |buf|
  {
    if d.owners[p.idx] == 0 then Zeros(p.k) + buf[p.k..]
    else buf[..p.done] + d.store[DataOid(d.owners[p.idx], p.idx)][p.at..p.at + p.k] + buf[p.done + p.k..]
  }

  /** The buffer after the pieces, one after the other. */
  function ReadPieces(d: Disk, offset: nat, ps: seq<Piece>, done: nat, buf: seq<byte>): (r: seq<byte>)
    requires Ok(d) && Covers(d, offset, |buf|, ps, done)
    ensures |r| == |buf|
    decreases |ps|
  {
    if ps == [] then buf
    else
      var p := ps[|ps| - 1];
      ReadPiece(d, p, ReadPieces(d, offset, ps[..|ps| - 1], p.done, buf))
  }

  predicate RightAt(d: Disk, offset: nat, r: seq<byte>, n: nat, j: nat, o: nat)
    requires Ok(d) && n <= |r| && Inside(d, j, o)
  {
    var p := Flat(d.size, j, o);
    offset <= p < offset + n ==> r[p - offset] == Byte(d, j, o)
  }

  /** The first n bytes of r are those of the image from offset on. */
  ghost predicate Right(d: Disk, offset: nat, r: seq<byte>, n: nat)
    requires Ok(d) && n <= |r|
  {
    forall j, o | Inside(d, j, o) :: RightAt(d, offset, r, n, j, o)
  }

  /** Every object after the first has been written. */
  predicate Backed(d: Disk, ps: seq<Piece>)
  {
    forall i | 0 < i < |ps| && ps[i].idx < |d.owners| :: d.owners[ps[i].idx] != 0
  }

  // ---- when the objects after the first are there ----

  lemma PieceRightAt(d: Disk, offset: nat, p: Piece, buf: seq<byte>, j: nat, o: nat)
    requires Ok(d) && Placed(d, offset, |buf|, p) && Inside(d, j, o)
    requires RightAt(d, offset, buf, p.done, j, o) && (p.done == 0 || d.owners[p.idx] != 0)
    ensures RightAt(d, offset, ReadPiece(d, p, buf), p.done + p.k, j, o)
  {
    if j < p.idx {
      FlatApart(d.size, j, p.idx);
    } else if p.idx < j {
      FlatApart(d.size, p.idx, j);
    }
  }

  lemma PieceRight(d: Disk, offset: nat, p: Piece, buf: seq<byte>)
    requires Ok(d) && Placed(d, offset, |buf|, p) && Right(d, offset, buf, p.done)
    requires p.done == 0 || d.owners[p.idx] != 0
    ensures Right(d, offset, ReadPiece(d, p, buf), p.done + p.k)
  {
    var r := ReadPiece(d, p, buf);
    forall j, o | Inside(d, j, o)
      ensures RightAt(d, offset, r, p.done + p.k, j, o)
    {
      PieceRightAt(d, offset, p, buf, j, o);
    }
  }

  lemma {:induction false} BackedReadsRight(d: Disk, offset: nat, ps: seq<Piece>, done: nat, buf: seq<byte>)
    requires Ok(d) && Covers(d, offset, |buf|, ps, done) && Backed(d, ps)
    ensures done <= |buf| && Right(d, offset, ReadPieces(d, offset, ps, done, buf), done)
  {
    if ps != [] {
      var front, p := ps[..|ps| - 1], ps[|ps| - 1];
      BackedReadsRight(d, offset, front, p.done, buf);
      PieceRight(d, offset, p, ReadPieces(d, offset, front, p.done, buf));
    }
  }

  // ---- when one of them is not ----

  predicate LastGap(d: Disk, ps: seq<Piece>, m: nat)
  {
    && 0 < m < |ps| && ps[m].idx < |d.owners| && d.owners[ps[m].idx] == 0
    && forall i | m < i < |ps| && ps[i].idx < |d.owners| :: d.owners[ps[i].idx] != 0
  }

  lemma FindGap(d: Disk, ps: seq<Piece>) returns (m: nat)
    requires !Backed(d, ps)
    ensures LastGap(d, ps, m)
  {
    m := |ps| - 1;
    while !(ps[m].idx < |d.owners| && d.owners[ps[m].idx] == 0)
      invariant 0 < m < |ps|
      invariant forall i | m < i < |ps| && ps[i].idx < |d.owners| :: d.owners[ps[i].idx] != 0
      decreases m
    {
      m := m - 1;
    }
  }

  lemma PieceSpares(d: Disk, p: Piece, q: nat, buf: seq<byte>)
    requires Ok(d) && p.idx < |d.owners| && p.at + p.k <= d.size && p.done + p.k <= |buf| && q < |buf|
    requires if d.owners[p.idx] == 0 then p.k <= q else q < p.done || p.done + p.k <= q
    ensures ReadPiece(d, p, buf)[q] == buf[q]
  {
  }

  /** Before the last unwritten object, nothing from its piece on is touched. */
  lemma {:induction false} NotYet(d: Disk, offset: nat, ps: seq<Piece>, done: nat, q: nat, buf: seq<byte>)
    requires Ok(d) && Covers(d, offset, |buf|, ps, done) && done <= q < |buf|
    ensures ReadPieces(d, offset, ps, done, buf)[q] == buf[q]
  {
    if ps != [] {
      var p := ps[|ps| - 1];
      NotYet(d, offset, ps[..|ps| - 1], p.done, q, buf);
      PieceSpares(d, p, q, ReadPieces(d, offset, ps[..|ps| - 1], p.done, buf));
    }
  }

  /** No piece reaches the last byte of the piece of the last unwritten object. */
  lemma {:induction false} GapStays(d: Disk, offset: nat, ps: seq<Piece>, done: nat, m: nat, buf: seq<byte>)
    requires Ok(d) && |buf| > 0 && Covers(d, offset, |buf|, ps, done) && LastGap(d, ps, m)
    ensures var q := ps[m].done + ps[m].k - 1;
      0 <= q < |buf| && ReadPieces(d, offset, ps, done, buf)[q] == buf[q]
  {
    var front, p := ps[..|ps| - 1], ps[|ps| - 1];
    var q := ps[m].done + ps[m].k - 1;
    InPlace(d, offset, |buf|, ps, done, m);
    if m < |ps| - 1 {
      GapStays(d, offset, front, p.done, m, buf);
      InOrder(d, offset, |buf|, ps, done, m, |ps| - 1);
    } else {
      InPlace(d, offset, |buf|, front, p.done, 0);
      NotYet(d, offset, front, p.done, q, buf);
    }
    PieceSpares(d, p, q, ReadPieces(d, offset, front, p.done, buf));
  }

  // ---- exactly when a read is right ----

  ghost predicate ReadsRight(d: Disk, offset: nat, ps: seq<Piece>, buf: seq<byte>)
    requires Ok(d) && Covers(d, offset, |buf|, ps, |buf|)
  {
    Right(d, offset, ReadPieces(d, offset, ps, |buf|, buf), |buf|)
  }

  /** The read returns the image, whatever the buffer held before. */
  ghost predicate AlwaysRight(d: Disk, offset: nat, len: nat, ps: seq<Piece>)
    requires Ok(d) && Covers(d, offset, len, ps, len)
  {
    forall buf: seq<byte> {:trigger ReadsRight(d, offset, ps, buf)} | |buf| == len :: ReadsRight(d, offset, ps, buf)
  }

  lemma WrongAt(d: Disk, offset: nat, r: seq<byte>, p: Piece)
    requires Ok(d) && |r| > 0 && Placed(d, offset, |r|, p) && d.owners[p.idx] == 0 && r[p.done + p.k - 1] == 1
    ensures !Right(d, offset, r, |r|)
  {
    assert Flat(d.size, p.idx, p.at + p.k - 1) == offset + (p.done + p.k - 1);
    assert !RightAt(d, offset, r, |r|, p.idx, p.at + p.k - 1);
  }

  predicate AllOnes(buf: seq<byte>)
  {
    forall x | 0 <= x < |buf| :: buf[x] == 1
  }

  lemma GapByte(d: Disk, offset: nat, ps: seq<Piece>, m: nat, buf: seq<byte>)
    requires Ok(d) && |buf| > 0 && Covers(d, offset, |buf|, ps, |buf|) && LastGap(d, ps, m) && AllOnes(buf)
    ensures Placed(d, offset, |buf|, ps[m])
    ensures ReadPieces(d, offset, ps, |buf|, buf)[ps[m].done + ps[m].k - 1] == 1
  {
    InPlace(d, offset, |buf|, ps, |buf|, m);
    GapStays(d, offset, ps, |buf|, m, buf);
  }

  lemma GapIsWrong(d: Disk, offset: nat, ps: seq<Piece>, m: nat, buf: seq<byte>)
    requires Ok(d) && |buf| > 0 && Covers(d, offset, |buf|, ps, |buf|) && LastGap(d, ps, m) && AllOnes(buf)
    ensures !ReadsRight(d, offset, ps, buf)
  {
    GapByte(d, offset, ps, m, buf);
    WrongAt(d, offset, ReadPieces(d, offset, ps, |buf|, buf), ps[m]);
  }

  lemma BackedAlwaysRight(d: Disk, offset: nat, len: nat, ps: seq<Piece>)
    requires Ok(d) && Covers(d, offset, len, ps, len) && Backed(d, ps)
    ensures AlwaysRight(d, offset, len, ps)
  {
    forall buf: seq<byte> | |buf| == len
      ensures ReadsRight(d, offset, ps, buf)
    {
      BackedReadsRight(d, offset, ps, len, buf);
    }
  }

  lemma GapNotAlwaysRight(d: Disk, offset: nat, len: nat, ps: seq<Piece>, m: nat)
    requires Ok(d) && len > 0 && Covers(d, offset, len, ps, len) && LastGap(d, ps, m)
    ensures !AlwaysRight(d, offset, len, ps)
  {
    var ones: seq<byte> := seq(len, _ => 1);
    GapIsWrong(d, offset, ps, m, ones);
  }

  /** A read returns the image, whatever the buffer held before, if and only if every object of the range after the
      first has been written. */
  lemma ReadRightIff(d: Disk, offset: nat, len: nat, ps: seq<Piece>)
    requires Ok(d) && len > 0 && Covers(d, offset, len, ps, len)
    ensures AlwaysRight(d, offset, len, ps) <==> Backed(d, ps)
  {
    if Backed(d, ps) {
      BackedAlwaysRight(d, offset, len, ps);
    } else {
      var m := FindGap(d, ps);
      GapNotAlwaysRight(d, offset, len, ps, m);
    }
  }

  /** A disk of two objects of which only the first was written: the data read is lost, and the rest of the buffer
      is not cleared. */
  lemma GapExample(d: Disk)
    requires d == Disk(2, 7, [7, 0], map[DataOid(7, 0) := [5, 5]], [7, 0])
    ensures Ok(d) && Byte(d, 0, 0) == Byte(d, 0, 1) == 5 && Byte(d, 1, 0) == Byte(d, 1, 1) == 0
    ensures ReadPiece(d, Piece(1, 0, 2, 2), ReadPiece(d, Piece(0, 0, 2, 0), [1, 1, 1, 1])) == [0, 0, 1, 1]
  {
    assert ReadPiece(d, Piece(0, 0, 2, 0), [1, 1, 1, 1]) == [5, 5, 1, 1];
  }
}
