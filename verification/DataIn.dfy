/** Data-In transmission of one SCSI command over TCP (section 10.7 of RFC 3720). */
module DataIn {
  import opened Bytes
  import opened Serial

  datatype Direction = None | Read | Write | Bidirectional

  /** `status` is the StatSN of a status collapsed into the PDU. */
  datatype Status = NoStatus | Status(statSn: u32)

  datatype Pdu =
    | Data(offset: nat, data: seq<byte>, dataSn: u32, final: bool, status: Status)
    | Response(result: nat, statSn: u32)

  const GOOD := 0

  /** The PDUs tile buf[lo..hi]: contiguous, non-empty, at most max long, numbered from sn. */
  predicate Tiles(ps: seq<Pdu>, buf: seq<byte>, lo: nat, hi: nat, max: nat, sn: u32)
    requires lo <= hi <= |buf|
  {
    if ps == [] then lo == hi
    else
      && ps[0].Data? && ps[0].offset == lo && ps[0].dataSn == sn
      && 0 < |ps[0].data| <= max && lo + |ps[0].data| <= hi
      && ps[0].data == buf[lo..lo + |ps[0].data|]
      && Tiles(ps[1..], buf, lo + |ps[0].data|, hi, max, Next(sn))
  }

  /** Final on the last of the PDUs, if they are complete, and on no other; the others are full. */
  predicate Marked(ps: seq<Pdu>, max: nat, complete: bool)
  {
    forall k | 0 <= k < |ps| ::
      ps[k].Data? && (ps[k].final <==> complete && k == |ps| - 1) && (ps[k].final || |ps[k].data| == max)
  }

  /** The only status is the one on the last PDU. */
  predicate StatusOnLast(ps: seq<Pdu>, last: Status)
  {
    forall k | 0 <= k < |ps| :: ps[k].Data? && ps[k].status == if k == |ps| - 1 then last else NoStatus
  }

  predicate Sends(buf: seq<byte>, dir: Direction)
  {
    (dir == Read || dir == Bidirectional) && buf != []
  }

  predicate Collapses(buf: seq<byte>, result: nat, dir: Direction)
  {
    Sends(buf, dir) && result == GOOD && dir != Bidirectional
  }

  /** The data PDUs of a whole transfer. */
  predicate Whole(ds: seq<Pdu>, buf: seq<byte>, dir: Direction, max: nat, sn: u32)
  {
    && (Sends(buf, dir) ==> ds != [] && Tiles(ds, buf, 0, |buf|, max, sn) && Marked(ds, max, true))
    && (!Sends(buf, dir) ==> ds == [])
  }

  /** What the initiator must see: the data once and in order, Final on the last data PDU, and one status, inside
      the last data PDU or after it. */
  predicate Stream(ps: seq<Pdu>, buf: seq<byte>, result: nat, dir: Direction, max: nat, sn: u32, stat: u32)
  {
    if Collapses(buf, result, dir) then Whole(ps, buf, dir, max, sn) && StatusOnLast(ps, Status(stat))
    else
      && ps != [] && ps[|ps| - 1] == Response(result, stat)
      && Whole(ps[..|ps| - 1], buf, dir, max, sn) && StatusOnLast(ps[..|ps| - 1], NoStatus)
  }

  /** The same, with data sent only up to off and the status still due. */
  predicate Partial(ps: seq<Pdu>, buf: seq<byte>, dir: Direction, max: nat, sn: u32, off: nat)
  {
    && off <= |buf| && StatusOnLast(ps, NoStatus)
    && (dir == Read || dir == Bidirectional ==> Tiles(ps, buf, 0, off, max, sn) && Marked(ps, max, off == |buf|))
    && (dir != Read && dir != Bidirectional ==> ps == [])
  }

  /** The transmit side of a task whose data-out phase is over, on its connection. */
  class Transmitter {
    const buf: seq<byte>      // the in buffer, in_transfer_len long
    const result: nat
    const dir: Direction
    const maxDataLen: nat
    var offset: nat
    var expR2tSn: u32
    var statSn: u32

    ghost predicate Valid()
      reads this
    {
      maxDataLen > 0 && offset <= |buf|
    }

    constructor (buf: seq<byte>, result: nat, dir: Direction, maxDataLen: nat, sn: u32, stat: u32)
      requires maxDataLen > 0
      ensures Valid() && offset == 0 && expR2tSn == sn && statSn == stat
      ensures this.buf == buf && this.result == result && this.dir == dir && this.maxDataLen == maxDataLen
    {
      this.buf, this.result, this.dir, this.maxDataLen := buf, result, dir, maxDataLen;
      offset, expR2tSn, statSn := 0, sn, stat;
    }

    /** iscsi_data_rsp_build */
    method DataRspBuild() returns (p: Pdu)
      requires Valid() && offset < |buf|
      modifies `offset, `expR2tSn, `statSn
      ensures Valid()
      ensures old(offset) < offset
      ensures p.Data? && p.offset == old(offset) && p.dataSn == old(expR2tSn) && p.data == buf[old(offset)..offset]
      ensures 0 < |p.data| <= maxDataLen && expR2tSn == Next(old(expR2tSn))
      ensures (p.final <==> offset == |buf|) && (p.final || |p.data| == maxDataLen)
      ensures var collapse := p.final && result == GOOD && dir != Bidirectional;
        && p.status == (if collapse then Status(old(statSn)) else NoStatus)
        && statSn == if collapse then Next(old(statSn)) else old(statSn)
    {
      var from, sn, stat := offset, expR2tSn, statSn;
      expR2tSn := Next(expR2tSn);
      var dataLen, final, status := |buf| - from, false, NoStatus;
      if dataLen <= maxDataLen {
        final := true;
        if result == GOOD && dir != Bidirectional {
          status := Status(stat);
          statSn := Next(stat);
        }
      } else {
        dataLen := maxDataLen;
      }
      offset := from + dataLen;
      p := Data(from, buf[from..from + dataLen], sn, final, status);
    }

    /** iscsi_cmd_rsp_build */
    method CmdRspBuild() returns (p: Pdu)
      modifies `statSn
      ensures p == Response(result, old(statSn)) && statSn == Next(old(statSn))
    {
      p := Response(result, statSn);
      statSn := Next(statSn);
    }

    predicate HasData()
      reads this
    {
      (dir == Read || dir == Bidirectional) && offset < |buf|
    }

    /** iscsi_scsi_cmd_tx_start with no data-out left */
    method TxStart() returns (p: Pdu)
      requires Valid()
      modifies `offset, `expR2tSn, `statSn
      ensures Valid()
      ensures !old(HasData()) ==>
        && p == Response(result, old(statSn)) && statSn == Next(old(statSn))
        && offset == old(offset)
      ensures old(HasData()) ==>
        && old(offset) < offset
        && p.Data? && p.offset == old(offset) && p.dataSn == old(expR2tSn)
        && p.data == buf[old(offset)..offset] && 0 < |p.data| <= maxDataLen
        && expR2tSn == Next(old(expR2tSn))
        && (p.final <==> offset == |buf|) && (p.final || |p.data| == maxDataLen)
      ensures old(HasData()) ==>
        var collapse := p.final && result == GOOD && dir != Bidirectional;
        && p.status == (if collapse then Status(old(statSn)) else NoStatus)
        && statSn == if collapse then Next(old(statSn)) else old(statSn)
    {
      if (dir == Read || dir == Bidirectional) && offset < |buf| {
        p := DataRspBuild();
      } else {
        p := CmdRspBuild();
      }
    }

    /** iscsi_scsi_cmd_tx_done: whether the task is freed rather than put back at the head of the transmit list */
    predicate Freed(p: Pdu)
      reads this
    {
      p.Data? ==> !(offset < |buf| || result != GOOD || dir == Bidirectional)
    }

    /** The task's turns at the head of the transmit list, until it is freed. */
    method Transmit() returns (ps: seq<Pdu>)
      requires Valid() && offset == 0
      modifies `offset, `expR2tSn, `statSn
      ensures Stream(ps, buf, result, dir, maxDataLen, old(expR2tSn), old(statSn))
      ensures statSn == Next(old(statSn))
    {
      ghost var sn, stat := expR2tSn, statSn;
      ps := [];
      var freed := false;
      while !freed
        invariant Valid()
        invariant !freed ==> statSn == stat && expR2tSn == Plus(sn, |ps|)
        invariant !freed ==> Partial(ps, buf, dir, maxDataLen, sn, offset)
        invariant !freed && Collapses(buf, result, dir) ==> offset < |buf|
        invariant freed ==> statSn == Next(stat) && Stream(ps, buf, result, dir, maxDataLen, sn, stat)
        decreases !freed, |buf| - offset
      {
        ghost var from, sending := offset, HasData();
        var p := TxStart();
        if sending {
          SendData(ps, p, buf, result, dir, maxDataLen, sn, from, offset, stat);
        } else {
          SendStatus(ps, buf, result, dir, maxDataLen, sn, from, stat);
        }
        ps := ps + [p];
        freed := Freed(p);
      }
    }
  }

  lemma SendData(ps: seq<Pdu>, p: Pdu, buf: seq<byte>, result: nat, dir: Direction, max: nat, sn: u32,
                 from: nat, to: nat, stat: u32)
    requires Partial(ps, buf, dir, max, sn, from) && (dir == Read || dir == Bidirectional) && from < to <= |buf|
    requires p.Data? && p.offset == from && p.dataSn == Plus(sn, |ps|) && p.data == buf[from..to] && to <= from + max
    requires (p.final <==> to == |buf|) && (p.final || |p.data| == max)
    requires p.status == if p.final && result == GOOD && dir != Bidirectional then Status(stat) else NoStatus
    ensures if to == |buf| && Collapses(buf, result, dir) then Stream(ps + [p], buf, result, dir, max, sn, stat)
      else Partial(ps + [p], buf, dir, max, sn, to)
  {
    TilesAppend(ps, p, buf, 0, from, to, max, sn);
  }

  lemma SendStatus(ps: seq<Pdu>, buf: seq<byte>, result: nat, dir: Direction, max: nat, sn: u32, off: nat, stat: u32)
    requires Partial(ps, buf, dir, max, sn, off) && !((dir == Read || dir == Bidirectional) && off < |buf|)
    requires !Collapses(buf, result, dir)
    ensures Stream(ps + [Response(result, stat)], buf, result, dir, max, sn, stat)
  {
    var all := ps + [Response(result, stat)];
    assert all[..|all| - 1] == ps;
  }

  lemma {:induction false} TilesAppend(ps: seq<Pdu>, p: Pdu, buf: seq<byte>, lo: nat, mid: nat, hi: nat, max: nat,
                                       sn: u32)
    requires lo <= mid <= hi <= |buf| && Tiles(ps, buf, lo, mid, max, sn)
    requires p.Data? && p.offset == mid && p.dataSn == Plus(sn, |ps|) && p.data == buf[mid..hi] && mid < hi <= mid + max
    ensures Tiles(ps + [p], buf, lo, hi, max, sn)
  {
    if ps == [] {
      assert (ps + [p])[1..] == [];
    } else {
      PlusNext(sn, |ps| - 1);
      TilesAppend(ps[1..], p, buf, lo + |ps[0].data|, mid, hi, max, Next(sn));
      assert (ps + [p])[1..] == ps[1..] + [p];
    }
  }

  // ---- what the initiator reassembles ----

  function Payload(ps: seq<Pdu>): seq<byte>
  {
    if ps == [] then [] else (if ps[0].Data? then ps[0].data else []) + Payload(ps[1..])
  }

  lemma Join(buf: seq<byte>, lo: nat, mid: nat, hi: nat)
    requires lo <= mid <= hi <= |buf|
    ensures buf[lo..mid] + buf[mid..hi] == buf[lo..hi]
  {
  }

  lemma {:induction false} TilesPayload(ps: seq<Pdu>, buf: seq<byte>, lo: nat, hi: nat, max: nat, sn: u32)
    requires lo <= hi <= |buf| && Tiles(ps, buf, lo, hi, max, sn)
    ensures Payload(ps) == buf[lo..hi]
  {
    if ps != [] {
      var mid := lo + |ps[0].data|;
      TilesPayload(ps[1..], buf, mid, hi, max, Next(sn));
      Join(buf, lo, mid, hi);
    }
  }

  /** The status PDUs and collapsed statuses, in order. */
  function Statuses(ps: seq<Pdu>): seq<u32>
  {
    if ps == [] then []
    else
      (match ps[0]
       case Data(_, _, _, _, st) => if st.Status? then [st.statSn] else []
       case Response(_, sn) => [sn]) + Statuses(ps[1..])
  }

  lemma {:induction false} StatusesOf(ps: seq<Pdu>, last: Status)
    requires StatusOnLast(ps, last)
    ensures Statuses(ps) == if ps != [] && last.Status? then [last.statSn] else []
  {
    if ps != [] {
      assert forall k | 0 <= k < |ps| - 1 :: ps[1..][k] == ps[k + 1];
      StatusesOf(ps[1..], last);
    }
  }

  lemma {:induction false} Split(ps: seq<Pdu>, r: Pdu)
    requires r.Response?
    ensures Payload(ps + [r]) == Payload(ps) && Statuses(ps + [r]) == Statuses(ps) + [r.statSn]
  {
    if ps == [] {
      assert ps + [r] == [r] && [r][1..] == [];
    } else {
      Split(ps[1..], r);
      assert (ps + [r])[1..] == ps[1..] + [r];
    }
  }

  /** The concatenated data is the buffer, if the command returns data, and the status is sent exactly once. */
  lemma StreamDelivers(ps: seq<Pdu>, buf: seq<byte>, result: nat, dir: Direction, max: nat, sn: u32, stat: u32)
    requires Stream(ps, buf, result, dir, max, sn, stat)
    ensures Payload(ps) == if Sends(buf, dir) then buf else []
    ensures Statuses(ps) == [stat]
  {
    if Collapses(buf, result, dir) {
      TilesPayload(ps, buf, 0, |buf|, max, sn);
      StatusesOf(ps, Status(stat));
    } else {
      var ds := ps[..|ps| - 1];
      assert ps == ds + [Response(result, stat)];
      Split(ds, Response(result, stat));
      StatusesOf(ds, NoStatus);
      if Sends(buf, dir) {
        TilesPayload(ds, buf, 0, |buf|, max, sn);
      }
    }
  }
}
