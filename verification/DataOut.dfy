/** The data-out phase of one SCSI write: immediate, unsolicited and solicited data (section 10.8 of RFC 3720). */
module DataOut {
  import opened Bytes
  import opened Serial

  /** `onTx`: on the transmit list; `queued`: how often the command was given to target_cmd_queue. */
  datatype State = State(offset: int, r2tCount: int, unsol: bool, pending: bool, onTx: bool, expR2tSn: u32,
                         data: seq<byte>, queued: nat)

  datatype R2t = R2t(sn: u32, offset: int, length: int)

  // ---- what the target's functions compute ----

  /** iscsi_scsi_cmd_rx_start, with the immediate data in the buffer */
  function CmdRxStart(buf: seq<byte>, imm: seq<byte>, len: nat, final: bool, pending: bool): State
  {
    State(|imm|, len - |imm|, !final, pending, false, 0, Pwrite(buf, 0, imm), 0)
  }

  /** iscsi_scsi_cmd_execute */
  function Execute(s: State): State
  {
    if s.r2tCount != 0 then (if !s.unsol then s.(onTx := true) else s)
    else s.(offset := 0, queued := s.queued + 1)
  }

  /** iscsi_data_out_rx_start, with the PDU's data received into the buffer */
  function DataOutRxStart(s: State, at: nat, chunk: seq<byte>): State
  {
    s.(data := Pwrite(s.data, at, chunk), offset := s.offset + |chunk|, r2tCount := s.r2tCount - |chunk|)
  }

  /** iscsi_data_out_rx_done; unsolicited PDUs carry the reserved target transfer tag */
  function DataOutRxDone(s: State, solicited: bool, final: bool): State
  {
    if !final then s
    else if solicited then Execute(s)
    else if s.pending then s.(unsol := false)
    else Execute(s.(unsol := false))
  }

  function BurstLength(s: State, maxBurst: nat): int
  {
    if s.r2tCount < maxBurst then s.r2tCount else maxBurst
  }

  /** iscsi_r2t_build, for the task taken off the transmit list */
  function R2tBuild(s: State, maxBurst: nat): (R2t, State)
  {
    (R2t(s.expR2tSn, s.offset, BurstLength(s, maxBurst)), s.(expR2tSn := Next(s.expR2tSn), onTx := false))
  }

  /** The task comes off the pending list in its turn. */
  function Unpend(s: State): State
  {
    Execute(s.(pending := false))
  }

  // ---- the task ----

  class WriteTask {
    var offset: int
    var r2tCount: int
    var unsolCount: bool
    var isPending: bool
    var onTx: bool
    var expR2tSn: u32
    var data: seq<byte>
    ghost var queued: nat

    ghost function View(): State
      reads this
    {
      State(offset, r2tCount, unsolCount, isPending, onTx, expR2tSn, data, queued)
    }

    constructor (buf: seq<byte>, imm: seq<byte>, len: nat, final: bool, pending: bool)
      ensures View() == CmdRxStart(buf, imm, len, final, pending)
    {
      data := Pwrite(buf, 0, imm);
      offset := |imm|;
      r2tCount := len - |imm|;
      unsolCount := !final;
      isPending, onTx, expR2tSn, queued := pending, false, 0, 0;
    }

    method CmdExecute()
      modifies this
      ensures View() == Execute(old(View()))
    {
      if r2tCount != 0 {
        if !unsolCount {
          onTx := true;
        }
      } else {
        offset := 0;
        queued := queued + 1;
      }
    }

    method ReceiveData(at: nat, chunk: seq<byte>)
      modifies this
      ensures View() == DataOutRxStart(old(View()), at, chunk)
    {
      data := Pwrite(data, at, chunk);
      offset := offset + |chunk|;
      r2tCount := r2tCount - |chunk|;
    }

    method DataOutDone(solicited: bool, final: bool)
      modifies this
      ensures View() == DataOutRxDone(old(View()), solicited, final)
    {
      if !solicited {
        if final {
          unsolCount := false;
          if !isPending {
            CmdExecute();
          }
        }
      } else {
        if !final {
          return;
        }
        CmdExecute();
      }
    }

    method BuildR2t(maxBurst: nat) returns (r: R2t)
      modifies this
      ensures (r, View()) == R2tBuild(old(View()), maxBurst)
    {
      var length := if r2tCount < maxBurst then r2tCount else maxBurst;
      r := R2t(expR2tSn, offset, length);
      expR2tSn := Next(expR2tSn);
      onTx := false;
    }

    method TakeOffPending()
      modifies this
      ensures View() == Unpend(old(View()))
    {
      isPending := false;
      CmdExecute();
    }
  }

  // ---- the task and a conforming initiator ----

  /** The initiator has [sent, end) left to send, of its unsolicited data or of the burst the last R2T asked for. */
  datatype World = World(task: State, sent: int, end: int, solicited: bool, r2ts: seq<R2t>)

  /** What is to be written, the end of the unsolicited data, the burst limit. */
  datatype Transfer = Transfer(want: seq<byte>, first: nat, maxBurst: nat)
  {
    predicate Ok() { first <= |want| && maxBurst > 0 }
  }

  datatype Step = SendData(n: nat) | Turn | SendR2t

  /** The command PDU with `imm` bytes of immediate data, Final when no unsolicited PDU follows, in turn or not. */
  function Start(x: Transfer, buf: seq<byte>, imm: nat, inTurn: bool): World
    requires x.Ok() && imm <= x.first && |x.want| <= |buf|
  {
    var s := CmdRxStart(buf, x.want[..imm], |x.want|, imm == x.first, !inTurn);
    World(if inTurn then Execute(s) else s, imm, x.first, false, [])
  }

  /** Data-Outs are non-empty and stay inside the burst. */
  predicate Enabled(w: World, step: Step)
  {
    match step
    case SendData(n) => 0 < n && w.sent + n <= w.end
    case Turn => w.task.pending
    case SendR2t => w.task.onTx
  }

  function Take(x: Transfer, w: World, step: Step): World
    requires Enabled(w, step) && x.Ok() && 0 <= w.sent <= w.end <= |x.want|
  {
    match step
    case SendData(n) =>
      var s := DataOutRxStart(w.task, w.sent, x.want[w.sent..w.sent + n]);
      w.(task := DataOutRxDone(s, w.solicited, w.sent + n == w.end), sent := w.sent + n)
    case Turn => w.(task := Unpend(w.task))
    case SendR2t =>
      var (r, s) := R2tBuild(w.task, x.maxBurst);
      World(s, r.offset, r.offset + r.length, true, w.r2ts + [r])
  }

  // ---- the invariant ----

  /** The R2Ts tile [lo, hi) of `total` bytes, numbered from sn: every one a full burst, or all that is left. */
  predicate Tiles(rs: seq<R2t>, lo: int, hi: int, total: int, maxBurst: nat, sn: u32)
  {
    if rs == [] then lo == hi
    else
      && rs[0].sn == sn && rs[0].offset == lo < total
      && rs[0].length == (if total - lo < maxBurst then total - lo else maxBurst)
      && Tiles(rs[1..], lo + rs[0].length, hi, total, maxBurst, Next(sn))
  }

  /** While data is missing: the counters, the buffer, and whose move it is. */
  predicate Receiving(x: Transfer, w: World)
  {
    var t := w.task;
    && t.queued == 0
    && t.offset == w.sent && t.offset + t.r2tCount == |x.want|
    && 0 <= w.sent <= |x.want| && w.sent <= |t.data| && t.data[..w.sent] == x.want[..w.sent]
    && (t.unsol <==> !w.solicited && w.sent < w.end)
    && (t.onTx ==> !t.pending && w.sent == w.end < |x.want|)
    && (t.pending ==> !w.solicited)
    && (t.pending || t.onTx || w.sent < w.end)
  }

  predicate Received(x: Transfer, w: World)
  {
    var t := w.task;
    && t.queued == 1 && t.r2tCount == 0 && t.offset == 0
    && w.sent == w.end == |x.want| <= |t.data| && t.data[..|x.want|] == x.want
    && !t.pending && !t.onTx
  }

  predicate Inv(x: Transfer, w: World)
  {
    && x.Ok() && 0 <= w.sent <= w.end <= |x.want|
    && (!w.solicited ==> w.end == x.first)
    && Tiles(w.r2ts, x.first, w.end, |x.want|, x.maxBurst, 0) && w.task.expR2tSn == Plus(0, |w.r2ts|)
    && (Receiving(x, w) || Received(x, w))
  }

  lemma StartInv(x: Transfer, buf: seq<byte>, imm: nat, inTurn: bool)
    requires x.Ok() && imm <= x.first && |x.want| <= |buf|
    ensures Inv(x, Start(x, buf, imm, inTurn))
  {
    Written(buf, x.want, 0, imm);
  }

  lemma Written(buf: seq<byte>, want: seq<byte>, at: nat, n: nat)
    requires at <= |buf| && at + n <= |want| && buf[..at] == want[..at]
    ensures |Pwrite(buf, at, want[at..at + n])| >= at + n
    ensures Pwrite(buf, at, want[at..at + n])[..at + n] == want[..at + n]
  {
  }

  lemma {:induction false} TilesAppend(rs: seq<R2t>, r: R2t, lo: int, mid: int, total: int, maxBurst: nat, sn: u32)
    requires Tiles(rs, lo, mid, total, maxBurst, sn)
    requires r.sn == Plus(sn, |rs|) && r.offset == mid < total
    requires r.length == if total - mid < maxBurst then total - mid else maxBurst
    ensures Tiles(rs + [r], lo, mid + r.length, total, maxBurst, sn)
  {
    if rs == [] {
      assert (rs + [r])[1..] == [];
    } else {
      PlusNext(sn, |rs| - 1);
      TilesAppend(rs[1..], r, lo + rs[0].length, mid, total, maxBurst, Next(sn));
      assert (rs + [r])[1..] == rs[1..] + [r];
    }
  }

  /** Every step keeps the invariant. */
  lemma TakeKeepsInv(x: Transfer, w: World, step: Step)
    requires Inv(x, w) && Enabled(w, step)
    ensures Inv(x, Take(x, w, step))
  {
    match step
    case SendData(n) => Written(w.task.data, x.want, w.sent, n);
    case Turn =>
    case SendR2t =>
      var (r, s) := R2tBuild(w.task, x.maxBurst);
      TilesAppend(w.r2ts, r, x.first, w.end, |x.want|, x.maxBurst, 0);
  }

  // ---- runs ----

  function Measure(x: Transfer, w: World): int
  {
    2 * (|x.want| - w.sent) + (if w.task.pending then 2 else 0) + (if w.task.onTx then 1 else 0)
  }

  predicate Run(x: Transfer, w: World, steps: seq<Step>)
    requires x.Ok()
    decreases |steps|
  {
    steps != [] ==>
      && 0 <= w.sent <= w.end <= |x.want| && Enabled(w, steps[0])
      && Run(x, Take(x, w, steps[0]), steps[1..])
  }

  function After(x: Transfer, w: World, steps: seq<Step>): World
    requires x.Ok() && Run(x, w, steps)
    decreases |steps|
  {
    if steps == [] then w else After(x, Take(x, w, steps[0]), steps[1..])
  }

  /** Every reachable state satisfies the invariant, and no run is longer than the measure of its start. */
  lemma {:induction false} RunKeepsInv(x: Transfer, w: World, steps: seq<Step>)
    requires Inv(x, w) && Run(x, w, steps)
    ensures Inv(x, After(x, w, steps))
    ensures Measure(x, After(x, w, steps)) + |steps| <= Measure(x, w)
    decreases |steps|
  {
    if steps != [] {
      TakeKeepsInv(x, w, steps[0]);
      RunKeepsInv(x, Take(x, w, steps[0]), steps[1..]);
    }
  }

  /** The run can go on exactly while the command has not been queued, so it is queued exactly once. */
  lemma StopsWhenQueued(x: Transfer, w: World)
    requires Inv(x, w)
    ensures w.task.queued <= 1
    ensures w.task.queued == 1 <==> forall step :: !Enabled(w, step)
  {
    if w.task.queued == 0 {
      assert Enabled(w, Turn) || Enabled(w, SendR2t) || Enabled(w, SendData(w.end - w.sent));
    }
  }

  /** A run that cannot go on has delivered the initiator's bytes, has asked by R2T for exactly the bytes not sent
      unsolicited, and has queued the command once, with nothing outstanding. */
  lemma WriteCompletes(x: Transfer, buf: seq<byte>, imm: nat, inTurn: bool, steps: seq<Step>)
    requires x.Ok() && imm <= x.first && |x.want| <= |buf| && Run(x, Start(x, buf, imm, inTurn), steps)
    requires forall step :: !Enabled(After(x, Start(x, buf, imm, inTurn), steps), step)
    ensures var w := After(x, Start(x, buf, imm, inTurn), steps);
      && w.task.queued == 1 && w.task.r2tCount == 0 && w.task.offset == 0
      && |x.want| <= |w.task.data| && w.task.data[..|x.want|] == x.want
      && Tiles(w.r2ts, x.first, |x.want|, |x.want|, x.maxBurst, 0)
  {
    StartInv(x, buf, imm, inTurn);
    RunKeepsInv(x, Start(x, buf, imm, inTurn), steps);
    StopsWhenQueued(x, After(x, Start(x, buf, imm, inTurn), steps));
  }

  // ---- the task object through a whole exchange ----

  /** The initiator's and the target's next step: the one that the schedule names, if it can be taken, and else some
      other that can. */
  function Pick(wish: Step, pending: bool, onTx: bool, left: int): (step: Step)
    requires pending || onTx || left > 0
    ensures match step case SendData(n) => 0 < n <= left case Turn => pending case SendR2t => onTx
  {
    if wish.Turn? && pending then wish
    else if wish.SendR2t? && onTx then wish
    else if wish.SendData? && 0 < wish.n <= left then wish
    else if pending then Turn
    else if onTx then SendR2t
    else SendData(left)
  }

  /** One step of the exchange on the task object. */
  method StepTask(x: Transfer, task: WriteTask, ghost w: World, step: Step, sent: int, end: int, solicited: bool)
    returns (r2t: seq<R2t>)
    requires Inv(x, w) && w.task == task.View() && Enabled(w, step)
    requires w.sent == sent && w.end == end && w.solicited == solicited
    modifies task
    ensures task.View() == Take(x, w, step).task
    ensures if step.SendR2t? then |r2t| == 1 && Take(x, w, step) ==
        World(task.View(), r2t[0].offset, r2t[0].offset + r2t[0].length, true, w.r2ts + r2t)
      else r2t == []
  {
    match step
    case SendData(n) =>
      task.ReceiveData(sent, x.want[sent..sent + n]);
      task.DataOutDone(solicited, sent + n == end);
      r2t := [];
    case Turn =>
      task.TakeOffPending();
      r2t := [];
    case SendR2t =>
      var r := task.BuildR2t(x.maxBurst);
      r2t := [r];
  }

  /** Whatever the schedule, and whether or not the command came in turn, the exchange ends, with the initiator's bytes
      in the task's buffer, the command queued exactly once, and R2Ts for exactly the bytes not sent unsolicited. */
  method Exchange(x: Transfer, buf: seq<byte>, imm: nat, inTurn: bool, schedule: nat -> Step)
    returns (task: WriteTask, r2ts: seq<R2t>)
    requires x.Ok() && imm <= x.first && |x.want| <= |buf|
    ensures fresh(task) && task.queued == 1 && task.r2tCount == 0 && task.offset == 0
    ensures |x.want| <= |task.data| && task.data[..|x.want|] == x.want
    ensures Tiles(r2ts, x.first, |x.want|, |x.want|, x.maxBurst, 0)
  {
    task := new WriteTask(buf, x.want[..imm], |x.want|, imm == x.first, !inTurn);
    if inTurn {
      task.CmdExecute();
    }
    ghost var w := Start(x, buf, imm, inTurn);
    StartInv(x, buf, imm, inTurn);
    var sent: int, end: int, solicited := imm, x.first, false;
    r2ts := [];
    var round := 0;
    while task.isPending || task.onTx || sent < end
      invariant fresh(task) && Inv(x, w) && w == World(task.View(), sent, end, solicited, r2ts)
      decreases Measure(x, w)
    {
      var step := Pick(schedule(round), task.isPending, task.onTx, end - sent);
      TakeKeepsInv(x, w, step);
      var r2t := StepTask(x, task, w, step, sent, end, solicited);
      w := Take(x, w, step);
      match step {
        case SendData(n) => sent := sent + n;
        case Turn =>
        case SendR2t =>
          sent, end, solicited := r2t[0].offset, r2t[0].offset + r2t[0].length, true;
          r2ts := r2ts + r2t;
      }
      round := round + 1;
    }
  }
}
