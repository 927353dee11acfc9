/** The batcher's lists and counters, changed in place. */
module AioBatcher {
  import opened AioBatch

  const AIO_MAX_IODEPTH := 128

  class Batcher {
    var devs: map<nat, Dev>
    var devList: seq<nat>

    ghost function View(): Sys
      reads this
    {
      Sys(devs, devList)
    }

    constructor (devs: map<nat, Dev>)
      requires forall id | id in devs :: Ok(devs[id]) && devs[id].nwaiting == 0
      ensures View() == Sys(devs, []) && Inv(View())
    {
      this.devs, devList := devs, [];
    }

    /** The loop that takes n commands off the wait list and prepares their control blocks. */
    method TakeCommands(wait: seq<Id>, n: nat) returns (iocbs: seq<Id>, left: seq<Id>)
      requires 0 < n <= |wait|
      ensures iocbs == wait[..n] && left == wait[n..]
    {
      iocbs, left := [], wait;
      var i := 0;
      while i < n
        invariant 0 <= i <= n && iocbs == wait[..i] && left == wait[i..]
      {
        iocbs, left := iocbs + [left[0]], left[1..];
        i := i + 1;
      }
    }

    /** The loop that puts the commands the kernel did not take back at the head of the list, last one first. */
    method PutBack(iocbs: seq<Id>, from: nat, left: seq<Id>) returns (wait: seq<Id>)
      requires from <= |iocbs|
      ensures wait == iocbs[from..] + left
    {
      wait := left;
      var i := |iocbs| - 1;
      while i >= from
        invariant from - 1 <= i < |iocbs| && wait == iocbs[i + 1..] + left
      {
        assert iocbs[i..] == [iocbs[i]] + iocbs[i + 1..];
        wait := [iocbs[i]] + wait;
        i := i - 1;
      }
    }

    /** list_del of the device's entry */
    method Unlink(id: nat)
      modifies `devList
      ensures devList == Remove(old(devList), id)
    {
      var k := 0;
      while k < |devList| && devList[k] != id
        invariant 0 <= k <= |devList|
        invariant Remove(devList, id) == devList[..k] + Remove(devList[k..], id)
      {
        assert devList[k..][1..] == devList[k + 1..];
        assert devList[..k + 1] == devList[..k] + [devList[k]];
        k := k + 1;
      }
      if k < |devList| {
        assert devList[k..][1..] == devList[k + 1..];
        devList := devList[..k] + devList[k + 1..];
      } else {
        assert devList[..k] == devList;
      }
    }

    /** bs_aio_submit_dev_batch; `answer` is what io_submit returns */
    method SubmitDevBatch(id: nat, answer: int)
      requires id in devs && Ok(devs[id]) && (answer == EAGAIN || 0 <= answer)
      modifies this
      ensures View() == BatchDev(old(View()), id, answer)
    {
      var d := devs[id];
      var nsubmit := d.iodepth - d.npending;
      if nsubmit > d.nwaiting {
        nsubmit := d.nwaiting;
      }
      if nsubmit == 0 {
        return;
      }
      var iocbs, wait := TakeCommands(d.wait, nsubmit);
      var nsuccess := if answer == EAGAIN then 0 else if answer > nsubmit then nsubmit else answer;
      if nsuccess < nsubmit {
        wait := PutBack(iocbs, nsuccess, wait);
      }
      assert wait == d.wait[nsuccess..] && iocbs[..nsuccess] == d.wait[..nsuccess];
      devs := devs[id := d.(wait := wait, npending := d.npending + nsuccess, nwaiting := d.nwaiting - nsuccess,
                            kernel := d.kernel + iocbs[..nsuccess])];
      if d.nwaiting - nsuccess == 0 {
        Unlink(id);
      }
    }

    /** bs_aio_submit_all_devs: the walk holds the next entry, so that the current one may leave the list. */
    method SubmitAllDevs(answers: nat -> int)
      requires Inv(View()) && forall id :: answers(id) == EAGAIN || 0 <= answers(id)
      modifies this
      ensures View() == BatchAll(old(View()), old(devList), answers)
    {
      var rest := devList;
      while rest != []
        invariant Inv(View()) && forall i | 0 <= i < |rest| :: rest[i] in devs
        invariant BatchAll(View(), rest, answers) == BatchAll(old(View()), old(devList), answers)
        decreases |rest|
      {
        BatchDevKeeps(View(), rest[0], answers(rest[0]));
        SubmitDevBatch(rest[0], answers(rest[0]));
        rest := rest[1..];
      }
    }

    /** bs_aio_cmd_submit for a read or a write */
    method Submit(id: nat, c: Id, last: bool, answers: nat -> int)
      requires Inv(View()) && id in devs && forall x :: answers(x) == EAGAIN || 0 <= answers(x)
      modifies this
      ensures View() == CmdSubmit(old(View()), id, c, last, answers)
    {
      EnqueueKeeps(View(), id, c);
      var d := devs[id];
      if d.nwaiting == 0 {
        devList := devList + [id];
      }
      d := d.(wait := d.wait + [c], nwaiting := d.nwaiting + 1, arrived := d.arrived + [c]);
      devs := devs[id := d];
      if last {
        SubmitAllDevs(answers);
      } else if d.nwaiting == d.iodepth - d.npending {
        SubmitDevBatch(id, answers(id));
      }
    }

    /** bs_aio_get_completions for n events; the i-th io_getevents hands over portions(i) of those asked for, at least
        one. */
    method GetCompletions(id: nat, n: nat, portions: nat -> nat, answer: int)
      requires Inv(View()) && id in devs && n <= devs[id].npending && forall i :: portions(i) > 0
      requires answer == EAGAIN || 0 <= answer
      modifies this
      ensures View() == Refill(Completed(old(View()), id, n), id, answer)
    {
      var ncomplete, i := n, 0;
      while ncomplete > 0
        invariant 0 <= ncomplete <= n && View() == Completed(old(View()), id, n - ncomplete)
        decreases ncomplete
      {
        var asked := if ncomplete < AIO_MAX_IODEPTH then ncomplete else AIO_MAX_IODEPTH;
        var nevents := if portions(i) < asked then portions(i) else asked;
        var d := devs[id];
        devs := devs[id := d.(npending := d.npending - nevents, done := d.done + nevents)];
        ncomplete, i := ncomplete - nevents, i + 1;
      }
      assert n == 0 ==> View() == Completed(old(View()), id, 0);
      if devs[id].nwaiting > 0 {
        SubmitDevBatch(id, answer);
      }
    }
  }
}
