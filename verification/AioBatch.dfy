/** Batched submission to the kernel's asynchronous I/O, across partial and delayed submissions. */
module AioBatch {

  type Id = nat

  const EAGAIN := -11

  /** `arrived` and `kernel`: the commands that came in and those that the kernel took, in order; `done`: how many
      of the latter have completed. */
  datatype Dev = Dev(wait: seq<Id>, nwaiting: nat, npending: nat, iodepth: nat, arrived: seq<Id>, kernel: seq<Id>,
                     done: nat)

  datatype Sys = Sys(devs: map<nat, Dev>, list: seq<nat>)

  // ---- what the functions compute ----

  /** How many commands a batch offers. */
  function Offer(d: Dev): int
  {
    if d.iodepth - d.npending > d.nwaiting then d.nwaiting else d.iodepth - d.npending
  }

  /** io_submit takes a prefix of the batch, or none of it with EAGAIN. */
  function Taken(d: Dev, answer: int): int
  {
    if answer == EAGAIN || answer < 0 then 0 else if answer > Offer(d) then Offer(d) else answer
  }

  function Batch(d: Dev, answer: int): Dev
    requires Ok(d)
  {
    var k := Taken(d, answer);
    d.(wait := d.wait[k..], nwaiting := d.nwaiting - k, npending := d.npending + k, kernel := d.kernel + d.wait[..k])
  }

  function Remove(list: seq<nat>, id: nat): seq<nat>
  {
    if list == [] then [] else if list[0] == id then list[1..] else [list[0]] + Remove(list[1..], id)
  }

  /** bs_aio_submit_dev_batch */
  function BatchDev(s: Sys, id: nat, answer: int): Sys
    requires id in s.devs && Ok(s.devs[id])
  {
    var d := s.devs[id];
    if Offer(d) == 0 then s
    else
      var d' := Batch(d, answer);
      Sys(s.devs[id := d'], if d'.nwaiting == 0 then Remove(s.list, id) else s.list)
  }

  /** bs_aio_submit_all_devs, over the list as it was when the walk began */
  function BatchAll(s: Sys, ids: seq<nat>, answers: nat -> int): Sys
    requires Inv(s) && forall i | 0 <= i < |ids| :: ids[i] in s.devs
    decreases |ids|
  {
    if ids == [] then s
    else
      BatchDevKeeps(s, ids[0], answers(ids[0]));
      BatchAll(BatchDev(s, ids[0], answers(ids[0])), ids[1..], answers)
  }

  function Enqueue(s: Sys, id: nat, c: Id): Sys
    requires id in s.devs
  {
    var d := s.devs[id];
    Sys(s.devs[id := d.(wait := d.wait + [c], nwaiting := d.nwaiting + 1, arrived := d.arrived + [c])],
        if d.nwaiting == 0 then s.list + [id] else s.list)
  }

  /** bs_aio_cmd_submit for a read or a write; `last`: no further command of the transport's batch follows */
  function CmdSubmit(s: Sys, id: nat, c: Id, last: bool, answers: nat -> int): Sys
    requires Inv(s) && id in s.devs
  {
    EnqueueKeeps(s, id, c);
    var t := Enqueue(s, id, c);
    var d := t.devs[id];
    if last then BatchAll(t, t.list, answers)
    else if d.nwaiting == d.iodepth - d.npending then BatchDev(t, id, answers(id))
    else t
  }

  /** The kernel reports n completions: io_getevents */
  function Completed(s: Sys, id: nat, n: nat): Sys
    requires id in s.devs && n <= s.devs[id].npending
  {
    var d := s.devs[id];
    s.(devs := s.devs[id := d.(npending := d.npending - n, done := d.done + n)])
  }

  /** The end of bs_aio_get_completions */
  function Refill(s: Sys, id: nat, answer: int): Sys
    requires id in s.devs && Ok(s.devs[id])
  {
    if s.devs[id].nwaiting > 0 then BatchDev(s, id, answer) else s
  }

  // ---- the invariant ----

  /** The counter is the list's length, the depth is respected, what the kernel took is a prefix of what arrived,
      in order and once each, the rest waits in order, and npending counts what the kernel has not completed. */
  predicate Ok(d: Dev)
  {
    && d.nwaiting == |d.wait| && d.npending <= d.iodepth
    && d.arrived == d.kernel + d.wait
    && d.npending + d.done == |d.kernel|
  }

  /** A device is on the list exactly when it has commands waiting, and once. */
  ghost predicate ListOk(s: Sys)
  {
    && Once(s.list)
    && (forall id :: id in s.list <==> id in s.devs && s.devs[id].nwaiting > 0)
  }

  ghost predicate Inv(s: Sys)
  {
    (forall id | id in s.devs :: Ok(s.devs[id])) && ListOk(s)
  }

  lemma BatchKeeps(d: Dev, answer: int)
    requires Ok(d)
    ensures Ok(Batch(d, answer))
  {
    var k := Taken(d, answer);
    assert d.wait == d.wait[..k] + d.wait[k..];
  }

  predicate Once(list: seq<nat>)
  {
    forall i, j | 0 <= i < j < |list| :: list[i] != list[j]
  }

  lemma {:induction false} RemoveIs(list: seq<nat>, id: nat)
    requires Once(list)
    ensures Once(Remove(list, id)) && forall x :: x in Remove(list, id) <==> x in list && x != id
  {
    if list != [] {
      assert forall k | 0 < k < |list| :: list[k] == list[1..][k - 1];
      RemoveIs(list[1..], id);
      assert list == [list[0]] + list[1..];
      if list[0] != id {
        OnceCons(list[0], Remove(list[1..], id));
      }
    }
  }

  lemma OnceCons(x: nat, list: seq<nat>)
    requires Once(list) && x !in list
    ensures Once([x] + list)
  {
  }

  lemma BatchDevKeeps(s: Sys, id: nat, answer: int)
    requires Inv(s) && id in s.devs
    ensures Inv(BatchDev(s, id, answer)) && BatchDev(s, id, answer).devs.Keys == s.devs.Keys
  {
    BatchKeeps(s.devs[id], answer);
    RemoveIs(s.list, id);
  }

  lemma EnqueueKeeps(s: Sys, id: nat, c: Id)
    requires Inv(s) && id in s.devs
    ensures Inv(Enqueue(s, id, c)) && Enqueue(s, id, c).devs.Keys == s.devs.Keys
  {
  }

  lemma {:induction false} BatchAllKeeps(s: Sys, ids: seq<nat>, answers: nat -> int)
    requires Inv(s) && forall i | 0 <= i < |ids| :: ids[i] in s.devs
    ensures Inv(BatchAll(s, ids, answers)) && BatchAll(s, ids, answers).devs.Keys == s.devs.Keys
    decreases |ids|
  {
    if ids != [] {
      BatchDevKeeps(s, ids[0], answers(ids[0]));
      BatchAllKeeps(BatchDev(s, ids[0], answers(ids[0])), ids[1..], answers);
    }
  }

  // ---- runs ----

  datatype Event =
    | Arrival(id: nat, c: Id, last: bool, answers: nat -> int)
    | Completion(id: nat, n: nat)
    | Refilling(id: nat, answer: int)

  predicate Possible(s: Sys, e: Event)
  {
    e.id in s.devs && (e.Completion? ==> e.n <= s.devs[e.id].npending)
  }

  function Next(s: Sys, e: Event): Sys
    requires Inv(s) && Possible(s, e)
  {
    match e
    case Arrival(id, c, last, answers) => CmdSubmit(s, id, c, last, answers)
    case Completion(id, n) => Completed(s, id, n)
    case Refilling(id, answer) => Refill(s, id, answer)
  }

  lemma NextKeepsInv(s: Sys, e: Event)
    requires Inv(s) && Possible(s, e)
    ensures Inv(Next(s, e))
  {
    match e
    case Arrival(id, c, last, answers) =>
      EnqueueKeeps(s, id, c);
      var t := Enqueue(s, id, c);
      BatchAllKeeps(t, t.list, answers);
      BatchDevKeeps(t, id, answers(id));
    case Completion(id, n) =>
    case Refilling(id, answer) => BatchDevKeeps(s, id, answer);
  }

  /** Every state of a run satisfies the invariant, whatever the kernel answers. */
  ghost predicate SafeRun(s: Sys, es: seq<Event>)
    decreases |es|
  {
    Inv(s) && (es != [] && Possible(s, es[0]) ==> SafeRun(Next(s, es[0]), es[1..]))
  }

  lemma {:induction false} RunKeepsInv(s: Sys, es: seq<Event>)
    requires Inv(s)
    ensures SafeRun(s, es)
    decreases |es|
  {
    if es != [] && Possible(s, es[0]) {
      NextKeepsInv(s, es[0]);
      RunKeepsInv(Next(s, es[0]), es[1..]);
    }
  }

  // ---- nothing is held back ----

  /** Nothing waits unless the kernel has all it may have. */
  predicate Saturated(d: Dev)
  {
    d.nwaiting == 0 || d.npending == d.iodepth
  }

  /** The kernel takes whatever it is offered. */
  predicate Willing(s: Sys, answers: nat -> int)
  {
    forall id | id in s.devs :: answers(id) >= s.devs[id].iodepth
  }

  lemma BatchDevSaturates(s: Sys, id: nat, answer: int)
    requires Inv(s) && id in s.devs && answer >= s.devs[id].iodepth
    ensures var t := BatchDev(s, id, answer);
      Saturated(t.devs[id]) && t.devs[id].iodepth == s.devs[id].iodepth
      && forall x | x in s.devs && x != id :: t.devs[x] == s.devs[x]
  {
  }

  lemma {:induction false} BatchAllSaturates(s: Sys, ids: seq<nat>, answers: nat -> int)
    requires Inv(s) && (forall i | 0 <= i < |ids| :: ids[i] in s.devs) && Willing(s, answers)
    requires forall id | id in s.devs && id !in ids :: Saturated(s.devs[id])
    ensures forall id | id in BatchAll(s, ids, answers).devs :: Saturated(BatchAll(s, ids, answers).devs[id])
    decreases |ids|
  {
    if ids != [] {
      BatchDevKeeps(s, ids[0], answers(ids[0]));
      BatchDevSaturates(s, ids[0], answers(ids[0]));
      assert forall x | x in ids && x != ids[0] :: x in ids[1..];
      BatchAllSaturates(BatchDev(s, ids[0], answers(ids[0])), ids[1..], answers);
    }
  }

  /** After the last command of a batch a willing kernel has everything that the depths allow, on every device. */
  lemma LastSubmitsAll(s: Sys, id: nat, c: Id, answers: nat -> int)
    requires Inv(s) && id in s.devs && Willing(s, answers)
    ensures var t := CmdSubmit(s, id, c, true, answers);
      forall x | x in t.devs :: Saturated(t.devs[x])
  {
    EnqueueKeeps(s, id, c);
    var t := Enqueue(s, id, c);
    BatchAllSaturates(t, t.list, answers);
  }

  /** After completions and the refill that follows them, a willing kernel has again all that the depth allows. */
  lemma RefillSaturates(s: Sys, id: nat, n: nat, answer: int)
    requires Inv(s) && id in s.devs && n <= s.devs[id].npending && answer >= s.devs[id].iodepth
    ensures var t := Refill(Completed(s, id, n), id, answer);
      Saturated(t.devs[id]) && forall x | x in s.devs && x != id :: x in t.devs && t.devs[x] == s.devs[x]
  {
    NextKeepsInv(s, Completion(id, n));
    BatchDevSaturates(Completed(s, id, n), id, answer);
  }

  // ---- over runs with a willing kernel ----

  /** What waits would not fill the depth, or the device is saturated. */
  predicate Prompt(d: Dev)
  {
    Saturated(d) || d.npending + d.nwaiting < d.iodepth
  }

  ghost predicate AllPrompt(s: Sys)
  {
    Inv(s) && forall id | id in s.devs :: Prompt(s.devs[id])
  }

  /** bs_aio_cmd_submit and bs_aio_get_completions, with a kernel that takes what it is offered. */
  datatype Call =
    | Submission(id: nat, c: Id, last: bool, answers: nat -> int)
    | Completions(id: nat, n: nat, answer: int)

  predicate Served(s: Sys, call: Call)
  {
    && call.id in s.devs
    && match call
       case Submission(_, _, _, answers) => Willing(s, answers)
       case Completions(id, n, answer) => n <= s.devs[id].npending && answer >= s.devs[id].iodepth
  }

  function Serve(s: Sys, call: Call): (t: Sys)
    requires Inv(s) && Served(s, call)
  {
    match call
    case Submission(id, c, last, answers) => CmdSubmit(s, id, c, last, answers)
    case Completions(id, n, answer) => Refill(Completed(s, id, n), id, answer)
  }

  lemma ServeKeepsPrompt(s: Sys, call: Call)
    requires AllPrompt(s) && Served(s, call)
    ensures AllPrompt(Serve(s, call))
  {
    match call
    case Submission(id, c, last, answers) =>
      NextKeepsInv(s, Arrival(id, c, last, answers));
      EnqueueKeeps(s, id, c);
      if last {
        LastSubmitsAll(s, id, c, answers);
      } else {
        BatchDevSaturates(Enqueue(s, id, c), id, answers(id));
      }
    case Completions(id, n, answer) =>
      NextKeepsInv(s, Completion(id, n));
      NextKeepsInv(Completed(s, id, n), Refilling(id, answer));
      RefillSaturates(s, id, n, answer);
  }

  ghost predicate PromptRun(s: Sys, calls: seq<Call>)
    decreases |calls|
  {
    AllPrompt(s) && (calls != [] && Served(s, calls[0]) ==> PromptRun(Serve(s, calls[0]), calls[1..]))
  }

  /** Over every run with a willing kernel, on every device and at every moment: commands wait only while they would not
      fill the depth, or because the kernel has as many as the depth allows. */
  lemma {:induction false} NothingHeldBack(s: Sys, calls: seq<Call>)
    requires AllPrompt(s)
    ensures PromptRun(s, calls)
    decreases |calls|
  {
    if calls != [] && Served(s, calls[0]) {
      ServeKeepsPrompt(s, calls[0]);
      NothingHeldBack(Serve(s, calls[0]), calls[1..]);
    }
  }
}
