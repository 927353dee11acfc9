/** The command queue of a logical unit: a counter, a flag and a FIFO, refining the task set. */
module CmdQueue {
  import opened TaskSet

  class Queue {
    var activeCmd: nat
    var blocked: bool
    var queue: seq<Cmd>
    ghost var active: multiset<Cmd>

    ghost predicate Valid()
      reads this
    {
      activeCmd == |active| && TaskSet.Inv(View())
    }

    ghost function View(): Tasks
      reads this
    {
      Tasks(active, blocked, queue)
    }

    /** The queue of a unit with these counters, whose active commands are `tasks`. */
    constructor Of(count: nat, isBlocked: bool, waiting: seq<Cmd>, ghost tasks: multiset<Cmd>)
      ensures activeCmd == count && View() == Tasks(tasks, isBlocked, waiting)
    {
      activeCmd, blocked, queue, active := count, isBlocked, waiting, tasks;
    }

    /** cmd_enabled */
    method CmdEnabled(c: Cmd) returns (enabled: bool)
      requires activeCmd == |active|
      ensures enabled == Enabled(View(), c)
    {
      match c.attr
      case Simple => enabled := !blocked;
      case Ordered => enabled := !blocked && activeCmd == 0;
      case Head => enabled := true;
    }

    /** cmd_post_perform */
    method PostPerform(c: Cmd)
      requires activeCmd == |active|
      modifies this`activeCmd, this`blocked, this`active
      ensures View() == Dispatch(old(View()), c) && activeCmd == |active|
    {
      activeCmd := activeCmd + 1;
      active := active + multiset{c};
      if c.attr == Ordered || c.attr == Head {
        blocked := true;
      }
    }

    /** target_cmd_perform: dispatched at once, or queued. */
    method Perform(c: Cmd) returns (dispatched: bool)
      requires Valid()
      modifies this
      ensures Valid() && View() == Arrive(old(View()), c)
      ensures dispatched == Enabled(old(View()), c)
    {
      ArriveKeepsInv(View(), c);
      dispatched := CmdEnabled(c);
      if dispatched {
        PostPerform(c);
      } else {
        queue := queue + [c];
      }
    }

    /** post_cmd_done: returns what it dispatched, in order. */
    method PostDone() returns (out: seq<Cmd>)
      requires activeCmd == |active|
      modifies this
      ensures activeCmd == |active| && View() == Drain(old(View()))
      ensures out == Released(old(View()))
    {
      ghost var end, all := Drain(View()), Released(View());
      out := [];
      while queue != []
        invariant activeCmd == |active| && Drain(View()) == end && out + Released(View()) == all
        decreases |queue|
      {
        var c := queue[0];
        var enabled := CmdEnabled(c);
        if !enabled {
          break;
        }
        ghost var next := Dispatch(View().(queue := queue[1..]), c);
        DrainsOne(View(), c, next, out);
        queue := queue[1..];
        PostPerform(c);
        assert View() == next;
        out := out + [c];
      }
    }

    /** __cmd_done */
    method Done(c: Cmd) returns (out: seq<Cmd>)
      requires Valid() && c in active
      modifies this
      ensures Valid() && View() == Finish(old(View()), c)
      ensures out == Released(Retire(old(View()), c))
    {
      FinishKeepsInv(View(), c);
      Leave(c);
      out := PostDone();
    }

    /** The completed command's own accounting. */
    method Leave(c: Cmd)
      requires activeCmd == |active| && c in active
      modifies this`activeCmd, this`blocked, this`active
      ensures activeCmd == |active| && View() == Retire(old(View()), c)
    {
      activeCmd := activeCmd - 1;
      active := active - multiset{c};
      if c.attr == Ordered || c.attr == Head {
        blocked := false;
      }
    }
  }
}
