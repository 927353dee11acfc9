/** The task set of one logical unit: SIMPLE, ORDERED and HEAD OF QUEUE commands behind one blocked flag. */
module TaskSet {

  datatype Attribute = Simple | Ordered | Head

  /** A command, with the nexus that sent it and the logical unit that serves it. */
  datatype Cmd = Cmd(tag: nat, attr: Attribute, nexus: nat, lun: nat)
  {
    predicate Special() { attr != Simple }
  }

  /** `active` are the dispatched, unfinished commands; the code keeps only their number. */
  datatype Tasks = Tasks(active: multiset<Cmd>, blocked: bool, queue: seq<Cmd>)
  {
    function Load(): nat { |active| + |queue| }

    function All(): multiset<Cmd> { active + multiset(queue) }
  }

  const IDLE := Tasks(multiset{}, false, [])

  // ---- the operations ----

  /** cmd_enabled */
  predicate Enabled(t: Tasks, c: Cmd)
  {
    match c.attr
    case Simple => !t.blocked
    case Ordered => !t.blocked && |t.active| == 0
    case Head => true
  }

  /** cmd_post_perform */
  function Dispatch(t: Tasks, c: Cmd): Tasks
  {
    t.(active := t.active + multiset{c}, blocked := t.blocked || c.Special())
  }

  /** target_cmd_perform */
  function Arrive(t: Tasks, c: Cmd): Tasks
  {
    if Enabled(t, c) then Dispatch(t, c) else t.(queue := t.queue + [c])
  }

  /** post_cmd_done: dispatch from the front of the queue until a command is not enabled. */
  function Drain(t: Tasks): Tasks
    decreases |t.queue|
  {
    if t.queue != [] && Enabled(t, t.queue[0]) then Drain(Dispatch(t.(queue := t.queue[1..]), t.queue[0])) else t
  }

  function Retire(t: Tasks, c: Cmd): Tasks
    requires c in t.active
  {
    t.(active := t.active - multiset{c}, blocked := t.blocked && !c.Special())
  }

  /** __cmd_done */
  function Finish(t: Tasks, c: Cmd): Tasks
    requires c in t.active
  {
    Drain(Retire(t, c))
  }

  // ---- the invariant ----

  predicate SpecialActive(t: Tasks)
  {
    exists c | c in t.active :: c.Special()
  }

  predicate Inv(t: Tasks)
  {
    && (t.blocked ==> SpecialActive(t))
    && (t.queue != [] ==> !Enabled(t, t.queue[0]))
    && (forall c | c in t.queue :: c.attr != Head)
  }

  /** A queued command always has an active command to wait for. */
  lemma QueueWaitsForActive(t: Tasks)
    requires Inv(t) && t.queue != []
    ensures |t.active| > 0
  {
    assert t.queue[0] in t.queue;
    if t.blocked {
      var c :| c in t.active && c.Special();
      assert t.active == t.active - multiset{c} + multiset{c};
    }
  }

  lemma ArriveKeepsAll(t: Tasks, c: Cmd)
    ensures Arrive(t, c).All() == t.All() + multiset{c}
  {
  }

  lemma ArriveKeepsInv(t: Tasks, c: Cmd)
    requires Inv(t)
    ensures Inv(Arrive(t, c)) && Arrive(t, c).All() == t.All() + multiset{c}
  {
    ArriveKeepsAll(t, c);
    if Enabled(t, c) {
      var t' := Dispatch(t, c);
      assert c in t'.active;
      if t.queue != [] {
        assert t.queue[0] in t.queue;
      }
    } else if t.queue == [] {
      assert Arrive(t, c).queue == [c];
    }
  }

  lemma {:induction false} DrainKeepsAll(t: Tasks)
    ensures Drain(t).All() == t.All()
    decreases |t.queue|
  {
    if t.queue != [] && Enabled(t, t.queue[0]) {
      DrainKeepsAll(Dispatch(t.(queue := t.queue[1..]), t.queue[0]));
      assert t.queue == [t.queue[0]] + t.queue[1..];
    }
  }

  lemma {:induction false} DrainKeeps(t: Tasks)
    requires t.blocked ==> SpecialActive(t)
    requires forall c | c in t.queue :: c.attr != Head
    ensures Inv(Drain(t))
    decreases |t.queue|
  {
    if t.queue != [] && Enabled(t, t.queue[0]) {
      var c, t' := t.queue[0], Dispatch(t.(queue := t.queue[1..]), t.queue[0]);
      assert c in t'.active;
      DrainKeeps(t');
    }
  }

  lemma FinishKeepsAll(t: Tasks, c: Cmd)
    requires c in t.active
    ensures Finish(t, c).All() == t.All() - multiset{c}
  {
    assert Retire(t, c).All() == t.All() - multiset{c};
    DrainKeepsAll(Retire(t, c));
  }

  lemma FinishKeepsInv(t: Tasks, c: Cmd)
    requires Inv(t) && c in t.active
    ensures Inv(Finish(t, c)) && Finish(t, c).All() == t.All() - multiset{c}
  {
    FinishKeepsAll(t, c);
    var t' := Retire(t, c);
    if t'.blocked {
      var d :| d in t.active && d.Special();
      assert d in t'.active;
    }
    DrainKeeps(t');
  }

  // ---- runs ----

  datatype Event = Arrival(c: Cmd) | Completion(c: Cmd)

  predicate Possible(t: Tasks, e: Event)
  {
    e.Completion? ==> e.c in t.active
  }

  function Next(t: Tasks, e: Event): Tasks
    requires Possible(t, e)
  {
    if e.Arrival? then Arrive(t, e.c) else Finish(t, e.c)
  }

  /** Every completion is of a command that is active at that moment. */
  predicate Runs(t: Tasks, es: seq<Event>)
    decreases |es|
  {
    es == [] || (Possible(t, es[0]) && Runs(Next(t, es[0]), es[1..]))
  }

  function Run(t: Tasks, es: seq<Event>): Tasks
    requires Runs(t, es)
    decreases |es|
  {
    if es == [] then t else Run(Next(t, es[0]), es[1..])
  }

  function Arrivals(es: seq<Event>): multiset<Cmd>
  {
    if es == [] then multiset{}
    else Arrivals(es[1..]) + if es[0].Arrival? then multiset{es[0].c} else multiset{}
  }

  function Completions(es: seq<Event>): multiset<Cmd>
  {
    if es == [] then multiset{}
    else Completions(es[1..]) + if es[0].Completion? then multiset{es[0].c} else multiset{}
  }

  lemma CountIn<T>(a: multiset<T>, x: T, ins: multiset<T>, r: multiset<T>, outs: multiset<T>)
    requires a + multiset{x} + ins == r + outs
    ensures a + (ins + multiset{x}) == r + outs
  {
  }

  lemma CountOut<T>(a: multiset<T>, x: T, ins: multiset<T>, r: multiset<T>, outs: multiset<T>)
    requires x in a && a - multiset{x} + ins == r + outs
    ensures a + ins == r + (outs + multiset{x})
  {
    var less := a - multiset{x};
    assert a == less + multiset{x};
    assert a + ins == (less + ins) + multiset{x};
  }

  /** Over every run the invariant holds and no command is lost or duplicated. */
  lemma {:induction false} RunKeepsInv(t: Tasks, es: seq<Event>)
    requires Inv(t) && Runs(t, es)
    ensures Inv(Run(t, es))
    ensures t.All() + Arrivals(es) == Run(t, es).All() + Completions(es)
    decreases |es|
  {
    if es != [] {
      var c, rest, t' := es[0].c, es[1..], Next(t, es[0]);
      if es[0].Arrival? {
        ArriveKeepsInv(t, c);
        RunKeepsInv(t', rest);
        CountIn(t.All(), c, Arrivals(rest), Run(t', rest).All(), Completions(rest));
      } else {
        FinishKeepsInv(t, c);
        RunKeepsInv(t', rest);
        CountOut(t.All(), c, Arrivals(rest), Run(t', rest).All(), Completions(rest));
      }
    }
  }

  // ---- queued commands leave in arrival order ----

  /** What a drain dispatches. */
  function Released(t: Tasks): seq<Cmd>
    decreases |t.queue|
  {
    if t.queue != [] && Enabled(t, t.queue[0]) then
      [t.queue[0]] + Released(Dispatch(t.(queue := t.queue[1..]), t.queue[0]))
    else []
  }

  lemma DrainsOne(t: Tasks, c: Cmd, t': Tasks, out: seq<Cmd>)
    requires t.queue != [] && c == t.queue[0] && Enabled(t, c) && t' == Dispatch(t.(queue := t.queue[1..]), c)
    ensures Drain(t) == Drain(t') && out + Released(t) == (out + [c]) + Released(t')
  {
  }

  lemma {:induction false} DrainReleases(t: Tasks)
    ensures t.queue == Released(t) + Drain(t).queue
    decreases |t.queue|
  {
    if t.queue != [] && Enabled(t, t.queue[0]) {
      var t' := Dispatch(t.(queue := t.queue[1..]), t.queue[0]);
      DrainReleases(t');
      HeadAndTail(t.queue, Released(t'), Drain(t').queue);
    }
  }

  lemma HeadAndTail<T>(q: seq<T>, a: seq<T>, b: seq<T>)
    requires q != [] && q[1..] == a + b
    ensures q == ([q[0]] + a) + b
  {
  }

  lemma {:induction false} DrainDispatches(t: Tasks)
    ensures Drain(t).active == t.active + multiset(Released(t))
    decreases |t.queue|
  {
    if t.queue != [] && Enabled(t, t.queue[0]) {
      DrainDispatches(Dispatch(t.(queue := t.queue[1..]), t.queue[0]));
    }
  }

  /** The commands that had to wait, in arrival order. */
  function QueuedLog(t: Tasks, es: seq<Event>): seq<Cmd>
    requires Runs(t, es)
    decreases |es|
  {
    if es == [] then []
    else (if es[0].Arrival? && !Enabled(t, es[0].c) then [es[0].c] else []) + QueuedLog(Next(t, es[0]), es[1..])
  }

  /** The commands dispatched out of the queue, in dispatch order. */
  function ReleasedLog(t: Tasks, es: seq<Event>): seq<Cmd>
    requires Runs(t, es)
    decreases |es|
  {
    if es == [] then []
    else (if es[0].Completion? then Released(Retire(t, es[0].c)) else []) + ReleasedLog(Next(t, es[0]), es[1..])
  }

  lemma Regroup<T>(q: seq<T>, w: seq<T>, q': seq<T>, ws: seq<T>, g: seq<T>, gs: seq<T>, end: seq<T>)
    requires q + w == g + q' && q' + ws == gs + end
    ensures q + (w + ws) == (g + gs) + end
  {
    assert q + (w + ws) == (q + w) + ws;
    assert (g + q') + ws == g + (q' + ws);
  }

  /** The commands dispatched on arrival. */
  function DirectLog(t: Tasks, es: seq<Event>): seq<Cmd>
    requires Runs(t, es)
    decreases |es|
  {
    if es == [] then []
    else (if es[0].Arrival? && Enabled(t, es[0].c) then [es[0].c] else []) + DirectLog(Next(t, es[0]), es[1..])
  }

  lemma ActiveStep(t: Tasks, e: Event)
    requires Possible(t, e)
    ensures t.active + multiset(if e.Arrival? && Enabled(t, e.c) then [e.c] else [])
        + multiset(if e.Completion? then Released(Retire(t, e.c)) else [])
      == Next(t, e).active + if e.Completion? then multiset{e.c} else multiset{}
  {
    if e.Completion? {
      DrainDispatches(Retire(t, e.c));
      assert t.active == Retire(t, e.c).active + multiset{e.c};
    }
  }

  lemma RegroupActive<T>(a: multiset<T>, d: multiset<T>, r: multiset<T>, a': multiset<T>, f: multiset<T>,
                         ds: multiset<T>, rs: multiset<T>, end: multiset<T>, fs: multiset<T>)
    requires a + d + r == a' + f && a' + ds + rs == end + fs
    ensures a + (d + ds) + (r + rs) == end + (fs + f)
  {
    assert a + (d + ds) + (r + rs) == (a + d + r) + ds + rs;
    assert (a' + f) + ds + rs == (a' + ds + rs) + f;
  }

  /** Commands dispatched on arrival or out of the queue become active, once each, and stay so until they finish. */
  lemma {:induction false} DispatchedAreActive(t: Tasks, es: seq<Event>)
    requires Runs(t, es)
    ensures t.active + multiset(DirectLog(t, es)) + multiset(ReleasedLog(t, es)) == Run(t, es).active + Completions(es)
    decreases |es|
  {
    if es != [] {
      var e, t', rest := es[0], Next(t, es[0]), es[1..];
      DispatchedAreActive(t', rest);
      ActiveStep(t, e);
      RegroupActive(t.active, multiset(if e.Arrival? && Enabled(t, e.c) then [e.c] else []),
                    multiset(if e.Completion? then Released(Retire(t, e.c)) else []), t'.active,
                    if e.Completion? then multiset{e.c} else multiset{},
                    multiset(DirectLog(t', rest)), multiset(ReleasedLog(t', rest)), Run(t', rest).active,
                    Completions(rest));
    }
  }

  /** Queued commands are dispatched once each, in the order in which they were queued, and are then active. */
  lemma {:induction false} QueueIsFifo(t: Tasks, es: seq<Event>)
    requires Runs(t, es)
    ensures t.queue + QueuedLog(t, es) == ReleasedLog(t, es) + Run(t, es).queue
    ensures multiset(ReleasedLog(t, es)) <= Run(t, es).active + Completions(es)
    decreases |es|
  {
    DispatchedAreActive(t, es);
    if es != [] {
      var t', rest := Next(t, es[0]), es[1..];
      QueueIsFifo(t', rest);
      var waits := if es[0].Arrival? && !Enabled(t, es[0].c) then [es[0].c] else [];
      var goes := if es[0].Completion? then Released(Retire(t, es[0].c)) else [];
      if es[0].Completion? {
        DrainReleases(Retire(t, es[0].c));
      }
      Regroup(t.queue, waits, t'.queue, QueuedLog(t', rest), goes, ReleasedLog(t', rest), Run(t', rest).queue);
    }
  }

  // ---- what the flag remembers ----

  /** A command is dispatched, or finishes. */
  datatype Mark = Started(c: Cmd) | Ended(c: Cmd)

  function Starts(cs: seq<Cmd>): seq<Mark>
  {
    if cs == [] then [] else [Started(cs[0])] + Starts(cs[1..])
  }

  /** The dispatches and completions of a run, in order. */
  function History(t: Tasks, es: seq<Event>): seq<Mark>
    requires Runs(t, es)
    decreases |es|
  {
    if es == [] then []
    else
      var c := es[0].c;
      (if es[0].Completion? then [Ended(c)] + Starts(Released(Retire(t, c)))
       else if Enabled(t, c) then [Started(c)] else [])
      + History(Next(t, es[0]), es[1..])
  }

  /** The latest mark of an ORDERED or HEAD OF QUEUE command is a dispatch; `before` if there is none. */
  predicate SpecialLast(ms: seq<Mark>, before: bool)
  {
    if ms == [] then before
    else SpecialLast(ms[1..], if ms[0].c.Special() then ms[0].Started? else before)
  }

  lemma {:induction false} SpecialAppend(a: seq<Mark>, b: seq<Mark>, before: bool)
    ensures SpecialLast(a + b, before) == SpecialLast(b, SpecialLast(a, before))
  {
    if a == [] {
      assert a + b == b;
    } else {
      SpecialAppend(a[1..], b, if a[0].c.Special() then a[0].Started? else before);
      assert (a + b)[1..] == a[1..] + b;
    }
  }

  lemma {:induction false} DrainFlag(t: Tasks)
    ensures Drain(t).blocked == SpecialLast(Starts(Released(t)), t.blocked)
    decreases |t.queue|
  {
    if t.queue != [] && Enabled(t, t.queue[0]) {
      DrainFlag(Dispatch(t.(queue := t.queue[1..]), t.queue[0]));
      assert Starts(Released(t))[1..] == Starts(Released(t)[1..]);
    }
  }

  /** Over every run: the set is blocked if and only if the latest dispatch or completion of an ORDERED or HEAD OF QUEUE
      command was a dispatch. */
  lemma {:induction false} FlagRemembers(t: Tasks, es: seq<Event>)
    requires Runs(t, es)
    ensures Run(t, es).blocked == SpecialLast(History(t, es), t.blocked)
    decreases |es|
  {
    if es != [] {
      var c, t', rest := es[0].c, Next(t, es[0]), es[1..];
      FlagRemembers(t', rest);
      var now := if es[0].Completion? then [Ended(c)] + Starts(Released(Retire(t, c)))
                 else if Enabled(t, c) then [Started(c)] else [];
      SpecialAppend(now, History(t', rest), t.blocked);
      if es[0].Completion? {
        DrainFlag(Retire(t, c));
        assert now[1..] == Starts(Released(Retire(t, c)));
      }
    }
  }

  /** So after every run, a HEAD OF QUEUE command is dispatched on arrival, a SIMPLE one if and only if no special
      command was dispatched since one last finished, and an ORDERED one if moreover nothing is active. */
  lemma ArrivalDecides(es: seq<Event>, c: Cmd)
    requires Runs(IDLE, es)
    ensures var t := Run(IDLE, es);
            && (c in Arrive(t, c).active && Arrive(t, c).queue == t.queue <==>
                  || c.attr == Head
                  || (!SpecialLast(History(IDLE, es), false) && (c.attr == Simple || t.active == multiset{})))
            && (Arrive(t, c).queue != t.queue ==> Arrive(t, c) == t.(queue := t.queue + [c]))
  {
    FlagRemembers(IDLE, es);
  }

  // ---- progress ----

  /** While any command is unfinished, some command is active, so a completion can happen. */
  lemma NeverStuck(t: Tasks)
    requires Inv(t) && t.Load() > 0
    ensures exists c :: c in t.active
  {
    if t.queue != [] {
      QueueWaitsForActive(t);
    }
    var c :| c in t.active;
  }

  lemma FinishShrinks(t: Tasks, c: Cmd)
    requires Inv(t) && c in t.active
    ensures Finish(t, c).Load() == t.Load() - 1
  {
    FinishKeepsInv(t, c);
    assert Finish(t, c).Load() == |Finish(t, c).All()|;
    assert t.Load() == |t.All()| && c in t.All();
  }

  /** Completions alone finish the task set in exactly as many steps as it holds commands. */
  lemma {:induction false} CompletionsDrain(t: Tasks, es: seq<Event>)
    requires Inv(t) && Runs(t, es) && forall e | e in es :: e.Completion?
    ensures |es| + Run(t, es).Load() == t.Load()
    ensures |es| == t.Load() ==> Run(t, es).active == multiset{} && Run(t, es).queue == []
    decreases |es|
  {
    if es != [] {
      assert es[0] in es;
      FinishKeepsInv(t, es[0].c);
      FinishShrinks(t, es[0].c);
      CompletionsDrain(Next(t, es[0]), es[1..]);
    }
  }

  // ---- ordering ----

  /** Without HEAD OF QUEUE commands, an active ORDERED command is alone and blocks the rest. */
  predicate OrderedAlone(t: Tasks)
  {
    && (forall c | c in t.All() :: c.attr != Head)
    && (forall c | c in t.active && c.attr == Ordered :: t.active == multiset{c} && t.blocked)
  }

  lemma DispatchAlone(t: Tasks, c: Cmd)
    requires Enabled(t, c) && c.attr != Head
    requires forall d | d in t.active && d.attr == Ordered :: t.active == multiset{d} && t.blocked
    ensures var t' := Dispatch(t, c);
            forall d | d in t'.active && d.attr == Ordered :: t'.active == multiset{d} && t'.blocked
  {
    if c.attr == Ordered {
      assert t.active == multiset{};
    }
  }

  lemma {:induction false} DrainAlone(t: Tasks)
    requires OrderedAlone(t)
    ensures OrderedAlone(Drain(t))
    decreases |t.queue|
  {
    if t.queue != [] && Enabled(t, t.queue[0]) {
      var t' := Dispatch(t.(queue := t.queue[1..]), t.queue[0]);
      assert t.queue == [t.queue[0]] + t.queue[1..];
      assert t.queue[0] in t.All() && t'.All() == t.All();
      DispatchAlone(t.(queue := t.queue[1..]), t.queue[0]);
      DrainAlone(t');
    }
  }

  lemma {:induction false} OrderedRunsAlone(t: Tasks, es: seq<Event>)
    requires Runs(t, es) && OrderedAlone(t)
    requires forall e | e in es :: e.c.attr != Head
    ensures OrderedAlone(Run(t, es))
    decreases |es|
  {
    if es != [] {
      var c := es[0].c;
      if es[0].Arrival? {
        if Enabled(t, c) {
          DispatchAlone(t, c);
        }
      } else {
        var t' := Retire(t, c);
        forall d | d in t'.active
          ensures d.attr != Ordered
        {
          assert d in t.active;
        }
        DrainAlone(t');
      }
      OrderedRunsAlone(Next(t, es[0]), es[1..]);
    }
  }

  /** A new command passes waiting ones exactly when it is HEAD OF QUEUE, or SIMPLE behind an ORDERED command that is
      itself only waiting for active ones. */
  lemma OvertakesIff(t: Tasks, c: Cmd)
    requires Inv(t) && t.queue != []
    ensures c in Arrive(t, c).active - t.active <==>
      c.attr == Head || (c.attr == Simple && t.queue[0].attr == Ordered && !t.blocked)
  {
    assert t.queue[0] in t.queue;
    QueueWaitsForActive(t);
  }

  /** So arrival order is not kept between an ORDERED command and a later SIMPLE one. */
  lemma SimpleOvertakesOrdered(a: Cmd, b: Cmd, c: Cmd)
    requires a.attr == Simple && b.attr == Ordered && c.attr == Simple
    ensures var t := Arrive(Arrive(Arrive(IDLE, a), b), c);
            t.active == multiset{a, c} && t.queue == [b]
  {
    assert Arrive(IDLE, a).active == multiset{a};
  }

  // ---- HEAD OF QUEUE and the one flag ----

  predicate HasOrdered(m: multiset<Cmd>)
  {
    exists c | c in m :: c.attr == Ordered
  }

  /** An ORDERED and a SIMPLE command are active together. */
  predicate Mixed(t: Tasks)
  {
    HasOrdered(t.active) && exists c | c in t.active :: c.attr == Simple
  }

  /** The steps that bring it about: the flag is down, or goes down with a HEAD command, while an ORDERED command is
      still active, and a SIMPLE command arrives or heads the queue. */
  predicate Mixes(t: Tasks, e: Event)
  {
    match e
    case Arrival(c) => c.attr == Simple && !t.blocked && HasOrdered(t.active)
    case Completion(c) =>
      HasOrdered(t.active - multiset{c}) && (!t.blocked || c.Special()) && t.queue != [] && t.queue[0].attr == Simple
  }

  lemma {:induction false} DrainUnmixed(t: Tasks)
    requires !HasOrdered(t.active) && forall c | c in t.queue :: c.attr != Head
    ensures !Mixed(Drain(t))
    decreases |t.queue|
  {
    if t.queue != [] && Enabled(t, t.queue[0]) {
      var c, t' := t.queue[0], Dispatch(t.(queue := t.queue[1..]), t.queue[0]);
      if c.attr == Ordered {
        assert t.active == multiset{} && t'.active == multiset{c};
        assert t'.queue != [] ==> t'.queue[0] in t.queue;
        assert Drain(t') == t';
      } else {
        DrainUnmixed(t');
      }
    }
  }

  lemma DrainBeside(t: Tasks)
    requires HasOrdered(t.active) && forall c | c in t.queue :: c.attr != Head
    ensures if !t.blocked && t.queue != [] && t.queue[0].attr == Simple then Mixed(Drain(t)) else Drain(t) == t
  {
    if t.queue != [] {
      assert t.queue[0] in t.queue;
      var o :| o in t.active && o.attr == Ordered;
      assert t.active == (t.active - multiset{o}) + multiset{o};
      if !t.blocked && t.queue[0].attr == Simple {
        DrainDispatches(t);
        assert Released(t)[0] == t.queue[0];
        assert t.queue[0] in multiset(Released(t)) && o in Drain(t).active;
      }
    }
  }

  /** A step lets a SIMPLE command run beside an ORDERED one if and only if it is one of those. */
  lemma MixesIff(t: Tasks, e: Event)
    requires Inv(t) && Possible(t, e) && !Mixed(t)
    ensures Mixed(Next(t, e)) <==> Mixes(t, e)
  {
    match e
    case Arrival(c) =>
      if Enabled(t, c) {
        var t' := Dispatch(t, c);
        assert c in t'.active && forall d | d in t'.active :: d in t.active || d == c;
        assert forall d | d in t.active :: d in t'.active;
      }
    case Completion(c) =>
      var t' := Retire(t, c);
      assert forall d | d in t'.active :: d in t.active;
      if HasOrdered(t'.active) {
        DrainBeside(t');
      } else {
        DrainUnmixed(t');
      }
  }

  ghost predicate NeverMixed(t: Tasks, es: seq<Event>)
    requires Runs(t, es)
    decreases |es|
  {
    !Mixed(t) && (es != [] ==> NeverMixed(Next(t, es[0]), es[1..]))
  }

  ghost predicate NoMixingStep(t: Tasks, es: seq<Event>)
    requires Runs(t, es)
    decreases |es|
  {
    es != [] ==> !Mixes(t, es[0]) && NoMixingStep(Next(t, es[0]), es[1..])
  }

  /** Over a run no SIMPLE command is ever active with an ORDERED one if and only if the run has no such step. */
  lemma {:induction false} NeverMixedIff(t: Tasks, es: seq<Event>)
    requires Inv(t) && Runs(t, es) && !Mixed(t)
    ensures NeverMixed(t, es) <==> NoMixingStep(t, es)
    decreases |es|
  {
    if es != [] {
      MixesIff(t, es[0]);
      if es[0].Arrival? {
        ArriveKeepsInv(t, es[0].c);
      } else {
        FinishKeepsInv(t, es[0].c);
      }
      if !Mixes(t, es[0]) {
        NeverMixedIff(Next(t, es[0]), es[1..]);
      }
    }
  }

  /** It happens: ORDERED, then HEAD OF QUEUE, which finishes, then SIMPLE. */
  lemma HeadLetsSimpleIn(o: Cmd, h: Cmd, c: Cmd)
    requires o.attr == Ordered && h.attr == Head && c.attr == Simple
    ensures var t := Arrive(Arrive(IDLE, o), h);
      h in t.active && Arrive(Finish(t, h), c).active == multiset{o, c}
  {
    var t := Arrive(Arrive(IDLE, o), h);
    assert t == Tasks(multiset{o, h}, true, []);
    assert multiset{o, h} - multiset{h} == multiset{o};
    assert Retire(t, h) == Tasks(multiset{o}, false, []);
  }
}
