/** What each operation on a target answers, and what an administrator or initiator sees of it afterwards. */
module LifetimeLaws {
  import opened TaskSet
  import opened Lifetimes

  /** The units keep their tasks and reservations. */
  ghost predicate UnitsKept(t: Target, t': Target)
  {
    && t'.devices.Keys == t.devices.Keys
    && forall l | l in t.devices ::
         t'.devices[l].tasks == t.devices[l].tasks && t'.devices[l].reserveId == t.devices[l].reserveId
  }

  /** The nexuses keep their commands. */
  ghost predicate NexusesKept(t: Target, t': Target)
  {
    t'.nexuses.Keys == t.nexuses.Keys && forall i | i in t.nexuses :: t'.nexuses[i].cmds == t.nexuses[i].cmds
  }

  /** A nexus is created if and only if its number is not zero and new; it then has no command, and nothing else has
      changed. */
  lemma CreateNexusLaw(t: Target, id: nat)
    ensures var (t', code) := CreateNexus(t, id);
            && (code == Ok <==> id != 0 && id !in t.nexuses)
            && (code == Invalid <==> id == 0)
            && (code == Ok ==>
                  && id in t'.nexuses && t'.nexuses[id].cmds == multiset{}
                  && NexusesKept(t, t'.(nexuses := t'.nexuses - {id})) && UnitsKept(t, t'))
            && (code != Ok ==> t' == t)
  {
  }

  /** A nexus is removed if and only if it exists and has no command; its reservations go, everybody else's stay. */
  lemma DestroyNexusLaw(t: Target, id: nat)
    ensures var (t', code) := DestroyNexus(t, id);
            && (code == Ok <==> id in t.nexuses && t.nexuses[id].cmds == multiset{})
            && (code == NotFound <==> id !in t.nexuses)
            && (code == Ok ==>
                  && t'.nexuses == t.nexuses - {id} && t'.devices.Keys == t.devices.Keys
                  && forall l | l in t.devices ::
                       && t'.devices[l].tasks == t.devices[l].tasks
                       && t'.devices[l].reserveId == if t.devices[l].reserveId == id then 0 else t.devices[l].reserveId)
            && (code != Ok ==> t' == t)
  {
  }

  /** A unit is created if and only if its number is new; it is then idle and not reserved, and nothing else has
      changed. */
  lemma CreateLuLaw(t: Target, lun: nat)
    ensures var (t', code) := CreateLu(t, lun);
            && (code == Ok <==> lun !in t.devices)
            && (code == Ok ==>
                  && lun in t'.devices && t'.devices[lun].tasks == IDLE && t'.devices[lun].reserveId == 0
                  && t'.devices - {lun} == t.devices && NexusesKept(t, t'))
            && (code != Ok ==> t' == t)
  {
    assert lun !in t.devices ==> CreateLu(t, lun).0.devices - {lun} == t.devices;
  }

  /** A unit is removed if and only if it is not LUN 0, exists, and has no command, active or queued. */
  lemma DestroyLuLaw(t: Target, lun: nat)
    ensures var (t', code) := DestroyLu(t, lun);
            && (code == Ok <==> && lun != 0 && lun in t.devices && t.devices[lun].tasks.active == multiset{}
                                && t.devices[lun].tasks.queue == [])
            && (code == Invalid <==> lun == 0)
            && (code == Ok ==> t'.devices == t.devices - {lun} && NexusesKept(t, t'))
            && (code != Ok ==> t' == t)
  {
  }

  /** A command is accepted if and only if its nexus exists. It is then one more command of its nexus and of the unit
      that it names, or of LUN 0 if there is none, and no other nexus or unit has changed. */
  lemma SubmitLaw(t: Target, id: nat, lun: nat, tag: nat, attr: Attribute)
    requires 0 in t.devices
    ensures var (t', code) := Submit(t, id, lun, tag, attr);
            var l := if lun in t.devices then lun else 0;
            var c := Cmd(tag, attr, id, l);
            && (code == Ok <==> id in t.nexuses)
            && (code == Ok ==>
                  && CmdsOf(t', id) == CmdsOf(t, id) + multiset{c} && TasksOf(t', l) == TasksOf(t, l) + multiset{c}
                  && (forall i | i != id :: CmdsOf(t', i) == CmdsOf(t, i))
                  && (forall m | m != l :: TasksOf(t', m) == TasksOf(t, m))
                  && (c in t'.devices[l].tasks.active || c in t'.devices[l].tasks.queue))
            && (code != Ok ==> t' == t)
  {
    if id in t.nexuses {
      var l := if lun in t.devices then lun else 0;
      ArriveKeepsAll(t.devices[l].tasks, Cmd(tag, attr, id, l));
    }
  }

  /** A completed command is one less of its nexus and of its unit, and no other has changed. */
  lemma CompleteLaw(t: Target, c: Cmd)
    requires Active(t, c) && c.nexus in t.nexuses
    ensures var t' := Complete(t, c);
            && CmdsOf(t', c.nexus) == CmdsOf(t, c.nexus) - multiset{c}
            && TasksOf(t', c.lun) == TasksOf(t, c.lun) - multiset{c}
            && (forall i | i != c.nexus :: CmdsOf(t', i) == CmdsOf(t, i))
            && (forall m | m != c.lun :: TasksOf(t', m) == TasksOf(t, m))
  {
    FinishKeepsAll(t.devices[c.lun].tasks, c);
  }

  /** RESERVE succeeds if and only if nobody else has the unit; whoever has it keeps it through the others' RESERVE and
      RELEASE and loses it with its own RELEASE, or with a forced one, after which anybody can have it. */
  lemma ReserveLaw(t: Target, a: nat, b: nat, lun: nat, force: bool)
    requires lun in t.devices && a != 0 && b != 0 && a != b
    ensures Reserve(t, a, lun).1 == Ok <==> t.devices[lun].reserveId in {0, a}
    ensures var (t', code) := Reserve(t, a, lun);
            code == Ok ==>
              && t'.devices[lun].reserveId == a && UnitsKept(t, t'.(devices := t'.devices[lun := t.devices[lun]]))
              && Reserve(t', b, lun) == (t', Busy) && Reserve(t', a, lun) == (t', Ok)
              && (Release(t', b, lun, force) == t' <==> !force)
              && Reserve(Release(t', a, lun, force), b, lun).1 == Ok
    ensures Reserve(t, a, lun).1 != Ok ==> Reserve(t, a, lun).0 == t
  {
    var t' := Reserve(t, a, lun).0;
    assert t'.devices[lun := t'.devices[lun]] == t'.devices;
  }

  // ---- over runs ----

  /** The event adds command c, or takes it away. */
  predicate Adds(t: Target, e: Lifetimes.Event, c: Cmd)
  {
    && e.CmdArrived? && e.id in t.nexuses
    && c == Cmd(e.tag, e.attr, e.id, if e.lun in t.devices then e.lun else 0)
  }

  predicate Takes(e: Lifetimes.Event, c: Cmd)
  {
    e.CmdCompleted? && e.c == c
  }

  function Count(b: bool): nat { if b then 1 else 0 }

  lemma ArrivalCounts(t: Target, e: Lifetimes.Event, c: Cmd)
    requires 0 in t.devices && e.CmdArrived?
    ensures Served(Submit(t, e.id, e.lun, e.tag, e.attr).0, c) == Served(t, c) + Count(Adds(t, e, c))
  {
    SubmitLaw(t, e.id, e.lun, e.tag, e.attr);
  }

  lemma CompletionCounts(t: Target, d: Cmd, c: Cmd)
    requires Active(t, d) && d.nexus in t.nexuses
    ensures Served(Complete(t, d), c) + Count(c == d) == Served(t, c)
  {
    CompleteLaw(t, d);
    assert d in TasksOf(t, d.lun);
  }

  lemma RemovalCounts(t: Target, lun: nat, c: Cmd)
    ensures Served(DestroyLu(t, lun).0, c) == Served(t, c)
  {
    DestroyLuLaw(t, lun);
    if DestroyLu(t, lun).1 == Ok && c.lun == lun {
      assert t.devices[lun].tasks.All() == multiset{};
    }
  }

  lemma OtherCounts(t: Target, e: Lifetimes.Event, c: Cmd)
    requires Defined(t, e) && !e.CmdArrived? && !e.CmdCompleted? && !e.LuDestroyed?
    ensures Served(Lifetimes.Next(t, e), c) == Served(t, c)
  {
    var t' := Lifetimes.Next(t, e);
    assert c.lun in t.devices ==> c.lun in t'.devices && t'.devices[c.lun].tasks == t.devices[c.lun].tasks;
    assert c.lun !in t.devices && c.lun in t'.devices ==> t'.devices[c.lun].tasks == IDLE;
  }

  lemma OneEvent(t: Target, e: Lifetimes.Event, c: Cmd)
    requires Lifetimes.Inv(t) && Defined(t, e)
    ensures Served(Lifetimes.Next(t, e), c) + Count(Takes(e, c)) == Served(t, c) + Count(Adds(t, e, c))
  {
    match e
    case CmdArrived(_, _, _, _) => ArrivalCounts(t, e, c);
    case CmdCompleted(d) => CompletionCounts(t, d, c);
    case LuDestroyed(lun) => RemovalCounts(t, lun, c);
    case _ => OtherCounts(t, e, c);
  }

  function Added(t: Target, es: seq<Lifetimes.Event>, c: Cmd): nat
    decreases |es|
  {
    if es == [] || !Defined(t, es[0]) then 0
    else Count(Adds(t, es[0], c)) + Added(Lifetimes.Next(t, es[0]), es[1..], c)
  }

  function Taken(t: Target, es: seq<Lifetimes.Event>, c: Cmd): nat
    decreases |es|
  {
    if es == [] || !Defined(t, es[0]) then 0
    else Count(Takes(es[0], c)) + Taken(Lifetimes.Next(t, es[0]), es[1..], c)
  }

  /** Over every run of creations, removals, arrivals, completions and reservations: a command is with its unit as often
      as it was accepted more than it completed, and its nexus lists it as often. */
  lemma {:induction false} CommandsConserved(t: Target, es: seq<Lifetimes.Event>, c: Cmd)
    requires Lifetimes.Inv(t)
    ensures Served(RunAll(t, es), c) + Taken(t, es, c) == Served(t, c) + Added(t, es, c)
    ensures Listed(RunAll(t, es), c) == Served(RunAll(t, es), c)
    decreases |es|
  {
    if es != [] && Defined(t, es[0]) {
      OneEvent(t, es[0], c);
      Lifetimes.NextKeepsInv(t, es[0]);
      CommandsConserved(Lifetimes.Next(t, es[0]), es[1..], c);
    }
  }

  /** The events that end a's reservation of a unit. */
  predicate EndsReservation(e: Lifetimes.Event, a: nat, lun: nat)
  {
    match e
    case NexusDestroyed(id) => id == a
    case LuDestroyed(l) => l == lun
    case Released(id, l, force) => l == lun && (force || id == a)
    case _ => false
  }

  /** Nobody else gets the unit while a has it. */
  ghost predicate Keeps(t: Target, es: seq<Lifetimes.Event>, a: nat, lun: nat)
    decreases |es|
  {
    && lun in t.devices && t.devices[lun].reserveId == a
    && (es != [] && Defined(t, es[0]) ==>
          && (es[0].Reserved? && es[0].c.lun == lun ==>
                (Reserve(t, es[0].c.nexus, lun).1 == Ok <==> es[0].c.nexus == a))
          && Keeps(Lifetimes.Next(t, es[0]), es[1..], a, lun))
  }

  /** Over every run without an event that ends it, the reservation stands, and no other nexus's RESERVE succeeds. */
  lemma {:induction false} ReservationOverRuns(t: Target, es: seq<Lifetimes.Event>, a: nat, lun: nat)
    requires a != 0 && lun in t.devices && t.devices[lun].reserveId == a
    requires forall i | 0 <= i < |es| :: !EndsReservation(es[i], a, lun)
    ensures Keeps(t, es, a, lun)
    decreases |es|
  {
    if es != [] && Defined(t, es[0]) {
      assert !EndsReservation(es[0], a, lun);
      ReservationOverRuns(Lifetimes.Next(t, es[0]), es[1..], a, lun);
    }
  }
}
