/** A target's lists and command queues, changed record by record. */
module TargetLists {
  import opened TaskSet
  import opened Lifetimes
  import CmdQueue

  /** A walk over a list that changes each entry, and notes which entries it met. */
  method Walk<T>(m: map<nat, T>, f: T -> T) returns (r: map<nat, T>, met: multiset<nat>)
    ensures r.Keys == m.Keys && (forall k | k in m :: r[k] == f(m[k])) && met == multiset(m.Keys)
  {
    r, met := map[], multiset{};
    var rest := m.Keys;
    while rest != {}
      invariant rest <= m.Keys && r.Keys == m.Keys - rest
      invariant forall k | k in r :: r[k] == f(m[k])
      invariant forall k :: met[k] == if k in m.Keys - rest then 1 else 0
      decreases |rest|
    {
      var k :| k in rest;
      r, met, rest := r[k := f(m[k])], met + multiset{k}, rest - {k};
    }
  }

  // ---- the list of units, by number ----

  predicate Sorted(order: seq<nat>)
  {
    forall i, j | 0 <= i < j < |order| :: order[i] < order[j]
  }

  /** The walk of tgt_device_create: before the first unit with a greater number. */
  method InsertSorted(order: seq<nat>, lun: nat) returns (r: seq<nat>)
    requires Sorted(order) && lun !in order
    ensures Sorted(r) && forall l :: l in r <==> l in order || l == lun
  {
    var k := 0;
    while k < |order| && order[k] <= lun
      invariant 0 <= k <= |order| && forall i | 0 <= i < k :: order[i] < lun
    {
      assert order[k] in order;
      k := k + 1;
    }
    r := order[..k] + [lun] + order[k..];
    forall l
      ensures l in r <==> l in order || l == lun
    {
      assert order == order[..k] + order[k..];
    }
  }

  /** list_del of a unit's entry */
  method RemoveSorted(order: seq<nat>, lun: nat) returns (r: seq<nat>)
    requires Sorted(order) && lun in order
    ensures Sorted(r) && forall l :: l in r <==> l in order && l != lun
  {
    var k := 0;
    while order[k] != lun
      invariant 0 <= k < |order| && lun in order[k..]
      decreases |order| - k
    {
      assert order[k..] == [order[k]] + order[k + 1..];
      k := k + 1;
    }
    r := order[..k] + order[k + 1..];
    forall l
      ensures l in r <==> l in order && l != lun
    {
      assert order == order[..k] + [order[k]] + order[k + 1..];
      assert l in order[..k] ==> l < lun;
      assert l in order[k + 1..] ==> lun < l;
    }
  }

  /** device_list holds exactly the units, by number. */
  ghost predicate InOrder(order: seq<nat>, units: set<nat>)
  {
    Sorted(order) && forall l :: l in order <==> l in units
  }

  lemma FirstIsZero(order: seq<nat>, units: set<nat>)
    requires InOrder(order, units) && 0 in units
    ensures order != [] && order[0] == 0
  {
    assert 0 in order;
  }

  // ---- units ----

  /** A unit with its command queue. */
  datatype Unit = Unit(infos: multiset<nat>, reserveId: nat, activeCmd: nat, blocked: bool, queue: seq<Cmd>)

  type Actives = map<nat, multiset<Cmd>>

  function TasksIn(u: Unit, active: multiset<Cmd>): Tasks { Tasks(active, u.blocked, u.queue) }

  function Join(u: Unit, active: multiset<Cmd>): Lu { Lu(u.infos, TasksIn(u, active), u.reserveId) }

  function Combine(units: map<nat, Unit>, actives: Actives): (r: map<nat, Lu>)
    requires units.Keys == actives.Keys
    ensures r.Keys == units.Keys
  {
    map l | l in units :: Join(units[l], actives[l])
  }

  function Whole(nexuses: map<nat, Itn>, units: map<nat, Unit>, actives: Actives): Target
    requires units.Keys == actives.Keys
  {
    Target(nexuses, Combine(units, actives))
  }

  /** Every unit counts its active commands. */
  ghost predicate Counted(units: map<nat, Unit>, actives: Actives)
  {
    units.Keys == actives.Keys && forall l | l in units :: units[l].activeCmd == |actives[l]|
  }

  lemma PutUnit(units: map<nat, Unit>, actives: Actives, l: nat, u: Unit, active: multiset<Cmd>)
    requires Counted(units, actives) && u.activeCmd == |active|
    ensures Counted(units[l := u], actives[l := active])
    ensures Combine(units[l := u], actives[l := active]) == Combine(units, actives)[l := Join(u, active)]
  {
  }

  lemma DropUnit(units: map<nat, Unit>, actives: Actives, l: nat)
    requires Counted(units, actives)
    ensures Counted(units - {l}, actives - {l})
    ensures Combine(units - {l}, actives - {l}) == Combine(units, actives) - {l}
  {
  }

  // ---- walks over the lists ----

  function Link(u: Unit, id: nat): Unit { u.(infos := u.infos + multiset{id}) }

  function Unlink(u: Unit, id: nat): Unit
  {
    u.(infos := u.infos - multiset{id}, reserveId := if u.reserveId == id then 0 else u.reserveId)
  }

  lemma LinkJoined(u: Unit, active: multiset<Cmd>, id: nat)
    ensures Join(Link(u, id), active) == Join(u, active).(infos := u.infos + multiset{id})
  {
  }

  lemma UnlinkJoined(u: Unit, active: multiset<Cmd>, id: nat)
    ensures Join(Unlink(u, id), active) == Forget(Join(u, active), id)
  {
  }

  lemma LinkCombined(units: map<nat, Unit>, actives: Actives, linked: map<nat, Unit>, id: nat)
    requires units.Keys == actives.Keys == linked.Keys && forall l | l in units :: linked[l] == Link(units[l], id)
    ensures Combine(linked, actives) == LinkUnits(Combine(units, actives), id)
  {
    var a, b := Combine(linked, actives), LinkUnits(Combine(units, actives), id);
    forall l | l in units
      ensures a[l] == b[l]
    {
      LinkJoined(units[l], actives[l], id);
    }
    assert a.Keys == b.Keys;
  }

  lemma UnlinkCombined(units: map<nat, Unit>, actives: Actives, unlinked: map<nat, Unit>, id: nat)
    requires units.Keys == actives.Keys == unlinked.Keys
    requires forall l | l in units :: unlinked[l] == Unlink(units[l], id)
    ensures Combine(unlinked, actives) == UnlinkUnits(Combine(units, actives), id)
  {
    var a, b := Combine(unlinked, actives), UnlinkUnits(Combine(units, actives), id);
    forall l | l in units
      ensures a[l] == b[l]
    {
      UnlinkJoined(units[l], actives[l], id);
    }
    assert a.Keys == b.Keys;
  }

  /** The walk of it_nexus_create over the units: one record per unit. */
  method LinkAll(units: map<nat, Unit>, id: nat, ghost actives: Actives)
    returns (linked: map<nat, Unit>, infos: multiset<nat>)
    requires Counted(units, actives)
    ensures Counted(linked, actives) && linked.Keys == units.Keys && infos == multiset(units.Keys)
    ensures Combine(linked, actives) == LinkUnits(Combine(units, actives), id)
  {
    linked, infos := Walk(units, (u: Unit) => Link(u, id));
    LinkCombined(units, actives, linked, id);
  }

  /** The walk of it_nexus_destroy over the units: the nexus's reservation and record go. */
  method UnlinkAll(units: map<nat, Unit>, id: nat, ghost actives: Actives) returns (unlinked: map<nat, Unit>)
    requires Counted(units, actives)
    ensures Counted(unlinked, actives) && unlinked.Keys == units.Keys
    ensures Combine(unlinked, actives) == UnlinkUnits(Combine(units, actives), id)
  {
    var met: multiset<nat>;
    unlinked, met := Walk(units, (u: Unit) => Unlink(u, id));
    UnlinkCombined(units, actives, unlinked, id);
  }

  /** The walks of tgt_device_create and tgt_device_destroy over the nexuses. */
  method LinkToAll(nexuses: map<nat, Itn>, lun: nat) returns (linked: map<nat, Itn>, infos: multiset<nat>)
    ensures linked == LinkNexuses(nexuses, lun) && infos == multiset(nexuses.Keys)
  {
    linked, infos := Walk(nexuses, (itn: Itn) => itn.(infos := itn.infos + multiset{lun}));
  }

  method UnlinkFromAll(nexuses: map<nat, Itn>, lun: nat) returns (unlinked: map<nat, Itn>)
    ensures unlinked == UnlinkNexuses(nexuses, lun)
  {
    var met: multiset<nat>;
    unlinked, met := Walk(nexuses, (itn: Itn) => itn.(infos := itn.infos - multiset{lun}));
  }

  // ---- a unit's queue ----

  /** target_cmd_perform on a unit's own queue */
  method Perform(u: Unit, ghost active: multiset<Cmd>, c: Cmd) returns (r: Unit, ghost now: multiset<Cmd>)
    requires u.activeCmd == |active| && TaskSet.Inv(TasksIn(u, active))
    ensures r.activeCmd == |now| && Join(r, now) == Join(u, active).(tasks := Arrive(TasksIn(u, active), c))
  {
    var q := new CmdQueue.Queue.Of(u.activeCmd, u.blocked, u.queue, active);
    var _ := q.Perform(c);
    r, now := u.(activeCmd := q.activeCmd, blocked := q.blocked, queue := q.queue), q.active;
  }

  /** __cmd_done on a unit's own queue */
  method Done(u: Unit, ghost active: multiset<Cmd>, c: Cmd) returns (r: Unit, ghost now: multiset<Cmd>)
    requires u.activeCmd == |active| && TaskSet.Inv(TasksIn(u, active)) && c in active
    ensures r.activeCmd == |now| && Join(r, now) == Join(u, active).(tasks := Finish(TasksIn(u, active), c))
  {
    var q := new CmdQueue.Queue.Of(u.activeCmd, u.blocked, u.queue, active);
    var _ := q.Done(c);
    r, now := u.(activeCmd := q.activeCmd, blocked := q.blocked, queue := q.queue), q.active;
  }

  // ---- the specification's operations, on the parts ----

  lemma DestroyNexusWhole(nexuses: map<nat, Itn>, units: map<nat, Unit>, actives: Actives, id: nat,
                          unlinked: map<nat, Unit>)
    requires units.Keys == actives.Keys == unlinked.Keys
    requires Combine(unlinked, actives) == UnlinkUnits(Combine(units, actives), id)
    requires id in nexuses && nexuses[id].cmds == multiset{}
    ensures DestroyNexus(Whole(nexuses, units, actives), id) == (Whole(nexuses - {id}, unlinked, actives), Ok)
  {
  }

  lemma CreateLuWhole(nexuses: map<nat, Itn>, units: map<nat, Unit>, actives: Actives, lun: nat, u: Unit)
    requires Counted(units, actives) && lun !in units && u == Unit(multiset(nexuses.Keys), 0, 0, false, [])
    ensures Counted(units[lun := u], actives[lun := multiset{}])
    ensures CreateLu(Whole(nexuses, units, actives), lun) ==
            (Whole(LinkNexuses(nexuses, lun), units[lun := u], actives[lun := multiset{}]), Ok)
  {
    PutUnit(units, actives, lun, u, multiset{});
  }

  lemma DestroyLuWhole(nexuses: map<nat, Itn>, units: map<nat, Unit>, actives: Actives, lun: nat)
    requires Counted(units, actives) && lun in units && lun != 0
    ensures Counted(units - {lun}, actives - {lun})
    ensures DestroyLu(Whole(nexuses, units, actives), lun) ==
            if units[lun].queue != [] || units[lun].activeCmd != 0 then (Whole(nexuses, units, actives), Busy)
            else (Whole(UnlinkNexuses(nexuses, lun), units - {lun}, actives - {lun}), Ok)
  {
    DropUnit(units, actives, lun);
  }

  lemma SubmitWhole(nexuses: map<nat, Itn>, units: map<nat, Unit>, actives: Actives, c: Cmd, lun: nat, u: Unit,
                    active: multiset<Cmd>)
    requires Counted(units, actives) && 0 in units && c.nexus in nexuses && u.activeCmd == |active|
    requires c.lun == if lun in units then lun else 0
    requires Join(u, active) == Join(units[c.lun], actives[c.lun]).(
                                  tasks := Arrive(TasksIn(units[c.lun], actives[c.lun]), c))
    ensures Counted(units[c.lun := u], actives[c.lun := active])
    ensures Submit(Whole(nexuses, units, actives), c.nexus, lun, c.tag, c.attr) ==
            (Whole(nexuses[c.nexus := nexuses[c.nexus].(cmds := nexuses[c.nexus].cmds + multiset{c})],
                   units[c.lun := u], actives[c.lun := active]), Ok)
  {
    PutUnit(units, actives, c.lun, u, active);
  }

  lemma CompleteWhole(nexuses: map<nat, Itn>, units: map<nat, Unit>, actives: Actives, c: Cmd, u: Unit,
                      active: multiset<Cmd>)
    requires Counted(units, actives) && c.nexus in nexuses && u.activeCmd == |active|
    requires Active(Whole(nexuses, units, actives), c)
    requires Join(u, active) == Join(units[c.lun], actives[c.lun]).(
                                  tasks := Finish(TasksIn(units[c.lun], actives[c.lun]), c))
    ensures Counted(units[c.lun := u], actives[c.lun := active])
    ensures Complete(Whole(nexuses, units, actives), c) ==
            Whole(nexuses[c.nexus := nexuses[c.nexus].(cmds := nexuses[c.nexus].cmds - multiset{c})],
                  units[c.lun := u], actives[c.lun := active])
  {
    PutUnit(units, actives, c.lun, u, active);
  }

  lemma PutReserveId(units: map<nat, Unit>, actives: Actives, lun: nat, id: nat)
    requires Counted(units, actives) && lun in units
    ensures Counted(units[lun := units[lun].(reserveId := id)], actives)
    ensures Combine(units[lun := units[lun].(reserveId := id)], actives) ==
            Combine(units, actives)[lun := Join(units[lun], actives[lun]).(reserveId := id)]
  {
    PutUnit(units, actives, lun, units[lun].(reserveId := id), actives[lun]);
    assert actives[lun := actives[lun]] == actives;
  }

  lemma ReserveWhole(nexuses: map<nat, Itn>, units: map<nat, Unit>, actives: Actives, id: nat, lun: nat)
    requires Counted(units, actives) && lun in units
    ensures Counted(units[lun := units[lun].(reserveId := id)], actives)
    ensures Reserve(Whole(nexuses, units, actives), id, lun) ==
            if units[lun].reserveId != 0 && units[lun].reserveId != id then (Whole(nexuses, units, actives), Busy)
            else (Whole(nexuses, units[lun := units[lun].(reserveId := id)], actives), Ok)
  {
    PutReserveId(units, actives, lun, id);
  }

  lemma ReleaseWhole(nexuses: map<nat, Itn>, units: map<nat, Unit>, actives: Actives, id: nat, lun: nat, force: bool)
    requires Counted(units, actives) && lun in units
    ensures Counted(units[lun := units[lun].(reserveId := 0)], actives)
    ensures Release(Whole(nexuses, units, actives), id, lun, force) ==
            if force || units[lun].reserveId == id then
              Whole(nexuses, units[lun := units[lun].(reserveId := 0)], actives)
            else Whole(nexuses, units, actives)
  {
    PutReserveId(units, actives, lun, 0);
  }

  // ---- nexuses and units that come and go ----

  /** The lists after it_nexus_destroy: the nexus goes unless it has commands. */
  method RemoveNexus(nexuses: map<nat, Itn>, units: map<nat, Unit>, id: nat, ghost actives: Actives)
    returns (left: map<nat, Itn>, unlinked: map<nat, Unit>, code: Code)
    requires Counted(units, actives)
    ensures Counted(unlinked, actives) && unlinked.Keys == units.Keys
    ensures (Whole(left, unlinked, actives), code) == DestroyNexus(Whole(nexuses, units, actives), id)
  {
    if id !in nexuses {
      return nexuses, units, NotFound;
    }
    if nexuses[id].cmds != multiset{} {
      return nexuses, units, Busy;
    }
    unlinked := UnlinkAll(units, id, actives);
    DestroyNexusWhole(nexuses, units, actives, id, unlinked);
    left, code := nexuses - {id}, Ok;
  }

  /** The lists after tgt_device_create of a new unit. */
  method AddUnit(nexuses: map<nat, Itn>, order: seq<nat>, units: map<nat, Unit>, lun: nat, ghost actives: Actives)
    returns (linked: map<nat, Itn>, inserted: seq<nat>, more: map<nat, Unit>, ghost now: Actives)
    requires Counted(units, actives) && InOrder(order, units.Keys) && 0 in units && lun !in units
    ensures Counted(more, now) && InOrder(inserted, more.Keys) && 0 in more
    ensures (Whole(linked, more, now), Ok) == CreateLu(Whole(nexuses, units, actives), lun)
  {
    var infos: multiset<nat>;
    linked, infos := LinkToAll(nexuses, lun);
    var u := Unit(infos, 0, 0, false, []);
    CreateLuWhole(nexuses, units, actives, lun, u);
    inserted := InsertSorted(order, lun);
    more, now := units[lun := u], actives[lun := multiset{}];
  }

  /** The lists after tgt_device_destroy of an idle unit. */
  method RemoveUnit(nexuses: map<nat, Itn>, order: seq<nat>, units: map<nat, Unit>, lun: nat, ghost actives: Actives)
    returns (unlinked: map<nat, Itn>, removed: seq<nat>)
    requires Counted(units, actives) && InOrder(order, units.Keys) && lun in units && lun != 0
    requires units[lun].queue == [] && units[lun].activeCmd == 0
    ensures Counted(units - {lun}, actives - {lun}) && InOrder(removed, (units - {lun}).Keys)
    ensures DestroyLu(Whole(nexuses, units, actives), lun) == (Whole(unlinked, units - {lun}, actives - {lun}), Ok)
  {
    unlinked := UnlinkFromAll(nexuses, lun);
    removed := RemoveSorted(order, lun);
    DestroyLuWhole(nexuses, units, actives, lun);
  }

  // ---- the target ----

  class TargetState {
    var nexuses: map<nat, Itn>
    var order: seq<nat>           // device_list
    var units: map<nat, Unit>
    ghost var actives: Actives

    ghost predicate Valid()
      reads this
    {
      Counted(units, actives) && 0 in units && InOrder(order, units.Keys)
    }

    ghost function View(): Target
      requires Valid()
      reads this
    {
      Whole(nexuses, units, actives)
    }

    constructor ()
      ensures Valid() && View() == NEW_TARGET && Lifetimes.Inv(View())
    {
      nexuses, order, units := map[], [0], map[0 := Unit(multiset{}, 0, 0, false, [])];
      actives := map[0 := multiset{}];
      new;
      assert Combine(units, actives) == NEW_TARGET.devices;
      NewTargetInv();
    }

    /** it_nexus_create */
    method ItNexusCreate(id: nat) returns (code: Code)
      requires Valid()
      modifies this
      ensures Valid() && (View(), code) == CreateNexus(old(View()), id)
    {
      if id == 0 {
        return Invalid;
      }
      if id in nexuses {
        return Exists;
      }
      var linked, infos := LinkAll(units, id, actives);
      units, nexuses := linked, nexuses[id := Itn(infos, multiset{})];
      return Ok;
    }

    /** it_nexus_destroy */
    method ItNexusDestroy(id: nat) returns (code: Code)
      requires Valid()
      modifies this
      ensures Valid() && (View(), code) == DestroyNexus(old(View()), id)
    {
      nexuses, units, code := RemoveNexus(nexuses, units, id, actives);
    }

    /** tgt_device_create, as far as the lists go */
    method DeviceCreate(lun: nat) returns (code: Code)
      requires Valid()
      modifies this
      ensures Valid() && (View(), code) == CreateLu(old(View()), lun)
    {
      if lun in units {
        return Exists;
      }
      nexuses, order, units, actives := AddUnit(nexuses, order, units, lun, actives);
      return Ok;
    }

    /** tgt_device_destroy, as far as the lists go */
    method DeviceDestroy(lun: nat) returns (code: Code)
      requires Valid()
      modifies this
      ensures Valid() && (View(), code) == DestroyLu(old(View()), lun)
    {
      if lun == 0 {
        return Invalid;
      }
      if lun !in units {
        return NotFound;
      }
      if units[lun].queue != [] || units[lun].activeCmd != 0 {
        DestroyLuWhole(nexuses, units, actives, lun);
        return Busy;
      }
      nexuses, order := RemoveUnit(nexuses, order, units, lun, actives);
      units, actives := units - {lun}, actives - {lun};
      return Ok;
    }

    /** target_cmd_queue: a command for an unknown unit goes to the first of the list, which is LUN 0. */
    method TargetCmdQueue(id: nat, lun: nat, tag: nat, attr: Attribute) returns (code: Code)
      requires Valid() && UnitsOk(View())
      modifies this
      ensures Valid() && (View(), code) == Submit(old(View()), id, lun, tag, attr)
    {
      if id !in nexuses {
        return NotFound;
      }
      FirstIsZero(order, units.Keys);
      var c := Cmd(tag, attr, id, if lun in units then lun else order[0]);
      var u: Unit;
      ghost var active;
      u, active := Perform(units[c.lun], actives[c.lun], c);
      SubmitWhole(nexuses, units, actives, c, lun, u, active);
      nexuses := nexuses[id := nexuses[id].(cmds := nexuses[id].cmds + multiset{c})];
      units, actives := units[c.lun := u], actives[c.lun := active];
      return Ok;
    }

    /** target_cmd_done */
    method TargetCmdDone(c: Cmd)
      requires Valid() && UnitsOk(View()) && Active(View(), c) && c.nexus in nexuses
      modifies this
      ensures Valid() && View() == Complete(old(View()), c)
    {
      var u: Unit;
      ghost var active;
      u, active := Done(units[c.lun], actives[c.lun], c);
      CompleteWhole(nexuses, units, actives, c, u, active);
      nexuses := nexuses[c.nexus := nexuses[c.nexus].(cmds := nexuses[c.nexus].cmds - multiset{c})];
      units, actives := units[c.lun := u], actives[c.lun := active];
    }

    /** device_reserve, for a command that the unit serves */
    method DeviceReserve(id: nat, lun: nat) returns (code: Code)
      requires Valid() && lun in units
      modifies this
      ensures Valid() && (View(), code) == Reserve(old(View()), id, lun)
    {
      ReserveWhole(nexuses, units, actives, id, lun);
      if units[lun].reserveId != 0 && units[lun].reserveId != id {
        return Busy;
      }
      units := units[lun := units[lun].(reserveId := id)];
      return Ok;
    }

    /** device_release */
    method DeviceRelease(id: nat, lun: nat, force: bool)
      requires Valid()
      modifies this
      ensures Valid() && View() == Release(old(View()), id, lun, force)
    {
      if lun in units {
        ReleaseWhole(nexuses, units, actives, id, lun, force);
        if force || units[lun].reserveId == id {
          units := units[lun := units[lun].(reserveId := 0)];
        }
      }
    }

    method Handle(e: Lifetimes.Event)
      requires Valid() && Lifetimes.Inv(View()) && Lifetimes.Possible(View(), e)
      modifies this
      ensures Valid() && Lifetimes.Inv(View())
      ensures Defined(old(View()), e) && View() == Lifetimes.Next(old(View()), e)
    {
      NextKeepsInv(View(), e);
      match e {
        case NexusCreated(id) => var _ := ItNexusCreate(id);
        case NexusDestroyed(id) => var _ := ItNexusDestroy(id);
        case LuCreated(lun) => var _ := DeviceCreate(lun);
        case LuDestroyed(lun) => var _ := DeviceDestroy(lun);
        case CmdArrived(id, lun, tag, attr) => var _ := TargetCmdQueue(id, lun, tag, attr);
        case CmdCompleted(c) => TargetCmdDone(c);
        case Reserved(c) => var _ := DeviceReserve(c.nexus, c.lun);
        case Released(id, lun, force) => DeviceRelease(id, lun, force);
      }
    }

    /** A target through a whole run of events: the object stays as the specification says, so at the end there is one
        record per nexus and unit on both lists, every command of a queue has its nexus, and every reservation too. */
    method HandleAll(es: seq<Lifetimes.Event>)
      requires Valid() && Lifetimes.Inv(View()) && PossibleRun(View(), es)
      modifies this
      ensures Valid() && Lifetimes.Inv(View()) && View() == RunAll(old(View()), es)
    {
      ghost var end := RunAll(View(), es);
      var i := 0;
      assert es[0..] == es;
      while i < |es|
        invariant 0 <= i <= |es| && Valid() && Lifetimes.Inv(View())
        invariant PossibleRun(View(), es[i..]) && RunAll(View(), es[i..]) == end
      {
        assert es[i..][1..] == es[i + 1..];
        Handle(es[i]);
        i := i + 1;
      }
    }
  }
}
