/** Nexuses, logical units, the record kept for each pair of them, and the commands in flight. */
module Lifetimes {
  import opened TaskSet

  /** `infos` is itn_itl_info_list, by logical unit number; `cmds` is cmd_list. */
  datatype Itn = Itn(infos: multiset<nat>, cmds: multiset<Cmd>)

  /** `infos` is lu_itl_info_list, by nexus; reserveId is the legacy reservation, 0 for none. */
  datatype Lu = Lu(infos: multiset<nat>, tasks: Tasks, reserveId: nat)

  datatype Target = Target(nexuses: map<nat, Itn>, devices: map<nat, Lu>)

  datatype Code = Ok | Invalid | Exists | NotFound | Busy

  // ---- operations ----

  /** The lists with a record for nexus `id` on every unit, and without. */
  function LinkUnits(devices: map<nat, Lu>, id: nat): map<nat, Lu>
  {
    map l | l in devices :: devices[l].(infos := devices[l].infos + multiset{id})
  }

  function UnlinkUnits(devices: map<nat, Lu>, id: nat): map<nat, Lu>
  {
    map l | l in devices :: Forget(devices[l], id)
  }

  /** The lists with a record for unit `lun` on every nexus, and without. */
  function LinkNexuses(nexuses: map<nat, Itn>, lun: nat): map<nat, Itn>
  {
    map i | i in nexuses :: nexuses[i].(infos := nexuses[i].infos + multiset{lun})
  }

  function UnlinkNexuses(nexuses: map<nat, Itn>, lun: nat): map<nat, Itn>
  {
    map i | i in nexuses :: nexuses[i].(infos := nexuses[i].infos - multiset{lun})
  }

  /** it_nexus_create */
  function CreateNexus(t: Target, id: nat): (Target, Code)
  {
    if id == 0 then (t, Invalid)
    else if id in t.nexuses then (t, Exists)
    else
      (Target(t.nexuses[id := Itn(multiset(t.devices.Keys), multiset{})], LinkUnits(t.devices, id)), Ok)
  }

  /** it_nexus_destroy */
  function DestroyNexus(t: Target, id: nat): (Target, Code)
  {
    if id !in t.nexuses then (t, NotFound)
    else if t.nexuses[id].cmds != multiset{} then (t, Busy)
    else (Target(t.nexuses - {id}, UnlinkUnits(t.devices, id)), Ok)
  }

  function Forget(lu: Lu, id: nat): Lu
  {
    lu.(infos := lu.infos - multiset{id}, reserveId := if lu.reserveId == id then 0 else lu.reserveId)
  }

  /** tgt_device_create, as far as the lists go */
  function CreateLu(t: Target, lun: nat): (Target, Code)
  {
    if lun in t.devices then (t, Exists)
    else
      (Target(LinkNexuses(t.nexuses, lun),
              t.devices[lun := Lu(multiset(t.nexuses.Keys), IDLE, 0)]), Ok)
  }

  /** tgt_device_destroy without force: LUN 0 stays. */
  function DestroyLu(t: Target, lun: nat): (Target, Code)
  {
    if lun == 0 then (t, Invalid)
    else if lun !in t.devices then (t, NotFound)
    else if t.devices[lun].tasks.Load() != 0 then (t, Busy)
    else
      (Target(UnlinkNexuses(t.nexuses, lun), t.devices - {lun}), Ok)
  }

  /** target_cmd_queue: an unknown logical unit is served by LUN 0. */
  function ServingLun(t: Target, lun: nat): nat
  {
    if lun in t.devices then lun else 0
  }

  function Submit(t: Target, id: nat, lun: nat, tag: nat, attr: Attribute): (Target, Code)
    requires 0 in t.devices
  {
    if id !in t.nexuses then (t, NotFound)
    else
      var l := ServingLun(t, lun);
      var c := Cmd(tag, attr, id, l);
      (Target(t.nexuses[id := t.nexuses[id].(cmds := t.nexuses[id].cmds + multiset{c})],
              t.devices[l := t.devices[l].(tasks := Arrive(t.devices[l].tasks, c))]), Ok)
  }

  predicate Active(t: Target, c: Cmd)
  {
    c.lun in t.devices && c in t.devices[c.lun].tasks.active
  }

  /** target_cmd_done */
  function Complete(t: Target, c: Cmd): Target
    requires Active(t, c) && c.nexus in t.nexuses
  {
    Target(t.nexuses[c.nexus := t.nexuses[c.nexus].(cmds := t.nexuses[c.nexus].cmds - multiset{c})],
           t.devices[c.lun := t.devices[c.lun].(tasks := Finish(t.devices[c.lun].tasks, c))])
  }

  /** device_reserve, for a command of nexus `id` that unit `lun` is serving */
  function Reserve(t: Target, id: nat, lun: nat): (Target, Code)
    requires lun in t.devices
  {
    var lu := t.devices[lun];
    if lu.reserveId != 0 && lu.reserveId != id then (t, Busy)
    else (t.(devices := t.devices[lun := lu.(reserveId := id)]), Ok)
  }

  /** device_release */
  function Release(t: Target, id: nat, lun: nat, force: bool): Target
  {
    if lun !in t.devices then t
    else
      var lu := t.devices[lun];
      if force || lu.reserveId == id then t.(devices := t.devices[lun := lu.(reserveId := 0)]) else t
  }

  // ---- the invariant ----

  /** How many records link nexus i and unit l, in the nexus's list and in the unit's. */
  function NexusInfos(t: Target, i: nat, l: nat): nat
  {
    if i in t.nexuses then t.nexuses[i].infos[l] else 0
  }

  function UnitInfos(t: Target, i: nat, l: nat): nat
  {
    if l in t.devices then t.devices[l].infos[i] else 0
  }

  /** One record per nexus and unit, in both lists. */
  ghost predicate InfosOk(t: Target)
  {
    && (forall i, l :: NexusInfos(t, i, l) == if i in t.nexuses && l in t.devices then 1 else 0)
    && (forall i, l :: UnitInfos(t, i, l) == if i in t.nexuses && l in t.devices then 1 else 0)
  }

  /** The commands that unit l is serving or holding back. */
  function TasksOf(t: Target, l: nat): multiset<Cmd>
  {
    if l in t.devices then t.devices[l].tasks.All() else multiset{}
  }

  /** The commands on nexus i's list. */
  function CmdsOf(t: Target, i: nat): multiset<Cmd>
  {
    if i in t.nexuses then t.nexuses[i].cmds else multiset{}
  }

  /** How often command c is in its unit's task set, and on its nexus's list. */
  function Served(t: Target, c: Cmd): nat { TasksOf(t, c.lun)[c] }

  function Listed(t: Target, c: Cmd): nat { CmdsOf(t, c.nexus)[c] }

  /** Each unit's tasks are its own, each nexus's commands are its own, and the two agree on every command. */
  ghost predicate CmdsOk(t: Target)
  {
    && (forall i, c :: c in CmdsOf(t, i) ==> c.nexus == i)
    && (forall l, c :: c in TasksOf(t, l) ==> c.lun == l)
    && (forall c :: Served(t, c) == Listed(t, c))
  }

  predicate UnitsOk(t: Target)
  {
    forall l | l in t.devices :: TaskSet.Inv(t.devices[l].tasks)
  }

  predicate ReservationsOk(t: Target)
  {
    forall l | l in t.devices :: t.devices[l].reserveId == 0 || t.devices[l].reserveId in t.nexuses
  }

  ghost predicate Inv(t: Target)
  {
    0 in t.devices && 0 !in t.nexuses && InfosOk(t) && CmdsOk(t) && UnitsOk(t) && ReservationsOk(t)
  }

  // ---- what the invariant gives ----

  /** A command in a task set, waiting or active, belongs to a nexus that still exists and still lists it. */
  lemma NoDanglingCommand(t: Target, l: nat, c: Cmd)
    requires CmdsOk(t) && l in t.devices && c in t.devices[l].tasks.All()
    ensures c.lun == l && c.nexus in t.nexuses && c in t.nexuses[c.nexus].cmds
  {
    assert c in TasksOf(t, l);
    assert Served(t, c) == Listed(t, c);
  }

  /** it_nexus_lu_info_lookup finds exactly one record for the unit that serves any command. */
  lemma LookupFinds(t: Target, id: nat, lun: nat)
    requires Inv(t) && id in t.nexuses
    ensures t.nexuses[id].infos[ServingLun(t, lun)] == 1
    ensures t.devices[ServingLun(t, lun)].infos[id] == 1
  {
    assert NexusInfos(t, id, ServingLun(t, lun)) == 1 && UnitInfos(t, id, ServingLun(t, lun)) == 1;
  }

  // ---- how the command lists may change ----

  /** Command n's count changes by d in the unit that serves it and in the nexus that sent it, and nothing else does. */
  lemma CmdsChanged(t: Target, t': Target, n: Cmd, d: int)
    requires CmdsOk(t)
    requires forall l, c :: TasksOf(t', l)[c] == TasksOf(t, l)[c] + if l == n.lun && c == n then d else 0
    requires forall i, c :: CmdsOf(t', i)[c] == CmdsOf(t, i)[c] + if i == n.nexus && c == n then d else 0
    ensures CmdsOk(t')
  {
    forall c: Cmd
      ensures Served(t', c) == Listed(t', c)
    {
      assert Served(t, c) == Listed(t, c);
    }
    forall i, c | c in CmdsOf(t', i)
      ensures c.nexus == i
    {
      assert c in CmdsOf(t, i) || c == n;
    }
    forall l, c | c in TasksOf(t', l)
      ensures c.lun == l
    {
      assert c in TasksOf(t, l) || c == n;
    }
  }

  lemma CmdsSame(t: Target, t': Target)
    requires CmdsOk(t)
    requires forall l :: TasksOf(t', l) == TasksOf(t, l)
    requires forall i :: CmdsOf(t', i) == CmdsOf(t, i)
    ensures CmdsOk(t')
  {
    CmdsChanged(t, t', Cmd(0, Simple, 0, 0), 0);
  }

  // ---- every operation keeps the invariant ----

  lemma CreateNexusInfos(t: Target, id: nat)
    requires InfosOk(t) && CreateNexus(t, id).1 == Ok
    ensures InfosOk(CreateNexus(t, id).0)
  {
    var t' := CreateNexus(t, id).0;
    forall i, l
      ensures NexusInfos(t', i, l) == if i in t'.nexuses && l in t'.devices then 1 else 0
      ensures UnitInfos(t', i, l) == if i in t'.nexuses && l in t'.devices then 1 else 0
    {
      assert NexusInfos(t, i, l) == UnitInfos(t, i, l) == if i in t.nexuses && l in t.devices then 1 else 0;
    }
  }

  lemma CreateNexusCmds(t: Target, id: nat)
    requires CmdsOk(t) && CreateNexus(t, id).1 == Ok
    ensures CmdsOk(CreateNexus(t, id).0)
  {
    CmdsSame(t, CreateNexus(t, id).0);
  }

  lemma CreateNexusUnits(t: Target, id: nat)
    requires UnitsOk(t) && ReservationsOk(t)
    ensures UnitsOk(CreateNexus(t, id).0) && ReservationsOk(CreateNexus(t, id).0)
  {
  }

  lemma CreateNexusKeeps(t: Target, id: nat)
    requires Inv(t)
    ensures Inv(CreateNexus(t, id).0)
  {
    if CreateNexus(t, id).1 == Ok {
      CreateNexusInfos(t, id);
      CreateNexusCmds(t, id);
      CreateNexusUnits(t, id);
    }
  }

  lemma DestroyNexusInfos(t: Target, id: nat)
    requires InfosOk(t) && DestroyNexus(t, id).1 == Ok
    ensures InfosOk(DestroyNexus(t, id).0)
  {
    var t' := DestroyNexus(t, id).0;
    forall i, l
      ensures NexusInfos(t', i, l) == if i in t'.nexuses && l in t'.devices then 1 else 0
      ensures UnitInfos(t', i, l) == if i in t'.nexuses && l in t'.devices then 1 else 0
    {
      assert NexusInfos(t, i, l) == UnitInfos(t, i, l) == if i in t.nexuses && l in t.devices then 1 else 0;
    }
  }

  lemma DestroyNexusCmds(t: Target, id: nat)
    requires CmdsOk(t) && DestroyNexus(t, id).1 == Ok
    ensures CmdsOk(DestroyNexus(t, id).0)
  {
    CmdsSame(t, DestroyNexus(t, id).0);
  }

  lemma DestroyNexusUnits(t: Target, id: nat)
    requires UnitsOk(t) && ReservationsOk(t)
    ensures UnitsOk(DestroyNexus(t, id).0) && ReservationsOk(DestroyNexus(t, id).0)
  {
  }

  lemma DestroyNexusKeeps(t: Target, id: nat)
    requires Inv(t)
    ensures Inv(DestroyNexus(t, id).0)
  {
    if DestroyNexus(t, id).1 == Ok {
      DestroyNexusInfos(t, id);
      DestroyNexusCmds(t, id);
      DestroyNexusUnits(t, id);
    }
  }

  lemma CreateLuInfos(t: Target, lun: nat)
    requires InfosOk(t) && CreateLu(t, lun).1 == Ok
    ensures InfosOk(CreateLu(t, lun).0)
  {
    var t' := CreateLu(t, lun).0;
    forall i, l
      ensures NexusInfos(t', i, l) == if i in t'.nexuses && l in t'.devices then 1 else 0
      ensures UnitInfos(t', i, l) == if i in t'.nexuses && l in t'.devices then 1 else 0
    {
      assert NexusInfos(t, i, l) == UnitInfos(t, i, l) == if i in t.nexuses && l in t.devices then 1 else 0;
    }
  }

  lemma CreateLuCmds(t: Target, lun: nat)
    requires CmdsOk(t) && CreateLu(t, lun).1 == Ok
    ensures CmdsOk(CreateLu(t, lun).0)
  {
    CmdsSame(t, CreateLu(t, lun).0);
  }

  lemma CreateLuUnits(t: Target, lun: nat)
    requires UnitsOk(t) && ReservationsOk(t)
    ensures UnitsOk(CreateLu(t, lun).0) && ReservationsOk(CreateLu(t, lun).0)
  {
  }

  lemma CreateLuKeeps(t: Target, lun: nat)
    requires Inv(t)
    ensures Inv(CreateLu(t, lun).0)
  {
    if CreateLu(t, lun).1 == Ok {
      CreateLuInfos(t, lun);
      CreateLuCmds(t, lun);
      CreateLuUnits(t, lun);
    }
  }

  lemma DestroyLuInfos(t: Target, lun: nat)
    requires InfosOk(t) && DestroyLu(t, lun).1 == Ok
    ensures InfosOk(DestroyLu(t, lun).0)
  {
    var t' := DestroyLu(t, lun).0;
    forall i, l
      ensures NexusInfos(t', i, l) == if i in t'.nexuses && l in t'.devices then 1 else 0
      ensures UnitInfos(t', i, l) == if i in t'.nexuses && l in t'.devices then 1 else 0
    {
      assert NexusInfos(t, i, l) == UnitInfos(t, i, l) == if i in t.nexuses && l in t.devices then 1 else 0;
    }
  }

  lemma DestroyLuCmds(t: Target, lun: nat)
    requires CmdsOk(t) && DestroyLu(t, lun).1 == Ok
    ensures CmdsOk(DestroyLu(t, lun).0)
  {
    assert TasksOf(t, lun) == multiset{};
    CmdsSame(t, DestroyLu(t, lun).0);
  }

  lemma DestroyLuUnits(t: Target, lun: nat)
    requires UnitsOk(t) && ReservationsOk(t)
    ensures UnitsOk(DestroyLu(t, lun).0) && ReservationsOk(DestroyLu(t, lun).0)
  {
  }

  lemma DestroyLuKeeps(t: Target, lun: nat)
    requires Inv(t)
    ensures Inv(DestroyLu(t, lun).0)
  {
    var (t', code) := DestroyLu(t, lun);
    if code == Ok {
      DestroyLuInfos(t, lun);
      DestroyLuCmds(t, lun);
      DestroyLuUnits(t, lun);
    }
  }

  /** An operation that leaves the sets of nexuses and units and every record where they are. */
  lemma InfosSame(t: Target, t': Target)
    requires InfosOk(t) && t'.nexuses.Keys == t.nexuses.Keys && t'.devices.Keys == t.devices.Keys
    requires forall i | i in t'.nexuses :: t'.nexuses[i].infos == t.nexuses[i].infos
    requires forall l | l in t'.devices :: t'.devices[l].infos == t.devices[l].infos
    ensures InfosOk(t')
  {
    forall i, l
      ensures NexusInfos(t', i, l) == if i in t'.nexuses && l in t'.devices then 1 else 0
      ensures UnitInfos(t', i, l) == if i in t'.nexuses && l in t'.devices then 1 else 0
    {
      assert NexusInfos(t, i, l) == UnitInfos(t, i, l) == if i in t.nexuses && l in t.devices then 1 else 0;
    }
  }

  /** An operation on one unit, which still satisfies what is required of a unit. */
  lemma UnitChanged(t: Target, t': Target, l: nat, lu: Lu)
    requires UnitsOk(t) && ReservationsOk(t) && t'.nexuses.Keys == t.nexuses.Keys && t'.devices == t.devices[l := lu]
    requires TaskSet.Inv(lu.tasks) && (lu.reserveId == 0 || lu.reserveId in t.nexuses)
    ensures UnitsOk(t') && ReservationsOk(t')
  {
  }

  lemma SubmitCmds(t: Target, id: nat, lun: nat, tag: nat, attr: Attribute)
    requires 0 in t.devices && id in t.nexuses && CmdsOk(t)
    ensures CmdsOk(Submit(t, id, lun, tag, attr).0)
  {
    var t', c := Submit(t, id, lun, tag, attr).0, Cmd(tag, attr, id, ServingLun(t, lun));
    forall l, d
      ensures TasksOf(t', l)[d] == TasksOf(t, l)[d] + if l == c.lun && d == c then 1 else 0
    {
      ArriveKeepsAll(t.devices[c.lun].tasks, c);
    }
    CmdsChanged(t, t', c, 1);
  }

  lemma SubmitUnits(t: Target, id: nat, lun: nat, tag: nat, attr: Attribute)
    requires 0 in t.devices && id in t.nexuses && UnitsOk(t) && ReservationsOk(t)
    ensures UnitsOk(Submit(t, id, lun, tag, attr).0) && ReservationsOk(Submit(t, id, lun, tag, attr).0)
  {
    var t', l := Submit(t, id, lun, tag, attr).0, ServingLun(t, lun);
    ArriveKeepsInv(t.devices[l].tasks, Cmd(tag, attr, id, l));
    UnitChanged(t, t', l, t'.devices[l]);
  }

  lemma SubmitKeeps(t: Target, id: nat, lun: nat, tag: nat, attr: Attribute)
    requires Inv(t)
    ensures Inv(Submit(t, id, lun, tag, attr).0)
  {
    if id in t.nexuses {
      InfosSame(t, Submit(t, id, lun, tag, attr).0);
      SubmitCmds(t, id, lun, tag, attr);
      SubmitUnits(t, id, lun, tag, attr);
    }
  }

  lemma Removed<T>(m: multiset<T>, n: T, x: T)
    requires n in m
    ensures (m - multiset{n})[x] == m[x] + if x == n then -1 else 0
  {
  }

  lemma CompleteTasks(t: Target, c: Cmd, l: nat, d: Cmd)
    requires Active(t, c) && c.nexus in t.nexuses
    ensures TasksOf(Complete(t, c), l)[d] == TasksOf(t, l)[d] + if l == c.lun && d == c then -1 else 0
  {
    FinishKeepsAll(t.devices[c.lun].tasks, c);
    Removed(t.devices[c.lun].tasks.All(), c, d);
  }

  lemma CompleteLists(t: Target, c: Cmd, i: nat, d: Cmd)
    requires Active(t, c) && c.nexus in t.nexuses && c in t.nexuses[c.nexus].cmds
    ensures CmdsOf(Complete(t, c), i)[d] == CmdsOf(t, i)[d] + if i == c.nexus && d == c then -1 else 0
  {
    Removed(t.nexuses[c.nexus].cmds, c, d);
  }

  lemma CompleteCmds(t: Target, c: Cmd)
    requires Active(t, c) && c.nexus in t.nexuses && CmdsOk(t)
    ensures CmdsOk(Complete(t, c))
  {
    NoDanglingCommand(t, c.lun, c);
    forall l, d
      ensures TasksOf(Complete(t, c), l)[d] == TasksOf(t, l)[d] + if l == c.lun && d == c then -1 else 0
    {
      CompleteTasks(t, c, l, d);
    }
    forall i, d
      ensures CmdsOf(Complete(t, c), i)[d] == CmdsOf(t, i)[d] + if i == c.nexus && d == c then -1 else 0
    {
      CompleteLists(t, c, i, d);
    }
    CmdsChanged(t, Complete(t, c), c, -1);
  }

  lemma CompleteUnits(t: Target, c: Cmd)
    requires Active(t, c) && c.nexus in t.nexuses && UnitsOk(t) && ReservationsOk(t)
    ensures UnitsOk(Complete(t, c)) && ReservationsOk(Complete(t, c))
  {
    FinishKeepsInv(t.devices[c.lun].tasks, c);
    UnitChanged(t, Complete(t, c), c.lun, Complete(t, c).devices[c.lun]);
  }

  lemma CompleteKeeps(t: Target, c: Cmd)
    requires Inv(t) && Active(t, c)
    ensures c.nexus in t.nexuses && Inv(Complete(t, c))
  {
    NoDanglingCommand(t, c.lun, c);
    InfosSame(t, Complete(t, c));
    CompleteCmds(t, c);
    CompleteUnits(t, c);
  }

  lemma ReserveIdCmds(t: Target, t': Target, lun: nat, id: nat)
    requires CmdsOk(t) && lun in t.devices
    requires t' == t.(devices := t.devices[lun := t.devices[lun].(reserveId := id)])
    ensures CmdsOk(t')
  {
    CmdsSame(t, t');
  }

  lemma ReserveIdKeeps(t: Target, t': Target, lun: nat, id: nat)
    requires Inv(t) && lun in t.devices && (id == 0 || id in t.nexuses)
    requires t' == t.(devices := t.devices[lun := t.devices[lun].(reserveId := id)])
    ensures Inv(t')
  {
    InfosSame(t, t');
    ReserveIdCmds(t, t', lun, id);
    UnitChanged(t, t', lun, t.devices[lun].(reserveId := id));
  }

  // ---- runs ----

  datatype Event =
    | NexusCreated(id: nat)
    | NexusDestroyed(id: nat)
    | LuCreated(lun: nat)
    | LuDestroyed(lun: nat)
    | CmdArrived(id: nat, lun: nat, tag: nat, attr: Attribute)
    | CmdCompleted(c: Cmd)
    | Reserved(c: Cmd)
    | Released(id: nat, lun: nat, force: bool)

  /** Completion, and a RESERVE command's effect, happen to active commands only. */
  predicate Possible(t: Target, e: Event)
  {
    match e
    case CmdCompleted(c) => Active(t, c)
    case Reserved(c) => Active(t, c)
    case _ => true
  }

  function Next(t: Target, e: Event): Target
    requires 0 in t.devices && Possible(t, e) && (e.CmdCompleted? ==> e.c.nexus in t.nexuses)
  {
    match e
    case NexusCreated(id) => CreateNexus(t, id).0
    case NexusDestroyed(id) => DestroyNexus(t, id).0
    case LuCreated(lun) => CreateLu(t, lun).0
    case LuDestroyed(lun) => DestroyLu(t, lun).0
    case CmdArrived(id, lun, tag, attr) => Submit(t, id, lun, tag, attr).0
    case CmdCompleted(c) => Complete(t, c)
    case Reserved(c) => Reserve(t, c.nexus, c.lun).0
    case Released(id, lun, force) => Release(t, id, lun, force)
  }

  /** Every event keeps the invariant; in particular a completed command's nexus is always still there. */
  lemma NextKeepsInv(t: Target, e: Event)
    requires Inv(t) && Possible(t, e)
    ensures e.CmdCompleted? ==> e.c.nexus in t.nexuses
    ensures Inv(Next(t, e))
  {
    match e
    case NexusCreated(id) => CreateNexusKeeps(t, id);
    case NexusDestroyed(id) => DestroyNexusKeeps(t, id);
    case LuCreated(lun) => CreateLuKeeps(t, lun);
    case LuDestroyed(lun) => DestroyLuKeeps(t, lun);
    case CmdArrived(id, lun, tag, attr) => SubmitKeeps(t, id, lun, tag, attr);
    case CmdCompleted(c) => CompleteKeeps(t, c);
    case Reserved(c) =>
      NoDanglingCommand(t, c.lun, c);
      if Next(t, e) != t {
        ReserveIdKeeps(t, Next(t, e), c.lun, c.nexus);
      }
    case Released(id, lun, force) =>
      if Next(t, e) != t {
        ReserveIdKeeps(t, Next(t, e), lun, 0);
      }
  }

  /** Every state of the run satisfies the invariant. */
  ghost predicate SafeRun(t: Target, es: seq<Event>)
    decreases |es|
  {
    Inv(t) &&
    (es != [] && Possible(t, es[0]) ==>
      (es[0].CmdCompleted? ==> es[0].c.nexus in t.nexuses) && SafeRun(Next(t, es[0]), es[1..]))
  }

  /** Over every run from a target with LUN 0, at every state: one record per pair in both lists, no command of a
      removed nexus or unit, and no reservation of a removed nexus. */
  lemma {:induction false} RunKeepsInv(t: Target, es: seq<Event>)
    requires Inv(t)
    ensures SafeRun(t, es)
    decreases |es|
  {
    if es != [] && Possible(t, es[0]) {
      NextKeepsInv(t, es[0]);
      RunKeepsInv(Next(t, es[0]), es[1..]);
    }
  }

  /** What an event needs to make sense. */
  predicate Defined(t: Target, e: Event)
  {
    0 in t.devices && Possible(t, e) && (e.CmdCompleted? ==> e.c.nexus in t.nexuses)
  }

  /** Only active commands complete or reserve. */
  ghost predicate PossibleRun(t: Target, es: seq<Event>)
    decreases |es|
  {
    es != [] ==> Possible(t, es[0]) && (Defined(t, es[0]) ==> PossibleRun(Next(t, es[0]), es[1..]))
  }

  function RunAll(t: Target, es: seq<Event>): Target
    decreases |es|
  {
    if es == [] || !Defined(t, es[0]) then t else RunAll(Next(t, es[0]), es[1..])
  }

  const NEW_TARGET := Target(map[], map[0 := Lu(multiset{}, IDLE, 0)])

  lemma NewTargetInv()
    ensures Inv(NEW_TARGET)
  {
    assert NEW_TARGET.nexuses.Keys == {};
    assert forall l :: TasksOf(NEW_TARGET, l) == multiset{};
  }
}
