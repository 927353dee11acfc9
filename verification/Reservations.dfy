/** Persistent reservations of one logical unit: registrations, one holder, and the access gate. */
module Reservations {
  import opened Options

  const GENERATIONS: nat := 0x1_0000_0000

  const LU_SCOPE: nat := 0
  const WRITE_EXCLUSIVE: nat := 1
  const EXCLUSIVE_ACCESS: nat := 3
  const WRITE_EXCLUSIVE_REGONLY: nat := 5
  const EXCLUSIVE_ACCESS_REGONLY: nat := 6
  const WRITE_EXCLUSIVE_ALLREG: nat := 7
  const EXCLUSIVE_ACCESS_ALLREG: nat := 8

  predicate ValidType(t: nat)
  {
    t == WRITE_EXCLUSIVE || t == EXCLUSIVE_ACCESS || t == WRITE_EXCLUSIVE_REGONLY ||
    t == EXCLUSIVE_ACCESS_REGONLY || t == WRITE_EXCLUSIVE_ALLREG || t == EXCLUSIVE_ACCESS_ALLREG
  }

  predicate AllRegistrants(t: nat)
  {
    t == WRITE_EXCLUSIVE_ALLREG || t == EXCLUSIVE_ACCESS_ALLREG
  }

  /** An I_T nexus is known by its identifier and its creation time. */
  datatype Nexus = Nexus(id: nat, ctime: int)

  datatype Registration = Registration(key: nat, nexus: Nexus, scope: nat, kind: nat)

  /** The holder pointer is represented by the nexus of the registration that it points to. */
  datatype State = State(regs: seq<Registration>, holder: Option<Nexus>, generation: nat)

  datatype Status = Good | Conflict | CheckCondition

  datatype Service =
    | Register(force: bool, resKey: nat, saKey: nat)
    | Reserve(scope: nat, kind: nat)
    | Release(resKey: nat, scope: nat, kind: nat)
    | Clear(resKey: nat)
    | Preempt(resKey: nat, saKey: nat, scope: nat, kind: nat)

  // ---- the registration list ----

  function Find(regs: seq<Registration>, n: Nexus): (r: Option<Registration>)
    ensures r.Some? ==> r.value in regs && r.value.nexus == n
    ensures r.None? ==> forall x | x in regs :: x.nexus != n
  {
    if regs == [] then None
    else if regs[0].nexus == n then Some(regs[0])
    else Find(regs[1..], n)
  }

  predicate KeyExists(regs: seq<Registration>, key: nat)
  {
    exists r | r in regs :: r.key == key
  }

  /** The list with every registration of n changed; with distinct nexuses that is one at most. */
  function Update(regs: seq<Registration>, n: Nexus, key: nat, scope: nat, kind: nat): (r: seq<Registration>)
    ensures |r| == |regs|
    ensures forall i :: 0 <= i < |regs| ==>
              r[i] == if regs[i].nexus == n then Registration(key, n, scope, kind) else regs[i]
  {
    seq(|regs|, i requires 0 <= i < |regs| =>
      if regs[i].nexus == n then Registration(key, n, scope, kind) else regs[i])
  }

  function Remove(regs: seq<Registration>, n: Nexus): (r: seq<Registration>)
    ensures forall x :: x in r <==> x in regs && x.nexus != n
  {
    if regs == [] then []
    else if regs[0].nexus == n then Remove(regs[1..], n)
    else [regs[0]] + Remove(regs[1..], n)
  }

  /** What PREEMPT leaves: the preempting nexus, and those whose key was not named. */
  function Survivors(regs: seq<Registration>, n: Nexus, saKey: nat, all: bool): (r: seq<Registration>)
    ensures forall x :: x in r <==> x in regs && (x.nexus == n || (x.key != saKey && !all))
  {
    if regs == [] then []
    else if regs[0].nexus != n && (regs[0].key == saKey || all) then Survivors(regs[1..], n, saKey, all)
    else [regs[0]] + Survivors(regs[1..], n, saKey, all)
  }

  // ---- the invariant ----

  predicate Distinct(regs: seq<Registration>)
  {
    forall i, j :: 0 <= i < j < |regs| ==> regs[i].nexus != regs[j].nexus
  }

  predicate NonzeroKeys(regs: seq<Registration>)
  {
    forall r | r in regs :: r.key != 0
  }

  /** The holder, if any, is a listed registration with a valid type and logical-unit scope. */
  predicate HolderOk(s: State)
  {
    s.holder.Some? ==>
      && Find(s.regs, s.holder.value).Some?
      && ValidType(Find(s.regs, s.holder.value).value.kind)
      && Find(s.regs, s.holder.value).value.scope == LU_SCOPE
  }

  predicate Inv(s: State)
  {
    Distinct(s.regs) && NonzeroKeys(s.regs) && HolderOk(s) && s.generation < GENERATIONS
  }

  function HolderReg(s: State): (r: Registration)
    requires s.holder.Some? && HolderOk(s)
    ensures r in s.regs && r.nexus == s.holder.value
  {
    Find(s.regs, s.holder.value).value
  }

  /** is_pr_holder: every registrant holds an all-registrants reservation. */
  predicate IsHolder(s: State, n: Nexus)
    requires s.holder.Some? && HolderOk(s)
  {
    AllRegistrants(HolderReg(s).kind) || s.holder.value == n
  }

  function Bump(g: nat): nat
  {
    (g + 1) % GENERATIONS
  }

  // ---- the service actions ----

  /** __unregister_and_clean */
  function Unregister(s: State, n: Nexus): State
    requires HolderOk(s)
  {
    var rest := Remove(s.regs, n);
    if s.holder.None? || !IsHolder(s, n) then s.(regs := rest)
    else
      var h := HolderReg(s);
      if !AllRegistrants(h.kind) || rest == [] then State(rest, None, Bump(s.generation))
      else
        var heir := rest[0];
        s.(regs := Update(rest, heir.nexus, heir.key, h.scope, h.kind), holder := Some(heir.nexus))
  }

  function DoRegister(s: State, n: Nexus, force: bool, resKey: nat, saKey: nat): (State, Status)
    requires HolderOk(s)
  {
    match Find(s.regs, n)
    case Some(r) =>
      if !force && r.key != resKey then (s, Conflict)
      else
        var s' := if saKey != 0 then s.(regs := Update(s.regs, n, saKey, r.scope, r.kind)) else Unregister(s, n);
        (s'.(generation := Bump(s'.generation)), Good)
    case None =>
      if !force && resKey != 0 then (s, Conflict)
      else
        var regs := if saKey != 0 then s.regs + [Registration(saKey, n, 0, 0)] else s.regs;
        (s.(regs := regs, generation := Bump(s.generation)), Good)
  }

  function DoReserve(s: State, n: Nexus, scope: nat, kind: nat): (State, Status)
    requires HolderOk(s)
  {
    if !ValidType(kind) || scope != LU_SCOPE then (s, CheckCondition)
    else match Find(s.regs, n)
      case None => (s, Conflict)
      case Some(r) =>
        if s.holder.Some? then
          var h := HolderReg(s);
          (s, if IsHolder(s, n) && h.kind == kind && h.scope == scope then Good else Conflict)
        else (s.(regs := Update(s.regs, n, r.key, scope, kind), holder := Some(n)), Good)
  }

  function DoRelease(s: State, n: Nexus, resKey: nat, scope: nat, kind: nat): (State, Status)
    requires HolderOk(s)
  {
    match Find(s.regs, n)
    case None => (s, Conflict)
    case Some(r) =>
      if s.holder.None? || !IsHolder(s, n) then (s, Good)
      else if resKey != r.key then (s, Conflict)
      else if HolderReg(s).scope != scope || HolderReg(s).kind != kind then (s, CheckCondition)
      else (s.(regs := Update(s.regs, n, r.key, 0, 0), holder := None), Good)
  }

  function DoClear(s: State, n: Nexus, resKey: nat): (State, Status)
  {
    match Find(s.regs, n)
    case None => (s, Conflict)
    case Some(r) =>
      if r.key != resKey then (s, Conflict) else (State([], None, Bump(s.generation)), Good)
  }

  /** An all-registrants reservation is preempted as a whole with a zero key. */
  predicate PreemptsAll(s: State, saKey: nat)
    requires HolderOk(s)
  {
    s.holder.Some? && AllRegistrants(HolderReg(s).kind) && saKey == 0
  }

  /** The preempting nexus becomes the holder. */
  predicate PreemptTakes(s: State, saKey: nat)
    requires HolderOk(s)
  {
    s.holder.Some? && if AllRegistrants(HolderReg(s).kind) then saKey == 0 else HolderReg(s).key == saKey
  }

  function DoPreempt(s: State, n: Nexus, resKey: nat, saKey: nat, scope: nat, kind: nat): (State, Status)
    requires HolderOk(s)
  {
    match Find(s.regs, n)
    case None => (s, Conflict)
    case Some(r) =>
      if r.key != resKey || (saKey != 0 && !KeyExists(s.regs, saKey)) then (s, Conflict)
      else
        if s.holder.Some? && !PreemptTakes(s, saKey) && saKey == 0 then (s, CheckCondition)
        else
          var takes := PreemptTakes(s, saKey);
          var regs := if takes then Update(s.regs, n, r.key, scope, kind) else s.regs;
          (State(Survivors(regs, n, saKey, PreemptsAll(s, saKey)), if takes then Some(n) else s.holder,
                 Bump(s.generation)), Good)
  }

  /** PERSISTENT RESERVE OUT; `wellFormed` is check_pr_out_basic_parameter. */
  function Step(s: State, n: Nexus, wellFormed: bool, c: Service): (State, Status)
    requires HolderOk(s)
  {
    if !wellFormed then (s, CheckCondition)
    else match c
      case Register(force, resKey, saKey) => DoRegister(s, n, force, resKey, saKey)
      case Reserve(scope, kind) => DoReserve(s, n, scope, kind)
      case Release(resKey, scope, kind) => DoRelease(s, n, resKey, scope, kind)
      case Clear(resKey) => DoClear(s, n, resKey)
      case Preempt(resKey, saKey, scope, kind) => DoPreempt(s, n, resKey, saKey, scope, kind)
  }

  // ---- list facts: with distinct nexuses, membership decides lookup ----

  lemma {:induction false} FindMember(regs: seq<Registration>, r: Registration)
    requires Distinct(regs) && r in regs
    ensures Find(regs, r.nexus) == Some(r)
  {
    if regs[0] == r {
    } else {
      var i :| 0 < i < |regs| && regs[i] == r;
      assert regs[1..][i - 1] == r;
      FindMember(regs[1..], r);
    }
  }

  lemma UpdateFacts(regs: seq<Registration>, n: Nexus, key: nat, scope: nat, kind: nat)
    requires Distinct(regs)
    ensures Distinct(Update(regs, n, key, scope, kind))
    ensures forall x :: x in Update(regs, n, key, scope, kind) <==>
              (x in regs && x.nexus != n) || (x == Registration(key, n, scope, kind) && Find(regs, n).Some?)
  {
    var u := Update(regs, n, key, scope, kind);
    forall x | x in regs && x.nexus != n
      ensures x in u
    {
      var i :| 0 <= i < |regs| && regs[i] == x;
      assert u[i] == x;
    }
    if Find(regs, n).Some? {
      var i :| 0 <= i < |regs| && regs[i] == Find(regs, n).value;
      assert u[i] == Registration(key, n, scope, kind);
    }
  }

  lemma {:induction false} RemoveDistinct(regs: seq<Registration>, n: Nexus)
    requires Distinct(regs)
    ensures Distinct(Remove(regs, n))
  {
    if regs != [] {
      RemoveDistinct(regs[1..], n);
      HeadDiffers(regs);
    }
  }

  lemma {:induction false} SurvivorsDistinct(regs: seq<Registration>, n: Nexus, saKey: nat, all: bool)
    requires Distinct(regs)
    ensures Distinct(Survivors(regs, n, saKey, all))
  {
    if regs != [] {
      SurvivorsDistinct(regs[1..], n, saKey, all);
      HeadDiffers(regs);
    }
  }

  lemma HeadDiffers(regs: seq<Registration>)
    requires Distinct(regs) && regs != []
    ensures forall x | x in regs[1..] :: x.nexus != regs[0].nexus
  {
  }

  // ---- the invariant over steps ----

  /** A PREEMPT that is carried out must not take the reservation with a type or scope that RESERVE would refuse,
      nor name the key of an all-registrants holder other than the sender. */
  predicate SafePreempt(s: State, n: Nexus, saKey: nat, scope: nat, kind: nat)
    requires HolderOk(s)
  {
    s.holder.Some? ==>
      if PreemptTakes(s, saKey) then ValidType(kind) && scope == LU_SCOPE
      else HolderReg(s).nexus == n || HolderReg(s).key != saKey
  }

  /** When PREEMPT is carried out: the sender is registered with the key it gives, the key to preempt is registered or
      zero, and it is zero only without a reservation or under an all-registrants one. */
  predicate PreemptProceeds(s: State, n: Nexus, resKey: nat, saKey: nat)
    requires HolderOk(s)
  {
    && Find(s.regs, n).Some? && Find(s.regs, n).value.key == resKey
    && (saKey != 0 ==> KeyExists(s.regs, saKey))
    && (saKey == 0 && s.holder.Some? ==> AllRegistrants(HolderReg(s).kind))
  }

  predicate Safe(s: State, n: Nexus, wellFormed: bool, c: Service)
    requires HolderOk(s)
  {
    wellFormed && c.Preempt? && PreemptProceeds(s, n, c.resKey, c.saKey) ==>
      SafePreempt(s, n, c.saKey, c.scope, c.kind)
  }

  lemma UnregisterKeepsInv(s: State, n: Nexus)
    requires Inv(s)
    ensures Inv(Unregister(s, n))
  {
    var rest := Remove(s.regs, n);
    RemoveDistinct(s.regs, n);
    if s.holder.Some? {
      var h := HolderReg(s);
      if !IsHolder(s, n) {
        FindMember(rest, h);
      } else if AllRegistrants(h.kind) && rest != [] {
        var heir := rest[0];
        FindMember(rest, heir);
        UpdateFacts(rest, heir.nexus, heir.key, h.scope, h.kind);
        FindMember(Unregister(s, n).regs, Registration(heir.key, heir.nexus, h.scope, h.kind));
      }
    }
  }

  lemma RegisterKeepsInv(s: State, n: Nexus, force: bool, resKey: nat, saKey: nat)
    requires Inv(s)
    ensures Inv(DoRegister(s, n, force, resKey, saKey).0)
  {
    var (s', status) := DoRegister(s, n, force, resKey, saKey);
    match Find(s.regs, n) {
      case Some(r) =>
        UnregisterKeepsInv(s, n);
        UpdateFacts(s.regs, n, saKey, r.scope, r.kind);
        if status == Good && saKey != 0 && s.holder.Some? {
          var h := HolderReg(s);
          FindMember(s.regs, r);
          FindMember(s'.regs, if h.nexus == n then Registration(saKey, n, r.scope, r.kind) else h);
        }
      case None =>
        if s.holder.Some? {
          FindMember(s'.regs, HolderReg(s));
        }
    }
  }

  lemma ReserveKeepsInv(s: State, n: Nexus, scope: nat, kind: nat)
    requires Inv(s)
    ensures Inv(DoReserve(s, n, scope, kind).0)
  {
    var (s', status) := DoReserve(s, n, scope, kind);
    if s' != s {
      var r := Find(s.regs, n).value;
      UpdateFacts(s.regs, n, r.key, scope, kind);
      FindMember(s'.regs, Registration(r.key, n, scope, kind));
    }
  }

  lemma ReleaseKeepsInv(s: State, n: Nexus, resKey: nat, scope: nat, kind: nat)
    requires Inv(s)
    ensures Inv(DoRelease(s, n, resKey, scope, kind).0)
  {
    var (s', status) := DoRelease(s, n, resKey, scope, kind);
    if s' != s {
      UpdateFacts(s.regs, n, Find(s.regs, n).value.key, 0, 0);
    }
  }

  lemma PreemptTaken(s: State, n: Nexus, resKey: nat, saKey: nat, scope: nat, kind: nat)
    requires Inv(s) && PreemptTakes(s, saKey) && DoPreempt(s, n, resKey, saKey, scope, kind).1 == Good
    ensures Inv(DoPreempt(s, n, resKey, saKey, scope, kind).0) <==> ValidType(kind) && scope == LU_SCOPE
  {
    var s' := DoPreempt(s, n, resKey, saKey, scope, kind).0;
    var r := Find(s.regs, n).value;
    var regs := Update(s.regs, n, r.key, scope, kind);
    UpdateFacts(s.regs, n, r.key, scope, kind);
    SurvivorsDistinct(regs, n, saKey, PreemptsAll(s, saKey));
    FindMember(s'.regs, Registration(r.key, n, scope, kind));
  }

  lemma PreemptLeft(s: State, n: Nexus, resKey: nat, saKey: nat, scope: nat, kind: nat)
    requires Inv(s) && !PreemptTakes(s, saKey) && DoPreempt(s, n, resKey, saKey, scope, kind).1 == Good
    ensures Inv(DoPreempt(s, n, resKey, saKey, scope, kind).0)
        <==> (s.holder.Some? ==> HolderReg(s).nexus == n || HolderReg(s).key != saKey)
  {
    var s' := DoPreempt(s, n, resKey, saKey, scope, kind).0;
    SurvivorsDistinct(s.regs, n, saKey, false);
    if s.holder.Some? {
      var h := HolderReg(s);
      if h in s'.regs {
        FindMember(s'.regs, h);
      } else {
        GoneHolder(s, s', h);
      }
    }
  }

  lemma PreemptKeepsInv(s: State, n: Nexus, resKey: nat, saKey: nat, scope: nat, kind: nat)
    requires Inv(s) && DoPreempt(s, n, resKey, saKey, scope, kind).1 == Good
    ensures Inv(DoPreempt(s, n, resKey, saKey, scope, kind).0) <==> SafePreempt(s, n, saKey, scope, kind)
  {
    if PreemptTakes(s, saKey) {
      PreemptTaken(s, n, resKey, saKey, scope, kind);
    } else {
      PreemptLeft(s, n, resKey, saKey, scope, kind);
    }
  }

  lemma PreemptGoodIff(s: State, n: Nexus, resKey: nat, saKey: nat, scope: nat, kind: nat)
    requires Inv(s)
    ensures DoPreempt(s, n, resKey, saKey, scope, kind).1 == Good <==> PreemptProceeds(s, n, resKey, saKey)
  {
    if s.holder.Some? {
      assert HolderReg(s) in s.regs;
    }
  }

  /** A registrant of an all-registrants reservation preempts the key of the one that the holder pointer names: the
      registration goes and the pointer stays. */
  lemma PreemptLosesHolder(a: Nexus, b: Nexus)
    requires a != b
    ensures var held := Registration(1, a, LU_SCOPE, WRITE_EXCLUSIVE_ALLREG);
            var s := State([held, Registration(2, b, 0, 0)], Some(a), 0);
            var (s', status) := DoPreempt(s, b, 2, 1, LU_SCOPE, WRITE_EXCLUSIVE);
            Inv(s) && status == Good && s'.holder == Some(a) && !HolderOk(s')
  {
    var ra, rb := Registration(1, a, LU_SCOPE, WRITE_EXCLUSIVE_ALLREG), Registration(2, b, 0, 0);
    assert [ra, rb][1..] == [rb] && [rb][1..] == [];
    assert Find([ra, rb], b) == Find([rb], b) == Some(rb);
    assert Survivors([ra, rb], b, 1, false) == Survivors([rb], b, 1, false) == [rb];
    assert Find([rb], a) == Find([], a);
  }

  /** A PREEMPT with a type that RESERVE would refuse takes the reservation over. */
  lemma PreemptTakesInvalidType(a: Nexus, b: Nexus)
    requires a != b
    ensures var s := State([Registration(1, a, LU_SCOPE, WRITE_EXCLUSIVE), Registration(2, b, 0, 0)], Some(a), 0);
            var (s', status) := DoPreempt(s, b, 2, 1, LU_SCOPE, 0);
            Inv(s) && status == Good && s'.holder == Some(b) && !HolderOk(s') && !ValidType(0)
  {
    var ra, rb := Registration(1, a, LU_SCOPE, WRITE_EXCLUSIVE), Registration(2, b, 0, 0);
    var taken := Registration(2, b, LU_SCOPE, 0);
    assert [ra, rb][1..] == [rb] && [rb][1..] == [] && [ra, taken][1..] == [taken] && [taken][1..] == [];
    assert Find([ra, rb], b) == Find([rb], b) == Some(rb);
    assert Update([ra, rb], b, 2, LU_SCOPE, 0) == [ra] + Update([rb], b, 2, LU_SCOPE, 0) == [ra, taken];
    assert Survivors([ra, taken], b, 1, false) == Survivors([taken], b, 1, false) == [taken];
    assert Find([taken], b) == Some(taken);
  }

  /** A holder that is no longer listed breaks the invariant. */
  lemma GoneHolder(s: State, s': State, h: Registration)
    requires Inv(s) && s.holder.Some? && h == HolderReg(s) && s'.holder == s.holder
    requires (forall x | x in s'.regs :: x in s.regs) && h !in s'.regs
    ensures !HolderOk(s')
  {
    if Find(s'.regs, h.nexus).Some? {
      FindMember(s.regs, Find(s'.regs, h.nexus).value);
    }
  }

  /** Every command keeps the invariant exactly when it is safe. */
  lemma StepKeepsInv(s: State, n: Nexus, wellFormed: bool, c: Service)
    requires Inv(s)
    ensures Inv(Step(s, n, wellFormed, c).0) <==> Safe(s, n, wellFormed, c)
  {
    if wellFormed {
      match c {
        case Register(force, resKey, saKey) => RegisterKeepsInv(s, n, force, resKey, saKey);
        case Reserve(scope, kind) => ReserveKeepsInv(s, n, scope, kind);
        case Release(resKey, scope, kind) => ReleaseKeepsInv(s, n, resKey, scope, kind);
        case Clear(resKey) =>
        case Preempt(resKey, saKey, scope, kind) =>
          PreemptGoodIff(s, n, resKey, saKey, scope, kind);
          if PreemptProceeds(s, n, resKey, saKey) {
            PreemptKeepsInv(s, n, resKey, saKey, scope, kind);
          }
      }
    }
  }

  // ---- refusals and the generation counter ----

  /** The registered keys, as READ KEYS could report them per nexus. */
  function Keys(s: State): set<(Nexus, nat)>
  {
    set r | r in s.regs :: (r.nexus, r.key)
  }

  lemma UpdateSameKey(s: State, s': State, n: Nexus, scope: nat, kind: nat)
    requires Distinct(s.regs) && Find(s.regs, n).Some?
    requires s'.regs == Update(s.regs, n, Find(s.regs, n).value.key, scope, kind)
    ensures Keys(s') == Keys(s)
  {
    var r := Find(s.regs, n).value;
    UpdateFacts(s.regs, n, r.key, scope, kind);
    forall x | x in s.regs
      ensures (x.nexus, x.key) in Keys(s')
    {
      if x.nexus == n {
        FindMember(s.regs, x);
        assert Registration(r.key, n, scope, kind) in s'.regs;
      }
    }
  }

  lemma RefusedChangesNothing(s: State, n: Nexus, wellFormed: bool, c: Service)
    requires HolderOk(s) && Step(s, n, wellFormed, c).1 != Good
    ensures Step(s, n, wellFormed, c).0 == s
  {
  }

  /** The registered nexus that gives up its registration, the last of an all-registrants reservation or the holder of
      another. */
  predicate EndsByUnregistering(s: State, n: Nexus, c: Service)
    requires HolderOk(s)
  {
    && c.Register? && c.saKey == 0 && Find(s.regs, n).Some? && (c.force || Find(s.regs, n).value.key == c.resKey)
    && s.holder.Some? && IsHolder(s, n) && (!AllRegistrants(HolderReg(s).kind) || Remove(s.regs, n) == [])
  }

  /** The actions that count: REGISTER, CLEAR and PREEMPT. */
  predicate Counts(c: Service)
  {
    c.Register? || c.Clear? || c.Preempt?
  }

  lemma RegisterAdvance(s: State, n: Nexus, wellFormed: bool, c: Service)
    requires Inv(s) && c.Register? && Step(s, n, wellFormed, c).1 == Good
    ensures Step(s, n, wellFormed, c).0.generation ==
            if EndsByUnregistering(s, n, c) then Bump(Bump(s.generation)) else Bump(s.generation)
  {
  }

  lemma OtherAdvance(s: State, n: Nexus, wellFormed: bool, c: Service)
    requires Inv(s) && !c.Register? && Step(s, n, wellFormed, c).1 == Good
    ensures Step(s, n, wellFormed, c).0.generation == if Counts(c) then Bump(s.generation) else s.generation
  {
  }

  lemma UncountedKeepsKeys(s: State, n: Nexus, wellFormed: bool, c: Service)
    requires Inv(s) && !Counts(c)
    ensures Keys(Step(s, n, wellFormed, c).0) == Keys(s)
  {
    var s' := Step(s, n, wellFormed, c).0;
    if c.Reserve? && s' != s {
      UpdateSameKey(s, s', n, c.scope, c.kind);
    } else if c.Release? && s' != s {
      UpdateSameKey(s, s', n, 0, 0);
    }
  }

  /** Any change to the registered keys advances PRgeneration: by two modulo 2^32 exactly when the registration given
      up ends the reservation, by one with every other REGISTER, CLEAR or PREEMPT that is carried out, else not. */
  lemma GenerationTracksKeys(s: State, n: Nexus, wellFormed: bool, c: Service)
    requires Inv(s)
    ensures var (s', status) := Step(s, n, wellFormed, c);
            && (Keys(s') != Keys(s) ==> s'.generation != s.generation)
            && s'.generation ==
               if status != Good || !Counts(c) then s.generation
               else if EndsByUnregistering(s, n, c) then Bump(Bump(s.generation))
               else Bump(s.generation)
  {
    var (s', status) := Step(s, n, wellFormed, c);
    if status != Good {
      RefusedChangesNothing(s, n, wellFormed, c);
    } else if c.Register? {
      RegisterAdvance(s, n, wellFormed, c);
    } else {
      OtherAdvance(s, n, wellFormed, c);
      if !Counts(c) {
        UncountedKeepsKeys(s, n, wellFormed, c);
      }
    }
  }
}
