/** The gates that a command passes before dispatch, and what a reservation keeps out. */
module AccessGate {
  import opened Options
  import opened Reservations

  /** pr_conflict_bits of an operation. */
  datatype Bits = Bits(weFa: bool, eaFa: bool, rrFr: bool, weFn: bool, eaFn: bool)

  /** Operations of the block device that write the medium or its settings: 0x0a, 0x2a, 0xaa and 0x8a are WRITE. */
  predicate AllBits(op: nat)
  {
    op in {0x0a, 0x15, 0x1a, 0x2a, 0x35, 0x55, 0x5a, 0x8a, 0x91, 0xaa}
  }

  predicate ExclusiveBits(op: nat)
  {
    op in {0x08, 0x28, 0x2e, 0x2f, 0x34, 0x88, 0x8b, 0x8e, 0x8f, 0x90, 0xa8, 0xae, 0xaf}
  }

  /** The operation table of sbc.c. */
  function SbcBits(op: nat): Bits
  {
    if AllBits(op) then Bits(true, true, false, true, true)
    else if ExclusiveBits(op) then Bits(false, true, false, false, true)
    else Bits(false, false, false, false, false)
  }

  /** spc_access_check */
  predicate Conflicts(s: State, n: Nexus, b: Bits)
    requires HolderOk(s)
  {
    if s.holder.None? then false
    else
      var registered := Find(s.regs, n).Some?;
      var kind := HolderReg(s).kind;
      if registered && IsHolder(s, n) then false
      else if kind == EXCLUSIVE_ACCESS then b.eaFa
      else if kind == WRITE_EXCLUSIVE then b.weFa
      else if registered then b.rrFr
      else if kind == WRITE_EXCLUSIVE_REGONLY || kind == WRITE_EXCLUSIVE_ALLREG then b.weFn
      else b.eaFn
  }

  const INQUIRY: nat := 0x12
  const REPORT_LUNS: nat := 0xa0

  /** What else scsi_cmd_perform looks at: linked or ACA bits, the LUN, a pending unit attention, the backing store. */
  datatype Gates = Gates(linked: bool, lunKnown: bool, attention: bool, supported: bool)

  datatype Outcome = Dispatched | ReservationConflict | Checked

  /** scsi_cmd_perform: the order of the gates before the operation itself runs. */
  function Perform(s: State, n: Nexus, op: nat, g: Gates): Outcome
    requires HolderOk(s)
  {
    if g.linked then Checked
    else if !g.lunKnown && op != INQUIRY then Checked
    else if g.attention && op != INQUIRY && op != REPORT_LUNS then Checked
    else if Conflicts(s, n, SbcBits(op)) then ReservationConflict
    else if !g.supported then Checked
    else Dispatched
  }

  predicate Holds(s: State, n: Nexus, kind: nat)
  {
    HolderOk(s) && s.holder == Some(n) && HolderReg(s).kind == kind
  }

  predicate Reserved(s: State, kind: nat)
  {
    HolderOk(s) && s.holder.Some? && HolderReg(s).kind == kind
  }

  predicate ExclusiveAccessType(kind: nat)
  {
    kind == EXCLUSIVE_ACCESS || kind == EXCLUSIVE_ACCESS_REGONLY || kind == EXCLUSIVE_ACCESS_ALLREG
  }

  /** The operations that the type keeps from those it excludes. */
  predicate Gated(kind: nat, op: nat)
  {
    AllBits(op) || (ExclusiveAccessType(kind) && ExclusiveBits(op))
  }

  /** Whom the reservation does not exclude: the holder, and every registrant unless the type is for the holder
      alone. */
  predicate Admits(s: State, m: Nexus)
    requires s.holder.Some? && HolderOk(s)
  {
    s.holder == Some(m) || (Find(s.regs, m).Some? && !Exclusive(HolderReg(s).kind))
  }

  /** The gate, for every type and every nexus: a command is in conflict if and only if its nexus is excluded and its
      operation is one that the type keeps from the excluded. */
  lemma GateDecides(s: State, m: Nexus, op: nat)
    requires HolderOk(s)
    ensures Conflicts(s, m, SbcBits(op)) <==> s.holder.Some? && !Admits(s, m) && Gated(HolderReg(s).kind, op)
  {
  }

  const READS := {0x08, 0x28, 0xa8, 0x88}
  const WRITES := {0x0a, 0x2a, 0xaa, 0x8a}

  /** By name: nobody excluded writes under any type, reads pass under the Write Exclusive types only, and TEST UNIT
      READY, REQUEST SENSE, INQUIRY, READ CAPACITY, REPORT LUNS and the reservation commands themselves pass under
      all. */
  lemma GateByName(s: State, m: Nexus, op: nat)
    requires HolderOk(s) && s.holder.Some? && !Admits(s, m)
    ensures op in WRITES ==> Conflicts(s, m, SbcBits(op))
    ensures op in READS ==>
              (Conflicts(s, m, SbcBits(op)) <==> HolderReg(s).kind !in {WRITE_EXCLUSIVE, WRITE_EXCLUSIVE_REGONLY,
                                                                        WRITE_EXCLUSIVE_ALLREG})
    ensures op in {0x00, 0x03, INQUIRY, 0x25, REPORT_LUNS, 0x5e, 0x5f} ==> !Conflicts(s, m, SbcBits(op))
  {
    GateDecides(s, m, op);
  }

  /** The order of the gates: RESERVATION CONFLICT is the answer exactly to commands that pass the gates before it, and
      dispatched are exactly those that pass all. */
  lemma PerformDecides(s: State, m: Nexus, op: nat, g: Gates)
    requires HolderOk(s)
    ensures Perform(s, m, op, g) == ReservationConflict <==>
            OtherGatesPass(op, g.(supported := true)) && Conflicts(s, m, SbcBits(op))
    ensures Perform(s, m, op, g) == Dispatched <==> OtherGatesPass(op, g) && !Conflicts(s, m, SbcBits(op))
  {
  }

  // ---- runs ----

  datatype Event =
    | Reservation(n: Nexus, wellFormed: bool, c: Service)
    | Command(n: Nexus, op: nat, gates: Gates)

  function Next(s: State, e: Event): State
    requires HolderOk(s)
  {
    if e.Reservation? then Step(s, e.n, e.wellFormed, e.c).0 else s
  }

  /** The accepted commands that may end N's reservation: N's own RELEASE or unregistration, any registrant's CLEAR,
      and a PREEMPT that names N's current key. */
  predicate Ends(s: State, e: Event, n: Nexus)
    requires HolderOk(s) && s.holder == Some(n)
  {
    && e.Reservation? && Step(s, e.n, e.wellFormed, e.c).1 == Good
    && match e.c
       case Register(_, _, saKey) => e.n == n && saKey == 0
       case Reserve(_, _) => false
       case Release(_, _, _) => e.n == n
       case Clear(_) => true
       case Preempt(_, saKey, _, _) => saKey == HolderReg(s).key
  }

  predicate Exclusive(kind: nat)
  {
    kind == WRITE_EXCLUSIVE || kind == EXCLUSIVE_ACCESS
  }

  predicate OneHolder(kind: nat)
  {
    ValidType(kind) && !AllRegistrants(kind)
  }

  lemma HolderKept(s: State, s': State, n: Nexus, r: Registration, r': Registration)
    requires Inv(s) && Inv(s') && s.holder == Some(n) && s'.holder == Some(n)
    requires r == HolderReg(s) && r' in s'.regs && r'.nexus == n && r'.kind == r.kind
    ensures Holds(s', n, r.kind)
  {
    FindMember(s'.regs, r');
  }

  lemma StandsRegister(s: State, who: Nexus, force: bool, resKey: nat, saKey: nat, n: Nexus, kind: nat)
    requires Inv(s) && OneHolder(kind) && Holds(s, n, kind) && (who == n ==> saKey != 0)
    ensures Holds(DoRegister(s, who, force, resKey, saKey).0, n, kind)
  {
    var s', r := DoRegister(s, who, force, resKey, saKey).0, HolderReg(s);
    RegisterKeepsInv(s, who, force, resKey, saKey);
    if s' != s {
      if Find(s.regs, who).Some? && saKey != 0 {
        var was := Find(s.regs, who).value;
        UpdateFacts(s.regs, who, saKey, was.scope, was.kind);
        FindMember(s.regs, r);
        HolderKept(s, s', n, r, if who == n then Registration(saKey, n, r.scope, r.kind) else r);
      } else {
        HolderKept(s, s', n, r, r);
      }
    }
  }

  lemma StandsPreempt(s: State, who: Nexus, resKey: nat, saKey: nat, scope: nat, reqKind: nat, n: Nexus, kind: nat)
    requires Inv(s) && OneHolder(kind) && Holds(s, n, kind) && saKey != HolderReg(s).key
    ensures Inv(DoPreempt(s, who, resKey, saKey, scope, reqKind).0)
    ensures Holds(DoPreempt(s, who, resKey, saKey, scope, reqKind).0, n, kind)
  {
    var (s', status) := DoPreempt(s, who, resKey, saKey, scope, reqKind);
    if status == Good {
      PreemptLeft(s, who, resKey, saKey, scope, reqKind);
      HolderKept(s, s', n, HolderReg(s), HolderReg(s));
    }
  }

  /** A command that does not end it leaves N's reservation in place. */
  lemma ReservationStands(s: State, e: Event, n: Nexus, kind: nat)
    requires Inv(s) && OneHolder(kind) && Holds(s, n, kind) && !Ends(s, e, n)
    ensures Inv(Next(s, e)) && Holds(Next(s, e), n, kind)
  {
    if e.Reservation? && e.wellFormed {
      match e.c {
        case Register(force, resKey, saKey) =>
          RegisterKeepsInv(s, e.n, force, resKey, saKey);
          if e.n != n || saKey != 0 {
            StandsRegister(s, e.n, force, resKey, saKey, n, kind);
          }
        case Preempt(resKey, saKey, scope, reqKind) =>
          if saKey != HolderReg(s).key {
            StandsPreempt(s, e.n, resKey, saKey, scope, reqKind, n, kind);
          }
        case _ =>
      }
    }
  }

  /** No event ends N's reservation at a moment at which N has it. */
  ghost predicate NeverEnds(s: State, es: seq<Event>, n: Nexus)
    decreases |es|
  {
    es != [] && HolderOk(s) ==>
    && (s.holder == Some(n) ==> !Ends(s, es[0], n))
    && NeverEnds(Next(s, es[0]), es[1..], n)
  }

  /** Anywhere in the run, a command is dispatched exactly when the other gates let it through and either its nexus is
      one that the reservation does not exclude or its operation is not one that the type keeps from the excluded. */
  ghost predicate CommandsGated(s: State, es: seq<Event>, kind: nat)
    decreases |es|
  {
    && Reserved(s, kind)
    && (es != [] ==>
          && (es[0].Command? ==>
                (Perform(s, es[0].n, es[0].op, es[0].gates) == Dispatched <==>
                 OtherGatesPass(es[0].op, es[0].gates) && (Admits(s, es[0].n) || !Gated(kind, es[0].op))))
          && CommandsGated(Next(s, es[0]), es[1..], kind))
  }

  ghost predicate AlwaysHolds(s: State, es: seq<Event>, n: Nexus, kind: nat)
    decreases |es|
  {
    Holds(s, n, kind) && (es != [] ==> AlwaysHolds(Next(s, es[0]), es[1..], n, kind))
  }

  lemma CommandGated(s: State, e: Event, kind: nat)
    requires Reserved(s, kind) && e.Command?
    ensures Perform(s, e.n, e.op, e.gates) == Dispatched <==>
            OtherGatesPass(e.op, e.gates) && (Admits(s, e.n) || !Gated(kind, e.op))
  {
    GateDecides(s, e.n, e.op);
    PerformDecides(s, e.n, e.op, e.gates);
  }

  predicate OtherGatesPass(op: nat, g: Gates)
  {
    !g.linked && (g.lunKnown || op == INQUIRY) && (!g.attention || op == INQUIRY || op == REPORT_LUNS) && g.supported
  }

  function RunEvents(s: State, es: seq<Event>): State
    decreases |es|
  {
    if es == [] then s
    else if !HolderOk(s) then s
    else RunEvents(Next(s, es[0]), es[1..])
  }

  /** Over every run: once N holds a reservation of one holder, and until a command ends it, the reservation stands. N's
      commands get through, a registrant's do under the registrants-only types, and nobody else's WRITE or other gated
      operation does. */
  lemma {:induction false} ExclusionOverRuns(s: State, es: seq<Event>, n: Nexus, kind: nat)
    requires Inv(s) && OneHolder(kind) && Holds(s, n, kind) && NeverEnds(s, es, n)
    ensures CommandsGated(s, es, kind) && AlwaysHolds(s, es, n, kind)
    ensures Inv(RunEvents(s, es)) && Holds(RunEvents(s, es), n, kind)
    decreases |es|
  {
    if es != [] {
      if es[0].Command? {
        CommandGated(s, es[0], kind);
      }
      ReservationStands(s, es[0], n, kind);
      ExclusionOverRuns(Next(s, es[0]), es[1..], n, kind);
    }
  }

  // ---- all-registrants reservations ----

  /** The accepted commands that may end an all-registrants reservation: a registrant's RELEASE, the unregistration
      of the last, any CLEAR, and a PREEMPT with the zero key or, of another, with the key of the one that the holder
      pointer names. */
  predicate EndsForAll(s: State, e: Event)
    requires HolderOk(s) && s.holder.Some?
  {
    && e.Reservation? && Step(s, e.n, e.wellFormed, e.c).1 == Good
    && match e.c
       case Register(_, _, saKey) => saKey == 0 && Find(s.regs, e.n).Some? && Remove(s.regs, e.n) == []
       case Reserve(_, _) => false
       case Release(_, _, _) => true
       case Clear(_) => true
       case Preempt(_, saKey, _, _) => saKey == 0 || (saKey == HolderReg(s).key && s.holder != Some(e.n))
  }

  lemma StandsUnregister(s: State, who: Nexus, kind: nat)
    requires Inv(s) && AllRegistrants(kind) && Reserved(s, kind) && Remove(s.regs, who) != []
    ensures Reserved(Unregister(s, who), kind)
  {
    var rest, h := Remove(s.regs, who), HolderReg(s);
    RemoveDistinct(s.regs, who);
    var heir := rest[0];
    FindMember(rest, heir);
    UpdateFacts(rest, heir.nexus, heir.key, h.scope, h.kind);
    FindMember(Unregister(s, who).regs, Registration(heir.key, heir.nexus, h.scope, h.kind));
  }

  lemma RegisterStands(s: State, who: Nexus, force: bool, resKey: nat, saKey: nat, kind: nat)
    requires Inv(s) && AllRegistrants(kind) && Reserved(s, kind)
    requires saKey == 0 && Find(s.regs, who).Some? ==> Remove(s.regs, who) != []
    ensures Reserved(DoRegister(s, who, force, resKey, saKey).0, kind)
  {
    var s', h := DoRegister(s, who, force, resKey, saKey).0, HolderReg(s);
    RegisterKeepsInv(s, who, force, resKey, saKey);
    if s' != s {
      if Find(s.regs, who).Some? && saKey == 0 {
        StandsUnregister(s, who, kind);
      } else if Find(s.regs, who).Some? {
        var was := Find(s.regs, who).value;
        UpdateFacts(s.regs, who, saKey, was.scope, was.kind);
        FindMember(s.regs, h);
        HolderKept(s, s', h.nexus, h, if who == h.nexus then Registration(saKey, who, h.scope, h.kind) else h);
      } else {
        HolderKept(s, s', h.nexus, h, h);
      }
    }
  }

  lemma PreemptStands(s: State, who: Nexus, resKey: nat, saKey: nat, scope: nat, reqKind: nat, kind: nat)
    requires Inv(s) && AllRegistrants(kind) && Reserved(s, kind)
    requires saKey != 0 && (saKey != HolderReg(s).key || s.holder == Some(who))
    ensures Inv(DoPreempt(s, who, resKey, saKey, scope, reqKind).0)
    ensures Reserved(DoPreempt(s, who, resKey, saKey, scope, reqKind).0, kind)
  {
    var (s', status) := DoPreempt(s, who, resKey, saKey, scope, reqKind);
    if status == Good {
      PreemptLeft(s, who, resKey, saKey, scope, reqKind);
      HolderKept(s, s', HolderReg(s).nexus, HolderReg(s), HolderReg(s));
    }
  }

  lemma AllRegistrantsStands(s: State, e: Event, kind: nat)
    requires Inv(s) && AllRegistrants(kind) && Reserved(s, kind) && !EndsForAll(s, e)
    ensures Inv(Next(s, e)) && Reserved(Next(s, e), kind)
  {
    if e.Reservation? && e.wellFormed && Step(s, e.n, e.wellFormed, e.c).1 == Good {
      match e.c {
        case Register(force, resKey, saKey) =>
          RegisterKeepsInv(s, e.n, force, resKey, saKey);
          RegisterStands(s, e.n, force, resKey, saKey, kind);
        case Preempt(resKey, saKey, scope, reqKind) => PreemptStands(s, e.n, resKey, saKey, scope, reqKind, kind);
        case _ =>
      }
    }
  }

  ghost predicate NeverEndsForAll(s: State, es: seq<Event>)
    decreases |es|
  {
    es != [] && HolderOk(s) ==>
    && (s.holder.Some? ==> !EndsForAll(s, es[0]))
    && NeverEndsForAll(Next(s, es[0]), es[1..])
  }

  /** The same for the all-registrants types, whoever the holder pointer names: until a command ends it the reservation
      stands, every registrant's commands get through, and nobody else's gated ones do. */
  lemma {:induction false} AllRegistrantsOverRuns(s: State, es: seq<Event>, kind: nat)
    requires Inv(s) && AllRegistrants(kind) && Reserved(s, kind) && NeverEndsForAll(s, es)
    ensures CommandsGated(s, es, kind) && Inv(RunEvents(s, es))
    decreases |es|
  {
    if es != [] {
      if es[0].Command? {
        CommandGated(s, es[0], kind);
      }
      AllRegistrantsStands(s, es[0], kind);
      AllRegistrantsOverRuns(Next(s, es[0]), es[1..], kind);
    }
  }

  const WRITE_SAME_10: nat := 0x41
  const UNMAP: nat := 0x42

  /** WRITE SAME and UNMAP of another nexus pass every reservation. */
  lemma WriteSamePasses(s: State, other: Nexus, op: nat, g: Gates)
    requires HolderOk(s) && op in {WRITE_SAME_10, UNMAP, 0x93} && OtherGatesPass(op, g)
    ensures Perform(s, other, op, g) == Dispatched
  {
  }

  /** Every event of the run is safe when it happens. */
  ghost predicate AllSafe(s: State, es: seq<Event>)
    decreases |es|
  {
    es != [] && HolderOk(s) ==>
    && (es[0].Reservation? ==> Safe(s, es[0].n, es[0].wellFormed, es[0].c))
    && AllSafe(Next(s, es[0]), es[1..])
  }

  /** The reservation invariant holds in every state of the run. */
  ghost predicate AlwaysInv(s: State, es: seq<Event>)
    decreases |es|
  {
    Inv(s) && (es != [] ==> AlwaysInv(Next(s, es[0]), es[1..]))
  }

  /** The invariant holds in every state of a run if and only if every command of the run is safe when it happens. */
  lemma {:induction false} InvariantOverRuns(s: State, es: seq<Event>)
    requires Inv(s)
    ensures AlwaysInv(s, es) <==> AllSafe(s, es)
    decreases |es|
  {
    if es != [] {
      if es[0].Reservation? {
        StepKeepsInv(s, es[0].n, es[0].wellFormed, es[0].c);
      }
      if Inv(Next(s, es[0])) {
        InvariantOverRuns(Next(s, es[0]), es[1..]);
      }
    }
  }
}
