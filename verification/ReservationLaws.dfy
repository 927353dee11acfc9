/** What each PERSISTENT RESERVE OUT service action does, seen through the registration of every nexus and the
    holder. */
module ReservationLaws {
  import opened Options
  import opened Reservations
  import opened AccessGate

  // ---- the registration of a nexus after a change to the list ----

  lemma {:induction false} FindUpdated(regs: seq<Registration>, n: Nexus, key: nat, scope: nat, kind: nat, m: Nexus)
    ensures Find(Update(regs, n, key, scope, kind), m) ==
            if m == n && Find(regs, n).Some? then Some(Registration(key, n, scope, kind)) else Find(regs, m)
  {
    if regs != [] {
      FindUpdated(regs[1..], n, key, scope, kind, m);
      assert Update(regs, n, key, scope, kind)[1..] == Update(regs[1..], n, key, scope, kind);
    }
  }

  lemma {:induction false} FindRemoved(regs: seq<Registration>, n: Nexus, m: Nexus)
    ensures Find(Remove(regs, n), m) == if m == n then None else Find(regs, m)
  {
    if regs != [] {
      FindRemoved(regs[1..], n, m);
      assert regs[0].nexus != n ==> Remove(regs, n)[1..] == Remove(regs[1..], n);
    }
  }

  lemma {:induction false} FindAppended(regs: seq<Registration>, r: Registration, m: Nexus)
    ensures Find(regs + [r], m) ==
            if Find(regs, m).Some? then Find(regs, m) else if r.nexus == m then Some(r) else None
  {
    if regs == [] {
      assert regs + [r] == [r] && [r][1..] == [];
    } else {
      FindAppended(regs[1..], r, m);
      assert (regs + [r])[1..] == regs[1..] + [r];
    }
  }

  predicate Survives(r: Registration, n: Nexus, saKey: nat, all: bool)
  {
    r.nexus == n || (r.key != saKey && !all)
  }

  lemma {:induction false} FindSurviving(regs: seq<Registration>, n: Nexus, saKey: nat, all: bool, m: Nexus)
    requires Distinct(regs)
    ensures Find(Survivors(regs, n, saKey, all), m) ==
            if Find(regs, m).Some? && Survives(Find(regs, m).value, n, saKey, all) then Find(regs, m) else None
  {
    if regs != [] {
      FindSurviving(regs[1..], n, saKey, all, m);
      HeadDiffers(regs);
      if Survives(regs[0], n, saKey, all) {
        assert Survivors(regs, n, saKey, all)[1..] == Survivors(regs[1..], n, saKey, all);
      } else if regs[0].nexus == m {
        assert Find(Survivors(regs[1..], n, saKey, all), m).None?;
      }
    }
  }

  /** Nobody's registration changed but n's. */
  ghost predicate OthersKept(s: State, s': State, n: Nexus)
  {
    forall m | m != n :: Find(s'.regs, m) == Find(s.regs, m)
  }

  /** The key of a nexus; no registration has the key 0. */
  function Key(s: State, m: Nexus): nat
  {
    if Find(s.regs, m).Some? then Find(s.regs, m).value.key else 0
  }

  ghost predicate OthersKeysKept(s: State, s': State, n: Nexus)
  {
    forall m | m != n :: Key(s', m) == Key(s, m)
  }

  /** Who holds the reservation: the nexus that reserved, and under the all-registrants types every registrant. */
  predicate HoldsIt(s: State, n: Nexus)
    requires HolderOk(s)
  {
    s.holder == Some(n) || (s.holder.Some? && AllRegistrants(HolderReg(s).kind) && Find(s.regs, n).Some?)
  }

  // ---- REGISTER ----

  /** REGISTER is carried out if and only if the key given is the nexus's own, or 0 for one without; the ignoring form
      always. With a new key the nexus has that key and keeps what it holds, and nothing else changes. */
  lemma RegisterLaw(s: State, n: Nexus, force: bool, resKey: nat, saKey: nat)
    requires Inv(s) && saKey != 0
    ensures var (s', status) := Step(s, n, true, Register(force, resKey, saKey));
            && (status == Good <==> force || resKey == Key(s, n)) && (status == Good || status == Conflict)
            && (status == Good ==>
                  && Key(s', n) == saKey && s'.holder == s.holder && OthersKept(s, s', n)
                  && (forall kind :: Holds(s, n, kind) ==> Holds(s', n, kind)))
  {
    var s' := Step(s, n, true, Register(force, resKey, saKey)).0;
    forall m
      ensures m != n && Step(s, n, true, Register(force, resKey, saKey)).1 == Good ==>
              Find(s'.regs, m) == Find(s.regs, m)
    {
      FindUpdated(s.regs, n, saKey, if Find(s.regs, n).Some? then Find(s.regs, n).value.scope else 0,
                  if Find(s.regs, n).Some? then Find(s.regs, n).value.kind else 0, m);
      FindAppended(s.regs, Registration(saKey, n, 0, 0), m);
    }
    if Find(s.regs, n).Some? {
      var r := Find(s.regs, n).value;
      assert r.key != 0;
      FindUpdated(s.regs, n, saKey, r.scope, r.kind, n);
    }
    FindAppended(s.regs, Registration(saKey, n, 0, 0), n);
  }

  /** With the key 0 the nexus is no longer registered and nobody else's key changes. A reservation that it does not
      hold stays with its holder, a reservation that only it holds ends, and an all-registrants reservation goes on
      with another registrant, if any. */
  lemma UnregisterLaw(s: State, n: Nexus, force: bool, resKey: nat)
    requires Inv(s)
    ensures var (s', status) := Step(s, n, true, Register(force, resKey, 0));
            && (status == Good <==> force || resKey == Key(s, n))
            && (status == Good ==>
                  && Find(s'.regs, n).None? && OthersKeysKept(s, s', n)
                  && (!HoldsIt(s, n) ==> s'.holder == s.holder)
                  && (s.holder == Some(n) && !AllRegistrants(HolderReg(s).kind) ==> s'.holder.None?)
                  && (s.holder.Some? && Find(s.regs, n).Some? && AllRegistrants(HolderReg(s).kind) ==>
                        if Remove(s.regs, n) == [] then s'.holder.None?
                        else Reserved(s', HolderReg(s).kind) && s'.holder != Some(n)))
  {
    var (s', status) := Step(s, n, true, Register(force, resKey, 0));
    if Find(s.regs, n).Some? {
      assert Find(s.regs, n).value.key != 0;
    }
    if status == Good && Find(s.regs, n).Some? {
      UnregisterEntries(s, n);
      RegisterKeepsInv(s, n, force, resKey, 0);
      if s.holder.Some? && AllRegistrants(HolderReg(s).kind) && Remove(s.regs, n) != [] {
        StandsUnregister(s, n, HolderReg(s).kind);
      }
    }
  }

  lemma UnregisterEntries(s: State, n: Nexus)
    requires Inv(s) && Find(s.regs, n).Some?
    ensures Find(Unregister(s, n).regs, n).None? && OthersKeysKept(s, Unregister(s, n), n)
  {
    var rest := Remove(s.regs, n);
    FindRemoved(s.regs, n, n);
    RemoveDistinct(s.regs, n);
    forall m | m != n
      ensures Key(Unregister(s, n), m) == Key(s, m)
    {
      FindRemoved(s.regs, n, m);
      if rest != [] && s.holder.Some? {
        FindMember(rest, rest[0]);
        FindUpdated(rest, rest[0].nexus, rest[0].key, HolderReg(s).scope, HolderReg(s).kind, m);
      }
    }
    if rest != [] && s.holder.Some? {
      FindUpdated(rest, rest[0].nexus, rest[0].key, HolderReg(s).scope, HolderReg(s).kind, n);
    }
  }

  // ---- RESERVE ----

  /** RESERVE is GOOD if and only if the type and scope are supported, the nexus is registered, and nobody holds a
      reservation or the nexus holds one of this type. Without a holder before, the nexus holds that type afterwards. */
  lemma ReserveLaw(s: State, n: Nexus, scope: nat, kind: nat)
    requires Inv(s)
    ensures var (s', status) := Step(s, n, true, Reserve(scope, kind));
            && (status == Good <==>
                  && ValidType(kind) && scope == LU_SCOPE && Find(s.regs, n).Some?
                  && (s.holder.None? || (HoldsIt(s, n) && HolderReg(s).kind == kind)))
            && (status == CheckCondition <==> !ValidType(kind) || scope != LU_SCOPE)
            && (status == Good && s.holder.None? ==> Holds(s', n, kind))
            && (status != Good || s.holder.Some? ==> s' == s)
            && Key(s', n) == Key(s, n) && OthersKept(s, s', n)
  {
    var s' := Step(s, n, true, Reserve(scope, kind)).0;
    if s' != s {
      var r := Find(s.regs, n).value;
      FindUpdated(s.regs, n, r.key, scope, kind, n);
      forall m | m != n
        ensures Find(s'.regs, m) == Find(s.regs, m)
      {
        FindUpdated(s.regs, n, r.key, scope, kind, m);
      }
    }
  }

  // ---- RELEASE ----

  /** RELEASE by the holder ends the reservation if and only if it gives its key and the reservation's type and
      scope; by another registrant it is GOOD and changes nothing. Keys stay. */
  lemma ReleaseLaw(s: State, n: Nexus, resKey: nat, scope: nat, kind: nat)
    requires Inv(s)
    ensures var (s', status) := Step(s, n, true, Release(resKey, scope, kind));
            var holds := HoldsIt(s, n);
            && (Find(s.regs, n).None? ==> status == Conflict)
            && (Find(s.regs, n).Some? && !holds ==> status == Good && s' == s)
            && (Find(s.regs, n).Some? && holds ==>
                  && (status == Good <==> resKey == Key(s, n) && scope == LU_SCOPE && kind == HolderReg(s).kind)
                  && (status == Conflict <==> resKey != Key(s, n))
                  && s'.holder == (if status == Good then None else s.holder))
            && Key(s', n) == Key(s, n) && OthersKept(s, s', n)
  {
    var s' := Step(s, n, true, Release(resKey, scope, kind)).0;
    if s' != s {
      var r := Find(s.regs, n).value;
      FindUpdated(s.regs, n, r.key, 0, 0, n);
      forall m | m != n
        ensures Find(s'.regs, m) == Find(s.regs, m)
      {
        FindUpdated(s.regs, n, r.key, 0, 0, m);
      }
    }
  }

  // ---- CLEAR ----

  /** CLEAR is for registrants that give their key, and leaves no registration and no reservation. */
  lemma ClearLaw(s: State, n: Nexus, resKey: nat)
    requires Inv(s)
    ensures var (s', status) := Step(s, n, true, Clear(resKey));
            && (status == Good <==> Find(s.regs, n).Some? && resKey == Key(s, n))
            && (status == Good ==> s'.regs == [] && s'.holder.None?)
            && (status != Good ==> status == Conflict && s' == s)
  {
  }

  // ---- PREEMPT ----

  /** The registration of m after a PREEMPT of n. */
  function Preempted(s: State, n: Nexus, saKey: nat, scope: nat, kind: nat, m: Nexus): Option<Registration>
    requires HolderOk(s)
  {
    if m != n && (Key(s, m) == saKey || PreemptsAll(s, saKey)) then None
    else if m == n && PreemptTakes(s, saKey) then Some(Registration(Key(s, n), n, scope, kind))
    else Find(s.regs, m)
  }

  lemma PreemptEntry(s: State, n: Nexus, resKey: nat, saKey: nat, scope: nat, kind: nat, m: Nexus)
    requires Inv(s) && PreemptProceeds(s, n, resKey, saKey)
    ensures Find(DoPreempt(s, n, resKey, saKey, scope, kind).0.regs, m) == Preempted(s, n, saKey, scope, kind, m)
  {
    var r := Find(s.regs, n).value;
    PreemptGoodIff(s, n, resKey, saKey, scope, kind);
    var regs := if PreemptTakes(s, saKey) then Update(s.regs, n, r.key, scope, kind) else s.regs;
    UpdateFacts(s.regs, n, r.key, scope, kind);
    FindUpdated(s.regs, n, r.key, scope, kind, m);
    FindSurviving(regs, n, saKey, PreemptsAll(s, saKey), m);
  }

  /** A PREEMPT that is carried out removes the registrations with the key that it names, or all for the key 0 of an
      all-registrants reservation, but never the sender's, and no others. When the key is that of the reservation, the
      sender holds it afterwards, with the type and scope asked for; otherwise the holder stays what it was. */
  lemma PreemptLaw(s: State, n: Nexus, resKey: nat, saKey: nat, scope: nat, kind: nat)
    requires Inv(s) && PreemptProceeds(s, n, resKey, saKey)
    ensures var (s', status) := Step(s, n, true, Preempt(resKey, saKey, scope, kind));
            var ofAll := s.holder.Some? && AllRegistrants(HolderReg(s).kind);
            var takes := if ofAll then saKey == 0 else s.holder.Some? && saKey == HolderReg(s).key;
            && status == Good && s'.holder == (if takes then Some(n) else s.holder)
            && Find(s'.regs, n) == Some(if takes then Registration(resKey, n, scope, kind) else Find(s.regs, n).value)
            && forall m | m != n ::
                 Find(s'.regs, m) == if Key(s, m) == saKey || (ofAll && saKey == 0) then None else Find(s.regs, m)
  {
    PreemptGoodIff(s, n, resKey, saKey, scope, kind);
    forall m
      ensures Find(DoPreempt(s, n, resKey, saKey, scope, kind).0.regs, m) == Preempted(s, n, saKey, scope, kind, m)
    {
      PreemptEntry(s, n, resKey, saKey, scope, kind, m);
    }
  }

  // ---- from an empty unit ----

  const EMPTY := State([], None, 0)

  function Opening(n: Nexus, key: nat, kind: nat): seq<Event>
  {
    [Event.Reservation(n, true, Register(false, 0, key)), Event.Reservation(n, true, Reserve(LU_SCOPE, kind))]
  }

  lemma TwoEvents(s: State, e: Event, f: Event)
    requires HolderOk(s) && HolderOk(Next(s, e))
    ensures RunEvents(s, [e, f]) == Next(Next(s, e), f)
  {
    assert [e, f][1..] == [f] && [f][1..] == [];
    assert RunEvents(Next(s, e), [f]) == RunEvents(Next(Next(s, e), f), []);
  }

  lemma FirstRegisters(n: Nexus, key: nat)
    requires key != 0
    ensures DoRegister(EMPTY, n, false, 0, key).0 == State([Registration(key, n, 0, 0)], None, 1)
  {
    assert EMPTY.regs + [Registration(key, n, 0, 0)] == [Registration(key, n, 0, 0)];
  }

  lemma FirstReserves(n: Nexus, key: nat, kind: nat, s: State)
    requires key != 0 && ValidType(kind) && s == State([Registration(key, n, 0, 0)], None, 1)
    ensures DoReserve(s, n, LU_SCOPE, kind).0 == State([Registration(key, n, LU_SCOPE, kind)], Some(n), 1)
  {
    assert Find(s.regs, n) == Some(Registration(key, n, 0, 0));
    assert Update(s.regs, n, key, LU_SCOPE, kind) == [Registration(key, n, LU_SCOPE, kind)];
  }

  lemma Opened(n: Nexus, key: nat, kind: nat)
    requires key != 0 && ValidType(kind)
    ensures RunEvents(EMPTY, Opening(n, key, kind)) == State([Registration(key, n, LU_SCOPE, kind)], Some(n), 1)
  {
    FirstRegisters(n, key);
    FirstReserves(n, key, kind, State([Registration(key, n, 0, 0)], None, 1));
    TwoEvents(EMPTY, Opening(n, key, kind)[0], Opening(n, key, kind)[1]);
  }

  lemma HeldAlone(s: State, n: Nexus, key: nat, kind: nat)
    requires key != 0 && ValidType(kind) && s == State([Registration(key, n, LU_SCOPE, kind)], Some(n), 1)
    ensures Inv(s) && Holds(s, n, kind)
  {
    assert Find(s.regs, n) == Some(s.regs[0]);
  }

  /** Wherever a WRITE of another nexus comes in the run, it is not dispatched. */
  ghost predicate NoForeignWrite(s: State, es: seq<Event>, n: Nexus)
    decreases |es|
  {
    es != [] ==>
    && HolderOk(s)
    && (es[0].Command? && es[0].n != n && es[0].op in WRITES ==>
          Perform(s, es[0].n, es[0].op, es[0].gates) != Dispatched)
    && NoForeignWrite(Next(s, es[0]), es[1..], n)
  }

  lemma {:induction false} WritesRefused(s: State, es: seq<Event>, n: Nexus, kind: nat)
    requires Exclusive(kind) && CommandsGated(s, es, kind) && AlwaysHolds(s, es, n, kind)
    ensures NoForeignWrite(s, es, n)
    decreases |es|
  {
    if es != [] {
      WritesRefused(Next(s, es[0]), es[1..], n, kind);
    }
  }

  /** Register, reserve, and from then on, whatever anybody does, until a command ends the reservation: nobody else's
      WRITE is dispatched under the types for one nexus, and commands are gated as the type says under every type. */
  lemma ReservedFromTheStart(n: Nexus, key: nat, kind: nat, es: seq<Event>)
    requires key != 0 && OneHolder(kind) && NeverEnds(RunEvents(EMPTY, Opening(n, key, kind)), es, n)
    ensures var s := RunEvents(EMPTY, Opening(n, key, kind));
            && CommandsGated(s, es, kind) && AlwaysHolds(s, es, n, kind)
            && (Exclusive(kind) ==> NoForeignWrite(s, es, n))
  {
    Opened(n, key, kind);
    HeldAlone(RunEvents(EMPTY, Opening(n, key, kind)), n, key, kind);
    ExclusionOverRuns(RunEvents(EMPTY, Opening(n, key, kind)), es, n, kind);
    if Exclusive(kind) {
      WritesRefused(RunEvents(EMPTY, Opening(n, key, kind)), es, n, kind);
    }
  }
}
