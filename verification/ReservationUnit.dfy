/** The logical unit's reservation state as the service actions change it in place. */
module ReservationUnit {
  import opened Options
  import opened Reservations

  lemma {:induction false} FindFrom(regs: seq<Registration>, n: Nexus, i: nat)
    requires i <= |regs| && forall j :: 0 <= j < i ==> regs[j].nexus != n
    ensures Find(regs, n) == Find(regs[i..], n)
  {
    if i > 0 {
      FindFrom(regs[1..], n, i - 1);
      assert regs[1..][i - 1..] == regs[i..];
    }
  }

  lemma {:induction false} RemoveAt(regs: seq<Registration>, i: nat)
    requires Distinct(regs) && i < |regs|
    ensures Remove(regs, regs[i].nexus) == regs[..i] + regs[i + 1..]
  {
    var n := regs[i].nexus;
    if i == 0 {
      HeadDiffers(regs);
      RemoveNone(regs[1..], n);
    } else {
      RemoveAt(regs[1..], i - 1);
      assert regs[..i] == [regs[0]] + regs[1..][..i - 1];
      assert regs[1..][i..] == regs[i + 1..];
    }
  }

  lemma {:induction false} RemoveNone(regs: seq<Registration>, n: Nexus)
    requires forall r | r in regs :: r.nexus != n
    ensures Remove(regs, n) == regs
  {
    if regs != [] {
      RemoveNone(regs[1..], n);
    }
  }

  class LogicalUnit {
    var regs: seq<Registration>
    var holder: Option<Nexus>
    var generation: nat

    ghost function View(): State
      reads this
    {
      State(regs, holder, generation)
    }

    constructor ()
      ensures View() == State([], None, 0) && Inv(View())
    {
      regs, holder, generation := [], None, 0;
    }

    /** The index of the nexus's registration, or the length of the list. */
    method IndexOf(n: Nexus) returns (i: nat)
      ensures i <= |regs| && (forall j :: 0 <= j < i ==> regs[j].nexus != n)
      ensures i < |regs| ==> regs[i].nexus == n
      ensures Find(regs, n) == if i < |regs| then Some(regs[i]) else None
    {
      i := 0;
      while i < |regs| && regs[i].nexus != n
        invariant i <= |regs| && forall j :: 0 <= j < i ==> regs[j].nexus != n
      {
        i := i + 1;
      }
      FindFrom(regs, n, i);
    }

    /** lookup_registration_by_nexus */
    method Lookup(n: Nexus) returns (r: Option<Registration>)
      ensures r == Find(regs, n)
    {
      var i := IndexOf(n);
      r := if i < |regs| then Some(regs[i]) else None;
    }

    /** check_registration_key_exists */
    method HasKey(key: nat) returns (found: bool)
      ensures found == KeyExists(regs, key)
    {
      for i := 0 to |regs|
        invariant forall j :: 0 <= j < i ==> regs[j].key != key
      {
        if regs[i].key == key {
          return true;
        }
      }
      found := false;
    }

    /** Assigns the fields of the nexus's registration. */
    method Assign(n: Nexus, key: nat, scope: nat, kind: nat)
      requires Distinct(regs)
      modifies this`regs
      ensures regs == Update(old(regs), n, key, scope, kind)
    {
      var i := IndexOf(n);
      if i < |regs| {
        regs := regs[i := Registration(key, n, scope, kind)];
      }
    }

    /** __unregister_and_clean */
    method UnregisterAndClean(n: Nexus)
      requires Inv(View()) && Find(regs, n).Some?
      modifies this
      ensures View() == Unregister(old(View()), n)
    {
      ghost var s := View();
      var i := IndexOf(n);
      RemoveAt(regs, i);
      RemoveDistinct(regs, n);
      var h := if holder.Some? then Find(regs, holder.value) else None;
      regs := regs[..i] + regs[i + 1..];
      if holder.None? || (!AllRegistrants(h.value.kind) && holder.value != n) {
        return;
      }
      if !AllRegistrants(h.value.kind) || regs == [] {
        holder := None;
        generation := Bump(generation);
      } else {
        var heir := regs[0];
        holder := Some(heir.nexus);
        Assign(heir.nexus, heir.key, h.value.scope, h.value.kind);
      }
    }

    /** spc_pr_register */
    method Register(n: Nexus, force: bool, resKey: nat, saKey: nat) returns (status: Status)
      requires Inv(View())
      modifies this
      ensures (View(), status) == DoRegister(old(View()), n, force, resKey, saKey)
    {
      var r := Lookup(n);
      if r.Some? {
        if !force && r.value.key != resKey {
          return Conflict;
        }
        if saKey != 0 {
          Assign(n, saKey, r.value.scope, r.value.kind);
        } else {
          UnregisterAndClean(n);
        }
      } else {
        if !force && resKey != 0 {
          return Conflict;
        }
        if saKey != 0 {
          regs := regs + [Registration(saKey, n, 0, 0)];
        }
      }
      generation := Bump(generation);
      status := Good;
    }

    /** spc_pr_reserve */
    method Reserve(n: Nexus, scope: nat, kind: nat) returns (status: Status)
      requires Inv(View())
      modifies this
      ensures (View(), status) == DoReserve(old(View()), n, scope, kind)
    {
      if !ValidType(kind) || scope != LU_SCOPE {
        return CheckCondition;
      }
      var r := Lookup(n);
      if r.None? {
        return Conflict;
      }
      if holder.Some? {
        var h := Lookup(holder.value);
        if !(AllRegistrants(h.value.kind) || holder.value == n) || h.value.kind != kind || h.value.scope != scope {
          return Conflict;
        }
        return Good;
      }
      Assign(n, r.value.key, scope, kind);
      holder := Some(n);
      status := Good;
    }

    /** spc_pr_release */
    method Release(n: Nexus, resKey: nat, scope: nat, kind: nat) returns (status: Status)
      requires Inv(View())
      modifies this
      ensures (View(), status) == DoRelease(old(View()), n, resKey, scope, kind)
    {
      var r := Lookup(n);
      if r.None? {
        return Conflict;
      }
      if holder.None? {
        return Good;
      }
      var h := Lookup(holder.value);
      if !AllRegistrants(h.value.kind) && holder.value != n {
        return Good;
      }
      if resKey != r.value.key {
        return Conflict;
      }
      if h.value.scope != scope || h.value.kind != kind {
        return CheckCondition;
      }
      holder := None;
      Assign(n, r.value.key, 0, 0);
      status := Good;
    }

    /** spc_pr_clear */
    method Clear(n: Nexus, resKey: nat) returns (status: Status)
      requires Inv(View())
      modifies this
      ensures (View(), status) == DoClear(old(View()), n, resKey)
    {
      var r := Lookup(n);
      if r.None? || r.value.key != resKey {
        return Conflict;
      }
      holder := None;
      while regs != []
        invariant holder == None && generation == old(generation)
        decreases |regs|
      {
        regs := regs[1..];
      }
      generation := Bump(generation);
      status := Good;
    }

    /** The removal loop of spc_pr_preempt. */
    method Purge(n: Nexus, saKey: nat, all: bool)
      modifies this`regs
      ensures regs == Survivors(old(regs), n, saKey, all)
    {
      var kept := [];
      for i := 0 to |regs|
        invariant regs == old(regs)
        invariant Survivors(regs, n, saKey, all) == kept + Survivors(regs[i..], n, saKey, all)
      {
        assert regs[i..][1..] == regs[i + 1..];
        if regs[i].nexus == n || (regs[i].key != saKey && !all) {
          kept := kept + [regs[i]];
        }
      }
      regs := kept;
    }

    /** spc_pr_preempt */
    method Preempt(n: Nexus, resKey: nat, saKey: nat, scope: nat, kind: nat) returns (status: Status)
      requires Inv(View())
      modifies this
      ensures (View(), status) == DoPreempt(old(View()), n, resKey, saKey, scope, kind)
    {
      var r := Lookup(n);
      if r.None? || r.value.key != resKey {
        return Conflict;
      }
      if saKey != 0 {
        var listed := HasKey(saKey);
        if !listed {
          return Conflict;
        }
      }
      var all := false;
      if holder.Some? {
        var h := Lookup(holder.value);
        if AllRegistrants(h.value.kind) {
          if saKey == 0 {
            Assign(n, r.value.key, scope, kind);
            holder := Some(n);
            all := true;
          }
        } else if h.value.key == saKey {
          Assign(n, r.value.key, scope, kind);
          holder := Some(n);
        } else if saKey == 0 {
          return CheckCondition;
        }
      }
      Purge(n, saKey, all);
      generation := Bump(generation);
      status := Good;
    }
  }
}
