/** Command numbering of an iSCSI session: out-of-order arrival, in-order execution, 32-bit wrap-around
    (section 3.2.2.1 of RFC 3720). */
module CmdSn {
  import opened Serial

  datatype Task = Task(sn: u32, immediate: bool, tag: nat)

  /** `executed` is the order in which iscsi_task_execute was called. */
  datatype State = State(exp: u32, pending: seq<Task>, executed: seq<Task>)

  // ---- what iscsi_task_queue computes ----

  function Insert(p: seq<Task>, t: Task): seq<Task>
  {
    if p == [] then [t]
    else if Before(t.sn, p[0].sn) then [t] + p
    else [p[0]] + Insert(p[1..], t)
  }

  function Drain(s: State): State
    decreases |s.pending|
  {
    if s.pending != [] && s.pending[0].sn == s.exp
    then Drain(State(Next(s.exp), s.pending[1..], s.executed + [s.pending[0]]))
    else s
  }

  predicate Rejected(s: State, t: Task)
  {
    !t.immediate && Before(t.sn, s.exp)
  }

  function Accept(s: State, t: Task): State
  {
    if t.immediate then s.(executed := s.executed + [t])
    else if t.sn == s.exp then Drain(State(Next(s.exp), s.pending, s.executed + [t]))
    else if Before(t.sn, s.exp) then s
    else s.(pending := Insert(s.pending, t))
  }

  function AcceptAll(s: State, ts: seq<Task>): State
  {
    if ts == [] then s else Accept(AcceptAll(s, ts[..|ts| - 1]), ts[|ts| - 1])
  }

  // ---- the session ----

  class Session {
    var expCmdSn: u32
    var pending: seq<Task>
    ghost var executed: seq<Task>

    ghost function View(): State
      reads this
    {
      State(expCmdSn, pending, executed)
    }

    constructor (exp: u32)
      ensures View() == State(exp, [], [])
    {
      expCmdSn, pending, executed := exp, [], [];
    }

    method Execute(task: Task)
      modifies `executed
      ensures executed == old(executed) + [task]
    {
      executed := executed + [task];
    }

    /** The list walk of iscsi_task_queue: where the task goes. */
    method Place(sn: u32) returns (k: nat)
      ensures k <= |pending|
      ensures k < |pending| ==> Before(sn, pending[k].sn)
      ensures forall j | 0 <= j < k :: !Before(sn, pending[j].sn)
    {
      k := 0;
      while k < |pending| && !Before(sn, pending[k].sn)
        invariant k <= |pending|
        invariant forall j | 0 <= j < k :: !Before(sn, pending[j].sn)
      {
        k := k + 1;
      }
    }

    /** iscsi_task_queue */
    method TaskQueue(task: Task) returns (ok: bool)
      modifies this
      ensures View() == Accept(old(View()), task)
      ensures ok == !Rejected(old(View()), task)
    {
      if task.immediate {
        Execute(task);
        return true;
      }
      if task.sn == expCmdSn {
        Run(task);
        return true;
      }
      if Before(task.sn, expCmdSn) {
        return false;
      }
      var k := Place(task.sn);
      InsertIs(pending, task, k);
      pending := pending[..k] + [task] + pending[k..];
      return true;
    }

    /** The retry loop of iscsi_task_queue. */
    method Run(first: Task)
      requires !first.immediate && first.sn == expCmdSn
      modifies this
      ensures View() == Accept(old(View()), first)
    {
      expCmdSn := Next(expCmdSn);
      Execute(first);
      while pending != [] && pending[0].sn == expCmdSn
        invariant Drain(View()) == Accept(old(View()), first)
        decreases |pending|
      {
        var task := pending[0];
        pending := pending[1..];
        expCmdSn := Next(expCmdSn);
        Execute(task);
      }
    }
  }

  lemma {:induction false} InsertIs(p: seq<Task>, t: Task, k: nat)
    requires k <= |p|
    requires k < |p| ==> Before(t.sn, p[k].sn)
    requires forall j | 0 <= j < k :: !Before(t.sn, p[j].sn)
    ensures Insert(p, t) == p[..k] + [t] + p[k..]
  {
    if k > 0 {
      InsertIs(p[1..], t, k - 1);
      assert p[..k] + [t] + p[k..] == [p[0]] + (p[1..][..k - 1] + [t] + p[1..][k - 1..]);
    }
  }

  // ---- the pending list ----

  /** Strictly sorted by distance from e, all inside the window. */
  predicate Sorted(e: u32, p: seq<Task>)
  {
    && (forall i | 0 <= i < |p| :: Ahead(e, p[i].sn) < HALF)
    && (forall i, j | 0 <= i < j < |p| :: Ahead(e, p[i].sn) < Ahead(e, p[j].sn))
    && (forall i | 0 <= i < |p| :: !p[i].immediate)
  }

  /** Between calls: sorted, and ExpCmdSN itself is not waiting. */
  predicate Inv(s: State)
  {
    Sorted(s.exp, s.pending) && (forall i | 0 <= i < |s.pending| :: s.pending[i].sn != s.exp)
  }

  predicate Waiting(s: State, sn: u32)
  {
    exists i | 0 <= i < |s.pending| :: s.pending[i].sn == sn
  }

  lemma {:induction false} InsertKeeps(e: u32, p: seq<Task>, t: Task)
    requires Sorted(e, p) && !t.immediate && Ahead(e, t.sn) < HALF
    requires forall i | 0 <= i < |p| :: p[i].sn != t.sn
    ensures Sorted(e, Insert(p, t))
    ensures multiset(Insert(p, t)) == multiset(p) + multiset{t}
  {
    var k := 0;
    while k < |p| && !Before(t.sn, p[k].sn)
      invariant k <= |p|
      invariant forall j | 0 <= j < k :: !Before(t.sn, p[j].sn)
    {
      k := k + 1;
    }
    InsertIs(p, t, k);
    forall i | 0 <= i < |p|
      ensures Before(t.sn, p[i].sn) <==> Ahead(e, t.sn) < Ahead(e, p[i].sn)
      ensures Ahead(e, t.sn) != Ahead(e, p[i].sn)
    {
      BeforeInWindow(e, t.sn, p[i].sn);
    }
    SplicedSorted(e, p, t, k);
    assert p == p[..k] + p[k..];
  }

  lemma SplicedSorted(e: u32, p: seq<Task>, t: Task, k: nat)
    requires Sorted(e, p) && !t.immediate && Ahead(e, t.sn) < HALF && k <= |p|
    requires forall i | 0 <= i < k :: Ahead(e, p[i].sn) < Ahead(e, t.sn)
    requires k < |p| ==> Ahead(e, t.sn) < Ahead(e, p[k].sn)
    ensures Sorted(e, p[..k] + [t] + p[k..])
  {
  }

  lemma {:induction false} DrainKeeps(s: State)
    requires Sorted(s.exp, s.pending)
    ensures Inv(Drain(s))
    decreases |s.pending|
  {
    if s.pending != [] && s.pending[0].sn == s.exp {
      Advance(s.exp, s.pending[1..]);
      DrainKeeps(State(Next(s.exp), s.pending[1..], s.executed + [s.pending[0]]));
    }
  }

  lemma Advance(e: u32, p: seq<Task>)
    requires Sorted(e, p) && (forall i | 0 <= i < |p| :: p[i].sn != e)
    ensures Sorted(Next(e), p)
  {
    forall i | 0 <= i < |p|
      ensures Ahead(Next(e), p[i].sn) == Ahead(e, p[i].sn) - 1
    {
      AheadOfNext(e, p[i].sn);
    }
  }

  /** One arrival keeps the list strictly sorted exactly when it does not repeat a number already waiting. */
  lemma AcceptKeepsInv(s: State, t: Task)
    requires Inv(s)
    ensures Inv(Accept(s, t)) <==> t.immediate || !Waiting(s, t.sn)
  {
    if !t.immediate && t.sn == s.exp {
      Advance(s.exp, s.pending);
      DrainKeeps(State(Next(s.exp), s.pending, s.executed + [t]));
    } else if !t.immediate && !Before(t.sn, s.exp) {
      if Waiting(s, t.sn) {
        RepeatBreaks(s.exp, s.pending, t);
      } else {
        InsertKeeps(s.exp, s.pending, t);
        InsertedOnly(s.pending, t);
      }
    } else if !t.immediate && Waiting(s, t.sn) {
      assert false;
    }
  }

  lemma {:induction false} InsertedOnly(p: seq<Task>, t: Task)
    ensures forall i | 0 <= i < |Insert(p, t)| :: Insert(p, t)[i] == t || Insert(p, t)[i] in p
    ensures |Insert(p, t)| == |p| + 1
  {
    if p != [] && !Before(t.sn, p[0].sn) {
      InsertedOnly(p[1..], t);
    }
  }

  lemma RepeatBreaks(e: u32, p: seq<Task>, t: Task)
    requires exists i | 0 <= i < |p| :: p[i].sn == t.sn
    ensures !Sorted(e, Insert(p, t))
  {
    var i :| 0 <= i < |p| && p[i].sn == t.sn;
    RepeatAt(p, t, i);
  }

  lemma {:induction false} RepeatAt(p: seq<Task>, t: Task, i: nat)
    requires i < |p| && p[i].sn == t.sn
    ensures exists a, b | 0 <= a < b < |Insert(p, t)| :: Insert(p, t)[a].sn == Insert(p, t)[b].sn
  {
    if Before(t.sn, p[0].sn) {
      assert Insert(p, t)[0].sn == Insert(p, t)[i + 1].sn;
    } else if i == 0 {
      FindInserted(p[1..], t);
      var b :| 0 <= b < |Insert(p[1..], t)| && Insert(p[1..], t)[b] == t;
      assert Insert(p, t)[0].sn == Insert(p, t)[b + 1].sn;
    } else {
      RepeatAt(p[1..], t, i - 1);
      var q := Insert(p[1..], t);
      var a, b :| 0 <= a < b < |q| && q[a].sn == q[b].sn;
      assert Insert(p, t)[a + 1].sn == Insert(p, t)[b + 1].sn;
    }
  }

  lemma {:induction false} FindInserted(p: seq<Task>, t: Task)
    ensures exists b | 0 <= b < |Insert(p, t)| :: Insert(p, t)[b] == t
  {
    if p != [] && !Before(t.sn, p[0].sn) {
      FindInserted(p[1..], t);
      var b :| 0 <= b < |Insert(p[1..], t)| && Insert(p[1..], t)[b] == t;
      assert Insert(p, t)[b + 1] == t;
    } else {
      assert Insert(p, t)[0] == t;
    }
  }

  // ---- order of execution, for every run ----

  predicate NoneImmediate(p: seq<Task>)
  {
    forall i | 0 <= i < |p| :: !p[i].immediate
  }

  function Ordered(ts: seq<Task>): seq<Task>
  {
    if ts == [] then []
    else Ordered(ts[..|ts| - 1]) + if ts[|ts| - 1].immediate then [] else [ts[|ts| - 1]]
  }

  lemma OrderedAppend(ts: seq<Task>, t: Task)
    ensures Ordered(ts + [t]) == Ordered(ts) + if t.immediate then [] else [t]
  {
    assert (ts + [t])[..|ts|] == ts;
  }

  /** The non-immediate tasks executed so far are base, base + 1, ... and ExpCmdSN is the next one. */
  predicate InOrder(base: u32, s: State)
  {
    var ex := Ordered(s.executed);
    s.exp == Plus(base, |ex|) && forall k | 0 <= k < |ex| :: ex[k].sn == Plus(base, k)
  }

  lemma ExecuteNext(base: u32, s: State, t: Task, p: seq<Task>)
    requires InOrder(base, s) && t.sn == s.exp && !t.immediate
    ensures InOrder(base, State(Next(s.exp), p, s.executed + [t]))
  {
    OrderedAppend(s.executed, t);
  }

  lemma {:induction false} DrainInOrder(base: u32, s: State)
    requires InOrder(base, s) && NoneImmediate(s.pending)
    ensures InOrder(base, Drain(s)) && NoneImmediate(Drain(s).pending)
    decreases |s.pending|
  {
    if s.pending != [] && s.pending[0].sn == s.exp {
      ExecuteNext(base, s, s.pending[0], s.pending[1..]);
      DrainInOrder(base, State(Next(s.exp), s.pending[1..], s.executed + [s.pending[0]]));
    }
  }

  lemma AcceptInOrder(base: u32, s: State, t: Task)
    requires InOrder(base, s) && NoneImmediate(s.pending)
    ensures InOrder(base, Accept(s, t)) && NoneImmediate(Accept(s, t).pending)
  {
    OrderedAppend(s.executed, t);
    InsertedOnly(s.pending, t);
    if !t.immediate && t.sn == s.exp {
      ExecuteNext(base, s, t, s.pending);
      DrainInOrder(base, State(Next(s.exp), s.pending, s.executed + [t]));
    }
  }

  function Started(base: u32): State
  {
    State(base, [], [])
  }

  /** Whatever arrives, repeated or out of the window or not, execution is base, base + 1, ... mod 2^32 with no gap
      and no repeat. */
  lemma {:induction false} ExecutionInOrder(base: u32, ts: seq<Task>)
    ensures InOrder(base, AcceptAll(Started(base), ts))
    ensures NoneImmediate(AcceptAll(Started(base), ts).pending)
  {
    if ts != [] {
      ExecutionInOrder(base, ts[..|ts| - 1]);
      AcceptInOrder(base, AcceptAll(Started(base), ts[..|ts| - 1]), ts[|ts| - 1]);
    }
  }

  // ---- what is refused ----

  lemma {:induction false} DrainExtends(s: State)
    ensures s.executed <= Drain(s).executed
    decreases |s.pending|
  {
    if s.pending != [] && s.pending[0].sn == s.exp {
      DrainExtends(State(Next(s.exp), s.pending[1..], s.executed + [s.pending[0]]));
    }
  }

  /** A task is refused, and forgotten, if and only if it is not immediate and its number lies in the half before the
      expected one; every other task is executed at once, if immediate or expected, or waits. */
  lemma RefusedIff(s: State, t: Task)
    ensures Rejected(s, t) <==> !t.immediate && t.sn != s.exp && Ahead(s.exp, t.sn) >= HALF
    ensures Rejected(s, t) ==> Accept(s, t) == s
    ensures t.immediate || t.sn == s.exp ==> s.executed + [t] <= Accept(s, t).executed
    ensures !Rejected(s, t) && !t.immediate && t.sn != s.exp ==>
              t in Accept(s, t).pending && Accept(s, t).executed == s.executed && Accept(s, t).exp == s.exp
  {
    InsertedOnly(s.pending, t);
    FindInserted(s.pending, t);
    if !t.immediate && t.sn == s.exp {
      DrainExtends(State(Next(s.exp), s.pending, s.executed + [t]));
    }
  }

  // ---- immediate tasks ----

  function Immediates(ts: seq<Task>): seq<Task>
  {
    if ts == [] then []
    else Immediates(ts[..|ts| - 1]) + if ts[|ts| - 1].immediate then [ts[|ts| - 1]] else []
  }

  lemma ImmediatesAppend(ts: seq<Task>, t: Task)
    ensures Immediates(ts + [t]) == Immediates(ts) + if t.immediate then [t] else []
  {
    assert (ts + [t])[..|ts|] == ts;
  }

  lemma {:induction false} DrainImmediates(s: State)
    requires NoneImmediate(s.pending)
    ensures Immediates(Drain(s).executed) == Immediates(s.executed)
    decreases |s.pending|
  {
    if s.pending != [] && s.pending[0].sn == s.exp {
      ImmediatesAppend(s.executed, s.pending[0]);
      DrainImmediates(State(Next(s.exp), s.pending[1..], s.executed + [s.pending[0]]));
    }
  }

  lemma AcceptImmediates(s: State, t: Task)
    requires NoneImmediate(s.pending)
    ensures Immediates(Accept(s, t).executed) == Immediates(s.executed) + if t.immediate then [t] else []
    ensures t.immediate ==> Accept(s, t).executed == s.executed + [t] && Accept(s, t).exp == s.exp
  {
    ImmediatesAppend(s.executed, t);
    if !t.immediate && t.sn == s.exp {
      DrainImmediates(State(Next(s.exp), s.pending, s.executed + [t]));
    }
  }

  /** For every arrival sequence, the immediate tasks are executed each once and in the order of their arrival, every
      one at its own arrival and without using up a number. */
  lemma {:induction false} ImmediateAtOnce(base: u32, ts: seq<Task>)
    ensures Immediates(AcceptAll(Started(base), ts).executed) == Immediates(ts)
    ensures forall i | 0 <= i < |ts| && ts[i].immediate ::
              var before, after := AcceptAll(Started(base), ts[..i]), AcceptAll(Started(base), ts[..i + 1]);
              after.executed == before.executed + [ts[i]] && after.exp == before.exp
  {
    if ts != [] {
      var front, t := ts[..|ts| - 1], ts[|ts| - 1];
      ImmediateAtOnce(base, front);
      ExecutionInOrder(base, front);
      AcceptImmediates(AcceptAll(Started(base), front), t);
      forall i | 0 <= i < |ts| && ts[i].immediate
        ensures var before, after := AcceptAll(Started(base), ts[..i]), AcceptAll(Started(base), ts[..i + 1]);
                after.executed == before.executed + [ts[i]] && after.exp == before.exp
      {
        if i < |front| {
          assert front[..i] == ts[..i] && front[..i + 1] == ts[..i + 1];
        } else {
          assert ts[..i + 1] == ts;
        }
      }
    }
  }

  // ---- nothing lost ----

  function Held(s: State): multiset<Task>
  {
    multiset(Ordered(s.executed)) + multiset(s.pending)
  }

  lemma {:induction false} DrainHolds(s: State)
    requires NoneImmediate(s.pending)
    ensures Held(Drain(s)) == Held(s)
    decreases |s.pending|
  {
    if s.pending != [] && s.pending[0].sn == s.exp {
      var t := s.pending[0];
      OrderedAppend(s.executed, t);
      assert s.pending == [t] + s.pending[1..];
      DrainHolds(State(Next(s.exp), s.pending[1..], s.executed + [t]));
    }
  }

  lemma AcceptHolds(s: State, t: Task)
    requires Inv(s) && (t.immediate || (!Rejected(s, t) && !Waiting(s, t.sn)))
    ensures Held(Accept(s, t)) == Held(s) + if t.immediate then multiset{} else multiset{t}
  {
    OrderedAppend(s.executed, t);
    if !t.immediate && t.sn == s.exp {
      DrainHolds(State(Next(s.exp), s.pending, s.executed + [t]));
    } else if !t.immediate {
      InsertKeeps(s.exp, s.pending, t);
    }
  }

  /** Every arrival was inside the window and not already waiting. */
  predicate Proper(base: u32, ts: seq<Task>)
  {
    ts != [] ==>
      var s, t := AcceptAll(Started(base), ts[..|ts| - 1]), ts[|ts| - 1];
      Proper(base, ts[..|ts| - 1]) && (t.immediate || (!Rejected(s, t) && !Waiting(s, t.sn)))
  }

  /** Such a run, however often the numbers wrap, keeps the list strictly sorted without ExpCmdSN, and every
      non-immediate task is executed or waiting, once. */
  lemma {:induction false} NothingLost(base: u32, ts: seq<Task>)
    requires Proper(base, ts)
    ensures Inv(AcceptAll(Started(base), ts))
    ensures Held(AcceptAll(Started(base), ts)) == multiset(Ordered(ts))
  {
    if ts != [] {
      var s, t := AcceptAll(Started(base), ts[..|ts| - 1]), ts[|ts| - 1];
      NothingLost(base, ts[..|ts| - 1]);
      AcceptKeepsInv(s, t);
      AcceptHolds(s, t);
    }
  }

  // ---- any permutation of consecutive numbers ----

  predicate Distinct(ts: seq<Task>)
  {
    forall i, j | 0 <= i < j < |ts| :: ts[i].sn != ts[j].sn
  }

  predicate InWindow(base: u32, ts: seq<Task>)
  {
    forall i | 0 <= i < |ts| :: Ahead(base, ts[i].sn) < HALF
  }

  lemma InHeld(s: State, ts: seq<Task>, x: Task) returns (i: nat)
    requires Held(s) == multiset(ts) && (x in Ordered(s.executed) || x in s.pending)
    ensures i < |ts| && ts[i] == x
  {
    assert x in multiset(ts);
    i :| 0 <= i < |ts| && ts[i] == x;
  }

  /** A number not seen before and less than 2^31 from the start is neither rejected nor waiting. */
  lemma FreshIsProper(base: u32, s: State, seen: seq<Task>, t: Task)
    requires Inv(s) && InOrder(base, s) && Held(s) == multiset(seen) && Distinct(seen + [t])
    requires Ahead(base, t.sn) < HALF
    ensures !Before(t.sn, s.exp) && !Waiting(s, t.sn)
  {
    var ex, o := Ordered(s.executed), Ahead(base, t.sn);
    forall i | 0 <= i < |seen|
      ensures seen[i].sn != t.sn
    {
      assert (seen + [t])[i] == seen[i] && (seen + [t])[|seen|] == t;
    }
    if o < |ex| {
      PlusDistinct(base, t.sn);
      var i := InHeld(s, seen, ex[o]);
      assert false;
    }
    PlusAhead(base, |ex|, t.sn);
    if Waiting(s, t.sn) {
      var k :| 0 <= k < |s.pending| && s.pending[k].sn == t.sn;
      var i := InHeld(s, seen, s.pending[k]);
      assert false;
    }
  }

  lemma {:induction false} DistinctIsProper(base: u32, ts: seq<Task>)
    requires Distinct(Ordered(ts)) && InWindow(base, Ordered(ts))
    ensures Proper(base, ts)
  {
    if ts != [] {
      var front, t := ts[..|ts| - 1], ts[|ts| - 1];
      DistinctPrefix(base, Ordered(front), if t.immediate then [] else [t]);
      DistinctIsProper(base, front);
      if !t.immediate {
        NothingLost(base, front);
        ExecutionInOrder(base, front);
        assert Ordered(ts)[|Ordered(front)|] == t;
        FreshIsProper(base, AcceptAll(Started(base), front), Ordered(front), t);
      }
    }
  }

  lemma DistinctPrefix(base: u32, a: seq<Task>, b: seq<Task>)
    requires Distinct(a + b) && InWindow(base, a + b)
    ensures Distinct(a) && InWindow(base, a)
  {
    assert forall i | 0 <= i < |a| :: a[i] == (a + b)[i];
  }

  /** The numbers base, ..., base + n - 1, each once. */
  predicate Permutation(base: u32, n: nat, ts: seq<Task>)
  {
    && |ts| == n && Distinct(ts)
    && (forall i | 0 <= i < n :: Ahead(base, ts[i].sn) < n)
    && (forall k | 0 <= k < n :: exists i | 0 <= i < n :: ts[i].sn == Plus(base, k))
  }

  /** Any arrival order of n <= 2^31 consecutive numbers, immediate tasks between them or not, ends with all of them
      executed in order and none waiting. */
  lemma PermutationDrains(base: u32, n: nat, ts: seq<Task>)
    requires n <= HALF && Permutation(base, n, Ordered(ts))
    ensures var s := AcceptAll(Started(base), ts);
      && s.pending == [] && s.exp == Plus(base, n)
      && multiset(Ordered(s.executed)) == multiset(Ordered(ts))
      && |Ordered(s.executed)| == n && forall k | 0 <= k < n :: Ordered(s.executed)[k].sn == Plus(base, k)
  {
    var s := AcceptAll(Started(base), ts);
    DistinctIsProper(base, ts);
    NothingLost(base, ts);
    ExecutionInOrder(base, ts);
    var ex := Ordered(s.executed);
    assert |ex| + |s.pending| == |Held(s)| == n;
    if s.pending != [] {
      var i :| 0 <= i < n && Ordered(ts)[i].sn == Plus(base, |ex|);
      assert Ordered(ts)[i] in Held(s);
      ExpNotHeld(base, s, Ordered(ts)[i]);
    }
    assert Held(s) == multiset(ex);
  }

  lemma ExpNotHeld(base: u32, s: State, x: Task)
    requires Inv(s) && InOrder(base, s) && x.sn == s.exp && |Ordered(s.executed)| < MODULUS
    ensures x !in Held(s)
  {
    var ex := Ordered(s.executed);
    if x in ex {
      var k :| 0 <= k < |ex| && ex[k] == x;
      AheadPlus(base, k);
      AheadPlus(base, |ex|);
    }
  }

  // ---- a repeated number ----

  /** A repeated number that arrives while its first copy waits leaves a stale entry at the head of the list: here 3 has
      arrived and is expected, and stays in the list. */
  lemma RepeatStalls()
    ensures var ts := [Task(1, false, 0), Task(1, false, 1), Task(0, false, 2), Task(3, false, 3), Task(2, false, 4)];
      var s1 := Accept(Accept(Accept(Started(0), ts[0]), ts[1]), ts[2]);
      var s := Accept(Accept(s1, ts[3]), ts[4]);
      s.exp == 3 && s.pending == [ts[1], ts[3]] && s.executed == [ts[2], ts[0], ts[4]]
  {
    var a, b, c, d := Task(1, false, 0), Task(1, false, 1), Task(0, false, 2), Task(3, false, 3);
    assert Accept(Started(0), a) == State(0, [a], []);
    assert Insert([a], b) == [a] + Insert([], b);
    assert Accept(State(0, [a], []), b) == State(0, [a, b], []);
    assert [] + [c] == [c] && [c] + [a] == [c, a] && [a, b][1..] == [b];
    assert Accept(State(0, [a, b], []), c) == Drain(State(1, [a, b], [c]));
    assert Drain(State(1, [a, b], [c])) == Drain(State(2, [b], [c, a]));
    assert Insert([b], d) == [b] + Insert([], d);
    assert Accept(State(2, [b], [c, a]), d) == State(2, [b, d], [c, a]);
  }

  lemma {:induction false} InsertCounts(p: seq<Task>, t: Task)
    ensures multiset(Insert(p, t)) == multiset(p) + multiset{t}
  {
    if p != [] && !Before(t.sn, p[0].sn) {
      InsertCounts(p[1..], t);
      assert p == [p[0]] + p[1..];
    }
  }

  /** A head that ExpCmdSN has passed by at most k numbers. */
  predicate Stale(s: State, h: Task, k: nat)
  {
    s.pending != [] && s.pending[0] == h && 0 < Ahead(h.sn, s.exp) <= k
  }

  /** Numbers of the half that starts with the stale one; all others are behind it or far ahead. */
  predicate Near(h: Task, t: Task)
  {
    t.immediate || Ahead(h.sn, t.sn) < HALF
  }

  lemma StaleStep(s: State, t: Task, h: Task, k: nat)
    requires Stale(s, h, k) && k < HALF && Near(h, t)
    ensures Stale(Accept(s, t), h, k + 1) && multiset(s.pending) <= multiset(Accept(s, t).pending)
  {
    InsertCounts(s.pending, t);
    if !t.immediate && t.sn == s.exp {
      assert Ahead(h.sn, Next(s.exp)) == Ahead(h.sn, s.exp) + 1;
    }
  }

  /** A stale head stays in place over every sequence of near arrivals, until ExpCmdSN is half the numbers away:
      whatever is in the list, or gets into it, is not executed. */
  lemma {:induction false} StaleHeadStays(s: State, ts: seq<Task>, h: Task, k: nat)
    requires Stale(s, h, k) && k + |ts| <= HALF && forall i | 0 <= i < |ts| :: Near(h, ts[i])
    ensures Stale(AcceptAll(s, ts), h, k + |ts|)
    ensures forall n | 0 <= n <= |ts| ::
      multiset(AcceptAll(s, ts[..n]).pending) <= multiset(AcceptAll(s, ts).pending)
  {
    if ts == [] {
      assert ts[..0] == ts;
    } else {
      var front, t := ts[..|ts| - 1], ts[|ts| - 1];
      StaleHeadStays(s, front, h, k);
      StaleStep(AcceptAll(s, front), t, h, k + |front|);
      forall n | 0 <= n <= |ts|
        ensures multiset(AcceptAll(s, ts[..n]).pending) <= multiset(AcceptAll(s, ts).pending)
      {
        if n == |ts| {
          assert ts[..n] == ts;
        } else {
          assert front[..n] == ts[..n];
        }
      }
    }
  }
}
