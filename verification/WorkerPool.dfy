/** The worker threads of one backing store, as atomic steps: what runs under one lock, or between two, is one step.
    Workers are interchangeable, so their program points are counted. */
module WorkerPool {

  /** A command, numbered in order of submission. */
  type Id = nat

  /** `checking` workers are about to look at the pending list, `waiting` ones sleep on pending_cond, `working`
      holds the commands being served, `notifying` workers have appended to the finished list and not yet notified,
      and `signalling` says that the main loop has appended to the pending list and not yet signalled. */
  datatype Pool = Pool(pending: seq<Id>, signalling: bool, checking: nat, waiting: nat, working: multiset<Id>,
                       notifying: nat)
  {
    function Workers(): nat { checking + waiting + |working| + notifying }
  }

  /** The first half of bs_thread_cmd_submit, and the second. */
  function Submit(p: Pool, c: Id): Pool { p.(pending := p.pending + [c], signalling := true) }

  function Signal(p: Pool): Pool
  {
    if p.waiting > 0 then p.(signalling := false, waiting := p.waiting - 1, checking := p.checking + 1)
    else p.(signalling := false)
  }

  /** pthread_cond_wait may return at any time. */
  function Spurious(p: Pool): Pool
    requires p.waiting > 0
  {
    p.(waiting := p.waiting - 1, checking := p.checking + 1)
  }

  /** A worker looks at the pending list: it takes the first command, or goes to sleep. */
  function Check(p: Pool): Pool
    requires p.checking > 0
  {
    if p.pending == [] then p.(checking := p.checking - 1, waiting := p.waiting + 1)
    else p.(checking := p.checking - 1, pending := p.pending[1..], working := p.working + multiset{p.pending[0]})
  }

  /** The request is served and the command appended to the finished list. */
  function Append(p: Pool, c: Id): Pool
    requires c in p.working
  {
    p.(working := p.working - multiset{c}, notifying := p.notifying + 1)
  }

  /** The worker has notified and goes round its loop. */
  function Notified(p: Pool): Pool
    requires p.notifying > 0
  {
    p.(notifying := p.notifying - 1, checking := p.checking + 1)
  }

  function Held(p: Pool): multiset<Id> { multiset(p.pending) + p.working }

  /** A command waits only while some worker is up or a signal is due. */
  predicate Awake(p: Pool, n: nat)
  {
    p.Workers() == n > 0 && (p.pending != [] && !p.signalling ==> p.waiting < n)
  }

  lemma PoolStaysAwake(p: Pool, n: nat, c: Id)
    requires Awake(p, n)
    ensures Awake(Submit(p, c), n) && Awake(Signal(p), n)
    ensures p.waiting > 0 ==> Awake(Spurious(p), n)
    ensures p.checking > 0 ==> Awake(Check(p), n)
    ensures c in p.working ==> Awake(Append(p, c), n)
    ensures p.notifying > 0 ==> Awake(Notified(p), n)
  {
  }

  // ---- accounting ----

  /** Commands are numbered as they are submitted. */
  predicate Numbered(ids: seq<Id>)
  {
    forall i | 0 <= i < |ids| :: ids[i] == i
  }

  lemma {:induction false} CountNumbered(ids: seq<Id>, c: Id)
    requires Numbered(ids)
    ensures multiset(ids)[c] == if c < |ids| then 1 else 0
  {
    if ids != [] {
      CountNumbered(ids[..|ids| - 1], c);
      assert ids == ids[..|ids| - 1] + [ids[|ids| - 1]];
    }
  }

  /** What is pending is what was submitted last, so commands are taken in the order of submission. */
  predicate InTurn(submitted: seq<Id>, p: Pool)
  {
    |p.pending| <= |submitted| && p.pending == submitted[|submitted| - |p.pending|..]
  }

  /** Every submitted command is in the pool or in the log of finished ones, and nothing else is. */
  predicate Conserved(submitted: seq<Id>, p: Pool, log: seq<Id>)
  {
    Numbered(submitted) && multiset(submitted) == Held(p) + multiset(log) && InTurn(submitted, p)
  }

  /** A worker that finds commands takes the one submitted first among them: the k-th command taken is number k. */
  lemma TakesOldest(submitted: seq<Id>, p: Pool, log: seq<Id>)
    requires Conserved(submitted, p, log) && p.checking > 0 && p.pending != []
    ensures Check(p).working == p.working + multiset{|submitted| - |p.pending|}
    ensures forall c | c in Check(p).pending :: c > |submitted| - |p.pending|
    ensures |Check(p).pending| == |p.pending| - 1
  {
    assert p.pending[0] == submitted[|submitted| - |p.pending|];
    forall c | c in Check(p).pending
      ensures c > |submitted| - |p.pending|
    {
      var i :| 0 <= i < |Check(p).pending| && Check(p).pending[i] == c;
      assert c == submitted[|submitted| - |p.pending| + 1 + i];
    }
  }

  lemma FreshPool(n: nat)
    requires n > 0
    ensures Awake(Pool([], false, n, 0, multiset{}, 0), n) && Conserved([], Pool([], false, n, 0, multiset{}, 0), [])
  {
  }

  lemma SubmitConserves(submitted: seq<Id>, p: Pool, log: seq<Id>)
    requires Conserved(submitted, p, log)
    ensures Conserved(submitted + [|submitted|], Submit(p, |submitted|), log)
  {
  }

  lemma AppendConserves(submitted: seq<Id>, p: Pool, log: seq<Id>, c: Id)
    requires Conserved(submitted, p, log) && c in p.working
    ensures Conserved(submitted, Append(p, c), log + [c])
  {
    assert Held(Append(p, c)) + multiset{c} == Held(p);
  }

  lemma CheckConserves(submitted: seq<Id>, p: Pool, log: seq<Id>)
    requires Conserved(submitted, p, log) && p.checking > 0
    ensures Conserved(submitted, Check(p), log)
  {
    if p.pending != [] {
      assert p.pending == [p.pending[0]] + p.pending[1..];
    }
    assert Held(Check(p)) == Held(p);
  }

  /** Steps that move no command. */
  lemma SameConserves(submitted: seq<Id>, p: Pool, q: Pool, log: seq<Id>)
    requires Conserved(submitted, p, log) && q.pending == p.pending && q.working == p.working
    ensures Conserved(submitted, q, log)
  {
  }

  /** Work left in the pool; `up` pays for what a notification causes outside it, `fin` for what a finished command
      does. */
  function Work(p: Pool, up: nat, fin: nat): nat
  {
    (3 + up + fin) * (|p.pending| + |p.working|) + (2 + up) * p.notifying + p.checking + if p.signalling then 2 else 0
  }

  lemma CheckWorks(p: Pool, up: nat, fin: nat)
    requires p.checking > 0
    ensures Work(Check(p), up, fin) < Work(p, up, fin)
  {
  }

  lemma AppendWorks(p: Pool, c: Id, up: nat, fin: nat)
    requires c in p.working
    ensures Work(Append(p, c), up, fin) == Work(p, up, fin) - 1 - fin
  {
    var k, w := |p.pending| + |p.working|, 3 + up + fin;
    assert |Append(p, c).working| == |p.working| - 1;
    assert w * (k - 1) == w * k - w;
    assert (2 + up) * (p.notifying + 1) == (2 + up) * p.notifying + (2 + up);
  }

  lemma NotifiedWorks(p: Pool, up: nat, fin: nat)
    requires p.notifying > 0
    ensures Work(Notified(p), up, fin) == Work(p, up, fin) - 1 - up
  {
    assert (2 + up) * (p.notifying - 1) == (2 + up) * p.notifying - (2 + up);
  }
}

/** Completion through SIGUSR2 and a signalfd. */
module SignalMode {
  import opened WorkerPool

  /** Where the main loop is in bs_sig_request_done: outside, between its read and its splice, or completing. */
  datatype Main = Polling | Splicing | Completing

  /** `log`: the order of appends to the finished list; `submitted` and `completed`: the main loop's. */
  datatype State = State(pool: Pool, finished: seq<Id>, usr2: bool, main: Main, list: seq<Id>,
                         submitted: seq<Id>, completed: seq<Id>, log: seq<Id>)

  datatype Step =
    | DoSubmit | DoSignal | DoSpurious | DoCheck | DoAppend(c: Id) | DoKill
    | DoRead | DoSplice | DoComplete | DoReturn

  predicate Enabled(s: State, step: Step)
  {
    match step
    case DoSubmit => !s.pool.signalling && s.main != Splicing
    case DoSignal => s.pool.signalling
    case DoSpurious => s.pool.waiting > 0
    case DoCheck => s.pool.checking > 0
    case DoAppend(c) => c in s.pool.working
    case DoKill => s.pool.notifying > 0
    case DoRead => !s.pool.signalling && s.main == Polling && s.usr2
    case DoSplice => s.main == Splicing
    case DoComplete => !s.pool.signalling && s.main == Completing && s.list != []
    case DoReturn => !s.pool.signalling && s.main == Completing && s.list == []
  }

  function Take(s: State, step: Step): State
    requires Enabled(s, step)
  {
    match step
    case DoSubmit =>
      var c := |s.submitted|;
      s.(pool := Submit(s.pool, c), submitted := s.submitted + [c])
    case DoSignal => s.(pool := Signal(s.pool))
    case DoSpurious => s.(pool := Spurious(s.pool))
    case DoCheck => s.(pool := Check(s.pool))
    case DoAppend(c) => s.(pool := Append(s.pool, c), finished := s.finished + [c], log := s.log + [c])
    case DoKill => s.(pool := Notified(s.pool), usr2 := true)
    case DoRead => s.(usr2 := false, main := Splicing)
    case DoSplice => s.(main := Completing, list := s.finished, finished := [])
    case DoComplete => s.(list := s.list[1..], completed := s.completed + [s.list[0]])
    case DoReturn => s.(main := Polling)
  }

  /** Nobody forgets a finished command. */
  predicate NotLost(s: State)
  {
    s.finished != [] ==> s.usr2 || s.pool.notifying > 0 || s.main == Splicing
  }

  /** Commands complete in the order in which they finished. */
  predicate Fifo(s: State)
  {
    s.log == s.completed + s.list + s.finished && (s.main != Completing ==> s.list == [])
  }

  predicate Inv(s: State, n: nat)
  {
    Awake(s.pool, n) && NotLost(s) && Conserved(s.submitted, s.pool, s.log) && Fifo(s)
  }

  function Initial(n: nat): State
  {
    State(Pool([], false, n, 0, multiset{}, 0), [], false, Polling, [], [], [], [])
  }

  lemma InitialInv(n: nat)
    requires n > 0
    ensures Inv(Initial(n), n)
  {
    FreshPool(n);
  }

  lemma TakeConserves(s: State, step: Step)
    requires Conserved(s.submitted, s.pool, s.log) && Enabled(s, step)
    ensures Conserved(Take(s, step).submitted, Take(s, step).pool, Take(s, step).log)
  {
    match step
    case DoSubmit => SubmitConserves(s.submitted, s.pool, s.log);
    case DoCheck => CheckConserves(s.submitted, s.pool, s.log);
    case DoAppend(c) => AppendConserves(s.submitted, s.pool, s.log, c);
    case _ => SameConserves(s.submitted, s.pool, Take(s, step).pool, s.log);
  }

  lemma TakeAwake(s: State, step: Step, n: nat)
    requires Awake(s.pool, n) && NotLost(s) && Enabled(s, step)
    ensures Awake(Take(s, step).pool, n) && NotLost(Take(s, step))
  {
    PoolStaysAwake(s.pool, n, if step.DoAppend? then step.c else 0);
  }

  lemma TakeFifo(s: State, step: Step)
    requires Fifo(s) && Enabled(s, step)
    ensures Fifo(Take(s, step))
  {
    if step == DoComplete {
      assert s.list == [s.list[0]] + s.list[1..];
    }
  }

  /** Every step of every interleaving keeps the invariant. */
  lemma TakeKeepsInv(s: State, step: Step, n: nat)
    requires Inv(s, n) && Enabled(s, step)
    ensures Inv(Take(s, step), n)
  {
    TakeAwake(s, step, n);
    TakeFifo(s, step);
    TakeConserves(s, step);
  }

  predicate Run(s: State, steps: seq<Step>)
    decreases |steps|
  {
    steps != [] ==> Enabled(s, steps[0]) && Run(Take(s, steps[0]), steps[1..])
  }

  function After(s: State, steps: seq<Step>): State
    requires Run(s, steps)
    decreases |steps|
  {
    if steps == [] then s else After(Take(s, steps[0]), steps[1..])
  }

  lemma {:induction false} RunKeepsInv(s: State, steps: seq<Step>, n: nat)
    requires Inv(s, n) && Run(s, steps)
    ensures Inv(After(s, steps), n)
    decreases |steps|
  {
    if steps != [] {
      TakeKeepsInv(s, steps[0], n);
      RunKeepsInv(Take(s, steps[0]), steps[1..], n);
    }
  }

  // ---- what follows ----

  /** Every run from the start, with any number of workers: the invariant holds, each submitted command is in one stage,
      and when the run can only go on by a new submission, all of them have completed. */
  lemma EveryRun(n: nat, steps: seq<Step>)
    requires n > 0 && Run(Initial(n), steps)
    ensures var s := After(Initial(n), steps);
      Inv(s, n) && (Quiet(s) ==> multiset(s.completed) == multiset(s.submitted))
  {
    InitialInv(n);
    RunKeepsInv(Initial(n), steps, n);
    var s := After(Initial(n), steps);
    if Quiet(s) {
      QuietMeansDone(s, n);
    }
  }

  /** A submitted command is in exactly one stage, and only submitted commands are in any. */
  lemma OneStage(s: State, n: nat, c: Id)
    requires Inv(s, n)
    ensures multiset(s.pool.pending)[c] + s.pool.working[c] + multiset(s.finished)[c] + multiset(s.list)[c]
      + multiset(s.completed)[c] == if c < |s.submitted| then 1 else 0
  {
    CountNumbered(s.submitted, c);
    assert multiset(s.submitted)[c] == Held(s.pool)[c] + multiset(s.log)[c];
  }

  predicate Internal(step: Step)
  {
    step != DoSubmit && step != DoSpurious
  }

  ghost predicate Quiet(s: State)
  {
    forall step | Internal(step) :: !Enabled(s, step)
  }

  /** When nothing can move but a new submission, every submitted command has completed. */
  lemma QuietMeansDone(s: State, n: nat)
    requires Inv(s, n) && Quiet(s)
    ensures multiset(s.completed) == multiset(s.submitted)
    ensures s.pool.pending == [] && s.pool.working == multiset{} && s.finished == [] && s.list == []
  {
    assert !Enabled(s, DoSignal) && !Enabled(s, DoCheck) && !Enabled(s, DoKill);
    assert !Enabled(s, DoRead) && !Enabled(s, DoSplice) && !Enabled(s, DoComplete) && !Enabled(s, DoReturn);
    NoneWorking(s);
  }

  lemma NoneWorking(s: State)
    requires Quiet(s)
    ensures s.pool.working == multiset{}
  {
    if s.pool.working != multiset{} {
      var c :| c in s.pool.working;
      assert Enabled(s, DoAppend(c));
    }
  }

  function Measure(s: State): int
  {
    Work(s.pool, 3, 1) + |s.finished| + |s.list|
    + (if s.usr2 then 3 else 0) + (match s.main case Polling => 0 case Splicing => 2 case Completing => 1)
  }

  /** And it gets there: without new submissions, only so many steps are possible. */
  lemma MeasureFalls(s: State, step: Step)
    requires Enabled(s, step) && Internal(step) && (s.main == Splicing ==> s.list == [])
    ensures Measure(s) >= 0 && Measure(Take(s, step)) < Measure(s)
  {
    match step
    case DoSignal =>
    case DoCheck => CheckWorks(s.pool, 3, 1);
    case DoAppend(c) => AppendWorks(s.pool, c, 3, 1);
    case DoKill => NotifiedWorks(s.pool, 3, 1);
    case DoRead =>
    case DoSplice =>
    case DoComplete =>
    case DoReturn =>
  }
}

/** Completion through a notification thread and a token passed through two pipes. */
module NotifyMode {
  import opened WorkerPool

  /** The ack thread in bs_thread_ack_fn: reading the command pipe, looking at the finished list, asleep on
      finished_cond, or about to write the done pipe. */
  datatype Ack = Reading | Looking | Asleep | Moved

  /** `command` and `done`: the tokens in the two pipes; `draining`: the main loop is between its read and its write. */
  datatype State = State(pool: Pool, finished: seq<Id>, ackList: seq<Id>, ack: Ack, command: nat, done: nat,
                         draining: bool, submitted: seq<Id>, completed: seq<Id>, log: seq<Id>)

  datatype Step =
    | DoSubmit | DoSignal | DoSpurious | DoCheck | DoAppend(c: Id) | DoNotify
    | AckRead | AckLook | AckSpurious | AckWrite | MainRead | MainComplete | MainWrite

  predicate Enabled(s: State, step: Step)
  {
    match step
    case DoSubmit => !s.pool.signalling
    case DoSignal => s.pool.signalling
    case DoSpurious => s.pool.waiting > 0
    case DoCheck => s.pool.checking > 0
    case DoAppend(c) => c in s.pool.working
    case DoNotify => s.pool.notifying > 0
    case AckRead => s.ack == Reading && s.command > 0
    case AckLook => s.ack == Looking
    case AckSpurious => s.ack == Asleep
    case AckWrite => s.ack == Moved
    case MainRead => !s.pool.signalling && !s.draining && s.done > 0
    case MainComplete => !s.pool.signalling && s.draining && s.ackList != []
    case MainWrite => !s.pool.signalling && s.draining && s.ackList == []
  }

  function Take(s: State, step: Step): State
    requires Enabled(s, step)
  {
    match step
    case DoSubmit =>
      var c := |s.submitted|;
      s.(pool := Submit(s.pool, c), submitted := s.submitted + [c])
    case DoSignal => s.(pool := Signal(s.pool))
    case DoSpurious => s.(pool := Spurious(s.pool))
    case DoCheck => s.(pool := Check(s.pool))
    case DoAppend(c) => s.(pool := Append(s.pool, c), finished := s.finished + [c], log := s.log + [c])
    case DoNotify => s.(pool := Notified(s.pool), ack := if s.ack == Asleep then Looking else s.ack)
    case AckRead => s.(command := s.command - 1, ack := Looking)
    case AckLook =>
      if s.finished == [] then s.(ack := Asleep)
      else s.(ack := Moved, ackList := s.ackList + s.finished, finished := [])
    case AckSpurious => s.(ack := Looking)
    case AckWrite => s.(ack := Reading, done := s.done + 1)
    case MainRead => s.(done := s.done - 1, draining := true)
    case MainComplete => s.(ackList := s.ackList[1..], completed := s.completed + [s.ackList[0]])
    case MainWrite => s.(draining := false, command := s.command + 1)
  }

  /** Tokens in the pipes, with the ack thread, and with the main loop. */
  function Tokens(s: State): nat
  {
    s.command + s.done + (if s.ack != Reading then 1 else 0) + (if s.draining then 1 else 0)
  }

  /** A finished command is not slept over. */
  predicate NotLost(s: State)
  {
    s.finished != [] && s.ack == Asleep ==> s.pool.notifying > 0
  }

  /** One token, and the list filled only where the token is past the ack thread's move. */
  predicate OneToken(s: State)
  {
    Tokens(s) == 1 && (s.ackList != [] ==> s.ack == Moved || s.done > 0 || s.draining)
  }

  /** Commands complete in the order in which they finished. */
  predicate Fifo(s: State)
  {
    s.log == s.completed + s.ackList + s.finished
  }

  predicate Inv(s: State, n: nat)
  {
    Awake(s.pool, n) && NotLost(s) && OneToken(s) && Conserved(s.submitted, s.pool, s.log) && Fifo(s)
  }

  function Initial(n: nat): State
  {
    State(Pool([], false, n, 0, multiset{}, 0), [], [], Reading, 1, 0, false, [], [], [])
  }

  lemma InitialInv(n: nat)
    requires n > 0
    ensures Inv(Initial(n), n)
  {
    FreshPool(n);
  }

  lemma TakeConserves(s: State, step: Step)
    requires Conserved(s.submitted, s.pool, s.log) && Enabled(s, step)
    ensures Conserved(Take(s, step).submitted, Take(s, step).pool, Take(s, step).log)
  {
    match step
    case DoSubmit => SubmitConserves(s.submitted, s.pool, s.log);
    case DoCheck => CheckConserves(s.submitted, s.pool, s.log);
    case DoAppend(c) => AppendConserves(s.submitted, s.pool, s.log, c);
    case _ => SameConserves(s.submitted, s.pool, Take(s, step).pool, s.log);
  }

  lemma TakeAwake(s: State, step: Step, n: nat)
    requires Awake(s.pool, n) && NotLost(s) && Enabled(s, step)
    ensures Awake(Take(s, step).pool, n) && NotLost(Take(s, step))
  {
    PoolStaysAwake(s.pool, n, if step.DoAppend? then step.c else 0);
  }

  lemma TakeFifo(s: State, step: Step)
    requires Fifo(s) && Enabled(s, step)
    ensures Fifo(Take(s, step))
  {
    if step == MainComplete {
      assert s.ackList == [s.ackList[0]] + s.ackList[1..];
    }
  }

  lemma TakeToken(s: State, step: Step)
    requires OneToken(s) && Enabled(s, step)
    ensures OneToken(Take(s, step))
  {
  }

  /** Every step of every interleaving keeps the invariant; in particular there is always exactly one token. */
  lemma TakeKeepsInv(s: State, step: Step, n: nat)
    requires Inv(s, n) && Enabled(s, step)
    ensures Inv(Take(s, step), n)
  {
    TakeAwake(s, step, n);
    TakeToken(s, step);
    TakeFifo(s, step);
    TakeConserves(s, step);
  }

  predicate Run(s: State, steps: seq<Step>)
    decreases |steps|
  {
    steps != [] ==> Enabled(s, steps[0]) && Run(Take(s, steps[0]), steps[1..])
  }

  function After(s: State, steps: seq<Step>): State
    requires Run(s, steps)
    decreases |steps|
  {
    if steps == [] then s else After(Take(s, steps[0]), steps[1..])
  }

  lemma {:induction false} RunKeepsInv(s: State, steps: seq<Step>, n: nat)
    requires Inv(s, n) && Run(s, steps)
    ensures Inv(After(s, steps), n)
    decreases |steps|
  {
    if steps != [] {
      TakeKeepsInv(s, steps[0], n);
      RunKeepsInv(Take(s, steps[0]), steps[1..], n);
    }
  }

  // ---- what follows ----

  /** Every run from the start, with any number of workers: the invariant holds, and when the run can only go on by
      a new submission, all of them have completed. */
  lemma EveryRun(n: nat, steps: seq<Step>)
    requires n > 0 && Run(Initial(n), steps)
    ensures var s := After(Initial(n), steps);
      Inv(s, n) && (Quiet(s) ==> multiset(s.completed) == multiset(s.submitted))
  {
    InitialInv(n);
    RunKeepsInv(Initial(n), steps, n);
    var s := After(Initial(n), steps);
    if Quiet(s) {
      QuietMeansDone(s, n);
    }
  }

  /** A step that touches the list is a step of the token's owner, and the two possible owners are never both in. */
  lemma AckListOwned(s: State, n: nat, step: Step)
    requires Inv(s, n) && Enabled(s, step)
    ensures !(s.ack != Reading && s.draining)
    ensures Take(s, step).ackList != s.ackList ==>
      if step == AckLook then s.ack == Looking && !s.draining
      else step == MainComplete && s.draining && s.ack == Reading
  {
  }

  predicate Internal(step: Step)
  {
    step != DoSubmit && step != DoSpurious && step != AckSpurious
  }

  ghost predicate Quiet(s: State)
  {
    forall step | Internal(step) :: !Enabled(s, step)
  }

  lemma QuietIsEmpty(s: State, n: nat)
    requires Awake(s.pool, n) && NotLost(s) && OneToken(s) && Quiet(s)
    ensures s.pool.pending == [] && s.pool.working == multiset{} && s.finished == [] && s.ackList == []
  {
    assert !Enabled(s, DoSignal) && !Enabled(s, DoCheck) && !Enabled(s, DoNotify);
    assert !Enabled(s, AckRead) && !Enabled(s, AckLook) && !Enabled(s, AckWrite);
    assert !Enabled(s, MainRead) && !Enabled(s, MainComplete) && !Enabled(s, MainWrite);
    NoneWorking(s);
  }

  /** When nothing can move but a new submission, every submitted command has completed, in the order of finishing. */
  lemma QuietMeansDone(s: State, n: nat)
    requires Inv(s, n) && Quiet(s)
    ensures s.completed == s.log && multiset(s.completed) == multiset(s.submitted)
  {
    QuietIsEmpty(s, n);
  }

  lemma NoneWorking(s: State)
    requires Quiet(s)
    ensures s.pool.working == multiset{}
  {
    if s.pool.working != multiset{} {
      var c :| c in s.pool.working;
      assert Enabled(s, DoAppend(c));
    }
  }

  function TokenWeight(s: State): nat
  {
    2 * s.command + 4 * s.done + (if s.draining then 3 else 0)
    + match s.ack case Reading => 0 case Looking => 1 case Asleep => 0 case Moved => 5
  }

  function Measure(s: State): int
  {
    Work(s.pool, 1, 6) + 6 * |s.finished| + |s.ackList| + TokenWeight(s)
  }

  /** And it gets there: without new submissions, only so many steps are possible. */
  lemma MeasureFalls(s: State, step: Step)
    requires Enabled(s, step) && Internal(step)
    ensures Measure(s) >= 0 && Measure(Take(s, step)) < Measure(s)
  {
    match step
    case DoCheck => CheckWorks(s.pool, 1, 6);
    case DoAppend(c) => AppendWorks(s.pool, c, 1, 6);
    case DoNotify => NotifiedWorks(s.pool, 1, 6);
    case _ =>
  }
}
