/** inflight_block and inflight_release: requests that share an object wait for each other. */
module Inflight {

  /** A request for the objects min, ..., max. */
  datatype Req = Req(id: nat, min: nat, max: nat)

  predicate Overlap(a: Req, b: Req)
  {
    !(a.max < b.min || b.max < a.min)
  }

  /** Requests about to walk the list, asleep on the condition, on the list, and done; `signals` are due from
      requests that have left the list. */
  datatype State = State(looking: set<Req>, asleep: set<Req>, running: set<Req>, done: set<Req>, signals: nat)

  datatype Step = Arrive(r: Req) | Look(r: Req) | Release(r: Req) | Signal(woken: Req) | SignalNone | Spurious(r: Req)

  predicate Enabled(s: State, step: Step)
  {
    match step
    case Arrive(r) => r !in s.looking + s.asleep + s.running + s.done
    case Look(r) => r in s.looking
    case Release(r) => r in s.running
    case Signal(r) => s.signals > 0 && r in s.asleep
    case SignalNone => s.signals > 0 && s.asleep == {}
    case Spurious(r) => r in s.asleep
  }

  function Take(s: State, step: Step): State
    requires Enabled(s, step)
  {
    match step
    case Arrive(r) => s.(looking := s.looking + {r})
    case Look(r) =>
      if exists x :: x in s.running && Overlap(r, x) then s.(looking := s.looking - {r}, asleep := s.asleep + {r})
      else s.(looking := s.looking - {r}, running := s.running + {r})
    case Release(r) => s.(running := s.running - {r}, done := s.done + {r}, signals := s.signals + 1)
    case Signal(r) => s.(signals := s.signals - 1, asleep := s.asleep - {r}, looking := s.looking + {r})
    case SignalNone => s.(signals := s.signals - 1)
    case Spurious(r) => s.(asleep := s.asleep - {r}, looking := s.looking + {r})
  }

  /** Requests that share an object are never on the list together. */
  predicate Exclusive(s: State)
  {
    forall a, b | a in s.running && b in s.running && a != b :: !Overlap(a, b)
  }

  /** Whoever sleeps can count on a request that will still signal, or on one that is up and will. */
  predicate NoSleepAlone(s: State)
  {
    s.asleep != {} ==> s.running != {} || s.looking != {} || s.signals > 0
  }

  predicate Inv(s: State)
  {
    && Exclusive(s) && NoSleepAlone(s)
    && s.looking !! s.asleep && s.looking !! s.running && s.asleep !! s.running
    && (s.looking + s.asleep + s.running) !! s.done
  }

  lemma TakeKeepsInv(s: State, step: Step)
    requires Inv(s) && Enabled(s, step)
    ensures Inv(Take(s, step))
    ensures step.Arrive? || Everyone(Take(s, step)) == Everyone(s)
  {
    var t := Take(s, step);
    match step
    case Arrive(r) => assert r in t.looking;
    case Look(r) =>
      if x :| x in s.running && Overlap(r, x) {
        assert x in t.running;
      } else {
        assert r in t.running;
      }
    case Release(r) =>
    case Signal(r) => assert r in t.looking;
    case SignalNone =>
    case Spurious(r) => assert r in t.looking;
  }

  function Everyone(s: State): set<Req>
  {
    s.looking + s.asleep + s.running + s.done
  }

  predicate Run(s: State, steps: seq<Step>)
    decreases |steps|
  {
    steps != [] ==> Enabled(s, steps[0]) && Run(Take(s, steps[0]), steps[1..])
  }

  function After(s: State, steps: seq<Step>): State
    requires Run(s, steps)
    decreases |steps|
  {
    if steps == [] then s else After(Take(s, steps[0]), steps[1..])
  }

  const EMPTY := State({}, {}, {}, {}, 0)

  lemma {:induction false} RunKeepsInv(s: State, steps: seq<Step>)
    requires Inv(s) && Run(s, steps)
    ensures Inv(After(s, steps))
    decreases |steps|
  {
    if steps != [] {
      TakeKeepsInv(s, steps[0]);
      RunKeepsInv(Take(s, steps[0]), steps[1..]);
    }
  }

  ghost predicate Quiet(s: State)
  {
    forall step: Step | !step.Arrive? && !step.Spurious? :: !Enabled(s, step)
  }

  /** In every run: no two requests that share an object are served together, and when nothing can move but a new
      arrival, every request has been served, although a release wakes only one sleeper. */
  lemma EveryRun(steps: seq<Step>)
    requires Run(EMPTY, steps)
    ensures var s := After(EMPTY, steps); Exclusive(s) && (Quiet(s) ==> Everyone(s) == s.done)
  {
    RunKeepsInv(EMPTY, steps);
    var s := After(EMPTY, steps);
    if Quiet(s) {
      QuietMeansServed(s);
    }
  }

  /** The request is for object i. */
  predicate Asks(r: Req, i: nat) { r.min <= i <= r.max }

  /** Over objects: in every run, two requests that are served together have no object in common. */
  lemma NoSharedObject(steps: seq<Step>, a: Req, b: Req, i: nat)
    requires Run(EMPTY, steps) && a in After(EMPTY, steps).running && b in After(EMPTY, steps).running && a != b
    ensures !(Asks(a, i) && Asks(b, i))
  {
    EveryRun(steps);
  }

  /** A request that looks is served at once if and only if none of its objects is asked for by one that runs. */
  lemma LookDecides(s: State, r: Req)
    requires r in s.looking && r !in s.running && r.min <= r.max && forall x | x in s.running :: x.min <= x.max
    ensures r in Take(s, Look(r)).running <==> forall x, i | x in s.running && Asks(r, i) :: !Asks(x, i)
  {
    forall x | x in s.running && Overlap(r, x)
      ensures exists i :: Asks(r, i) && Asks(x, i)
    {
      var i := if r.min < x.min then x.min else r.min;
      assert Asks(r, i) && Asks(x, i);
    }
  }

  lemma QuietMeansServed(s: State)
    requires Inv(s) && Quiet(s)
    ensures Everyone(s) == s.done
  {
    forall r
      ensures r !in s.looking && r !in s.running
    {
      assert !Enabled(s, Look(r)) && !Enabled(s, Release(r));
    }
    forall r
      ensures s.signals > 0 ==> r !in s.asleep
    {
      assert !Enabled(s, Signal(r));
    }
    assert s.looking == {} && s.running == {};
  }

  // ---- and served in finitely many steps ----

  function Measure(s: State): nat
  {
    4 * |s.looking| + 3 * |s.asleep| + 3 * |s.running| + 2 * s.signals
  }

  /** What a step of the environment adds. */
  function Allowance(step: Step): int
  {
    match step case Arrive(_) => 4 case Spurious(_) => 1 case _ => -1
  }

  lemma Moved<T>(from: set<T>, to: set<T>, x: T)
    requires x in from && x !in to
    ensures |from - {x}| == |from| - 1 && |to + {x}| == |to| + 1
  {
  }

  lemma MeasureFalls(s: State, step: Step)
    requires Inv(s) && Enabled(s, step)
    ensures Measure(Take(s, step)) <= Measure(s) + Allowance(step)
  {
    match step
    case Arrive(r) => Moved({r}, s.looking, r);
    case Look(r) =>
      Moved(s.looking, s.asleep, r);
      Moved(s.looking, s.running, r);
    case Release(r) => Moved(s.running, {}, r);
    case Signal(r) => Moved(s.asleep, s.looking, r);
    case SignalNone =>
    case Spurious(r) => Moved(s.asleep, s.looking, r);
  }

  function Allowances(steps: seq<Step>): int
  {
    if steps == [] then 0 else Allowance(steps[0]) + Allowances(steps[1..])
  }

  /** In every run the requests' own steps number at most four per arrival and one per spurious wake-up, so without
      further arrivals every run comes to rest, with every request served. */
  lemma {:induction false} RunsComeToRest(s: State, steps: seq<Step>)
    requires Inv(s) && Run(s, steps)
    ensures 0 <= Measure(After(s, steps)) <= Measure(s) + Allowances(steps)
    decreases |steps|
  {
    if steps != [] {
      TakeKeepsInv(s, steps[0]);
      MeasureFalls(s, steps[0]);
      RunsComeToRest(Take(s, steps[0]), steps[1..]);
    }
  }

  // ---- a wake-up that goes to the wrong sleeper ----

  predicate Kept(r: Req, running: set<Req>)
  {
    exists x :: x in running && Overlap(r, x)
  }

  /** Everybody asleep has something to wait for. */
  predicate Waits(s: State)
  {
    forall r | r in s.asleep :: Kept(r, s.running)
  }

  /** A release and its signal leave nobody asleep without reason if and only if every sleeper but the woken one shares
      an object with a request that still runs. */
  lemma WakesRightIff(s: State, a: Req, w: Req)
    requires Waits(s) && a in s.running && w in s.asleep
    ensures Waits(Take(Take(s, Release(a)), Signal(w))) <==>
      forall r | r in s.asleep && r != w :: Kept(r, s.running - {a})
  {
    var t := Take(Take(s, Release(a)), Signal(w));
    assert t.running == s.running - {a} && t.asleep == s.asleep - {w};
  }

  /** It is so whoever is woken if and only if one request at most sleeps, or every sleeper shares an object with a
      request that still runs. */
  lemma AnyWakeRightIff(s: State, a: Req)
    requires Waits(s) && a in s.running
    ensures (forall w | w in s.asleep :: Waits(Take(Take(s, Release(a)), Signal(w)))) <==>
      forall w, r | w in s.asleep && r in s.asleep && r != w :: Kept(r, s.running - {a})
  {
    forall w | w in s.asleep
      ensures Waits(Take(Take(s, Release(a)), Signal(w))) <==>
        forall r | r in s.asleep && r != w :: Kept(r, s.running - {a})
    {
      WakesRightIff(s, a, w);
    }
  }

  lemma RunOn(s: State, step: Step, rest: seq<Step>, t: State, end: State)
    requires Enabled(s, step) && Take(s, step) == t && Run(t, rest) && After(t, rest) == end
    ensures Run(s, [step] + rest) && After(s, [step] + rest) == end
  {
    assert ([step] + rest)[1..] == rest;
  }

  lemma MissTail(a: Req, b: Req, c: Req)
    requires a == Req(0, 0, 1) && b == Req(1, 0, 0) && c == Req(2, 1, 1)
    ensures var s, steps := State({c}, {b}, {a}, {}, 0), [Look(c), Release(a), Signal(b), Look(b)];
      Run(s, steps) && After(s, steps) == State({}, {c}, {b}, {a}, 0)
  {
    var s5, s6 := State({c}, {b}, {a}, {}, 0), State({}, {b, c}, {a}, {}, 0);
    var s7, s8, s9 := State({}, {b, c}, {}, {a}, 1), State({b}, {c}, {}, {a}, 0), State({}, {c}, {b}, {a}, 0);
    assert a in s5.running && Overlap(c, a);
    assert {b, c} - {b} == {c} && {b} + {c} == {b, c};
    RunOn(s8, Look(b), [], s9, s9);
    RunOn(s7, Signal(b), [Look(b)], s8, s9);
    RunOn(s6, Release(a), [Signal(b), Look(b)], s7, s9);
    RunOn(s5, Look(c), [Release(a), Signal(b), Look(b)], s6, s9);
  }

  /** A run from the start in which the signal goes to one of two sleepers and the other sleeps on, although nothing
      that runs shares an object with it. */
  lemma SignalCanMiss(a: Req, b: Req, c: Req, tail: seq<Step>)
    requires a == Req(0, 0, 1) && b == Req(1, 0, 0) && c == Req(2, 1, 1)
    requires tail == [Look(c), Release(a), Signal(b), Look(b)]
    ensures var steps := [Arrive(a)] + ([Look(a)] + ([Arrive(b)] + ([Look(b)] + ([Arrive(c)] + tail))));
      Run(EMPTY, steps) && After(EMPTY, steps) == State({}, {c}, {b}, {a}, 0)
    ensures !Kept(c, {b})
  {
    var s1, s2 := State({a}, {}, {}, {}, 0), State({}, {}, {a}, {}, 0);
    var s3, s4 := State({b}, {}, {a}, {}, 0), State({}, {b}, {a}, {}, 0);
    var s5, s9 := State({c}, {b}, {a}, {}, 0), State({}, {c}, {b}, {a}, 0);
    assert a in s3.running && Overlap(b, a);
    MissTail(a, b, c);
    RunOn(s4, Arrive(c), tail, s5, s9);
    RunOn(s3, Look(b), [Arrive(c)] + tail, s4, s9);
    RunOn(s2, Arrive(b), [Look(b)] + ([Arrive(c)] + tail), s3, s9);
    RunOn(s1, Look(a), [Arrive(b)] + ([Look(b)] + ([Arrive(c)] + tail)), s2, s9);
    RunOn(EMPTY, Arrive(a), [Look(a)] + ([Arrive(b)] + ([Look(b)] + ([Arrive(c)] + tail))), s1, s9);
  }
}
