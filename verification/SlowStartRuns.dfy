/** Slow start over the runs of the SENDME system: exactly for which parameters the number
    of full windows in it is bounded. */
module SlowStartRuns {
  import opened Arith
  import opened Bytes
  import opened CCParams
  import V = VegasSpec
  import W = VegasWindow
  import opened VegasSlowStart
  import opened VegasFloor
  import opened SendmeSpec
  import opened SendmeSystem
  import opened SendmeProgress

  function AsSendme(m: Sample): V.Event {
    V.Sendme(m.rtt, m.blocked, m.broken)
  }

  /** The event is a SENDME that updates the window in slow start while it counts as full. */
  predicate FullEvent(s: System, e: Event)
    requires FlowOk(s.a)
  {
    && e.Process? && s.failure.None? && s.sendmes != [] && s.a.vegas.Some?
    && Accept(s.a, s.sendmes[0], e.m).Ok?
    && FullInSlowStart(s.a.vegas.value, AsSendme(e.m))
  }

  function CountFull(s: System, es: seq<Event>): nat
    requires FlowOk(s.a)
    decreases |es|
  {
    if es == [] then 0
    else
      StepKeepsFlowOk(s, es[0]);
      (if FullEvent(s, es[0]) then 1 else 0) + CountFull(Step(s, es[0]), es[1..])
  }

  // ---------------------------------------------------------------- when it ends

  /** A congestion-controlled sender that will not stay in slow start for ever. */
  ghost predicate WillEnd(s: System) {
    && s.a.vegas.Some? && V.Sane(s.a.vegas.value)
    && var v := s.a.vegas.value;
    v.inSlowStart ==> !Endless(v.params, v.sendmeInc, v.cwnd)
  }

  /** An accepted SENDME is one step of TOR_VEGAS with sendme_inc cells in flight. */
  lemma ProcessOnVegas(s: System, m: Sample, inc: int, w0: int)
    requires Inv(s, inc, w0) && s.a.vegas.Some? && s.failure.None? && s.sendmes != []
    ensures var v, t := s.a.vegas.value, Step(s, Process(m));
      && v.inflight >= v.sendmeInc
      && t.a.vegas == Some(V.Step(v, AsSendme(m)))
      && (FullEvent(s, Process(m)) <==> FullInSlowStart(v, AsSendme(m)))
  {
    OwedMeansOutstanding(s.a, s.sent, s.processed, inc);
    AcceptKeepsEnd(s.a, s.sent, s.processed, inc, s.sendmes[0], m);
  }

  predicate Processes(s: System, e: Event) {
    e.Process? && s.failure.None? && s.sendmes != []
  }

  /** Every other event changes only what is in flight. */
  lemma OtherOnVegas(s: System, e: Event)
    requires FlowOk(s.a) && s.a.vegas.Some? && !Processes(s, e)
    ensures var v, t := s.a.vegas.value, Step(s, e);
      t.a.vegas.Some? && t.a.vegas.value == v.(inflight := t.a.vegas.value.inflight)
  {
    match e
    case Send(raw, emitted) =>
      var v, w := s.a.vegas.value, SendStep(s, raw, emitted).a.vegas.value;
      assert w == v.(inflight := w.inflight);
    case Deliver(_) =>
    case Emit =>
    case Process(_) =>
  }

  lemma BudgetOfStep(s: System, e: Event, inc: int, w0: int)
    requires Inv(s, inc, w0) && WillEnd(s)
    ensures var t := Step(s, e);
      && FlowOk(t.a) && WillEnd(t)
      && (t.a.vegas.value.inSlowStart ==> s.a.vegas.value.inSlowStart)
      && Budget(t.a.vegas.value) + (if FullEvent(s, e) then 1 else 0)
         <= (if FullEvent(s, e) && !t.a.vegas.value.inSlowStart then 1 else Budget(s.a.vegas.value))
      && (FullEvent(s, e) ==> Budget(s.a.vegas.value) >= 1)
  {
    var v := s.a.vegas.value;
    StepKeepsFlowOk(s, e);
    if Processes(s, e) {
      ProcessOnVegas(s, e.m, inc, w0);
      NeverReenters(v, AsSendme(e.m));
      if Step(s, e).a.vegas.value.inSlowStart {
        BudgetStep(v, AsSendme(e.m));
      }
    } else {
      OtherOnVegas(s, e);
    }
  }

  lemma NeverReenters(v: V.Vegas, e: V.Event)
    requires V.Sane(v)
    ensures V.Step(v, e).inSlowStart ==> v.inSlowStart
  {
    W.StepKeepsSane(v, e);
  }


  /** If slow start is not endless from this window, the number of SENDMEs with a full
      window that it lasts is within the budget, in any run; spending it all ends it. */
  lemma {:induction false} SlowStartEnds(s: System, es: seq<Event>, inc: int, w0: int)
    requires Inv(s, inc, w0) && WillEnd(s) && AllEventsTagged(es)
    ensures CountFull(s, es) <= Budget(s.a.vegas.value)
    ensures var t := Run(s, es);
      t.a.vegas.Some? && (CountFull(s, es) == Budget(s.a.vegas.value) ==> !t.a.vegas.value.inSlowStart)
    decreases |es|
  {
    if es != [] {
      assert Tagged(es[0]);
      BudgetOfStep(s, es[0], inc, w0);
      StepKeepsInv(s, es[0], inc, w0);
      SlowStartEnds(Step(s, es[0]), es[1..], inc, w0);
      if !Step(s, es[0]).a.vegas.value.inSlowStart {
        StaysOut(Step(s, es[0]), es[1..], inc, w0);
      }
    }
  }

  lemma {:induction false} StaysOut(s: System, es: seq<Event>, inc: int, w0: int)
    requires Inv(s, inc, w0) && WillEnd(s) && AllEventsTagged(es) && !s.a.vegas.value.inSlowStart
    ensures Run(s, es).a.vegas.Some? && !Run(s, es).a.vegas.value.inSlowStart
    decreases |es|
  {
    if es != [] {
      assert Tagged(es[0]);
      BudgetOfStep(s, es[0], inc, w0);
      StepKeepsInv(s, es[0], inc, w0);
      StaysOut(Step(s, es[0]), es[1..], inc, w0);
    }
  }

  // ---------------------------------------------------------------- runs in which it does not

  lemma {:induction false} CountConcat(s: System, es: seq<Event>, fs: seq<Event>)
    requires FlowOk(s.a)
    ensures FlowOk(Run(s, es).a)
    ensures CountFull(s, es + fs) == CountFull(s, es) + CountFull(Run(s, es), fs)
    decreases |es|
  {
    if es == [] {
      assert es + fs == fs;
    } else {
      assert (es + fs)[1..] == es[1..] + fs;
      StepKeepsFlowOk(s, es[0]);
      CountConcat(Step(s, es[0]), es[1..], fs);
    }
  }

  lemma CountOne(s: System, e: Event)
    requires FlowOk(s.a)
    ensures CountFull(s, [e]) == if FullEvent(s, e) then 1 else 0
  {
    StepKeepsFlowOk(s, e);
    assert [e][1..] == [];
    assert CountFull(Step(s, e), []) == 0;
  }

  /** Everything sent has been delivered, at a steady RTT in slow start. */
  ghost predicate Flowing(s: System, inc: int, w0: int) {
    && Quiet(s, inc, w0)
    && Steady(s.a.vegas.value) && s.a.vegas.value.inflight <= s.a.vegas.value.cwnd
    && s.a.vegas.value.cwnd >= inc
  }

  /** The window filled up and everything delivered. */
  lemma Fill(s: System, inc: int, w0: int) returns (es: seq<Event>)
    requires Flowing(s, inc, w0)
    ensures AllEventsTagged(es)
    ensures Flowing(Run(s, es), inc, w0)
    ensures var v := s.a.vegas.value; Run(s, es).a.vegas == Some(v.(inflight := v.cwnd))
  {
    var v := s.a.vegas.value;
    es := SendAndDeliver(s, v.cwnd - v.inflight, inc, w0);
    SteadyRegardless(v, v.cwnd);
  }

  lemma SteadyRegardless(v: V.Vegas, inflight: nat)
    requires Steady(v)
    ensures Steady(v.(inflight := inflight))
  {
  }

  /** A window sent full and acknowledged once at the steady RTT. */
  lemma FullWindow(s: System, inc: int, w0: int) returns (es: seq<Event>)
    requires Flowing(s, inc, w0)
    requires var v := s.a.vegas.value;
      v.params.gamma > 0 && Stays(v.params, inc, v.cwnd) && v.cwnd <= v.params.cwndMax
    ensures AllEventsTagged(es) && CountFull(s, es) >= 1
    ensures var v, t := s.a.vegas.value, Run(s, es);
      && Flowing(t, inc, w0)
      && t.a.vegas.value.params == v.params && t.a.vegas.value.cwnd == Grown(v.params, inc, v.cwnd)
  {
    var fill := Fill(s, inc, w0);
    var t := Run(s, fill);
    var m := Sample(SteadyRtt(t.a.vegas.value), false, false);
    Acknowledged(t, m, inc, w0);
    CountOne(t, Process(m));
    CountConcat(s, fill, [Process(m)]);
    RunSnoc(s, fill, Process(m));
    es := fill + [Process(m)];
  }

  lemma Acknowledged(t: System, m: Sample, inc: int, w0: int)
    requires Flowing(t, inc, w0) && m == Sample(SteadyRtt(t.a.vegas.value), false, false)
    requires var v := t.a.vegas.value;
      && v.inflight == v.cwnd <= v.params.cwndMax
      && v.params.gamma > 0 && Stays(v.params, inc, v.cwnd)
    ensures FullEvent(t, Process(m))
    ensures var v, u := t.a.vegas.value, Step(t, Process(m));
      && Flowing(u, inc, w0)
      && u.a.vegas.value.params == v.params && u.a.vegas.value.cwnd == Grown(v.params, inc, v.cwnd)
  {
    var v := t.a.vegas.value;
    SendmeComes(t, inc, w0);
    StepKeepsInv(t, Process(m), inc, w0);
    AcceptKeepsEnd(t.a, t.sent, t.processed, inc, t.sendmes[0], m);
    FullWhenSent(v);
    SteadyStep(v);
    StayingGrows(v.params, inc, v.cwnd);
    VegasAck(v, m);
    assert Step(t, Process(m)).a.vegas == Some(V.Step(v, SteadySendme(v)));
  }

  /** A window at or below the ceiling that can get there within slow start does. */
  lemma {:induction false} Climb(s: System, inc: int, w0: int) returns (es: seq<Event>)
    requires Flowing(s, inc, w0)
    requires var v := s.a.vegas.value;
      v.params.gamma > 0 && v.cwnd <= v.params.cwndMax && ReachesTop(v.params, inc, v.cwnd)
    ensures AllEventsTagged(es)
    ensures var v, t := s.a.vegas.value, Run(s, es);
      Flowing(t, inc, w0) && t.a.vegas.value.params == v.params && t.a.vegas.value.cwnd == v.params.cwndMax
    decreases s.a.vegas.value.params.cwndMax - s.a.vegas.value.cwnd
  {
    var v := s.a.vegas.value;
    if v.cwnd == v.params.cwndMax {
      es := [];
    } else {
      StayingGrows(v.params, inc, v.cwnd);
      es := FullWindow(s, inc, w0);
      var more := Climb(Run(s, es), inc, w0);
      RunConcat(s, es, more);
      es := es + more;
    }
  }

  /** From above the ceiling one round trip is enough. */
  lemma Descend(s: System, inc: int, w0: int) returns (es: seq<Event>)
    requires Idle(s, inc, w0) && Flowing(s, inc, w0) && !s.a.vegas.value.cwndFull
    requires var v := s.a.vegas.value;
      v.params.gamma > 0 && v.cwnd > v.params.cwndMax && ReachesTop(v.params, inc, v.cwnd)
    ensures AllEventsTagged(es)
    ensures var v, t := s.a.vegas.value, Run(s, es);
      Flowing(t, inc, w0) && t.a.vegas.value.params == v.params && t.a.vegas.value.cwnd == v.params.cwndMax
  {
    var v := s.a.vegas.value;
    var b := v.(inflight := inc);
    var m := Sample(SteadyRtt(b), false, false);
    es := FullRound(s, m, inc, w0);
    RoundIsStep(v, m);
    ComesDown(b);
  }

  lemma RoundIsStep(v: V.Vegas, m: Sample)
    requires V.Sane(v)
    ensures Round(v, m) == V.Step(v.(inflight := v.sendmeInc), AsSendme(m))
  {
  }

  /** At the ceiling, any number of full windows. */
  lemma {:induction false} StuckAtTop(s: System, n: nat, inc: int, w0: int) returns (es: seq<Event>)
    requires Flowing(s, inc, w0)
    requires var v := s.a.vegas.value; Sticks(v.params, inc) && v.cwnd == v.params.cwndMax
    ensures AllEventsTagged(es) && CountFull(s, es) >= n
    ensures Run(s, es).a.vegas.Some? && Run(s, es).a.vegas.value.inSlowStart
    decreases n
  {
    if n == 0 {
      es := [];
    } else {
      var v := s.a.vegas.value;
      StayingGrows(v.params, inc, v.cwnd);
      es := FullWindow(s, inc, w0);
      var more := StuckAtTop(Run(s, es), n - 1, inc, w0);
      RunConcat(s, es, more);
      CountConcat(s, es, more);
      es := es + more;
    }
  }

  // ---------------------------------------------------------------- exactly when

  ghost predicate BoundedBy(s: System, n: nat)
    requires FlowOk(s.a)
  {
    forall es :: AllEventsTagged(es) ==> CountFull(s, es) <= n
  }

  lemma WithinBudget(s: System, inc: int, w0: int)
    requires Inv(s, inc, w0) && WillEnd(s)
    ensures BoundedBy(s, Budget(s.a.vegas.value))
  {
    forall es | AllEventsTagged(es)
      ensures CountFull(s, es) <= Budget(s.a.vegas.value)
    {
      SlowStartEnds(s, es, inc, w0);
    }
  }

  lemma EndlessIsUnbounded(s: System, n: nat, inc: int, w0: int)
    requires Idle(s, inc, w0) && Flowing(s, inc, w0) && !s.a.vegas.value.cwndFull
    requires var v := s.a.vegas.value; Endless(v.params, inc, v.cwnd)
    ensures !BoundedBy(s, n)
  {
    var v := s.a.vegas.value;
    var up: seq<Event>;
    if v.cwnd <= v.params.cwndMax {
      up := Climb(s, inc, w0);
    } else {
      up := Descend(s, inc, w0);
    }
    var stuck := StuckAtTop(Run(s, up), n + 1, inc, w0);
    CountConcat(s, up, stuck);
    assert AllEventsTagged(up + stuck) && CountFull(s, up + stuck) > n;
  }

  /** From the start of a circuit, for any parameters of the two ends: the number of full
      windows in slow start is bounded over all runs if and only if the sender's initial
      window cannot get to the ceiling in slow start and hold on there. */
  lemma SlowStartIff(pa: CCParams, pb: CCParams, inc: int)
    requires InRange(pa) && InRange(pb) && 1 <= inc <= 250
    ensures FlowOk(VegasStart(pa, pb, inc).a)
    ensures (exists n: nat :: BoundedBy(VegasStart(pa, pb, inc), n)) <==> !Endless(pa, inc, InitialWindow(pa, inc))
  {
    var s, w0 := VegasStart(pa, pb, inc), Max(pb.cwndInit, inc);
    VegasStartIdle(pa, pb, inc);
    var v := s.a.vegas.value;
    SameTop(pa, v.params, inc, v.cwnd);
    SameTop(pa, v.params, inc, pa.cwndMax);
    if Endless(pa, inc, v.cwnd) {
      forall n: nat
        ensures !BoundedBy(s, n)
      {
        EndlessIsUnbounded(s, n, inc, w0);
      }
    } else {
      WithinBudget(s, inc, w0);
    }
  }

  /** A system at rest whose window is at the ceiling. */
  function AtCeiling(p: CCParams, inc: int): System {
    var v := V.NewVegas(p, inc).(params := p, cwnd := p.cwndMax);
    var s := VegasStart(p, p, inc);
    s.(a := s.a.(vegas := Some(v), packageWindow := p.cwndMax))
  }

  /** Over all states that keep the invariant, from whatever history: each is within its
      budget if and only if slow start cannot hold on at the ceiling. */
  lemma SlowStartStateIff(p: CCParams, inc: int)
    requires InRange(p) && 1 <= inc <= 250
    ensures !Sticks(p, inc) <==>
      forall s, w0 :: Inv(s, inc, w0) && s.a.vegas.Some? && s.a.vegas.value.params == p ==>
        BoundedBy(s, Budget(s.a.vegas.value))
  {
    if Sticks(p, inc) {
      var s := AtCeiling(p, inc);
      VegasStartInv(p, p, inc);
      assert Inv(s, inc, Max(p.cwndInit, inc));
      EndlessIsUnbounded(s, Budget(s.a.vegas.value), inc, Max(p.cwndInit, inc));
    } else {
      forall s, w0 | Inv(s, inc, w0) && s.a.vegas.Some? && s.a.vegas.value.params == p
        ensures BoundedBy(s, Budget(s.a.vegas.value))
      {
        WithinBudget(s, inc, w0);
      }
    }
  }
}
