/** Progress of the SENDME system: when a circuit can stall for good, and runs that show
    what goes wrong. */
module SendmeProgress {
  import opened Arith
  import opened Bytes
  import opened RelayCodec
  import opened CCParams
  import V = VegasSpec
  import opened VegasSlowStart
  import opened VegasFloor
  import opened SendmeSpec
  import opened SendmeSystem

  // ---------------------------------------------------------------- progress

  predicate Refused(s: System)
    requires FlowOk(s.a)
  {
    Reserve(s.a).None?
  }

  /** If a tag is owed, its cell or its SENDME is in transit or waiting. */
  lemma OwedIsInTransit(s: System, inc: int, w0: int)
    requires Inv(s, inc, w0) && s.a.expected != []
    ensures s.data != [] || s.pending != [] || s.sendmes != []
  {
    if s.data == [] && s.pending == [] {
      assert s.sent[..s.delivered] == s.sent;
      assert |Auths(s.pending)| == 0;
    }
  }

  /** No deadlock while the window is at least sendme_inc, as it always is on the classic
      window: a cell refused for lack of window means a SENDME is owed, and something is in
      transit that will bring it. */
  lemma RefusedIsOwed(s: System, inc: int, w0: int)
    requires Inv(s, inc, w0) && Refused(s)
    requires s.a.vegas.Some? ==> s.a.vegas.value.cwnd >= inc
    ensures |s.a.expected| >= 1
    ensures s.data != [] || s.pending != [] || s.sendmes != []
  {
    RefusedIsFull(s, inc, w0);
    OwedMeansOutstanding(s.a, s.sent, s.processed, inc);
    QuotientAtLeast(Outstanding(s.a), inc, 1);
    OwedIsInTransit(s, inc, w0);
  }

  lemma RefusedIsFull(s: System, inc: int, w0: int)
    requires Inv(s, inc, w0) && Refused(s)
    requires s.a.vegas.Some? ==> s.a.vegas.value.cwnd >= inc
    ensures Outstanding(s.a) >= inc >= 1
  {
  }

  lemma ProcessKeepsFloor(s: System, m: Sample, inc: int, w0: int)
    requires Inv(s, inc, w0) && s.sendmes != [] && s.a.vegas.Some? && Floored(s.a.vegas.value)
    ensures var t := ProcessStep(s, m);
      t.a.vegas.Some? && Floored(t.a.vegas.value)
  {
    OwedMeansOutstanding(s.a, s.sent, s.processed, inc);
    SendmeKeepsFloor(s.a.vegas.value.(blocked := m.blocked), m.rtt, m.broken);
  }

  lemma StepKeepsFloored(s: System, e: Event, inc: int, w0: int)
    requires Inv(s, inc, w0) && s.a.vegas.Some? && Floored(s.a.vegas.value)
    ensures Step(s, e).a.vegas.Some? && Floored(Step(s, e).a.vegas.value)
  {
    match e
    case Send(raw, emitted) => SendKeepsFloor(s, raw, emitted);
    case Deliver(_) =>
    case Emit =>
    case Process(m) =>
      if s.sendmes != [] {
        ProcessKeepsFloor(s, m, inc, w0);
      }
  }

  lemma SendKeepsFloor(s: System, raw: Tag, emitted: bool)
    requires FlowOk(s.a) && s.a.vegas.Some? && Floored(s.a.vegas.value)
    ensures SendStep(s, raw, emitted).a.vegas.Some? && Floored(SendStep(s, raw, emitted).a.vegas.value)
  {
    var v, w := s.a.vegas.value, SendStep(s, raw, emitted).a.vegas.value;
    assert w == v.(inflight := w.inflight);
  }

  lemma {:induction false} RunKeepsFloored(s: System, es: seq<Event>, inc: int, w0: int)
    requires Inv(s, inc, w0) && AllEventsTagged(es) && s.a.vegas.Some? && Floored(s.a.vegas.value)
    ensures var t := Run(s, es);
      t.a.vegas.Some? && Floored(t.a.vegas.value)
    decreases |es|
  {
    if es != [] {
      assert Tagged(es[0]);
      StepKeepsInv(s, es[0], inc, w0);
      StepKeepsFloored(s, es[0], inc, w0);
      RunKeepsFloored(Step(s, es[0]), es[1..], inc, w0);
    }
  }

  /** Unless the parameters allow the window to starve, no run lets it fall below sendme_inc,
      so none stalls: whenever a cell is refused, a SENDME is owed and on its way. */
  lemma VegasNeverStalls(pa: CCParams, pb: CCParams, inc: int, es: seq<Event>)
    requires InRange(pa) && InRange(pb) && 1 <= inc <= 250 && !CanStarve(pa, inc)
    requires AllEventsTagged(es)
    ensures FlowOk(VegasStart(pa, pb, inc).a)
    ensures var s := Run(VegasStart(pa, pb, inc), es);
      && FlowOk(s.a) && s.a.vegas.Some? && s.a.vegas.value.cwnd >= inc
      && (Refused(s) ==> |s.a.expected| >= 1 && (s.data != [] || s.pending != [] || s.sendmes != []))
  {
    var s0 := VegasStart(pa, pb, inc);
    VegasStartInv(pa, pb, inc);
    var w0 := s0.b.deliverWindow;
    RunKeepsInv(s0, es, inc, w0);
    NewIsFloored(pa, inc);
    RunKeepsFloored(s0, es, inc, w0);
    var s := Run(s0, es);
    if Refused(s) {
      RefusedIsOwed(s, inc, w0);
    }
  }

  /** The same on the classic window, without condition. */
  lemma ClassicNeverStalls(es: seq<Event>)
    requires AllEventsTagged(es)
    ensures var s := Run(ClassicStart(), es);
      && FlowOk(s.a)
      && (Refused(s) ==> |s.a.expected| == 10 && (s.data != [] || s.pending != [] || s.sendmes != []))
  {
    ClassicStartInv();
    RunKeepsInv(ClassicStart(), es, CLASSIC_INCREMENT, CLASSIC_WINDOW);
    ClassicNeverFails(ClassicStart(), es);
    var s := Run(ClassicStart(), es);
    OwedMeansOutstanding(s.a, s.sent, s.processed, CLASSIC_INCREMENT);
    if Refused(s) {
      RefusedIsOwed(s, CLASSIC_INCREMENT, CLASSIC_WINDOW);
    }
  }

  // ---------------------------------------------------------------- runs that fail

  lemma RunSnoc(s: System, es: seq<Event>, e: Event)
    requires FlowOk(s.a)
    ensures FlowOk(Run(s, es).a)
    ensures Run(s, es + [e]) == Step(Run(s, es), e)
  {
    RunConcat(s, es, [e]);
    var t := Run(s, es);
    StepKeepsFlowOk(t, e);
    assert [e][1..] == [];
    assert Run(t, [e]) == Run(Step(t, e), []);
  }

  /** A digest of twenty equal bytes. */
  function SampleTag(x: byte): (t: Tag)
    ensures AuthTag(t) == Some(t)
  {
    var t := seq(SENDME_V1_DIGEST_LEN, _ => x);
    assert t[..SENDME_V1_DIGEST_LEN] == t;
    t
  }

  /** n cells sent into an open window. */
  lemma {:induction false} SendMany(s: System, n: nat, raw: Tag, inc: int, w0: int) returns (es: seq<Event>)
    requires Inv(s, inc, w0) && s.failure.None? && s.a.vegas.Some? && AuthTag(raw).Some?
    requires Outstanding(s.a) + n <= s.a.vegas.value.cwnd
    ensures AllEventsTagged(es)
    ensures Inv(Run(s, es), inc, w0) && SentMore(s, Run(s, es), n, raw)
  {
    if n == 0 {
      es := [];
    } else {
      var fs := SendMany(s, n - 1, raw, inc, w0);
      var e := Send(raw, true);
      es := fs + [e];
      RunSnoc(s, fs, e);
      SendOne(Run(s, fs), raw, inc, w0);
      SentOneMore(s, Run(s, fs), Run(s, es), n, raw);
    }
  }

  /** n more cells are in flight, and neither the receiver nor the SENDMEs are touched. */
  predicate SentMore(s: System, t: System, n: nat, raw: Tag) {
    && t.failure.None? && s.a.vegas.Some?
    && t.sent == s.sent + seq(n, _ => raw)
    && t.a.vegas == Some(s.a.vegas.value.(inflight := s.a.vegas.value.inflight + n))
    && t.b == s.b && t.pending == s.pending && t.sendmes == s.sendmes
    && t.processed == s.processed && t.delivered == s.delivered && t.emitted == s.emitted
  }

  lemma SentOneMore(s: System, t: System, u: System, n: nat, raw: Tag)
    requires n >= 1 && SentMore(s, t, n - 1, raw) && SentMore(t, u, 1, raw)
    ensures SentMore(s, u, n, raw)
  {
    assert seq(n, _ => raw) == seq(n - 1, _ => raw) + seq(1, _ => raw);
  }

  lemma SendOne(s: System, raw: Tag, inc: int, w0: int)
    requires Inv(s, inc, w0) && s.failure.None? && s.a.vegas.Some? && AuthTag(raw).Some?
    requires Outstanding(s.a) < s.a.vegas.value.cwnd
    ensures Inv(Step(s, Send(raw, true)), inc, w0) && SentMore(s, Step(s, Send(raw, true)), 1, raw)
  {
    SendKeepsInv(s, raw, true, inc, w0);
    assert seq(1, _ => raw) == [raw];
  }

  /** n cells delivered while the deliver window lasts. */
  lemma {:induction false} DeliverMany(s: System, n: nat, prompt: bool, inc: int, w0: int) returns (es: seq<Event>)
    requires Inv(s, inc, w0) && s.failure.None?
    requires n <= |s.data| && (n <= s.b.deliverWindow || (prompt && s.pending == [] && w0 >= inc))
    ensures AllEventsTagged(es)
    ensures var t := Run(s, es);
      && Inv(t, inc, w0) && t.failure.None?
      && |t.data| == |s.data| - n
      && t.a == s.a && t.processed == s.processed && t.sent == s.sent
      && t.delivered == s.delivered + n
      && (prompt && s.pending == [] ==> t.pending == [])
      && (!prompt ==> t.b.deliverWindow == s.b.deliverWindow - n && t.emitted == s.emitted)
      && t.b.deliverWindow >= s.b.deliverWindow - n
  {
    if n == 0 {
      es := [];
    } else {
      var fs := DeliverMany(s, n - 1, prompt, inc, w0);
      var e := Deliver(prompt);
      es := fs + [e];
      var t := Run(s, fs);
      RunSnoc(s, fs, e);
      if prompt && s.pending == [] && w0 >= inc {
        PromptDeliverWindow(t, inc, w0);
      }
      DeliverKeepsInv(t, prompt, inc, w0);
      DeliverEffect(t, prompt, inc, w0);
    }
  }

  lemma DeliverEffect(s: System, prompt: bool, inc: int, w0: int)
    requires Inv(s, inc, w0) && s.failure.None? && s.data != [] && s.b.deliverWindow > 0
    ensures var t := Step(s, Deliver(prompt));
      && |t.data| == |s.data| - 1
      && t.a == s.a && t.processed == s.processed && t.sent == s.sent
      && t.delivered == s.delivered + 1
      && (prompt && s.pending == [] ==> t.pending == [])
      && (!prompt ==> t.b.deliverWindow == s.b.deliverWindow - 1 && t.emitted == s.emitted)
      && t.b.deliverWindow >= s.b.deliverWindow - 1
  {
    if prompt && s.pending == [] {
      PromptKeepsEmpty(s, Deliver(prompt), inc, w0);
    }
  }

  /** Delayed SENDMEs do break congestion-controlled flow: a sender configured with an
      initial window of 1000 overruns a receiver whose deliver window started at the
      default 124, as soon as 125 cells arrive before its first SENDME leaves. */
  lemma DelayedSendmesFail() returns (es: seq<Event>)
    ensures AllEventsTagged(es)
    ensures FlowOk(VegasStart(DefaultExit().(cwndInit := 1000), DefaultExit(), 31).a)
    ensures Run(VegasStart(DefaultExit().(cwndInit := 1000), DefaultExit(), 31), es).failure == Some(DeliverExhausted)
  {
    var pa, pb := DefaultExit().(cwndInit := 1000), DefaultExit();
    var s := VegasStart(pa, pb, 31);
    VegasStartInv(pa, pb, 31);
    var sends := SendMany(s, 125, SampleTag(0), 31, 124);
    var t := Run(s, sends);
    var delivers := DeliverMany(t, 124, false, 31, 124);
    var u := Run(t, delivers);
    RunConcat(s, sends, delivers);
    es := (sends + delivers) + [Deliver(false)];
    RunSnoc(s, sends + delivers, Deliver(false));
    DeliverKeepsInv(u, false, 31, 124);
  }

  /** Everything sent has been delivered, and every due SENDME has left. */
  ghost predicate Quiet(s: System, inc: int, w0: int) {
    && Inv(s, inc, w0) && w0 >= inc && s.failure.None? && s.a.vegas.Some?
    && s.data == [] && s.pending == []
  }

  /** Nothing in transit, nothing outstanding. */
  ghost predicate Idle(s: System, inc: int, w0: int) {
    Quiet(s, inc, w0) && s.sendmes == [] && s.a.vegas.value.inflight == 0
  }

  /** n cells sent and delivered, each due SENDME leaving at once. */
  lemma SendAndDeliver(s: System, n: nat, inc: int, w0: int) returns (es: seq<Event>)
    requires Quiet(s, inc, w0) && s.a.vegas.value.inflight + n <= s.a.vegas.value.cwnd
    ensures AllEventsTagged(es)
    ensures Quiet(Run(s, es), inc, w0)
    ensures var v := s.a.vegas.value; Run(s, es).a.vegas == Some(v.(inflight := v.inflight + n))
  {
    var sends := SendMany(s, n, SampleTag(0), inc, w0);
    var t := Run(s, sends);
    SentIsInTransit(s, t, n, SampleTag(0), inc, w0);
    var delivers := DeliverMany(t, n, true, inc, w0);
    RunConcat(s, sends, delivers);
    es := sends + delivers;
  }

  lemma SentIsInTransit(s: System, t: System, n: nat, raw: Tag, inc: int, w0: int)
    requires Inv(s, inc, w0) && Inv(t, inc, w0) && s.data == [] && SentMore(s, t, n, raw)
    ensures |t.data| == n
  {
    assert |s.sent| == s.delivered;
  }

  /** The sender is refused, is owed nothing, and nothing is in transit. */
  predicate Stalled(s: System) {
    && FlowOk(s.a) && Refused(s) && s.failure.None?
    && s.a.expected == [] && s.data == [] && s.pending == [] && s.sendmes == []
  }

  /** It stays so whatever happens. */
  lemma {:induction false} StalledForGood(s: System, es: seq<Event>)
    requires Stalled(s)
    ensures Run(s, es) == s
    decreases |es|
  {
    if es != [] {
      assert Step(s, es[0]) == s;
      StalledForGood(s, es[1..]);
    }
  }

  /** A window below sendme_inc is a dead end: once it is used up and everything is
      delivered, the circuit is stalled. */
  lemma BelowFloorDeadlocks(s: System, inc: int, w0: int) returns (es: seq<Event>)
    requires Idle(s, inc, w0) && s.a.vegas.value.cwnd < inc
    ensures AllEventsTagged(es) && Stalled(Run(s, es))
  {
    var n := s.a.vegas.value.cwnd;
    es := SendAndDeliver(s, n, inc, w0);
    var t := Run(s, es);
    OwedMeansOutstanding(t.a, t.sent, t.processed, inc);
    DivUnique(n, inc, 0, n);
    NothingOwedNothingComing(t, inc, w0);
  }

  lemma NothingOwedNothingComing(s: System, inc: int, w0: int)
    requires Inv(s, inc, w0) && s.a.expected == []
    ensures s.sendmes == []
  {
    assert |Tags(s.sent, inc)| == s.processed;
  }

  /** sendme_inc cells sent, delivered and acknowledged. */
  lemma FullRound(s: System, m: Sample, inc: int, w0: int) returns (es: seq<Event>)
    requires Idle(s, inc, w0) && s.a.vegas.value.cwnd >= inc
    ensures AllEventsTagged(es)
    ensures Idle(Run(s, es), inc, w0) && Run(s, es).a.vegas.value == Round(s.a.vegas.value, m)
  {
    var go := SendAndDeliver(s, inc, inc, w0);
    var t := Run(s, go);
    es := go + [Process(m)];
    RunSnoc(s, go, Process(m));
    OwedMeansOutstanding(t.a, t.sent, t.processed, inc);
    DivUnique(inc, inc, 1, 0);
    OwedIsInTransit(t, inc, w0);
    StepKeepsInv(t, Process(m), inc, w0);
    AckedOne(t, m, inc, w0);
  }

  /** With at least an increment outstanding and all of it delivered, a SENDME is on its way. */
  lemma SendmeComes(s: System, inc: int, w0: int)
    requires Quiet(s, inc, w0) && s.a.vegas.value.inflight >= inc
    ensures s.sendmes != []
  {
    var n := s.a.vegas.value.inflight;
    OwedMeansOutstanding(s.a, s.sent, s.processed, inc);
    QuotientAtLeast(n, inc, 1);
    OwedIsInTransit(s, inc, w0);
  }

  /** The window filled up, everything delivered, and one SENDME accepted. */
  lemma FullTrip(s: System, m: Sample, inc: int, w0: int) returns (es: seq<Event>)
    requires Quiet(s, inc, w0)
    requires var v := s.a.vegas.value; v.inflight <= v.cwnd && v.cwnd >= inc
    ensures AllEventsTagged(es) && Quiet(Run(s, es), inc, w0)
    ensures var v := s.a.vegas.value;
      && V.Sane(v)
      && Run(s, es).a.vegas
         == Some(V.ProcessSendme(v.(inflight := v.cwnd, blocked := m.blocked), m.rtt, m.broken).0)
  {
    var v := s.a.vegas.value;
    var fill := FillWindow(s, inc, w0);
    var t := Run(s, fill);
    SendmeTaken(t, m, inc, w0);
    assert t.a.vegas.value.(blocked := m.blocked) == v.(inflight := v.cwnd, blocked := m.blocked);
    RunSnoc(s, fill, Process(m));
    es := fill + [Process(m)];
  }

  lemma FillWindow(s: System, inc: int, w0: int) returns (fill: seq<Event>)
    requires Quiet(s, inc, w0)
    requires var v := s.a.vegas.value; v.inflight <= v.cwnd && v.cwnd >= inc
    ensures AllEventsTagged(fill) && Quiet(Run(s, fill), inc, w0) && Run(s, fill).sendmes != []
    ensures Run(s, fill).a.vegas == Some(s.a.vegas.value.(inflight := s.a.vegas.value.cwnd))
  {
    var v := s.a.vegas.value;
    fill := SendAndDeliver(s, v.cwnd - v.inflight, inc, w0);
    SendmeComes(Run(s, fill), inc, w0);
  }

  lemma SendmeTaken(t: System, m: Sample, inc: int, w0: int)
    requires Quiet(t, inc, w0) && t.sendmes != []
    ensures Quiet(Step(t, Process(m)), inc, w0)
    ensures var v := t.a.vegas.value;
      && V.Sane(v)
      && Step(t, Process(m)).a.vegas == Some(V.ProcessSendme(v.(blocked := m.blocked), m.rtt, m.broken).0)
  {
    StepKeepsInv(t, Process(m), inc, w0);
    AcceptKeepsEnd(t.a, t.sent, t.processed, inc, t.sendmes[0], m);
  }

  /** Any round trips that fit the window are a run of the system. */
  lemma {:induction false} PlayRounds(s: System, ms: seq<Sample>, inc: int, w0: int) returns (es: seq<Event>)
    requires Idle(s, inc, w0) && Roomy(s.a.vegas.value, ms)
    ensures AllEventsTagged(es)
    ensures Idle(Run(s, es), inc, w0) && Run(s, es).a.vegas.value == Rounds(s.a.vegas.value, ms)
    decreases |ms|
  {
    if ms == [] {
      es := [];
    } else {
      es := FullRound(s, ms[0], inc, w0);
      var more := PlayRounds(Run(s, es), ms[1..], inc, w0);
      RunConcat(s, es, more);
      es := es + more;
    }
  }

  lemma VegasStartIdle(pa: CCParams, pb: CCParams, inc: int)
    requires InRange(pa) && InRange(pb) && 1 <= inc <= 250
    ensures Idle(VegasStart(pa, pb, inc), inc, Max(pb.cwndInit, inc))
    ensures VegasStart(pa, pb, inc).a.vegas == Some(V.NewVegas(pa, inc))
  {
    VegasStartInv(pa, pb, inc);
  }

  lemma AckedOne(t: System, m: Sample, inc: int, w0: int)
    requires Inv(t, inc, w0) && t.failure.None? && t.a.vegas.Some?
    requires t.data == [] && t.pending == [] && |t.a.expected| == 1 && t.sendmes != []
    requires t.a.vegas.value.inflight == inc
    ensures var v := t.a.vegas.value.(blocked := m.blocked);
      var u := Step(t, Process(m));
      && V.Sane(v)
      && u.a.vegas == Some(V.ProcessSendme(v, m.rtt, m.broken).0)
      && u.a.vegas.value.inflight == 0
      && u.sendmes == [] && u.data == [] && u.pending == [] && u.failure.None?
  {
    AcceptKeepsEnd(t.a, t.sent, t.processed, inc, t.sendmes[0], m);
    VegasAck(t.a.vegas.value, m);
    assert |t.sendmes| == 1;
  }

  /** Whenever the parameters allow it, a run that leaves the window below sendme_inc. */
  lemma StarvingRun(pa: CCParams, pb: CCParams, inc: int) returns (es: seq<Event>)
    requires InRange(pa) && InRange(pb) && 1 <= inc <= 250 && CanStarve(pa, inc)
    ensures AllEventsTagged(es) && FlowOk(VegasStart(pa, pb, inc).a)
    ensures var s := Run(VegasStart(pa, pb, inc), es);
      Idle(s, inc, Max(pb.cwndInit, inc)) && s.a.vegas.value.cwnd < inc
  {
    VegasStartIdle(pa, pb, inc);
    var ms := Starve(pa, inc);
    es := PlayRounds(VegasStart(pa, pb, inc), ms, inc, Max(pb.cwndInit, inc));
  }

  ghost predicate Starves(s: System, es: seq<Event>, inc: int)
    requires FlowOk(s.a)
  {
    AllEventsTagged(es) && Run(s, es).a.vegas.Some? && Run(s, es).a.vegas.value.cwnd < inc
  }

  /** The run stalls the circuit, and no continuation of it changes that. */
  ghost predicate Stalls(s: System, es: seq<Event>)
    requires FlowOk(s.a)
  {
    AllEventsTagged(es) && Stalled(Run(s, es)) && forall more :: Run(Run(s, es), more) == Run(s, es)
  }

  /** For any parameters of the two ends: some run from the start takes the window below
      sendme_inc, and some run stalls the circuit for good, if and only if the sender's
      parameters meet the condition. */
  lemma StallIff(pa: CCParams, pb: CCParams, inc: int)
    requires InRange(pa) && InRange(pb) && 1 <= inc <= 250
    ensures FlowOk(VegasStart(pa, pb, inc).a)
    ensures (exists es :: Starves(VegasStart(pa, pb, inc), es, inc)) <==> CanStarve(pa, inc)
    ensures (exists es :: Stalls(VegasStart(pa, pb, inc), es)) <==> CanStarve(pa, inc)
  {
    var s := VegasStart(pa, pb, inc);
    VegasStartIdle(pa, pb, inc);
    if CanStarve(pa, inc) {
      var es := StarvingRun(pa, pb, inc);
      var more := BelowFloorDeadlocks(Run(s, es), inc, Max(pb.cwndInit, inc));
      RunConcat(s, es, more);
      var t := Run(s, es + more);
      forall rest
        ensures Run(t, rest) == t
      {
        StalledForGood(t, rest);
      }
      assert Starves(s, es, inc) && Stalls(s, es + more);
    } else {
      forall es | AllEventsTagged(es)
        ensures !Starves(s, es, inc) && !Stalls(s, es)
      {
        VegasNeverStalls(pa, pb, inc, es);
      }
    }
  }

  /** The defaults deadlock: with the default parameters and a negotiated sendme_inc of 250,
      two round trips on an open channel whose RTT rises from 3 to 30 milliseconds, and the
      next window, leave both ends waiting for ever. */
  lemma DefaultsDeadlock() returns (es: seq<Event>)
    ensures AllEventsTagged(es)
    ensures FlowOk(VegasStart(DefaultExit(), DefaultExit(), 250).a)
    ensures Stalled(Run(VegasStart(DefaultExit(), DefaultExit(), 250), es))
  {
    var p := DefaultExit();
    var s0 := VegasStart(p, p, 250);
    VegasStartIdle(p, p, 250);
    var e1 := FullRound(s0, Sample(3000, false, false), 250, 250);
    var s1 := Run(s0, e1);
    FirstSlowSendme();
    var e2 := FullRound(s1, Sample(30000, false, false), 250, 250);
    var s2 := Run(s1, e2);
    SecondSlowSendme(s1.a.vegas.value.(inflight := 250));
    var e3 := BelowFloorDeadlocks(s2, 250, 250);
    RunConcat(s0, e1, e2);
    RunConcat(s0, e1 + e2, e3);
    es := e1 + e2 + e3;
  }

  // ---------------------------------------------------------------- runs that show a signal misread

  /** A blocked channel raises the window: the first SENDME of a default circuit, if it finds
      the channel blocked, takes the window from 124 to 310 cells. */
  lemma BlockedRaises(pb: CCParams) returns (es: seq<Event>)
    requires InRange(pb)
    ensures AllEventsTagged(es) && FlowOk(VegasStart(DefaultExit(), pb, 31).a)
    ensures var s := Run(VegasStart(DefaultExit(), pb, 31), es);
      && V.NewVegas(DefaultExit(), 31).cwnd == 124
      && s.a.vegas.Some? && s.a.vegas.value.blocked && s.a.vegas.value.cwnd == 310
  {
    var p := DefaultExit();
    var m := Sample(FirstRtt(p, 500), true, false);
    VegasStartIdle(p, pb, 31);
    FirstBlocked(p, 31, 500);
    OneRound(V.NewVegas(p, 31), m);
    es := PlayRounds(VegasStart(p, pb, 31), [m], 31, Max(pb.cwndInit, 31));
    RoundBlocked(V.NewVegas(p, 31), m);
  }

  /** The minimum RTT can pass the average, and the bandwidth-delay product the window. */
  lemma ResetOvershootsRun(pb: CCParams) returns (es: seq<Event>)
    requires InRange(pb)
    ensures AllEventsTagged(es) && FlowOk(VegasStart(DefaultExit(), pb, 31).a)
    ensures var s := Run(VegasStart(DefaultExit(), pb, 31), es);
      && s.a.vegas.Some?
      && var v := s.a.vegas.value;
      v.minRTT == 1000 && v.ewma == 400 && v.bdp == 310 && v.cwnd == 124 && !v.inSlowStart
  {
    VegasStartIdle(DefaultExit(), pb, 31);
    var ms := ResetOvershoots();
    es := PlayRounds(VegasStart(DefaultExit(), pb, 31), ms, 31, Max(pb.cwndInit, 31));
  }

  // ---------------------------------------------------------------- a SENDME that overtakes

  /** Sixty-two cells sent and delivered leave two SENDMEs to go; if the later one leaves
      first, the sender refuses it. */
  lemma OvertakingRefused(m: Sample) returns (es: seq<Event>)
    ensures AllEventsTagged(es) && FlowOk(VegasStart(DefaultExit(), DefaultExit(), 31).a)
    ensures var s := Run(VegasStart(DefaultExit(), DefaultExit(), 31), es);
      && s.failure.None? && s.sendmes == [] && |s.pending| == 2 && VegasOk(s.a)
      && var late := Acknowledge(s.b, s.pending[1]);
      late.Ok? && Accept(s.a, late.value.1, m) == Err(DigestMismatch)
  {
    var s := VegasStart(DefaultExit(), DefaultExit(), 31);
    VegasStartIdle(DefaultExit(), DefaultExit(), 31);
    var x, y := SampleTag(0), SampleTag(1);
    var e1 := SendMany(s, 31, x, 31, 124);
    var t := Run(s, e1);
    var e2 := SendMany(t, 31, y, 31, 124);
    var u := Run(t, e2);
    var e3 := DeliverMany(u, 62, false, 31, 124);
    RunConcat(s, e1, e2);
    RunConcat(s, e1 + e2, e3);
    es := e1 + e2 + e3;
    assert x[0] != y[0];
    TwoPending(Run(u, e3), x, y);
    OvertakingSendme(Run(u, e3), 1, m, 31, 124);
  }

  lemma TwoPending(s: System, x: Tag, y: Tag)
    requires Inv(s, 31, 124) && s.emitted == 0 && s.processed == 0 && s.delivered == 62
    requires s.sent == seq(31, _ => x) + seq(31, _ => y) && AuthTag(x) == Some(x) && AuthTag(y) == Some(y)
    ensures s.sendmes == [] && |s.pending| == 2
    ensures AuthTag(s.pending[0]) == Some(x) && AuthTag(s.pending[1]) == Some(y)
  {
    assert s.sent[..62] == s.sent;
    TagsLength(s.sent, 31);
    TagsAt(s.sent, 31, 0);
    TagsAt(s.sent, 31, 1);
    assert Auths(s.pending) == Tags(s.sent, 31);
    assert |Auths(s.pending)| == |s.pending|;
    assert Auths(s.pending)[0] == AuthTag(s.pending[0]).value && Auths(s.pending)[1] == AuthTag(s.pending[1]).value;
  }
}
