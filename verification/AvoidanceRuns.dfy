/** Growth in congestion avoidance over the runs of the SENDME system. */
module AvoidanceRuns {
  import opened Arith
  import opened Bytes
  import opened CCParams
  import V = VegasSpec
  import W = VegasWindow
  import A = VegasAvoidance
  import opened VegasFloor
  import opened SendmeSpec
  import opened SendmeSystem
  import opened SendmeProgress

  /** A full window acknowledged at a resting RTT on an open channel: no queue, so the window
      rises by cwndInc when the counter runs out, and only then. */
  lemma OpenTrip(v: V.Vegas, rtt: int)
    requires AtRest(v, rtt) && v.params.alpha > 0
    ensures var w := V.ProcessSendme(v.(inflight := v.cwnd, blocked := false), rtt, false).0;
      && AtRest(w, rtt) && w.params == v.params && w.sendmeInc == v.sendmeInc
      && w.inflight == Max(0, v.cwnd - v.sendmeInc)
      && (if v.nextCCEvent <= 1
          then w.cwnd == Min(Max(v.cwnd + v.params.cwndInc, v.params.cwndMin), v.params.cwndMax)
          else w.cwnd == v.cwnd && w.nextCCEvent == v.nextCCEvent - 1)
  {
    var b := v.(inflight := v.cwnd, blocked := false);
    RestEstimate(b, rtt);
    W.ReadyShape(b, rtt, false);
    W.SendmeShape(b, rtt, false);
    CounterNonnegative(b, rtt, false);
    W.StepKeepsSane(b, V.Sendme(rtt, false, false));
    assert b.(blocked := false) == b;
    if v.nextCCEvent > 1 {
      A.QuietSendme(b, rtt, false);
    } else {
      FullAtRest(b, rtt);
      OpenUpdate(W.Ready(b, rtt, false));
    }
  }

  lemma FullAtRest(b: V.Vegas, rtt: int)
    requires AtRest(b, rtt) && b.inflight >= b.cwnd
    ensures W.Ready(b, rtt, false).cwndFull
  {
    MulBounded(b.params.cwndFullGap, 0, b.sendmeInc);
    A.ReadyFull(b, rtt, false);
  }

  lemma OpenUpdate(r: V.Vegas)
    requires V.Sane(r) && !r.inSlowStart && r.nextCCEvent == 0 && !r.blocked && r.cwndFull
    requires r.bdp == r.cwnd && r.params.alpha > 0
    ensures V.Adjust(r).cwnd == Min(Max(r.cwnd + r.params.cwndInc, r.params.cwndMin), r.params.cwndMax)
  {
  }

  /** Full windows at a resting RTT on an open channel bring the window to cwndMax, whatever
      it was. */
  lemma {:induction false} GrowToMax(s: System, rtt: int, inc: int, w0: int) returns (es: seq<Event>)
    requires Quiet(s, inc, w0)
    requires var v := s.a.vegas.value;
      AtRest(v, rtt) && v.params.alpha > 0 && v.inflight <= v.cwnd && v.cwnd >= inc
    ensures AllEventsTagged(es) && Quiet(Run(s, es), inc, w0)
    ensures var v, w := s.a.vegas.value, Run(s, es).a.vegas.value;
      AtRest(w, rtt) && w.params == v.params && w.cwnd == v.params.cwndMax
    decreases s.a.vegas.value.params.cwndMax - s.a.vegas.value.cwnd, s.a.vegas.value.nextCCEvent
  {
    var v := s.a.vegas.value;
    if v.cwnd == v.params.cwndMax {
      es := [];
    } else {
      OpenTrip(v, rtt);
      es := FullTrip(s, Sample(rtt, false, false), inc, w0);
      var more := GrowToMax(Run(s, es), rtt, inc, w0);
      RunConcat(s, es, more);
      es := es + more;
    }
  }

  /** From the start of a circuit with any parameters and an alpha above zero: a run that
      leaves slow start and then takes the window to cwndMax. (With an alpha of zero no run of
      congestion avoidance takes it above cwndMin.) */
  lemma GrowsFromStart(pa: CCParams, pb: CCParams, inc: int) returns (es: seq<Event>)
    requires InRange(pa) && InRange(pb) && 1 <= inc <= 250 && pa.alpha > 0
    ensures AllEventsTagged(es) && FlowOk(VegasStart(pa, pb, inc).a)
    ensures var s := Run(VegasStart(pa, pb, inc), es);
      s.failure.None? && s.a.vegas.Some? && !s.a.vegas.value.inSlowStart && s.a.vegas.value.cwnd == pa.cwndMax
  {
    var s, w0 := VegasStart(pa, pb, inc), Max(pb.cwndInit, inc);
    var m := Sample(FirstRtt(pa, 1), true, false);
    VegasStartIdle(pa, pb, inc);
    FirstBlocked(pa, inc, 1);
    OneRound(V.NewVegas(pa, inc), m);
    var first := PlayRounds(s, [m], inc, w0);
    var more := GrowToMax(Run(s, first), 2, inc, w0);
    RunConcat(s, first, more);
    es := first + more;
  }
}
