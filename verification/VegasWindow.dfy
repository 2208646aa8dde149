/** What TOR_VEGAS keeps over every sequence of RTTs: coherent estimates and a bounded
    window; and how it reacts to congestion signals. */
module VegasWindow {
  import opened Arith
  import opened CCParams
  import opened VegasSpec

  // ---------------------------------------------------------------- arithmetic

  lemma WeightedSum(a: int, b: int, n: int)
    requires n >= 1 && a <= b
    ensures a * (n + 1) <= a * 2 + b * (n - 1) <= b * (n + 1)
    ensures a * (n + 1) <= b * 2 + a * (n - 1) <= b * (n + 1)
  {
    var d := b - a;
    assert d * (n - 1) >= 0;
    assert b * (n - 1) == a * (n - 1) + d * (n - 1);
    assert a * (n + 1) == a * (n - 1) + a * 2 && b * (n + 1) == b * (n - 1) + b * 2;
  }

  /** The EWMA lies between the new sample and the previous average. */
  lemma EwmaBetween(curr: int, prev: int, n: int)
    requires n >= 1
    ensures curr <= prev ==> curr <= NCountEWMA(curr, prev, n) <= prev
    ensures prev <= curr ==> prev <= NCountEWMA(curr, prev, n) <= curr
  {
    var x := curr * 2 + prev * (n - 1);
    if curr <= prev {
      WeightedSum(curr, prev, n);
      DivBetween(x, n + 1, curr, prev);
    } else {
      WeightedSum(prev, curr, n);
      DivBetween(x, n + 1, prev, curr);
    }
  }

  lemma MixOf(lo: int, hi: int, pct: int)
    requires lo <= hi && 0 <= pct <= 100
    ensures var x := hi * pct + lo * (100 - pct);
      lo <= x / 100 <= hi && (x / 100 > lo <==> (hi - lo) * pct >= 100)
  {
    var d := (hi - lo) * pct;
    MulSub(pct, hi, lo);
    MulSub(lo, 100, pct);
    assert hi * pct + lo * (100 - pct) == lo * 100 + d;
    MulBounded(hi - lo, pct, 100);
  }

  /** The mix of a smaller and a larger value lies between them, and exceeds the smaller
      exactly when the weighted difference reaches one. */
  lemma MixBetween(a: int, b: int, pct: int)
    requires 0 <= a && 0 <= b && 0 <= pct <= 100
    ensures var lo, hi := if b > a then a else b, if b > a then b else a;
      && lo <= PercentMaxMix(a, b, pct) <= hi
      && (PercentMaxMix(a, b, pct) > lo <==> (hi - lo) * pct >= 100)
  {
    MixOf(if b > a then a else b, if b > a then b else a, pct);
  }

  /** c*m/e is at most c exactly when c*(m-e) is below e. */
  lemma ScaledAtMost(c: int, m: int, e: int)
    requires c >= 0 && m >= 0 && e > 0
    ensures c * m / e >= 0
    ensures c * m / e <= c <==> c * (m - e) < e
    ensures m <= e ==> c * (m - e) < e
  {
    MulBounded(c, 0, m);
    MulSub(c, m, e);
    DivAtMost(c * m, e, c);
    if m <= e {
      MulBounded(c, m, e);
    }
  }

  lemma DivAtMost(n: nat, d: int, q: int)
    requires d >= 1
    ensures n / d <= q <==> n - q * d < d
  {
    DivMod(n, d);
    var r := n / d;
    assert (q + 1) * d == q * d + d;
    MulLt(r, q + 1, d);
    MulLt(q + 1, r, d);
    MulLt(q, r, d);
    if r > q {
      MulBounded(d, q + 1 - q, r - q);
      MulSub(d, r, q);
    }
  }

  /** q is n / d rounded down. */
  predicate Floor(q: int, n: int, d: int) {
    d * q <= n < d * q + d
  }

  /** The EWMA over n samples weighs the new one 2 against n - 1 for the previous average,
      rounded down; n below one counts as one. */
  lemma EwmaWeight(curr: nat, prev: nat, n: int)
    ensures Floor(NCountEWMA(curr, prev, n), 2 * curr + (Max(n, 1) - 1) * prev, Max(n, 1) + 1)
  {
    var m := Max(n, 1);
    MulBounded(m - 1, 0, prev);
    assert prev * (m - 1) == (m - 1) * prev;
    DivMod(curr * 2 + prev * (m - 1), m + 1);
  }

  /** The mix weighs the larger value pct against 100 - pct for the smaller, rounded down; pct
      is moved into 0..100. */
  lemma MixWeight(a: nat, b: nat, pct: int)
    ensures var w := Max(0, Min(pct, 100));
      Floor(PercentMaxMix(a, b, pct), Max(a, b) * w + Min(a, b) * (100 - w), 100)
  {
  }

  // ---------------------------------------------------------------- estimates

  /** Which RTTs count: positive ones; in congestion avoidance, once there is an average, only
      those within a factor of 5000 above it, and those as far below it unless the clock is
      known to be broken. A non-positive RTT marks the clock broken, one within the factor
      both ways clears it, and nothing else touches the mark. */
  lemma FilterLaws(inSlowStart: bool, ewma: nat, rtt: int, broken: bool)
    ensures var (stalled, broken') := StalledOrJumped(inSlowStart, ewma, rtt, broken);
      var settled := !inSlowStart && ewma > 0;
      && (!stalled <==> rtt > 0 && (settled ==> rtt <= 5000 * ewma && (ewma <= 5000 * rtt || !broken)))
      && (broken' <==> rtt <= 0 || (broken && !(settled && rtt <= 5000 * ewma && ewma <= 5000 * rtt)))
  {
  }

  /** How many samples the average spans: ewmaSS in slow start, and else ewmaCwndPct percent of
      the update period rounded down, at most ewmaMax; and never less than two. */
  lemma SpanLaws(v: Vegas)
    requires Sane(v)
    ensures v.inSlowStart ==> NEWMACount(v) == Max(2, v.params.ewmaSS)
    ensures !v.inSlowStart ==>
      exists n :: Floor(n, UpdatePeriod(v) * v.params.ewmaCwndPct, 100) && NEWMACount(v) == Max(2, Min(n, v.params.ewmaMax))
  {
    if !v.inSlowStart {
      var n := UpdatePeriod(v) * v.params.ewmaCwndPct / 100;
      assert Floor(n, UpdatePeriod(v) * v.params.ewmaCwndPct, 100);
    }
  }

  function UpdatePeriod(v: Vegas): int {
    CwndUpdateRate(v.cwnd, v.params.cwndIncRate, v.sendmeInc, false)
  }

  /** What an accepted RTT makes of the estimates: the minimum is the first average, or the
      mix at the window floor outside slow start, or else the smaller of itself and the
      average; the product is the window times minimum over average, rounded down, and the
      window itself while the average is zero; and it may be used unless the average is zero
      on an open channel. */
  lemma EstimateExact(v: Vegas, rtt: int, broken: bool)
    requires Sane(v) && Accepted(v, rtt, broken)
    ensures var (w, usable, _) := UpdateEstimates(v, rtt, broken);
      var n, e := NEWMACount(v), w.ewma;
      && Floor(e, 2 * rtt + (n - 1) * v.ewma, n + 1)
      && (v.minRTT == 0 ==> w.minRTT == e)
      && (v.minRTT > 0 && v.cwnd == v.params.cwndMin && !v.inSlowStart ==>
            Floor(w.minRTT, Max(e, v.minRTT) * v.params.rttResetPct + Min(e, v.minRTT) * (100 - v.params.rttResetPct), 100))
      && (v.minRTT > 0 && (v.cwnd != v.params.cwndMin || v.inSlowStart) ==> w.minRTT == Min(e, v.minRTT))
      && (if e > 0 then Floor(w.bdp, v.cwnd * w.minRTT, e) && usable else w.bdp == v.cwnd && (usable <==> v.blocked))
  {
    EwmaWeight(rtt, v.ewma, NEWMACount(v));
    var e := NextEwma(v, rtt);
    EwmaBetween(rtt, v.ewma, NEWMACount(v));
    MixWeight(e, v.minRTT, v.params.rttResetPct);
    NextMinLaws(v, e);
    if e > 0 {
      var m := NextMin(v, e);
      MulBounded(v.cwnd, 0, m);
      DivMod(v.cwnd * m, e);
    }
  }

  predicate Accepted(v: Vegas, rtt: int, broken: bool) {
    !StalledOrJumped(v.inSlowStart, v.ewma, rtt, broken).0
  }

  lemma NextMinLaws(v: Vegas, ewma: int)
    requires Sane(v) && ewma >= 0
    ensures 0 <= NextMin(v, ewma)
    ensures NextMin(v, ewma) <= v.minRTT || NextMin(v, ewma) <= ewma
    ensures NextMin(v, ewma) > ewma <==> ResetsMin(v) && (v.minRTT - ewma) * v.params.rttResetPct >= 100
  {
    MixBetween(ewma, v.minRTT, v.params.rttResetPct);
    if v.minRTT <= ewma {
      assert (v.minRTT - ewma) * v.params.rttResetPct <= 0;
    }
  }

  /** The minimum will be re-mixed at the window floor from at least 100 / rttResetPct above
      the new average. */
  predicate MinOvershoots(v: Vegas, ewma: int) {
    ResetsMin(v) && (v.minRTT - ewma) * v.params.rttResetPct >= 100
  }

  /** It will be re-mixed to at least ewma / cwnd above the new average. */
  predicate ProductOvershoots(v: Vegas, ewma: int) {
    && ewma > 0 && ResetsMin(v)
    && v.cwnd * (PercentMaxMix(ewma, v.minRTT, v.params.rttResetPct) - ewma) >= ewma
  }

  /** An RTT is either ignored, or moves the average towards itself; the maximum is the
      largest accepted RTT, which neither the average nor the minimum exceeds. The minimum
      exceeds the average, and the bandwidth-delay product the window, exactly under the
      conditions above on the state before. */
  lemma EstimateLaws(v: Vegas, rtt: int, broken: bool)
    requires Sane(v)
    ensures var (w, usable, _) := UpdateEstimates(v, rtt, broken);
      && Sane(w)
      && (!Accepted(v, rtt, broken) ==> w == v && !usable)
      && (Accepted(v, rtt, broken) ==>
            && rtt > 0
            && w.maxRTT == (if rtt > v.maxRTT then rtt else v.maxRTT)
            && (rtt <= v.ewma ==> rtt <= w.ewma <= v.ewma)
            && (v.ewma <= rtt ==> v.ewma <= w.ewma <= rtt)
            && w.ewma == NextEwma(v, rtt)
            && (w.minRTT > w.ewma <==> MinOvershoots(v, NextEwma(v, rtt)))
            && (w.bdp > v.cwnd <==> ProductOvershoots(v, NextEwma(v, rtt)))
            && 0 <= QueueUse(w) <= v.cwnd)
  {
    if Accepted(v, rtt, broken) {
      EwmaBetween(rtt, v.ewma, NEWMACount(v));
      var ewma := NextEwma(v, rtt);
      NextMinLaws(v, ewma);
      if ewma > 0 {
        ScaledAtMost(v.cwnd, NextMin(v, ewma), ewma);
        if !ResetsMin(v) {
          assert NextMin(v, ewma) <= ewma;
        }
      }
    }
  }

  // ---------------------------------------------------------------- one SENDME

  function Counted(v: Vegas): Vegas {
    v.(nextCCEvent := CountDown(v.nextCCEvent), nextCwndEvent := CountDown(v.nextCwndEvent))
  }

  function Estimated(v: Vegas, rtt: int, broken: bool): Vegas
    requires Sane(v)
  {
    UpdateEstimates(Counted(v), rtt, broken).0
  }

  predicate Usable(v: Vegas, rtt: int, broken: bool)
    requires Sane(v)
  {
    UpdateEstimates(Counted(v), rtt, broken).1
  }

  /** The state just before the window is adjusted. */
  function Ready(v: Vegas, rtt: int, broken: bool): Vegas
    requires Sane(v)
  {
    MarkFull(Estimated(v, rtt, broken))
  }

  lemma AdjustFrame(v: Vegas)
    ensures Adjust(v) == v.(cwnd := Adjust(v).cwnd, inSlowStart := Adjust(v).inSlowStart)
  {
  }

  lemma RearmFrame(v: Vegas)
    ensures var w := AckInflight(Rearm(v));
      w == v.(inflight := if v.inflight < v.sendmeInc then 0 else v.inflight - v.sendmeInc,
              nextCCEvent := w.nextCCEvent, nextCwndEvent := w.nextCwndEvent, cwndFull := w.cwndFull)
  {
  }

  lemma EstimateFrame(v: Vegas, rtt: int, broken: bool)
    requires Sane(v)
    ensures var w := UpdateEstimates(v, rtt, broken).0;
      w == v.(minRTT := w.minRTT, maxRTT := w.maxRTT, ewma := w.ewma, bdp := w.bdp)
  {
  }

  lemma ReadyShape(v: Vegas, rtt: int, broken: bool)
    requires Sane(v)
    ensures var r := Ready(v, rtt, broken);
      && Sane(Estimated(v, rtt, broken)) && Sane(r)
      && r == Counted(v).(minRTT := r.minRTT, maxRTT := r.maxRTT, ewma := r.ewma, bdp := r.bdp, cwndFull := r.cwndFull)
      && r == Estimated(v, rtt, broken).(cwndFull := r.cwndFull)
  {
    EstimateLaws(Counted(v), rtt, broken);
    EstimateFrame(Counted(v), rtt, broken);
  }

  /** A SENDME leaves the window and the phase as they were, or as the adjustment makes
      them; it acknowledges sendme_inc cells, and fixes nothing else of the window. */
  lemma SendmeShape(v: Vegas, rtt: int, broken: bool)
    requires Sane(v)
    ensures var w, r := ProcessSendme(v, rtt, broken).0, Ready(v, rtt, broken);
      && Sane(r)
      && r.cwnd == v.cwnd && r.inSlowStart == v.inSlowStart && r.blocked == v.blocked
      && r.params == v.params && r.sendmeInc == v.sendmeInc
      && w.params == v.params && w.sendmeInc == v.sendmeInc
      && w.inflight == (if v.inflight < v.sendmeInc then 0 else v.inflight - v.sendmeInc)
      && w.minRTT == r.minRTT && w.maxRTT == r.maxRTT && w.ewma == r.ewma && w.bdp == r.bdp
      && (if Usable(v, rtt, broken)
          then w.cwnd == Adjust(r).cwnd && w.inSlowStart == Adjust(r).inSlowStart
          else w.cwnd == v.cwnd && w.inSlowStart == v.inSlowStart)
  {
    ReadyShape(v, rtt, broken);
    var r := Ready(v, rtt, broken);
    if Usable(v, rtt, broken) {
      AdjustFrame(r);
      RearmFrame(Adjust(r));
      assert ProcessSendme(v, rtt, broken).0 == AckInflight(Rearm(Adjust(r)));
    } else {
      assert ProcessSendme(v, rtt, broken).0 == AckInflight(Estimated(v, rtt, broken));
    }
  }

  /** Adjusting keeps the window in 1..cwndMax, and never re-enters slow start. */
  lemma AdjustBounds(v: Vegas)
    requires Sane(v)
    ensures Adjust(v).cwnd >= 1
    ensures v.cwnd <= v.params.cwndMax || v.inSlowStart ==> Adjust(v).cwnd <= v.params.cwndMax
    ensures Adjust(v).inSlowStart ==> v.inSlowStart
  {
  }

  /** Every event keeps the state sane; the window stays in 1..cwndMax once there, and an
      out-of-range initial window is pulled in by the first usable SENDME. */
  lemma StepKeepsSane(v: Vegas, e: Event)
    requires Sane(v)
    ensures Sane(Step(v, e))
    ensures Step(v, e).params == v.params && Step(v, e).sendmeInc == v.sendmeInc
    ensures v.cwnd <= v.params.cwndMax ==> 1 <= Step(v, e).cwnd <= v.params.cwndMax
    ensures e.Sendme? && v.inSlowStart && Usable(v.(blocked := e.blocked), e.rtt, e.broken) ==>
      1 <= Step(v, e).cwnd <= v.params.cwndMax
    ensures Step(v, e).inSlowStart ==> v.inSlowStart
  {
    if e.Sendme? {
      var b := v.(blocked := e.blocked);
      SendmeShape(b, e.rtt, e.broken);
      AdjustBounds(Ready(b, e.rtt, e.broken));
    }
  }

  function Run(v: Vegas, es: seq<Event>): Vegas
    requires Sane(v)
    decreases |es|
  {
    if es == [] then v
    else
      StepKeepsSane(v, es[0]);
      Run(Step(v, es[0]), es[1..])
  }

  lemma {:induction false} RunKeepsSane(v: Vegas, es: seq<Event>)
    requires Sane(v)
    ensures Sane(Run(v, es))
    ensures Run(v, es).params == v.params && Run(v, es).sendmeInc == v.sendmeInc
    ensures v.cwnd <= v.params.cwndMax ==> 1 <= Run(v, es).cwnd <= v.params.cwndMax
    ensures !v.inSlowStart ==> !Run(v, es).inSlowStart
    decreases |es|
  {
    if es != [] {
      StepKeepsSane(v, es[0]);
      RunKeepsSane(Step(v, es[0]), es[1..]);
    }
  }

  /** The RTT of an event that passes the stall and jump filter, else 0. */
  function AcceptedRtt(v: Vegas, e: Event): int {
    if e.Sendme? && Accepted(v, e.rtt, e.broken) then e.rtt else 0
  }

  /** The largest RTT accepted in a run. */
  function LargestAccepted(v: Vegas, es: seq<Event>): int
    requires Sane(v)
    decreases |es|
  {
    if es == [] then 0
    else
      StepKeepsSane(v, es[0]);
      Max(AcceptedRtt(v, es[0]), LargestAccepted(Step(v, es[0]), es[1..]))
  }

  lemma MaxAfterStep(v: Vegas, e: Event)
    requires Sane(v)
    ensures Step(v, e).maxRTT == Max(v.maxRTT, AcceptedRtt(v, e))
  {
    if e.Sendme? {
      var b := v.(blocked := e.blocked);
      SendmeShape(b, e.rtt, e.broken);
      ReadyShape(b, e.rtt, e.broken);
      EstimateLaws(Counted(b), e.rtt, e.broken);
    }
  }

  lemma {:induction false} MaxIsLargestAccepted(v: Vegas, es: seq<Event>)
    requires Sane(v)
    ensures Run(v, es).maxRTT == Max(v.maxRTT, LargestAccepted(v, es))
    decreases |es|
  {
    if es != [] {
      StepKeepsSane(v, es[0]);
      MaxAfterStep(v, es[0]);
      MaxIsLargestAccepted(Step(v, es[0]), es[1..]);
    }
  }

  /** A new circuit: nothing in flight and nothing measured, in slow start on an open channel,
      with the initial window or one increment if that is more; an increment below one means
      the default of 31. */
  lemma NewVegasLaws(p: CCParams, sendmeInc: int)
    ensures var v := NewVegas(p, sendmeInc);
      && v.sendmeInc == (if sendmeInc >= 1 then sendmeInc else 31)
      && v.cwnd == Max(p.cwndInit, v.sendmeInc) == v.params.cwndInit && v.params == p.(cwndInit := v.cwnd)
      && v.inflight == 0 && v.inSlowStart && !v.cwndFull && !v.blocked
      && v.minRTT == 0 && v.maxRTT == 0 && v.ewma == 0 && v.bdp == 0
      && v.nextCCEvent == 1 && v.nextCwndEvent == 0
  {
  }

  lemma NewIsSane(p: CCParams, sendmeInc: int)
    requires InRange(p) && 1 <= sendmeInc <= 250
    ensures Sane(NewVegas(p, sendmeInc))
    ensures NewVegas(p, sendmeInc).cwnd >= sendmeInc
  {
  }

  /** Whatever RTTs are measured and whatever is sent in between: the maximum is the largest
      RTT that passed the filter, neither the average nor the minimum exceeds it, and the
      window stays in 1..cwndMax if it starts there. */
  lemma VegasOverEveryRun(p: CCParams, sendmeInc: int, es: seq<Event>)
    requires InRange(p) && 1 <= sendmeInc <= 250
    ensures Sane(NewVegas(p, sendmeInc))
    ensures var v := Run(NewVegas(p, sendmeInc), es);
      var top := LargestAccepted(NewVegas(p, sendmeInc), es);
      && v.maxRTT == top && 0 <= v.ewma <= top && 0 <= v.minRTT <= top
      && 0 <= QueueUse(v) <= v.cwnd
      && (p.cwndInit <= p.cwndMax ==> 1 <= v.cwnd <= p.cwndMax)
  {
    var v0 := NewVegas(p, sendmeInc);
    NewIsSane(p, sendmeInc);
    RunKeepsSane(v0, es);
    MaxIsLargestAccepted(v0, es);
  }

  lemma IncrementNonnegative(v: Vegas)
    requires Sane(v)
    ensures SSInc(v) >= 0
  {
    MulBounded(v.params.cwndIncPctSS, 0, v.sendmeInc);
  }

  // ---------------------------------------------------------------- congestion signals

  lemma SlowStartMonotone(v: Vegas, hi: int, lo: int)
    requires Sane(v) && v.inSlowStart && hi >= lo >= 0
    ensures Adjust(v.(bdp := hi)).cwnd >= Adjust(v.(bdp := lo)).cwnd
  {
    IncrementNonnegative(v);
    assert SSInc(v.(bdp := hi)) == SSInc(v.(bdp := lo)) == SSInc(v);
  }

  /** More queue never earns a larger window: of two states that differ only in the
      bandwidth-delay product, the one with the smaller product, and so the longer
      queue, gets no larger window, in both phases and in every band. */
  lemma AdjustMonotone(v: Vegas, hi: int, lo: int)
    requires Sane(v) && hi >= lo >= 0
    ensures Adjust(v.(bdp := hi)).cwnd >= Adjust(v.(bdp := lo)).cwnd
  {
    if v.inSlowStart {
      SlowStartMonotone(v, hi, lo);
    }
  }

  /** A blocked channel is a congestion signal in congestion avoidance: it never leads to
      a larger window than an open one. In slow start it is not: it raises the window
      exactly when it is below bdp + gamma and below both ceilings. */
  lemma BlockedSignal(v: Vegas)
    requires Sane(v)
    ensures !v.inSlowStart ==> Adjust(v.(blocked := true)).cwnd <= Adjust(v.(blocked := false)).cwnd
    ensures v.inSlowStart ==>
      (Adjust(v.(blocked := true)).cwnd > v.cwnd <==>
         v.bdp + v.params.gamma > v.cwnd
         && v.cwnd < v.params.ssMax && v.cwnd < v.params.cwndMax)
  {
  }

  /** Without a blocked channel a SENDME grows the window only while it is full and the
      queue short, or to lift it to cwndMin in congestion avoidance. */
  lemma GrowthNeedsDemand(v: Vegas, rtt: int, broken: bool)
    requires Sane(v) && !v.blocked
    requires ProcessSendme(v, rtt, broken).0.cwnd > v.cwnd
    ensures var r := Ready(v, rtt, broken);
      && Usable(v, rtt, broken)
      && (|| (r.cwndFull && QueueUse(r) < if v.inSlowStart then v.params.gamma else v.params.alpha)
          || (!v.inSlowStart && v.cwnd < v.params.cwndMin))
  {
    SendmeShape(v, rtt, broken);
    if v.inSlowStart {
      SlowStartProduct(v, rtt, broken);
    }
    AdjustGrowth(Ready(v, rtt, broken));
  }

  /** In slow start the minimum is never re-mixed, so the product is within the window. */
  lemma SlowStartProduct(v: Vegas, rtt: int, broken: bool)
    requires Sane(v) && v.inSlowStart && Usable(v, rtt, broken)
    ensures Ready(v, rtt, broken).bdp <= v.cwnd
  {
    EstimateLaws(Counted(v), rtt, broken);
  }

  lemma AdjustGrowth(r: Vegas)
    requires Sane(r) && !r.blocked && Adjust(r).cwnd > r.cwnd
    requires r.inSlowStart ==> r.bdp <= r.cwnd
    ensures || (r.cwndFull && QueueUse(r) < if r.inSlowStart then r.params.gamma else r.params.alpha)
            || (!r.inSlowStart && r.cwnd < r.params.cwndMin)
  {
  }
}
