/** Slow start of TOR_VEGAS: how fast the window grows, and what one SENDME does to it. */
module VegasSlowStart {
  import opened Arith
  import opened CCParams
  import opened VegasSpec
  import opened VegasWindow
  import opened VegasAvoidance

  // ---------------------------------------------------------------- the increment

  /** Limited slow start: above ssCap an increment is at most half of sendme_inc, rounded
      up, and never grows with the window. */
  lemma SlowStartIsLimited(p: CCParams, inc: int, c: int, d: int)
    requires InRange(p) && 1 <= inc <= 250 && p.ssCap < c <= d
    ensures 1 <= IncrementAt(p, inc, d) <= IncrementAt(p, inc, c)
    ensures 2 * IncrementAt(p, inc, c) <= inc + 1
  {
    var k := inc * p.ssCap;
    MulBounded(inc, p.ssCap, c);
    IncrementAboveCap(p, inc, c);
    IncrementAboveCap(p, inc, d);
    ShareFalls(k, c, d);
    ShareBound(k, c, inc);
  }

  /** k / 2c, rounded to the nearest integer. */
  function Share(k: int, c: int): int
    requires c >= 1
  {
    (k + c) / (2 * c)
  }

  lemma IncrementAboveCap(p: CCParams, inc: int, c: int)
    requires p.ssCap < c && 1 <= c
    ensures IncrementAt(p, inc, c) == Max(1, Share(inc * p.ssCap, c))
  {
  }

  lemma ShareFalls(k: int, c: int, d: int)
    requires k >= 0 && 1 <= c <= d
    ensures Share(k, d) <= Share(k, c)
  {
    DivMod(k + d, 2 * d);
    var q := (k + d) / (2 * d);
    ShareScales(k, c, d, q);
    QuotientAtLeast(k + c, 2 * c, q);
  }

  lemma ShareScales(k: int, c: int, d: int, q: nat)
    requires k >= 0 && 1 <= c <= d && 2 * d * q <= k + d
    ensures 2 * c * q <= k + c
  {
    assert 2 * d * q == d * (2 * q) && 2 * c * q == c * (2 * q);
    MulSub(d, 2 * q, 1);
    MulSub(c, 2 * q, 1);
    if q >= 1 {
      MulBounded(2 * q - 1, c, d);
    }
  }

  lemma QuotientAtLeast(n: nat, d: int, q: nat)
    requires d >= 1 && d * q <= n
    ensures q <= n / d
  {
    DivMod(n, d);
    MulLt(q, n / d + 1, d);
  }

  lemma ShareBound(k: int, c: int, inc: int)
    requires 0 <= k <= inc * c && c >= 1 && inc >= 1
    ensures 2 * Share(k, c) <= inc + 1
  {
    DivMod(k + c, 2 * c);
    var q := (k + c) / (2 * c);
    assert 2 * c * q == (2 * q) * c;
    assert (inc + 1) * c == inc * c + c;
    MulLt(inc + 1, 2 * q, c);
  }

  /** The increment: cwndIncPctSS percent of sendme_inc up to ssCap, and above it sendme_inc
      times ssCap over twice the window but at least one, rounded to the nearest integer. */
  lemma IncrementLaws(p: CCParams, inc: int, c: int)
    requires InRange(p) && 1 <= inc <= 250
    ensures c <= 0 ==> IncrementAt(p, inc, c) == 1
    ensures 0 < c <= p.ssCap ==> Nearest(IncrementAt(p, inc, c), p.cwndIncPctSS * inc, 100)
    ensures c > p.ssCap ==>
      exists k :: Nearest(k, inc * p.ssCap, 2 * c) && IncrementAt(p, inc, c) == Max(1, k)
  {
    if c > p.ssCap {
      MulBounded(inc, 0, p.ssCap);
      IncrementAboveCap(p, inc, c);
      QuotientIsNearest(inc * p.ssCap, 2 * c);
      assert Nearest(Share(inc * p.ssCap, c), inc * p.ssCap, 2 * c);
    } else if c > 0 {
      MulBounded(p.cwndIncPctSS, 0, inc);
      QuotientIsNearest(p.cwndIncPctSS * inc, 100);
    }
  }

  // ---------------------------------------------------------------- one SENDME in slow start

  /** A full window of c cells grows and slow start goes on. */
  predicate Stays(p: CCParams, inc: int, c: int) {
    var k := IncrementAt(p, inc, c);
    c + k < p.ssMax && k * SendmePerCwnd(c + k, inc) > p.cwndInc * p.cwndIncRate
  }

  /** One increment in flight already counts as a full window of c cells. */
  predicate FullWithOne(p: CCParams, inc: int, c: int) {
    inc + p.cwndFullGap * inc >= c
  }

  function Grown(p: CCParams, inc: int, c: int): int {
    Min(c + IncrementAt(p, inc, c), p.cwndMax)
  }

  /** An increment of zero ends slow start. */
  lemma StayingGrows(p: CCParams, inc: int, c: int)
    requires InRange(p) && 1 <= inc <= 250 && Stays(p, inc, c)
    ensures IncrementAt(p, inc, c) >= 1
  {
    var k := IncrementAt(p, inc, c);
    MulBounded(p.cwndIncPctSS, 0, inc);
    MulBounded(p.cwndInc, 0, p.cwndIncRate);
    assert k == 0 ==> k * SendmePerCwnd(c + k, inc) == 0;
  }

  /** Slow start goes on exactly when the channel is open, the queue is below gamma, and the
      window either is not full and below ssMax or grows; nothing else changes the window. */
  lemma AdjustSlow(r: Vegas)
    requires Sane(r) && r.inSlowStart
    ensures Adjust(r).inSlowStart <==>
      && !r.blocked && QueueUse(r) < r.params.gamma
      && (if r.cwndFull then Stays(r.params, r.sendmeInc, r.cwnd) else r.cwnd < r.params.ssMax)
    ensures Adjust(r).inSlowStart ==>
      Adjust(r).cwnd == if r.cwndFull then Grown(r.params, r.sendmeInc, r.cwnd) else Min(r.cwnd, r.params.cwndMax)
  {
    if !r.blocked && QueueUse(r) < r.params.gamma && r.cwndFull {
      if Stays(r.params, r.sendmeInc, r.cwnd) {
        StayingGrows(r.params, r.sendmeInc, r.cwnd);
      }
    }
  }

  /** The window slow start leaves behind: bdp + gamma when a queue or a blocked channel ends
      it, and else what it had grown to, both under ssMax and cwndMax. */
  lemma AdjustExit(r: Vegas)
    requires Sane(r) && r.inSlowStart && !Adjust(r).inSlowStart
    ensures var p := r.params;
      var aim := if r.blocked || QueueUse(r) >= p.gamma then r.bdp + p.gamma
                 else if r.cwndFull then r.cwnd + IncrementAt(p, r.sendmeInc, r.cwnd) else r.cwnd;
      Adjust(r).cwnd == Max(1, Min(Min(aim, p.ssMax), p.cwndMax))
  {
    AdjustSlow(r);
  }

  /** A SENDME that updates the window in slow start while the window counts as full. */
  predicate FullInSlowStart(v: Vegas, e: Event)
    requires Sane(v)
  {
    && e.Sendme?
    && v.inSlowStart
    && Usable(v.(blocked := e.blocked), e.rtt, e.broken)
    && Ready(v.(blocked := e.blocked), e.rtt, e.broken).cwndFull
  }

  /** What an event in slow start that does not end it does to the window: nothing, unless
      it is a usable SENDME; then it grows a full window and pulls any other down to
      cwndMax. A SENDME acknowledges sendme_inc cells in flight. */
  lemma SlowStartStep(v: Vegas, e: Event)
    requires Sane(v) && Step(v, e).inSlowStart
    requires e.Sendme? ==> v.inflight >= v.sendmeInc
    ensures var w, p, inc, c := Step(v, e), v.params, v.sendmeInc, v.cwnd;
      && v.inSlowStart && w.params == p && w.sendmeInc == inc
      && (FullInSlowStart(v, e) ==> p.gamma > 0 && Stays(p, inc, c) && w.cwnd == Grown(p, inc, c))
      && (!FullInSlowStart(v, e) ==>
            || w.cwnd == c
            || (w.cwnd == p.cwndMax < c < p.ssMax && p.gamma > 0 && !FullWithOne(p, inc, c)))
  {
    StepKeepsSane(v, e);
    if e.Sendme? {
      var b := v.(blocked := e.blocked);
      SendmeShape(b, e.rtt, e.broken);
      if Usable(b, e.rtt, e.broken) {
        EstimateLaws(Counted(b), e.rtt, e.broken);
        ReadyShape(b, e.rtt, e.broken);
        AdjustSlow(Ready(b, e.rtt, e.broken));
      }
    }
  }

  // ---------------------------------------------------------------- when it ends

  /** Slow start can hold on at the ceiling. */
  predicate Sticks(p: CCParams, inc: int) {
    p.gamma > 0 && Stays(p, inc, p.cwndMax)
  }

  /** A window of c cells can get to the ceiling within slow start: by growing step by step,
      or from above it by one SENDME, which one increment in flight leaves not full. */
  predicate ReachesTop(p: CCParams, inc: int, c: int)
    requires InRange(p) && 1 <= inc <= 250
    decreases p.cwndMax - c
  {
    if c == p.cwndMax then true
    else if c > p.cwndMax then c < p.ssMax && (!FullWithOne(p, inc, c) || Stays(p, inc, c))
    else Stays(p, inc, c) && (StayingGrows(p, inc, c); ReachesTop(p, inc, Grown(p, inc, c)))
  }

  predicate Endless(p: CCParams, inc: int, c: int)
    requires InRange(p) && 1 <= inc <= 250
  {
    Sticks(p, inc) && ReachesTop(p, inc, c)
  }

  /** How many more full SENDMEs slow start can last if it is not endless. */
  function Budget(v: Vegas): nat {
    if !v.inSlowStart then 0
    else if v.cwnd > v.params.cwndMax then 2
    else Max(1, Min(v.params.cwndMax + 1, v.params.ssMax) - v.cwnd)
  }

  lemma BudgetStep(v: Vegas, e: Event)
    requires e.Sendme? ==> v.inflight >= v.sendmeInc
    requires Sane(v) && Step(v, e).inSlowStart && !Endless(v.params, v.sendmeInc, v.cwnd)
    ensures var w := Step(v, e);
      && w.params == v.params && w.sendmeInc == v.sendmeInc
      && !Endless(w.params, w.sendmeInc, w.cwnd)
      && Budget(w) + (if FullInSlowStart(v, e) then 1 else 0) <= Budget(v)
  {
    SlowStartStep(v, e);
    if FullInSlowStart(v, e) {
      StayingGrows(v.params, v.sendmeInc, v.cwnd);
    }
  }

  // ---------------------------------------------------------------- a steady RTT

  /** Estimates at rest, or none yet. */
  predicate Steady(v: Vegas) {
    Sane(v) && v.inSlowStart && ((v.minRTT == 0 && v.ewma == 0) || (v.minRTT == 2 && v.ewma == 2))
  }

  function SteadyRtt(v: Vegas): int {
    if v.ewma == 0 then NEWMACount(v) + 1 else 2
  }

  function SteadySendme(v: Vegas): Event {
    Sendme(SteadyRtt(v), false, false)
  }

  lemma EwmaFixpoint(r: int, n: int)
    requires n >= 1
    ensures NCountEWMA(r, r, n) == r
  {
    EwmaBetween(r, r, n);
  }

  /** A steady RTT leaves no queue. */
  lemma SteadyEstimate(v: Vegas)
    requires Steady(v)
    ensures Usable(v, SteadyRtt(v), false)
    ensures var r := Estimated(v, SteadyRtt(v), false);
      r.minRTT == 2 && r.ewma == 2 && r.bdp == v.cwnd
  {
    var c, n := Counted(v), NEWMACount(v);
    assert NEWMACount(c) == n;
    if v.ewma == 0 {
      DivUnique((n + 1) * 2 + 0 * (n - 1), n + 1, 2, 0);
    } else {
      EwmaFixpoint(2, n);
    }
    assert NextEwma(c, SteadyRtt(v)) == 2;
  }

  lemma SteadyStep(v: Vegas)
    requires Steady(v) && v.params.gamma > 0
    requires var full := FullInSlowStart(v, SteadySendme(v));
      if full then Stays(v.params, v.sendmeInc, v.cwnd) else v.cwnd < v.params.ssMax
    ensures var w := Step(v, SteadySendme(v));
      && Steady(w) && w.params == v.params && w.sendmeInc == v.sendmeInc
      && w.cwnd == if FullInSlowStart(v, SteadySendme(v)) then Grown(v.params, v.sendmeInc, v.cwnd)
                   else Min(v.cwnd, v.params.cwndMax)
  {
    var b, rtt := v.(blocked := false), SteadyRtt(v);
    SteadyEstimate(b);
    ReadyShape(b, rtt, false);
    SendmeShape(b, rtt, false);
    StepKeepsSane(v, SteadySendme(v));
    AdjustSlow(Ready(b, rtt, false));
  }

  lemma FullWhenSent(u: Vegas)
    requires Steady(u) && u.inflight >= u.cwnd
    ensures FullInSlowStart(u, SteadySendme(u))
  {
    var b := u.(blocked := false);
    SteadyEstimate(b);
    EstimateFrame(Counted(b), SteadyRtt(u), false);
    MulBounded(u.params.cwndFullGap, 0, u.sendmeInc);
    assert BecameFull(Estimated(b, SteadyRtt(u), false));
  }

  /** With one increment in flight a window above the ceiling comes down to it. */
  lemma ComesDown(v: Vegas)
    requires Steady(v) && v.params.gamma > 0 && !v.cwndFull && v.inflight == v.sendmeInc
    requires v.cwnd > v.params.cwndMax && ReachesTop(v.params, v.sendmeInc, v.cwnd)
    ensures var w := Step(v, SteadySendme(v));
      Steady(w) && w.params == v.params && w.sendmeInc == v.sendmeInc && w.cwnd == v.params.cwndMax
  {
    var b := v.(blocked := false);
    EstimateFrame(Counted(b), SteadyRtt(v), false);
    assert FullInSlowStart(v, SteadySendme(v)) ==> BecameFull(Estimated(b, SteadyRtt(v), false));
    if Stays(v.params, v.sendmeInc, v.cwnd) {
      StayingGrows(v.params, v.sendmeInc, v.cwnd);
    }
    SteadyStep(v);
  }

  // ---------------------------------------------------------------- examples

  /** The initial window is not among the parameters that decide. */
  lemma {:induction false} SameTop(p: CCParams, q: CCParams, inc: int, c: int)
    requires InRange(p) && InRange(q) && 1 <= inc <= 250 && q == p.(cwndInit := q.cwndInit)
    ensures Stays(p, inc, c) == Stays(q, inc, c)
    ensures ReachesTop(p, inc, c) == ReachesTop(q, inc, c)
    decreases p.cwndMax - c
  {
    SameGrowth(p, q, inc, c);
    if c < p.cwndMax && Stays(p, inc, c) {
      StayingGrows(p, inc, c);
      SameTop(p, q, inc, Grown(p, inc, c));
    }
  }

  lemma SameGrowth(p: CCParams, q: CCParams, inc: int, c: int)
    requires q == p.(cwndInit := q.cwndInit)
    ensures Stays(p, inc, c) == Stays(q, inc, c) && Grown(p, inc, c) == Grown(q, inc, c)
    ensures FullWithOne(p, inc, c) == FullWithOne(q, inc, c)
  {
    assert IncrementAt(p, inc, c) == IncrementAt(q, inc, c);
  }

  /** A ceiling of 500 with the other defaults is climbed to. */
  lemma {:induction false} CappedClimbs(c: int)
    requires 124 <= c <= 500
    ensures InRange(DefaultExit().(cwndMax := 500)) && ReachesTop(DefaultExit().(cwndMax := 500), 31, c)
    decreases 500 - c
  {
    var p := DefaultExit().(cwndMax := 500);
    assert IncrementAt(p, 31, c) == 31;
    assert SendmePerCwnd(c + 31, 31) >= 2;
    if c < 500 {
      CappedClimbs(Grown(p, 31, c));
    }
  }

  /** With the default parameters slow start always ends. */
  lemma DefaultsEnd(inc: int)
    ensures !Sticks(DefaultExit(), inc) && !Sticks(DefaultOnion(), inc)
  {
  }

  /** With a ceiling of 500 and the other defaults it need not; with an ssMax of 501 as well
      it does again. */
  lemma CappedIsEndless()
    ensures var p := DefaultExit().(cwndMax := 500);
      InRange(p) && Endless(p, 31, p.cwndInit) && !Sticks(p.(ssMax := 501), 31)
  {
    CappedClimbs(124);
    CappedSticks();
  }

  lemma CappedSticks()
    ensures var p := DefaultExit().(cwndMax := 500);
      Sticks(p, 31) && !Sticks(p.(ssMax := 501), 31)
  {
    var p := DefaultExit().(cwndMax := 500);
    assert IncrementAt(p, 31, 500) == 31 == IncrementAt(p.(ssMax := 501), 31, 500);
    assert SendmePerCwnd(531, 31) == 17;
  }
}
