/** Congestion avoidance of TOR_VEGAS: what each band of the queue does to the window, and
    when the updates come. */
module VegasAvoidance {
  import opened Arith
  import opened CCParams
  import opened VegasSpec
  import opened VegasWindow

  // ---------------------------------------------------------------- the four bands

  /** An update in congestion avoidance. Above delta the queue left against the same
      bandwidth-delay product is delta - cwndInc; above beta, or on a blocked channel, the
      window falls by cwndInc; below alpha a full window rises by cwndInc; all between
      cwndMin and cwndMax. */
  lemma AvoidanceBands(r: Vegas)
    requires Sane(r) && !r.inSlowStart && r.nextCCEvent == 0
    requires r.params.cwndMin <= r.cwnd <= r.params.cwndMax
    ensures var p, q, c, w := r.params, QueueUse(r), r.cwnd, Adjust(r).cwnd;
      && (q > p.delta ==> w - r.bdp == Max(p.delta - p.cwndInc, p.cwndMin - r.bdp))
      && (q <= p.delta && (q > p.beta || r.blocked) ==> w == Max(c - p.cwndInc, p.cwndMin))
      && (q <= p.delta && q <= p.beta && !r.blocked ==>
            w == if r.cwndFull && q < p.alpha then Min(c + p.cwndInc, p.cwndMax) else c)
  {
  }

  /** So the window rises exactly when the channel is open, the window full, the queue below
      alpha and in neither upper band, and there is room; and it falls exactly when the queue
      is in an upper band or the channel blocked, and the window above its floor. */
  lemma AvoidanceDirection(r: Vegas)
    requires Sane(r) && !r.inSlowStart && r.nextCCEvent == 0
    requires r.params.cwndMin <= r.cwnd <= r.params.cwndMax
    ensures var p, q, c, w := r.params, QueueUse(r), r.cwnd, Adjust(r).cwnd;
      && (w > c <==> !r.blocked && r.cwndFull && q < p.alpha && q <= p.beta && q <= p.delta && c < p.cwndMax)
      && (w < c <==> (q > p.beta || q > p.delta || r.blocked) && c > p.cwndMin)
  {
    AvoidanceBands(r);
  }

  /** A window below its floor is lifted to it, as far as the ceiling allows. */
  lemma AvoidanceLifts(r: Vegas)
    requires Sane(r) && !r.inSlowStart && r.nextCCEvent == 0
    ensures Adjust(r).cwnd >= Min(r.params.cwndMin, r.params.cwndMax)
  {
  }

  // ---------------------------------------------------------------- the counters

  /** k is c / den rounded to the nearest integer, a half upwards. */
  predicate Nearest(k: int, c: int, den: int) {
    2 * (den * k - c) <= den && 2 * (c - den * k) < den
  }

  lemma NearestUnique(k: int, l: int, c: int, den: int)
    requires den >= 1 && Nearest(k, c, den) && Nearest(l, c, den)
    ensures k == l
  {
    MulSub(den, k, l);
    if k > l {
      MulBounded(den, 1, k - l);
    } else if k < l {
      MulSub(den, l, k);
      MulBounded(den, 1, l - k);
    }
  }

  lemma QuotientIsNearest(c: nat, den: int)
    requires den >= 1
    ensures (c + den / 2) / den >= 0 && Nearest((c + den / 2) / den, c, den)
  {
    DivMod(c + den / 2, den);
    MulLt((c + den / 2) / den, 0, den);
  }

  /** The denominator of the update rate. */
  function RateDen(v: Vegas): int {
    v.params.cwndIncRate * v.sendmeInc
  }

  /** The number of SENDMEs a counter starts from: one in slow start, and else the window over
      cwndIncRate * sendme_inc. */
  predicate UpdateDue(v: Vegas) {
    if v.inSlowStart then v.nextCCEvent == 1 else Nearest(v.nextCCEvent, v.cwnd, RateDen(v))
  }

  /** The same for the counter of a window's worth of SENDMEs. */
  predicate WindowDue(v: Vegas) {
    Nearest(v.nextCwndEvent, v.cwnd, v.sendmeInc)
  }

  predicate Counting(v: Vegas) {
    Sane(v) && v.nextCCEvent >= 0 && v.nextCwndEvent >= 0
  }

  /** Both rates are quotients to the nearest integer; a denominator below one counts as one. */
  lemma RatesAreNearest(c: nat, incRate: int, inc: int)
    ensures var k := CwndUpdateRate(c, incRate, inc, false); k >= 0 && Nearest(k, c, Max(1, incRate * inc))
    ensures var k := SendmePerCwnd(c, inc); k >= 0 && Nearest(k, c, Max(1, inc))
  {
    QuotientIsNearest(c, Max(1, incRate * inc));
    QuotientIsNearest(c, Max(1, inc));
  }

  lemma RatesOf(v: Vegas)
    requires Sane(v)
    ensures RateDen(v) >= 1
    ensures var k := CwndUpdateRate(v.cwnd, v.params.cwndIncRate, v.sendmeInc, false);
      k >= 0 && Nearest(k, v.cwnd, RateDen(v))
    ensures var k := SendmePerCwnd(v.cwnd, v.sendmeInc);
      k >= 0 && Nearest(k, v.cwnd, v.sendmeInc)
  {
    MulLt(0, v.params.cwndIncRate, v.sendmeInc);
    RatesAreNearest(v.cwnd, v.params.cwndIncRate, v.sendmeInc);
  }

  /** When the full mark is taken back: at the start of a window's worth of SENDMEs, or of an
      update period if cwndFullPerCwnd is not set. */
  predicate MarkExpires(v: Vegas) {
    if v.params.cwndFullPerCwnd == 1 then WindowDue(v) else UpdateDue(v)
  }

  /** A counter that has run out starts again from its rate, and no other moves; and the full
      mark goes exactly then. */
  lemma RearmLaws(v: Vegas)
    requires Sane(v) && v.nextCCEvent >= 0 && v.nextCwndEvent >= 0
    ensures var w := Rearm(v);
      && w == v.(nextCCEvent := w.nextCCEvent, nextCwndEvent := w.nextCwndEvent, cwndFull := w.cwndFull)
      && w.nextCCEvent >= 0 && w.nextCwndEvent >= 0
      && (if v.nextCCEvent > 0 then w.nextCCEvent == v.nextCCEvent else UpdateDue(w))
      && (if v.nextCwndEvent > 0 then w.nextCwndEvent == v.nextCwndEvent else WindowDue(w))
      && (w.cwndFull <==> v.cwndFull && !MarkExpires(w))
  {
    RatesOf(v);
    var w := Rearm(v);
    if !w.inSlowStart && Nearest(w.nextCCEvent, w.cwnd, RateDen(w)) {
      NearestUnique(w.nextCCEvent, CwndUpdateRate(v.cwnd, v.params.cwndIncRate, v.sendmeInc, false), v.cwnd, RateDen(v));
    }
    if WindowDue(w) {
      NearestUnique(w.nextCwndEvent, SendmePerCwnd(v.cwnd, v.sendmeInc), v.cwnd, v.sendmeInc);
    }
  }

  /** What a SENDME does to the counters and to the full mark. */
  lemma CountersAfter(v: Vegas, rtt: int, broken: bool)
    requires Counting(v)
    ensures var w := ProcessSendme(v, rtt, broken).0;
      && Counting(w)
      && (!Usable(v, rtt, broken) ==>
            && w.nextCCEvent == Max(0, v.nextCCEvent - 1) && w.nextCwndEvent == Max(0, v.nextCwndEvent - 1)
            && w.cwndFull == v.cwndFull)
      && (Usable(v, rtt, broken) ==>
            && (if v.nextCCEvent > 1 then w.nextCCEvent == v.nextCCEvent - 1 else UpdateDue(w))
            && (if v.nextCwndEvent > 1 then w.nextCwndEvent == v.nextCwndEvent - 1 else WindowDue(w))
            && (w.cwndFull <==> CountsAsFull(v) && !MarkExpires(w)))
  {
    if Usable(v, rtt, broken) {
      CountersUsable(v, rtt, broken);
    } else {
      CountersUnusable(v, rtt, broken);
    }
  }

  lemma CountersUsable(v: Vegas, rtt: int, broken: bool)
    requires Counting(v) && Usable(v, rtt, broken)
    ensures var w := ProcessSendme(v, rtt, broken).0;
      && Counting(w)
      && (if v.nextCCEvent > 1 then w.nextCCEvent == v.nextCCEvent - 1 else UpdateDue(w))
      && (if v.nextCwndEvent > 1 then w.nextCwndEvent == v.nextCwndEvent - 1 else WindowDue(w))
      && (w.cwndFull <==> CountsAsFull(v) && !MarkExpires(w))
  {
    ReadyShape(v, rtt, broken);
    ReadyFull(v, rtt, broken);
    var r := Ready(v, rtt, broken);
    AdjustFrame(r);
    AdjustKeepsSane(r);
    RearmLaws(Adjust(r));
    AckLeavesCounters(Rearm(Adjust(r)));
    assert ProcessSendme(v, rtt, broken).0 == AckInflight(Rearm(Adjust(r)));
  }

  lemma AckLeavesCounters(v: Vegas)
    requires Sane(v)
    ensures var w := AckInflight(v);
      && Sane(w) && w == v.(inflight := w.inflight)
      && (UpdateDue(w) <==> UpdateDue(v)) && (WindowDue(w) <==> WindowDue(v)) && (MarkExpires(w) <==> MarkExpires(v))
  {
  }

  lemma CountersUnusable(v: Vegas, rtt: int, broken: bool)
    requires Counting(v) && !Usable(v, rtt, broken)
    ensures var w := ProcessSendme(v, rtt, broken).0;
      && Counting(w)
      && w.nextCCEvent == Max(0, v.nextCCEvent - 1) && w.nextCwndEvent == Max(0, v.nextCwndEvent - 1)
      && w.cwndFull == v.cwndFull
  {
    EstimateLaws(Counted(v), rtt, broken);
    EstimateFrame(Counted(v), rtt, broken);
    assert ProcessSendme(v, rtt, broken).0 == AckInflight(Estimated(v, rtt, broken));
  }

  /** The window counts as full when what is in flight comes within cwndFullGap increments of
      it, and goes on counting as full until less than cwndFullMinPct percent is in flight. */
  predicate CountsAsFull(v: Vegas) {
    || v.inflight + v.params.cwndFullGap * v.sendmeInc >= v.cwnd
    || (v.cwndFull && 100 * v.inflight >= v.params.cwndFullMinPct * v.cwnd)
  }

  lemma ReadyFull(v: Vegas, rtt: int, broken: bool)
    requires Sane(v)
    ensures Ready(v, rtt, broken).cwndFull <==> CountsAsFull(v)
  {
    EstimateFrame(Counted(v), rtt, broken);
  }

  lemma AdjustKeepsSane(r: Vegas)
    requires Sane(r)
    ensures Sane(Adjust(r))
  {
    AdjustFrame(r);
    AdjustBounds(r);
  }

  // ---------------------------------------------------------------- when the updates come

  function SendmesIn(es: seq<Event>): nat {
    if es == [] then 0 else (if es[0].Sendme? then 1 else 0) + SendmesIn(es[1..])
  }

  lemma CounterKept(r: Vegas)
    requires !r.inSlowStart && r.nextCCEvent > 0
    ensures Adjust(r) == r
    ensures AckInflight(Rearm(r)).nextCCEvent == r.nextCCEvent
  {
  }

  lemma QuietSendme(v: Vegas, rtt: int, broken: bool)
    requires Sane(v) && !v.inSlowStart && v.nextCCEvent > 1
    ensures Adjust(Ready(v, rtt, broken)) == Ready(v, rtt, broken)
    ensures ProcessSendme(v, rtt, broken).0.nextCCEvent == v.nextCCEvent - 1
  {
    ReadyShape(v, rtt, broken);
    var r := Ready(v, rtt, broken);
    CounterKept(r);
    assert ProcessSendme(v, rtt, broken).0
        == AckInflight(if Usable(v, rtt, broken) then Rearm(Adjust(r)) else Estimated(v, rtt, broken));
  }

  lemma AvoidanceStep(v: Vegas, e: Event)
    requires Sane(v) && !v.inSlowStart && v.nextCCEvent > 1
    ensures var w := Step(v, e);
      && !w.inSlowStart && w.cwnd == v.cwnd
      && w.nextCCEvent == (if e.Sendme? then v.nextCCEvent - 1 else v.nextCCEvent)
  {
    match e
    case CellSent =>
    case Sendme(rtt, blocked, broken) =>
      SendmeShape(v.(blocked := blocked), rtt, broken);
      QuietSendme(v.(blocked := blocked), rtt, broken);
  }

  /** In congestion avoidance the window holds still between events: it can change only at
      the SENDME that brings the counter to zero. */
  lemma {:induction false} WindowHolds(v: Vegas, es: seq<Event>)
    requires Sane(v) && !v.inSlowStart && SendmesIn(es) < v.nextCCEvent
    ensures Run(v, es).cwnd == v.cwnd
    ensures Run(v, es).nextCCEvent == v.nextCCEvent - SendmesIn(es)
    decreases |es|
  {
    if es != [] {
      StepKeepsSane(v, es[0]);
      if es[0].Sendme? {
        AvoidanceStep(v, es[0]);
      }
      WindowHolds(Step(v, es[0]), es[1..]);
    }
  }

  /** This SENDME updates the window in congestion avoidance. */
  predicate Updates(v: Vegas, e: Event)
    requires Sane(v)
  {
    e.Sendme? && !v.inSlowStart && v.nextCCEvent <= 1 && Usable(v.(blocked := e.blocked), e.rtt, e.broken)
  }

  /** This SENDME starts a new window's worth of SENDMEs. */
  predicate Restarts(v: Vegas, e: Event)
    requires Sane(v)
  {
    e.Sendme? && v.nextCwndEvent <= 1 && Usable(v.(blocked := e.blocked), e.rtt, e.broken)
  }

  predicate NoUpdate(v: Vegas, es: seq<Event>)
    requires Sane(v)
    decreases |es|
  {
    es != [] ==> !Updates(v, es[0]) && (StepKeepsSane(v, es[0]); NoUpdate(Step(v, es[0]), es[1..]))
  }

  predicate NoRestart(v: Vegas, es: seq<Event>)
    requires Sane(v)
    decreases |es|
  {
    es != [] ==> !Restarts(v, es[0]) && (StepKeepsSane(v, es[0]); NoRestart(Step(v, es[0]), es[1..]))
  }

  lemma {:induction false} UpdateCountdown(v: Vegas, es: seq<Event>)
    requires Counting(v) && !v.inSlowStart && NoUpdate(v, es)
    ensures var w := Run(v, es);
      Counting(w) && !w.inSlowStart && w.nextCCEvent == Max(0, v.nextCCEvent - SendmesIn(es)) && w.cwnd == v.cwnd
    decreases |es|
  {
    if es != [] {
      StepKeepsSane(v, es[0]);
      UpdateCountdownStep(v, es[0]);
      UpdateCountdown(Step(v, es[0]), es[1..]);
    }
  }

  lemma UpdateCountdownStep(v: Vegas, e: Event)
    requires Counting(v) && !v.inSlowStart && !Updates(v, e)
    ensures var w := Step(v, e);
      && Counting(w) && !w.inSlowStart && w.cwnd == v.cwnd
      && w.nextCCEvent == Max(0, v.nextCCEvent - (if e.Sendme? then 1 else 0))
  {
    if e.Sendme? {
      var b := v.(blocked := e.blocked);
      CountersAfter(b, e.rtt, e.broken);
      if v.nextCCEvent > 1 {
        AvoidanceStep(v, e);
      } else {
        SendmeShape(b, e.rtt, e.broken);
      }
    }
  }

  /** After an update that leaves a window c, the next comes with the first usable SENDME from
      number k on, where k is c over cwndIncRate * sendme_inc rounded to the nearest integer;
      until then the window does not move. */
  lemma NextUpdate(u: Vegas, e: Event, es: seq<Event>, f: Event)
    requires Counting(u) && Updates(u, e) && f.Sendme?
    requires Sane(Step(u, e)) && NoUpdate(Step(u, e), es)
    ensures var v := Step(u, e);
      && !v.inSlowStart && Nearest(v.nextCCEvent, v.cwnd, RateDen(v))
      && Sane(Run(v, es)) && Run(v, es).cwnd == v.cwnd
      && (Updates(Run(v, es), f) <==>
            && Usable(Run(v, es).(blocked := f.blocked), f.rtt, f.broken)
            && SendmesIn(es) + 1 >= v.nextCCEvent)
  {
    var b := u.(blocked := e.blocked);
    CountersAfter(b, e.rtt, e.broken);
    StepKeepsSane(u, e);
    UpdateCountdown(Step(u, e), es);
  }

  lemma {:induction false} RestartCountdown(v: Vegas, es: seq<Event>)
    requires Counting(v) && NoRestart(v, es)
    ensures Counting(Run(v, es)) && Run(v, es).nextCwndEvent == Max(0, v.nextCwndEvent - SendmesIn(es))
    decreases |es|
  {
    if es != [] {
      StepKeepsSane(v, es[0]);
      RestartCountdownStep(v, es[0]);
      RestartCountdown(Step(v, es[0]), es[1..]);
    }
  }

  lemma RestartCountdownStep(v: Vegas, e: Event)
    requires Counting(v) && !Restarts(v, e)
    ensures Counting(Step(v, e))
    ensures Step(v, e).nextCwndEvent == Max(0, v.nextCwndEvent - (if e.Sendme? then 1 else 0))
  {
    if e.Sendme? {
      CountersAfter(v.(blocked := e.blocked), e.rtt, e.broken);
    }
  }

  /** In both phases: after a window's worth of SENDMEs starts at a window c, the next starts
      with the first usable SENDME from number k on, where k is c over sendme_inc rounded to
      the nearest integer. */
  lemma NextRestart(u: Vegas, e: Event, es: seq<Event>, f: Event)
    requires Counting(u) && Restarts(u, e) && f.Sendme?
    requires Sane(Step(u, e)) && NoRestart(Step(u, e), es)
    ensures var v := Step(u, e);
      && Nearest(v.nextCwndEvent, v.cwnd, v.sendmeInc)
      && Sane(Run(v, es))
      && (Restarts(Run(v, es), f) <==>
            && Usable(Run(v, es).(blocked := f.blocked), f.rtt, f.broken)
            && SendmesIn(es) + 1 >= v.nextCwndEvent)
  {
    CountersAfter(u.(blocked := e.blocked), e.rtt, e.broken);
    RestartCountdown(Step(u, e), es);
  }

  lemma {:induction false} RunKeepsCounting(v: Vegas, es: seq<Event>)
    requires Counting(v)
    ensures Counting(Run(v, es))
    decreases |es|
  {
    if es != [] {
      if es[0].Sendme? {
        CountersAfter(v.(blocked := es[0].blocked), es[0].rtt, es[0].broken);
      }
      RunKeepsCounting(Step(v, es[0]), es[1..]);
    }
  }

  /** So it is in every run of a new circuit: neither counter ever falls below zero. */
  lemma CountsFromStart(p: CCParams, inc: int, es: seq<Event>)
    requires InRange(p) && 1 <= inc <= 250
    ensures Counting(Run(NewVegas(p, inc), es))
  {
    NewIsSane(p, inc);
    RunKeepsCounting(NewVegas(p, inc), es);
  }

  // ---------------------------------------------------------------- no growth without alpha

  /** With an alpha of zero no event of congestion avoidance takes the window above where it
      was, except up to cwndMin. */
  lemma AlphaZeroStep(v: Vegas, e: Event)
    requires Sane(v) && !v.inSlowStart && v.params.alpha == 0
    ensures Step(v, e).cwnd <= Max(v.cwnd, v.params.cwndMin)
  {
    if e.Sendme? {
      var b := v.(blocked := e.blocked);
      SendmeShape(b, e.rtt, e.broken);
      AlphaZeroAdjust(Ready(b, e.rtt, e.broken));
    }
  }

  lemma AlphaZeroAdjust(r: Vegas)
    requires Sane(r) && !r.inSlowStart && r.params.alpha == 0
    ensures Adjust(r).cwnd <= Max(r.cwnd, r.params.cwndMin)
  {
  }

  lemma {:induction false} AlphaZeroNeverGrows(v: Vegas, es: seq<Event>)
    requires Sane(v) && !v.inSlowStart && v.params.alpha == 0
    ensures Run(v, es).cwnd <= Max(v.cwnd, v.params.cwndMin)
    decreases |es|
  {
    if es != [] {
      StepKeepsSane(v, es[0]);
      AlphaZeroStep(v, es[0]);
      AlphaZeroNeverGrows(Step(v, es[0]), es[1..]);
    }
  }
}
