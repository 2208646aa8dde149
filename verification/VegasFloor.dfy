/** The window of TOR_VEGAS against the SENDME increment: for which parameters it can fall
    below it, and what round trips bring that about. */
module VegasFloor {
  import opened Arith
  import opened CCParams
  import opened VegasSpec
  import opened VegasWindow
  import opened VegasAvoidance
  import opened VegasSlowStart
  import opened SendmeSpec

  // ---------------------------------------------------------------- the condition

  function InitialWindow(p: CCParams, inc: int): int {
    Max(p.cwndInit, inc)
  }

  /** The first usable SENDME can leave slow start on: the initial window is below ssMax, and
      one increment in flight does not make it full, or a full window of that size stays. */
  predicate FirstStays(p: CCParams, inc: int) {
    var c := InitialWindow(p, inc);
    c < p.ssMax && (!FullWithOne(p, inc, c) || Stays(p, inc, c))
  }

  /** The window can fall below sendme_inc. */
  predicate CanStarve(p: CCParams, inc: int) {
    p.cwndMin < inc || (0 < p.gamma < inc && FirstStays(p, inc))
  }

  // ---------------------------------------------------------------- when it cannot

  /** With a gamma below sendme_inc slow start does not outlive its first usable SENDME. */
  predicate Floored(v: Vegas) {
    && Sane(v)
    && !CanStarve(v.params, v.sendmeInc)
    && v.cwnd >= v.sendmeInc
    && v.params.cwndInit >= v.sendmeInc
    && (v.inSlowStart && v.params.gamma < v.sendmeInc ==> v.minRTT == 0 && v.cwnd == v.params.cwndInit)
  }

  lemma NewIsFloored(p: CCParams, inc: int)
    requires InRange(p) && 1 <= inc <= 250 && !CanStarve(p, inc)
    ensures Floored(NewVegas(p, inc))
  {
    NewIsSane(p, inc);
    SameTop(p, NewVegas(p, inc).params, inc, InitialWindow(p, inc));
  }

  lemma AdjustKeepsFloor(r: Vegas)
    requires Sane(r) && r.cwnd >= r.sendmeInc && r.params.cwndMin >= r.sendmeInc
    requires r.inSlowStart ==> r.bdp + r.params.gamma >= r.sendmeInc
    ensures Adjust(r).cwnd >= r.sendmeInc
  {
    IncrementNonnegative(r);
  }

  /** While there is no minimum yet the product is the whole window, so there is no queue. */
  lemma FirstEstimate(v: Vegas, rtt: int, broken: bool)
    requires Sane(v) && v.minRTT == 0
    ensures var r := Ready(v, rtt, broken);
      && (Usable(v, rtt, broken) ==> r.bdp == v.cwnd)
      && (!Usable(v, rtt, broken) ==> Estimated(v, rtt, broken).minRTT == 0)
  {
    ReadyShape(v, rtt, broken);
    var c := Counted(v);
    if Accepted(c, rtt, broken) {
      EstimateLaws(c, rtt, broken);
      var ewma := NextEwma(c, rtt);
      assert NextMin(c, ewma) == ewma;
      if ewma > 0 {
        DivUnique(v.cwnd * ewma, ewma, v.cwnd, 0);
      }
    }
  }

  /** With a gamma below sendme_inc the first usable SENDME ends slow start. */
  lemma FirstUsableExits(r: Vegas)
    requires Sane(r) && r.inSlowStart && !CanStarve(r.params, r.sendmeInc) && r.params.gamma < r.sendmeInc
    requires r.cwnd == r.params.cwndInit >= r.sendmeInc && r.bdp == r.cwnd && r.inflight >= r.sendmeInc
    requires r.cwndFull || !BecameFull(r)
    ensures !Adjust(r).inSlowStart
  {
    AdjustSlow(r);
    if Stays(r.params, r.sendmeInc, r.cwnd) {
      StayingGrows(r.params, r.sendmeInc, r.cwnd);
    }
  }

  /** Every SENDME for sendme_inc cells in flight keeps the window at or above it. */
  lemma SendmeKeepsFloor(v: Vegas, rtt: int, broken: bool)
    requires Floored(v) && v.inflight >= v.sendmeInc
    ensures Floored(ProcessSendme(v, rtt, broken).0)
  {
    SendmeShape(v, rtt, broken);
    StepKeepsSane(v, Sendme(rtt, v.blocked, broken));
    assert v.(blocked := v.blocked) == v;
    ReadyShape(v, rtt, broken);
    var r := Ready(v, rtt, broken);
    if v.minRTT == 0 {
      FirstEstimate(v, rtt, broken);
    }
    if Usable(v, rtt, broken) {
      AdjustKeepsFloor(r);
      AdjustBounds(r);
      if v.inSlowStart && v.params.gamma < v.sendmeInc {
        FirstUsableExits(r);
      }
    }
  }

  // ---------------------------------------------------------------- round trips

  /** sendme_inc cells sent and acknowledged. */
  function Round(v: Vegas, m: Sample): Vegas
    requires Sane(v)
  {
    ProcessSendme(v.(inflight := v.sendmeInc, blocked := m.blocked), m.rtt, m.broken).0
  }

  lemma RoundKeepsSane(v: Vegas, m: Sample)
    requires Sane(v)
    ensures Sane(Round(v, m)) && Round(v, m).params == v.params && Round(v, m).sendmeInc == v.sendmeInc
  {
    StepKeepsSane(v.(inflight := v.sendmeInc), Sendme(m.rtt, m.blocked, m.broken));
  }

  function Rounds(v: Vegas, ms: seq<Sample>): Vegas
    requires Sane(v)
    decreases |ms|
  {
    if ms == [] then v
    else
      RoundKeepsSane(v, ms[0]);
      Rounds(Round(v, ms[0]), ms[1..])
  }

  /** The window has room for each of the round trips when its turn comes. */
  predicate Roomy(v: Vegas, ms: seq<Sample>)
    requires Sane(v)
    decreases |ms|
  {
    ms != [] ==>
      && v.cwnd >= v.sendmeInc
      && (RoundKeepsSane(v, ms[0]); Roomy(Round(v, ms[0]), ms[1..]))
  }

  lemma {:induction false} RoundsConcat(v: Vegas, ms: seq<Sample>, ns: seq<Sample>)
    requires Sane(v)
    ensures Sane(Rounds(v, ms))
    ensures Rounds(v, ms + ns) == Rounds(Rounds(v, ms), ns)
    ensures Roomy(v, ms) && Roomy(Rounds(v, ms), ns) ==> Roomy(v, ms + ns)
    decreases |ms|
  {
    if ms == [] {
      assert ms + ns == ns;
    } else {
      assert (ms + ns)[1..] == ms[1..] + ns;
      RoundKeepsSane(v, ms[0]);
      RoundsConcat(Round(v, ms[0]), ms[1..], ns);
    }
  }

  lemma OneRound(v: Vegas, m: Sample)
    requires Sane(v)
    ensures Rounds(v, [m]) == Round(v, m)
    ensures Roomy(v, [m]) <==> v.cwnd >= v.sendmeInc
  {
    RoundKeepsSane(v, m);
    assert [m][1..] == [];
    assert Rounds(v, [m]) == Rounds(Round(v, m), []);
    assert Roomy(Round(v, m), []);
  }

  lemma RoundBlocked(v: Vegas, m: Sample)
    requires Sane(v)
    ensures Round(v, m).blocked == m.blocked
  {
    var b := v.(inflight := v.sendmeInc, blocked := m.blocked);
    ReadyShape(b, m.rtt, m.broken);
    AdjustFrame(Ready(b, m.rtt, m.broken));
    RearmFrame(Adjust(Ready(b, m.rtt, m.broken)));
  }

  // ---------------------------------------------------------------- the first round trip

  /** An RTT that makes the first average 2h. */
  function FirstRtt(p: CCParams, h: int): int {
    (Max(2, p.ewmaSS) + 1) * h
  }

  lemma FreshEstimate(v: Vegas, h: int)
    requires Sane(v) && v.inSlowStart && v.minRTT == 0 && v.ewma == 0 && h >= 1
    ensures Usable(v, FirstRtt(v.params, h), false)
    ensures var r := Estimated(v, FirstRtt(v.params, h), false);
      r.minRTT == 2 * h && r.ewma == 2 * h && r.bdp == v.cwnd
  {
    var c, n, rtt := Counted(v), Max(2, v.params.ewmaSS), FirstRtt(v.params, h);
    assert NEWMACount(c) == n;
    MulLt(0, n + 1, h);
    DivUnique(rtt * 2 + 0 * (n - 1), n + 1, 2 * h, 0);
    assert NextEwma(c, rtt) == 2 * h;
    DivUnique(v.cwnd * (2 * h), 2 * h, v.cwnd, 0);
  }

  /** A first round trip on a blocked channel ends slow start at bdp + gamma. */
  lemma FirstBlocked(p: CCParams, inc: int, h: int)
    requires InRange(p) && 1 <= inc <= 250 && h >= 1
    ensures Sane(NewVegas(p, inc))
    ensures var v := NewVegas(p, inc);
      var w := Round(v, Sample(FirstRtt(p, h), true, false));
      && AtRest(w, 2 * h) && w.params == v.params && w.sendmeInc == inc
      && w.cwnd == Min(Min(v.cwnd + p.gamma, p.ssMax), p.cwndMax) && w.cwnd >= inc
  {
    var v := NewVegas(p, inc);
    NewIsSane(p, inc);
    var b, rtt := v.(inflight := inc, blocked := true), FirstRtt(p, h);
    FreshEstimate(b, h);
    ReadyShape(b, rtt, false);
    SendmeShape(b, rtt, false);
    CounterNonnegative(b, rtt, false);
    StepKeepsSane(b, Sendme(rtt, true, false));
    assert b.(blocked := true) == b;
  }

  lemma CounterNonnegative(v: Vegas, rtt: int, broken: bool)
    requires Sane(v) && v.nextCCEvent >= 0
    ensures ProcessSendme(v, rtt, broken).0.nextCCEvent >= 0
  {
    ReadyShape(v, rtt, broken);
    var r := Ready(v, rtt, broken);
    AdjustFrame(r);
    AdjustBounds(r);
    RearmNonnegative(Adjust(r));
    assert ProcessSendme(v, rtt, broken).0
        == AckInflight(if Usable(v, rtt, broken) then Rearm(Adjust(r)) else Estimated(v, rtt, broken));
  }

  lemma RearmNonnegative(v: Vegas)
    requires v.nextCCEvent >= 0 && v.cwnd >= 1
    ensures Rearm(v).nextCCEvent >= 0
  {
    var den := Max(1, v.params.cwndIncRate * v.sendmeInc);
    DivMod(v.cwnd + den / 2, den);
    MulLt((v.cwnd + den / 2) / den, 0, den);
  }

  // ---------------------------------------------------------------- shrinking in congestion avoidance

  /** Congestion avoidance with the RTT at rest. */
  predicate AtRest(v: Vegas, rtt: int) {
    Sane(v) && !v.inSlowStart && v.minRTT == rtt == v.ewma && rtt > 0 && v.nextCCEvent >= 0 && v.cwnd <= v.params.cwndMax
  }

  lemma RestEstimate(v: Vegas, rtt: int)
    requires AtRest(v, rtt)
    ensures Usable(v, rtt, false)
    ensures var r := Estimated(v, rtt, false);
      r.minRTT == rtt == r.ewma && r.bdp == v.cwnd
  {
    var c := Counted(v);
    EwmaFixpoint(rtt, NEWMACount(c));
    assert NextEwma(c, rtt) == rtt;
    MixBetween(rtt, rtt, v.params.rttResetPct);
    assert NextMin(c, rtt) == rtt;
    DivUnique(v.cwnd * rtt, rtt, v.cwnd, 0);
  }

  /** A round trip on a blocked channel above the floor: the window shrinks when the counter
      runs out, and only then. */
  lemma BlockedRound(v: Vegas, rtt: int)
    requires AtRest(v, rtt) && v.cwnd > v.params.cwndMin
    ensures var w := Round(v, Sample(rtt, true, false));
      && AtRest(w, rtt) && w.params == v.params && w.sendmeInc == v.sendmeInc
      && (if v.nextCCEvent <= 1 then w.cwnd == Max(v.cwnd - v.params.cwndInc, v.params.cwndMin)
          else w.cwnd == v.cwnd && w.nextCCEvent == v.nextCCEvent - 1)
  {
    var b := v.(inflight := v.sendmeInc, blocked := true);
    RestEstimate(b, rtt);
    ReadyShape(b, rtt, false);
    SendmeShape(b, rtt, false);
    CounterNonnegative(b, rtt, false);
    StepKeepsSane(b, Sendme(rtt, true, false));
    assert b.(blocked := true) == b;
    if v.nextCCEvent > 1 {
      QuietSendme(b, rtt, false);
    }
  }

  /** So round trips on a blocked channel bring the window down to any target above the floor. */
  lemma {:induction false} Shrink(v: Vegas, rtt: int, target: int) returns (ms: seq<Sample>)
    requires AtRest(v, rtt) && v.params.cwndMin <= target && target >= v.sendmeInc - 1
    ensures Roomy(v, ms)
    ensures var w := Rounds(v, ms);
      && AtRest(w, rtt) && w.params == v.params && w.sendmeInc == v.sendmeInc
      && w.cwnd <= target && w.cwnd >= Min(v.cwnd, v.params.cwndMin)
    decreases v.cwnd, v.nextCCEvent
  {
    if v.cwnd <= target {
      ms := [];
    } else {
      var m := Sample(rtt, true, false);
      BlockedRound(v, rtt);
      OneRound(v, m);
      ms := Shrink(Round(v, m), rtt, target);
      RoundsConcat(v, [m], ms);
      ms := [m] + ms;
    }
  }

  // ---------------------------------------------------------------- collapsing out of slow start

  /** A first round trip on an open channel leaves slow start on. */
  lemma FirstOpen(p: CCParams, inc: int)
    requires InRange(p) && 1 <= inc <= 250 && p.gamma > 0 && FirstStays(p, inc)
    ensures Sane(NewVegas(p, inc))
    ensures var v := NewVegas(p, inc);
      var w := Round(v, Sample(FirstRtt(p, 1), false, false));
      && Sane(w) && w.inSlowStart && w.minRTT == 2 == w.ewma && w.params == v.params && w.sendmeInc == inc
      && w.cwnd >= inc
  {
    var v := NewVegas(p, inc);
    NewIsSane(p, inc);
    var b, rtt := v.(inflight := inc), FirstRtt(p, 1);
    FreshEstimate(b, 1);
    ReadyShape(b, rtt, false);
    SendmeShape(b, rtt, false);
    StepKeepsSane(b, Sendme(rtt, false, false));
    assert b.(blocked := false) == b;
    SameTop(p, v.params, inc, v.cwnd);
    FirstAdjust(Estimated(b, rtt, false));
  }

  lemma FirstAdjust(e: Vegas)
    requires Sane(e) && e.inSlowStart && !e.blocked && !e.cwndFull && e.params.gamma > 0
    requires FirstStays(e.params, e.sendmeInc) && e.cwnd == e.params.cwndInit >= e.sendmeInc
    requires e.bdp == e.cwnd && e.inflight == e.sendmeInc
    ensures var w := Adjust(MarkFull(e));
      w.inSlowStart && w.cwnd >= e.sendmeInc
  {
    var r := MarkFull(e);
    assert r.cwndFull <==> BecameFull(e);
    IncrementNonnegative(r);
    AdjustSlow(r);
  }

  /** A second, slow enough and on a blocked channel, leaves a window of gamma. */
  lemma SecondSlow(v: Vegas)
    requires Sane(v) && v.inSlowStart && v.minRTT == 2 == v.ewma && 0 < v.params.gamma < v.sendmeInc
    ensures var rtt := (Max(2, v.params.ewmaSS) + 1) * (v.cwnd + 1);
      Round(v, Sample(rtt, true, false)).cwnd == v.params.gamma
  {
    var n := Max(2, v.params.ewmaSS);
    var rtt := (n + 1) * (v.cwnd + 1);
    var b := v.(inflight := v.sendmeInc, blocked := true);
    SlowEstimate(b, n, rtt);
    ReadyShape(b, rtt, false);
    SendmeShape(b, rtt, false);
  }

  lemma SlowEstimate(v: Vegas, n: int, rtt: int)
    requires Sane(v) && v.inSlowStart && v.minRTT == 2 == v.ewma
    requires n == Max(2, v.params.ewmaSS) && rtt == (n + 1) * (v.cwnd + 1)
    ensures Usable(v, rtt, false) && Estimated(v, rtt, false).bdp == 0
  {
    var c := Counted(v);
    assert NEWMACount(c) == n;
    SlowAverage(n, v.cwnd + 1);
    var ewma := NextEwma(c, rtt);
    assert ewma >= 2 * v.cwnd + 2;
    assert NextMin(c, ewma) == 2;
    DivUnique(v.cwnd * 2, ewma, 0, v.cwnd * 2);
  }

  lemma SlowAverage(n: int, c: int)
    requires n >= 2 && c >= 1
    ensures (n + 1) * c > 0
    ensures NCountEWMA((n + 1) * c, 2, n) >= 2 * c
  {
    MulLt(0, n + 1, c);
    var x := ((n + 1) * c) * 2 + 2 * (n - 1);
    assert (2 * c) * (n + 1) == ((n + 1) * c) * 2;
    assert (2 * c + 2) * (n + 1) == (2 * c) * (n + 1) + 2 * (n + 1);
    DivBetween(x, n + 1, 2 * c, 2 * c + 2);
  }

  /** Whenever the condition holds there are round trips, each with room in the window, that
      take it below sendme_inc. */
  lemma Starve(p: CCParams, inc: int) returns (ms: seq<Sample>)
    requires InRange(p) && 1 <= inc <= 250 && CanStarve(p, inc)
    ensures Sane(NewVegas(p, inc)) && Roomy(NewVegas(p, inc), ms)
    ensures Rounds(NewVegas(p, inc), ms).cwnd < inc
  {
    var v := NewVegas(p, inc);
    NewIsSane(p, inc);
    if p.cwndMin < inc {
      var m := Sample(FirstRtt(p, 1), true, false);
      FirstBlocked(p, inc, 1);
      OneRound(v, m);
      ms := Shrink(Round(v, m), 2, inc - 1);
      RoundsConcat(v, [m], ms);
      ms := [m] + ms;
    } else {
      var m := Sample(FirstRtt(p, 1), false, false);
      FirstOpen(p, inc);
      OneRound(v, m);
      var w := Round(v, m);
      var n := Sample((Max(2, w.params.ewmaSS) + 1) * (w.cwnd + 1), true, false);
      SecondSlow(w);
      OneRound(w, n);
      RoundsConcat(v, [m], [n]);
      ms := [m] + [n];
    }
  }

  // ---------------------------------------------------------------- the defaults

  /** The default parameters starve exactly for an increment above 124. */
  lemma DefaultsStarveIff(inc: int)
    ensures CanStarve(DefaultExit(), inc) <==> inc > 124
    ensures CanStarve(DefaultOnion(), inc) <==> inc > 124
  {
  }

  /** With the default parameters and sendme_inc 250: a full first window acknowledged
      after 3 ms doubles the window to 500 ... */
  lemma FirstSlowSendme()
    ensures var w := Step(NewVegas(DefaultExit(), 250).(inflight := 250), Sendme(3000, false, false));
      && w.cwnd == 500 && w.inflight == 0 && w.inSlowStart && w.minRTT == 2000 == w.ewma && w.maxRTT == 3000
      && w.params == DefaultExit().(cwndInit := 250) && w.sendmeInc == 250
  {
    var v := NewVegas(DefaultExit(), 250).(inflight := 250);
    assert v.(blocked := false) == v;
    SendmeShape(v, 3000, false);
    var r := Ready(v, 3000, false);
    assert r.ewma == 2000 && r.minRTT == 2000 && r.bdp == 250;
    assert r.cwndFull;
    assert SSInc(r) == 250;
    assert SendmePerCwnd(500, 250) == 2;
  }

  /** ... and the next, after 30 ms, leaves it at 234, below sendme_inc. */
  lemma SecondSlowSendme(v: Vegas)
    requires Sane(v) && v.params == DefaultExit().(cwndInit := 250) && v.sendmeInc == 250
    requires v.cwnd == 500 && v.inflight == 250 && v.inSlowStart && v.minRTT == 2000 == v.ewma
    ensures var w := Step(v, Sendme(30000, false, false));
      w.cwnd == 234 && w.inflight == 0 && w.sendmeInc == 250
  {
    var b := v.(blocked := false);
    SendmeShape(b, 30000, false);
    var r := Ready(b, 30000, false);
    assert r.ewma == 20666 && r.minRTT == 2000 && r.bdp == 48;
    assert QueueUse(r) == 452;
  }

  // ---------------------------------------------------------------- a minimum above the average

  /** At the window floor of a default circuit, a fall of the RTT from 1000 to 100 microseconds
      leaves the minimum at 1000 over an average of 400, and a bandwidth-delay product of 310
      over a window of 124. */
  lemma ResetRound(v: Vegas)
    requires AtRest(v, 1000) && v.params == DefaultExit() && v.sendmeInc == 31 && v.cwnd == 124
    ensures var w := Round(v, Sample(100, true, false));
      w.minRTT == 1000 && w.ewma == 400 && w.bdp == 310 && w.cwnd == 124 && !w.inSlowStart
  {
    var b := v.(inflight := 31, blocked := true);
    var c := Counted(b);
    assert CwndUpdateRate(124, 31, 31, false) == 0;
    assert NEWMACount(c) == 2;
    assert NCountEWMA(100, 1000, 2) == 400;
    assert PercentMaxMix(400, 1000, 100) == 1000;
    assert Estimated(b, 100, false).bdp == 310;
    SendmeShape(b, 100, false);
    AdjustBounds(Ready(b, 100, false));
  }

  /** Round trips from the start that lead there. */
  lemma ResetOvershoots() returns (ms: seq<Sample>)
    ensures Sane(NewVegas(DefaultExit(), 31)) && Roomy(NewVegas(DefaultExit(), 31), ms)
    ensures var w := Rounds(NewVegas(DefaultExit(), 31), ms);
      w.minRTT == 1000 && w.ewma == 400 && w.bdp == 310 && w.cwnd == 124 == w.params.cwndMin && !w.inSlowStart
  {
    var p := DefaultExit();
    var v := NewVegas(p, 31);
    var first, last := Sample(FirstRtt(p, 500), true, false), Sample(100, true, false);
    FirstBlocked(p, 31, 500);
    OneRound(v, first);
    var shrink := Shrink(Round(v, first), 1000, 124);
    RoundsConcat(v, [first], shrink);
    var w := Rounds(v, [first] + shrink);
    ResetRound(w);
    OneRound(w, last);
    RoundsConcat(v, [first] + shrink, [last]);
    ms := [first] + shrink + [last];
  }
}
