/** The vegasState object, updated in place, and the process-wide broken-clock flag it
    consults. Each method is proved against the functions of VegasSpec. */
module VegasState {
  import opened CCParams
  import opened VegasSpec

  class MonotimeClock {
    var broken: bool

    constructor ()
      ensures !broken
    {
      broken := false;
    }
  }

  class VegasState {
    const params: CCParams
    const sendmeInc: int
    var cwnd: int
    var inflight: int
    var inSlowStart: bool
    var cwndFull: bool
    var nextCCEvent: int
    var nextCwndEvent: int
    var minRTT: int
    var maxRTT: int
    var ewma: int
    var bdp: int
    var blocked: bool

    ghost function View(): Vegas
      reads this
    {
      Vegas(params, sendmeInc, cwnd, inflight, inSlowStart, cwndFull, nextCCEvent, nextCwndEvent,
            minRTT, maxRTT, ewma, bdp, blocked)
    }

    constructor (p: CCParams, inc: int)
      ensures View() == NewVegas(p, inc)
    {
      var step := if inc < 1 then SENDME_INC_DEFAULT else inc;
      var init := if p.cwndInit < step then step else p.cwndInit;
      params := p.(cwndInit := init);
      sendmeInc := step;
      cwnd := init;
      inflight := 0;
      inSlowStart, cwndFull := true, false;
      nextCCEvent, nextCwndEvent := 1, 0;
      minRTT, maxRTT, ewma, bdp := 0, 0, 0, 0;
      blocked := false;
    }

    /** timeDeltaStalledOrJumped */
    method StalledOrJumped(delta: int, clock: MonotimeClock) returns (stalled: bool)
      modifies clock
      ensures (stalled, clock.broken) == VegasSpec.StalledOrJumped(inSlowStart, ewma, delta, old(clock.broken))
    {
      if delta <= 0 {
        clock.broken := true;
        return true;
      }
      if inSlowStart || ewma == 0 {
        return false;
      }
      if delta > ewma * DELTA_RATIO_MAX {
        return true;
      }
      if delta * DELTA_RATIO_MAX < ewma {
        return clock.broken;
      }
      clock.broken := false;
      return false;
    }

    method UpdateEstimates(rtt: int, clock: MonotimeClock) returns (usable: bool)
      requires cwnd >= 0 && minRTT >= 0
      modifies this`ewma, this`maxRTT, this`minRTT, this`bdp, clock
      ensures (View(), usable, clock.broken) == VegasSpec.UpdateEstimates(old(View()), rtt, old(clock.broken))
    {
      var stalled := StalledOrJumped(rtt, clock);
      if stalled {
        return false;
      }
      var n := EwmaCount();
      ewma := NCountEWMA(rtt, ewma, n);
      if rtt > maxRTT {
        maxRTT := rtt;
      }
      if minRTT == 0 {
        minRTT := ewma;
      } else if cwnd == params.cwndMin && !inSlowStart {
        minRTT := PercentMaxMix(ewma, minRTT, params.rttResetPct);
      } else if ewma < minRTT {
        minRTT := ewma;
      }
      if ewma == 0 {
        bdp := cwnd;
        return blocked;
      }
      bdp := cwnd * minRTT / ewma;
      return true;
    }

    /** nEWMACount */
    method EwmaCount() returns (n: int)
      ensures n == NEWMACount(View())
    {
      if inSlowStart {
        n := params.ewmaSS;
      } else {
        n := CwndUpdateRate(cwnd, params.cwndIncRate, sendmeInc, false) * params.ewmaCwndPct / 100;
        if n > params.ewmaMax {
          n := params.ewmaMax;
        }
      }
      if n < 2 {
        n := 2;
      }
    }

    method ClampCwnd()
      modifies this`cwnd
      ensures View() == Clamp(old(View()))
    {
      if cwnd > params.cwndMax {
        cwnd := params.cwndMax;
      }
      if cwnd < 1 {
        cwnd := 1;
      }
    }

    /** rfc3742SSInc */
    method SlowStartIncrement() returns (inc: int)
      ensures inc == SSInc(View())
    {
      if cwnd <= 0 {
        return 1;
      }
      if cwnd <= params.ssCap {
        return (params.cwndIncPctSS * sendmeInc + 50) / 100;
      }
      inc := (sendmeInc * params.ssCap + cwnd) / (2 * cwnd);
      if inc < 1 {
        inc := 1;
      }
    }

    method SlowStart(queueUse: int)
      requires inSlowStart
      modifies this`cwnd, this`inSlowStart
      ensures View() == VegasSpec.SlowStart(old(View()), queueUse)
    {
      if queueUse < params.gamma && !blocked {
        if cwndFull {
          var inc := SlowStartIncrement();
          cwnd := cwnd + inc;
          if inc * SendmePerCwnd(cwnd, sendmeInc) <= params.cwndInc * params.cwndIncRate {
            inSlowStart := false;
          }
        }
      } else {
        cwnd := bdp + params.gamma;
        inSlowStart := false;
      }
      if cwnd >= params.ssMax {
        cwnd := params.ssMax;
        inSlowStart := false;
      }
      ClampCwnd();
    }

    method CongestionAvoidance(queueUse: int)
      modifies this`cwnd
      ensures View() == VegasSpec.CongestionAvoidance(old(View()), queueUse)
    {
      if queueUse > params.delta {
        cwnd := bdp + params.delta - params.cwndInc;
      } else if queueUse > params.beta || blocked {
        cwnd := cwnd - params.cwndInc;
      } else if cwndFull && queueUse < params.alpha {
        cwnd := cwnd + params.cwndInc;
      }
      if cwnd < params.cwndMin {
        cwnd := params.cwndMin;
      }
      ClampCwnd();
    }

    method AckInflight()
      modifies this`inflight
      ensures View() == VegasSpec.AckInflight(old(View()))
    {
      inflight := inflight - sendmeInc;
      if inflight < 0 {
        inflight := 0;
      }
    }

    /** The part of processSendme that restarts the event counters. */
    method RearmCounters()
      modifies this`nextCCEvent, this`nextCwndEvent, this`cwndFull
      ensures View() == Rearm(old(View()))
    {
      if nextCwndEvent == 0 {
        nextCwndEvent := SendmePerCwnd(cwnd, sendmeInc);
      }
      if nextCCEvent == 0 {
        nextCCEvent := CwndUpdateRate(cwnd, params.cwndIncRate, sendmeInc, inSlowStart);
      }
      var reset := if params.cwndFullPerCwnd == 1 then nextCwndEvent == SendmePerCwnd(cwnd, sendmeInc)
                   else nextCCEvent == CwndUpdateRate(cwnd, params.cwndIncRate, sendmeInc, inSlowStart);
      if reset {
        cwndFull := false;
      }
    }

    /** cwndBecameFull and cwndBecameNonfull */
    method UpdateFull()
      modifies this`cwndFull
      ensures View() == MarkFull(old(View()))
    {
      if inflight + params.cwndFullGap * sendmeInc >= cwnd {
        cwndFull := true;
      } else if 100 * inflight < params.cwndFullMinPct * cwnd {
        cwndFull := false;
      }
    }

    /** The part of processSendme between the estimates and the counters. */
    method AdjustWindow()
      modifies this`cwndFull, this`cwnd, this`inSlowStart
      ensures View() == Adjust(MarkFull(old(View())))
    {
      var queueUse := 0;
      if bdp <= cwnd {
        queueUse := cwnd - bdp;
      }
      UpdateFull();
      assert queueUse == QueueUse(View());
      if inSlowStart {
        SlowStart(queueUse);
      } else if nextCCEvent == 0 {
        CongestionAvoidance(queueUse);
      }
    }

    method ProcessSendme(rtt: int, clock: MonotimeClock)
      requires cwnd >= 0 && minRTT >= 0
      modifies this, clock
      ensures (View(), clock.broken) == VegasSpec.ProcessSendme(old(View()), rtt, old(clock.broken))
    {
      if nextCCEvent > 0 {
        nextCCEvent := nextCCEvent - 1;
      }
      if nextCwndEvent > 0 {
        nextCwndEvent := nextCwndEvent - 1;
      }
      var usable := UpdateEstimates(rtt, clock);
      if !usable {
        AckInflight();
        return;
      }
      AdjustWindow();
      RearmCounters();
      AckInflight();
    }
  }
}
