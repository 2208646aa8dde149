/** TOR_VEGAS congestion control, as functions on values. Every division in the source
    has non-negative operands in the states considered, where Go's truncation and
    Dafny's floor agree. */
module VegasSpec {
  import opened CCParams

  const DELTA_RATIO_MAX := 5000

  datatype Vegas = Vegas(
    params: CCParams,
    sendmeInc: int,
    cwnd: int,
    inflight: int,
    inSlowStart: bool,
    cwndFull: bool,
    nextCCEvent: int,
    nextCwndEvent: int,
    minRTT: int,
    maxRTT: int,
    ewma: int,
    bdp: int,
    blocked: bool)

  // ---------------------------------------------------------------- the algorithm

  function NewVegas(p: CCParams, sendmeInc: int): Vegas {
    var inc := if sendmeInc < 1 then SENDME_INC_DEFAULT else sendmeInc;
    var init := if p.cwndInit < inc then inc else p.cwndInit;
    Vegas(p.(cwndInit := init), inc, init, 0, true, false, 1, 0, 0, 0, 0, 0, false)
  }

  function PackageWindow(v: Vegas): (w: int)
    ensures w >= 0
    ensures w == 0 <==> v.inflight >= v.cwnd
  {
    if v.inflight >= v.cwnd then 0 else v.cwnd - v.inflight
  }

  function SendmePerCwnd(cwnd: int, sendmeInc: int): int {
    var inc := if sendmeInc < 1 then 1 else sendmeInc;
    (cwnd + inc / 2) / inc
  }

  function CwndUpdateRate(cwnd: int, incRate: int, sendmeInc: int, inSlowStart: bool): int {
    if inSlowStart then 1
    else
      var den := if incRate * sendmeInc < 1 then 1 else incRate * sendmeInc;
      (cwnd + den / 2) / den
  }

  function NCountEWMA(curr: int, prev: int, n: int): int {
    var n := if n < 1 then 1 else n;
    (curr * 2 + prev * (n - 1)) / (n + 1)
  }

  function PercentMaxMix(a: int, b: int, pctMax: int): int {
    var pct := if pctMax < 0 then 0 else if pctMax > 100 then 100 else pctMax;
    var hi, lo := if b > a then b else a, if b > a then a else b;
    (hi * pct + lo * (100 - pct)) / 100
  }

  /** timeDeltaStalledOrJumped, with the process-wide broken-clock flag before and after. */
  function StalledOrJumped(inSlowStart: bool, ewma: int, delta: int, broken: bool): (bool, bool) {
    if delta <= 0 then (true, true)
    else if inSlowStart || ewma == 0 then (false, broken)
    else if delta > ewma * DELTA_RATIO_MAX then (true, broken)
    else if delta * DELTA_RATIO_MAX < ewma then (broken, broken)
    else (false, false)
  }

  function NEWMACount(v: Vegas): (n: int)
    ensures n >= 2
  {
    var rate := CwndUpdateRate(v.cwnd, v.params.cwndIncRate, v.sendmeInc, false);
    var n :=
      if v.inSlowStart then v.params.ewmaSS
      else if rate * v.params.ewmaCwndPct / 100 > v.params.ewmaMax then v.params.ewmaMax
      else rate * v.params.ewmaCwndPct / 100;
    if n < 2 then 2 else n
  }

  /** The slow-start increment at a window of `cwnd`. */
  function IncrementAt(p: CCParams, sendmeInc: int, cwnd: int): int {
    if cwnd <= 0 then 1
    else if cwnd <= p.ssCap then (p.cwndIncPctSS * sendmeInc + 50) / 100
    else
      var inc := (sendmeInc * p.ssCap + cwnd) / (2 * cwnd);
      if inc < 1 then 1 else inc
  }

  function SSInc(v: Vegas): int {
    IncrementAt(v.params, v.sendmeInc, v.cwnd)
  }

  predicate BecameFull(v: Vegas) {
    v.inflight + v.params.cwndFullGap * v.sendmeInc >= v.cwnd
  }

  predicate BecameNonfull(v: Vegas) {
    100 * v.inflight < v.params.cwndFullMinPct * v.cwnd
  }

  predicate FullReset(v: Vegas) {
    if v.params.cwndFullPerCwnd == 1 then v.nextCwndEvent == SendmePerCwnd(v.cwnd, v.sendmeInc)
    else v.nextCCEvent == CwndUpdateRate(v.cwnd, v.params.cwndIncRate, v.sendmeInc, v.inSlowStart)
  }

  function AckInflight(v: Vegas): Vegas {
    v.(inflight := if v.inflight - v.sendmeInc < 0 then 0 else v.inflight - v.sendmeInc)
  }

  /** The EWMA this RTT would lead to. */
  function NextEwma(v: Vegas, rtt: int): int {
    NCountEWMA(rtt, v.ewma, NEWMACount(v))
  }

  /** Whether the minimum is re-mixed, because the window is at its floor. */
  predicate ResetsMin(v: Vegas) {
    v.minRTT != 0 && v.cwnd == v.params.cwndMin && !v.inSlowStart
  }

  function NextMin(v: Vegas, ewma: int): int {
    if v.minRTT == 0 then ewma
    else if ResetsMin(v) then PercentMaxMix(ewma, v.minRTT, v.params.rttResetPct)
    else if ewma < v.minRTT then ewma
    else v.minRTT
  }

  /** updateEstimates: the new state and whether the window may be updated from it. */
  function UpdateEstimates(v: Vegas, rtt: int, broken: bool): (Vegas, bool, bool)
    requires v.cwnd >= 0 && v.minRTT >= 0
  {
    var (stalled, broken') := StalledOrJumped(v.inSlowStart, v.ewma, rtt, broken);
    if stalled then (v, false, broken')
    else
      var ewma := NextEwma(v, rtt);
      var min := NextMin(v, ewma);
      var v1 := v.(ewma := ewma, maxRTT := if rtt > v.maxRTT then rtt else v.maxRTT, minRTT := min);
      if ewma == 0 then (v1.(bdp := v.cwnd), v.blocked, broken')
      else (v1.(bdp := v.cwnd * min / ewma), true, broken')
  }

  function Clamp(v: Vegas): Vegas {
    var c := if v.cwnd > v.params.cwndMax then v.params.cwndMax else v.cwnd;
    v.(cwnd := if c < 1 then 1 else c)
  }

  function SlowStart(v: Vegas, queueUse: int): Vegas {
    var v1 :=
      if queueUse < v.params.gamma && !v.blocked then
        if v.cwndFull then
          var inc := SSInc(v);
          var w := v.(cwnd := v.cwnd + inc);
          w.(inSlowStart := v.inSlowStart &&
               !(inc * SendmePerCwnd(w.cwnd, v.sendmeInc) <= v.params.cwndInc * v.params.cwndIncRate))
        else v
      else v.(cwnd := v.bdp + v.params.gamma, inSlowStart := false);
    Clamp(if v1.cwnd >= v.params.ssMax then v1.(cwnd := v.params.ssMax, inSlowStart := false) else v1)
  }

  function CongestionAvoidance(v: Vegas, queueUse: int): Vegas {
    var c :=
      if queueUse > v.params.delta then v.bdp + v.params.delta - v.params.cwndInc
      else if queueUse > v.params.beta || v.blocked then v.cwnd - v.params.cwndInc
      else if v.cwndFull && queueUse < v.params.alpha then v.cwnd + v.params.cwndInc
      else v.cwnd;
    Clamp(v.(cwnd := if c < v.params.cwndMin then v.params.cwndMin else c))
  }

  function CountDown(n: int): int {
    if n > 0 then n - 1 else n
  }

  function QueueUse(v: Vegas): int {
    if v.bdp <= v.cwnd then v.cwnd - v.bdp else 0
  }

  function MarkFull(v: Vegas): Vegas {
    if BecameFull(v) then v.(cwndFull := true)
    else if BecameNonfull(v) then v.(cwndFull := false)
    else v
  }

  /** The window update proper. */
  function Adjust(v: Vegas): Vegas {
    if v.inSlowStart then SlowStart(v, QueueUse(v))
    else if v.nextCCEvent == 0 then CongestionAvoidance(v, QueueUse(v))
    else v
  }

  /** Restarting the event counters. */
  function Rearm(v: Vegas): Vegas {
    var v1 := if v.nextCwndEvent == 0 then v.(nextCwndEvent := SendmePerCwnd(v.cwnd, v.sendmeInc)) else v;
    var v2 :=
      if v1.nextCCEvent == 0 then
        v1.(nextCCEvent := CwndUpdateRate(v1.cwnd, v1.params.cwndIncRate, v1.sendmeInc, v1.inSlowStart))
      else v1;
    if FullReset(v2) then v2.(cwndFull := false) else v2
  }

  function ProcessSendme(v: Vegas, rtt: int, broken: bool): (Vegas, bool)
    requires v.cwnd >= 0 && v.minRTT >= 0
  {
    var v0 := v.(nextCCEvent := CountDown(v.nextCCEvent), nextCwndEvent := CountDown(v.nextCwndEvent));
    var (v1, usable, broken') := UpdateEstimates(v0, rtt, broken);
    if !usable then (AckInflight(v1), broken')
    else (AckInflight(Rearm(Adjust(MarkFull(v1)))), broken')
  }

  // ---------------------------------------------------------------- runs

  /** A cell sent, or a SENDME with the measured RTT, the blocked-channel sample and the
      broken-clock flag as they are at that moment. */
  datatype Event = CellSent | Sendme(rtt: int, blocked: bool, broken: bool)

  function Step(v: Vegas, e: Event): Vegas
    requires v.cwnd >= 0 && v.minRTT >= 0
  {
    match e
    case CellSent => v.(inflight := v.inflight + 1)
    case Sendme(rtt, blocked, broken) => ProcessSendme(v.(blocked := blocked), rtt, broken).0
  }

  /** What holds of every state: parameters in range, and coherent RTT estimates. */
  predicate Sane(v: Vegas) {
    && InRange(v.params)
    && 1 <= v.sendmeInc <= 250
    && v.cwnd >= 1
    && v.inflight >= 0
    && v.bdp >= 0
    && 0 <= v.minRTT <= v.maxRTT
    && 0 <= v.ewma <= v.maxRTT
  }
}
