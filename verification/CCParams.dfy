/** Congestion-control parameters: C Tor's defaults, and the clamping of consensus values. */
module CCParams {

  const SENDME_INC_DEFAULT := 31
  const CIRC_WINDOW_INIT := 4 * SENDME_INC_DEFAULT
  const OUTBUF_CELLS := 62
  const INT32_MAX := 0x7FFF_FFFF

  datatype CCParams = CCParams(
    cwndInit: int, cwndMin: int, cwndMax: int,
    cwndInc: int, cwndIncRate: int, cwndIncPctSS: int,
    alpha: int, beta: int, gamma: int, delta: int,
    ssCap: int, ssMax: int,
    cwndFullGap: int, cwndFullMinPct: int, cwndFullPerCwnd: int,
    ewmaSS: int, ewmaCwndPct: int, ewmaMax: int,
    rttResetPct: int)

  function DefaultExit(): CCParams {
    CCParams(CIRC_WINDOW_INIT, CIRC_WINDOW_INIT, INT32_MAX, 1, SENDME_INC_DEFAULT, 100,
             3 * OUTBUF_CELLS, 4 * OUTBUF_CELLS, 3 * OUTBUF_CELLS, 5 * OUTBUF_CELLS,
             600, 5000, 4, 25, 1, 2, 50, 10, 100)
  }

  function DefaultOnion(): CCParams {
    DefaultExit().(beta := 6 * OUTBUF_CELLS, gamma := 4 * OUTBUF_CELLS, delta := 7 * OUTBUF_CELLS, ssCap := 475)
  }

  function Asked(params: map<string, int>, key: string, def: int): int {
    if key in params then params[key] else def
  }

  function Apart(a: int, b: int): int {
    if a <= b then b - a else a - b
  }

  /** pickParam: the consensus value, or the default, moved to the nearest end of its range. */
  function PickParam(params: map<string, int>, key: string, def: int, min: int, max: int): (v: int)
    requires min <= max
    ensures min <= v <= max
    ensures key in params && min <= params[key] <= max ==> v == params[key]
    ensures key !in params && min <= def <= max ==> v == def
    ensures forall w :: min <= w <= max ==> Apart(v, Asked(params, key, def)) <= Apart(w, Asked(params, key, def))
  {
    var v := if key in params then params[key] else def;
    if v < min then min else if v > max then max else v
  }

  /** CCParamsFromConsensus with "exit", CCParamsOnionFromConsensus with "onion". */
  function FromConsensus(params: map<string, int>, d: CCParams, kind: string): CCParams {
    CCParams(
      PickParam(params, "cc_cwnd_init", d.cwndInit, SENDME_INC_DEFAULT, 10000),
      PickParam(params, "cc_cwnd_min", d.cwndMin, SENDME_INC_DEFAULT, 1000),
      PickParam(params, "cc_cwnd_max", d.cwndMax, 500, INT32_MAX),
      PickParam(params, "cc_cwnd_inc", d.cwndInc, 1, 1000),
      PickParam(params, "cc_cwnd_inc_rate", d.cwndIncRate, 1, 250),
      PickParam(params, "cc_cwnd_inc_pct_ss", d.cwndIncPctSS, 1, 500),
      PickParam(params, "cc_vegas_alpha_" + kind, d.alpha, 0, 1000),
      PickParam(params, "cc_vegas_beta_" + kind, d.beta, 0, 1000),
      PickParam(params, "cc_vegas_gamma_" + kind, d.gamma, 0, 1000),
      PickParam(params, "cc_vegas_delta_" + kind, d.delta, 0, INT32_MAX),
      PickParam(params, "cc_sscap_" + kind, d.ssCap, 100, INT32_MAX),
      PickParam(params, "cc_ss_max", d.ssMax, 500, INT32_MAX),
      PickParam(params, "cc_cwnd_full_gap", d.cwndFullGap, 0, 32767),
      PickParam(params, "cc_cwnd_full_minpct", d.cwndFullMinPct, 0, 100),
      PickParam(params, "cc_cwnd_full_per_cwnd", d.cwndFullPerCwnd, 0, 1),
      PickParam(params, "cc_ewma_ss", d.ewmaSS, 1, 100),
      PickParam(params, "cc_ewma_cwnd_pct", d.ewmaCwndPct, 1, 100),
      PickParam(params, "cc_ewma_max", d.ewmaMax, 2, 100),
      PickParam(params, "cc_rtt_reset_pct", d.rttResetPct, 0, 100))
  }

  /** The ranges of the consensus parameters. */
  predicate InRange(p: CCParams) {
    && 31 <= p.cwndInit <= 10000 && 31 <= p.cwndMin <= 1000 && 500 <= p.cwndMax <= INT32_MAX
    && 1 <= p.cwndInc <= 1000 && 1 <= p.cwndIncRate <= 250 && 1 <= p.cwndIncPctSS <= 500
    && 0 <= p.alpha <= 1000 && 0 <= p.beta <= 1000 && 0 <= p.gamma <= 1000 && 0 <= p.delta <= INT32_MAX
    && 100 <= p.ssCap <= INT32_MAX && 500 <= p.ssMax <= INT32_MAX
    && 0 <= p.cwndFullGap <= 32767 && 0 <= p.cwndFullMinPct <= 100 && 0 <= p.cwndFullPerCwnd <= 1
    && 1 <= p.ewmaSS <= 100 && 1 <= p.ewmaCwndPct <= 100 && 2 <= p.ewmaMax <= 100
    && 0 <= p.rttResetPct <= 100
  }

  predicate Says(params: map<string, int>, key: string, v: int) {
    key in params && params[key] == v
  }

  /** A consensus that publishes p under the names of the Tor specification. */
  predicate Announces(params: map<string, int>, p: CCParams, kind: string) {
    && Says(params, "cc_cwnd_init", p.cwndInit) && Says(params, "cc_cwnd_min", p.cwndMin)
    && Says(params, "cc_cwnd_max", p.cwndMax) && Says(params, "cc_cwnd_inc", p.cwndInc)
    && Says(params, "cc_cwnd_inc_rate", p.cwndIncRate) && Says(params, "cc_cwnd_inc_pct_ss", p.cwndIncPctSS)
    && Says(params, "cc_vegas_alpha_" + kind, p.alpha) && Says(params, "cc_vegas_beta_" + kind, p.beta)
    && Says(params, "cc_vegas_gamma_" + kind, p.gamma) && Says(params, "cc_vegas_delta_" + kind, p.delta)
    && Says(params, "cc_sscap_" + kind, p.ssCap) && Says(params, "cc_ss_max", p.ssMax)
    && Says(params, "cc_cwnd_full_gap", p.cwndFullGap) && Says(params, "cc_cwnd_full_minpct", p.cwndFullMinPct)
    && Says(params, "cc_cwnd_full_per_cwnd", p.cwndFullPerCwnd) && Says(params, "cc_ewma_ss", p.ewmaSS)
    && Says(params, "cc_ewma_cwnd_pct", p.ewmaCwndPct) && Says(params, "cc_ewma_max", p.ewmaMax)
    && Says(params, "cc_rtt_reset_pct", p.rttResetPct)
  }

  /** Parameters that a consensus publishes are used as published, whatever the defaults are,
      exactly when they are in range. */
  lemma AnnouncedIsUsed(params: map<string, int>, p: CCParams, d: CCParams, kind: string)
    requires Announces(params, p, kind)
    ensures FromConsensus(params, d, kind) == p <==> InRange(p)
  {
    assert InRange(FromConsensus(params, d, kind));
  }

  /** Whatever the consensus says, the parameters are in range; an empty consensus gives
      the defaults. */
  lemma ConsensusInRange(params: map<string, int>, kind: string)
    ensures InRange(FromConsensus(params, DefaultExit(), kind))
    ensures InRange(FromConsensus(params, DefaultOnion(), kind))
    ensures FromConsensus(map[], DefaultExit(), kind) == DefaultExit()
    ensures FromConsensus(map[], DefaultOnion(), kind) == DefaultOnion()
  {
  }
}
