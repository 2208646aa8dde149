/** The flow-control fields of a circuit, and what each operation of sendme.go does to
    them, as functions on values. */
module SendmeSpec {
  import opened Bytes
  import opened RelayCodec
  import opened CCParams
  import opened VegasSpec

  const CLASSIC_WINDOW := 1000
  const CLASSIC_INCREMENT := 100

  /** `vegas` is None on a circuit that has not negotiated congestion control. */
  datatype Flow = Flow(
    packageWindow: int,
    deliverWindow: int,
    sendmeInc: int,
    received: int,
    sendmeSent: int,
    expected: seq<seq<byte>>,
    vegas: Option<Vegas>)

  datatype SendmeError = BadPayload(e: CodecError) | OldVersion | Unexpected | DigestMismatch | NoTag | NotSent

  function NewFlow(): Flow {
    Flow(CLASSIC_WINDOW, CLASSIC_WINDOW, 0, 0, 0, [], None)
  }

  function Increment(f: Flow): int {
    if f.sendmeInc > 0 then f.sendmeInc else CLASSIC_INCREMENT
  }

  /** sendmeAuthTag: a CGO tag whole, or the first 20 bytes of a digest. */
  function AuthTag(raw: seq<byte>): (t: Option<seq<byte>>)
    ensures t.Some? ==> EncodeSendmeV1(t.value).Ok?
    ensures t.None? <==> |raw| < SENDME_V1_DIGEST_LEN && |raw| != SENDME_CGO_TAG_LEN
    ensures t.Some? ==> t.value <= raw && |t.value| == if |raw| == 16 then 16 else 20
  {
    if |raw| == SENDME_CGO_TAG_LEN then Some(raw)
    else if |raw| >= SENDME_V1_DIGEST_LEN then Some(raw[..SENDME_V1_DIGEST_LEN])
    else None
  }

  /** EnableCongestionControl */
  function Enable(f: Flow, params: CCParams, sendmeInc: int): Flow {
    if sendmeInc < 1 || sendmeInc > 250 then f
    else
      var p := if params.cwndInit < 1 then DefaultExit() else params;
      var v := NewVegas(p, sendmeInc);
      Flow(v.cwnd, v.cwnd, sendmeInc, 0, f.sendmeSent, [], Some(v))
  }

  /** DisableCongestionControl */
  function Disable(f: Flow): Flow {
    NewFlow().(sendmeSent := f.sendmeSent)
  }

  /** decrementPackageWindowForSendme: None when the window is exhausted, else the new
      state and whether this cell's tag is to be recorded. */
  function Reserve(f: Flow): Option<(Flow, bool)>
    requires f.vegas.Some? ==> f.vegas.value.sendmeInc >= 1
  {
    match f.vegas
    case Some(v) =>
      if v.inflight >= v.cwnd then None
      else
        var w := v.(inflight := v.inflight + 1);
        Some((f.(vegas := Some(w), packageWindow := PackageWindow(w)), w.inflight % v.sendmeInc == 0))
    case None =>
      if f.packageWindow <= 0 then None
      else Some((f.(packageWindow := f.packageWindow - 1), (f.packageWindow - 1) % Increment(f) == 0))
  }

  /** refundPackageWindow */
  function Refund(f: Flow): Flow {
    match f.vegas
    case Some(v) =>
      var w := v.(inflight := if v.inflight > 0 then v.inflight - 1 else v.inflight);
      f.(vegas := Some(w), packageWindow := PackageWindow(w))
    case None => f.(packageWindow := f.packageWindow + 1)
  }

  /** recordSendmeTag */
  function Record(f: Flow, raw: seq<byte>): Flow {
    match AuthTag(raw)
    case None => f
    case Some(tag) => f.(expected := f.expected + [tag])
  }

  /** decrementDeliverWindowAndTakeSendme: None when the deliver window is exhausted, else
      the new state and whether a SENDME is due. */
  function Take(f: Flow): Option<(Flow, bool)> {
    if f.deliverWindow <= 0 then None
    else
      var g := f.(deliverWindow := f.deliverWindow - 1, received := f.received + 1);
      if g.received >= Increment(f) then Some((g.(received := g.received - Increment(f)), true))
      else Some((g, false))
  }

  /** sendCircuitSendme, when the circuit takes the cell: the new state and the body sent. */
  function Acknowledge(f: Flow, raw: seq<byte>): Result<(Flow, seq<byte>), SendmeError> {
    match AuthTag(raw)
    case None => Err(NoTag)
    case Some(tag) =>
      Ok((f.(sendmeSent := f.sendmeSent + 1, deliverWindow := f.deliverWindow + Increment(f)),
          EncodeSendmeV1(tag).value))
  }

  /** What the sender measures when a SENDME arrives. */
  datatype Sample = Sample(rtt: int, blocked: bool, broken: bool)

  predicate VegasOk(f: Flow) {
    f.vegas.Some? ==> f.vegas.value.cwnd >= 0 && f.vegas.value.minRTT >= 0
  }

  /** processCircuitSendme */
  function Accept(f: Flow, payload: seq<byte>, m: Sample): Result<Flow, SendmeError>
    requires VegasOk(f)
  {
    match DecodeSendme(payload)
    case Err(e) => Err(BadPayload(e))
    case Ok((version, digest)) =>
      if version < 1 then Err(OldVersion)
      else if |f.expected| == 0 then Err(Unexpected)
      else if f.expected[0] != digest then Err(DigestMismatch)
      else
        var g := f.(expected := f.expected[1..]);
        match f.vegas
        case Some(v) =>
          var w := ProcessSendme(v.(blocked := m.blocked), m.rtt, m.broken).0;
          Ok(g.(vegas := Some(w), packageWindow := PackageWindow(w)))
        case None => Ok(g.(packageWindow := f.packageWindow + Increment(f)))
  }

  // ---------------------------------------------------------------- single-call laws

  /** Congestion control starts exactly for an increment in 1..250, with an empty account and
      both windows at the initial window, or the default one if none was set, but at least one
      increment; any other changes nothing. */
  lemma EnableLaws(f: Flow, params: CCParams, inc: int)
    ensures !(1 <= inc <= 250) ==> Enable(f, params, inc) == f
    ensures 1 <= inc <= 250 ==>
      var g := Enable(f, params, inc);
      && g.vegas.Some? && g.vegas.value.sendmeInc == g.sendmeInc == Increment(g) == inc
      && g.packageWindow == g.deliverWindow == g.vegas.value.cwnd
      && g.vegas.value.cwnd >= inc && g.vegas.value.cwnd >= g.vegas.value.params.cwndInit
      && (g.vegas.value.cwnd == inc || g.vegas.value.cwnd == if params.cwndInit >= 1 then params.cwndInit else 124)
      && g.vegas.value.inflight == 0 && g.received == 0 && g.expected == [] && g.sendmeSent == f.sendmeSent
  {
  }

  /** A reservation that is refunded leaves no trace, whichever mode the circuit is in. */
  lemma RefundUndoesReserve(f: Flow)
    requires f.vegas.Some? ==> f.vegas.value.sendmeInc >= 1 && f.vegas.value.inflight >= 0
    requires f.vegas.Some? ==> f.packageWindow == PackageWindow(f.vegas.value)
    requires Reserve(f).Some?
    ensures Refund(Reserve(f).value.0) == f
  {
  }

  /** A refund without a reservation is harmless under congestion control: the account stops at
      zero, and the window shown is the one there is. */
  lemma RefundStopsAtZero(f: Flow)
    requires f.vegas.Some? && f.vegas.value.inflight >= 0
    ensures var g := Refund(f);
      && g.vegas.Some? && g.vegas.value.inflight >= 0
      && g.packageWindow == PackageWindow(g.vegas.value)
      && (f.vegas.value.inflight == 0 ==> g.vegas == f.vegas)
  {
  }

  /** A SENDME is accepted exactly when its body starts with the encoding of the oldest
      recorded tag. Anything else is refused and changes nothing. */
  lemma AcceptIff(f: Flow, payload: seq<byte>, m: Sample)
    requires VegasOk(f)
    ensures Accept(f, payload, m).Ok? <==>
      f.expected != [] && EncodeSendmeV1(f.expected[0]).Ok? && EncodeSendmeV1(f.expected[0]).value <= payload
  {
    if f.expected != [] && EncodeSendmeV1(f.expected[0]).Ok? {
      SendmeRoundTrip(f.expected[0], payload);
    }
  }
}
