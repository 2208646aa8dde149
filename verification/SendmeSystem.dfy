/** Two circuit ends with a data channel one way and a SENDME channel back, both FIFO,
    run by an arbitrary schedule. SENDMEs are taken when a cell is delivered but may
    leave later; sends may fail and be refunded. */
module SendmeSystem {
  import opened Arith
  import opened Bytes
  import opened RelayCodec
  import opened CCParams
  import opened VegasSpec
  import opened VegasWindow
  import opened SendmeSpec

  type Tag = seq<byte>

  datatype Failure = DeliverExhausted | BadSendme(e: SendmeError)

  /** `sent` is the digest of every DATA cell sent, in order; `delivered`, `emitted` and
      `processed` count cells delivered, SENDMEs sent and SENDMEs accepted. */
  datatype System = System(
    a: Flow,
    b: Flow,
    data: seq<Tag>,
    pending: seq<Tag>,
    sendmes: seq<seq<byte>>,
    failure: Option<Failure>,
    sent: seq<Tag>,
    delivered: nat,
    emitted: nat,
    processed: nat)

  datatype Event =
    | Send(raw: Tag, emitted: bool)
    | Deliver(prompt: bool)
    | Emit
    | Process(m: Sample)

  function Start(a: Flow, b: Flow): System {
    System(a, b, [], [], [], None, [], 0, 0, 0)
  }

  /** reserveDataWindows then emitRelayCell, for a cell whose window is available. */
  function SendStep(s: System, raw: Tag, emitted: bool): System
    requires FlowOk(s.a)
  {
    match Reserve(s.a)
    case None => s
    case Some((f, record)) =>
      if !emitted then s.(a := Refund(f))
      else s.(a := if record then Record(f, raw) else f, data := s.data + [raw], sent := s.sent + [raw])
  }

  function EmitStep(s: System): System {
    if s.pending == [] then s
    else
      match Acknowledge(s.b, s.pending[0])
      case Err(e) => s.(failure := Some(BadSendme(e)))
      case Ok((f, body)) =>
        s.(b := f, pending := s.pending[1..], sendmes := s.sendmes + [body], emitted := s.emitted + 1)
  }

  /** The receiver takes a cell whose tag it finds to be `raw`. */
  function DeliverTag(s: System, raw: Tag, prompt: bool): System
    requires s.data != []
  {
    match Take(s.b)
    case None => s.(failure := Some(DeliverExhausted))
    case Some((f, due)) =>
      var t := s.(b := f, data := s.data[1..], delivered := s.delivered + 1,
                  pending := if due then s.pending + [raw] else s.pending);
      if due && prompt then EmitStep(t) else t
  }

  function DeliverStep(s: System, prompt: bool): System {
    if s.data == [] then s else DeliverTag(s, s.data[0], prompt)
  }

  /** The sender takes a SENDME whose body it finds to be `body`. */
  function ProcessBody(s: System, body: seq<byte>, m: Sample): System
    requires FlowOk(s.a) && s.sendmes != []
  {
    match Accept(s.a, body, m)
    case Err(e) => s.(failure := Some(BadSendme(e)))
    case Ok(f) => s.(a := f, sendmes := s.sendmes[1..], processed := s.processed + 1)
  }

  function ProcessStep(s: System, m: Sample): System
    requires FlowOk(s.a)
  {
    if s.sendmes == [] then s else ProcessBody(s, s.sendmes[0], m)
  }

  predicate FlowOk(f: Flow) {
    f.vegas.Some? ==> Sane(f.vegas.value) && f.vegas.value.sendmeInc == f.sendmeInc
  }

  function Step(s: System, e: Event): System
    requires FlowOk(s.a)
  {
    if s.failure.Some? then s
    else
      match e
      case Send(raw, emitted) => SendStep(s, raw, emitted)
      case Deliver(prompt) => DeliverStep(s, prompt)
      case Emit => EmitStep(s)
      case Process(m) => ProcessStep(s, m)
  }

  lemma StepKeepsFlowOk(s: System, e: Event)
    requires FlowOk(s.a)
    ensures FlowOk(Step(s, e).a)
  {
    if s.a.vegas.Some? && e.Process? {
      StepKeepsSane(s.a.vegas.value, Sendme(e.m.rtt, e.m.blocked, e.m.broken));
    }
  }

  function Run(s: System, es: seq<Event>): System
    requires FlowOk(s.a)
    decreases |es|
  {
    if es == [] then s
    else
      StepKeepsFlowOk(s, es[0]);
      Run(Step(s, es[0]), es[1..])
  }

  lemma {:induction false} RunConcat(s: System, es: seq<Event>, fs: seq<Event>)
    requires FlowOk(s.a)
    ensures FlowOk(Run(s, es).a)
    ensures Run(s, es + fs) == Run(Run(s, es), fs)
    decreases |es|
  {
    if es == [] {
      assert es + fs == fs;
    } else {
      assert (es + fs)[1..] == es[1..] + fs;
      StepKeepsFlowOk(s, es[0]);
      RunConcat(Step(s, es[0]), es[1..], fs);
    }
  }

  // ---------------------------------------------------------------- the tags owed

  /** The tags of every inc-th cell. */
  function Tags(sent: seq<Tag>, inc: int): seq<Tag>
    requires inc >= 1
    requires forall i :: 0 <= i < |sent| ==> AuthTag(sent[i]).Some?
    decreases |sent|
  {
    if sent == [] then []
    else
      var n := |sent|;
      Tags(sent[..n - 1], inc) + (if n % inc == 0 then [AuthTag(sent[n - 1]).value] else [])
  }

  ghost predicate AllTagged(sent: seq<Tag>) {
    forall i :: 0 <= i < |sent| ==> AuthTag(sent[i]).Some?
  }

  lemma DivStep(n: nat, inc: int)
    requires inc >= 1
    ensures (n + 1) / inc == n / inc + (if (n + 1) % inc == 0 then 1 else 0)
    ensures (n + 1) % inc == if n % inc + 1 >= inc then 0 else n % inc + 1
  {
    var q, r := n / inc, n % inc;
    assert n == q * inc + r;
    if r + 1 == inc {
      assert n + 1 == (q + 1) * inc;
      DivUnique(n + 1, inc, q + 1, 0);
    } else {
      DivUnique(n + 1, inc, q, r + 1);
    }
  }

  lemma {:induction false} TagsLength(sent: seq<Tag>, inc: int)
    requires inc >= 1 && AllTagged(sent)
    ensures |Tags(sent, inc)| == |sent| / inc
    decreases |sent|
  {
    if sent == [] {
      DivUnique(0, inc, 0, 0);
    } else {
      TagsLength(sent[..|sent| - 1], inc);
      TagsOneMore(sent, inc);
      DivStep(|sent| - 1, inc);
    }
  }

  lemma TagsOneMore(sent: seq<Tag>, inc: int)
    requires inc >= 1 && AllTagged(sent) && sent != []
    ensures |Tags(sent, inc)| == |Tags(sent[..|sent| - 1], inc)| + (if |sent| % inc == 0 then 1 else 0)
  {
  }

  lemma {:induction false} TagsPrefix(sent: seq<Tag>, k: nat, inc: int)
    requires inc >= 1 && AllTagged(sent) && k <= |sent|
    ensures Tags(sent[..k], inc) <= Tags(sent, inc)
    decreases |sent|
  {
    if k == |sent| {
      assert sent[..k] == sent;
    } else {
      TagsPrefix(sent[..|sent| - 1], k, inc);
      assert sent[..|sent| - 1][..k] == sent[..k];
    }
  }

  lemma TagsSnoc(sent: seq<Tag>, raw: Tag, inc: int)
    requires inc >= 1 && AllTagged(sent) && AuthTag(raw).Some?
    ensures AllTagged(sent + [raw])
    ensures Tags(sent + [raw], inc)
      == Tags(sent, inc) + (if (|sent| + 1) % inc == 0 then [AuthTag(raw).value] else [])
  {
    assert (sent + [raw])[..|sent|] == sent;
  }

  /** What `Tags` lists: the i-th entry is the tag of cell number (i + 1) * inc. */
  lemma {:induction false} TagsAt(sent: seq<Tag>, inc: int, i: nat)
    requires inc >= 1 && AllTagged(sent) && i < |Tags(sent, inc)|
    ensures 1 <= (i + 1) * inc <= |sent|
    ensures Some(Tags(sent, inc)[i]) == AuthTag(sent[(i + 1) * inc - 1])
    decreases |sent|
  {
    var n := |sent|;
    var before := sent[..n - 1];
    if i < |Tags(before, inc)| {
      TagsAt(before, inc, i);
    } else {
      TagsLast(sent, inc, i);
    }
  }

  lemma TagsLast(sent: seq<Tag>, inc: int, i: nat)
    requires inc >= 1 && AllTagged(sent) && sent != []
    requires |Tags(sent[..|sent| - 1], inc)| <= i < |Tags(sent, inc)|
    ensures (i + 1) * inc == |sent| && Some(Tags(sent, inc)[i]) == AuthTag(sent[|sent| - 1])
  {
    TagsOneMore(sent, inc);
    TagsLength(sent, inc);
    DivMod(|sent|, inc);
    assert |sent| % inc == 0 && |sent| / inc == i + 1;
  }

  function Auths(raws: seq<Tag>): seq<Tag>
    requires forall i :: 0 <= i < |raws| ==> AuthTag(raws[i]).Some?
  {
    seq(|raws|, i requires 0 <= i < |raws| => AuthTag(raws[i]).value)
  }

  // ---------------------------------------------------------------- the invariant

  /** Cells sent and not yet acknowledged. */
  function Outstanding(f: Flow): int {
    match f.vegas
    case Some(v) => v.inflight
    case None => CLASSIC_WINDOW - f.packageWindow
  }

  /** The sending end: what is outstanding is what was sent less what was acknowledged, and
      the recorded tags are those of every inc-th cell sent, from the first unacknowledged. */
  ghost predicate SendEnd(f: Flow, sent: seq<Tag>, processed: nat, inc: int) {
    && inc >= 1 && Increment(f) == inc
    && FlowOk(f)
    && AllTagged(sent)
    && (f.vegas.None? ==> inc == CLASSIC_INCREMENT && f.packageWindow >= 0)
    && (f.vegas.Some? ==> f.packageWindow == PackageWindow(f.vegas.value))
    && Outstanding(f) == |sent| - inc * processed >= 0
    && processed <= |Tags(sent, inc)|
    && f.expected == Tags(sent, inc)[processed..]
  }

  /** The receiving end: `got` is what has been delivered. */
  ghost predicate RecvEnd(f: Flow, pending: seq<Tag>, got: seq<Tag>, emitted: nat, inc: int, w0: int) {
    && inc >= 1 && Increment(f) == inc
    && AllTagged(got) && AllTagged(pending)
    && f.received == |got| % inc
    && f.deliverWindow == w0 - |got| + inc * emitted
    && emitted <= |Tags(got, inc)|
    && Auths(pending) == Tags(got, inc)[emitted..]
  }

  /** The SENDME channel carries the tags emitted and not yet accepted. */
  ghost predicate Channel(sendmes: seq<seq<byte>>, tags: seq<Tag>, processed: nat, emitted: nat) {
    && processed <= emitted <= |tags|
    && |sendmes| == emitted - processed
    && forall i :: 0 <= i < |sendmes| ==> EncodeSendmeV1(tags[processed + i]) == Ok(sendmes[i])
  }

  ghost predicate Inv(s: System, inc: int, w0: int) {
    && SendEnd(s.a, s.sent, s.processed, inc)
    && s.delivered <= |s.sent|
    && s.data == s.sent[s.delivered..]
    && RecvEnd(s.b, s.pending, s.sent[..s.delivered], s.emitted, inc, w0)
    && Channel(s.sendmes, Tags(s.sent, inc), s.processed, s.emitted)
    && (s.failure.Some? ==> s.failure.value == DeliverExhausted)
  }

  // ---------------------------------------------------------------- each step keeps it

  lemma ModSub(n: int, inc: int, p: int)
    requires inc >= 1 && n - inc * p >= 0
    ensures (n - inc * p) % inc == n % inc
    ensures (n - inc * p) / inc == n / inc - p
  {
    var q, r := n / inc, n % inc;
    assert n == q * inc + r;
    assert n - inc * p == (q - p) * inc + r;
    DivUnique(n - inc * p, inc, q - p, r);
  }

  lemma ReserveRecords(f: Flow, sent: seq<Tag>, processed: nat, inc: int)
    requires SendEnd(f, sent, processed, inc)
    ensures Reserve(f).Some? ==> (Reserve(f).value.1 <==> (|sent| + 1) % inc == 0)
  {
    if Reserve(f).Some? && f.vegas.Some? {
      ModSub(|sent| + 1, inc, processed);
    }
  }

  lemma SendKeepsEnd(f: Flow, sent: seq<Tag>, processed: nat, inc: int, raw: Tag)
    requires SendEnd(f, sent, processed, inc)
    requires Reserve(f).Some? && AuthTag(raw).Some?
    ensures var (g, record) := Reserve(f).value;
      SendEnd(if record then Record(g, raw) else g, sent + [raw], processed, inc)
  {
    ReserveRecords(f, sent, processed, inc);
    TagsSnoc(sent, raw, inc);
    var (g, record) := Reserve(f).value;
    var h := if record then Record(g, raw) else g;
    assert h.expected == Tags(sent + [raw], inc)[processed..];
    assert Outstanding(h) == Outstanding(f) + 1;
  }

  lemma ChannelGrows(sendmes: seq<seq<byte>>, sent: seq<Tag>, processed: nat, emitted: nat, raw: Tag, inc: int)
    requires inc >= 1 && AllTagged(sent) && AuthTag(raw).Some?
    requires Channel(sendmes, Tags(sent, inc), processed, emitted)
    ensures AllTagged(sent + [raw])
    ensures Channel(sendmes, Tags(sent + [raw], inc), processed, emitted)
  {
    TagsSnoc(sent, raw, inc);
  }

  lemma SendKeepsInv(s: System, raw: Tag, emitted: bool, inc: int, w0: int)
    requires Inv(s, inc, w0) && AuthTag(raw).Some?
    ensures Inv(SendStep(s, raw, emitted), inc, w0)
  {
    if Reserve(s.a).Some? {
      if emitted {
        SendKeepsEnd(s.a, s.sent, s.processed, inc, raw);
        ChannelGrows(s.sendmes, s.sent, s.processed, s.emitted, raw, inc);
        assert (s.sent + [raw])[..s.delivered] == s.sent[..s.delivered];
        assert (s.sent + [raw])[s.delivered..] == s.data + [raw];
      } else {
        RefundUndoesReserve(s.a);
      }
    }
  }

  lemma TakeKeepsEnd(f: Flow, pending: seq<Tag>, got: seq<Tag>, emitted: nat, inc: int, w0: int, raw: Tag)
    requires RecvEnd(f, pending, got, emitted, inc, w0)
    requires f.deliverWindow > 0 && AuthTag(raw).Some?
    ensures Take(f).Some?
    ensures var (g, due) := Take(f).value;
      RecvEnd(g, if due then pending + [raw] else pending, got + [raw], emitted, inc, w0)
  {
    var (g, due) := Take(f).value;
    DivStep(|got|, inc);
    assert due <==> (|got| + 1) % inc == 0;
    TagsSnoc(got, raw, inc);
    if due {
      assert Auths(pending + [raw]) == Auths(pending) + [AuthTag(raw).value];
    }
    assert Tags(got + [raw], inc)[emitted..]
      == Tags(got, inc)[emitted..] + (if due then [AuthTag(raw).value] else []);
  }

  lemma EmitKeepsEnd(f: Flow, pending: seq<Tag>, got: seq<Tag>, emitted: nat, inc: int, w0: int)
    requires RecvEnd(f, pending, got, emitted, inc, w0) && pending != []
    ensures emitted < |Tags(got, inc)|
    ensures var r := Acknowledge(f, pending[0]);
      && r.Ok?
      && EncodeSendmeV1(Tags(got, inc)[emitted]) == Ok(r.value.1)
      && RecvEnd(r.value.0, pending[1..], got, emitted + 1, inc, w0)
  {
    assert Auths(pending)[0] == AuthTag(pending[0]).value;
    assert Auths(pending)[0] == Tags(got, inc)[emitted..][0];
    assert Auths(pending[1..]) == Auths(pending)[1..] == Tags(got, inc)[emitted + 1..];
    assert inc * (emitted + 1) == inc * emitted + inc;
  }

  lemma EmitKeepsInv(s: System, inc: int, w0: int)
    requires Inv(s, inc, w0)
    ensures Inv(EmitStep(s), inc, w0)
    ensures EmitStep(s).failure == s.failure
  {
    if s.pending != [] {
      var got := s.sent[..s.delivered];
      EmitKeepsEnd(s.b, s.pending, got, s.emitted, inc, w0);
      TagsPrefix(s.sent, s.delivered, inc);
      assert Tags(s.sent, inc)[s.emitted] == Tags(got, inc)[s.emitted];
    }
  }

  lemma DeliverKeepsInv(s: System, prompt: bool, inc: int, w0: int)
    requires Inv(s, inc, w0) && s.failure.None?
    ensures Inv(DeliverStep(s, prompt), inc, w0)
    ensures DeliverStep(s, prompt).failure.Some? <==> s.data != [] && s.b.deliverWindow <= 0
  {
    if s.data != [] && s.b.deliverWindow > 0 {
      var got := s.sent[..s.delivered];
      assert s.sent[..s.delivered + 1] == got + [s.data[0]];
      assert s.data[1..] == s.sent[s.delivered + 1..];
      TakeKeepsEnd(s.b, s.pending, got, s.emitted, inc, w0, s.data[0]);
      var (f, due) := Take(s.b).value;
      var t := s.(b := f, data := s.data[1..], delivered := s.delivered + 1,
                  pending := if due then s.pending + [s.data[0]] else s.pending);
      assert Inv(t, inc, w0);
      EmitKeepsInv(t, inc, w0);
    }
  }

  /** A tag still owed means at least inc cells outstanding. */
  lemma OwedMeansOutstanding(f: Flow, sent: seq<Tag>, processed: nat, inc: int)
    requires SendEnd(f, sent, processed, inc)
    ensures |f.expected| == Outstanding(f) / inc
    ensures f.expected != [] ==> Outstanding(f) >= inc
  {
    TagsLength(sent, inc);
    ModSub(|sent|, inc, processed);
    var n := Outstanding(f);
    assert n == |sent| - inc * processed;
    if n < inc {
      DivUnique(n, inc, 0, n);
    }
  }

  /** With inc cells in flight a SENDME takes exactly inc off; the clamp at zero is idle. */
  lemma VegasAck(v: Vegas, m: Sample)
    requires Sane(v) && v.inflight >= v.sendmeInc
    ensures var w := ProcessSendme(v.(blocked := m.blocked), m.rtt, m.broken).0;
      Sane(w) && w.sendmeInc == v.sendmeInc && w.inflight == v.inflight - v.sendmeInc
  {
    SendmeShape(v.(blocked := m.blocked), m.rtt, m.broken);
    StepKeepsSane(v, Sendme(m.rtt, m.blocked, m.broken));
  }

  lemma AcceptAdvances(f: Flow, inc: int, body: seq<byte>, m: Sample)
    requires inc >= 1 && Increment(f) == inc && FlowOk(f)
    requires f.expected != [] && EncodeSendmeV1(f.expected[0]) == Ok(body)
    requires Outstanding(f) >= inc
    ensures var r := Accept(f, body, m);
      && r.Ok? && FlowOk(r.value)
      && r.value.expected == f.expected[1..]
      && r.value.sendmeInc == f.sendmeInc
      && r.value.vegas.Some? == f.vegas.Some?
      && Outstanding(r.value) == Outstanding(f) - inc
      && (f.vegas.Some? ==> r.value.packageWindow == PackageWindow(r.value.vegas.value))
      && (f.vegas.None? ==> r.value.packageWindow == f.packageWindow + inc)
  {
    SendmeRoundTrip(f.expected[0], body);
    if f.vegas.Some? {
      VegasAck(f.vegas.value, m);
    }
  }

  lemma AcceptKeepsEnd(f: Flow, sent: seq<Tag>, processed: nat, inc: int, body: seq<byte>, m: Sample)
    requires SendEnd(f, sent, processed, inc)
    requires processed < |Tags(sent, inc)|
    requires EncodeSendmeV1(Tags(sent, inc)[processed]) == Ok(body)
    ensures Accept(f, body, m).Ok?
    ensures SendEnd(Accept(f, body, m).value, sent, processed + 1, inc)
  {
    OwedMeansOutstanding(f, sent, processed, inc);
    AcceptAdvances(f, inc, body, m);
    assert inc * (processed + 1) == inc * processed + inc;
    assert f.expected[1..] == Tags(sent, inc)[processed + 1..];
  }

  lemma ProcessKeepsInv(s: System, m: Sample, inc: int, w0: int)
    requires Inv(s, inc, w0)
    ensures Inv(ProcessStep(s, m), inc, w0)
    ensures ProcessStep(s, m).failure == s.failure
  {
    if s.sendmes != [] {
      AcceptKeepsEnd(s.a, s.sent, s.processed, inc, s.sendmes[0], m);
      var rest := s.sendmes[1..];
      forall i | 0 <= i < |rest|
        ensures EncodeSendmeV1(Tags(s.sent, inc)[s.processed + 1 + i]) == Ok(rest[i])
      {
        assert rest[i] == s.sendmes[i + 1];
      }
    }
  }

  predicate Tagged(e: Event) {
    e.Send? ==> AuthTag(e.raw).Some?
  }

  lemma StepKeepsInv(s: System, e: Event, inc: int, w0: int)
    requires Inv(s, inc, w0) && Tagged(e)
    ensures Inv(Step(s, e), inc, w0)
    ensures s.failure.None? ==>
      (Step(s, e).failure.Some? <==> e.Deliver? && s.data != [] && s.b.deliverWindow <= 0)
  {
    if s.failure.None? {
      match e
      case Send(raw, emitted) => SendKeepsInv(s, raw, emitted, inc, w0);
      case Deliver(prompt) => DeliverKeepsInv(s, prompt, inc, w0);
      case Emit => EmitKeepsInv(s, inc, w0);
      case Process(m) => ProcessKeepsInv(s, m, inc, w0);
    }
  }

  // ---------------------------------------------------------------- whole runs

  ghost predicate AllEventsTagged(es: seq<Event>) {
    forall i :: 0 <= i < |es| ==> Tagged(es[i])
  }

  lemma {:induction false} RunKeepsInv(s: System, es: seq<Event>, inc: int, w0: int)
    requires Inv(s, inc, w0) && AllEventsTagged(es)
    ensures Inv(Run(s, es), inc, w0)
    decreases |es|
  {
    if es != [] {
      assert Tagged(es[0]);
      StepKeepsInv(s, es[0], inc, w0);
      RunKeepsInv(Step(s, es[0]), es[1..], inc, w0);
    }
  }

  /** Two circuits on the classic window. */
  function ClassicStart(): System {
    Start(NewFlow(), NewFlow())
  }

  /** Two circuits that negotiated sendme_inc, each with its own consensus parameters. */
  function VegasStart(pa: CCParams, pb: CCParams, inc: int): System {
    Start(Enable(NewFlow(), pa, inc), Enable(NewFlow(), pb, inc))
  }

  lemma ClassicStartInv()
    ensures Inv(ClassicStart(), CLASSIC_INCREMENT, CLASSIC_WINDOW)
  {
  }

  /** Two circuits that dropped congestion control again are on the classic window, whatever
      they were before. */
  lemma DisabledStartInv(f: Flow, g: Flow)
    ensures Inv(Start(Disable(f), Disable(g)), CLASSIC_INCREMENT, CLASSIC_WINDOW)
  {
  }

  lemma VegasStartInv(pa: CCParams, pb: CCParams, inc: int)
    requires InRange(pa) && InRange(pb) && 1 <= inc <= 250
    ensures Inv(VegasStart(pa, pb, inc), inc, Max(pb.cwndInit, inc))
    ensures VegasStart(pa, pb, inc).b.deliverWindow == Max(pb.cwndInit, inc)
  {
    DivUnique(0, inc, 0, 0);
  }

  /** What may be outstanding at a time. */
  function Room(f: Flow): int {
    match f.vegas
    case Some(v) => v.cwnd
    case None => 1000
  }

  /** A cell is sent exactly when the network takes it and fewer cells are outstanding than the
      window holds; otherwise nothing changes, not even for a cell reserved and then lost. */
  lemma SendIff(s: System, raw: Tag, emitted: bool, inc: int, w0: int)
    requires Inv(s, inc, w0) && s.failure.None?
    ensures var t := Step(s, Send(raw, emitted));
      if emitted && |s.sent| - inc * s.processed < Room(s.a)
      then t.sent == s.sent + [raw] && t.data == s.data + [raw] && Outstanding(t.a) == Outstanding(s.a) + 1
      else t == s
  {
    if Reserve(s.a).Some? && !emitted {
      RefundUndoesReserve(s.a);
    }
  }

  /** Every SENDME sent is counted, and nothing else: from none on a new circuit, and across a
      change of mode. */
  lemma SendmesCounted(f: Flow, g: Flow, es: seq<Event>)
    ensures Run(ClassicStart(), es).b.sendmeSent == Run(ClassicStart(), es).emitted
    ensures FlowOk(Start(Disable(f), Disable(g)).a)
    ensures var t := Run(Start(Disable(f), Disable(g)), es); t.b.sendmeSent == g.sendmeSent + t.emitted
  {
    CountAdvances(ClassicStart(), es);
    CountAdvances(Start(Disable(f), Disable(g)), es);
  }

  lemma {:induction false} CountAdvances(s: System, es: seq<Event>)
    requires FlowOk(s.a)
    ensures Run(s, es).b.sendmeSent - Run(s, es).emitted == s.b.sendmeSent - s.emitted
    decreases |es|
  {
    if es != [] {
      StepKeepsFlowOk(s, es[0]);
      CountStep(s, es[0]);
      CountAdvances(Step(s, es[0]), es[1..]);
    }
  }

  lemma CountStep(s: System, e: Event)
    requires FlowOk(s.a)
    ensures Step(s, e).b.sendmeSent - Step(s, e).emitted == s.b.sendmeSent - s.emitted
  {
  }

  /** The law of outstanding tags, in either mode and at any moment: the recorded tags are
      exactly those of every inc-th cell sent, starting after the accepted ones; there are
      floor(outstanding / inc) of them, whatever has happened to the window; and no SENDME
      was ever malformed, unexpected or mismatched. */
  lemma TagLaw(s: System, es: seq<Event>, inc: int, w0: int)
    requires Inv(s, inc, w0) && AllEventsTagged(es)
    ensures var t := Run(s, es);
      && AllTagged(t.sent)
      && t.processed <= |Tags(t.sent, inc)|
      && t.a.expected == Tags(t.sent, inc)[t.processed..]
      && |t.a.expected| == Outstanding(t.a) / inc
      && Outstanding(t.a) == |t.sent| - inc * t.processed
      && (t.failure.Some? ==> t.failure.value == DeliverExhausted)
  {
    RunKeepsInv(s, es, inc, w0);
    var t := Run(s, es);
    OwedMeansOutstanding(t.a, t.sent, t.processed, inc);
  }

  /** A SENDME body for a tor1 hop: version 1, length 20, and that many bytes of tag. */
  predicate Tor1Body(body: seq<byte>) {
    |body| == 23 && body[..3] == [1, 0, 20]
  }

  /** When every digest has 20 bytes or more, as tor1 digests do, every tag owed is the first
      20 bytes of a digest, and every SENDME on its way carries 20 bytes. */
  lemma Tor1Tags(s: System, inc: int, w0: int)
    requires Inv(s, inc, w0) && forall i :: 0 <= i < |s.sent| ==> |s.sent[i]| >= 20
    ensures forall i :: 0 <= i < |s.a.expected| ==> CutFrom(s.a.expected[i], s.sent)
    ensures forall i :: 0 <= i < |s.sendmes| ==> Tor1Body(s.sendmes[i])
  {
    forall i | 0 <= i < |s.a.expected|
      ensures CutFrom(s.a.expected[i], s.sent)
    {
      Tor1Tag(s.sent, inc, s.processed + i);
    }
    forall i | 0 <= i < |s.sendmes|
      ensures Tor1Body(s.sendmes[i])
    {
      Tor1Tag(s.sent, inc, s.processed + i);
      Tor1Encoding(Tags(s.sent, inc)[s.processed + i]);
    }
  }

  /** The first 20 bytes of one of these digests. */
  ghost predicate CutFrom(tag: Tag, sent: seq<Tag>) {
    exists k :: 0 <= k < |sent| && 20 <= |sent[k]| && tag == sent[k][..20]
  }

  lemma Tor1Tag(sent: seq<Tag>, inc: int, i: nat)
    requires inc >= 1 && AllTagged(sent) && i < |Tags(sent, inc)|
    requires forall i :: 0 <= i < |sent| ==> |sent[i]| >= 20
    ensures |Tags(sent, inc)[i]| == 20 && CutFrom(Tags(sent, inc)[i], sent)
  {
    TagsAt(sent, inc, i);
    var raw := sent[(i + 1) * inc - 1];
    assert |raw| >= 20;
    assert Tags(sent, inc)[i] == raw[..20];
  }

  lemma Tor1Encoding(tag: Tag)
    requires |tag| == 20
    ensures EncodeSendmeV1(tag).Ok? && Tor1Body(EncodeSendmeV1(tag).value)
  {
    assert PutU16(20) == [0, 20];
  }

  /** On the classic window the deliver window covers every cell in transit and every
      SENDME not yet accepted, so it cannot run out however long SENDMEs are delayed. */
  lemma ClassicDeliverWindow(s: System)
    requires Inv(s, CLASSIC_INCREMENT, CLASSIC_WINDOW) && s.a.vegas.None?
    ensures s.b.deliverWindow == s.a.packageWindow + |s.data| + CLASSIC_INCREMENT * |s.sendmes|
    ensures s.data != [] ==> s.b.deliverWindow > 0
  {
  }

  lemma StepKeepsMode(s: System, e: Event)
    requires FlowOk(s.a)
    ensures Step(s, e).a.vegas.Some? == s.a.vegas.Some?
  {
  }

  lemma {:induction false} ClassicNeverFails(s: System, es: seq<Event>)
    requires Inv(s, CLASSIC_INCREMENT, CLASSIC_WINDOW) && s.a.vegas.None? && s.failure.None?
    requires AllEventsTagged(es)
    ensures Run(s, es).failure.None? && Run(s, es).a.vegas.None?
    decreases |es|
  {
    if es != [] {
      assert Tagged(es[0]);
      ClassicDeliverWindow(s);
      StepKeepsInv(s, es[0], CLASSIC_INCREMENT, CLASSIC_WINDOW);
      StepKeepsMode(s, es[0]);
      ClassicNeverFails(Step(s, es[0]), es[1..]);
    }
  }

  /** Classic flow control, over every run: nothing ever fails, though SENDMEs may be
      delayed at will; the window and the unacknowledged cells always make 1000; and the
      receiver's window is the sender's plus what is in transit either way. */
  lemma ClassicFlowControl(es: seq<Event>)
    requires AllEventsTagged(es)
    ensures var s := Run(ClassicStart(), es);
      && s.failure.None?
      && s.a.packageWindow + (|s.sent| - CLASSIC_INCREMENT * s.processed) == CLASSIC_WINDOW
      && 0 <= s.a.packageWindow <= CLASSIC_WINDOW
      && |s.a.expected| == (CLASSIC_WINDOW - s.a.packageWindow) / CLASSIC_INCREMENT
      && s.b.deliverWindow == s.a.packageWindow + |s.data| + CLASSIC_INCREMENT * |s.sendmes|
      && s.delivered <= |s.sent| && s.data == s.sent[s.delivered..]
  {
    ClassicStartInv();
    RunKeepsInv(ClassicStart(), es, CLASSIC_INCREMENT, CLASSIC_WINDOW);
    ClassicNeverFails(ClassicStart(), es);
    var s := Run(ClassicStart(), es);
    OwedMeansOutstanding(s.a, s.sent, s.processed, CLASSIC_INCREMENT);
    ClassicDeliverWindow(s);
  }

  /** Whatever went before, after dropping congestion control classic flow control holds. */
  lemma DisabledNeverFails(f: Flow, g: Flow, es: seq<Event>)
    requires AllEventsTagged(es)
    ensures FlowOk(Start(Disable(f), Disable(g)).a)
    ensures Run(Start(Disable(f), Disable(g)), es).failure.None?
  {
    DisabledStartInv(f, g);
    ClassicNeverFails(Start(Disable(f), Disable(g)), es);
  }

  lemma RecvEndWindow(f: Flow, pending: seq<Tag>, got: seq<Tag>, emitted: nat, inc: int, w0: int)
    requires RecvEnd(f, pending, got, emitted, inc, w0)
    ensures |pending| == |got| / inc - emitted
    ensures f.deliverWindow == w0 - f.received - inc * |pending|
  {
    TagsLength(got, inc);
    assert |Auths(pending)| == |pending|;
    DivMod(|got|, inc);
    MulSub(inc, |got| / inc, emitted);
  }

  lemma DeliverWindowValue(s: System, inc: int, w0: int)
    requires Inv(s, inc, w0)
    ensures s.b.received == s.delivered % inc
    ensures s.b.deliverWindow == w0 - s.b.received - inc * |s.pending|
  {
    RecvEndWindow(s.b, s.pending, s.sent[..s.delivered], s.emitted, inc, w0);
  }

  predicate Prompt(e: Event) {
    e.Deliver? ==> e.prompt
  }

  /** When no SENDME waits, the deliver window is short by less than one increment. */
  lemma PromptDeliverWindow(s: System, inc: int, w0: int)
    requires Inv(s, inc, w0) && s.pending == [] && w0 >= inc
    ensures s.b.deliverWindow == w0 - s.delivered % inc > 0
  {
    DeliverWindowValue(s, inc, w0);
    DivMod(s.delivered, inc);
  }

  lemma PromptKeepsEmpty(s: System, e: Event, inc: int, w0: int)
    requires Inv(s, inc, w0) && Tagged(e) && Prompt(e) && s.failure.None? && s.pending == []
    ensures Step(s, e).pending == []
  {
    if e.Deliver? && s.data != [] && s.b.deliverWindow > 0 {
      assert AuthTag(s.data[0]).Some?;
    }
  }

  lemma {:induction false} PromptNeverFails(s: System, es: seq<Event>, inc: int, w0: int)
    requires Inv(s, inc, w0) && s.failure.None? && s.pending == [] && w0 >= inc
    requires AllEventsTagged(es) && forall i :: 0 <= i < |es| ==> Prompt(es[i])
    ensures Run(s, es).failure.None?
    decreases |es|
  {
    if es != [] {
      assert Tagged(es[0]) && Prompt(es[0]);
      PromptDeliverWindow(s, inc, w0);
      StepKeepsInv(s, es[0], inc, w0);
      PromptKeepsEmpty(s, es[0], inc, w0);
      PromptNeverFails(Step(s, es[0]), es[1..], inc, w0);
    }
  }

  /** The next delivery would find the deliver window exhausted: the SENDMEs taken and not
      yet sent, and the cells towards the next one, use up the initial window. */
  predicate Overdrawn(s: System, inc: int, w0: int) {
    s.data != [] && inc * |s.pending| + s.b.received >= w0
  }

  /** With delayed SENDMEs a delivery fails exactly then. */
  lemma DeliverFailsIff(s: System, prompt: bool, inc: int, w0: int)
    requires Inv(s, inc, w0) && s.failure.None?
    ensures Step(s, Deliver(prompt)).failure.Some? <==> Overdrawn(s, inc, w0)
  {
    DeliverKeepsInv(s, prompt, inc, w0);
    DeliverWindowValue(s, inc, w0);
  }

  lemma {:induction false} FailedStays(s: System, es: seq<Event>)
    requires FlowOk(s.a) && s.failure.Some?
    ensures Run(s, es) == s
    decreases |es|
  {
    if es != [] {
      FailedStays(s, es[1..]);
    }
  }

  ghost predicate OverdrawnAt(s: System, es: seq<Event>, i: nat, inc: int, w0: int)
    requires FlowOk(s.a)
  {
    i < |es| && es[i].Deliver? && Overdrawn(Run(s, es[..i]), inc, w0)
  }

  /** A run fails exactly if one of its deliveries meets an overdrawn window. */
  lemma {:induction false} RunFailsIff(s: System, es: seq<Event>, inc: int, w0: int)
    requires Inv(s, inc, w0) && s.failure.None? && AllEventsTagged(es)
    ensures Run(s, es).failure.Some? <==> exists i: nat :: OverdrawnAt(s, es, i, inc, w0)
    decreases |es|
  {
    if es != [] {
      var t, rest := Step(s, es[0]), es[1..];
      assert Tagged(es[0]);
      StepKeepsInv(s, es[0], inc, w0);
      DeliverWindowValue(s, inc, w0);
      assert es[..0] == [];
      assert t.failure.Some? <==> OverdrawnAt(s, es, 0, inc, w0);
      if t.failure.Some? {
        FailedStays(t, rest);
      } else {
        RunFailsIff(t, rest, inc, w0);
        forall i: nat
          ensures OverdrawnAt(t, rest, i, inc, w0) <==> OverdrawnAt(s, es, i + 1, inc, w0)
        {
          if i < |rest| {
            assert es[..i + 1][1..] == rest[..i];
          }
        }
        forall i: nat | OverdrawnAt(s, es, i, inc, w0)
          ensures exists j: nat :: OverdrawnAt(t, rest, j, inc, w0)
        {
          assert OverdrawnAt(t, rest, i - 1, inc, w0);
        }
      }
    }
  }

  /** Each SENDME leaves before the next delivery. */
  ghost predicate SendmesLeaveInTime(s: System, es: seq<Event>)
    requires FlowOk(s.a)
  {
    forall i :: 0 <= i < |es| && es[i].Deliver? ==> Run(s, es[..i]).pending == []
  }

  lemma InTimeNeverOverdrawn(s: System, es: seq<Event>, i: nat, inc: int, w0: int)
    requires Inv(s, inc, w0) && AllEventsTagged(es) && w0 >= inc && SendmesLeaveInTime(s, es)
    ensures !OverdrawnAt(s, es, i, inc, w0)
  {
    if i < |es| && es[i].Deliver? {
      RunKeepsInv(s, es[..i], inc, w0);
      PromptDeliverWindow(Run(s, es[..i]), inc, w0);
      DeliverWindowValue(Run(s, es[..i]), inc, w0);
    }
  }

  /** Congestion-controlled flow, over every run: it fails if and only if some delivery meets
      an overdrawn deliver window, whatever RTTs the sender measures; and it never does when
      each SENDME leaves before the next delivery, as one does that leaves in the step that
      takes it. */
  lemma VegasFlowControl(pa: CCParams, pb: CCParams, inc: int, es: seq<Event>)
    requires InRange(pa) && InRange(pb) && 1 <= inc <= 250 && AllEventsTagged(es)
    ensures FlowOk(VegasStart(pa, pb, inc).a)
    ensures Run(VegasStart(pa, pb, inc), es).failure.Some?
      <==> exists i: nat :: OverdrawnAt(VegasStart(pa, pb, inc), es, i, inc, Max(pb.cwndInit, inc))
    ensures SendmesLeaveInTime(VegasStart(pa, pb, inc), es) ==> Run(VegasStart(pa, pb, inc), es).failure.None?
    ensures (forall i :: 0 <= i < |es| ==> Prompt(es[i])) ==> Run(VegasStart(pa, pb, inc), es).failure.None?
  {
    var s := VegasStart(pa, pb, inc);
    VegasStartInv(pa, pb, inc);
    var w0 := Max(pb.cwndInit, inc);
    RunFailsIff(s, es, inc, w0);
    if SendmesLeaveInTime(s, es) {
      forall i: nat
        ensures !OverdrawnAt(s, es, i, inc, w0)
      {
        InTimeNeverOverdrawn(s, es, i, inc, w0);
      }
    }
    if forall i :: 0 <= i < |es| ==> Prompt(es[i]) {
      PromptNeverFails(s, es, inc, w0);
    }
  }

  /** Each due SENDME leaves from its own goroutine. If a later one overtakes the oldest and
      finds nothing ahead of it, it is accepted exactly when the two tags are equal. */
  lemma OvertakingSendme(s: System, i: nat, m: Sample, inc: int, w0: int)
    requires Inv(s, inc, w0) && s.sendmes == [] && i < |s.pending|
    ensures VegasOk(s.a)
    ensures var r := Acknowledge(s.b, s.pending[i]);
      && r.Ok?
      && (if AuthTag(s.pending[i]) == AuthTag(s.pending[0]) then Accept(s.a, r.value.1, m).Ok?
          else Accept(s.a, r.value.1, m) == Err(DigestMismatch))
  {
    OldestPending(s, inc, w0);
    var oldest, tag := AuthTag(s.pending[0]).value, AuthTag(s.pending[i]).value;
    var body := EncodeSendmeV1(tag).value;
    AcceptIff(s.a, body, m);
    SendmeRoundTrip(oldest, body);
    SendmeRoundTrip(tag, body);
  }

  lemma OldestPending(s: System, inc: int, w0: int)
    requires Inv(s, inc, w0) && s.sendmes == [] && s.pending != []
    ensures s.a.expected != [] && AuthTag(s.pending[0]) == Some(s.a.expected[0])
  {
    var got := s.sent[..s.delivered];
    TagsPrefix(s.sent, s.delivered, inc);
    assert Auths(s.pending)[0] == AuthTag(s.pending[0]).value;
    assert Auths(s.pending)[0] == Tags(got, inc)[s.emitted..][0] == Tags(s.sent, inc)[s.processed];
  }
}
