/** Flow control on top of the onion session. The sender records the tag its own digest
    gives for a DATA cell; the receiver acknowledges, in a cell of the session the other
    way, with the tag its own digest gives; and other cells travel in between, both ways.
    Every such run is a run of the SENDME system, where both ends use one tag and the SENDME
    bodies are handed over as they are. */
module AuthenticatedFlow {
  import opened Arith
  import opened Bytes
  import opened CCParams
  import opened RelayCodec
  import opened SendmeSpec
  import opened Onion
  import S = OnionSession
  import F = SendmeSystem

  datatype Joint = Joint(s: S.Session, f: F.System)

  /** From the sending end: a cell, or a DATA cell refused before it is encrypted, or the next
      cell read, with what is measured should it be a SENDME. From the receiving end: the
      next cell read, the oldest due SENDME sent to a hop, or another cell. */
  datatype Event =
    | Send(cell: S.Cell)
    | Refuse
    | Read(m: Sample)
    | Deliver
    | Emit(dest: nat)
    | SendBack(cell: S.Cell)

  // ---------------------------------------------------------------- relay payloads

  predicate IsData(p: seq<byte>) {
    p != [] && p[0] == RELAY_DATA
  }

  /** The body of a circuit-level SENDME. */
  function SendmeBodyOf(p: seq<byte>): Option<seq<byte>> {
    match DecodeV0(p)
    case Err(_) => None
    case Ok(rc) => if rc.command == RELAY_SENDME && rc.streamId == 0 then Some(rc.data) else None
  }

  function SendmePayload(body: seq<byte>): seq<byte>
    requires |body| <= V0_MAX_DATA
  {
    EncodeV0(RelayCell(RELAY_SENDME, 0, 0, NO_DIGEST, body)).value
  }

  lemma SendmePayloadLaws(body: seq<byte>)
    requires |body| <= V0_MAX_DATA
    ensures SendmeBodyOf(SendmePayload(body)) == Some(body)
  {
    var rc := RelayCell(RELAY_SENDME, 0, 0, NO_DIGEST, body);
    var p, end := SendmePayload(body), V0_HEADER_LEN + |body|;
    V0RoundTrip(rc, p[end..]);
    assert p == p[..end] + p[end..];
  }

  /** The digest field decides neither the kind of a cell nor its body. */
  lemma SameMessage(out: seq<byte>, p: seq<byte>, tag: seq<byte>)
    requires Carries(out, p, tag)
    ensures IsData(out) == IsData(p) && SendmeBodyOf(out) == SendmeBodyOf(p)
  {
    assert out[0] == out[..5][0] && p[0] == p[..5][0];
    assert out[3..5] == out[..5][3..5] && p[3..5] == p[..5][3..5];
    if |p| >= V0_HEADER_LEN {
      SameTail(out, p, 9, 11);
      var n := GetU16(p[9..11]);
      if n <= |p| - V0_HEADER_LEN {
        SameTail(out, p, 11, 11 + n);
      }
    }
  }

  lemma SameTail(out: seq<byte>, p: seq<byte>, i: nat, j: nat)
    requires |out| == |p| >= 9 && out[9..] == p[9..] && 9 <= i <= j <= |p|
    ensures out[i..j] == p[i..j]
  {
    assert out[i..j] == out[9..][i - 9..j - 9] && p[i..j] == p[9..][i - 9..j - 9];
  }

  // ---------------------------------------------------------------- the steps

  function SendStep(j: Joint, c: S.Cell): Joint
    requires F.FlowOk(j.f.a)
  {
    match Encrypt(j.s.a.hops, c.dest, c.payload)
    case OutOfRange => j
    case Encrypted(_, _, tag) =>
      if !IsData(c.payload) then j.(s := S.Step(j.s, S.SendA(c)))
      else if Reserve(j.f.a).None? then j
      else Joint(S.Step(j.s, S.SendA(c)), F.Step(j.f, F.Send(tag, true)))
  }

  /** A reservation that is refunded; no tag is involved. */
  function RefuseStep(j: Joint): Joint
    requires F.FlowOk(j.f.a)
  {
    j.(f := F.Step(j.f, RefusedSend()))
  }

  function RefusedSend(): F.Event {
    F.Send(Zeros(SENDME_V1_DIGEST_LEN), false)
  }

  function DeliverStep(j: Joint): Joint {
    if j.s.b.inbox == [] then j
    else
      var r := Decrypt(j.s.b.hops, j.s.b.inbox[0]);
      if !IsData(r.out) || j.f.data == [] then j.(s := S.Step(j.s, S.RecvB))
      else if Take(j.f.b).None? then j.(f := F.DeliverTag(j.f, r.tag, false))
      else Joint(S.Step(j.s, S.RecvB), F.DeliverTag(j.f, r.tag, false))
  }

  /** The cell that acknowledges the oldest DATA cell due. */
  function DueCell(f: F.System, dest: nat): Option<S.Cell> {
    if f.pending == [] then None
    else
      match AuthTag(f.pending[0])
      case None => None
      case Some(tag) => Some(S.Cell(dest, SendmePayload(EncodeSendmeV1(tag).value)))
  }

  function EmitStep(j: Joint, dest: nat): Joint
    requires F.FlowOk(j.f.a)
  {
    match DueCell(j.f, dest)
    case None => j.(f := F.Step(j.f, F.Emit))
    case Some(c) => Joint(S.Step(j.s, S.SendB(c)), F.Step(j.f, F.Emit))
  }

  function ReadStep(j: Joint, m: Sample): Joint
    requires F.FlowOk(j.f.a)
  {
    if j.s.a.inbox == [] then j
    else
      var r := Decrypt(j.s.a.hops, j.s.a.inbox[0]);
      var body := SendmeBodyOf(r.out);
      if body.None? || j.f.sendmes == [] then j.(s := S.Step(j.s, S.RecvA))
      else if Accept(j.f.a, body.value, m).Err? then j.(f := F.ProcessBody(j.f, body.value, m))
      else Joint(S.Step(j.s, S.RecvA), F.ProcessBody(j.f, body.value, m))
  }

  function Step(j: Joint, e: Event): Joint
    requires F.FlowOk(j.f.a)
  {
    if j.f.failure.Some? then j
    else
      match e
      case Send(c) => SendStep(j, c)
      case Refuse => RefuseStep(j)
      case Read(m) => ReadStep(j, m)
      case Deliver => DeliverStep(j)
      case Emit(dest) => EmitStep(j, dest)
      case SendBack(c) => j.(s := S.Step(j.s, S.SendB(c)))
  }

  /** Every cell sent is one its destination recognises and no earlier hop does, and only the
      flow control of the receiving end sends circuit-level SENDMEs. */
  ghost predicate CleanStep(j: Joint, e: Event) {
    match e
    case Send(c) => S.Clean(j.s.a, c)
    case SendBack(c) => S.Clean(j.s.b, c) && SendmeBodyOf(c.payload).None?
    case Emit(dest) => var c := DueCell(j.f, dest); c.Some? ==> S.Clean(j.s.b, c.value)
    case _ => true
  }

  // ---------------------------------------------------------------- channels within the session

  /** What a way of looking at cells finds among those sent, in order. */
  function Picked(sent: seq<S.Sent>, pick: S.Sent -> Option<seq<byte>>): seq<seq<byte>> {
    if sent == [] then []
    else Picked(sent[..|sent| - 1], pick) + AsSeq(pick(sent[|sent| - 1]))
  }

  function AsSeq(x: Option<seq<byte>>): seq<seq<byte>> {
    if x.None? then [] else [x.value]
  }

  function DataTag(x: S.Sent): Option<seq<byte>> {
    if IsData(x.cell.payload) then Some(x.tag) else None
  }

  function SendmeIn(x: S.Sent): Option<seq<byte>> {
    SendmeBodyOf(x.cell.payload)
  }

  lemma PickedSnoc(sent: seq<S.Sent>, pick: S.Sent -> Option<seq<byte>>, x: S.Sent)
    ensures Picked(sent + [x], pick) == Picked(sent, pick) + AsSeq(pick(x))
  {
    assert (sent + [x])[..|sent|] == sent;
  }

  lemma {:induction false} PickedPrefix(sent: seq<S.Sent>, pick: S.Sent -> Option<seq<byte>>, k: nat)
    requires k <= |sent|
    ensures Picked(sent[..k], pick) <= Picked(sent, pick)
    decreases |sent|
  {
    if k < |sent| {
      var before := sent[..|sent| - 1];
      PickedPrefix(before, pick, k);
      assert before[..k] == sent[..k];
    } else {
      assert sent[..k] == sent;
    }
  }

  /** `channel` is what is found among the cells sent and not yet read. */
  ghost predicate Holds(sent: seq<S.Sent>, count: nat, pick: S.Sent -> Option<seq<byte>>, channel: seq<seq<byte>>) {
    count <= |sent| && Picked(sent, pick) == Picked(sent[..count], pick) + channel
  }

  lemma HoldsSend(sent: seq<S.Sent>, count: nat, pick: S.Sent -> Option<seq<byte>>, channel: seq<seq<byte>>, x: S.Sent)
    requires Holds(sent, count, pick, channel)
    ensures Holds(sent + [x], count, pick, channel + AsSeq(pick(x)))
  {
    PickedSnoc(sent, pick, x);
    assert (sent + [x])[..count] == sent[..count];
  }

  lemma HoldsRead(sent: seq<S.Sent>, count: nat, pick: S.Sent -> Option<seq<byte>>, channel: seq<seq<byte>>)
    requires Holds(sent, count, pick, channel) && count < |sent|
    ensures var x := pick(sent[count]);
      if x.None? then Holds(sent, count + 1, pick, channel)
      else channel != [] && channel[0] == x.value && Holds(sent, count + 1, pick, channel[1..])
  {
    var p, x := Picked(sent[..count], pick), pick(sent[count]);
    assert sent[..count + 1] == sent[..count] + [sent[count]];
    PickedSnoc(sent[..count], pick, sent[count]);
    PickedPrefix(sent, pick, count + 1);
    if x.Some? {
      ChannelHead(p, x.value, channel);
    } else {
      assert p + [] == p;
    }
  }

  lemma ChannelHead(p: seq<seq<byte>>, x: seq<byte>, channel: seq<seq<byte>>)
    requires p + [x] <= p + channel
    ensures channel != [] && channel[0] == x && p + channel == (p + [x]) + channel[1..]
  {
    assert (p + channel)[|p|] == (p + [x])[|p|];
    assert channel == [x] + channel[1..];
    assert p + ([x] + channel[1..]) == (p + [x]) + channel[1..];
  }

  // ---------------------------------------------------------------- the simulation

  /** The data channel of the SENDME system is the tags of the DATA cells on their way, and its
      SENDME channel the bodies of the SENDMEs on theirs. */
  ghost predicate Tracks(s: S.Session, f: F.System) {
    && Holds(s.a.sent, |s.b.read|, DataTag, f.data)
    && Holds(s.b.sent, |s.a.read|, SendmeIn, f.sendmes)
    && f.sent == Picked(s.a.sent, DataTag)
  }

  /** Tags of tor1 hops. */
  predicate LongTags(tags: seq<seq<byte>>) {
    forall i :: 0 <= i < |tags| ==> |tags[i]| >= 20
  }

  ghost predicate Related(j: Joint) {
    S.Inv(j.s) && F.FlowOk(j.f.a) && Tracks(j.s, j.f) && LongTags(j.f.sent)
  }

  /** One step of both layers is no step or one of the SENDME system. */
  ghost predicate Matched(j: Joint, t: Joint, fs: seq<F.Event>) {
    && F.FlowOk(j.f.a) && Related(t)
    && F.AllEventsTagged(fs) && t.f == F.Run(j.f, fs)
  }

  lemma MatchedNone(j: Joint, t: Joint)
    requires F.FlowOk(j.f.a) && Related(t) && t.f == j.f
    ensures Matched(j, t, [])
  {
  }

  lemma MatchedOne(j: Joint, t: Joint, e: F.Event)
    requires F.FlowOk(j.f.a) && Related(t) && t.f == F.Step(j.f, e) && F.Tagged(e)
    ensures Matched(j, t, [e])
  {
    OneStep(j.f, e);
  }

  lemma OneStep(f: F.System, e: F.Event)
    requires F.FlowOk(f.a)
    ensures F.Run(f, [e]) == F.Step(f, e) && F.FlowOk(F.Step(f, e).a)
  {
    F.StepKeepsFlowOk(f, e);
    assert [e][1..] == [];
    assert F.Run(f, [e]) == F.Run(F.Step(f, e), []);
  }

  /** What a clean send does to the session, from either end. */
  lemma SessionSend(me: S.Party, you: S.Party, c: S.Cell)
    requires S.Lane(me, you) && S.Lane(you, me) && S.Clean(me, c)
    ensures var x, (me', you') := Encrypt(me.hops, c.dest, c.payload), S.Send(me, you, c);
      && x.Encrypted? && |x.tag| >= 20
      && S.Lane(me', you') && S.Lane(you', me')
      && me'.sent == me.sent + [S.Sent(c, x.tag)] && me'.read == me.read
      && you'.sent == you.sent && you'.read == you.read
  {
    S.SendKeepsLanes(me, you, c);
    FilledIsRecognized(me.hops[c.dest].fwdDigest.value, c.payload);
  }

  /** What reading does to the session, from either end: the oldest unread cell, of the kind
      and with the body and the tag it was sent with. */
  lemma SessionRead(me: S.Party, you: S.Party)
    requires S.Lane(me, you) && S.Lane(you, me) && me.inbox != []
    ensures |me.read| < |you.sent|
    ensures var r, x := Decrypt(me.hops, me.inbox[0]), you.sent[|me.read|];
      r.tag == x.tag && IsData(r.out) == IsData(x.cell.payload) && SendmeBodyOf(r.out) == SendmeBodyOf(x.cell.payload)
    ensures S.Lane(S.Receive(me), you) && S.Lane(you, S.Receive(me))
    ensures S.Receive(me).sent == me.sent && |S.Receive(me).read| == |me.read| + 1
  {
    var r, x := Decrypt(me.hops, me.inbox[0]), you.sent[|me.read|..][0];
    assert S.Matches(S.Read(r.hop, r.out, r.tag), x);
    SameMessage(r.out, x.cell.payload, r.tag);
    S.ReceiveKeepsLanes(me, you);
  }

  lemma SomethingUnread(me: S.Party, you: S.Party)
    requires S.Lane(you, me) && me.inbox != []
    ensures |me.read| < |you.sent|
  {
  }

  // Sending from the sending end.

  lemma FlowSend(f: F.System, tag: seq<byte>)
    requires F.FlowOk(f.a) && f.failure.None? && Reserve(f.a).Some?
    ensures var g := F.Step(f, F.Send(tag, true));
      g.sent == f.sent + [tag] && g.data == f.data + [tag] && g.sendmes == f.sendmes
  {
  }

  lemma TracksSend(s: S.Session, f: F.System, t: S.Session, x: S.Sent, g: F.System)
    requires Tracks(s, f) && t.a.sent == s.a.sent + [x] && t.b.read == s.b.read && t.b.sent == s.b.sent && t.a.read == s.a.read
    requires g.sendmes == f.sendmes && g.data == f.data + AsSeq(DataTag(x)) && g.sent == f.sent + AsSeq(DataTag(x))
    ensures Tracks(t, g)
  {
    HoldsSend(s.a.sent, |s.b.read|, DataTag, f.data, x);
    PickedSnoc(s.a.sent, DataTag, x);
  }

  lemma DataSendShape(j: Joint, c: S.Cell)
    requires F.FlowOk(j.f.a) && IsData(c.payload) && Reserve(j.f.a).Some?
    requires Encrypt(j.s.a.hops, c.dest, c.payload).Encrypted?
    ensures SendStep(j, c) == Joint(S.Step(j.s, S.SendA(c)),
                                    F.Step(j.f, F.Send(Encrypt(j.s.a.hops, c.dest, c.payload).tag, true)))
  {
  }

  lemma DataSent(j: Joint, c: S.Cell)
    requires Related(j) && j.f.failure.None? && S.Clean(j.s.a, c) && IsData(c.payload) && Reserve(j.f.a).Some?
    ensures var x := Encrypt(j.s.a.hops, c.dest, c.payload);
      && x.Encrypted? && F.Tagged(F.Send(x.tag, true))
      && Related(SendStep(j, c)) && SendStep(j, c).f == F.Step(j.f, F.Send(x.tag, true))
  {
    SessionSend(j.s.a, j.s.b, c);
    DataSendShape(j, c);
    var tag := Encrypt(j.s.a.hops, c.dest, c.payload).tag;
    OneStep(j.f, F.Send(tag, true));
    SendTracks(j.s, j.f, S.Step(j.s, S.SendA(c)), S.Sent(c, tag));
  }

  lemma SendTracks(s: S.Session, f: F.System, t: S.Session, x: S.Sent)
    requires Tracks(s, f) && LongTags(f.sent) && F.FlowOk(f.a) && f.failure.None? && Reserve(f.a).Some?
    requires IsData(x.cell.payload) && |x.tag| >= 20
    requires t.a.sent == s.a.sent + [x] && t.b.read == s.b.read && t.b.sent == s.b.sent && t.a.read == s.a.read
    ensures var g := F.Step(f, F.Send(x.tag, true)); Tracks(t, g) && LongTags(g.sent)
  {
    FlowSend(f, x.tag);
    TracksSend(s, f, t, x, F.Step(f, F.Send(x.tag, true)));
  }

  lemma OtherSent(j: Joint, c: S.Cell)
    requires Related(j) && S.Clean(j.s.a, c) && !IsData(c.payload)
    ensures Related(SendStep(j, c)) && SendStep(j, c).f == j.f
  {
    var x := Encrypt(j.s.a.hops, c.dest, c.payload);
    SessionSend(j.s.a, j.s.b, c);
    assert j.f.data + [] == j.f.data && j.f.sent + [] == j.f.sent;
    TracksSend(j.s, j.f, S.Step(j.s, S.SendA(c)), S.Sent(c, x.tag), j.f);
  }

  lemma SendMatched(j: Joint, c: S.Cell) returns (fs: seq<F.Event>)
    requires Related(j) && j.f.failure.None? && S.Clean(j.s.a, c)
    ensures Matched(j, SendStep(j, c), fs)
  {
    if !IsData(c.payload) {
      OtherSent(j, c);
      fs := [];
      MatchedNone(j, SendStep(j, c));
    } else if Reserve(j.f.a).None? {
      assert SendStep(j, c) == j;
      fs := [];
      MatchedNone(j, j);
    } else {
      DataSent(j, c);
      var e := F.Send(Encrypt(j.s.a.hops, c.dest, c.payload).tag, true);
      fs := [e];
      MatchedOne(j, SendStep(j, c), e);
    }
  }

  lemma RefuseMatched(j: Joint) returns (fs: seq<F.Event>)
    requires Related(j) && j.f.failure.None?
    ensures Matched(j, RefuseStep(j), fs)
  {
    OneStep(j.f, RefusedSend());
    fs := [RefusedSend()];
  }

  // Reading at the receiving end.

  lemma TracksDeliver(s: S.Session, f: F.System, t: S.Session, g: F.System)
    requires Tracks(s, f) && |s.b.read| < |s.a.sent|
    requires t.a == s.a && t.b.sent == s.b.sent && |t.b.read| == |s.b.read| + 1
    requires g.sendmes == f.sendmes && g.sent == f.sent
    requires if DataTag(s.a.sent[|s.b.read|]).Some? then f.data != [] && g.data == f.data[1..] else g.data == f.data
    ensures Tracks(t, g)
  {
    HoldsRead(s.a.sent, |s.b.read|, DataTag, f.data);
  }

  lemma FlowDeliver(f: F.System)
    requires F.FlowOk(f.a) && f.failure.None? && f.data != []
    ensures var g := F.Step(f, F.Deliver(false));
      && g.sent == f.sent && g.sendmes == f.sendmes
      && (if Take(f.b).None? then g == f.(failure := Some(F.DeliverExhausted)) else g.data == f.data[1..])
  {
  }

  lemma DataReadShape(j: Joint)
    requires F.FlowOk(j.f.a) && j.f.failure.None? && j.s.b.inbox != [] && j.f.data != []
    requires var r := Decrypt(j.s.b.hops, j.s.b.inbox[0]); IsData(r.out) && r.tag == j.f.data[0]
    ensures DeliverStep(j) == Joint(if Take(j.f.b).None? then j.s else S.Step(j.s, S.RecvB),
                                    F.Step(j.f, F.Deliver(false)))
  {
  }

  lemma DeliverTracks(s: S.Session, f: F.System, t: S.Session)
    requires Tracks(s, f) && F.FlowOk(f.a) && f.failure.None? && f.data != []
    requires |s.b.read| < |s.a.sent| && DataTag(s.a.sent[|s.b.read|]).Some?
    requires t.a == s.a && t.b.sent == s.b.sent && |t.b.read| == |s.b.read| + 1
    ensures Tracks(if Take(f.b).None? then s else t, F.Step(f, F.Deliver(false)))
  {
    FlowDeliver(f);
    if Take(f.b).Some? {
      TracksDeliver(s, f, t, F.Step(f, F.Deliver(false)));
    }
  }

  lemma DataMatched(j: Joint)
    requires Related(j) && j.f.failure.None? && j.s.b.inbox != []
    requires |j.s.b.read| < |j.s.a.sent| && DataTag(j.s.a.sent[|j.s.b.read|]).Some?
    ensures Related(DeliverStep(j)) && DeliverStep(j).f == F.Step(j.f, F.Deliver(false))
  {
    SessionRead(j.s.b, j.s.a);
    HoldsRead(j.s.a.sent, |j.s.b.read|, DataTag, j.f.data);
    DataReadShape(j);
    OneStep(j.f, F.Deliver(false));
    DeliverTracks(j.s, j.f, S.Step(j.s, S.RecvB));
  }

  lemma OtherDelivered(j: Joint)
    requires Related(j) && j.s.b.inbox != []
    requires |j.s.b.read| < |j.s.a.sent| && DataTag(j.s.a.sent[|j.s.b.read|]).None?
    ensures Related(DeliverStep(j)) && DeliverStep(j).f == j.f
  {
    SessionRead(j.s.b, j.s.a);
    TracksDeliver(j.s, j.f, S.Step(j.s, S.RecvB), j.f);
  }

  lemma DeliverMatched(j: Joint) returns (fs: seq<F.Event>)
    requires Related(j) && j.f.failure.None?
    ensures Matched(j, DeliverStep(j), fs)
  {
    if j.s.b.inbox == [] {
      fs := [];
      MatchedNone(j, j);
    } else {
      SomethingUnread(j.s.b, j.s.a);
      if DataTag(j.s.a.sent[|j.s.b.read|]).Some? {
        DataMatched(j);
        fs := [F.Deliver(false)];
        MatchedOne(j, DeliverStep(j), F.Deliver(false));
      } else {
        OtherDelivered(j);
        fs := [];
        MatchedNone(j, DeliverStep(j));
      }
    }
  }

  // Sending from the receiving end.

  lemma TracksBack(s: S.Session, f: F.System, t: S.Session, x: S.Sent, g: F.System)
    requires Tracks(s, f) && t.b.sent == s.b.sent + [x] && t.a.read == s.a.read && t.a.sent == s.a.sent && t.b.read == s.b.read
    requires g.data == f.data && g.sent == f.sent && g.sendmes == f.sendmes + AsSeq(SendmeIn(x))
    ensures Tracks(t, g)
  {
    HoldsSend(s.b.sent, |s.a.read|, SendmeIn, f.sendmes, x);
  }

  lemma FlowEmit(f: F.System)
    requires F.FlowOk(f.a) && f.failure.None?
    ensures var g := F.Step(f, F.Emit);
      && g.sent == f.sent && g.data == f.data
      && (if f.pending != [] && AuthTag(f.pending[0]).Some?
          then g.sendmes == f.sendmes + [EncodeSendmeV1(AuthTag(f.pending[0]).value).value]
          else g.sendmes == f.sendmes)
  {
  }

  lemma EmitMatched(j: Joint, dest: nat) returns (fs: seq<F.Event>)
    requires Related(j) && j.f.failure.None? && CleanStep(j, Emit(dest))
    ensures Matched(j, EmitStep(j, dest), fs)
  {
    FlowEmit(j.f);
    OneStep(j.f, F.Emit);
    fs := [F.Emit];
    var due := DueCell(j.f, dest);
    if due.Some? {
      var x := Encrypt(j.s.b.hops, due.value.dest, due.value.payload);
      SendmePayloadLaws(EncodeSendmeV1(AuthTag(j.f.pending[0]).value).value);
      SessionSend(j.s.b, j.s.a, due.value);
      TracksBack(j.s, j.f, S.Step(j.s, S.SendB(due.value)), S.Sent(due.value, x.tag), F.Step(j.f, F.Emit));
    }
  }

  lemma SendBackMatched(j: Joint, c: S.Cell)
    requires Related(j) && CleanStep(j, SendBack(c))
    ensures Related(j.(s := S.Step(j.s, S.SendB(c))))
  {
    var x := Encrypt(j.s.b.hops, c.dest, c.payload);
    SessionSend(j.s.b, j.s.a, c);
    assert j.f.sendmes + [] == j.f.sendmes;
    TracksBack(j.s, j.f, S.Step(j.s, S.SendB(c)), S.Sent(c, x.tag), j.f);
  }

  // Reading at the sending end.

  lemma TracksRead(s: S.Session, f: F.System, t: S.Session, g: F.System)
    requires Tracks(s, f) && |s.a.read| < |s.b.sent|
    requires t.b == s.b && t.a.sent == s.a.sent && |t.a.read| == |s.a.read| + 1
    requires g.data == f.data && g.sent == f.sent
    requires if SendmeIn(s.b.sent[|s.a.read|]).Some? then f.sendmes != [] && g.sendmes == f.sendmes[1..]
             else g.sendmes == f.sendmes
    ensures Tracks(t, g)
  {
    HoldsRead(s.b.sent, |s.a.read|, SendmeIn, f.sendmes);
  }

  lemma FlowProcess(f: F.System, m: Sample)
    requires F.FlowOk(f.a) && f.failure.None? && f.sendmes != []
    ensures var g := F.Step(f, F.Process(m));
      && g.sent == f.sent && g.data == f.data
      && (if Accept(f.a, f.sendmes[0], m).Ok? then g.sendmes == f.sendmes[1..] else g == f.(failure := g.failure))
  {
  }

  lemma SendmeReadShape(j: Joint, m: Sample)
    requires F.FlowOk(j.f.a) && j.f.failure.None? && j.s.a.inbox != [] && j.f.sendmes != []
    requires SendmeBodyOf(Decrypt(j.s.a.hops, j.s.a.inbox[0]).out) == Some(j.f.sendmes[0])
    ensures ReadStep(j, m) == Joint(if Accept(j.f.a, j.f.sendmes[0], m).Err? then j.s else S.Step(j.s, S.RecvA),
                                    F.Step(j.f, F.Process(m)))
  {
  }

  lemma SendmeMatched(j: Joint, m: Sample)
    requires Related(j) && j.f.failure.None? && j.s.a.inbox != []
    requires |j.s.a.read| < |j.s.b.sent| && SendmeIn(j.s.b.sent[|j.s.a.read|]).Some?
    ensures Related(ReadStep(j, m)) && ReadStep(j, m).f == F.Step(j.f, F.Process(m))
  {
    SessionRead(j.s.a, j.s.b);
    HoldsRead(j.s.b.sent, |j.s.a.read|, SendmeIn, j.f.sendmes);
    SendmeReadShape(j, m);
    OneStep(j.f, F.Process(m));
    ProcessTracks(j.s, j.f, S.Step(j.s, S.RecvA), m);
  }

  lemma ProcessTracks(s: S.Session, f: F.System, t: S.Session, m: Sample)
    requires Tracks(s, f) && F.FlowOk(f.a) && f.failure.None? && f.sendmes != []
    requires |s.a.read| < |s.b.sent| && SendmeIn(s.b.sent[|s.a.read|]).Some?
    requires t.b == s.b && t.a.sent == s.a.sent && |t.a.read| == |s.a.read| + 1
    ensures Tracks(if Accept(f.a, f.sendmes[0], m).Err? then s else t, F.Step(f, F.Process(m)))
  {
    FlowProcess(f, m);
    if Accept(f.a, f.sendmes[0], m).Ok? {
      TracksRead(s, f, t, F.Step(f, F.Process(m)));
    }
  }

  lemma OtherRead(j: Joint, m: Sample)
    requires Related(j) && j.s.a.inbox != []
    requires |j.s.a.read| < |j.s.b.sent| && SendmeIn(j.s.b.sent[|j.s.a.read|]).None?
    ensures Related(ReadStep(j, m)) && ReadStep(j, m).f == j.f
  {
    SessionRead(j.s.a, j.s.b);
    TracksRead(j.s, j.f, S.Step(j.s, S.RecvA), j.f);
  }

  lemma ReadMatched(j: Joint, m: Sample) returns (fs: seq<F.Event>)
    requires Related(j) && j.f.failure.None?
    ensures Matched(j, ReadStep(j, m), fs)
  {
    if j.s.a.inbox == [] {
      fs := [];
      MatchedNone(j, j);
    } else {
      SomethingUnread(j.s.a, j.s.b);
      if SendmeIn(j.s.b.sent[|j.s.a.read|]).Some? {
        SendmeMatched(j, m);
        fs := [F.Process(m)];
        MatchedOne(j, ReadStep(j, m), F.Process(m));
      } else {
        OtherRead(j, m);
        fs := [];
        MatchedNone(j, ReadStep(j, m));
      }
    }
  }

  lemma StepMatched(j: Joint, e: Event) returns (fs: seq<F.Event>)
    requires Related(j) && CleanStep(j, e)
    ensures Matched(j, Step(j, e), fs)
  {
    fs := [];
    if j.f.failure.None? {
      match e
      case Send(c) => fs := SendMatched(j, c);
      case Refuse => fs := RefuseMatched(j);
      case Read(m) => fs := ReadMatched(j, m);
      case Deliver => fs := DeliverMatched(j);
      case Emit(dest) => fs := EmitMatched(j, dest);
      case SendBack(c) => SendBackMatched(j, c);
    }
  }

  // ---------------------------------------------------------------- runs

  lemma StepKeepsFlowOk(j: Joint, e: Event)
    requires F.FlowOk(j.f.a)
    ensures F.FlowOk(Step(j, e).f.a)
  {
    match e
    case Send(c) =>
      var x := Encrypt(j.s.a.hops, c.dest, c.payload);
      if x.Encrypted? {
        F.StepKeepsFlowOk(j.f, F.Send(x.tag, true));
      }
    case Refuse => F.StepKeepsFlowOk(j.f, RefusedSend());
    case Read(m) => ReadKeepsFlowOk(j, m);
    case Deliver =>
    case Emit(_) => F.StepKeepsFlowOk(j.f, F.Emit);
    case SendBack(_) =>
  }

  lemma ReadKeepsFlowOk(j: Joint, m: Sample)
    requires F.FlowOk(j.f.a)
    ensures F.FlowOk(ReadStep(j, m).f.a)
  {
    if j.s.a.inbox != [] && j.f.sendmes != [] {
      var body := SendmeBodyOf(Decrypt(j.s.a.hops, j.s.a.inbox[0]).out);
      if body.Some? {
        var g := j.f.(sendmes := [body.value] + j.f.sendmes[1..], failure := None);
        F.StepKeepsFlowOk(g, F.Process(m));
        assert F.Step(g, F.Process(m)).a == F.ProcessBody(j.f, body.value, m).a;
      }
    }
  }

  function Run(j: Joint, es: seq<Event>): Joint
    requires F.FlowOk(j.f.a)
    decreases |es|
  {
    if es == [] then j
    else
      StepKeepsFlowOk(j, es[0]);
      Run(Step(j, es[0]), es[1..])
  }

  ghost predicate CleanRun(j: Joint, es: seq<Event>)
    requires F.FlowOk(j.f.a)
    decreases |es|
  {
    es != [] ==> CleanStep(j, es[0]) && (StepKeepsFlowOk(j, es[0]); CleanRun(Step(j, es[0]), es[1..]))
  }

  /** Every run of both layers together is, for flow control, a run of the SENDME system. */
  lemma {:induction false} Refines(j: Joint, es: seq<Event>) returns (fs: seq<F.Event>)
    requires Related(j) && CleanRun(j, es)
    ensures Matched(j, Run(j, es), fs)
    decreases |es|
  {
    if es == [] {
      fs := [];
    } else {
      var first := StepMatched(j, es[0]);
      var rest := Refines(Step(j, es[0]), es[1..]);
      F.RunConcat(j.f, first, rest);
      fs := first + rest;
    }
  }

  function Start(a: seq<Hop>, b: seq<Hop>, f: F.System): Joint {
    Joint(S.Start(a, b), f)
  }

  /** So on the classic window, between mirrored ends, no run ever fails: no deliver window
      runs out and no SENDME is refused, though each end uses only its own digests and every
      cell, SENDMEs included, is encrypted; what was read is what was sent; and every SENDME
      carries 20 bytes of tag. */
  lemma ClassicEndToEnd(a: seq<Hop>, b: seq<Hop>, es: seq<Event>)
    requires Mirrored(a, b) && Mirrored(b, a) && CleanRun(Start(a, b, F.ClassicStart()), es)
    ensures var j := Run(Start(a, b, F.ClassicStart()), es);
      && j.f.failure.None?
      && S.ReadAsSent(j.s.b.read, j.s.a.sent) && S.ReadAsSent(j.s.a.read, j.s.b.sent)
      && j.f.sent == Picked(j.s.a.sent, DataTag)
      && (forall i :: 0 <= i < |j.f.sendmes| ==> F.Tor1Body(j.f.sendmes[i]))
  {
    var fs := Refines(Start(a, b, F.ClassicStart()), es);
    F.ClassicFlowControl(fs);
    F.ClassicStartInv();
    F.RunKeepsInv(F.ClassicStart(), fs, CLASSIC_INCREMENT, CLASSIC_WINDOW);
    F.Tor1Tags(Run(Start(a, b, F.ClassicStart()), es).f, CLASSIC_INCREMENT, CLASSIC_WINDOW);
  }

  /** Under congestion control the only failure is an exhausted deliver window; no SENDME is
      ever refused. */
  lemma VegasEndToEnd(a: seq<Hop>, b: seq<Hop>, pa: CCParams, pb: CCParams, inc: int, es: seq<Event>)
    requires Mirrored(a, b) && Mirrored(b, a)
    requires InRange(pa) && InRange(pb) && 1 <= inc <= 250
    requires F.FlowOk(F.VegasStart(pa, pb, inc).a) && CleanRun(Start(a, b, F.VegasStart(pa, pb, inc)), es)
    ensures var j := Run(Start(a, b, F.VegasStart(pa, pb, inc)), es);
      && (j.f.failure.Some? ==> j.f.failure.value == F.DeliverExhausted)
      && S.ReadAsSent(j.s.b.read, j.s.a.sent) && S.ReadAsSent(j.s.a.read, j.s.b.sent)
      && (forall i :: 0 <= i < |j.f.sendmes| ==> F.Tor1Body(j.f.sendmes[i]))
  {
    var f := F.VegasStart(pa, pb, inc);
    var fs := Refines(Start(a, b, f), es);
    F.VegasStartInv(pa, pb, inc);
    F.TagLaw(f, fs, inc, Max(pb.cwndInit, inc));
    F.RunKeepsInv(f, fs, inc, Max(pb.cwndInit, inc));
    F.Tor1Tags(Run(Start(a, b, f), es).f, inc, Max(pb.cwndInit, inc));
  }
}
