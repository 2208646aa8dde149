/** Two ends that mirror each other, sending cells both ways at once over two FIFO channels.
    Whatever the interleaving, each cell is read as it was sent and with the same tag. */
module OnionSession {
  import opened Bytes
  import opened Onion

  datatype Cell = Cell(dest: nat, payload: seq<byte>)

  datatype Sent = Sent(cell: Cell, tag: seq<byte>)

  datatype Read = Read(hop: int, out: seq<byte>, tag: seq<byte>)

  /** One end: its hops, what is on its way to it, and its history. */
  datatype Party = Party(hops: seq<Hop>, inbox: seq<seq<byte>>, sent: seq<Sent>, read: seq<Read>)

  datatype Session = Session(a: Party, b: Party)

  datatype Event = SendA(cell: Cell) | SendB(cell: Cell) | RecvA | RecvB

  /** Both ends after `me` sends a cell. */
  function Send(me: Party, you: Party, c: Cell): (Party, Party) {
    match Encrypt(me.hops, c.dest, c.payload)
    case OutOfRange => (me, you)
    case Encrypted(hops, out, tag) =>
      (me.(hops := hops, sent := me.sent + [Sent(c, tag)]), you.(inbox := you.inbox + [out]))
  }

  function Receive(me: Party): Party {
    if me.inbox == [] then me
    else
      var r := Decrypt(me.hops, me.inbox[0]);
      me.(hops := r.hops, inbox := me.inbox[1..], read := me.read + [Read(r.hop, r.out, r.tag)])
  }

  function Step(s: Session, e: Event): Session {
    match e
    case SendA(c) => var (a, b) := Send(s.a, s.b, c); Session(a, b)
    case SendB(c) => var (b, a) := Send(s.b, s.a, c); Session(a, b)
    case RecvA => s.(a := Receive(s.a))
    case RecvB => s.(b := Receive(s.b))
  }

  function Run(s: Session, es: seq<Event>): Session
    decreases |es|
  {
    if es == [] then s else Run(Step(s, es[0]), es[1..])
  }

  function Start(a: seq<Hop>, b: seq<Hop>): Session {
    Session(Party(a, [], [], []), Party(b, [], [], []))
  }

  /** A cell that its destination will recognise and no earlier hop will. */
  ghost predicate Clean(me: Party, c: Cell) {
    Sendable(me.hops, c.dest, c.payload) && NoAccident(me.hops, c.dest, c.payload)
  }

  ghost predicate CleanStep(s: Session, e: Event) {
    match e
    case SendA(c) => Clean(s.a, c)
    case SendB(c) => Clean(s.b, c)
    case _ => true
  }

  ghost predicate CleanRun(s: Session, es: seq<Event>)
    decreases |es|
  {
    es != [] ==> CleanStep(s, es[0]) && CleanRun(Step(s, es[0]), es[1..])
  }

  // ---------------------------------------------------------------- the invariant

  /** A cell read where it was sent, with its payload and its sender's tag. */
  predicate Matches(r: Read, s: Sent) {
    r.hop == s.cell.dest && r.tag == s.tag && |r.tag| >= 20 && Carries(r.out, s.cell.payload, r.tag)
  }

  /** Read one after another, the cells in flight come out as they were sent and leave the
      two ends in step. */
  ghost predicate InFlight(x: seq<Hop>, y: seq<Hop>, wire: seq<seq<byte>>, sent: seq<Sent>)
    decreases |wire|
  {
    if wire == [] then sent == [] && Mirrored(x, y)
    else
      var r := Decrypt(y, wire[0]);
      && sent != []
      && Matches(Read(r.hop, r.out, r.tag), sent[0])
      && InFlight(x, r.hops, wire[1..], sent[1..])
  }

  ghost predicate ReadAsSent(read: seq<Read>, sent: seq<Sent>) {
    |read| <= |sent| && forall i :: 0 <= i < |read| ==> Matches(read[i], sent[i])
  }

  /** One direction, from x to y. */
  ghost predicate Lane(x: Party, y: Party) {
    ReadAsSent(y.read, x.sent) && InFlight(x.hops, y.hops, y.inbox, x.sent[|y.read|..])
  }

  ghost predicate Inv(s: Session) {
    Lane(s.a, s.b) && Lane(s.b, s.a)
  }

  // ---------------------------------------------------------------- what each direction depends on

  ghost predicate SameForward(x: seq<Hop>, x': seq<Hop>) {
    |x| == |x'| && forall k :: 0 <= k < |x| ==> x[k].fwdCipher == x'[k].fwdCipher && x[k].fwdDigest == x'[k].fwdDigest
  }

  ghost predicate SameBackward(y: seq<Hop>, y': seq<Hop>) {
    |y| == |y'| && forall k :: 0 <= k < |y| ==> y[k].bwdCipher == y'[k].bwdCipher && y[k].bwdDigest == y'[k].bwdDigest
  }

  lemma {:induction false} PeelFrame(y: seq<Hop>, y': seq<Hop>, i: nat, buf: seq<byte>)
    requires SameBackward(y, y') && i <= |y|
    ensures var r, r' := Peel(y, i, buf), Peel(y', i, buf);
      SameBackward(r.hops, r'.hops) && r.out == r'.out && r.hop == r'.hop && r.tag == r'.tag
    decreases |y| - i
  {
    if i < |y| {
      var out := Xored(y[i].bwdCipher, buf);
      if !Recognized(y[i].bwdDigest, out) {
        PeelFrame(y[i := Received(y[i], false, buf)], y'[i := Received(y'[i], false, buf)], i + 1, out);
      }
    }
  }

  lemma {:induction false} InFlightFrame(x: seq<Hop>, x': seq<Hop>, y: seq<Hop>, y': seq<Hop>,
                                         wire: seq<seq<byte>>, sent: seq<Sent>)
    requires InFlight(x, y, wire, sent) && SameForward(x, x') && SameBackward(y, y')
    ensures InFlight(x', y', wire, sent)
    decreases |wire|
  {
    if wire != [] {
      PeelFrame(y, y', 0, wire[0]);
      InFlightFrame(x, x', Decrypt(y, wire[0]).hops, Decrypt(y', wire[0]).hops, wire[1..], sent[1..]);
    }
  }

  // ---------------------------------------------------------------- each step keeps it

  lemma {:induction false} InFlightAppend(x: seq<Hop>, y: seq<Hop>, wire: seq<seq<byte>>, sent: seq<Sent>, c: Cell)
    requires InFlight(x, y, wire, sent)
    requires Sendable(x, c.dest, c.payload) && NoAccident(x, c.dest, c.payload)
    ensures var e := Encrypt(x, c.dest, c.payload);
      e.Encrypted? && InFlight(e.hops, y, wire + [e.out], sent + [Sent(c, e.tag)])
    decreases |wire|
  {
    var e := Encrypt(x, c.dest, c.payload);
    if wire == [] {
      Delivered(x, y, c);
      assert [e.out][1..] == [] && [Sent(c, e.tag)][1..] == [];
    } else {
      var r := Decrypt(y, wire[0]);
      InFlightAppend(x, r.hops, wire[1..], sent[1..], c);
      assert (wire + [e.out])[1..] == wire[1..] + [e.out];
      assert (sent + [Sent(c, e.tag)])[1..] == sent[1..] + [Sent(c, e.tag)];
    }
  }

  lemma Delivered(x: seq<Hop>, y: seq<Hop>, c: Cell)
    requires Mirrored(x, y) && Sendable(x, c.dest, c.payload) && NoAccident(x, c.dest, c.payload)
    ensures var e := Encrypt(x, c.dest, c.payload);
      && e.Encrypted?
      && var r := Decrypt(y, e.out);
      Matches(Read(r.hop, r.out, r.tag), Sent(c, e.tag)) && Mirrored(e.hops, r.hops)
  {
    OnionRoundTrip(x, y, c.dest, c.payload);
    FilledIsRecognized(x[c.dest].fwdDigest.value, c.payload);
  }

  lemma SendKeepsLanes(me: Party, you: Party, c: Cell)
    requires Lane(me, you) && Lane(you, me) && Clean(me, c)
    ensures var (me', you') := Send(me, you, c);
      Lane(me', you') && Lane(you', me')
  {
    var e := Encrypt(me.hops, c.dest, c.payload);
    InFlightAppend(me.hops, you.hops, you.inbox, me.sent[|you.read|..], c);
    assert (me.sent + [Sent(c, e.tag)])[|you.read|..] == me.sent[|you.read|..] + [Sent(c, e.tag)];
    EncryptKeepsBackward(me.hops, c.dest, c.payload);
    InFlightFrame(you.hops, you.hops, me.hops, e.hops, me.inbox, you.sent[|me.read|..]);
  }

  lemma ReceiveKeepsLanes(me: Party, you: Party)
    requires Lane(me, you) && Lane(you, me)
    ensures Lane(Receive(me), you) && Lane(you, Receive(me))
  {
    if me.inbox != [] {
      var r := Decrypt(me.hops, me.inbox[0]);
      PeelKeepsForward(me.hops, 0, me.inbox[0]);
      InFlightFrame(me.hops, r.hops, you.hops, you.hops, you.inbox, me.sent[|you.read|..]);
      assert you.sent[|me.read|..][1..] == you.sent[|me.read| + 1..];
      assert you.sent[|me.read|..][0] == you.sent[|me.read|];
    }
  }

  lemma StepKeepsInv(s: Session, e: Event)
    requires Inv(s) && CleanStep(s, e)
    ensures Inv(Step(s, e))
  {
    match e
    case SendA(c) => SendKeepsLanes(s.a, s.b, c);
    case SendB(c) => SendKeepsLanes(s.b, s.a, c);
    case RecvA => ReceiveKeepsLanes(s.a, s.b);
    case RecvB => ReceiveKeepsLanes(s.b, s.a);
  }

  lemma {:induction false} RunKeepsInv(s: Session, es: seq<Event>)
    requires Inv(s) && CleanRun(s, es)
    ensures Inv(Run(s, es))
    decreases |es|
  {
    if es != [] {
      StepKeepsInv(s, es[0]);
      RunKeepsInv(Step(s, es[0]), es[1..]);
    }
  }

  // ---------------------------------------------------------------- whole conversations

  lemma NothingInFlight(x: Party, y: Party)
    requires Lane(x, y) && y.inbox == []
    ensures |y.read| == |x.sent| && Mirrored(x.hops, y.hops)
  {
    assert x.sent[|y.read|..] == [];
  }

  /** Any number of cells to any hops, sent and read in both directions in any order: what
      each end has read is, cell by cell, what the other sent, at the right hop, with its
      payload and its tag; and once a direction is empty everything sent in it has been read
      and the ends mirror each other again. */
  lemma Conversation(a: seq<Hop>, b: seq<Hop>, es: seq<Event>)
    requires Mirrored(a, b) && Mirrored(b, a) && CleanRun(Start(a, b), es)
    ensures var s := Run(Start(a, b), es);
      && ReadAsSent(s.b.read, s.a.sent) && ReadAsSent(s.a.read, s.b.sent)
      && (s.b.inbox == [] ==> |s.b.read| == |s.a.sent| && Mirrored(s.a.hops, s.b.hops))
      && (s.a.inbox == [] ==> |s.a.read| == |s.b.sent| && Mirrored(s.b.hops, s.a.hops))
  {
    RunKeepsInv(Start(a, b), es);
    var s := Run(Start(a, b), es);
    if s.b.inbox == [] {
      NothingInFlight(s.a, s.b);
    }
    if s.a.inbox == [] {
      NothingInFlight(s.b, s.a);
    }
  }

  // ---------------------------------------------------------------- keystream positions

  /** How many bytes an end has sent through its hop k. */
  function BytesThrough(sent: seq<Sent>, k: nat): nat {
    if sent == [] then 0
    else
      var c := sent[|sent| - 1].cell;
      BytesThrough(sent[..|sent| - 1], k) + (if c.dest >= k then |c.payload| else 0)
  }

  /** Every forward cipher stands where the bytes sent through it have brought it. */
  ghost predicate InPosition(start: seq<Hop>, p: Party) {
    && |p.hops| == |start|
    && forall k :: 0 <= k < |start| ==>
         p.hops[k].fwdCipher == Advanced(start[k].fwdCipher, BytesThrough(p.sent, k))
  }

  lemma SendKeepsPosition(start: seq<Hop>, me: Party, you: Party, c: Cell)
    requires InPosition(start, me)
    ensures InPosition(start, Send(me, you, c).0)
  {
    if c.dest < |me.hops| {
      EncryptAdvances(me.hops, c.dest, c.payload);
      var e := Encrypt(me.hops, c.dest, c.payload);
      forall k | 0 <= k < |start|
        ensures e.hops[k].fwdCipher == Advanced(start[k].fwdCipher, BytesThrough(me.sent + [Sent(c, e.tag)], k))
      {
        BytesSnoc(me.sent, Sent(c, e.tag), k);
      }
    }
  }

  lemma BytesSnoc(sent: seq<Sent>, x: Sent, k: nat)
    ensures BytesThrough(sent + [x], k) == BytesThrough(sent, k) + (if x.cell.dest >= k then |x.cell.payload| else 0)
  {
    assert (sent + [x])[..|sent|] == sent;
  }

  lemma ReceiveKeepsPosition(start: seq<Hop>, me: Party)
    requires InPosition(start, me)
    ensures InPosition(start, Receive(me))
  {
    if me.inbox != [] {
      PeelKeepsForward(me.hops, 0, me.inbox[0]);
    }
  }

  lemma {:induction false} RunKeepsPosition(a: seq<Hop>, b: seq<Hop>, s: Session, es: seq<Event>)
    requires InPosition(a, s.a) && InPosition(b, s.b)
    ensures InPosition(a, Run(s, es).a) && InPosition(b, Run(s, es).b)
    decreases |es|
  {
    if es != [] {
      match es[0] {
        case SendA(c) => SendKeepsPosition(a, s.a, s.b, c);
        case SendB(c) => SendKeepsPosition(b, s.b, s.a, c);
        case RecvA => ReceiveKeepsPosition(a, s.a);
        case RecvB => ReceiveKeepsPosition(b, s.b);
      }
      RunKeepsPosition(a, b, Step(s, es[0]), es[1..]);
    }
  }

  /** The masks of hops i .. n-1 for the j-th byte after what has been sent, counted from the
      keystreams as they were at the start. */
  function MaskAfter(start: seq<Hop>, sent: seq<Sent>, i: nat, n: nat, j: nat): byte
    requires i <= n <= |start|
    decreases n - i
  {
    if i == n then 0
    else Xor(MaskAfter(start, sent, i + 1, n, j), KeyByte(start[i].fwdCipher, BytesThrough(sent, i) + j))
  }

  lemma {:induction false} MaskInPosition(start: seq<Hop>, p: Party, i: nat, n: nat, j: nat)
    requires InPosition(start, p) && i <= n <= |start|
    ensures Mask(p.hops, i, n, j) == MaskAfter(start, p.sent, i, n, j)
    decreases n - i
  {
    if i < n {
      MaskInPosition(start, p, i + 1, n, j);
    }
  }

  /** Whatever was sent and read before, byte j of the next cell either end sends leaves masked,
      for every hop on its way, with the keystream byte whose number is the count of all bytes
      sent through that hop before it. */
  lemma NextCellMasked(a: seq<Hop>, b: seq<Hop>, es: seq<Event>, c: Cell, j: nat)
    requires j < |c.payload|
    ensures var p := Run(Start(a, b), es).a;
      c.dest < |a| ==>
        && |p.hops| == |a|
        && var e, filled := Encrypt(p.hops, c.dest, c.payload), Fill(p.hops[c.dest].fwdDigest, c.payload).1;
        && e.Encrypted? && |e.out| == |filled| == |c.payload|
        && e.out[j] == Xor(filled[j], MaskAfter(a, p.sent, 0, c.dest + 1, j))
    ensures var p := Run(Start(a, b), es).b;
      c.dest < |b| ==>
        && |p.hops| == |b|
        && var e, filled := Encrypt(p.hops, c.dest, c.payload), Fill(p.hops[c.dest].fwdDigest, c.payload).1;
        && e.Encrypted? && |e.out| == |filled| == |c.payload|
        && e.out[j] == Xor(filled[j], MaskAfter(b, p.sent, 0, c.dest + 1, j))
  {
    StartInPosition(a);
    StartInPosition(b);
    RunKeepsPosition(a, b, Start(a, b), es);
    NextMasked(a, Run(Start(a, b), es).a, c, j);
    NextMasked(b, Run(Start(a, b), es).b, c, j);
  }

  lemma StartInPosition(a: seq<Hop>)
    ensures InPosition(a, Party(a, [], [], []))
  {
  }

  lemma NextMasked(start: seq<Hop>, p: Party, c: Cell, j: nat)
    requires InPosition(start, p) && j < |c.payload|
    ensures c.dest < |start| ==>
      var e, filled := Encrypt(p.hops, c.dest, c.payload), Fill(p.hops[c.dest].fwdDigest, c.payload).1;
      && e.Encrypted? && |e.out| == |filled| == |c.payload|
      && e.out[j] == Xor(filled[j], MaskAfter(start, p.sent, 0, c.dest + 1, j))
  {
    if c.dest < |start| {
      EncryptMasks(p.hops, c.dest, c.payload, j);
      MaskInPosition(start, p, 0, c.dest + 1, j);
    }
  }

  lemma {:induction false} BytesGrow(sent: seq<Sent>, k: nat, i: nat, n: nat)
    requires i < n <= |sent|
    ensures BytesThrough(sent[..i], k) + (if sent[i].cell.dest >= k then |sent[i].cell.payload| else 0)
         <= BytesThrough(sent[..n], k)
    decreases n - i
  {
    assert sent[..n][..n - 1] == sent[..n - 1];
    if i < n - 1 {
      BytesGrow(sent, k, i, n - 1);
    }
  }

  /** No byte of a hop's keystream is used twice: two bytes of cells sent through a hop, of
      different cells or at different places of one, have different numbers. */
  lemma KeystreamUsedOnce(sent: seq<Sent>, k: nat, i: nat, x: nat, j: nat, y: nat)
    requires i <= j < |sent| && sent[i].cell.dest >= k && sent[j].cell.dest >= k
    requires x < |sent[i].cell.payload| && y < |sent[j].cell.payload| && (i, x) != (j, y)
    ensures BytesThrough(sent[..i], k) + x != BytesThrough(sent[..j], k) + y
  {
    if i < j {
      BytesGrow(sent, k, i, j);
    }
  }

  // ---------------------------------------------------------------- draining

  function Repeat(e: Event, n: nat): seq<Event> {
    if n == 0 then [] else [e] + Repeat(e, n - 1)
  }

  lemma {:induction false} RunConcat(s: Session, es: seq<Event>, fs: seq<Event>)
    ensures Run(s, es + fs) == Run(Run(s, es), fs)
    ensures CleanRun(s, es + fs) <==> CleanRun(s, es) && CleanRun(Run(s, es), fs)
    decreases |es|
  {
    if es == [] {
      assert es + fs == fs;
    } else {
      assert (es + fs)[1..] == es[1..] + fs;
      RunConcat(Step(s, es[0]), es[1..], fs);
    }
  }

  lemma {:induction false} ReadsOfA(s: Session, n: nat)
    requires n == |s.a.inbox|
    ensures var t := Run(s, Repeat(RecvA, n)); t.a.inbox == [] && t.a.sent == s.a.sent && t.b == s.b
    ensures CleanRun(s, Repeat(RecvA, n))
    decreases n
  {
    if n > 0 {
      assert Repeat(RecvA, n)[1..] == Repeat(RecvA, n - 1);
      ReadsOfA(Step(s, RecvA), n - 1);
    }
  }

  lemma {:induction false} ReadsOfB(s: Session, n: nat)
    requires n == |s.b.inbox|
    ensures var t := Run(s, Repeat(RecvB, n)); t.b.inbox == [] && t.b.sent == s.b.sent && t.a == s.a
    ensures CleanRun(s, Repeat(RecvB, n))
    decreases n
  {
    if n > 0 {
      assert Repeat(RecvB, n)[1..] == Repeat(RecvB, n - 1);
      ReadsOfB(Step(s, RecvB), n - 1);
    }
  }

  /** Any conversation can be brought to an end by reading: as many reads as there are cells in
      flight, and each end has read every cell the other sent, as it was sent. */
  lemma ConversationDrains(a: seq<Hop>, b: seq<Hop>, es: seq<Event>)
    requires Mirrored(a, b) && Mirrored(b, a) && CleanRun(Start(a, b), es)
    ensures var s := Run(Start(a, b), es);
      var t := Run(s, Repeat(RecvA, |s.a.inbox|) + Repeat(RecvB, |s.b.inbox|));
      && t.a.sent == s.a.sent && t.b.sent == s.b.sent
      && |t.b.read| == |s.a.sent| && ReadAsSent(t.b.read, s.a.sent)
      && |t.a.read| == |s.b.sent| && ReadAsSent(t.a.read, s.b.sent)
  {
    var s := Run(Start(a, b), es);
    var fa, fb := Repeat(RecvA, |s.a.inbox|), Repeat(RecvB, |s.b.inbox|);
    ReadsOfA(s, |s.a.inbox|);
    ReadsOfB(Run(s, fa), |s.b.inbox|);
    RunConcat(s, fa, fb);
    RunConcat(Start(a, b), es, fa + fb);
    Conversation(a, b, es + (fa + fb));
  }

  // ---------------------------------------------------------------- rendezvous

  /** A relay cell as a rendezvous end sends it: to its one hop, with a zero recognized field. */
  predicate RelayPayload(c: Cell) {
    c.dest == 0 && |c.payload| >= 11 && GetU16(c.payload[1..3]) == 0
  }

  predicate RelayEvent(e: Event) {
    e.SendA? || e.SendB? ==> RelayPayload(e.cell)
  }

  predicate OneHop(p: Party) {
    |p.hops| == 1 && p.hops[0].fwdDigest.Some?
  }

  lemma StepKeepsOneHop(s: Session, e: Event)
    requires OneHop(s.a) && OneHop(s.b) && RelayEvent(e)
    ensures CleanStep(s, e)
    ensures OneHop(Step(s, e).a) && OneHop(Step(s, e).b)
  {
    match e
    case SendA(c) => SendKeepsOneHop(s.a, s.b, c);
    case SendB(c) => SendKeepsOneHop(s.b, s.a, c);
    case RecvA =>
      if s.a.inbox != [] {
        PeelKeepsForward(s.a.hops, 0, s.a.inbox[0]);
      }
    case RecvB =>
      if s.b.inbox != [] {
        PeelKeepsForward(s.b.hops, 0, s.b.inbox[0]);
      }
  }

  lemma SendKeepsOneHop(me: Party, you: Party, c: Cell)
    requires OneHop(me) && RelayPayload(c)
    ensures OneHop(Send(me, you, c).0) && Send(me, you, c).1 == you.(inbox := Send(me, you, c).1.inbox)
  {
    var (d, filled, tag) := Fill(me.hops[0].fwdDigest, c.payload);
    WrapIsLayered(me.hops[0 := me.hops[0].(fwdDigest := d)], 1, filled);
  }

  lemma {:induction false} RelayRunsAreClean(s: Session, es: seq<Event>)
    requires OneHop(s.a) && OneHop(s.b) && forall i :: 0 <= i < |es| ==> RelayEvent(es[i])
    ensures CleanRun(s, es)
    decreases |es|
  {
    if es != [] {
      StepKeepsOneHop(s, es[0]);
      RelayRunsAreClean(Step(s, es[0]), es[1..]);
    }
  }

  /** A whole rendezvous: client and service, with hops built from the same key material, may
      exchange any relay cells in any order, without any further condition. */
  lemma Rendezvous(material: seq<byte>, aes: seq<byte> -> (nat -> byte), sha3: seq<byte> -> Sum, es: seq<Event>)
    requires |material| >= HS_KEY_LEN && forall i :: 0 <= i < |es| ==> RelayEvent(es[i])
    ensures HSHop(material, aes, sha3).Some? && HSResponderHop(material, aes, sha3).Some?
    ensures var s := Run(Start([HSHop(material, aes, sha3).value], [HSResponderHop(material, aes, sha3).value]), es);
      && ReadAsSent(s.b.read, s.a.sent) && ReadAsSent(s.a.read, s.b.sent)
      && (s.b.inbox == [] ==> |s.b.read| == |s.a.sent|)
      && (s.a.inbox == [] ==> |s.a.read| == |s.b.sent|)
  {
    RendezvousMirrored(material, aes, sha3);
    var a, b := [HSHop(material, aes, sha3).value], [HSResponderHop(material, aes, sha3).value];
    RelayRunsAreClean(Start(a, b), es);
    Conversation(a, b, es);
  }
}
