/** A Conflux sender and a Conflux receiver joined by two FIFO legs, run by an
    arbitrary schedule: the sender picks legs at will, the legs are served in any
    order, and any send may fail. */
module ConfluxSystem {
  import opened Bytes
  import opened RelayCodec
  import opened ConfluxSpec

  /** `sent` lists the sequenced cells whose send succeeded and `route` the leg each
      took; `delivered` lists what the receiver handed to its owner. */
  datatype System = System(
    snd: Sender,
    sndClosed: bool,
    rcv: Receiver<RelayCell>,
    rcvError: Option<ConfluxError>,
    wire: PerLeg<seq<RelayCell>>,
    sent: seq<RelayCell>,
    route: seq<Leg>,
    delivered: seq<RelayCell>)

  datatype Event = Send(cell: RelayCell, leg: Leg, net: Net) | Recv(leg: Leg)

  function Init(first: Leg): System {
    System(Sender(0, PerLeg(0, 0), Some(first)), false,
           Receiver(0, PerLeg(0, 0), map[]), None, PerLeg([], []), [], [], [])
  }

  function SendStep(s: System, cell: RelayCell, l: Leg, net: Net): System
    requires SenderInv(s.snd)
  {
    if s.sndClosed || IsConfluxCommand(cell.command) then s
    else if ShouldMultiplex(cell.command) then
      var (snd, out, how) := SendMultiplexed(s.snd, cell, l, net);
      s.(snd := snd,
         sndClosed := how == FailedAndClosed,
         wire := s.wire.Put(l, s.wire.At(l) + out),
         sent := if how == Sent then s.sent + [cell] else s.sent,
         route := if how == Sent then s.route + [l] else s.route)
    else if net.emitted then s.(wire := s.wire.Put(l, s.wire.At(l) + [cell]))
    else s
  }

  function RecvStep(s: System, l: Leg): System {
    if s.rcvError.Some? || s.wire.At(l) == [] then s
    else
      var (rcv, out) := Receive(s.rcv, l, s.wire.At(l)[0]);
      var s1 := s.(rcv := rcv, wire := s.wire.Put(l, s.wire.At(l)[1..]));
      match out
      case Rejected(e) => s1.(rcvError := Some(e))
      case NotHandled => s1
      case Delivered(cells) => s1.(delivered := s.delivered + cells)
  }

  function Step(s: System, e: Event): System
    requires SenderInv(s.snd)
  {
    match e
    case Send(cell, l, net) => SendStep(s, cell, l, net)
    case Recv(l) => RecvStep(s, l)
  }

  lemma StepKeepsSenderInv(s: System, e: Event)
    requires SenderInv(s.snd)
    ensures SenderInv(Step(s, e).snd)
  {
  }

  function Run(s: System, es: seq<Event>): System
    requires SenderInv(s.snd)
    decreases |es|
  {
    if es == [] then s
    else
      StepKeepsSenderInv(s, es[0]);
      Run(Step(s, es[0]), es[1..])
  }

  // ---------------------------------------------------------------- the invariant

  /** How far a cell moves the receiver's counter for its leg. */
  function Weight(cell: RelayCell): nat {
    if ShouldMultiplex(cell.command) then 1
    else if cell.command == RELAY_CONFLUX_SWITCH && DecodeSwitch(cell.data).Ok? then DecodeSwitch(cell.data).value
    else 0
  }

  /** `cell` is right at this place of leg `l` if the receiver's counter is then `base`:
      a sequenced cell is cell number base+1 (that is, sent[base]) and took this leg; a
      SWITCH skips only cells of the other leg, at least one, and stops just before a
      cell of this leg, unless the send it preceded failed and closed the sender. */
  ghost predicate Fits(cell: RelayCell, base: nat, l: Leg, sent: seq<RelayCell>, route: seq<Leg>, closed: bool)
    requires |route| == |sent|
  {
    if ShouldMultiplex(cell.command) then
      base < |sent| && sent[base] == cell && route[base] == l
    else if cell.command == RELAY_CONFLUX_SWITCH then
      var to := base + Weight(cell);
      && DecodeSwitch(cell.data).Ok?
      && base < to <= |sent|
      && (forall k :: base <= k < to ==> route[k] != l)
      && (if to < |sent| then route[to] == l else closed)
    else
      !IsConfluxCommand(cell.command)
  }

  /** A leg's contents, read by a receiver whose counter for the leg is `base`, name
      exactly the sent cells above `base` that took the leg, in order, and leave the
      counter at `end`. */
  ghost predicate InFlight(ch: seq<RelayCell>, base: nat, end: nat, l: Leg,
                           sent: seq<RelayCell>, route: seq<Leg>, closed: bool)
    requires |route| == |sent|
    decreases |ch|
  {
    if ch == [] then
      && base == end <= |sent|
      && forall k :: base <= k < |sent| ==> route[k] != l
    else
      && Fits(ch[0], base, l, sent, route, closed)
      && InFlight(ch[1..], base + Weight(ch[0]), end, l, sent, route, closed)
  }

  /** Whether the receiver has read cell number k+1 off its leg. */
  predicate Got(legRecv: PerLeg<nat>, route: seq<Leg>, k: nat)
    requires k < |route|
  {
    k < legRecv.At(route[k])
  }

  /** Everything below lastRecv has been read, the next cell has not, and the buffer
      holds exactly the cells read above it. */
  ghost predicate Received(r: Receiver<RelayCell>, sent: seq<RelayCell>, route: seq<Leg>)
    requires |route| == |sent|
  {
    && r.lastRecv <= |sent|
    && (forall k :: 0 <= k < r.lastRecv ==> Got(r.legRecv, route, k))
    && (r.lastRecv < |sent| ==> !Got(r.legRecv, route, r.lastRecv))
    && (forall n :: n in r.ooo <==> r.lastRecv < n <= |sent| && Got(r.legRecv, route, n - 1))
    && (forall n :: n in r.ooo ==> r.ooo[n] == sent[n - 1])
  }

  /** The number of the last cell that took leg `l`, or 0. */
  function LastOn(route: seq<Leg>, l: Leg): nat
    decreases |route|
  {
    if route == [] then 0
    else if route[|route| - 1] == l then |route|
    else LastOn(route[..|route| - 1], l)
  }

  /** Both legs name what is still to be read. */
  ghost predicate Legs(wire: PerLeg<seq<RelayCell>>, legRecv: PerLeg<nat>, legSent: PerLeg<nat>,
                       sent: seq<RelayCell>, route: seq<Leg>, closed: bool)
    requires |route| == |sent|
  {
    && InFlight(wire.leg0, legRecv.leg0, legSent.leg0, Leg0, sent, route, closed)
    && InFlight(wire.leg1, legRecv.leg1, legSent.leg1, Leg1, sent, route, closed)
  }

  /** The counters a leg was last given, unless a lone SWITCH closed the sender. */
  predicate SentMatchesRoute(legSent: PerLeg<nat>, route: seq<Leg>) {
    legSent.leg0 == LastOn(route, Leg0) && legSent.leg1 == LastOn(route, Leg1)
  }

  predicate BenignError(e: ConfluxError) {
    e in {SwitchFromLeader, SwitchGapTooLarge, OooExceeded, SeqGapTooLarge}
  }

  /** What holds between the legs and an error-free receiver. */
  ghost predicate Transit(r: Receiver<RelayCell>, wire: PerLeg<seq<RelayCell>>, legSent: PerLeg<nat>,
                          sent: seq<RelayCell>, route: seq<Leg>, closed: bool)
  {
    && |route| == |sent|
    && ReceiverInv(r)
    && Received(r, sent, route)
    && Legs(wire, r.legRecv, legSent, sent, route, closed)
  }

  ghost predicate SendSide(snd: Sender, sent: seq<RelayCell>, route: seq<Leg>, closed: bool) {
    && SenderInv(snd)
    && |route| == |sent| == snd.lastSent
    && (!closed ==> SentMatchesRoute(snd.legSent, route))
  }

  ghost predicate Inv(s: System) {
    && SendSide(s.snd, s.sent, s.route, s.sndClosed)
    && s.rcv.lastRecv <= |s.sent|
    && s.delivered == s.sent[..s.rcv.lastRecv]
    && (s.rcvError.None? ==> Transit(s.rcv, s.wire, s.snd.legSent, s.sent, s.route, s.sndClosed))
    && (s.rcvError.Some? ==> BenignError(s.rcvError.value))
  }

  // ---------------------------------------------------------------- sending keeps it

  lemma SentOnIdleLeg(end: nat, l: Leg, sent: seq<RelayCell>, route: seq<Leg>, cell: RelayCell, w: seq<RelayCell>)
    requires |route| == |sent|
    requires ShouldMultiplex(cell.command)
    requires end <= |sent| <= end + MAX_REL
    requires forall k :: end <= k < |sent| ==> route[k] != l
    requires w == if end < |sent| then [SwitchCell(|sent| - end)] else []
    ensures InFlight(w + [cell], end, |sent| + 1, l, sent + [cell], route + [l], false)
  {
    var sent', route' := sent + [cell], route + [l];
    assert [cell][1..] == [];
    assert InFlight([cell], |sent|, |sent| + 1, l, sent', route', false);
    if end < |sent| {
      var sw := SwitchCell(|sent| - end);
      assert (w + [cell])[1..] == [cell] && (w + [cell])[0] == sw;
      assert Weight(sw) == |sent| - end;
      assert Fits(sw, end, l, sent', route', false);
    } else {
      assert w + [cell] == [cell];
    }
  }

  /** Sending on a leg: what is appended there, a SWITCH over the missed cells if any
      were missed and then the cell, extends what the leg names by that cell. */
  lemma {:induction false} AppendSent(ch: seq<RelayCell>, base: nat, end: nat, l: Leg,
                                      sent: seq<RelayCell>, route: seq<Leg>, cell: RelayCell, w: seq<RelayCell>)
    requires |route| == |sent|
    requires InFlight(ch, base, end, l, sent, route, false)
    requires ShouldMultiplex(cell.command)
    requires end <= |sent| <= end + MAX_REL
    requires w == if end < |sent| then [SwitchCell(|sent| - end)] else []
    ensures InFlight(ch + (w + [cell]), base, |sent| + 1, l, sent + [cell], route + [l], false)
    decreases |ch|
  {
    var all := ch + (w + [cell]);
    if ch == [] {
      assert all == w + [cell];
      SentOnIdleLeg(end, l, sent, route, cell, w);
    } else {
      assert all[1..] == ch[1..] + (w + [cell]);
      AppendSent(ch[1..], base + Weight(ch[0]), end, l, sent, route, cell, w);
    }
  }

  /** Sending on the other leg leaves a leg naming the same cells. */
  lemma {:induction false} SentOnOther(ch: seq<RelayCell>, base: nat, end: nat, l: Leg,
                                       sent: seq<RelayCell>, route: seq<Leg>, cell: RelayCell)
    requires |route| == |sent|
    requires InFlight(ch, base, end, l, sent, route, false)
    ensures InFlight(ch, base, end, l, sent + [cell], route + [l.Other()], false)
    decreases |ch|
  {
    if ch != [] {
      SentOnOther(ch[1..], base + Weight(ch[0]), end, l, sent, route, cell);
    }
  }

  /** A SWITCH whose cell could not be sent closes the sender; the leg then ends with
      a SWITCH up to everything sent. */
  lemma {:induction false} AppendLoneSwitch(ch: seq<RelayCell>, base: nat, end: nat, l: Leg,
                                            sent: seq<RelayCell>, route: seq<Leg>, w: seq<RelayCell>)
    requires |route| == |sent|
    requires InFlight(ch, base, end, l, sent, route, false)
    requires end <= |sent| <= end + MAX_REL || w == []
    requires w == [] || (end < |sent| && w == [SwitchCell(|sent| - end)])
    ensures InFlight(ch + w, base, if w == [] then end else |sent|, l, sent, route, true)
    decreases |ch|
  {
    if ch == [] {
      assert ch + w == w;
      assert w != [] ==> w[1..] == [];
    } else {
      assert (ch + w)[1..] == ch[1..] + w;
      AppendLoneSwitch(ch[1..], base + Weight(ch[0]), end, l, sent, route, w);
    }
  }

  /** A cell Conflux does not sequence passes without a number. */
  lemma {:induction false} AppendPlain(ch: seq<RelayCell>, base: nat, end: nat, l: Leg,
                                       sent: seq<RelayCell>, route: seq<Leg>, closed: bool, cell: RelayCell)
    requires |route| == |sent|
    requires InFlight(ch, base, end, l, sent, route, closed)
    requires !ShouldMultiplex(cell.command) && !IsConfluxCommand(cell.command)
    ensures InFlight(ch + [cell], base, end, l, sent, route, closed)
    decreases |ch|
  {
    if ch == [] {
      assert [cell][1..] == [];
      assert ch + [cell] == [cell];
    } else {
      assert (ch + [cell])[1..] == ch[1..] + [cell];
      AppendPlain(ch[1..], base + Weight(ch[0]), end, l, sent, route, closed, cell);
    }
  }

  /** The receiver's counter plus the weight of what is on the leg is the sender's. */
  function TotalWeight(ch: seq<RelayCell>): nat {
    if ch == [] then 0 else Weight(ch[0]) + TotalWeight(ch[1..])
  }

  lemma {:induction false} InFlightEnd(ch: seq<RelayCell>, base: nat, end: nat, l: Leg,
                                       sent: seq<RelayCell>, route: seq<Leg>, closed: bool)
    requires |route| == |sent|
    requires InFlight(ch, base, end, l, sent, route, closed)
    ensures base + TotalWeight(ch) == end <= |sent|
    ensures forall k :: end <= k < |sent| ==> route[k] != l
    decreases |ch|
  {
    if ch != [] {
      InFlightEnd(ch[1..], base + Weight(ch[0]), end, l, sent, route, closed);
    }
  }

  /** The leg holds this cell where the receiver, reading on from `base`, gives it number k+1. */
  ghost predicate OnLeg(ch: seq<RelayCell>, base: nat, cell: RelayCell, k: nat) {
    exists i :: 0 <= i < |ch| && ch[i] == cell && base + TotalWeight(ch[..i]) == k
  }

  lemma {:induction false} UnreadIsOnLeg(ch: seq<RelayCell>, base: nat, end: nat, l: Leg,
                                         sent: seq<RelayCell>, route: seq<Leg>, closed: bool, k: nat)
    requires |route| == |sent| && base <= k < |sent| && route[k] == l
    requires InFlight(ch, base, end, l, sent, route, closed)
    ensures OnLeg(ch, base, sent[k], k)
    decreases |ch|
  {
    if ShouldMultiplex(ch[0].command) && k == base {
      assert ch[0] == sent[k] && TotalWeight(ch[..0]) == 0;
    } else {
      UnreadIsOnLeg(ch[1..], base + Weight(ch[0]), end, l, sent, route, closed, k);
      var i :| 0 <= i < |ch[1..]| && ch[1..][i] == sent[k] && base + Weight(ch[0]) + TotalWeight(ch[1..][..i]) == k;
      assert ch[..i + 1][1..] == ch[1..][..i];
      assert ch[i + 1] == sent[k];
    }
  }

  lemma LastOnAppend(route: seq<Leg>, l: Leg)
    ensures LastOn(route + [l], l) == |route| + 1
    ensures LastOn(route + [l], l.Other()) == LastOn(route, l.Other())
  {
    assert (route + [l])[..|route|] == route;
  }

  lemma ReceivedAfterSend(r: Receiver<RelayCell>, sent: seq<RelayCell>, route: seq<Leg>, cell: RelayCell, l: Leg)
    requires |route| == |sent|
    requires Received(r, sent, route)
    requires r.legRecv.At(l) <= |sent|
    ensures Received(r, sent + [cell], route + [l])
  {
    var route' := route + [l];
    forall k | 0 <= k < |sent|
      ensures Got(r.legRecv, route', k) <==> Got(r.legRecv, route, k)
    {
      assert route'[k] == route[k];
    }
    assert !Got(r.legRecv, route', |sent|);
  }

  /** A successful send puts on the chosen leg a SWITCH carrying exactly the number of
      cells that leg missed, if it missed any, and then the cell; the leg becomes the
      current one and is level with the set. */
  lemma SentShape(snd: Sender, cell: RelayCell, l: Leg, net: Net)
    requires SenderInv(snd)
    requires SendMultiplexed(snd, cell, l, net).2 == Sent
    ensures var missed := snd.lastSent - snd.legSent.At(l);
      && missed <= MAX_REL
      && SendMultiplexed(snd, cell, l, net)
         == (Sender(snd.lastSent + 1, snd.legSent.Put(l, snd.lastSent + 1), Some(l)),
             (if missed >= 1 then [SwitchCell(missed)] else []) + [cell],
             Sent)
  {
  }

  /** How a send ends, by what the leg has missed and what the network does: it succeeds
      exactly when flow control and the network grant it and a gap, if there is one, fits 32
      bits and its SWITCH goes out. What the other three ways leave behind. */
  lemma SendOutcomes(snd: Sender, cell: RelayCell, l: Leg, net: Net)
    requires SenderInv(snd)
    ensures var missed, (after, out, how) := snd.lastSent - snd.legSent.At(l), SendMultiplexed(snd, cell, l, net);
      && (how == Sent <==>
            net.reserved && missed <= 0xFFFF_FFFF && (missed == 0 || net.switchSent) && net.emitted)
      && (how == RelOverflow <==> net.reserved && missed > 0xFFFF_FFFF)
      && (how == FailedAndClosed <==>
            net.reserved && 1 <= missed <= 0xFFFF_FFFF && net.switchSent && !net.emitted)
      && (how == Failed <==>
            || !net.reserved
            || (1 <= missed <= 0xFFFF_FFFF && !net.switchSent)
            || (missed == 0 && !net.emitted))
      && (how == RelOverflow || how == Failed ==> after == snd && out == [])
      && (how == FailedAndClosed ==>
            && out == [SwitchCell(missed)]
            && after == Sender(snd.lastSent, snd.legSent.Put(l, snd.lastSent), Some(l)))
  {
  }

  lemma LegsAfterSend(wire: PerLeg<seq<RelayCell>>, legRecv: PerLeg<nat>, legSent: PerLeg<nat>,
                      sent: seq<RelayCell>, route: seq<Leg>, cell: RelayCell, l: Leg, w: seq<RelayCell>)
    requires |route| == |sent|
    requires Legs(wire, legRecv, legSent, sent, route, false)
    requires ShouldMultiplex(cell.command)
    requires legSent.At(l) <= |sent| <= legSent.At(l) + MAX_REL
    requires w == if legSent.At(l) < |sent| then [SwitchCell(|sent| - legSent.At(l))] else []
    ensures Legs(wire.Put(l, wire.At(l) + (w + [cell])), legRecv, legSent.Put(l, |sent| + 1),
                 sent + [cell], route + [l], false)
  {
    var o := l.Other();
    AppendSent(wire.At(l), legRecv.At(l), legSent.At(l), l, sent, route, cell, w);
    SentOnOther(wire.At(o), legRecv.At(o), legSent.At(o), o, sent, route, cell);
    BothLegs(wire.Put(l, wire.At(l) + (w + [cell])), legRecv, legSent.Put(l, |sent| + 1),
             sent + [cell], route + [l], false, l);
  }

  lemma CounterWithin(wire: PerLeg<seq<RelayCell>>, legRecv: PerLeg<nat>, legSent: PerLeg<nat>,
                      sent: seq<RelayCell>, route: seq<Leg>, closed: bool, l: Leg)
    requires |route| == |sent|
    requires Legs(wire, legRecv, legSent, sent, route, closed)
    ensures legRecv.At(l) <= |sent|
  {
    InFlightEnd(wire.At(l), legRecv.At(l), legSent.At(l), l, sent, route, closed);
  }

  lemma BothLegs(wire: PerLeg<seq<RelayCell>>, legRecv: PerLeg<nat>, legSent: PerLeg<nat>,
                 sent: seq<RelayCell>, route: seq<Leg>, closed: bool, l: Leg)
    requires |route| == |sent|
    requires InFlight(wire.At(l), legRecv.At(l), legSent.At(l), l, sent, route, closed)
    requires var o := l.Other(); InFlight(wire.At(o), legRecv.At(o), legSent.At(o), o, sent, route, closed)
    ensures Legs(wire, legRecv, legSent, sent, route, closed)
  {
  }

  lemma TransitAfterSend(r: Receiver<RelayCell>, wire: PerLeg<seq<RelayCell>>, legSent: PerLeg<nat>,
                         sent: seq<RelayCell>, route: seq<Leg>, cell: RelayCell, l: Leg, w: seq<RelayCell>)
    requires Transit(r, wire, legSent, sent, route, false)
    requires ShouldMultiplex(cell.command)
    requires legSent.At(l) <= |sent| <= legSent.At(l) + MAX_REL
    requires w == if legSent.At(l) < |sent| then [SwitchCell(|sent| - legSent.At(l))] else []
    ensures Transit(r, wire.Put(l, wire.At(l) + (w + [cell])), legSent.Put(l, |sent| + 1),
                    sent + [cell], route + [l], false)
  {
    CounterWithin(wire, r.legRecv, legSent, sent, route, false, l);
    LegsAfterSend(wire, r.legRecv, legSent, sent, route, cell, l, w);
    ReceivedAfterSend(r, sent, route, cell, l);
  }

  lemma SentKeepsSendSide(s: System, cell: RelayCell, l: Leg, net: Net)
    requires SendSide(s.snd, s.sent, s.route, s.sndClosed) && !s.sndClosed && ShouldMultiplex(cell.command)
    requires SendMultiplexed(s.snd, cell, l, net).2 == Sent
    ensures var missed := s.snd.lastSent - s.snd.legSent.At(l);
      && missed <= MAX_REL
      && var w := if missed >= 1 then [SwitchCell(missed)] else [];
      && SendStep(s, cell, l, net) == s.(
           snd := Sender(s.snd.lastSent + 1, s.snd.legSent.Put(l, s.snd.lastSent + 1), Some(l)),
           wire := s.wire.Put(l, s.wire.At(l) + (w + [cell])),
           sent := s.sent + [cell], route := s.route + [l])
    ensures var t := SendStep(s, cell, l, net);
      SendSide(t.snd, t.sent, t.route, t.sndClosed)
  {
    SentShape(s.snd, cell, l, net);
    LastOnAppend(s.route, l);
  }

  lemma SentStateInv(s: System, snd: Sender, cell: RelayCell, l: Leg, w: seq<RelayCell>)
    requires Inv(s) && !s.sndClosed && ShouldMultiplex(cell.command)
    requires SendSide(snd, s.sent + [cell], s.route + [l], false)
    requires snd.legSent == s.snd.legSent.Put(l, |s.sent| + 1)
    requires |s.sent| - s.snd.legSent.At(l) <= MAX_REL
    requires w == if s.snd.legSent.At(l) < |s.sent| then [SwitchCell(|s.sent| - s.snd.legSent.At(l))] else []
    ensures Inv(s.(snd := snd, wire := s.wire.Put(l, s.wire.At(l) + (w + [cell])),
                   sent := s.sent + [cell], route := s.route + [l]))
  {
    assert (s.sent + [cell])[..s.rcv.lastRecv] == s.sent[..s.rcv.lastRecv];
    if s.rcvError.None? {
      TransitAfterSend(s.rcv, s.wire, s.snd.legSent, s.sent, s.route, cell, l, w);
    }
  }

  lemma SentKeepsInv(s: System, cell: RelayCell, l: Leg, net: Net)
    requires Inv(s) && !s.sndClosed && ShouldMultiplex(cell.command)
    requires SendMultiplexed(s.snd, cell, l, net).2 == Sent
    ensures Inv(SendStep(s, cell, l, net))
  {
    SentKeepsSendSide(s, cell, l, net);
    var t := SendStep(s, cell, l, net);
    var missed := |s.sent| - s.snd.legSent.At(l);
    var w := if missed >= 1 then [SwitchCell(missed)] else [];
    assert t == s.(snd := t.snd, wire := s.wire.Put(l, s.wire.At(l) + (w + [cell])),
                   sent := s.sent + [cell], route := s.route + [l]);
    SentStateInv(s, t.snd, cell, l, w);
  }

  lemma UnsentKeepsInv(s: System, cell: RelayCell, l: Leg, net: Net)
    requires Inv(s) && !s.sndClosed && ShouldMultiplex(cell.command)
    requires SendMultiplexed(s.snd, cell, l, net).2 != Sent
    ensures Inv(SendStep(s, cell, l, net))
  {
    var o := l.Other();
    var (snd, out, how) := SendMultiplexed(s.snd, cell, l, net);
    assert s.wire.At(l) + [] == s.wire.At(l) && s.wire.At(o) + [] == s.wire.At(o);
    if how == FailedAndClosed && s.rcvError.None? {
      AppendLoneSwitch(s.wire.At(l), s.rcv.legRecv.At(l), s.snd.legSent.At(l), l, s.sent, s.route, out);
      AppendLoneSwitch(s.wire.At(o), s.rcv.legRecv.At(o), s.snd.legSent.At(o), o, s.sent, s.route, []);
    }
  }

  lemma PlainKeepsInv(s: System, cell: RelayCell, l: Leg, net: Net)
    requires Inv(s) && !ShouldMultiplex(cell.command)
    ensures Inv(SendStep(s, cell, l, net))
  {
    if !s.sndClosed && !IsConfluxCommand(cell.command) && net.emitted && s.rcvError.None? {
      AppendPlain(s.wire.At(l), s.rcv.legRecv.At(l), s.snd.legSent.At(l), l, s.sent, s.route, s.sndClosed, cell);
    }
  }

  lemma SendKeepsInv(s: System, cell: RelayCell, l: Leg, net: Net)
    requires Inv(s)
    ensures Inv(SendStep(s, cell, l, net))
  {
    if !ShouldMultiplex(cell.command) {
      PlainKeepsInv(s, cell, l, net);
    } else if !s.sndClosed {
      if SendMultiplexed(s.snd, cell, l, net).2 == Sent {
        SentKeepsInv(s, cell, l, net);
      } else {
        UnsentKeepsInv(s, cell, l, net);
      }
    }
  }

  // ---------------------------------------------------------------- receiving keeps it

  /** Reading a sequenced cell. Its number is new, so it is delivered, with the
      buffered cells that follow on, or buffered, or too far ahead. */
  lemma ReadData(r: Receiver<RelayCell>, l: Leg, sent: seq<RelayCell>, route: seq<Leg>)
    requires |route| == |sent|
    requires ReceiverInv(r) && Received(r, sent, route)
    requires r.legRecv.At(l) < |sent| && route[r.legRecv.At(l)] == l
    ensures var base := r.legRecv.At(l);
      var (r', out) := Reorder(r, l, sent[base]);
      && base >= r.lastRecv
      && (out.Rejected? <==> base >= r.lastRecv + OOO_LIMIT + 1)
      && (out.Rejected? ==> BenignError(out.error))
      && (!out.Rejected? ==>
            && out.Delivered?
            && ReceiverInv(r')
            && Received(r', sent, route)
            && r'.legRecv == r.legRecv.Put(l, base + 1)
            && sent[..r.lastRecv] + out.cells == sent[..r'.lastRecv])
  {
    var base := r.legRecv.At(l);
    assert !Got(r.legRecv, route, base);
    ReorderAgainstAnyPeer(r, l, sent[base]);
    if r.lastRecv < base < r.lastRecv + OOO_LIMIT + 1 {
      ReadAhead(r, l, sent, route);
    } else if base == r.lastRecv {
      ReadNext(r, l, sent, route);
    }
  }

  lemma GotAfterRead(legRecv: PerLeg<nat>, l: Leg, route: seq<Leg>, k: nat)
    requires k < |route|
    requires legRecv.At(l) < |route| && route[legRecv.At(l)] == l
    ensures Got(legRecv.Put(l, legRecv.At(l) + 1), route, k) <==> Got(legRecv, route, k) || k == legRecv.At(l)
  {
  }

  lemma ReadAhead(r: Receiver<RelayCell>, l: Leg, sent: seq<RelayCell>, route: seq<Leg>)
    requires |route| == |sent|
    requires ReceiverInv(r) && Received(r, sent, route)
    requires r.legRecv.At(l) < |sent| && route[r.legRecv.At(l)] == l
    requires r.lastRecv < r.legRecv.At(l) < r.lastRecv + OOO_LIMIT + 1
    ensures var base := r.legRecv.At(l);
      var (r', out) := Reorder(r, l, sent[base]);
      && out == Delivered([])
      && Received(r', sent, route)
      && r'.legRecv == r.legRecv.Put(l, base + 1)
      && r'.lastRecv == r.lastRecv
  {
    var base := r.legRecv.At(l);
    assert !Got(r.legRecv, route, base);
    ReorderAgainstAnyPeer(r, l, sent[base]);
    var r' := Reorder(r, l, sent[base]).0;
    assert r' == r.(legRecv := r.legRecv.Put(l, base + 1), ooo := r.ooo[base + 1 := sent[base]]);
    forall k | 0 <= k < |route|
      ensures Got(r'.legRecv, route, k) <==> Got(r.legRecv, route, k) || k == base
    {
      GotAfterRead(r.legRecv, l, route, k);
    }
  }

  lemma ReadNext(r: Receiver<RelayCell>, l: Leg, sent: seq<RelayCell>, route: seq<Leg>)
    requires |route| == |sent|
    requires Received(r, sent, route)
    requires r.legRecv.At(l) == r.lastRecv < |sent| && route[r.lastRecv] == l
    ensures var (r', out) := Reorder(r, l, sent[r.lastRecv]);
      && out.Delivered?
      && Received(r', sent, route)
      && r'.legRecv == r.legRecv.Put(l, r.lastRecv + 1)
      && r'.lastRecv > r.lastRecv
      && sent[..r.lastRecv] + out.cells == sent[..r'.lastRecv]
  {
    var (last, ooo, d) := Drain(r.lastRecv + 1, r.ooo);
    DrainExact(r.lastRecv + 1, r.ooo);
    DeliveredRun(r, sent, route, last, d);
    DrainedReceived(r, l, sent, route, last, ooo);
  }

  lemma DrainedReceived(r: Receiver<RelayCell>, l: Leg, sent: seq<RelayCell>, route: seq<Leg>,
                        last: nat, ooo: map<nat, RelayCell>)
    requires |route| == |sent|
    requires Received(r, sent, route)
    requires r.legRecv.At(l) == r.lastRecv < last <= |sent| && route[r.lastRecv] == l
    requires forall n :: r.lastRecv + 1 < n <= last ==> n in r.ooo
    requires last + 1 !in r.ooo
    requires ooo == map n | n in r.ooo && !(r.lastRecv + 1 < n <= last) :: r.ooo[n]
    ensures Received(Receiver(last, r.legRecv.Put(l, r.lastRecv + 1), ooo), sent, route)
  {
    var base := r.lastRecv;
    var legRecv' := r.legRecv.Put(l, base + 1);
    forall k | 0 <= k < |route|
      ensures Got(legRecv', route, k) <==> Got(r.legRecv, route, k) || k == base
    {
      GotAfterRead(r.legRecv, l, route, k);
    }
    forall k | 0 <= k < last
      ensures Got(legRecv', route, k)
    {
      assert k > base ==> k + 1 in r.ooo;
    }
  }

  lemma DeliveredRun(r: Receiver<RelayCell>, sent: seq<RelayCell>, route: seq<Leg>, last: nat, d: seq<RelayCell>)
    requires |route| == |sent|
    requires Received(r, sent, route)
    requires r.lastRecv < |sent|
    requires last >= r.lastRecv + 1 && |d| == last - (r.lastRecv + 1)
    requires forall n :: r.lastRecv + 1 < n <= last ==> n in r.ooo && d[n - (r.lastRecv + 1) - 1] == r.ooo[n]
    ensures last <= |sent|
    ensures sent[..r.lastRecv] + ([sent[r.lastRecv]] + d) == sent[..last]
  {
    assert last > r.lastRecv + 1 ==> last in r.ooo;
    var got := sent[..r.lastRecv] + ([sent[r.lastRecv]] + d);
    forall i | 0 <= i < last
      ensures got[i] == sent[i]
    {
      if i > r.lastRecv {
        assert i + 1 in r.ooo;
        assert got[i] == d[i - r.lastRecv - 1] == r.ooo[i + 1];
      }
    }
  }

  /** Reading a SWITCH. It never fails to advance, and changes which cells count as
      read not at all: it only levels the leg with the cells that took the other. */
  lemma ReadSwitch(r: Receiver<RelayCell>, l: Leg, sent: seq<RelayCell>, route: seq<Leg>, closed: bool, cell: RelayCell)
    requires |route| == |sent|
    requires ReceiverInv(r) && Received(r, sent, route)
    requires cell.command == RELAY_CONFLUX_SWITCH
    requires Fits(cell, r.legRecv.At(l), l, sent, route, closed)
    ensures var base := r.legRecv.At(l);
      var (r', out) := HandleSwitch(r, l, cell.data);
      && base + Weight(cell) >= r.lastRecv
      && (out.Rejected? <==> base > r.legRecv.At(l.Other()) || base + Weight(cell) > r.lastRecv + OOO_LIMIT + 1)
      && (out.Rejected? ==> BenignError(out.error))
      && (!out.Rejected? ==>
            && out == Delivered([])
            && ReceiverInv(r')
            && Received(r', sent, route)
            && r' == r.(legRecv := r.legRecv.Put(l, base + Weight(cell))))
  {
    var base := r.legRecv.At(l);
    var to := base + Weight(cell);
    assert to < |route| ==> !Got(r.legRecv, route, to);
    SwitchReadsNothing(r, l, sent, route, to);
  }

  /** Levelling a leg over cells of the other leg. */
  lemma SwitchReadsNothing(r: Receiver<RelayCell>, l: Leg, sent: seq<RelayCell>, route: seq<Leg>, to: nat)
    requires |route| == |sent|
    requires Received(r, sent, route)
    requires r.legRecv.At(l) <= to <= |route|
    requires forall k :: r.legRecv.At(l) <= k < to ==> route[k] != l
    ensures Received(r.(legRecv := r.legRecv.Put(l, to)), sent, route)
  {
    forall k | 0 <= k < |route|
      ensures Got(r.legRecv.Put(l, to), route, k) <==> Got(r.legRecv, route, k)
    {
    }
  }

  /** When a cell read off a leg is refused. */
  predicate CellFails(r: Receiver<RelayCell>, l: Leg, cell: RelayCell) {
    var base := r.legRecv.At(l);
    if ShouldMultiplex(cell.command) then
      base >= r.lastRecv + OOO_LIMIT + 1
    else
      cell.command == RELAY_CONFLUX_SWITCH &&
      (base > r.legRecv.At(l.Other()) || base + Weight(cell) > r.lastRecv + OOO_LIMIT + 1)
  }

  predicate ReadFails(s: System, l: Leg) {
    s.wire.At(l) != [] && CellFails(s.rcv, l, s.wire.At(l)[0])
  }

  /** Reading a leg's first cell leaves the rest of the leg right. */
  lemma LegsAfterRead(wire: PerLeg<seq<RelayCell>>, legRecv: PerLeg<nat>, legSent: PerLeg<nat>,
                      sent: seq<RelayCell>, route: seq<Leg>, closed: bool, l: Leg)
    requires |route| == |sent|
    requires Legs(wire, legRecv, legSent, sent, route, closed)
    requires wire.At(l) != []
    ensures Fits(wire.At(l)[0], legRecv.At(l), l, sent, route, closed)
    ensures Legs(wire.Put(l, wire.At(l)[1..]), legRecv.Put(l, legRecv.At(l) + Weight(wire.At(l)[0])), legSent,
                 sent, route, closed)
  {
  }

  /** What reading a rightly placed cell leads to. */
  ghost predicate ReadResult(r: Receiver<RelayCell>, l: Leg, cell: RelayCell, sent: seq<RelayCell>, route: seq<Leg>,
                             r': Receiver<RelayCell>, out: Outcome<RelayCell>)
    requires |route| == |sent|
  {
    && (out.Rejected? ==> BenignError(out.error) && r'.lastRecv == r.lastRecv)
    && (!out.Rejected? ==>
          && ReceiverInv(r')
          && Received(r', sent, route)
          && r.lastRecv <= |sent|
          && r'.legRecv == r.legRecv.Put(l, r.legRecv.At(l) + Weight(cell))
          && sent[..r.lastRecv] + (if out.Delivered? then out.cells else []) == sent[..r'.lastRecv])
  }

  lemma ReadAny(r: Receiver<RelayCell>, l: Leg, sent: seq<RelayCell>, route: seq<Leg>, closed: bool, cell: RelayCell)
    requires |route| == |sent|
    requires ReceiverInv(r) && Received(r, sent, route)
    requires Fits(cell, r.legRecv.At(l), l, sent, route, closed)
    ensures var (r', out) := Receive(r, l, cell);
      (out.Rejected? <==> CellFails(r, l, cell)) && ReadResult(r, l, cell, sent, route, r', out)
  {
    if ShouldMultiplex(cell.command) {
      ReadData(r, l, sent, route);
    } else if cell.command == RELAY_CONFLUX_SWITCH {
      ReadSwitch(r, l, sent, route, closed, cell);
    } else {
      assert r.legRecv.Put(l, r.legRecv.At(l) + 0) == r.legRecv;
    }
  }

  lemma TransitAfterRead(r: Receiver<RelayCell>, wire: PerLeg<seq<RelayCell>>, legSent: PerLeg<nat>,
                         sent: seq<RelayCell>, route: seq<Leg>, closed: bool, l: Leg,
                         r': Receiver<RelayCell>, out: Outcome<RelayCell>)
    requires Transit(r, wire, legSent, sent, route, closed)
    requires wire.At(l) != []
    requires ReadResult(r, l, wire.At(l)[0], sent, route, r', out) && !out.Rejected?
    ensures Transit(r', wire.Put(l, wire.At(l)[1..]), legSent, sent, route, closed)
  {
    LegsAfterRead(wire, r.legRecv, legSent, sent, route, closed, l);
  }

  /** In an honest run a read fails exactly when the leg is more than 256 cells ahead of
      what has been delivered, or a SWITCH arrives on the leg that alone is furthest
      ahead. No read is ever refused as a duplicate, an occupied slot or a SWITCH that
      does not advance. */
  lemma RecvKeepsInv(s: System, l: Leg)
    requires Inv(s)
    ensures Inv(RecvStep(s, l))
    ensures s.rcvError.None? ==> (RecvStep(s, l).rcvError.Some? <==> ReadFails(s, l))
  {
    if s.rcvError.None? && s.wire.At(l) != [] {
      LegsAfterRead(s.wire, s.rcv.legRecv, s.snd.legSent, s.sent, s.route, s.sndClosed, l);
      ReadAny(s.rcv, l, s.sent, s.route, s.sndClosed, s.wire.At(l)[0]);
      var (rcv, out) := Receive(s.rcv, l, s.wire.At(l)[0]);
      if !out.Rejected? {
        TransitAfterRead(s.rcv, s.wire, s.snd.legSent, s.sent, s.route, s.sndClosed, l, rcv, out);
      }
      var wire := s.wire.Put(l, s.wire.At(l)[1..]);
      match out
      case Rejected(e) =>
        assert RecvStep(s, l) == s.(rcv := rcv, wire := wire, rcvError := Some(e));
      case NotHandled =>
        assert s.delivered + [] == s.delivered;
        assert RecvStep(s, l) == s.(rcv := rcv, wire := wire);
      case Delivered(cells) =>
        assert RecvStep(s, l) == s.(rcv := rcv, wire := wire, delivered := s.delivered + cells);
    }
  }

  // ---------------------------------------------------------------- whole runs

  lemma InitInv(first: Leg)
    ensures Inv(Init(first))
  {
    assert forall l: Leg :: LastOn([], l) == 0;
  }

  lemma StepKeepsInv(s: System, e: Event)
    requires Inv(s)
    ensures Inv(Step(s, e))
    ensures s.rcvError.None? ==> (Step(s, e).rcvError.Some? <==> e.Recv? && ReadFails(s, e.leg))
    ensures s.rcvError.Some? ==> Step(s, e).rcvError.Some?
  {
    match e
    case Send(cell, l, net) => SendKeepsInv(s, cell, l, net);
    case Recv(l) => RecvKeepsInv(s, l);
  }

  lemma {:induction false} RunKeepsInv(s: System, es: seq<Event>)
    requires Inv(s)
    ensures Inv(Run(s, es))
    ensures s.rcvError.Some? ==> Run(s, es).rcvError.Some?
    decreases |es|
  {
    if es != [] {
      StepKeepsInv(s, es[0]);
      RunKeepsInv(Step(s, es[0]), es[1..]);
    }
  }

  /** The i-th event of a run is a read that the receiver refuses. */
  ghost predicate FailsAt(s: System, es: seq<Event>, i: nat)
    requires SenderInv(s.snd)
  {
    i < |es| && es[i].Recv? && ReadFails(Run(s, es[..i]), es[i].leg)
  }

  lemma {:induction false} FailsIff(s: System, es: seq<Event>)
    requires Inv(s) && s.rcvError.None?
    ensures Run(s, es).rcvError.Some? <==> exists i: nat :: FailsAt(s, es, i)
    decreases |es|
  {
    if es != [] {
      var t, rest := Step(s, es[0]), es[1..];
      StepKeepsInv(s, es[0]);
      assert es[..0] == [];
      assert t.rcvError.Some? <==> FailsAt(s, es, 0);
      if t.rcvError.Some? {
        RunKeepsInv(t, rest);
      } else {
        FailsIff(t, rest);
        LaterFailures(s, es);
      }
    }
  }

  lemma LaterFailures(s: System, es: seq<Event>)
    requires Inv(s) && es != [] && SenderInv(Step(s, es[0]).snd) && !FailsAt(s, es, 0)
    ensures (exists i: nat :: FailsAt(s, es, i)) <==> exists i: nat :: FailsAt(Step(s, es[0]), es[1..], i)
  {
    var t, rest := Step(s, es[0]), es[1..];
    forall i: nat
      ensures FailsAt(t, rest, i) <==> FailsAt(s, es, i + 1)
    {
      if i < |rest| {
        assert es[..i + 1][1..] == rest[..i];
      }
    }
    forall i: nat | FailsAt(s, es, i)
      ensures exists j: nat :: FailsAt(t, rest, j)
    {
      assert FailsAt(t, rest, i - 1);
    }
  }

  /** A run fails if and only if one of its reads meets a cell more than 256 ahead of what
      was delivered or a SWITCH on the leading leg. */
  lemma RunFailsIff(first: Leg, es: seq<Event>)
    ensures SenderInv(Init(first).snd)
    ensures Run(Init(first), es).rcvError.Some? <==> exists i: nat :: FailsAt(Init(first), es, i)
  {
    InitInv(first);
    FailsIff(Init(first), es);
  }

  /** Safety. Whatever legs the sender picks, whatever sends fail and however the legs
      interleave: what was handed over is a prefix of what was sent, in order and each
      once; the current leg is level with the set, and while the sender is open each leg's
      counter is the number of the last cell that took it; the only errors are the distance
      limits and the receive-leader check; and until one occurs, every cell sent is
      delivered, buffered under its number or still on its leg at the place of its number,
      and each leg's counter plus the weight of its contents is the sender's counter. */
  lemma ConfluxSafety(first: Leg, es: seq<Event>)
    ensures SenderInv(Init(first).snd)
    ensures var s := Run(Init(first), es);
      && s.delivered <= s.sent
      && (s.rcvError.Some? ==> BenignError(s.rcvError.value))
      && (match s.snd.current case Some(l) => s.snd.legSent.At(l) == s.snd.lastSent case None => false)
      && s.snd.lastSent == |s.sent| == |s.route|
      && (!s.sndClosed ==> SentMatchesRoute(s.snd.legSent, s.route))
      && (s.rcvError.None? ==>
            && |s.delivered| == s.rcv.lastRecv
            && (forall l :: s.rcv.legRecv.At(l) + TotalWeight(s.wire.At(l)) == s.snd.legSent.At(l))
            && (forall k :: 0 <= k < |s.sent| ==>
                  (Got(s.rcv.legRecv, s.route, k) <==> k < s.rcv.lastRecv || k + 1 in s.rcv.ooo))
            && (forall n :: n in s.rcv.ooo ==> s.rcv.lastRecv < n <= |s.sent| && s.rcv.ooo[n] == s.sent[n - 1])
            && (forall k :: 0 <= k < |s.sent| && !Got(s.rcv.legRecv, s.route, k) ==>
                  OnLeg(s.wire.At(s.route[k]), s.rcv.legRecv.At(s.route[k]), s.sent[k], k)))
  {
    InitInv(first);
    RunKeepsInv(Init(first), es);
    var s := Run(Init(first), es);
    CurrentStays(Init(first), es);
    if s.rcvError.None? {
      forall l
        ensures s.rcv.legRecv.At(l) + TotalWeight(s.wire.At(l)) == s.snd.legSent.At(l)
      {
        InFlightEnd(s.wire.At(l), s.rcv.legRecv.At(l), s.snd.legSent.At(l), l, s.sent, s.route, s.sndClosed);
      }
      forall k | 0 <= k < |s.sent|
        ensures Got(s.rcv.legRecv, s.route, k) <==> k < s.rcv.lastRecv || k + 1 in s.rcv.ooo
      {
        assert k + 1 in s.rcv.ooo <==> s.rcv.lastRecv < k + 1 <= |s.sent| && Got(s.rcv.legRecv, s.route, k);
      }
      forall k | 0 <= k < |s.sent| && !Got(s.rcv.legRecv, s.route, k)
        ensures OnLeg(s.wire.At(s.route[k]), s.rcv.legRecv.At(s.route[k]), s.sent[k], k)
      {
        var l := s.route[k];
        UnreadIsOnLeg(s.wire.At(l), s.rcv.legRecv.At(l), s.snd.legSent.At(l), l, s.sent, s.route, s.sndClosed, k);
      }
    }
  }

  lemma {:induction false} CurrentStays(s: System, es: seq<Event>)
    requires SenderInv(s.snd) && s.snd.current.Some?
    ensures Run(s, es).snd.current.Some?
    decreases |es|
  {
    if es != [] {
      StepKeepsSenderInv(s, es[0]);
      CurrentStays(Step(s, es[0]), es[1..]);
    }
  }

  /** Completeness. With no error and nothing left on the legs, everything sent has been
      handed over, the buffer is empty and the counters of the two ends agree. */
  lemma EmptyLegsComplete(s: System)
    requires Inv(s) && s.rcvError.None?
    requires s.wire == PerLeg([], [])
    ensures s.delivered == s.sent
    ensures s.rcv.ooo == map[]
    ensures s.rcv.legRecv == s.snd.legSent
  {
    forall k | 0 <= k < |s.sent|
      ensures Got(s.rcv.legRecv, s.route, k)
    {
    }
    assert s.sent[..|s.sent|] == s.sent;
    assert forall n :: n !in s.rcv.ooo;
  }

  // ---------------------------------------------------------------- nothing offered is lost

  predicate OffersCell(e: Event) {
    e.Send? && ShouldMultiplex(e.cell.command)
  }

  /** The sequenced cells offered in a run, each with the leg chosen for it. */
  function Offered(es: seq<Event>): seq<(RelayCell, Leg)> {
    if es == [] then [] else OfferedBy(es[0]) + Offered(es[1..])
  }

  function OfferedBy(e: Event): seq<(RelayCell, Leg)> {
    if OffersCell(e) then [(e.cell, e.leg)] else []
  }

  /** What was sent, each cell with the leg it took. */
  function SentOn(s: System): seq<(RelayCell, Leg)>
    requires |s.sent| == |s.route|
  {
    seq(|s.sent|, i requires 0 <= i < |s.sent| => (s.sent[i], s.route[i]))
  }

  /** Flow control and the network grant every sequenced send, and no gap exceeds 32 bits. */
  ghost predicate Granted(s: System, es: seq<Event>)
    requires SenderInv(s.snd)
    decreases |es|
  {
    es != [] ==>
      && GrantedOne(s, es[0])
      && (StepKeepsSenderInv(s, es[0]); Granted(Step(s, es[0]), es[1..]))
  }

  predicate GrantedOne(s: System, e: Event) {
    OffersCell(e) ==> e.net == Net(true, true, true) && s.snd.lastSent - s.snd.legSent.At(e.leg) <= 0xFFFF_FFFF
  }

  /** Then every sequenced cell offered is sent, in order, on the leg chosen for it. */
  lemma {:induction false} GrantedRunSends(s: System, es: seq<Event>)
    requires SenderInv(s.snd) && !s.sndClosed && |s.sent| == |s.route| && Granted(s, es)
    ensures var t := Run(s, es);
      !t.sndClosed && |t.sent| == |t.route| && SentOn(t) == SentOn(s) + Offered(es)
    decreases |es|
  {
    if es != [] {
      StepKeepsSenderInv(s, es[0]);
      GrantedStep(s, es[0]);
      GrantedRunSends(Step(s, es[0]), es[1..]);
      Reassociate(SentOn(s), OfferedBy(es[0]), Offered(es[1..]));
    }
  }

  lemma Reassociate<T>(a: seq<T>, b: seq<T>, c: seq<T>)
    ensures (a + b) + c == a + (b + c)
  {
  }

  lemma GrantedStep(s: System, e: Event)
    requires SenderInv(s.snd) && !s.sndClosed && |s.sent| == |s.route| && GrantedOne(s, e)
    ensures var t := Step(s, e);
      !t.sndClosed && |t.sent| == |t.route| && SentOn(t) == SentOn(s) + OfferedBy(e)
  {
    if OffersCell(e) {
      SendOutcomes(s.snd, e.cell, e.leg, e.net);
      var t := Step(s, e);
      assert t.sent == s.sent + [e.cell] && t.route == s.route + [e.leg];
    }
  }

  /** From a fresh set, a run whose sends are all granted and whose legs end up empty without
      an error has delivered exactly the sequenced cells offered, in order. */
  lemma OfferedIsDelivered(first: Leg, es: seq<Event>)
    requires SenderInv(Init(first).snd) && Granted(Init(first), es)
    ensures var s := Run(Init(first), es);
      && |s.sent| == |s.route| && SentOn(s) == Offered(es)
      && (s.rcvError.None? && s.wire == PerLeg([], []) ==>
            |s.delivered| == |Offered(es)| && forall i :: 0 <= i < |s.delivered| ==> s.delivered[i] == Offered(es)[i].0)
  {
    GrantedRunSends(Init(first), es);
    RunComplete(first, es);
    var s := Run(Init(first), es);
    assert SentOn(Init(first)) == [];
    assert forall i :: 0 <= i < |s.sent| ==> SentOn(s)[i].0 == s.sent[i];
  }

  // ---------------------------------------------------------------- reading in order

  /** The leg that holds the next undelivered cell, or any leg with something left. */
  function NextLeg(s: System): Leg
    requires |s.route| == |s.sent|
  {
    if s.rcv.lastRecv < |s.sent| then s.route[s.rcv.lastRecv]
    else if s.wire.leg0 != [] then Leg0 else Leg1
  }

  /** Cell number k+1 was read and took the other leg, so that leg's counter is above k. */
  lemma OtherAhead(r: Receiver<RelayCell>, sent: seq<RelayCell>, route: seq<Leg>, l: Leg, k: nat)
    requires |route| == |sent|
    requires Received(r, sent, route)
    requires k < r.lastRecv && r.legRecv.At(l) <= k
    ensures r.legRecv.At(l.Other()) > k
  {
    assert Got(r.legRecv, route, k);
  }

  lemma NextReadData(r: Receiver<RelayCell>, sent: seq<RelayCell>, route: seq<Leg>, l: Leg)
    requires |route| == |sent|
    requires Received(r, sent, route)
    requires r.legRecv.At(l) < |sent| && route[r.legRecv.At(l)] == l
    requires r.lastRecv == |sent| || route[r.lastRecv] == l
    ensures r.legRecv.At(l) == r.lastRecv
  {
    var base := r.legRecv.At(l);
    assert !Got(r.legRecv, route, base);
    assert r.lastRecv < |sent| ==> !Got(r.legRecv, route, r.lastRecv);
  }

  /** A SWITCH met when reading in order levels its leg exactly with what has been
      delivered: its target equals lastRecv, and is not above it. */
  lemma NextReadSwitch(r: Receiver<RelayCell>, sent: seq<RelayCell>, route: seq<Leg>, closed: bool, l: Leg, cell: RelayCell)
    requires |route| == |sent|
    requires Received(r, sent, route)
    requires cell.command == RELAY_CONFLUX_SWITCH
    requires Fits(cell, r.legRecv.At(l), l, sent, route, closed)
    requires r.lastRecv == |sent| || route[r.lastRecv] == l
    ensures r.legRecv.At(l) + Weight(cell) == r.lastRecv
    ensures r.legRecv.At(l) < r.legRecv.At(l.Other())
  {
    var base := r.legRecv.At(l);
    var to := base + Weight(cell);
    assert to < |sent| ==> !Got(r.legRecv, route, to);
    assert to >= r.lastRecv;
    if r.lastRecv < |sent| {
      assert !Got(r.legRecv, route, r.lastRecv);
      assert base <= r.lastRecv;
    }
    assert to <= r.lastRecv;
    OtherAhead(r, sent, route, l, r.lastRecv - 1);
  }

  /** Reading the leg that holds the next undelivered cell never fails. */
  lemma NextLegReads(s: System)
    requires Inv(s) && s.rcvError.None?
    requires s.wire != PerLeg([], [])
    ensures s.wire.At(NextLeg(s)) != []
    ensures !ReadFails(s, NextLeg(s))
    ensures var cell := s.wire.At(NextLeg(s))[0];
      cell.command == RELAY_CONFLUX_SWITCH ==> s.rcv.legRecv.At(NextLeg(s)) + Weight(cell) == s.rcv.lastRecv
  {
    var l := NextLeg(s);
    if s.rcv.lastRecv < |s.sent| {
      assert !Got(s.rcv.legRecv, s.route, s.rcv.lastRecv);
    }
    assert InFlight(s.wire.At(l), s.rcv.legRecv.At(l), s.snd.legSent.At(l), l, s.sent, s.route, s.sndClosed);
    assert s.wire.At(l) != [];
    var cell := s.wire.At(l)[0];
    if ShouldMultiplex(cell.command) {
      NextReadData(s.rcv, s.sent, s.route, l);
    } else if cell.command == RELAY_CONFLUX_SWITCH {
      NextReadSwitch(s.rcv, s.sent, s.route, s.sndClosed, l, cell);
    }
  }

  predicate OnlyRecv(es: seq<Event>) {
    forall i :: 0 <= i < |es| ==> es[i].Recv?
  }

  /** No honest state is lost: from any error-free state of any run there is an order of
      reading the legs that hands over everything sent, without error. */
  lemma {:induction false} AlwaysDrainable(s: System) returns (es: seq<Event>)
    requires Inv(s) && s.rcvError.None?
    ensures OnlyRecv(es)
    ensures var t := Run(s, es);
      && t.rcvError.None?
      && t.wire == PerLeg([], [])
      && t.sent == s.sent == t.delivered
      && t.rcv.ooo == map[]
      && t.rcv.legRecv == s.snd.legSent
    decreases |s.wire.leg0| + |s.wire.leg1|
  {
    if s.wire == PerLeg([], []) {
      es := [];
      EmptyLegsComplete(s);
    } else {
      var l := NextLeg(s);
      NextLegReads(s);
      RecvKeepsInv(s, l);
      var s1 := RecvStep(s, l);
      RecvFrame(s, l);
      var rest := AlwaysDrainable(s1);
      es := [Recv(l)] + rest;
      assert es[1..] == rest;
      assert Run(s, es) == Run(s1, rest);
    }
  }

  lemma RecvFrame(s: System, l: Leg)
    requires s.rcvError.None? && s.wire.At(l) != []
    ensures var t := RecvStep(s, l);
      && t.sent == s.sent && t.snd == s.snd
      && |t.wire.leg0| + |t.wire.leg1| == |s.wire.leg0| + |s.wire.leg1| - 1
  {
  }

  /** Completeness, for runs. */
  lemma RunComplete(first: Leg, es: seq<Event>)
    ensures SenderInv(Init(first).snd)
    ensures var s := Run(Init(first), es);
      s.rcvError.None? && s.wire == PerLeg([], []) ==>
        s.delivered == s.sent && s.rcv.ooo == map[] && s.rcv.legRecv == s.snd.legSent
  {
    InitInv(first);
    RunKeepsInv(Init(first), es);
    var s := Run(Init(first), es);
    if s.rcvError.None? && s.wire == PerLeg([], []) {
      EmptyLegsComplete(s);
    }
  }

  /** Every error-free run can be continued, by reads alone, to full delivery. */
  lemma EveryRunDrains(first: Leg, es: seq<Event>) returns (more: seq<Event>)
    requires SenderInv(Init(first).snd)
    requires Run(Init(first), es).rcvError.None?
    ensures OnlyRecv(more)
    ensures SenderInv(Run(Init(first), es).snd)
    ensures var t := Run(Run(Init(first), es), more);
      t.rcvError.None? && t.wire == PerLeg([], []) && t.delivered == Run(Init(first), es).sent
  {
    InitInv(first);
    RunKeepsInv(Init(first), es);
    more := AlwaysDrainable(Run(Init(first), es));
  }

  // ---------------------------------------------------------------- an honest run that fails

  function OneSent(cell: RelayCell): System {
    Init(Leg0).(snd := Sender(1, PerLeg(1, 0), Some(Leg0)), wire := PerLeg([cell], []), sent := [cell], route := [Leg0])
  }

  function TwoSent(cell: RelayCell): System {
    Init(Leg0).(snd := Sender(2, PerLeg(1, 2), Some(Leg1)), wire := PerLeg([cell], [SwitchCell(1), cell]),
                sent := [cell, cell], route := [Leg0, Leg1])
  }

  function ThreeSent(cell: RelayCell): System {
    System(Sender(3, PerLeg(3, 2), Some(Leg0)), false, Receiver(0, PerLeg(0, 0), map[]), None,
           PerLeg([cell, SwitchCell(1), cell], [SwitchCell(1), cell]),
           [cell, cell, cell], [Leg0, Leg1, Leg0], [])
  }

  function GoodSend(cell: RelayCell, l: Leg): Event {
    Send(cell, l, Net(true, true, true))
  }

  lemma FirstSend(cell: RelayCell)
    requires ShouldMultiplex(cell.command)
    ensures Step(Init(Leg0), GoodSend(cell, Leg0)) == OneSent(cell)
  {
    var s, t := Init(Leg0), OneSent(cell);
    assert SendMultiplexed(s.snd, cell, Leg0, Net(true, true, true)) == (t.snd, [] + [cell], Sent);
    assert [] + ([] + [cell]) == t.wire.leg0 && s.sent + [cell] == t.sent && s.route + [Leg0] == t.route;
  }

  lemma SecondSend(cell: RelayCell)
    requires ShouldMultiplex(cell.command)
    ensures Step(OneSent(cell), GoodSend(cell, Leg1)) == TwoSent(cell)
  {
    var s, t := OneSent(cell), TwoSent(cell);
    assert SendMultiplexed(s.snd, cell, Leg1, Net(true, true, true)) == (t.snd, [SwitchCell(1)] + [cell], Sent);
    assert [] + ([SwitchCell(1)] + [cell]) == t.wire.leg1 && s.sent + [cell] == t.sent && s.route + [Leg1] == t.route;
  }

  lemma ThirdSend(cell: RelayCell)
    requires ShouldMultiplex(cell.command)
    ensures Step(TwoSent(cell), GoodSend(cell, Leg0)) == ThreeSent(cell)
  {
    var s, t := TwoSent(cell), ThreeSent(cell);
    assert SendMultiplexed(s.snd, cell, Leg0, Net(true, true, true)) == (t.snd, [SwitchCell(1)] + [cell], Sent);
    assert [cell] + ([SwitchCell(1)] + [cell]) == t.wire.leg0;
    assert s.sent + [cell] == t.sent && s.route + [Leg0] == t.route;
  }

  lemma ThreeSends(cell: RelayCell, rest: seq<Event>)
    requires ShouldMultiplex(cell.command)
    ensures SenderInv(Init(Leg0).snd)
    ensures SenderInv(ThreeSent(cell).snd)
    ensures Run(Init(Leg0), [GoodSend(cell, Leg0), GoodSend(cell, Leg1), GoodSend(cell, Leg0)] + rest)
            == Run(ThreeSent(cell), rest)
  {
    var es := [GoodSend(cell, Leg0), GoodSend(cell, Leg1), GoodSend(cell, Leg0)] + rest;
    assert es[1..][1..] == es[2..] && es[2..][1..] == rest;
    FirstSend(cell);
    SecondSend(cell);
    ThirdSend(cell);
    assert Run(OneSent(cell), es[1..]) == Run(TwoSent(cell), es[2..]);
    assert Run(TwoSent(cell), es[2..]) == Run(ThreeSent(cell), rest);
  }

  /** Three cells sent on legs 0, 1, 0, with leg 1 delayed: the SWITCH that precedes the
      third arrives on the leg that is alone ahead, and is refused. */
  lemma DelayedLegFails(cell: RelayCell)
    requires ShouldMultiplex(cell.command)
    ensures SenderInv(Init(Leg0).snd)
    ensures var es := [GoodSend(cell, Leg0), GoodSend(cell, Leg1), GoodSend(cell, Leg0)] + [Recv(Leg0), Recv(Leg0)];
      && Run(Init(Leg0), es).rcvError == Some(SwitchFromLeader)
      && Run(Init(Leg0), es).delivered == [cell]
  {
    ThreeSends(cell, [Recv(Leg0), Recv(Leg0)]);
    var s3 := ThreeSent(cell);
    var s4 := RecvStep(s3, Leg0);
    assert Drain(1, s3.rcv.ooo) == (1, map[], []);
    assert s4 == s3.(rcv := Receiver(1, PerLeg(1, 0), map[]), delivered := [cell],
                     wire := s3.wire.Put(Leg0, [SwitchCell(1), cell]));
    var s5 := RecvStep(s4, Leg0);
    assert s5.rcvError == Some(SwitchFromLeader);
    assert [Recv(Leg0), Recv(Leg0)][1..] == [Recv(Leg0)];
    assert Run(s4, [Recv(Leg0)]) == Run(s5, []);
  }
}
