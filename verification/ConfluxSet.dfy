/** The ConfluxSet object: counters, current leg and out-of-order buffer updated in
    place, each method proved against the functions of ConfluxSpec. */
module ConfluxSet {
  import opened Bytes
  import opened RelayCodec
  import opened ConfluxSpec

  type CircuitId = nat

  /** What LinkConflux asks of a circuit. */
  datatype Circuit = Circuit(id: CircuitId, congestionControl: bool, length: nat, open: bool)

  datatype LinkRefusal = MissingCircuit | SameCircuit | NoCongestionControl | TooShort | NotOpen

  class ConfluxLeg {
    const circ: CircuitId
    var lastSent: nat
    var lastRecv: nat
    var gotLinked: bool
    var ackSent: bool
    var rtt: nat

    constructor (circ: CircuitId)
      ensures this.circ == circ && lastSent == 0 && lastRecv == 0 && !gotLinked && !ackSent && rtt == 0
    {
      this.circ := circ;
      lastSent, lastRecv, rtt := 0, 0, 0;
      gotLinked, ackSent := false, false;
    }
  }

  /** The checks of LinkConflux, in its order, and the set it makes. */
  method LinkConflux(primary: Option<Circuit>, secondary: Option<Circuit>, nonce: Nonce)
    returns (r: Result<ConfluxSet, LinkRefusal>)
    ensures r.Ok? <==>
      && primary.Some? && secondary.Some? && primary.value.id != secondary.value.id
      && primary.value.congestionControl && secondary.value.congestionControl
      && primary.value.length >= 3 && secondary.value.length >= 3
      && primary.value.open && secondary.value.open
    ensures r.Ok? ==>
      && fresh(r.value) && r.value.Valid() && !r.value.linked && !r.value.closed && r.value.nonce == nonce
      && r.value.leg0.circ == primary.value.id && r.value.leg1.circ == secondary.value.id
      && r.value.Receiving() == Receiver(0, PerLeg(0, 0), map[])
      && r.value.Sending() == Sender(0, PerLeg(0, 0), None)
  {
    if primary.None? || secondary.None? {
      return Err(MissingCircuit);
    }
    if primary.value.id == secondary.value.id {
      return Err(SameCircuit);
    }
    if !primary.value.congestionControl || !secondary.value.congestionControl {
      return Err(NoCongestionControl);
    }
    if primary.value.length < 3 || secondary.value.length < 3 {
      return Err(TooShort);
    }
    if !primary.value.open || !secondary.value.open {
      return Err(NotOpen);
    }
    var linkset := new ConfluxSet(primary.value.id, secondary.value.id, nonce);
    return Ok(linkset);
  }

  class ConfluxSet {
    const leg0: ConfluxLeg
    const leg1: ConfluxLeg
    const nonce: Nonce
    var linked: bool
    var closed: bool
    var lastSent: nat
    var lastRecv: nat
    var current: Option<Leg>
    var ooo: map<nat, RelayCell>

    ghost function Receiving(): Receiver<RelayCell>
      reads this, leg0, leg1
    {
      Receiver(lastRecv, PerLeg(leg0.lastRecv, leg1.lastRecv), ooo)
    }

    ghost function Sending(): Sender
      reads this, leg0, leg1
    {
      Sender(lastSent, PerLeg(leg0.lastSent, leg1.lastSent), current)
    }

    ghost predicate Valid()
      reads this, leg0, leg1
    {
      && leg0 != leg1
      && leg0.circ != leg1.circ
      && !(linked && closed)
      && (linked ==> leg0.gotLinked && leg1.gotLinked)
      && SenderInv(Sending())
      && ReceiverInv(Receiving())
    }

    constructor (primary: CircuitId, secondary: CircuitId, nonce: Nonce)
      requires primary != secondary
      ensures Valid() && fresh(leg0) && fresh(leg1)
      ensures !linked && !closed
      ensures Receiving() == Receiver(0, PerLeg(0, 0), map[])
      ensures Sending() == Sender(0, PerLeg(0, 0), None)
      ensures leg0.circ == primary && leg1.circ == secondary && this.nonce == nonce
    {
      this.nonce := nonce;
      leg0 := new ConfluxLeg(primary);
      leg1 := new ConfluxLeg(secondary);
      linked, closed := false, false;
      lastSent, lastRecv := 0, 0;
      current := None;
      ooo := map[];
    }

    /** The answer to a LINK is due from this circuit, and this is it. */
    ghost predicate TakesLinked(from: CircuitId, data: seq<byte>)
      reads this, leg0, leg1
    {
      && DecodeConfluxLink(data).Ok? && DecodeConfluxLink(data).value.nonce == nonce
      && !closed && LegOf(from).Some? && !LegObject(LegOf(from).value).gotLinked
    }

    ghost predicate HasLinked(from: CircuitId, elapsed: nat)
      reads this, leg0, leg1
    {
      && LegOf(from).Some?
      && var leg := LegObject(LegOf(from).value);
      leg.gotLinked && leg.ackSent && leg.rtt == elapsed
    }

    /** handleLinked: the answer to a LINK is taken once per leg, if it carries the set's
        nonce. `elapsed` is the time since the LINK, `acked` whether LINKED_ACK went out. */
    method HandleLinked(from: CircuitId, data: seq<byte>, elapsed: nat, acked: bool) returns (out: Outcome<RelayCell>)
      requires Valid()
      modifies leg0`gotLinked, leg0`ackSent, leg0`rtt, leg1`gotLinked, leg1`ackSent, leg1`rtt
      ensures Valid() && Sending() == old(Sending()) && Receiving() == old(Receiving())
      ensures out == Delivered([]) || out.Rejected?
      ensures out == Delivered([]) <==> old(TakesLinked(from, data)) && acked
      ensures out == Delivered([]) ==> HasLinked(from, elapsed)
      ensures forall l :: LegOf(from) != Some(l) || (out.Rejected? && out.error != AckNotSent) ==>
        unchanged(LegObject(l))
    {
      var link := DecodeConfluxLink(data);
      if link.Err? {
        return Rejected(BadLink);
      }
      if link.value.nonce != nonce {
        return Rejected(NonceMismatch);
      }
      if closed {
        return Rejected(SetClosed);
      }
      var l := LegOf(from);
      if l.None? {
        return Rejected(UnknownCircuit);
      }
      var leg := LegObject(l.value);
      if leg.gotLinked {
        return Rejected(DuplicateLinked);
      }
      leg.gotLinked := true;
      leg.rtt := elapsed;
      if !acked {
        return Rejected(AckNotSent);
      }
      leg.ackSent := true;
      out := Delivered([]);
    }

    /** The end of LinkConflux, once both legs have answered: the set is linked, and starts
        on the leg measured faster. */
    method FinishLink()
      requires Valid() && !closed && current.None? && leg0.gotLinked && leg1.gotLinked
      modifies this
      ensures Valid() && linked && !closed
      ensures Receiving() == old(Receiving())
      ensures Sending() == old(Sending()).(current :=
        Some(if leg1.rtt > 0 && (leg0.rtt == 0 || leg1.rtt < leg0.rtt) then Leg1 else Leg0))
    {
      linked := true;
      current := Some(Leg0);
      if leg1.rtt > 0 && (leg0.rtt == 0 || leg1.rtt < leg0.rtt) {
        current := Some(Leg1);
      }
    }

    function LegOf(c: CircuitId): (l: Option<Leg>)
      ensures l == Some(Leg0) ==> leg0.circ == c
      ensures l == Some(Leg1) ==> leg1.circ == c
      ensures l.None? <==> c != leg0.circ && c != leg1.circ
    {
      if leg0.circ == c then Some(Leg0) else if leg1.circ == c then Some(Leg1) else None
    }

    function LegObject(l: Leg): ConfluxLeg {
      if l == Leg0 then leg0 else leg1
    }

    /** uniqueRecvLeaderLocked: the leg strictly ahead of the other, if there is one. */
    method UniqueRecvLeader() returns (leader: Option<Leg>)
      ensures forall l :: leader == Some(l) <==> LegObject(l).lastRecv > LegObject(l.Other()).lastRecv
    {
      var best: Option<Leg> := None;
      var bestRecv := 0;
      var unique := false;
      var legs := [Leg0, Leg1];
      for i := 0 to 2
        invariant i == 0 ==> best.None?
        invariant i == 1 ==> best == Some(Leg0) && bestRecv == leg0.lastRecv && unique
        invariant i == 2 ==> best.Some?
        invariant i == 2 ==> bestRecv == LegObject(best.value).lastRecv >= LegObject(best.value.Other()).lastRecv
        invariant i == 2 ==> (unique <==> leg0.lastRecv != leg1.lastRecv)
      {
        var recv := LegObject(legs[i]).lastRecv;
        if best.None? || recv > bestRecv {
          best := Some(legs[i]);
          bestRecv := recv;
          unique := true;
        } else if recv == bestRecv {
          unique := false;
        }
      }
      leader := if unique then best else None;
    }

    /** handleSwitch. Nothing but the leg's counter ever changes. */
    method HandleSwitch(from: CircuitId, data: seq<byte>) returns (out: Outcome<RelayCell>)
      requires Valid()
      modifies leg0`lastRecv, leg1`lastRecv
      ensures Valid() && Sending() == old(Sending())
      ensures linked && LegOf(from).Some? ==>
        (Receiving(), out) == ConfluxSpec.HandleSwitch(old(Receiving()), LegOf(from).value, data)
      ensures !(linked && LegOf(from).Some?) ==> out.Rejected? && Receiving() == old(Receiving())
    {
      var rel := DecodeSwitch(data);
      if rel.Err? {
        return Rejected(BadSwitch);
      }
      if rel.value < 1 {
        return Rejected(RelTooSmall);
      }
      if closed || !linked {
        return Rejected(NotLinked);
      }
      var l := LegOf(from);
      if l.None? {
        return Rejected(UnknownCircuit);
      }
      var leader := UniqueRecvLeader();
      if leader == l {
        return Rejected(SwitchFromLeader);
      }
      var leg := LegObject(l.value);
      var next := leg.lastRecv + rel.value;
      if next < lastRecv {
        return Rejected(SwitchDoesNotAdvance);
      }
      if next > lastRecv + OOO_LIMIT + 1 {
        return Rejected(SwitchGapTooLarge);
      }
      leg.lastRecv := next;
      out := Delivered([]);
    }

    /** reorder: number the cell, then deliver it and what follows on, buffer it, or fail. */
    method Reorder(from: CircuitId, rc: RelayCell) returns (out: Outcome<RelayCell>)
      requires Valid()
      modifies this`lastRecv, this`ooo, leg0`lastRecv, leg1`lastRecv
      ensures Valid() && Sending() == old(Sending())
      ensures !closed && LegOf(from).Some? ==>
        (Receiving(), out) == ConfluxSpec.Reorder(old(Receiving()), LegOf(from).value, rc)
      ensures !(!closed && LegOf(from).Some?) ==> out.Rejected? && Receiving() == old(Receiving())
    {
      if closed {
        return Rejected(NotLinked);
      }
      var l := LegOf(from);
      if l.None? {
        return Rejected(UnknownCircuit);
      }
      ReorderAgainstAnyPeer(Receiving(), l.value, rc);
      var leg := LegObject(l.value);
      leg.lastRecv := leg.lastRecv + 1;
      var num := leg.lastRecv;
      if num <= lastRecv {
        return Rejected(DuplicateOrOld);
      }
      if num == lastRecv + 1 {
        var deliver := TakeRun(rc, num);
        return Delivered(deliver);
      }
      if |ooo| >= OOO_LIMIT {
        return Rejected(OooExceeded);
      }
      if num > lastRecv + OOO_LIMIT + 1 {
        return Rejected(SeqGapTooLarge);
      }
      if num in ooo {
        return Rejected(SlotOccupied);
      }
      ooo := ooo[num := rc];
      out := Delivered([]);
    }

    /** The drain loop of reorder. */
    method TakeRun(rc: RelayCell, num: nat) returns (deliver: seq<RelayCell>)
      modifies this`lastRecv, this`ooo
      ensures (lastRecv, ooo, deliver)
        == var (l, o, d) := Drain(num, old(ooo)); (l, o, [rc] + d)
    {
      deliver := [rc];
      lastRecv := num;
      ghost var goal := Drain(num, ooo);
      while lastRecv + 1 in ooo
        invariant Drain(lastRecv, ooo).0 == goal.0 && Drain(lastRecv, ooo).1 == goal.1
        invariant deliver + Drain(lastRecv, ooo).2 == [rc] + goal.2
        decreases ooo.Keys
      {
        var next := ooo[lastRecv + 1];
        ghost var d := Drain(lastRecv, ooo).2;
        assert d == [next] + d[1..];
        assert (ooo - {lastRecv + 1}).Keys == ooo.Keys - {lastRecv + 1};
        ooo := ooo - {lastRecv + 1};
        lastRecv := lastRecv + 1;
        deliver := deliver + [next];
      }
      assert deliver + [] == deliver;
    }

    /** onRelayCell: Conflux cells and, once linked, sequenced cells must come from the exit
        hop; LINKED goes to the handshake; before linking, sequenced cells are not handled
        here. */
    method OnRelayCell(from: CircuitId, rc: RelayCell, hopIdx: int, lastHop: int, elapsed: nat, acked: bool)
      returns (out: Outcome<RelayCell>)
      requires Valid()
      modifies this`lastRecv, this`ooo, leg0, leg1
      ensures Valid() && Sending() == old(Sending())
      ensures linked && LegOf(from).Some? && hopIdx == lastHop >= 0 && rc.command != RELAY_CONFLUX_LINKED ==>
        (Receiving(), out) == Receive(old(Receiving()), LegOf(from).value, rc)
      ensures rc.command == RELAY_CONFLUX_LINKED || !(linked && LegOf(from).Some? && hopIdx == lastHop >= 0) ==>
        Receiving() == old(Receiving())
      ensures rc.command == RELAY_CONFLUX_LINKED ==>
        && (out == Delivered([]) || out.Rejected?)
        && (out == Delivered([]) <==> hopIdx == lastHop >= 0 && old(TakesLinked(from, rc.data)) && acked)
        && (out == Delivered([]) ==> HasLinked(from, elapsed))
      ensures rc.command != RELAY_CONFLUX_LINKED ==>
        forall l :: var leg := LegObject(l); leg.gotLinked == old(leg.gotLinked) && leg.ackSent == old(leg.ackSent) && leg.rtt == old(leg.rtt)
      ensures !(linked && LegOf(from).Some? && hopIdx == lastHop >= 0) && rc.command != RELAY_CONFLUX_LINKED ==>
        (IsConfluxCommand(rc.command) || (linked && ShouldMultiplex(rc.command)) ==> out.Rejected?)
    {
      if rc.command == RELAY_CONFLUX_LINKED {
        if lastHop < 0 || hopIdx != lastHop {
          return Rejected(NotExitHop);
        }
        out := HandleLinked(from, rc.data, elapsed, acked);
        return;
      }
      if rc.command == RELAY_CONFLUX_SWITCH {
        if lastHop < 0 || hopIdx != lastHop {
          return Rejected(NotExitHop);
        }
        out := HandleSwitch(from, rc.data);
        return;
      }
      if rc.command == RELAY_CONFLUX_LINK || rc.command == RELAY_CONFLUX_LINKED_ACK {
        return Rejected(UnexpectedCommand);
      }
      if linked && ShouldMultiplex(rc.command) {
        if lastHop < 0 || hopIdx != lastHop {
          return Rejected(NotExitHop);
        }
        out := Reorder(from, rc);
        return;
      }
      out := NotHandled;
    }

    /** After the SWITCH: the leg is current and level with the set. */
    method MarkSwitched(l: Leg)
      requires leg0 != leg1
      modifies this`current, leg0`lastSent, leg1`lastSent
      ensures Sending() == old(Sending()).(current := Some(l), legSent := old(Sending()).legSent.Put(l, lastSent))
    {
      current := Some(l);
      LegObject(l).lastSent := lastSent;
    }

    /** After the cell: one more is sent, on this leg. */
    method MarkSent(l: Leg)
      requires leg0 != leg1
      modifies this`current, this`lastSent, leg0`lastSent, leg1`lastSent
      ensures Sending() == Sender(old(lastSent) + 1, old(Sending()).legSent.Put(l, old(lastSent) + 1), Some(l))
    {
      current := Some(l);
      lastSent := lastSent + 1;
      LegObject(l).lastSent := lastSent;
    }

    /** sendMultiplexed on the chosen leg. `out` is what reached the leg's circuit. */
    method SendMultiplexed(rc: RelayCell, l: Leg, net: Net) returns (out: seq<RelayCell>, how: SendOutcome)
      requires Valid()
      modifies this, leg0`lastSent, leg1`lastSent
      ensures Valid() && Receiving() == old(Receiving())
      ensures old(linked) ==> (Sending(), out, how) == ConfluxSpec.SendMultiplexed(old(Sending()), rc, l, net)
      ensures !old(linked) ==> out == [] && how == Failed && Sending() == old(Sending())
      ensures linked == (old(linked) && how != FailedAndClosed)
      ensures closed == (old(closed) || how == FailedAndClosed)
    {
      if closed || !linked {
        return [], Failed;
      }
      if !net.reserved {
        return [], Failed;
      }
      var rel := 0;
      if current.Some? && current.value != l {
        var gap := lastSent - LegObject(l).lastSent;
        if gap > MAX_REL {
          return [], RelOverflow;
        }
        rel := gap;
      }
      out, how := Transmit(rc, l, net, rel);
    }

    /** The part of sendMultiplexed under the send lock. */
    method Transmit(rc: RelayCell, l: Leg, net: Net, rel: uint32) returns (out: seq<RelayCell>, how: SendOutcome)
      requires Valid() && linked && (rel == 0 ==> current.None? || current == Some(l) || LegObject(l).lastSent == lastSent)
      modifies this`current, this`lastSent, this`linked, this`closed, leg0`lastSent, leg1`lastSent
      ensures Valid()
      ensures (Sending(), out, how) == ConfluxSpec.Transmit(old(Sending()), rc, l, net, rel)
      ensures linked == (how != FailedAndClosed) && closed == (how == FailedAndClosed)
    {
      out := [];
      if rel >= 1 {
        if !net.switchSent {
          return [], Failed;
        }
        out := [SwitchCell(rel)];
        MarkSwitched(l);
      }
      if !net.emitted {
        if rel >= 1 {
          closed := true;
          linked := false;
          return out, FailedAndClosed;
        }
        return out, Failed;
      }
      out := out + [rc];
      MarkSent(l);
      how := Sent;
    }
  }
}
