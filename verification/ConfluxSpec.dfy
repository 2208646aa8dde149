/** What one Conflux endpoint does to its counters and its out-of-order buffer,
    as functions on values. Sequence numbers are unbounded here. */
module ConfluxSpec {
  import opened Arith
  import opened Bytes
  import opened RelayCodec

  const OOO_LIMIT := 256
  const MAX_REL := 0xFFFF_FFFF

  datatype Leg = Leg0 | Leg1 {
    function Other(): Leg {
      if this == Leg0 then Leg1 else Leg0
    }
  }

  /** One value per leg. */
  datatype PerLeg<T> = PerLeg(leg0: T, leg1: T) {
    function At(l: Leg): T {
      if l == Leg0 then leg0 else leg1
    }

    function Put(l: Leg, v: T): PerLeg<T> {
      if l == Leg0 then PerLeg(v, leg1) else PerLeg(leg0, v)
    }
  }

  datatype ConfluxError =
    | NotExitHop
    | UnexpectedCommand
    | BadLink
    | NonceMismatch
    | SetClosed
    | DuplicateLinked
    | AckNotSent
    | BadSwitch
    | RelTooSmall
    | NotLinked
    | UnknownCircuit
    | SwitchFromLeader
    | SwitchDoesNotAdvance
    | SwitchGapTooLarge
    | DuplicateOrOld
    | OooExceeded
    | SeqGapTooLarge
    | SlotOccupied

  // ---------------------------------------------------------------- receiving

  datatype Receiver<C> = Receiver(lastRecv: nat, legRecv: PerLeg<nat>, ooo: map<nat, C>)

  /** What a cell leads to: cells handed to the owner in order, a cell Conflux does
      not sequence, or a protocol error that tears the set down. */
  datatype Outcome<C> = Delivered(cells: seq<C>) | NotHandled | Rejected(error: ConfluxError)

  function UniqueLeader(legRecv: PerLeg<nat>): Option<Leg> {
    if legRecv.leg0 > legRecv.leg1 then Some(Leg0)
    else if legRecv.leg1 > legRecv.leg0 then Some(Leg1)
    else None
  }

  function HandleSwitch<C>(r: Receiver<C>, from: Leg, data: seq<byte>): (Receiver<C>, Outcome<C>) {
    match DecodeSwitch(data)
    case Err(_) => (r, Rejected(BadSwitch))
    case Ok(rel) =>
      var next := r.legRecv.At(from) + rel;
      if rel < 1 then (r, Rejected(RelTooSmall))
      else if UniqueLeader(r.legRecv) == Some(from) then (r, Rejected(SwitchFromLeader))
      else if next < r.lastRecv then (r, Rejected(SwitchDoesNotAdvance))
      else if next > r.lastRecv + OOO_LIMIT + 1 then (r, Rejected(SwitchGapTooLarge))
      else (r.(legRecv := r.legRecv.Put(from, next)), Delivered([]))
  }

  /** Takes consecutive cells out of the buffer: the new last number, what stays
      buffered, and the cells taken. */
  function Drain<C>(last: nat, ooo: map<nat, C>): (nat, map<nat, C>, seq<C>)
    decreases ooo.Keys
  {
    if last + 1 in ooo then
      var rest := ooo - {last + 1};
      assert rest.Keys == ooo.Keys - {last + 1};
      var (l, o, d) := Drain(last + 1, rest);
      (l, o, [ooo[last + 1]] + d)
    else (last, ooo, [])
  }

  function Reorder<C>(r: Receiver<C>, from: Leg, cell: C): (Receiver<C>, Outcome<C>) {
    var num := r.legRecv.At(from) + 1;
    var r1 := r.(legRecv := r.legRecv.Put(from, num));
    if num <= r.lastRecv then (r1, Rejected(DuplicateOrOld))
    else if num == r.lastRecv + 1 then
      var (last, ooo, more) := Drain(num, r.ooo);
      (r1.(lastRecv := last, ooo := ooo), Delivered([cell] + more))
    else if |r.ooo| >= OOO_LIMIT then (r1, Rejected(OooExceeded))
    else if num > r.lastRecv + OOO_LIMIT + 1 then (r1, Rejected(SeqGapTooLarge))
    else if num in r.ooo then (r1, Rejected(SlotOccupied))
    else (r1.(ooo := r.ooo[num := cell]), Delivered([]))
  }

  predicate IsConfluxCommand(cmd: byte) {
    RELAY_CONFLUX_LINK <= cmd <= RELAY_CONFLUX_SWITCH
  }

  /** A relay cell from the exit hop of one leg of a linked, open set. */
  function Receive(r: Receiver<RelayCell>, from: Leg, cell: RelayCell): (Receiver<RelayCell>, Outcome<RelayCell>) {
    if cell.command == RELAY_CONFLUX_SWITCH then HandleSwitch(r, from, cell.data)
    else if IsConfluxCommand(cell.command) then (r, Rejected(UnexpectedCommand))
    else if ShouldMultiplex(cell.command) then Reorder(r, from, cell)
    else (r, NotHandled)
  }

  // ---------------------------------------------------------------- sending

  datatype Sender = Sender(lastSent: nat, legSent: PerLeg<nat>, current: Option<Leg>)

  /** How the network and flow control treat one send. */
  datatype Net = Net(reserved: bool, switchSent: bool, emitted: bool)

  datatype SendOutcome = Sent | Failed | FailedAndClosed | RelOverflow

  function SwitchCell(rel: uint32): RelayCell {
    RelayCell(RELAY_CONFLUX_SWITCH, 0, 0, NO_DIGEST, EncodeSwitch(rel))
  }

  predicate SenderInv(s: Sender) {
    && s.legSent.leg0 <= s.lastSent
    && s.legSent.leg1 <= s.lastSent
    && (match s.current
        case Some(l) => s.legSent.At(l) == s.lastSent
        case None => s.lastSent == 0)
  }

  /** The new counters, the cells put on the chosen leg, and how the call ended. */
  function SendMultiplexed(s: Sender, cell: RelayCell, l: Leg, net: Net): (Sender, seq<RelayCell>, SendOutcome)
    requires SenderInv(s)
  {
    var gap := s.lastSent - s.legSent.At(l);
    var leaves := s.current.Some? && s.current.value != l;
    if !net.reserved then (s, [], Failed)
    else if leaves && gap > MAX_REL then (s, [], RelOverflow)
    else Transmit(s, cell, l, net, if leaves then gap else 0)
  }

  /** The sending proper, after a SWITCH over `gap` cells if there is a gap. */
  function Transmit(s: Sender, cell: RelayCell, l: Leg, net: Net, gap: uint32): (Sender, seq<RelayCell>, SendOutcome) {
    var needSwitch := gap >= 1;
    if needSwitch && !net.switchSent then (s, [], Failed)
    else
      var s1 := if needSwitch then s.(current := Some(l), legSent := s.legSent.Put(l, s.lastSent)) else s;
      var w := if needSwitch then [SwitchCell(gap)] else [];
      if !net.emitted then (s1, w, if needSwitch then FailedAndClosed else Failed)
      else
        (Sender(s.lastSent + 1, s1.legSent.Put(l, s.lastSent + 1), Some(l)), w + [cell], Sent)
  }

  // ---------------------------------------------------------------- any peer at all

  /** Draining takes exactly the maximal consecutive run after `last`. */
  lemma {:induction false} DrainExact<C>(last: nat, ooo: map<nat, C>)
    ensures var (l, o, d) := Drain(last, ooo);
      && l >= last
      && |d| == l - last
      && (forall n :: last < n <= l ==> n in ooo && d[n - last - 1] == ooo[n])
      && l + 1 !in ooo
      && o == map n | n in ooo && !(last < n <= l) :: ooo[n]
    decreases ooo.Keys
  {
    if last + 1 in ooo {
      var rest := ooo - {last + 1};
      assert rest.Keys == ooo.Keys - {last + 1};
      DrainExact(last + 1, rest);
      var (l, o, d) := Drain(last + 1, rest);
      var (l', o', d') := Drain(last, ooo);
      forall n | last < n <= l
        ensures n in ooo && d'[n - last - 1] == ooo[n]
      {
        assert n > last + 1 ==> d'[n - last - 1] == d[n - (last + 1) - 1];
      }
    }
  }

  /** Every buffered number is two to 257 above the last delivered one. */
  predicate ReceiverInv<C>(r: Receiver<C>) {
    forall n :: n in r.ooo ==> r.lastRecv + 2 <= n <= r.lastRecv + OOO_LIMIT + 1
  }

  /** Against any peer: the buffer invariant is kept, and a cell is refused exactly
      when its number is old, too far ahead or taken. The explicit length check
      therefore never refuses a cell that the other two checks would admit. */
  lemma ReorderAgainstAnyPeer<C>(r: Receiver<C>, from: Leg, cell: C)
    requires ReceiverInv(r)
    ensures ReceiverInv(Reorder(r, from, cell).0)
    ensures var num := r.legRecv.At(from) + 1;
      Reorder(r, from, cell).1.Rejected? <==>
        num <= r.lastRecv || num > r.lastRecv + OOO_LIMIT + 1 || num in r.ooo
    ensures |r.ooo| <= OOO_LIMIT
  {
    var num := r.legRecv.At(from) + 1;
    IntervalSize(r.ooo.Keys, r.lastRecv + 2, r.lastRecv + OOO_LIMIT + 2);
    if num == r.lastRecv + 1 {
      DrainExact(num, r.ooo);
    }
  }

  /** A receiver fed by an arbitrary peer, with the number given to each accepted cell. */
  datatype Fed = Fed(r: Receiver<RelayCell>, log: map<nat, RelayCell>, delivered: seq<RelayCell>, failed: bool)

  function Feed(f: Fed, from: Leg, cell: RelayCell): Fed {
    if f.failed then f
    else
      var (r, out) := Receive(f.r, from, cell);
      match out
      case Rejected(_) => f.(r := r, failed := true)
      case NotHandled => f
      case Delivered(cells) =>
        f.(r := r, delivered := f.delivered + cells,
           log := if ShouldMultiplex(cell.command) then f.log[r.legRecv.At(from) := cell] else f.log)
  }

  function FeedAll(f: Fed, input: seq<(Leg, RelayCell)>): Fed
    decreases |input|
  {
    if input == [] then f else FeedAll(Feed(f, input[0].0, input[0].1), input[1..])
  }

  function FreshFed(): Fed {
    Fed(Receiver(0, PerLeg(0, 0), map[]), map[], [], false)
  }

  /** The cells handed over are the accepted cells numbered 1..lastRecv, in order, and
      the buffer holds exactly the other accepted cells under their numbers. */
  ghost predicate LogInv<C>(r: Receiver<C>, log: map<nat, C>, delivered: seq<C>) {
    && ReceiverInv(r)
    && |delivered| == r.lastRecv
    && (forall n :: n in log <==> 1 <= n <= r.lastRecv || n in r.ooo)
    && (forall n :: n in r.ooo ==> r.ooo[n] == log[n])
    && (forall i :: 0 <= i < |delivered| ==> delivered[i] == log[i + 1])
  }

  lemma DeliveryKeepsLog<C>(r: Receiver<C>, log: map<nat, C>, delivered: seq<C>, from: Leg, cell: C)
    requires LogInv(r, log, delivered)
    requires r.legRecv.At(from) == r.lastRecv
    ensures var (r', out) := Reorder(r, from, cell);
      out.Delivered? && LogInv(r', log[r.lastRecv + 1 := cell], delivered + out.cells)
  {
    var num := r.lastRecv + 1;
    DrainExact(num, r.ooo);
    var (l, o, d) := Drain(num, r.ooo);
    var log', delivered' := log[num := cell], delivered + ([cell] + d);
    forall i | 0 <= i < |delivered'|
      ensures delivered'[i] == log'[i + 1]
    {
      if i > r.lastRecv {
        assert delivered'[i] == d[i + 1 - num - 1] == r.ooo[i + 1];
      }
    }
  }

  lemma ReorderKeepsLog<C>(r: Receiver<C>, log: map<nat, C>, delivered: seq<C>, from: Leg, cell: C)
    requires LogInv(r, log, delivered)
    ensures var (r', out) := Reorder(r, from, cell);
      && (out.Rejected? ==> LogInv(r', log, delivered))
      && (out.Delivered? ==>
            && r'.legRecv.At(from) !in log
            && LogInv(r', log[r'.legRecv.At(from) := cell], delivered + out.cells))
  {
    ReorderAgainstAnyPeer(r, from, cell);
    if r.legRecv.At(from) == r.lastRecv {
      DeliveryKeepsLog(r, log, delivered, from, cell);
    } else {
      var (r', out) := Reorder(r, from, cell);
      if out.Rejected? {
        assert r' == r.(legRecv := r'.legRecv);
      } else {
        var num := r.legRecv.At(from) + 1;
        assert r' == r.(legRecv := r.legRecv.Put(from, num), ooo := r.ooo[num := cell]) && out == Delivered([]);
        BufferingKeepsLog(r, log, delivered, from, cell);
      }
    }
  }

  lemma BufferingKeepsLog<C>(r: Receiver<C>, log: map<nat, C>, delivered: seq<C>, from: Leg, cell: C)
    requires LogInv(r, log, delivered)
    requires var num := r.legRecv.At(from) + 1;
      r.lastRecv + 1 < num <= r.lastRecv + OOO_LIMIT + 1 && num !in r.ooo
    ensures var num := r.legRecv.At(from) + 1;
      && num !in log
      && LogInv(r.(legRecv := r.legRecv.Put(from, num), ooo := r.ooo[num := cell]), log[num := cell], delivered + [])
  {
    assert delivered + [] == delivered;
  }

  ghost predicate FedInv(f: Fed) {
    LogInv(f.r, f.log, f.delivered)
  }

  /** One more cell keeps this, and never changes the cell recorded under a number. */
  lemma FeedKeepsInv(f: Fed, from: Leg, cell: RelayCell)
    requires FedInv(f)
    ensures var g := Feed(f, from, cell);
      && FedInv(g)
      && (g.log == f.log || exists n: nat :: n !in f.log && g.log == f.log[n := cell])
      && f.delivered <= g.delivered
  {
    if !f.failed && ShouldMultiplex(cell.command) {
      ReorderKeepsLog(f.r, f.log, f.delivered, from, cell);
      var (r, out) := Reorder(f.r, from, cell);
      assert Receive(f.r, from, cell) == (r, out);
    } else {
      assert f.delivered + [] == f.delivered;
    }
  }

  /** Whatever any peer sends, on either leg and in any order. */
  lemma {:induction false} AnyPeerRun(f: Fed, input: seq<(Leg, RelayCell)>)
    requires FedInv(f)
    ensures FedInv(FeedAll(f, input))
    ensures |FeedAll(f, input).r.ooo| <= OOO_LIMIT
    ensures f.delivered <= FeedAll(f, input).delivered
    decreases |input|
  {
    if input == [] {
      IntervalSize(f.r.ooo.Keys, f.r.lastRecv + 2, f.r.lastRecv + OOO_LIMIT + 2);
    } else {
      FeedKeepsInv(f, input[0].0, input[0].1);
      AnyPeerRun(Feed(f, input[0].0, input[0].1), input[1..]);
    }
  }

  /** From the start: what has been handed over is the accepted cells numbered 1, 2, ... */
  lemma AnyPeerFromStart(input: seq<(Leg, RelayCell)>)
    ensures var g := FeedAll(FreshFed(), input);
      && |g.delivered| == g.r.lastRecv && |g.r.ooo| <= OOO_LIMIT
      && (forall i :: 0 <= i < |g.delivered| ==> i + 1 in g.log && g.delivered[i] == g.log[i + 1])
      && (forall n :: n in g.log && n > g.r.lastRecv ==> n in g.r.ooo && g.r.ooo[n] == g.log[n])
  {
    AnyPeerRun(FreshFed(), input);
  }
}
