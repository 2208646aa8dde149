/** A byte stream over relay cells: WriteToStream cuts it into DATA cells, StreamConn.Read
    puts it together again from whatever else the circuit delivers. */
module ByteStream {
  import opened Bytes
  import opened RelayCodec

  // ---------------------------------------------------------------- cutting

  /** relayDataMaxLocal: what one DATA cell holds, by the encoding of the last hop. */
  function DataMax(cgo: bool): nat {
    if cgo then V1MaxData(RELAY_DATA) else PAYLOAD_LEN - V0_HEADER_LEN
  }

  /** ConfluxSet.relayDataMax, over the legs' last hops. */
  method RelayDataMax(legs: seq<bool>) returns (max: nat)
    requires legs != []
    ensures forall i :: 0 <= i < |legs| ==> max <= DataMax(legs[i])
    ensures exists i :: 0 <= i < |legs| && max == DataMax(legs[i])
  {
    max := PAYLOAD_LEN;
    for i := 0 to |legs|
      invariant i == 0 ==> max == PAYLOAD_LEN
      invariant forall k :: 0 <= k < i ==> max <= DataMax(legs[k])
      invariant i > 0 ==> exists k :: 0 <= k < i && max == DataMax(legs[k])
    {
      var m := DataMax(legs[i]);
      if m < max {
        max := m;
      }
    }
  }

  function DataCell(id: uint16, data: seq<byte>): RelayCell {
    RelayCell(RELAY_DATA, 0, id, NO_DIGEST, data)
  }

  /** A DATA cell can be encoded exactly up to that size, 488 or 498 bytes, and leaves the
      recognized field at zero. */
  lemma DataMaxIsExact(cgo: bool, chunk: seq<byte>, id: uint16)
    requires id != 0
    ensures DataMax(cgo) == if cgo then 488 else 498
    ensures (if cgo then EncodeV1(DataCell(id, chunk)).Ok? else EncodeV0(DataCell(id, chunk)).Ok?) <==> |chunk| <= DataMax(cgo)
    ensures DataCell(id, chunk).recognized == 0
  {
  }

  /** Whatever leg a chunk of at most that size takes, its DATA cell can be encoded there. */
  lemma ChunkFitsEveryLeg(legs: seq<bool>, max: nat, chunk: seq<byte>, id: uint16)
    requires forall i :: 0 <= i < |legs| ==> max <= DataMax(legs[i])
    requires |chunk| <= max && id != 0
    ensures forall i :: 0 <= i < |legs| ==>
      if legs[i] then EncodeV1(DataCell(id, chunk)).Ok? else EncodeV0(DataCell(id, chunk)).Ok?
  {
  }

  /** The pieces WriteToStream sends. */
  function Chunks(data: seq<byte>, max: nat): seq<seq<byte>>
    requires max > 0
    decreases |data|
  {
    if data == [] then []
    else if |data| <= max then [data]
    else [data[..max]] + Chunks(data[max..], max)
  }

  /** Nothing is lost, added or reordered; no chunk is empty or too long; and all but the
      last are full. */
  lemma {:induction false} ChunksLaws(data: seq<byte>, max: nat)
    requires max > 0
    ensures Flatten(Chunks(data, max)) == data
    ensures forall i :: 0 <= i < |Chunks(data, max)| ==> 1 <= |Chunks(data, max)[i]| <= max
    ensures forall i :: 0 <= i < |Chunks(data, max)| - 1 ==> |Chunks(data, max)[i]| == max
    decreases |data|
  {
    if data == [] {
    } else if |data| <= max {
      assert [data][1..] == [];
    } else {
      var rest := Chunks(data[max..], max);
      ChunksLaws(data[max..], max);
      assert ([data[..max]] + rest)[1..] == rest;
      assert data == data[..max] + data[max..];
    }
  }

  /** WriteToStream: a loop over a shrinking slice that stops at the first send that fails,
      here after `accepts` cells; `cells` is what the circuit has taken. */
  method WriteToStream(id: uint16, data: seq<byte>, max: nat, accepts: nat) returns (cells: seq<RelayCell>, ok: bool)
    requires 0 < max <= V0_MAX_DATA
    ensures ok <==> |Chunks(data, max)| <= accepts
    ensures |cells| == if ok then |Chunks(data, max)| else accepts
    ensures forall i :: 0 <= i < |cells| ==> cells[i] == DataCell(id, Chunks(data, max)[i])
  {
    cells := [];
    var rest := data;
    while |rest| > 0
      invariant |cells| <= |Chunks(data, max)| && |cells| <= accepts
      invariant forall i :: 0 <= i < |cells| ==> cells[i] == DataCell(id, Chunks(data, max)[i])
      invariant Chunks(data, max)[|cells|..] == Chunks(rest, max)
      decreases |rest|
    {
      var n := |rest|;
      if n > max {
        n := max;
      }
      ghost var all := Chunks(data, max);
      assert all[|cells|] == Chunks(rest, max)[0] == rest[..n];
      assert all[|cells| + 1..] == all[|cells|..][1..] == Chunks(rest[n..], max);
      if |cells| == accepts {
        return cells, false;
      }
      cells := cells + [DataCell(id, rest[..n])];
      rest := rest[n..];
    }
    ok := true;
  }

  // ---------------------------------------------------------------- reading

  /** The bytes of a stream in a queue of received cells, up to its END. */
  function StreamBytes(q: seq<RelayCell>, id: uint16): seq<byte> {
    if q == [] then []
    else if q[0].streamId != id then StreamBytes(q[1..], id)
    else if q[0].command == RELAY_DATA then q[0].data + StreamBytes(q[1..], id)
    else if q[0].command == RELAY_END then []
    else StreamBytes(q[1..], id)
  }

  predicate EndCell(c: RelayCell, id: uint16) {
    c.streamId == id && c.command == 3
  }

  predicate HasEnd(q: seq<RelayCell>, id: uint16) {
    exists i :: 0 <= i < |q| && EndCell(q[i], id)
  }

  lemma EndInRest(q: seq<RelayCell>, id: uint16)
    requires q != []
    ensures HasEnd(q, id) <==> EndCell(q[0], id) || HasEnd(q[1..], id)
  {
    if HasEnd(q[1..], id) {
      var i :| 0 <= i < |q[1..]| && EndCell(q[1..][i], id);
      assert EndCell(q[i + 1], id);
    }
    if HasEnd(q, id) && !EndCell(q[0], id) {
      var i :| 0 <= i < |q| && EndCell(q[i], id);
      assert EndCell(q[1..][i - 1], id);
    }
  }

  /** One cell holds bytes of a stream exactly if it is a DATA cell of that stream. */
  lemma OneCell(c: RelayCell, id: uint16)
    ensures StreamBytes([c], id) == if c.streamId == id && c.command == 2 then c.data else []
  {
    assert [c][1..] == [];
  }

  /** What comes later counts exactly if no END of the stream came before. */
  lemma {:induction false} StreamAppends(q: seq<RelayCell>, r: seq<RelayCell>, id: uint16)
    ensures StreamBytes(q + r, id) ==
      if HasEnd(q, id) then StreamBytes(q, id) else StreamBytes(q, id) + StreamBytes(r, id)
    decreases |q|
  {
    if q == [] {
      assert q + r == r;
    } else {
      EndInRest(q, id);
      StreamAppends(q[1..], r, id);
      FirstCell(q, r, id);
    }
  }

  lemma FirstCell(q: seq<RelayCell>, r: seq<RelayCell>, id: uint16)
    requires q != []
    ensures StreamBytes(q + r, id) ==
      if EndCell(q[0], id) then []
      else if q[0].streamId == id && q[0].command == 2 then q[0].data + StreamBytes(q[1..] + r, id)
      else StreamBytes(q[1..] + r, id)
  {
    assert (q + r)[0] == q[0] && (q + r)[1..] == q[1..] + r;
  }

  datatype Fetched = Data(data: seq<byte>) | EndOfStream | NothingYet

  /** The cells of one stream. */
  function Only(q: seq<RelayCell>, id: uint16): seq<RelayCell> {
    if q == [] then []
    else if q[0].streamId == id then [q[0]] + Only(q[1..], id)
    else Only(q[1..], id)
  }

  /** The cells of the other streams. */
  function Others(q: seq<RelayCell>, id: uint16): seq<RelayCell> {
    if q == [] then []
    else Others(q[..|q| - 1], id) + (if q[|q| - 1].streamId != id then [q[|q| - 1]] else [])
  }

  lemma OthersSnoc(q: seq<RelayCell>, cell: RelayCell, id: uint16)
    ensures Others(q + [cell], id) == Others(q, id) + (if cell.streamId != id then [cell] else [])
  {
    assert (q + [cell])[..|q|] == q;
  }

  lemma {:induction false} OnlyMatters(q: seq<RelayCell>, id: uint16)
    ensures StreamBytes(q, id) == StreamBytes(Only(q, id), id)
  {
    if q != [] {
      OnlyMatters(q[1..], id);
      if q[0].streamId == id {
        var o := Only(q, id);
        assert o[1..] == Only(q[1..], id);
      }
    }
  }

  /** The StreamConn object, with the cells its circuit has received and not yet read, and
      those it read for other streams and handed to the stream manager. */
  class StreamConn {
    const id: uint16
    var incoming: seq<RelayCell>
    var handedOff: seq<RelayCell>
    var leftover: seq<byte>

    /** Everything this connection still has to return. */
    ghost function Remaining(): seq<byte>
      reads this
    {
      leftover + StreamBytes(incoming, id)
    }

    constructor (id: uint16, incoming: seq<RelayCell>)
      ensures this.id == id && this.incoming == incoming && handedOff == [] && leftover == []
      ensures Remaining() == StreamBytes(incoming, id)
    {
      this.id := id;
      this.incoming := incoming;
      handedOff, leftover := [], [];
    }

    /** ReadFromStream: hands cells of other streams off and skips commands without data. */
    method ReadFromStream() returns (r: Fetched)
      modifies this`incoming, this`handedOff
      ensures |incoming| <= |old(incoming)|
      ensures var taken := |old(incoming)| - |incoming|;
        incoming == old(incoming)[taken..] && handedOff == old(handedOff) + Others(old(incoming)[..taken], id)
      ensures match r
        case Data(data) => old(StreamBytes(incoming, id)) == data + StreamBytes(incoming, id) && |incoming| < |old(incoming)|
        case EndOfStream =>
          && old(StreamBytes(incoming, id)) == [] && |incoming| < |old(incoming)|
          && EndCell(old(incoming)[|old(incoming)| - |incoming| - 1], id)
        case NothingYet => old(StreamBytes(incoming, id)) == [] && incoming == [] && !HasEnd(old(incoming), id)
    {
      ghost var taken := 0;
      while |incoming| > 0
        invariant taken + |incoming| == |old(incoming)|
        invariant incoming == old(incoming)[taken..]
        invariant handedOff == old(handedOff) + Others(old(incoming)[..taken], id)
        invariant StreamBytes(incoming, id) == old(StreamBytes(incoming, id))
        invariant forall i :: 0 <= i < taken ==> !EndCell(old(incoming)[i], id)
        decreases |incoming|
      {
        var cell := incoming[0];
        assert old(incoming)[..taken + 1] == old(incoming)[..taken] + [cell];
        OthersSnoc(old(incoming)[..taken], cell, id);
        incoming := incoming[1..];
        taken := taken + 1;
        if cell.streamId != id {
          handedOff := handedOff + [cell];
          continue;
        }
        if cell.command == RELAY_DATA {
          return Data(cell.data);
        }
        if cell.command == RELAY_END {
          return EndOfStream;
        }
      }
      return NothingYet;
    }

    /** Read into a buffer of the given size. `ok` is false at the end of the stream. What is
        returned is cut off the front of what remained, and fills the buffer unless the
        payload or leftover at hand ends first. */
    method Read(size: nat) returns (out: seq<byte>, ok: bool)
      modifies this
      ensures |out| <= size
      ensures old(Remaining()) == out + (if ok then Remaining() else [])
      ensures ok && old(leftover) != [] ==>
        incoming == old(incoming) && |out| == if size < |old(leftover)| then size else |old(leftover)|
      ensures ok && leftover != [] ==> |out| == size
      ensures !ok ==> out == [] && old(leftover) == []
      ensures |incoming| <= |old(incoming)|
      ensures var taken := |old(incoming)| - |incoming|;
        incoming == old(incoming)[taken..] && handedOff == old(handedOff) + Others(old(incoming)[..taken], id)
      ensures ok && size > 0 ==> out != [] || |incoming| < |old(incoming)|
    {
      if |leftover| > 0 {
        var n := if size < |leftover| then size else |leftover|;
        out := leftover[..n];
        ghost var rest := StreamBytes(incoming, id);
        assert leftover + rest == out + (leftover[n..] + rest);
        leftover := leftover[n..];
        assert old(incoming)[..0] == [];
        return out, true;
      }
      var r := ReadFromStream();
      match r
      case EndOfStream =>
        assert old(Remaining()) == [];
        return [], false;
      case NothingYet =>
        assert old(Remaining()) == [];
        return [], false;
      case Data(data) =>
        var n := if size < |data| then size else |data|;
        out := data[..n];
        ghost var rest := StreamBytes(incoming, id);
        assert data + rest == out + (data[n..] + rest);
        assert old(Remaining()) == data + rest;
        if n < |data| {
          leftover := data[n..];
        } else {
          assert leftover == [] && data[n..] == [];
        }
        return out, true;
    }
  }

  // ---------------------------------------------------------------- end to end

  /** The bytes of a run of DATA cells are the bytes that were cut. */
  lemma {:induction false} CellsCarryChunks(cells: seq<RelayCell>, chunks: seq<seq<byte>>, id: uint16)
    requires |cells| == |chunks|
    requires forall i :: 0 <= i < |cells| ==> cells[i] == DataCell(id, chunks[i])
    ensures StreamBytes(cells, id) == Flatten(chunks)
    decreases |cells|
  {
    if cells != [] {
      CellsCarryChunks(cells[1..], chunks[1..], id);
    }
  }

  /** However the cells of one write are mixed with those of other streams, what the reader
      has to return is exactly what was written. */
  lemma WrittenIsReadable(data: seq<byte>, max: nat, id: uint16, cells: seq<RelayCell>, q: seq<RelayCell>)
    requires max > 0
    requires |cells| == |Chunks(data, max)|
    requires forall i :: 0 <= i < |cells| ==> cells[i] == DataCell(id, Chunks(data, max)[i])
    requires Only(q, id) == cells
    ensures StreamBytes(q, id) == data
  {
    OnlyMatters(q, id);
    CellsCarryChunks(cells, Chunks(data, max), id);
    ChunksLaws(data, max);
  }

  lemma Regrouped(got: seq<byte>, out: seq<byte>, rest: seq<byte>, before: seq<byte>, data: seq<byte>)
    requires got + before == data && before == out + rest
    ensures (got + out) + rest == data && |before| == |out| + |rest|
    ensures rest == [] ==> got + out == data
  {
  }

  /** A whole transfer: write, deliver among other traffic, and read with buffers of any
      sizes. The reads return the data in order, each byte once: their concatenation is a
      prefix of it, and all of it once the reader is told that nothing more has come. With
      nonempty buffers that happens within as many reads as there are bytes and cells. */
  method Transfer(data: seq<byte>, max: nat, id: uint16, q: seq<RelayCell>, sizes: seq<nat>)
    returns (got: seq<byte>, ended: bool)
    requires 0 < max <= V0_MAX_DATA
    requires |Only(q, id)| == |Chunks(data, max)|
    requires forall i :: 0 <= i < |Only(q, id)| ==> Only(q, id)[i] == DataCell(id, Chunks(data, max)[i])
    ensures got <= data
    ensures ended ==> got == data
    ensures (forall i :: 0 <= i < |sizes| ==> sizes[i] > 0) && |sizes| > |data| + |q| ==> ended
  {
    WrittenIsReadable(data, max, id, Only(q, id), q);
    var conn := new StreamConn(id, q);
    got, ended := [], false;
    for i := 0 to |sizes|
      invariant !ended
      invariant got + conn.Remaining() == data
      invariant (forall k :: 0 <= k < |sizes| ==> sizes[k] > 0) ==>
                  i + |conn.Remaining()| + |conn.incoming| <= |data| + |q|
    {
      ghost var before := conn.Remaining();
      var out, ok := conn.Read(sizes[i]);
      Regrouped(got, out, if ok then conn.Remaining() else [], before, data);
      got := got + out;
      if !ok {
        return got, true;
      }
    }
  }
}
