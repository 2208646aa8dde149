/** The bytes on the wire, position by position: both ends of a codec agreeing with each other
    says nothing about a peer that is not this program. */
module WireFormat {
  import opened Bytes
  import opened RelayCodec
  import C = ConfluxSpec
  import L = LinkCodec

  /** An unsigned number in network order, most significant byte first. */
  function BigEndian(s: seq<byte>): nat {
    if s == [] then 0 else 256 * BigEndian(s[..|s| - 1]) + s[|s| - 1]
  }

  lemma {:induction false} BigEndianConcat(a: seq<byte>, b: seq<byte>)
    ensures BigEndian(a + b) == BigEndian(a) * Weight(|b|) + BigEndian(b)
    decreases |b|
  {
    if b == [] {
      assert a + b == a;
    } else {
      var front := b[..|b| - 1];
      assert (a + b)[..|a + b| - 1] == a + front;
      BigEndianConcat(a, front);
    }
  }

  function Weight(n: nat): nat {
    if n == 0 then 1 else 256 * Weight(n - 1)
  }

  lemma U16IsBigEndian(s: seq<byte>)
    requires |s| == 2
    ensures GetU16(s) == BigEndian(s)
  {
    assert s[..1][..0] == [] && BigEndian(s[..1]) == s[0];
  }

  lemma U32IsBigEndian(s: seq<byte>)
    requires |s| == 4
    ensures GetU32(s) == BigEndian(s)
  {
    assert Weight(2) == 0x10000;
    U16IsBigEndian(s[..2]);
    U16IsBigEndian(s[2..]);
    BigEndianConcat(s[..2], s[2..]);
    assert s == s[..2] + s[2..];
  }

  lemma U64IsBigEndian(s: seq<byte>)
    requires |s| == 8
    ensures GetU64(s) == BigEndian(s)
  {
    assert Weight(2) == 0x10000;
    assert Weight(4) == 0x1_0000_0000;
    U32IsBigEndian(s[..4]);
    U32IsBigEndian(s[4..]);
    BigEndianConcat(s[..4], s[4..]);
    assert s == s[..4] + s[4..];
  }

  lemma PutIsBigEndian(n: uint16, m: uint32, k: uint64)
    ensures BigEndian(PutU16(n)) == n && BigEndian(PutU32(m)) == m && BigEndian(PutU64(k)) == k
  {
    U16IsBigEndian(PutU16(n));
    U32IsBigEndian(PutU32(m));
    U64IsBigEndian(PutU64(k));
  }

  // ---------------------------------------------------------------- relay messages

  predicate ZeroFrom(p: seq<byte>, i: nat) {
    forall k :: i <= k < |p| ==> p[k] == 0
  }

  /** Version 0: command, recognized, stream, digest, length, data, zeros. */
  predicate V0Wire(rc: RelayCell, p: seq<byte>) {
    && |p| == 509 && |rc.data| <= 498
    && p[0] == rc.command
    && BigEndian(p[1..3]) == rc.recognized
    && BigEndian(p[3..5]) == rc.streamId
    && p[5..9] == rc.digest
    && BigEndian(p[9..11]) == |rc.data|
    && p[11..11 + |rc.data|] == rc.data
    && ZeroFrom(p, 11 + |rc.data|)
  }

  lemma V0OnTheWire(rc: RelayCell)
    requires EncodeV0(rc).Ok?
    ensures V0Wire(rc, EncodeV0(rc).value)
  {
    var h, p := V0Header(rc), EncodeV0(rc).value;
    assert forall k :: 0 <= k < 11 ==> p[k] == h[k];
    assert p[1..3] == h[1..3] == PutU16(rc.recognized);
    assert p[3..5] == h[3..5] == PutU16(rc.streamId);
    assert p[5..9] == h[5..9] == rc.digest;
    assert p[9..11] == h[9..11] == PutU16(|rc.data|);
    PutIsBigEndian(rc.recognized, 0, 0);
    PutIsBigEndian(rc.streamId, 0, 0);
    PutIsBigEndian(|rc.data|, 0, 0);
  }

  /** Which payloads are read as version 0, and why the others are not. */
  lemma V0Accepts(p: seq<byte>)
    ensures DecodeV0(p) == Err(PayloadTooShort) <==> |p| < 11
    ensures |p| >= 11 ==>
      && (DecodeV0(p) == Err(LengthExceedsMaximum) <==> BigEndian(p[9..11]) > 498)
      && (DecodeV0(p) == Err(LengthExceedsPayload) <==> |p| < 11 + BigEndian(p[9..11]) <= 509)
      && (DecodeV0(p).Ok? <==> 11 + BigEndian(p[9..11]) <= 509 && 11 + BigEndian(p[9..11]) <= |p|)
  {
    if |p| >= 11 {
      U16IsBigEndian(p[9..11]);
    }
  }

  /** The commands of a stream, by number. */
  predicate StreamCommand(cmd: byte) {
    1 <= cmd <= 4 || 11 <= cmd <= 13 || cmd == 43 || cmd == 44
  }

  /** Exactly these carry a stream ID in version 1, and exactly these are put in order by
      Conflux. */
  lemma StreamCommands(cmd: byte)
    ensures ExpectsStreamId(cmd) <==> StreamCommand(cmd)
    ensures ShouldMultiplex(cmd) <==> StreamCommand(cmd)
  {
  }

  /** Conflux's own commands are those numbered 19 to 22, and none of them is put in order. */
  lemma ConfluxCommands(cmd: byte)
    ensures C.IsConfluxCommand(cmd) <==> 19 <= cmd <= 22
    ensures C.IsConfluxCommand(cmd) ==> !ShouldMultiplex(cmd)
  {
  }

  /** Version 1: sixteen bytes for the tag, command, length, the stream ID if the command has
      one, data, zeros. */
  predicate V1Wire(rc: RelayCell, p: seq<byte>) {
    var off := if StreamCommand(rc.command) then 21 else 19;
    && |p| == 509 && off + |rc.data| <= 509
    && (forall k :: 0 <= k < 16 ==> p[k] == 0)
    && p[16] == rc.command
    && BigEndian(p[17..19]) == |rc.data|
    && (if StreamCommand(rc.command) then BigEndian(p[19..21]) == rc.streamId != 0 else rc.streamId == 0)
    && p[off..off + |rc.data|] == rc.data
    && ZeroFrom(p, off + |rc.data|)
  }

  lemma V1OnTheWire(rc: RelayCell)
    requires EncodeV1(rc).Ok?
    ensures V1Wire(rc, EncodeV1(rc).value)
  {
    StreamCommands(rc.command);
    var p := EncodeV1(rc).value;
    var before, after := Zeros(16), Zeros(V1MaxData(rc.command) - |rc.data|);
    assert p == before + (V1Fields(rc) + rc.data) + after;
    V1FieldsInPlace(rc, before, after);
    PutIsBigEndian(rc.streamId, 0, 0);
    PutIsBigEndian(|rc.data|, 0, 0);
  }

  lemma V1Accepts(p: seq<byte>)
    ensures DecodeV1(p) == Err(PayloadTooShort) <==> |p| < 509
    ensures |p| >= 509 ==>
      (DecodeV1(p).Ok? <==> (if StreamCommand(p[16]) then 21 else 19) + BigEndian(p[17..19]) <= |p|)
    ensures DecodeV1(p).Ok? || DecodeV1(p).error in {PayloadTooShort, LengthExceedsPayload}
  {
    if |p| >= 509 {
      StreamCommands(p[16]);
      U16IsBigEndian(p[17..19]);
    }
  }

  // ---------------------------------------------------------------- bodies

  /** SENDME: version 1, the length of the tag, the tag. */
  lemma SendmeOnTheWire(tag: seq<byte>)
    ensures EncodeSendmeV1(tag).Ok? <==> |tag| == 16 || |tag| == 20
    ensures EncodeSendmeV1(tag).Ok? ==>
      var e := EncodeSendmeV1(tag).value;
      |e| == 3 + |tag| && e[0] == 1 && BigEndian(e[1..3]) == |tag| && e[3..] == tag
  {
    if EncodeSendmeV1(tag).Ok? {
      PutIsBigEndian(|tag|, 0, 0);
      assert EncodeSendmeV1(tag).value[1..3] == PutU16(|tag|);
    }
  }

  /** How any SENDME body is read: an empty one, or one of version 0 whose length fits, is the
      unauthenticated form. */
  lemma SendmeAccepts(p: seq<byte>)
    ensures DecodeSendme(p) == Ok((0, [])) <==>
      p == [] || (|p| >= 3 && p[0] == 0 && 3 + BigEndian(p[1..3]) <= |p|)
    ensures DecodeSendme(p).Ok? && DecodeSendme(p).value.0 == 1 <==>
      |p| >= 3 && p[0] == 1 && BigEndian(p[1..3]) in {16, 20} && 3 + BigEndian(p[1..3]) <= |p|
    ensures DecodeSendme(p) == Err(PayloadTooShort) <==> 1 <= |p| < 3
    ensures DecodeSendme(p) == Err(LengthExceedsPayload) <==> |p| >= 3 && 3 + BigEndian(p[1..3]) > |p|
    ensures DecodeSendme(p) == Err(BadVersion) <==> |p| >= 3 && 3 + BigEndian(p[1..3]) <= |p| && p[0] > 1
  {
    if |p| >= 3 {
      U16IsBigEndian(p[1..3]);
    }
  }

  /** SWITCH: the number of cells skipped, in four bytes; what follows is ignored. */
  lemma SwitchOnTheWire(rel: uint32, data: seq<byte>)
    ensures |EncodeSwitch(rel)| == 4 && BigEndian(EncodeSwitch(rel)) == rel
    ensures DecodeSwitch(data) == if |data| < 4 then Err(PayloadTooShort) else Ok(BigEndian(data[..4]))
  {
    PutIsBigEndian(0, rel, 0);
    if |data| >= 4 {
      U32IsBigEndian(data[..4]);
    }
  }

  /** The whole SWITCH cell: command 22, no stream, a zero recognized field, and the count. */
  lemma SwitchCellOnTheWire(rel: uint32)
    ensures EncodeV0(C.SwitchCell(rel)).Ok? && EncodeV1(C.SwitchCell(rel)).Ok?
    ensures var p := EncodeV0(C.SwitchCell(rel)).value;
      && p[0] == 22 && BigEndian(p[1..3]) == 0 && BigEndian(p[3..5]) == 0 && BigEndian(p[9..11]) == 4
      && BigEndian(p[11..15]) == rel
    ensures var p := EncodeV1(C.SwitchCell(rel)).value;
      p[16] == 22 && BigEndian(p[17..19]) == 4 && BigEndian(p[19..23]) == rel
  {
    PutIsBigEndian(0, rel, 0);
    V0OnTheWire(C.SwitchCell(rel));
    V1OnTheWire(C.SwitchCell(rel));
  }

  /** LINK: version 1, nonce, last sequence numbers sent and received, and a wish. */
  lemma ConfluxLinkOnTheWire(l: ConfluxLink)
    ensures EncodeConfluxLink(l).Ok? <==> l.version == 1
    ensures EncodeConfluxLink(l).Ok? ==>
      var e := EncodeConfluxLink(l).value;
      && |e| == 50 && e[0] == 1 && e[1..33] == l.nonce
      && BigEndian(e[33..41]) == l.lastSent && BigEndian(e[41..49]) == l.lastRecv && e[49] == l.desiredUX
  {
    if EncodeConfluxLink(l).Ok? {
      LinkFieldsInPlace(l, EncodeConfluxLink(l).value);
      PutIsBigEndian(0, 0, l.lastSent);
      PutIsBigEndian(0, 0, l.lastRecv);
    }
  }

  // ---------------------------------------------------------------- link cells

  /** A command whose cells say how long they are. */
  predicate SaysItsLength(cmd: byte) {
    cmd == 7 || cmd >= 128
  }

  /** Circuit ID, command, and either a length and the payload or the payload and zeros up to
      509 bytes. */
  predicate LinkWire(c: L.Cell, width: nat, s: seq<byte>) {
    && |s| > width
    && BigEndian(s[..width]) == c.circId
    && s[width] == c.command
    && var body := s[width + 1..];
       if SaysItsLength(c.command) then
         |body| == 2 + |c.payload| && BigEndian(body[..2]) == |c.payload| && body[2..] == c.payload
       else
         |body| == 509 && c.payload <= body && ZeroFrom(body, |c.payload|)
  }

  lemma LinkOnTheWire(c: L.Cell, width: int)
    requires L.Encodable(c, width)
    ensures (width == 2 || width == 4) && LinkWire(c, width, L.Encode(c, width))
  {
    var s, id, body := L.Encode(c, width), L.PutCircId(c.circId, width), L.Body(c);
    assert s[..width] == id && s[width] == c.command && s[width + 1..] == body;
    if width == 2 {
      PutIsBigEndian(c.circId, 0, 0);
    } else {
      PutIsBigEndian(0, c.circId, 0);
    }
    if SaysItsLength(c.command) {
      PutIsBigEndian(|c.payload|, 0, 0);
      assert body[..2] == PutU16(|c.payload|);
    }
  }

  /** The whole of a link cell is at the front of the bytes. */
  predicate Arrived(s: seq<byte>, width: nat) {
    && |s| > width
    && var body := s[width + 1..];
       if SaysItsLength(s[width]) then |body| >= 2 && |body| >= 2 + BigEndian(body[..2]) else |body| >= 509
  }

  lemma LinkAccepts(s: seq<byte>, width: int)
    ensures L.Decode(s, width) == Err(L.BadCircIdLen) <==> width != 2 && width != 4
    ensures width == 2 || width == 4 ==>
      (L.Decode(s, width) == Err(L.ShortRead) <==> !Arrived(s, width)) && (L.Decode(s, width).Ok? <==> Arrived(s, width))
  {
    if (width == 2 || width == 4) && |s| > width {
      var body := s[width + 1..];
      if |body| >= 2 {
        U16IsBigEndian(body[..2]);
      }
    }
  }
}
