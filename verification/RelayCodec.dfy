/** The payload codecs of pkg/cell: relay messages in the v0 and v1 layouts,
    authenticated SENDME bodies and Conflux SWITCH bodies. */
module RelayCodec {
  import opened Bytes

  const V0_HEADER_LEN := 11
  const V0_MAX_DATA := PAYLOAD_LEN - V0_HEADER_LEN
  const V1_CMD_OFFSET := 16
  const V1_LEN_OFFSET := 17
  const V1_STREAM_ID_OFFSET := 19
  const V1_HEADER_NO_STREAM := 19
  const V1_HEADER_WITH_STREAM := 21

  const RELAY_BEGIN: byte := 1
  const RELAY_DATA: byte := 2
  const RELAY_END: byte := 3
  const RELAY_CONNECTED: byte := 4
  const RELAY_SENDME: byte := 5
  const RELAY_RESOLVE: byte := 11
  const RELAY_RESOLVED: byte := 12
  const RELAY_BEGIN_DIR: byte := 13
  const RELAY_CONFLUX_LINK: byte := 19
  const RELAY_CONFLUX_LINKED: byte := 20
  const RELAY_CONFLUX_LINKED_ACK: byte := 21
  const RELAY_CONFLUX_SWITCH: byte := 22
  const RELAY_XON: byte := 43
  const RELAY_XOFF: byte := 44

  type Digest4 = s: seq<byte> | |s| == 4 witness [0, 0, 0, 0]

  const NO_DIGEST: Digest4 := [0, 0, 0, 0]

  /** A relay message. The source's Length field is always |data| once encoded or decoded. */
  datatype RelayCell = RelayCell(
    command: byte,
    recognized: uint16,
    streamId: uint16,
    digest: Digest4,
    data: seq<byte>)

  datatype CodecError =
    | DataTooLarge
    | PayloadTooShort
    | LengthExceedsMaximum
    | LengthExceedsPayload
    | StreamIdRequired
    | StreamIdForbidden
    | BadVersion
    | BadTagLength

  // ---------------------------------------------------------------- v0 layout

  function V0Header(rc: RelayCell): (h: seq<byte>)
    requires |rc.data| < 0x10000
    ensures |h| == V0_HEADER_LEN
  {
    [rc.command] + PutU16(rc.recognized) + PutU16(rc.streamId) + rc.digest + PutU16(|rc.data|)
  }

  function EncodeV0(rc: RelayCell): (r: Result<seq<byte>, CodecError>)
    ensures r.Ok? <==> |rc.data| <= V0_MAX_DATA
    ensures r.Ok? ==> |r.value| == PAYLOAD_LEN
  {
    if |rc.data| > V0_MAX_DATA then Err(DataTooLarge)
    else Ok(V0Header(rc) + rc.data + Zeros(V0_MAX_DATA - |rc.data|))
  }

  function DecodeV0(p: seq<byte>): (r: Result<RelayCell, CodecError>)
  {
    if |p| < V0_HEADER_LEN then Err(PayloadTooShort)
    else
      var length := GetU16(p[9..11]);
      if length > V0_MAX_DATA then Err(LengthExceedsMaximum)
      else if length > |p| - V0_HEADER_LEN then Err(LengthExceedsPayload)
      else Ok(RelayCell(p[0], GetU16(p[1..3]), GetU16(p[3..5]), p[5..9], p[11..11 + length]))
  }

  /** Whatever bytes replace the zero padding, a v0 message decodes to itself: the
      sender may fill the tail of a DATA cell with random bytes. */
  lemma V0RoundTrip(rc: RelayCell, tail: seq<byte>)
    requires |rc.data| <= V0_MAX_DATA
    ensures DecodeV0(EncodeV0(rc).value[..V0_HEADER_LEN + |rc.data|] + tail) == Ok(rc)
  {
    var h := V0Header(rc);
    var p := EncodeV0(rc).value[..V0_HEADER_LEN + |rc.data|] + tail;
    assert p == h + rc.data + tail;
    assert p[..V0_HEADER_LEN] == h;
    assert p[1..3] == h[1..3] == PutU16(rc.recognized);
    assert p[3..5] == h[3..5] == PutU16(rc.streamId);
    assert p[5..9] == h[5..9] == rc.digest;
    assert p[9..11] == h[9..11] == PutU16(|rc.data|);
    assert p[11..11 + |rc.data|] == rc.data;
  }

  /** Conversely, every payload the v0 decoder accepts is the encoding of what it
      returned, up to the padding. */
  lemma V0DecodeEncode(p: seq<byte>)
    requires DecodeV0(p).Ok?
    ensures var rc := DecodeV0(p).value;
      && |rc.data| <= V0_MAX_DATA
      && V0_HEADER_LEN + |rc.data| <= |p|
      && EncodeV0(rc).value[..V0_HEADER_LEN + |rc.data|] == p[..V0_HEADER_LEN + |rc.data|]
  {
    var rc := DecodeV0(p).value;
    GetPutU16(p[1..3]);
    GetPutU16(p[3..5]);
    GetPutU16(p[9..11]);
    assert V0Header(rc) == p[..V0_HEADER_LEN];
    assert EncodeV0(rc).value[..V0_HEADER_LEN + |rc.data|] == V0Header(rc) + rc.data;
  }

  /** RelayCell.Encode: fills a zeroed 509-byte buffer field by field. */
  method EncodeRelayCellV0(rc: RelayCell) returns (r: Result<seq<byte>, CodecError>)
    ensures r == EncodeV0(rc)
  {
    if |rc.data| > V0_MAX_DATA {
      return Err(DataTooLarge);
    }
    var payload := new byte[PAYLOAD_LEN](_ => 0);
    payload[0] := rc.command;
    CopyInto(payload, 1, PutU16(rc.recognized));
    CopyInto(payload, 3, PutU16(rc.streamId));
    CopyInto(payload, 5, rc.digest);
    CopyInto(payload, 9, PutU16(|rc.data|));
    CopyInto(payload, V0_HEADER_LEN, rc.data);
    assert payload[..V0_HEADER_LEN] == V0Header(rc);
    assert payload[..] == payload[..V0_HEADER_LEN] + payload[V0_HEADER_LEN..];
    assert payload[V0_HEADER_LEN..] == rc.data + Zeros(V0_MAX_DATA - |rc.data|);
    r := Ok(payload[..]);
    assert r.value == EncodeV0(rc).value;
  }

  /** copy(buf[off:], src) */
  method CopyInto(buf: array<byte>, off: nat, src: seq<byte>)
    requires off + |src| <= buf.Length
    modifies buf
    ensures forall k :: 0 <= k < buf.Length ==>
      buf[k] == if off <= k < off + |src| then src[k - off] else old(buf[k])
  {
    var i := 0;
    while i < |src|
      invariant 0 <= i <= |src|
      invariant forall k :: 0 <= k < buf.Length ==>
        buf[k] == if off <= k < off + i then src[k - off] else old(buf[k])
    {
      buf[off + i] := src[i];
      i := i + 1;
    }
  }

  // ---------------------------------------------------------------- v1 layout

  predicate ExpectsStreamId(cmd: byte) {
    cmd in {RELAY_BEGIN, RELAY_DATA, RELAY_END, RELAY_CONNECTED, RELAY_RESOLVE,
            RELAY_RESOLVED, RELAY_BEGIN_DIR, RELAY_XON, RELAY_XOFF}
  }

  function V1HeaderLen(cmd: byte): nat {
    if ExpectsStreamId(cmd) then V1_HEADER_WITH_STREAM else V1_HEADER_NO_STREAM
  }

  function V1MaxData(cmd: byte): nat {
    PAYLOAD_LEN - V1HeaderLen(cmd)
  }

  /** The v1 fields after the 16-byte CGO tag area. */
  function V1Fields(rc: RelayCell): (h: seq<byte>)
    requires |rc.data| < 0x10000
    ensures |h| == V1HeaderLen(rc.command) - V1_CMD_OFFSET
  {
    [rc.command] + PutU16(|rc.data|) + (if ExpectsStreamId(rc.command) then PutU16(rc.streamId) else [])
  }

  function EncodeV1(rc: RelayCell): (r: Result<seq<byte>, CodecError>)
    ensures r.Ok? <==> |rc.data| <= V1MaxData(rc.command) && (ExpectsStreamId(rc.command) <==> rc.streamId != 0)
    ensures r.Ok? ==> |r.value| == PAYLOAD_LEN
  {
    if ExpectsStreamId(rc.command) && rc.streamId == 0 then Err(StreamIdRequired)
    else if !ExpectsStreamId(rc.command) && rc.streamId != 0 then Err(StreamIdForbidden)
    else if |rc.data| > V1MaxData(rc.command) then Err(DataTooLarge)
    else Ok(Zeros(V1_CMD_OFFSET) + V1Fields(rc) + rc.data + Zeros(V1MaxData(rc.command) - |rc.data|))
  }

  function DecodeV1(p: seq<byte>): (r: Result<RelayCell, CodecError>)
  {
    if |p| < PAYLOAD_LEN then Err(PayloadTooShort)
    else
      var cmd := p[V1_CMD_OFFSET];
      var length := GetU16(p[17..19]);
      var streamId := if ExpectsStreamId(cmd) then GetU16(p[19..21]) else 0;
      var off := V1HeaderLen(cmd);
      if length > |p| - off then Err(LengthExceedsPayload)
      else Ok(RelayCell(cmd, 0, streamId, NO_DIGEST, p[off..off + length]))
  }

  /** Where the message ends; bytes from four past here are randomised by the sender. */
  function V1MessageEnd(p: seq<byte>): (end: nat)
    ensures end <= |p|
  {
    if |p| < V1_HEADER_NO_STREAM then |p|
    else
      var end := V1HeaderLen(p[V1_CMD_OFFSET]) + GetU16(p[17..19]);
      if end > |p| then |p| else end
  }

  /** The tag area and everything after the message may be overwritten at will
      without changing what a v1 payload decodes to. */
  lemma V1RoundTrip(rc: RelayCell, tag: seq<byte>, tail: seq<byte>)
    requires EncodeV1(rc).Ok?
    requires |tag| == V1_CMD_OFFSET
    requires |tail| == PAYLOAD_LEN - V1MessageEnd(EncodeV1(rc).value)
    ensures V1MessageEnd(EncodeV1(rc).value) == V1HeaderLen(rc.command) + |rc.data|
    ensures var p := EncodeV1(rc).value;
      DecodeV1(tag + p[V1_CMD_OFFSET..V1MessageEnd(p)] + tail)
      == Ok(rc.(recognized := 0, digest := NO_DIGEST))
  {
    var e := EncodeV1(rc).value;
    var end := V1HeaderLen(rc.command) + |rc.data|;
    var mid := V1Fields(rc) + rc.data;
    assert e[V1_CMD_OFFSET..end] == mid;
    assert e == Zeros(V1_CMD_OFFSET) + mid + Zeros(PAYLOAD_LEN - end);
    V1FieldsInPlace(rc, Zeros(V1_CMD_OFFSET), Zeros(PAYLOAD_LEN - end));
    assert V1MessageEnd(e) == end;
    V1FieldsInPlace(rc, tag, tail);
  }

  /** Where the v1 fields are found, whatever surrounds them. */
  lemma V1FieldsInPlace(rc: RelayCell, before: seq<byte>, after: seq<byte>)
    requires EncodeV1(rc).Ok?
    requires |before| == V1_CMD_OFFSET
    ensures var p := before + (V1Fields(rc) + rc.data) + after;
      && p[V1_CMD_OFFSET] == rc.command
      && p[17..19] == PutU16(|rc.data|)
      && (ExpectsStreamId(rc.command) ==> p[19..21] == PutU16(rc.streamId))
      && p[V1HeaderLen(rc.command)..V1HeaderLen(rc.command) + |rc.data|] == rc.data
  {
    var f := V1Fields(rc);
    var p := before + (f + rc.data) + after;
    assert forall i :: 0 <= i < |f| ==> p[V1_CMD_OFFSET + i] == f[i];
    assert f[1] == PutU16(|rc.data|)[0] && f[2] == PutU16(|rc.data|)[1];
  }

  /** Every 509-byte payload the v1 decoder accepts is re-encodable exactly when it
      respects the stream-id rule, and then agrees with its re-encoding from the
      command byte to the end of the message. */
  lemma V1DecodeEncode(p: seq<byte>)
    requires |p| == PAYLOAD_LEN
    requires DecodeV1(p).Ok?
    ensures var rc := DecodeV1(p).value;
      && (EncodeV1(rc).Ok? <==> !(ExpectsStreamId(rc.command) && rc.streamId == 0))
      && (EncodeV1(rc).Ok? ==>
            EncodeV1(rc).value[V1_CMD_OFFSET..V1MessageEnd(p)] == p[V1_CMD_OFFSET..V1MessageEnd(p)])
  {
    var rc := DecodeV1(p).value;
    if EncodeV1(rc).Ok? {
      V1Decoded(p);
      V1Middle(rc);
    }
  }

  /** What the decoder read, in the payload it read it from. */
  lemma V1Decoded(p: seq<byte>)
    requires |p| == PAYLOAD_LEN && DecodeV1(p).Ok?
    ensures var rc := DecodeV1(p).value;
      && |rc.data| <= V1MaxData(rc.command)
      && V1MessageEnd(p) == V1HeaderLen(rc.command) + |rc.data|
      && p[V1_CMD_OFFSET..V1MessageEnd(p)] == V1Fields(rc) + rc.data
  {
    var rc := DecodeV1(p).value;
    var header := V1HeaderLen(rc.command);
    GetPutU16(p[17..19]);
    if ExpectsStreamId(rc.command) {
      GetPutU16(p[19..21]);
    }
    assert V1Fields(rc) == p[V1_CMD_OFFSET..header];
    assert p[V1_CMD_OFFSET..V1MessageEnd(p)] == p[V1_CMD_OFFSET..header] + p[header..V1MessageEnd(p)];
  }

  lemma V1Middle(rc: RelayCell)
    requires EncodeV1(rc).Ok?
    ensures EncodeV1(rc).value[V1_CMD_OFFSET..V1HeaderLen(rc.command) + |rc.data|] == V1Fields(rc) + rc.data
  {
  }

  /** EncodeRelayCellV1: fills a zeroed 509-byte buffer field by field. */
  method EncodeRelayCellV1(rc: RelayCell) returns (r: Result<seq<byte>, CodecError>)
    ensures r == EncodeV1(rc)
  {
    var payload := new byte[PAYLOAD_LEN](_ => 0);
    var off := V1_HEADER_NO_STREAM;
    if ExpectsStreamId(rc.command) {
      if rc.streamId == 0 {
        return Err(StreamIdRequired);
      }
      CopyInto(payload, V1_STREAM_ID_OFFSET, PutU16(rc.streamId));
      off := V1_HEADER_WITH_STREAM;
    } else if rc.streamId != 0 {
      return Err(StreamIdForbidden);
    }
    if |rc.data| >= 0x10000 || off + |rc.data| > PAYLOAD_LEN {
      return Err(DataTooLarge);
    }
    payload[V1_CMD_OFFSET] := rc.command;
    CopyInto(payload, V1_LEN_OFFSET, PutU16(|rc.data|));
    CopyInto(payload, off, rc.data);
    V1Assembled(rc, payload[..]);
    r := Ok(payload[..]);
  }

  function V1ByteAt(rc: RelayCell, k: nat): byte
    requires EncodeV1(rc).Ok?
  {
    var off := V1HeaderLen(rc.command);
    if k == V1_CMD_OFFSET then rc.command
    else if V1_LEN_OFFSET <= k < V1_LEN_OFFSET + 2 then PutU16(|rc.data|)[k - V1_LEN_OFFSET]
    else if V1_STREAM_ID_OFFSET <= k < off then PutU16(rc.streamId)[k - V1_STREAM_ID_OFFSET]
    else if off <= k < off + |rc.data| then rc.data[k - off]
    else 0
  }

  /** A buffer with every v1 field in its place, and zeros elsewhere, is the encoding. */
  lemma V1Assembled(rc: RelayCell, p: seq<byte>)
    requires EncodeV1(rc).Ok?
    requires |p| == PAYLOAD_LEN
    requires forall k :: 0 <= k < PAYLOAD_LEN ==> p[k] == V1ByteAt(rc, k)
    ensures EncodeV1(rc) == Ok(p)
  {
    var off := V1HeaderLen(rc.command);
    assert p[..V1_CMD_OFFSET] == Zeros(V1_CMD_OFFSET);
    assert p[V1_CMD_OFFSET..off] == V1Fields(rc);
    assert p[off..] == rc.data + Zeros(V1MaxData(rc.command) - |rc.data|);
    assert p == p[..V1_CMD_OFFSET] + p[V1_CMD_OFFSET..off] + p[off..];
    assert p == EncodeV1(rc).value;
  }

  // ---------------------------------------------------------------- SENDME body

  const SENDME_V1_DIGEST_LEN := 20
  const SENDME_CGO_TAG_LEN := 16

  function EncodeSendmeV1(digest: seq<byte>): (r: Result<seq<byte>, CodecError>)
  {
    if |digest| != SENDME_V1_DIGEST_LEN && |digest| != SENDME_CGO_TAG_LEN then Err(BadTagLength)
    else Ok([1] + PutU16(|digest|) + digest)
  }

  /** DecodeSendme: a version and, for version 1, the tag. An empty body is version 0. */
  function DecodeSendme(p: seq<byte>): (r: Result<(byte, seq<byte>), CodecError>)
  {
    if |p| == 0 then Ok((0, []))
    else if |p| < 3 then Err(PayloadTooShort)
    else
      var dataLen := GetU16(p[1..3]);
      if 3 + dataLen > |p| then Err(LengthExceedsPayload)
      else if p[0] == 0 then Ok((0, []))
      else if p[0] != 1 then Err(BadVersion)
      else if dataLen != SENDME_V1_DIGEST_LEN && dataLen != SENDME_CGO_TAG_LEN then Err(BadTagLength)
      else Ok((1, p[3..3 + dataLen]))
  }

  /** A version-1 tag survives, whatever follows it in the relay data, and a body
      decodes to that tag only if it starts with the tag's encoding. */
  lemma SendmeRoundTrip(digest: seq<byte>, p: seq<byte>)
    requires EncodeSendmeV1(digest).Ok?
    ensures DecodeSendme(p) == Ok((1, digest)) <==> EncodeSendmeV1(digest).value <= p
  {
    var e := EncodeSendmeV1(digest).value;
    if e <= p {
      assert p[0] == e[0] && p[1..3] == e[1..3] == PutU16(|digest|);
      assert p[3..3 + |digest|] == e[3..] == digest;
    }
    if DecodeSendme(p) == Ok((1, digest)) {
      GetPutU16(p[1..3]);
      assert p[..|e|] == e;
    }
  }

  // ---------------------------------------------------------------- Conflux SWITCH body

  const CONFLUX_SWITCH_LEN := 4

  function EncodeSwitch(rel: uint32): (s: seq<byte>)
    ensures DecodeSwitch(s) == Ok(rel)
  {
    var s := PutU32(rel);
    assert s[..CONFLUX_SWITCH_LEN] == s;
    s
  }

  function DecodeSwitch(data: seq<byte>): (r: Result<uint32, CodecError>)
  {
    if |data| < CONFLUX_SWITCH_LEN then Err(PayloadTooShort)
    else Ok(GetU32(data[..CONFLUX_SWITCH_LEN]))
  }

  // ---------------------------------------------------------------- Conflux LINK body

  const CONFLUX_LINK_VERSION := 1
  const CONFLUX_NONCE_LEN := 32
  const CONFLUX_LINK_LEN := 50

  type Nonce = s: seq<byte> | |s| == CONFLUX_NONCE_LEN witness Zeros(CONFLUX_NONCE_LEN)

  /** The body of LINK and LINKED. */
  datatype ConfluxLink = ConfluxLink(version: byte, nonce: Nonce, lastSent: uint64, lastRecv: uint64, desiredUX: byte)

  function EncodeConfluxLink(l: ConfluxLink): (r: Result<seq<byte>, CodecError>)
    ensures r.Ok? ==> |r.value| == CONFLUX_LINK_LEN
  {
    if l.version != CONFLUX_LINK_VERSION then Err(BadVersion)
    else Ok([l.version] + l.nonce + PutU64(l.lastSent) + PutU64(l.lastRecv) + [l.desiredUX])
  }

  function DecodeConfluxLink(p: seq<byte>): Result<ConfluxLink, CodecError> {
    if |p| < CONFLUX_LINK_LEN then Err(PayloadTooShort)
    else if p[0] != CONFLUX_LINK_VERSION then Err(BadVersion)
    else Ok(ConfluxLink(p[0], p[1..33], GetU64(p[33..41]), GetU64(p[41..49]), p[49]))
  }

  /** A body decodes to a LINK exactly when it starts with that LINK's encoding. */
  lemma ConfluxLinkRoundTrip(l: ConfluxLink, p: seq<byte>)
    requires EncodeConfluxLink(l).Ok?
    ensures DecodeConfluxLink(p) == Ok(l) <==> EncodeConfluxLink(l).value <= p
  {
    var e := EncodeConfluxLink(l).value;
    LinkFieldsInPlace(l, e);
    if e <= p {
      assert p[1..33] == e[1..33] && p[33..41] == e[33..41] && p[41..49] == e[41..49];
    }
    if DecodeConfluxLink(p) == Ok(l) {
      GetPutU64(p[33..41]);
      GetPutU64(p[41..49]);
      assert p[..50] == [p[0]] + p[1..33] + p[33..41] + p[41..49] + [p[49]];
    }
  }

  lemma LinkFieldsInPlace(l: ConfluxLink, e: seq<byte>)
    requires EncodeConfluxLink(l) == Ok(e)
    ensures e[0] == l.version && e[1..33] == l.nonce && e[49] == l.desiredUX
    ensures e[33..41] == PutU64(l.lastSent) && e[41..49] == PutU64(l.lastRecv)
  {
  }

  /** The commands that Conflux sequences; the same set carries a stream id in v1. */
  predicate ShouldMultiplex(cmd: byte) {
    cmd in {RELAY_BEGIN, RELAY_DATA, RELAY_END, RELAY_CONNECTED, RELAY_RESOLVE,
            RELAY_RESOLVED, RELAY_BEGIN_DIR, RELAY_XON, RELAY_XOFF}
  }
}
