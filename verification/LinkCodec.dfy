/** Link-level cells: fixed cells padded to 509 bytes, variable cells with a length, and
    circuit IDs of 2 or 4 bytes. */
module LinkCodec {
  import opened Bytes

  const CMD_VERSIONS: byte := 7

  datatype Cell = Cell(circId: uint32, command: byte, payload: seq<byte>)

  datatype LinkError = BadCircIdLen | CircIdTooLarge | PayloadTooLarge | ShortRead

  predicate IsVariableLength(cmd: byte) {
    cmd >= 128 || cmd == CMD_VERSIONS
  }

  /** The cells EncodeLink accepts at a given circuit-ID width. */
  predicate Encodable(c: Cell, width: int) {
    && (width == 4 || (width == 2 && c.circId <= 0xFFFF))
    && |c.payload| <= (if IsVariableLength(c.command) then 0xFFFF else PAYLOAD_LEN)
  }

  function PutCircId(circId: uint32, width: int): (s: seq<byte>)
    requires width == 4 || (width == 2 && circId <= 0xFFFF)
    ensures |s| == width
  {
    if width == 2 then PutU16(circId) else PutU32(circId)
  }

  function Body(c: Cell): seq<byte>
    requires |c.payload| <= (if IsVariableLength(c.command) then 0xFFFF else PAYLOAD_LEN)
  {
    if IsVariableLength(c.command) then PutU16(|c.payload|) + c.payload
    else c.payload + Zeros(PAYLOAD_LEN - |c.payload|)
  }

  function Encode(c: Cell, width: int): seq<byte>
    requires Encodable(c, width)
  {
    PutCircId(c.circId, width) + [c.command] + Body(c)
  }

  /** What a cell reads back as: a fixed payload comes back padded. */
  function Normal(c: Cell): Cell {
    if IsVariableLength(c.command) || |c.payload| > PAYLOAD_LEN then c
    else c.(payload := c.payload + Zeros(PAYLOAD_LEN - |c.payload|))
  }

  /** The part of a cell after its command. */
  function DecodeBody(circId: uint32, cmd: byte, rest: seq<byte>): Result<(Cell, seq<byte>), LinkError> {
    if IsVariableLength(cmd) then
      if |rest| < 2 then Err(ShortRead)
      else
        var n := GetU16(rest[..2]);
        if |rest| < 2 + n then Err(ShortRead)
        else Ok((Cell(circId, cmd, rest[2..2 + n]), rest[2 + n..]))
    else if |rest| < PAYLOAD_LEN then Err(ShortRead)
    else Ok((Cell(circId, cmd, rest[..PAYLOAD_LEN]), rest[PAYLOAD_LEN..]))
  }

  /** DecodeCellLink on a byte string: the cell and what is left after it. */
  function Decode(s: seq<byte>, width: int): Result<(Cell, seq<byte>), LinkError> {
    if width != 2 && width != 4 then Err(BadCircIdLen)
    else if |s| < width + 1 then Err(ShortRead)
    else
      var circId: uint32 := if width == 2 then GetU16(s[..2]) else GetU32(s[..4]);
      var cmd := s[width];
      DecodeBody(circId, cmd, s[width + 1..])
  }

  /** One cell survives, whatever follows it, and exactly its bytes are consumed. */
  lemma LinkRoundTrip(c: Cell, width: int, tail: seq<byte>)
    requires Encodable(c, width)
    ensures Decode(Encode(c, width) + tail, width) == Ok((Normal(c), tail))
  {
    var s := Encode(c, width) + tail;
    var rest := Body(c) + tail;
    HeaderRead(c, width, rest);
    assert s == PutCircId(c.circId, width) + [c.command] + rest;
    BodyRead(c, tail);
    DecodeSplits(s, width, c.circId, c.command, rest);
  }

  /** Reading a cell is reading its header and then its body. */
  lemma DecodeSplits(s: seq<byte>, width: int, circId: uint32, cmd: byte, rest: seq<byte>)
    requires width == 2 || width == 4
    requires |s| >= width + 1 && s[width] == cmd && s[width + 1..] == rest
    requires circId == if width == 2 then GetU16(s[..2]) else GetU32(s[..4])
    ensures Decode(s, width) == DecodeBody(circId, cmd, rest)
  {
  }

  lemma HeaderRead(c: Cell, width: int, rest: seq<byte>)
    requires width == 4 || (width == 2 && c.circId <= 0xFFFF)
    ensures var s := PutCircId(c.circId, width) + [c.command] + rest;
      && s[width] == c.command && s[width + 1..] == rest
      && (width == 2 ==> GetU16(s[..2]) == c.circId)
      && (width == 4 ==> GetU32(s[..4]) == c.circId)
  {
    var s := PutCircId(c.circId, width) + [c.command] + rest;
    assert s[..width] == PutCircId(c.circId, width);
  }

  lemma BodyRead(c: Cell, tail: seq<byte>)
    requires |c.payload| <= (if IsVariableLength(c.command) then 0xFFFF else PAYLOAD_LEN)
    ensures DecodeBody(c.circId, c.command, Body(c) + tail) == Ok((Normal(c), tail))
  {
    var rest := Body(c) + tail;
    if IsVariableLength(c.command) {
      assert rest[..2] == PutU16(|c.payload|);
      assert rest[2..2 + |c.payload|] == c.payload;
      assert rest[2 + |c.payload|..] == tail;
    } else {
      assert rest[..PAYLOAD_LEN] == Body(c);
      assert rest[PAYLOAD_LEN..] == tail;
    }
  }

  /** Conversely, whatever decodes is the encoding of the cell it decodes to. */
  lemma LinkDecodeEncode(s: seq<byte>, width: int)
    requires Decode(s, width).Ok?
    ensures var (c, tail) := Decode(s, width).value;
      Encodable(c, width) && Normal(c) == c && s == Encode(c, width) + tail
  {
    var (c, tail) := Decode(s, width).value;
    var cmd, rest := s[width], s[width + 1..];
    DecodedId(s, width);
    DecodedBody(c.circId, cmd, rest);
    assert s[..width] == PutCircId(c.circId, width);
    Joined(s, width, s[..width], rest, Body(c), tail);
  }

  lemma Joined(s: seq<byte>, width: nat, id: seq<byte>, rest: seq<byte>, body: seq<byte>, tail: seq<byte>)
    requires |s| >= width + 1 && id == s[..width] && rest == s[width + 1..] == body + tail
    ensures s == (id + [s[width]] + body) + tail
  {
    assert s == id + [s[width]] + rest;
  }

  lemma DecodedId(s: seq<byte>, width: int)
    requires (width == 2 || width == 4) && |s| >= width
    ensures width == 2 ==> PutCircId(GetU16(s[..2]), 2) == s[..2]
    ensures width == 4 ==> PutCircId(GetU32(s[..4]), 4) == s[..4]
  {
    if width == 2 {
      GetPutU16(s[..2]);
    } else {
      GetPutU32(s[..4]);
    }
  }

  lemma DecodedBody(circId: uint32, cmd: byte, rest: seq<byte>)
    requires DecodeBody(circId, cmd, rest).Ok?
    ensures var (c, tail) := DecodeBody(circId, cmd, rest).value;
      && c.circId == circId && c.command == cmd && Normal(c) == c
      && |c.payload| <= (if IsVariableLength(cmd) then 0xFFFF else PAYLOAD_LEN)
      && rest == Body(c) + tail
  {
    var (c, tail) := DecodeBody(circId, cmd, rest).value;
    if IsVariableLength(cmd) {
      var n := GetU16(rest[..2]);
      GetPutU16(rest[..2]);
      assert Body(c) == rest[..2] + rest[2..2 + n];
    } else {
      assert Body(c) == rest[..PAYLOAD_LEN];
    }
  }

  // ---------------------------------------------------------------- streams of cells

  predicate AllEncodable(cs: seq<Cell>, width: int) {
    cs != [] ==> Encodable(cs[0], width) && AllEncodable(cs[1..], width)
  }

  function EncodeAll(cs: seq<Cell>, width: int): seq<byte>
    requires AllEncodable(cs, width)
  {
    if cs == [] then [] else Encode(cs[0], width) + EncodeAll(cs[1..], width)
  }

  function DecodeMany(s: seq<byte>, width: int, n: nat): Result<(seq<Cell>, seq<byte>), LinkError>
    decreases n
  {
    if n == 0 then Ok(([], s))
    else
      match Decode(s, width)
      case Err(e) => Err(e)
      case Ok((c, rest)) =>
        match DecodeMany(rest, width, n - 1)
        case Err(e) => Err(e)
        case Ok((cs, tail)) => Ok(([c] + cs, tail))
  }

  function Normals(cs: seq<Cell>): (ns: seq<Cell>)
    ensures |ns| == |cs|
  {
    if cs == [] then [] else [Normal(cs[0])] + Normals(cs[1..])
  }

  lemma Assoc(a: seq<byte>, b: seq<byte>, c: seq<byte>)
    ensures (a + b) + c == a + (b + c)
  {
  }

  /** Any list of cells written one after another is read back cell by cell, whatever
      follows, using exactly the bytes written. */
  lemma {:induction false} LinkStream(cs: seq<Cell>, width: int, tail: seq<byte>)
    requires AllEncodable(cs, width)
    ensures DecodeMany(EncodeAll(cs, width) + tail, width, |cs|) == Ok((Normals(cs), tail))
    decreases |cs|
  {
    if cs == [] {
      assert EncodeAll(cs, width) + tail == tail;
    } else {
      var others := cs[1..];
      LinkStream(others, width, tail);
      StreamStep(cs, others, width, tail);
    }
  }

  lemma StreamStep(cs: seq<Cell>, others: seq<Cell>, width: int, tail: seq<byte>)
    requires cs != [] && others == cs[1..] && AllEncodable(cs, width)
    requires DecodeMany(EncodeAll(others, width) + tail, width, |others|) == Ok((Normals(others), tail))
    ensures DecodeMany(EncodeAll(cs, width) + tail, width, |cs|) == Ok((Normals(cs), tail))
  {
    OneMoreRead(cs, EncodeAll(others, width), width, tail);
  }

  lemma OneMoreRead(cs: seq<Cell>, others: seq<byte>, width: int, tail: seq<byte>)
    requires cs != [] && Encodable(cs[0], width)
    requires DecodeMany(others + tail, width, |cs| - 1) == Ok((Normals(cs[1..]), tail))
    ensures DecodeMany((Encode(cs[0], width) + others) + tail, width, |cs|) == Ok((Normals(cs), tail))
  {
    var s, rest := (Encode(cs[0], width) + others) + tail, others + tail;
    Assoc(Encode(cs[0], width), others, tail);
    FirstRead(s, cs[0], width, rest);
    DecodeFirst(s, width, Normal(cs[0]), rest, Normals(cs[1..]), tail);
  }

  lemma FirstRead(s: seq<byte>, c: Cell, width: int, rest: seq<byte>)
    requires Encodable(c, width) && s == Encode(c, width) + rest
    ensures Decode(s, width) == Ok((Normal(c), rest))
  {
    LinkRoundTrip(c, width, rest);
  }

  lemma DecodeFirst(s: seq<byte>, width: int, c: Cell, rest: seq<byte>, cs: seq<Cell>, tail: seq<byte>)
    requires Decode(s, width) == Ok((c, rest))
    requires DecodeMany(rest, width, |cs|) == Ok((cs, tail))
    ensures DecodeMany(s, width, |cs| + 1) == Ok(([c] + cs, tail))
  {
  }

  // ---------------------------------------------------------------- writer and reader

  class Writer {
    var out: seq<byte>

    constructor ()
      ensures out == []
    {
      out := [];
    }

    method Write(s: seq<byte>)
      modifies this
      ensures out == old(out) + s
    {
      out := out + s;
    }
  }

  /** Cell.EncodeLink. A payload found too large leaves the circuit ID and the command behind
      in the writer. */
  method EncodeLink(c: Cell, w: Writer, width: int) returns (e: Option<LinkError>)
    modifies w
    ensures e.None? <==> Encodable(c, width)
    ensures e.None? ==> w.out == old(w.out) + Encode(c, width)
    ensures e.Some? && e.value != PayloadTooLarge ==> w.out == old(w.out)
    ensures e == Some(PayloadTooLarge) ==>
      && (width == 4 || (width == 2 && c.circId <= 0xFFFF))
      && w.out == old(w.out) + PutCircId(c.circId, width) + [c.command]
  {
    if width != 2 && width != 4 {
      return Some(BadCircIdLen);
    }
    if width == 2 {
      if c.circId > 0xFFFF {
        return Some(CircIdTooLarge);
      }
      w.Write(PutU16(c.circId));
    } else {
      w.Write(PutU32(c.circId));
    }
    w.Write([c.command]);
    assert w.out == old(w.out) + PutCircId(c.circId, width) + [c.command];
    var ok := WriteBody(c, w);
    if !ok {
      return Some(PayloadTooLarge);
    }
    assert w.out == old(w.out) + Encode(c, width);
    return None;
  }

  /** The part of EncodeLink after the command. */
  method WriteBody(c: Cell, w: Writer) returns (ok: bool)
    modifies w
    ensures ok <==> |c.payload| <= (if IsVariableLength(c.command) then 0xFFFF else PAYLOAD_LEN)
    ensures ok ==> w.out == old(w.out) + Body(c)
    ensures !ok ==> w.out == old(w.out)
  {
    if IsVariableLength(c.command) {
      if |c.payload| > 0xFFFF {
        return false;
      }
      w.Write(PutU16(|c.payload|));
      w.Write(c.payload);
    } else {
      if |c.payload| > PAYLOAD_LEN {
        return false;
      }
      w.Write(c.payload);
      var padding := PAYLOAD_LEN - |c.payload|;
      if padding > 0 {
        w.Write(Zeros(padding));
      }
    }
    return true;
  }

  class Reader {
    var data: seq<byte>

    constructor (data: seq<byte>)
      ensures this.data == data
    {
      this.data := data;
    }

    /** io.ReadFull: all n bytes, or an error with everything consumed. */
    method ReadFull(n: nat) returns (r: Option<seq<byte>>)
      modifies this
      ensures r.Some? <==> n <= |old(data)|
      ensures r.Some? ==> r.value == old(data)[..n] && data == old(data)[n..]
      ensures r.None? ==> data == []
    {
      if n > |data| {
        data := [];
        return None;
      }
      r := Some(data[..n]);
      data := data[n..];
    }
  }

  /** DecodeCellLink */
  method DecodeLink(r: Reader, width: int) returns (c: Result<Cell, LinkError>)
    modifies r
    ensures c.Ok? ==> Decode(old(r.data), width) == Ok((c.value, r.data))
    ensures c.Err? ==> Decode(old(r.data), width) == Err(c.error)
  {
    if width != 2 && width != 4 {
      return Err(BadCircIdLen);
    }
    ghost var s := r.data;
    var idBytes := r.ReadFull(width);
    if idBytes.None? {
      return Err(ShortRead);
    }
    var circId: uint32 := if width == 2 then GetU16(idBytes.value) else GetU32(idBytes.value);
    var cmd := r.ReadFull(1);
    if cmd.None? {
      return Err(ShortRead);
    }
    assert cmd.value[0] == s[width] && r.data == s[width + 1..];
    ghost var rest := r.data;
    if IsVariableLength(cmd.value[0]) {
      var len := r.ReadFull(2);
      if len.None? {
        return Err(ShortRead);
      }
      var payload := r.ReadFull(GetU16(len.value));
      if payload.None? {
        return Err(ShortRead);
      }
      assert payload.value == rest[2..2 + GetU16(len.value)] && r.data == rest[2 + GetU16(len.value)..];
      return Ok(Cell(circId, cmd.value[0], payload.value));
    }
    var payload := r.ReadFull(PAYLOAD_LEN);
    if payload.None? {
      return Err(ShortRead);
    }
    return Ok(Cell(circId, cmd.value[0], payload.value));
  }
}
