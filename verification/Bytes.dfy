/** Bytes, fixed-width unsigned integers in network order, and the result types
    that stand for the source's `(value, error)` pairs. */
module Bytes {

  type byte = n: int | 0 <= n < 256
  type uint16 = n: int | 0 <= n < 0x10000
  type uint32 = n: int | 0 <= n < 0x1_0000_0000
  type uint64 = n: int | 0 <= n < 0x1_0000_0000_0000_0000

  /** The payload of a fixed-length cell. */
  const PAYLOAD_LEN := 509

  datatype Option<+T> = None | Some(value: T)

  datatype Result<+T, +E> = Ok(value: T) | Err(error: E)

  /** binary.BigEndian.PutUint16 */
  function PutU16(n: uint16): (s: seq<byte>)
    ensures |s| == 2
    ensures GetU16(s) == n
  {
    [n / 256, n % 256]
  }

  /** binary.BigEndian.Uint16 */
  function GetU16(s: seq<byte>): (n: uint16)
    requires |s| == 2
  {
    s[0] as int * 256 + s[1] as int
  }

  lemma GetPutU16(s: seq<byte>)
    requires |s| == 2
    ensures PutU16(GetU16(s)) == s
  {
  }

  /** binary.BigEndian.PutUint32 */
  function PutU32(n: uint32): (s: seq<byte>)
    ensures |s| == 4
    ensures GetU32(s) == n
  {
    var s := PutU16(n / 0x10000) + PutU16(n % 0x10000);
    assert s[..2] == PutU16(n / 0x10000) && s[2..] == PutU16(n % 0x10000);
    s
  }

  /** binary.BigEndian.Uint32 */
  function GetU32(s: seq<byte>): (n: uint32)
    requires |s| == 4
  {
    GetU16(s[..2]) * 0x10000 + GetU16(s[2..])
  }

  lemma GetPutU32(s: seq<byte>)
    requires |s| == 4
    ensures PutU32(GetU32(s)) == s
  {
    GetPutU16(s[..2]);
    GetPutU16(s[2..]);
    assert GetU32(s) / 0x10000 == GetU16(s[..2]) && GetU32(s) % 0x10000 == GetU16(s[2..]);
    assert s == s[..2] + s[2..];
  }

  /** binary.BigEndian.PutUint64 */
  function PutU64(n: uint64): (s: seq<byte>)
    ensures |s| == 8
    ensures GetU64(s) == n
  {
    var s := PutU32(n / 0x1_0000_0000) + PutU32(n % 0x1_0000_0000);
    assert s[..4] == PutU32(n / 0x1_0000_0000) && s[4..] == PutU32(n % 0x1_0000_0000);
    s
  }

  /** binary.BigEndian.Uint64 */
  function GetU64(s: seq<byte>): (n: uint64)
    requires |s| == 8
  {
    GetU32(s[..4]) * 0x1_0000_0000 + GetU32(s[4..])
  }

  lemma GetPutU64(s: seq<byte>)
    requires |s| == 8
    ensures PutU64(GetU64(s)) == s
  {
    GetPutU32(s[..4]);
    GetPutU32(s[4..]);
    var n := GetU64(s);
    assert n / 0x1_0000_0000 == GetU32(s[..4]) && n % 0x1_0000_0000 == GetU32(s[4..]);
    assert s == s[..4] + s[4..];
  }

  /** A freshly made, zeroed buffer. */
  function Zeros(n: nat): (s: seq<byte>)
    ensures |s| == n
    ensures forall i :: 0 <= i < n ==> s[i] == 0
  {
    seq(n, _ => 0)
  }

  /** The concatenation of a list of byte strings. */
  function Flatten(ss: seq<seq<byte>>): (s: seq<byte>)
  {
    if ss == [] then [] else ss[0] + Flatten(ss[1..])
  }
}
