/** Onion layering for tor1 hops. A cipher is a keystream and a position in it; a running
    digest is a hash function and everything written to it so far. Both are arbitrary. */
module Onion {
  import opened Bytes

  /** A digest value: SHA-1 gives 20 bytes, SHA3-256 gives 32. */
  type Sum = s: seq<byte> | |s| >= 20 witness Zeros(20)

  datatype Stream = Stream(key: nat -> byte, pos: nat)

  datatype Running = Running(hash: seq<byte> -> Sum, written: seq<byte>)

  /** Hop.{Forward,Backward}{Cipher,Digest}; None stands for nil. */
  datatype Hop = Hop(
    fwdCipher: Option<Stream>,
    bwdCipher: Option<Stream>,
    fwdDigest: Option<Running>,
    bwdDigest: Option<Running>)

  // ---------------------------------------------------------------- bytes

  function Pow2(n: nat): nat {
    if n == 0 then 1 else 2 * Pow2(n - 1)
  }

  /** Exclusive or of the low `bits` bits, bit by bit. */
  function XorBits(a: nat, b: nat, bits: nat): (x: nat)
    ensures x < Pow2(bits)
  {
    if bits == 0 then 0
    else 2 * XorBits(a / 2, b / 2, bits - 1) + (if a % 2 == b % 2 then 0 else 1)
  }

  lemma {:induction false} XorBitsTwice(a: nat, b: nat, bits: nat)
    requires a < Pow2(bits)
    ensures XorBits(XorBits(a, b, bits), b, bits) == a
  {
    if bits > 0 {
      var x := XorBits(a, b, bits);
      assert x / 2 == XorBits(a / 2, b / 2, bits - 1);
      XorBitsTwice(a / 2, b / 2, bits - 1);
    }
  }

  lemma Pow2Of8()
    ensures Pow2(8) == 256
  {
    assert Pow2(4) == 16;
  }

  function Xor(a: byte, b: byte): byte {
    Pow2Of8();
    XorBits(a, b, 8)
  }

  lemma XorTwice(a: byte, b: byte)
    ensures Xor(Xor(a, b), b) == a
  {
    Pow2Of8();
    XorBitsTwice(a, b, 8);
  }

  /** Bit i of a number. */
  predicate Bit(n: nat, i: nat) {
    if i == 0 then n % 2 == 1 else Bit(n / 2, i - 1)
  }

  lemma {:induction false} XorBitsBit(a: nat, b: nat, bits: nat, i: nat)
    requires i < bits
    ensures Bit(XorBits(a, b, bits), i) <==> (Bit(a, i) != Bit(b, i))
    decreases bits
  {
    var x := XorBits(a, b, bits);
    assert x / 2 == XorBits(a / 2, b / 2, bits - 1);
    if i > 0 {
      XorBitsBit(a / 2, b / 2, bits - 1, i - 1);
    }
  }

  /** A bit of the exclusive or is set exactly when one of the two has it. */
  lemma XorBit(a: byte, b: byte, i: nat)
    requires i < 8
    ensures Bit(Xor(a, b), i) <==> (Bit(a, i) != Bit(b, i))
  {
    XorBitsBit(a, b, 8, i);
  }

  lemma {:induction false} BitsDecide(a: nat, b: nat, bits: nat)
    requires a < Pow2(bits) && b < Pow2(bits) && forall i :: 0 <= i < bits ==> (Bit(a, i) <==> Bit(b, i))
    ensures a == b
    decreases bits
  {
    if bits > 0 {
      assert Bit(a, 0) <==> Bit(b, 0);
      forall i | 0 <= i < bits - 1
        ensures Bit(a / 2, i) <==> Bit(b / 2, i)
      {
        assert Bit(a, i + 1) <==> Bit(b, i + 1);
      }
      BitsDecide(a / 2, b / 2, bits - 1);
    }
  }

  lemma SameByte(a: byte, b: byte)
    requires forall i :: 0 <= i < 8 ==> (Bit(a, i) <==> Bit(b, i))
    ensures a == b
  {
    Pow2Of8();
    BitsDecide(a, b, 8);
  }

  lemma {:induction false} NoBits(i: nat)
    ensures !Bit(0, i)
  {
    if i > 0 {
      NoBits(i - 1);
    }
  }

  /** Combining with 0 changes nothing; the order and the grouping do not matter. */
  lemma XorGroup(a: byte, b: byte, c: byte)
    ensures Xor(a, 0) == a && Xor(a, b) == Xor(b, a) && Xor(Xor(a, b), c) == Xor(a, Xor(b, c))
  {
    forall i | 0 <= i < 8
      ensures Bit(Xor(a, 0), i) <==> Bit(a, i)
    {
      XorBit(a, 0, i);
      NoBits(i);
    }
    SameByte(Xor(a, 0), a);
    forall i | 0 <= i < 8
      ensures Bit(Xor(a, b), i) <==> Bit(Xor(b, a), i)
    {
      XorBit(a, b, i);
      XorBit(b, a, i);
    }
    SameByte(Xor(a, b), Xor(b, a));
    forall i | 0 <= i < 8
      ensures Bit(Xor(Xor(a, b), c), i) <==> Bit(Xor(a, Xor(b, c)), i)
    {
      XorBit(a, b, i);
      XorBit(Xor(a, b), c, i);
      XorBit(b, c, i);
      XorBit(a, Xor(b, c), i);
    }
    SameByte(Xor(Xor(a, b), c), Xor(a, Xor(b, c)));
  }

  /** Under different masks a byte looks different. */
  lemma XorCancels(a: byte, b: byte, c: byte)
    ensures Xor(a, b) == Xor(a, c) <==> b == c
  {
    if Xor(a, b) == Xor(a, c) {
      XorGroup(a, b, 0);
      XorGroup(a, c, 0);
      XorTwice(b, a);
      XorTwice(c, a);
    }
  }

  // ---------------------------------------------------------------- one layer

  /** The bytes XORKeyStream produces. */
  function Xored(c: Option<Stream>, buf: seq<byte>): (out: seq<byte>)
    ensures |out| == |buf|
  {
    match c
    case None => buf
    case Some(k) => seq(|buf|, j requires 0 <= j < |buf| => Xor(buf[j], k.key(k.pos + j)))
  }

  /** The cipher after n bytes. */
  function Advanced(c: Option<Stream>, n: nat): Option<Stream> {
    match c
    case None => None
    case Some(k) => Some(k.(pos := k.pos + n))
  }

  lemma XoredTwice(c: Option<Stream>, buf: seq<byte>)
    ensures Xored(c, Xored(c, buf)) == buf
  {
    if c.Some? {
      forall j | 0 <= j < |buf|
        ensures Xored(c, Xored(c, buf))[j] == buf[j]
      {
        XorTwice(buf[j], c.value.key(c.value.pos + j));
      }
    }
  }

  /** The payload with its digest field, bytes 5..8, zeroed: what is hashed. */
  function Blanked(p: seq<byte>): seq<byte>
    requires |p| >= 9
  {
    p[..5] + [0, 0, 0, 0] + p[9..]
  }

  function Write(d: Running, p: seq<byte>): Running {
    d.(written := d.written + p)
  }

  function SumOf(d: Running): Sum {
    d.hash(d.written)
  }

  // ---------------------------------------------------------------- encryptOnion

  /** The payload with the digest field filled in, the digest afterwards, and the tag. */
  function Fill(d: Option<Running>, p: seq<byte>): (Option<Running>, seq<byte>, seq<byte>) {
    if d.Some? && |p| >= 9 then
      var d' := Write(d.value, Blanked(p));
      var sum := SumOf(d');
      (Some(d'), p[..5] + sum[..4] + p[9..], sum)
    else (d, p, [])
  }

  /** The loop of encryptOnion: layers for hops n-1 down to 0. */
  function Wrap(hops: seq<Hop>, n: nat, buf: seq<byte>): (seq<Hop>, seq<byte>)
    requires n <= |hops|
    decreases n
  {
    if n == 0 then (hops, buf)
    else
      var h := hops[n - 1];
      Wrap(hops[n - 1 := h.(fwdCipher := Advanced(h.fwdCipher, |buf|))], n - 1, Xored(h.fwdCipher, buf))
  }

  datatype Encrypted = OutOfRange | Encrypted(hops: seq<Hop>, out: seq<byte>, tag: seq<byte>)

  function Encrypt(hops: seq<Hop>, dest: int, payload: seq<byte>): Encrypted {
    if dest < 0 || dest >= |hops| then OutOfRange
    else
      var (d, filled, tag) := Fill(hops[dest].fwdDigest, payload);
      var (hops', out) := Wrap(hops[dest := hops[dest].(fwdDigest := d)], dest + 1, filled);
      Encrypted(hops', out, tag)
  }

  // ---------------------------------------------------------------- decryptOnion

  /** tor1Recognized */
  predicate Recognized(d: Option<Running>, p: seq<byte>) {
    && d.Some?
    && |p| >= 11
    && GetU16(p[1..3]) == 0
    && SumOf(Write(d.value, Blanked(p)))[..4] == p[5..9]
  }

  datatype Decrypted = Decrypted(hops: seq<Hop>, out: seq<byte>, hop: int, tag: seq<byte>)

  /** decryptOnion from hop i on; hop -1 means no hop recognised the cell. */
  function Peel(hops: seq<Hop>, i: nat, buf: seq<byte>): Decrypted
    requires i <= |hops|
    decreases |hops| - i
  {
    if i == |hops| then Decrypted(hops, buf, -1, [])
    else
      var h := hops[i];
      var out := Xored(h.bwdCipher, buf);
      var h' := h.(bwdCipher := Advanced(h.bwdCipher, |buf|));
      if Recognized(h.bwdDigest, out) then
        var d := Write(h.bwdDigest.value, Blanked(out));
        Decrypted(hops[i := h'.(bwdDigest := Some(d))], out, i, SumOf(d))
      else Peel(hops[i := h'], i + 1, out)
  }

  function Decrypt(hops: seq<Hop>, payload: seq<byte>): Decrypted {
    Peel(hops, 0, payload)
  }

  // ---------------------------------------------------------------- mirrored circuits

  /** What one end sends with, the other receives with. */
  ghost predicate Paired(a: Hop, b: Hop) {
    a.fwdCipher == b.bwdCipher && a.fwdDigest == b.bwdDigest
  }

  ghost predicate Mirrored(a: seq<Hop>, b: seq<Hop>) {
    |a| == |b| && forall i :: 0 <= i < |a| ==> Paired(a[i], b[i])
  }

  /** `buf` under the layers of hops i .. n-1, hop i outermost. */
  function Layered(hops: seq<Hop>, i: nat, n: nat, buf: seq<byte>): (out: seq<byte>)
    requires i <= n <= |hops|
    ensures |out| == |buf|
    decreases n - i
  {
    if i == n then buf else Xored(hops[i].fwdCipher, Layered(hops, i + 1, n, buf))
  }

  lemma {:induction false} LayeredInner(hops: seq<Hop>, i: nat, n: nat, buf: seq<byte>)
    requires i < n <= |hops|
    ensures Layered(hops, i, n, buf) == Layered(hops, i, n - 1, Xored(hops[n - 1].fwdCipher, buf))
    decreases n - i
  {
    if i < n - 1 {
      LayeredInner(hops, i + 1, n, buf);
    } else {
      assert Layered(hops, n, n, buf) == buf;
    }
  }

  lemma {:induction false} LayeredFrame(a: seq<Hop>, b: seq<Hop>, i: nat, n: nat, buf: seq<byte>)
    requires i <= n <= |a| == |b|
    requires forall k :: i <= k < n ==> a[k].fwdCipher == b[k].fwdCipher
    ensures Layered(a, i, n, buf) == Layered(b, i, n, buf)
    decreases n - i
  {
    if i < n {
      LayeredFrame(a, b, i + 1, n, buf);
    }
  }

  /** Wrapping puts on the layers of hops 0 .. n-1 and moves exactly those forward ciphers. */
  lemma {:induction false} WrapIsLayered(hops: seq<Hop>, n: nat, buf: seq<byte>)
    requires n <= |hops|
    ensures var (h', out) := Wrap(hops, n, buf);
      && out == Layered(hops, 0, n, buf)
      && |h'| == |hops|
      && forall k :: 0 <= k < |hops| ==>
           h'[k] == if k < n then hops[k].(fwdCipher := Advanced(hops[k].fwdCipher, |buf|)) else hops[k]
    decreases n
  {
    if n > 0 {
      var h := hops[n - 1];
      var hops' := hops[n - 1 := h.(fwdCipher := Advanced(h.fwdCipher, |buf|))];
      var buf' := Xored(h.fwdCipher, buf);
      WrapIsLayered(hops', n - 1, buf');
      LayeredInner(hops, 0, n, buf);
      LayeredFrame(hops, hops', 0, n - 1, buf');
    }
  }

  // ---------------------------------------------------------------- what a layer hides

  /** The byte a cipher masks the j-th byte from now with; nil masks with nothing. */
  function KeyByte(c: Option<Stream>, j: nat): byte {
    match c
    case None => 0
    case Some(k) => k.key(k.pos + j)
  }

  lemma XoredAt(c: Option<Stream>, buf: seq<byte>, j: nat)
    requires j < |buf|
    ensures Xored(c, buf)[j] == Xor(buf[j], KeyByte(c, j))
  {
    XorGroup(buf[j], 0, 0);
  }

  /** The masks of hops i .. n-1 together. */
  function Mask(hops: seq<Hop>, i: nat, n: nat, j: nat): byte
    requires i <= n <= |hops|
    decreases n - i
  {
    if i == n then 0 else Xor(Mask(hops, i + 1, n, j), KeyByte(hops[i].fwdCipher, j))
  }

  lemma {:induction false} LayeredAt(hops: seq<Hop>, i: nat, n: nat, buf: seq<byte>, j: nat)
    requires i <= n <= |hops| && j < |buf|
    ensures Layered(hops, i, n, buf)[j] == Xor(buf[j], Mask(hops, i, n, j))
    decreases n - i
  {
    if i == n {
      XorGroup(buf[j], 0, 0);
    } else {
      LayeredAt(hops, i + 1, n, buf, j);
      XoredAt(hops[i].fwdCipher, Layered(hops, i + 1, n, buf), j);
      XorGroup(buf[j], Mask(hops, i + 1, n, j), KeyByte(hops[i].fwdCipher, j));
    }
  }

  /** Every byte of a cell leaves masked with the keystream bytes of hops 0 .. dest at their
      present positions, and nothing else of it changes. */
  lemma EncryptMasks(a: seq<Hop>, dest: nat, p: seq<byte>, j: nat)
    requires dest < |a| && j < |p|
    ensures var e, filled := Encrypt(a, dest, p), Fill(a[dest].fwdDigest, p).1;
      e.Encrypted? && |e.out| == |filled| == |p| && e.out[j] == Xor(filled[j], Mask(a, 0, dest + 1, j))
  {
    var (d, filled, tag) := Fill(a[dest].fwdDigest, p);
    var a1 := a[dest := a[dest].(fwdDigest := d)];
    WrapIsLayered(a1, dest + 1, filled);
    LayeredFrame(a, a1, 0, dest + 1, filled);
    LayeredAt(a, 0, dest + 1, filled, j);
  }

  lemma {:induction false} MaskAgrees(a: seq<Hop>, b: seq<Hop>, i: nat, n: nat, k: nat, j: nat)
    requires i <= n <= |a| == |b| && k < |a|
    requires forall h :: i <= h < n && h != k ==> a[h].fwdCipher == b[h].fwdCipher
    ensures i <= k < n ==>
      (Mask(a, i, n, j) == Mask(b, i, n, j) <==> KeyByte(a[k].fwdCipher, j) == KeyByte(b[k].fwdCipher, j))
    ensures !(i <= k < n) ==> Mask(a, i, n, j) == Mask(b, i, n, j)
    decreases n - i
  {
    if i < n {
      MaskAgrees(a, b, i + 1, n, k, j);
      var x, y := KeyByte(a[i].fwdCipher, j), KeyByte(b[i].fwdCipher, j);
      XorCancels(Mask(a, i + 1, n, j), x, y);
      XorGroup(Mask(a, i + 1, n, j), x, 0);
      XorGroup(Mask(b, i + 1, n, j), x, 0);
      XorCancels(x, Mask(a, i + 1, n, j), Mask(b, i + 1, n, j));
    }
  }

  /** A hop's layer is there: if only the keystream of one hop on the way were another, the
      cell would look the same at a byte exactly where the two keystreams agree. */
  lemma LayerMatters(a: seq<Hop>, dest: nat, p: seq<byte>, k: nat, cipher: Option<Stream>, j: nat)
    requires k <= dest < |a| && j < |p|
    ensures var x, y := Encrypt(a, dest, p), Encrypt(a[k := a[k].(fwdCipher := cipher)], dest, p);
      && x.Encrypted? && y.Encrypted? && |x.out| == |y.out| == |p|
      && (x.out[j] == y.out[j] <==> KeyByte(a[k].fwdCipher, j) == KeyByte(cipher, j))
  {
    var b := a[k := a[k].(fwdCipher := cipher)];
    EncryptMasks(a, dest, p, j);
    EncryptMasks(b, dest, p, j);
    MaskAgrees(a, b, 0, dest + 1, k, j);
    XorCancels(Fill(a[dest].fwdDigest, p).1[j], Mask(a, 0, dest + 1, j), Mask(b, 0, dest + 1, j));
  }

  /** Encrypting moves exactly the forward ciphers of hops 0 .. dest, by the cell's length. */
  lemma EncryptAdvances(a: seq<Hop>, dest: nat, p: seq<byte>)
    requires dest < |a|
    ensures var e := Encrypt(a, dest, p);
      && e.Encrypted? && |e.hops| == |a|
      && forall k :: 0 <= k < |a| ==>
           e.hops[k].fwdCipher == if k <= dest then Advanced(a[k].fwdCipher, |p|) else a[k].fwdCipher
  {
    var (d, filled, tag) := Fill(a[dest].fwdDigest, p);
    assert |filled| == |p|;
    WrapIsLayered(a[dest := a[dest].(fwdDigest := d)], dest + 1, filled);
  }

  // ---------------------------------------------------------------- recognition

  /** A cell for hop `dest` happens to look genuine to the earlier hop k. */
  predicate Accident(a: seq<Hop>, dest: nat, filled: seq<byte>, k: nat)
    requires k < dest < |a|
  {
    Recognized(a[k].fwdDigest, Layered(a, k + 1, dest + 1, filled))
  }

  /** A receiving hop after the cell has passed it, or stopped at it. */
  function Received(h: Hop, stops: bool, filled: seq<byte>): Hop
    requires stops ==> h.bwdDigest.Some? && |filled| >= 9
  {
    h.(bwdCipher := Advanced(h.bwdCipher, |filled|),
       bwdDigest := if stops then Some(Write(h.bwdDigest.value, Blanked(filled))) else h.bwdDigest)
  }

  /** One layer of a cell for hop `dest` taken off at hop i. */
  lemma PeelOne(a: seq<Hop>, b: seq<Hop>, i: nat, dest: nat, filled: seq<byte>)
    requires i <= dest < |a| == |b| && Paired(a[i], b[i])
    ensures var inner := Layered(a, i + 1, dest + 1, filled);
      var r := Peel(b, i, Layered(a, i, dest + 1, filled));
      if Recognized(a[i].fwdDigest, inner) then
        var d := Write(a[i].fwdDigest.value, Blanked(inner));
        r == Decrypted(b[i := Received(b[i], true, inner)], inner, i, SumOf(d))
      else r == Peel(b[i := Received(b[i], false, filled)], i + 1, inner)
  {
    XoredTwice(a[i].fwdCipher, Layered(a, i + 1, dest + 1, filled));
  }

  /** The hops after a cell has passed i .. dest-1 and stopped at dest. */
  ghost predicate Passed(before: seq<Hop>, after: seq<Hop>, i: nat, dest: nat, filled: seq<byte>)
    requires dest < |before| && before[dest].bwdDigest.Some? && |filled| >= 9
  {
    && |after| == |before|
    && forall k :: 0 <= k < |before| ==>
         after[k] == if i <= k <= dest then Received(before[k], k == dest, filled) else before[k]
  }

  lemma PassedOneMore(before: seq<Hop>, mid: seq<Hop>, after: seq<Hop>, i: nat, dest: nat, filled: seq<byte>)
    requires i < dest < |before| && before[dest].bwdDigest.Some? && |filled| >= 9
    requires mid == before[i := Received(before[i], false, filled)] && Passed(mid, after, i + 1, dest, filled)
    ensures Passed(before, after, i, dest, filled)
  {
  }

  /** No hop from i up to the destination takes the cell by accident. */
  ghost predicate Unmistaken(a: seq<Hop>, dest: nat, filled: seq<byte>, i: nat)
    requires dest < |a|
  {
    forall k :: i <= k < dest ==> !Accident(a, dest, filled, k)
  }

  /** What peeling from hop i comes to: it stops at `dest`, with the filled payload, if and
      only if no earlier hop accepts the cell. */
  ghost predicate Arrives(a: seq<Hop>, b: seq<Hop>, i: nat, dest: nat, filled: seq<byte>, r: Decrypted)
    requires dest < |a| == |b| && a[dest].fwdDigest.Some? && b[dest].bwdDigest.Some? && |filled| >= 9
  {
    && (r.hop == dest <==> Unmistaken(a, dest, filled, i))
    && i <= r.hop <= dest
    && (r.hop == dest ==>
          && r.out == filled
          && r.tag == SumOf(Write(a[dest].fwdDigest.value, Blanked(filled)))
          && Passed(b, r.hops, i, dest, filled))
  }

  lemma ArrivesOneMore(a: seq<Hop>, b: seq<Hop>, i: nat, dest: nat, filled: seq<byte>, r: Decrypted)
    requires i < dest < |a| == |b| && a[dest].fwdDigest.Some? && b[dest].bwdDigest.Some? && |filled| >= 9
    requires Arrives(a, b[i := Received(b[i], false, filled)], i + 1, dest, filled, r)
    requires !Accident(a, dest, filled, i)
    ensures Arrives(a, b, i, dest, filled, r)
  {
    assert Unmistaken(a, dest, filled, i) <==> Unmistaken(a, dest, filled, i + 1);
    if r.hop == dest {
      PassedOneMore(b, b[i := Received(b[i], false, filled)], r.hops, i, dest, filled);
    }
  }

  lemma PeelStops(a: seq<Hop>, b: seq<Hop>, i: nat, dest: nat, filled: seq<byte>)
    requires i <= dest < |a| == |b| && Paired(a[i], b[i]) && Paired(a[dest], b[dest])
    requires Recognized(a[dest].fwdDigest, filled) && (i < dest ==> Accident(a, dest, filled, i))
    ensures Arrives(a, b, i, dest, filled, Peel(b, i, Layered(a, i, dest + 1, filled)))
  {
    PeelOne(a, b, i, dest, filled);
    if i == dest {
      assert Layered(a, i + 1, dest + 1, filled) == filled;
    }
  }

  lemma {:induction false} PeelLayered(a: seq<Hop>, b: seq<Hop>, i: nat, dest: nat, filled: seq<byte>)
    requires i <= dest < |a| == |b|
    requires forall k :: i <= k <= dest ==> Paired(a[k], b[k])
    requires Paired(a[dest], b[dest]) && Recognized(a[dest].fwdDigest, filled)
    ensures Arrives(a, b, i, dest, filled, Peel(b, i, Layered(a, i, dest + 1, filled)))
    decreases dest - i
  {
    if i == dest || Accident(a, dest, filled, i) {
      PeelStops(a, b, i, dest, filled);
    } else {
      PeelOne(a, b, i, dest, filled);
      var b' := b[i := Received(b[i], false, filled)];
      var r := Peel(b', i + 1, Layered(a, i + 1, dest + 1, filled));
      assert Arrives(a, b', i + 1, dest, filled, r) by {
        PeelLayered(a, b', i + 1, dest, filled);
      }
      ArrivesOneMore(a, b, i, dest, filled, r);
    }
  }

  /** A cell the destination will recognise once filled in. */
  predicate Sendable(hops: seq<Hop>, dest: int, p: seq<byte>) {
    0 <= dest < |hops| && hops[dest].fwdDigest.Some? && |p| >= 11 && GetU16(p[1..3]) == 0
  }

  lemma FilledIsRecognized(d: Running, p: seq<byte>)
    requires |p| >= 11 && GetU16(p[1..3]) == 0
    ensures var (d', filled, tag) := Fill(Some(d), p);
      && Recognized(Some(d), filled)
      && |filled| == |p|
      && Blanked(filled) == Blanked(p)
      && d' == Some(Write(d, Blanked(filled)))
      && tag == SumOf(Write(d, Blanked(filled)))
  {
    var (d', filled, tag) := Fill(Some(d), p);
    assert Blanked(filled) == Blanked(p);
    assert filled[1..3] == p[1..3];
    assert filled[5..9] == tag[..4];
  }

  /** The payload with only its digest field changed, to the first bytes of the tag. */
  predicate Carries(out: seq<byte>, p: seq<byte>, tag: seq<byte>) {
    && |out| == |p| >= 9 && |tag| >= 4
    && out[..5] == p[..5]
    && out[5..9] == tag[..4]
    && out[9..] == p[9..]
  }

  ghost predicate NoAccident(a: seq<Hop>, dest: nat, p: seq<byte>)
    requires dest < |a|
  {
    Unmistaken(a, dest, Fill(a[dest].fwdDigest, p).1, 0)
  }

  /** One cell between mirrored circuits, sent to any hop: it is recognised there if and
      only if no earlier hop takes it by accident; then what comes out is the payload with
      its digest filled in, both ends hold the same tag, and the circuits are mirrored
      again. Sending never touches the backward state, nor receiving the forward state. */
  lemma OnionRoundTrip(a: seq<Hop>, b: seq<Hop>, dest: nat, p: seq<byte>)
    requires Mirrored(a, b) && Sendable(a, dest, p)
    ensures var e := Encrypt(a, dest, p);
      && e.Encrypted?
      && var r := Decrypt(b, e.out);
      && (r.hop == dest <==> NoAccident(a, dest, p))
      && (NoAccident(a, dest, p) ==>
            && Carries(r.out, p, r.tag)
            && r.tag == e.tag
            && Mirrored(e.hops, r.hops))
  {
    var (d, filled, tag) := Fill(a[dest].fwdDigest, p);
    FilledIsRecognized(a[dest].fwdDigest.value, p);
    var a1 := a[dest := a[dest].(fwdDigest := d)];
    WrapIsLayered(a1, dest + 1, filled);
    LayeredFrame(a, a1, 0, dest + 1, filled);
    PeelLayered(a, b, 0, dest, filled);
  }

  lemma EncryptKeepsBackward(a: seq<Hop>, dest: nat, p: seq<byte>)
    requires dest < |a|
    ensures var e := Encrypt(a, dest, p);
      && e.Encrypted? && |e.hops| == |a|
      && forall k :: 0 <= k < |a| ==> e.hops[k].bwdCipher == a[k].bwdCipher && e.hops[k].bwdDigest == a[k].bwdDigest
  {
    var (d, filled, tag) := Fill(a[dest].fwdDigest, p);
    WrapIsLayered(a[dest := a[dest].(fwdDigest := d)], dest + 1, filled);
  }

  /** Encrypting this payload moves no cipher and no digest. */
  predicate LeavesNoTrace(a: seq<Hop>, dest: nat, p: seq<byte>)
    requires dest < |a|
  {
    && (p == [] || forall k :: 0 <= k <= dest ==> a[k].fwdCipher.None?)
    && (a[dest].fwdDigest.None? || |p| < 9)
  }

  /** A cell that is encrypted and then not sent leaves two mirrored circuits out of step,
      unless encrypting it moved nothing. No cell its destination could recognise is such an
      exception. */
  lemma LostCell(a: seq<Hop>, b: seq<Hop>, dest: nat, p: seq<byte>)
    requires Mirrored(a, b) && dest < |a|
    ensures Encrypt(a, dest, p).Encrypted?
    ensures Mirrored(Encrypt(a, dest, p).hops, b) <==> LeavesNoTrace(a, dest, p)
    ensures Sendable(a, dest, p) ==> !LeavesNoTrace(a, dest, p)
  {
    var (d, filled, tag) := Fill(a[dest].fwdDigest, p);
    var a1 := a[dest := a[dest].(fwdDigest := d)];
    WrapIsLayered(a1, dest + 1, filled);
    var h := Encrypt(a, dest, p).hops;
    assert h[dest].fwdDigest == d;
    if !(a[dest].fwdDigest.None? || |p| < 9) {
      assert |d.value.written| > |a[dest].fwdDigest.value.written|;
      assert !Paired(h[dest], b[dest]);
    } else if p != [] && exists k :: 0 <= k <= dest && a[k].fwdCipher.Some? {
      var k :| 0 <= k <= dest && a[k].fwdCipher.Some?;
      assert h[k].fwdCipher == Advanced(a[k].fwdCipher, |p|);
      assert !Paired(h[k], b[k]);
    } else {
      assert forall k :: 0 <= k < |a| ==> Paired(h[k], b[k]);
    }
  }

  lemma {:induction false} PeelKeepsForward(b: seq<Hop>, i: nat, buf: seq<byte>)
    requires i <= |b|
    ensures var r := Peel(b, i, buf);
      && |r.hops| == |b|
      && forall k :: 0 <= k < |b| ==> r.hops[k].fwdCipher == b[k].fwdCipher && r.hops[k].fwdDigest == b[k].fwdDigest
    decreases |b| - i
  {
    if i < |b| {
      var b' := b[i := Received(b[i], false, buf)];
      PeelKeepsForward(b', i + 1, Xored(b[i].bwdCipher, buf));
    }
  }

  // ---------------------------------------------------------------- rendezvous hops

  const HS_KEY_LEN := 128

  /** NewHopFromHSKeyMaterial: Df | Db | Kf | Kb, 32 bytes each; digests seeded, ciphers at 0. */
  function HSHop(material: seq<byte>, aes: seq<byte> -> (nat -> byte), sha3: seq<byte> -> Sum): Option<Hop> {
    if |material| < HS_KEY_LEN then None
    else Some(Hop(Some(Stream(aes(material[64..96]), 0)), Some(Stream(aes(material[96..128]), 0)),
                  Some(Running(sha3, material[0..32])), Some(Running(sha3, material[32..64]))))
  }

  /** NewHopFromHSKeyMaterialResponder: the same hop with its directions swapped. */
  function HSResponderHop(material: seq<byte>, aes: seq<byte> -> (nat -> byte), sha3: seq<byte> -> Sum): Option<Hop> {
    match HSHop(material, aes, sha3)
    case None => None
    case Some(h) => Some(Hop(h.bwdCipher, h.fwdCipher, h.bwdDigest, h.fwdDigest))
  }

  /** Key material is Df, Db, Kf, Kb and anything after: the client sends under Kf and Df and
      reads under Kb and Db. */
  lemma RendezvousKeys(df: seq<byte>, db: seq<byte>, kf: seq<byte>, kb: seq<byte>, rest: seq<byte>,
                       aes: seq<byte> -> (nat -> byte), sha3: seq<byte> -> Sum)
    requires |df| == |db| == |kf| == |kb| == 32
    ensures HSHop(df + db + kf + kb + rest, aes, sha3) ==
      Some(Hop(Some(Stream(aes(kf), 0)), Some(Stream(aes(kb), 0)), Some(Running(sha3, df)), Some(Running(sha3, db))))
  {
    var m := df + db + kf + kb + rest;
    assert m[0..32] == df && m[32..64] == db && m[64..96] == kf && m[96..128] == kb;
  }

  /** The two ends of a rendezvous, built from the same key material, mirror each other in
      both directions. */
  lemma RendezvousMirrored(material: seq<byte>, aes: seq<byte> -> (nat -> byte), sha3: seq<byte> -> Sum)
    requires |material| >= HS_KEY_LEN
    ensures var client, service := HSHop(material, aes, sha3), HSResponderHop(material, aes, sha3);
      && client.Some? && service.Some?
      && Mirrored([client.value], [service.value]) && Mirrored([service.value], [client.value])
  {
  }
}
