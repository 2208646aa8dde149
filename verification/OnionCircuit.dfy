/** encryptOnion and decryptOnion on a circuit whose hops' ciphers and digests advance in
    place, over a buffer XORed in place. Each is proved against the functions of Onion. */
module OnionCircuit {
  import opened Bytes
  import opened Onion

  /** cipher.Stream.XORKeyStream(buf, buf), for a cipher that may be nil. */
  method XorInPlace(c: Option<Stream>, buf: array<byte>)
    modifies buf
    ensures buf[..] == Xored(c, old(buf[..]))
  {
    if c.Some? {
      var i := 0;
      while i < buf.Length
        invariant 0 <= i <= buf.Length
        invariant forall k :: 0 <= k < i ==> buf[k] == Xor(old(buf[k]), c.value.key(c.value.pos + k))
        invariant forall k :: i <= k < buf.Length ==> buf[k] == old(buf[k])
      {
        buf[i] := Xor(buf[i], c.value.key(c.value.pos + i));
        i := i + 1;
      }
    }
  }

  /** The digest part of encryptOnion: hash the cell with a blank digest field, then fill it in. */
  method FillDigest(d: Option<Running>, buf: array<byte>) returns (d': Option<Running>, tag: seq<byte>)
    modifies buf
    ensures (d', buf[..], tag) == Fill(d, old(buf[..]))
  {
    if d.Some? && buf.Length >= 9 {
      var written := Write(d.value, Blanked(buf[..]));
      tag := SumOf(written);
      buf[5], buf[6], buf[7], buf[8] := tag[0], tag[1], tag[2], tag[3];
      assert buf[..] == old(buf[..])[..5] + tag[..4] + old(buf[..])[9..];
      return Some(written), tag;
    }
    return d, [];
  }

  class OnionCircuit {
    var hops: seq<Hop>

    constructor (hops: seq<Hop>)
      ensures this.hops == hops
    {
      this.hops := hops;
    }

    method EncryptOnion(dest: int, payload: seq<byte>) returns (ok: bool, out: seq<byte>, tag: seq<byte>)
      modifies this
      ensures ok <==> 0 <= dest < |old(hops)|
      ensures ok ==> Encrypt(old(hops), dest, payload) == Encrypted(hops, out, tag)
      ensures !ok ==> hops == old(hops)
    {
      if dest < 0 || dest >= |hops| {
        return false, [], [];
      }
      var buf := new byte[|payload|](i requires 0 <= i < |payload| => payload[i]);
      assert buf[..] == payload;
      var d;
      d, tag := FillDigest(hops[dest].fwdDigest, buf);
      hops := hops[dest := hops[dest].(fwdDigest := d)];
      ghost var goal := Wrap(hops, dest + 1, buf[..]);
      var i := dest;
      while i >= 0
        invariant -1 <= i <= dest < |hops|
        invariant Wrap(hops, i + 1, buf[..]) == goal
        invariant fresh(buf)
      {
        var h := hops[i];
        XorInPlace(h.fwdCipher, buf);
        hops := hops[i := h.(fwdCipher := Advanced(h.fwdCipher, buf.Length))];
        i := i - 1;
      }
      return true, buf[..], tag;
    }

    method DecryptOnion(payload: seq<byte>) returns (out: seq<byte>, hop: int, tag: seq<byte>)
      modifies this
      ensures Decrypt(old(hops), payload) == Decrypted(hops, out, hop, tag)
    {
      var buf := new byte[|payload|](i requires 0 <= i < |payload| => payload[i]);
      assert buf[..] == payload;
      var i := 0;
      while i < |hops|
        invariant 0 <= i <= |hops|
        invariant Peel(hops, i, buf[..]) == Decrypt(old(hops), payload)
        invariant fresh(buf)
      {
        var h := hops[i];
        XorInPlace(h.bwdCipher, buf);
        var h' := h.(bwdCipher := Advanced(h.bwdCipher, buf.Length));
        var (rec, d) := Check(h.bwdDigest, buf[..]);
        if rec {
          hops := hops[i := h'.(bwdDigest := d)];
          return buf[..], i, SumOf(d.value);
        }
        hops := hops[i := h'];
        i := i + 1;
      }
      return buf[..], -1, [];
    }
  }

  /** tor1Recognized: hashes a clone first, and writes to the real digest only on a match. */
  function Check(d: Option<Running>, p: seq<byte>): (r: (bool, Option<Running>))
    ensures r.0 <==> Recognized(d, p)
    ensures r.0 ==> d.Some? && |p| >= 9 && r.1 == Some(Write(d.value, Blanked(p)))
    ensures !r.0 ==> r.1 == d
  {
    if d.None? || |p| < 11 || GetU16(p[1..3]) != 0 then (false, d)
    else
      var clone := Write(d.value, Blanked(p));
      if SumOf(clone)[..4] != p[5..9] then (false, d) else (true, Some(clone))
  }
}
