/** What the running digests cover: every byte sent to a hop since the circuit was built, and
    what a receiver takes from any peer. */
module OnionIntegrity {
  import opened Bytes
  import opened Onion
  import opened OnionSession

  /** A payload as it is hashed: its digest field, bytes 5 to 8, counts as zero. */
  function Hashed(p: seq<byte>): (h: seq<byte>)
    ensures |h| == |p|
  {
    seq(|p|, i requires 0 <= i < |p| => if 5 <= i < 9 then 0 else p[i])
  }

  lemma BlankedIsHashed(p: seq<byte>)
    requires |p| >= 9
    ensures Blanked(p) == Hashed(p)
  {
  }

  // ---------------------------------------------------------------- what a tag stands for

  /** Everything hashed for hop k: the payloads sent to it, in order. */
  function History(sent: seq<Sent>, k: nat): seq<byte> {
    if sent == [] then []
    else
      var c, before := sent[|sent| - 1].cell, History(sent[..|sent| - 1], k);
      if c.dest == k && |c.payload| >= 9 then before + Hashed(c.payload) else before
  }

  function Extended(d: Option<Running>, h: seq<byte>): Option<Running> {
    match d
    case None => None
    case Some(r) => Some(Running(r.hash, r.written + h))
  }

  /** The tag of the i-th cell sent: the hash of the hop's seed and everything sent to the hop
      up to and including this cell; or none. */
  ghost predicate TagIsHash(start: seq<Hop>, sent: seq<Sent>, i: nat)
    requires i < |sent|
  {
    var c := sent[i].cell;
    && c.dest < |start|
    && sent[i].tag ==
         if start[c.dest].fwdDigest.Some? && |c.payload| >= 9
         then start[c.dest].fwdDigest.value.hash(start[c.dest].fwdDigest.value.written + History(sent[..i + 1], c.dest))
         else []
  }

  ghost predicate Accounted(start: seq<Hop>, p: Party) {
    && |p.hops| == |start|
    && (forall k :: 0 <= k < |start| ==> p.hops[k].fwdDigest == Extended(start[k].fwdDigest, History(p.sent, k)))
    && (forall i :: 0 <= i < |p.sent| ==> TagIsHash(start, p.sent, i))
  }

  lemma EncryptDigests(a: seq<Hop>, dest: nat, p: seq<byte>)
    requires dest < |a|
    ensures var e, f := Encrypt(a, dest, p), Fill(a[dest].fwdDigest, p);
      && e.Encrypted? && |e.hops| == |a| && e.tag == f.2
      && forall k :: 0 <= k < |a| ==> e.hops[k].fwdDigest == if k == dest then f.0 else a[k].fwdDigest
  {
    var (d, filled, tag) := Fill(a[dest].fwdDigest, p);
    WrapIsLayered(a[dest := a[dest].(fwdDigest := d)], dest + 1, filled);
  }

  lemma FillExtends(seed: Option<Running>, h: seq<byte>, p: seq<byte>)
    ensures var f := Fill(Extended(seed, h), p);
      && f.0 == Extended(seed, if |p| >= 9 then h + Hashed(p) else h)
      && f.2 == if seed.Some? && |p| >= 9 then seed.value.hash(seed.value.written + (h + Hashed(p))) else []
  {
    if seed.Some? && |p| >= 9 {
      BlankedIsHashed(p);
      assert (seed.value.written + h) + Hashed(p) == seed.value.written + (h + Hashed(p));
    }
  }

  lemma HistorySnoc(sent: seq<Sent>, x: Sent, k: nat)
    ensures History(sent + [x], k) ==
      if x.cell.dest == k && |x.cell.payload| >= 9 then History(sent, k) + Hashed(x.cell.payload) else History(sent, k)
  {
    assert (sent + [x])[..|sent|] == sent;
  }

  lemma SendKeepsAccount(start: seq<Hop>, me: Party, you: Party, c: Cell)
    requires Accounted(start, me)
    ensures Accounted(start, Send(me, you, c).0)
  {
    if c.dest < |start| {
      EncryptDigests(me.hops, c.dest, c.payload);
      var e := Encrypt(me.hops, c.dest, c.payload);
      var x := Sent(c, e.tag);
      FillExtends(start[c.dest].fwdDigest, History(me.sent, c.dest), c.payload);
      HistorySnoc(me.sent, x, c.dest);
      assert (me.sent + [x])[..|me.sent| + 1] == me.sent + [x];
      assert TagIsHash(start, me.sent + [x], |me.sent|);
      forall k | 0 <= k < |start|
        ensures e.hops[k].fwdDigest == Extended(start[k].fwdDigest, History(me.sent + [x], k))
      {
        HistorySnoc(me.sent, x, k);
      }
      forall i | 0 <= i < |me.sent + [x]|
        ensures TagIsHash(start, me.sent + [x], i)
      {
        SnocKeepsTags(start, me.sent, x, i);
      }
    }
  }

  lemma SnocKeepsTags(start: seq<Hop>, sent: seq<Sent>, x: Sent, i: nat)
    requires i <= |sent|
    requires i < |sent| ==> TagIsHash(start, sent, i)
    requires i == |sent| ==> TagIsHash(start, sent + [x], i)
    ensures TagIsHash(start, sent + [x], i)
  {
    if i < |sent| {
      assert (sent + [x])[..i + 1] == sent[..i + 1];
    }
  }

  lemma ReceiveKeepsAccount(start: seq<Hop>, me: Party)
    requires Accounted(start, me)
    ensures Accounted(start, Receive(me))
  {
    if me.inbox != [] {
      PeelKeepsForward(me.hops, 0, me.inbox[0]);
    }
  }

  lemma {:induction false} RunKeepsAccount(a: seq<Hop>, b: seq<Hop>, s: Session, es: seq<Event>)
    requires Accounted(a, s.a) && Accounted(b, s.b)
    ensures Accounted(a, Run(s, es).a) && Accounted(b, Run(s, es).b)
    decreases |es|
  {
    if es != [] {
      match es[0] {
        case SendA(c) => SendKeepsAccount(a, s.a, s.b, c);
        case SendB(c) => SendKeepsAccount(b, s.b, s.a, c);
        case RecvA => ReceiveKeepsAccount(a, s.a);
        case RecvB => ReceiveKeepsAccount(b, s.b);
      }
      RunKeepsAccount(a, b, Step(s, es[0]), es[1..]);
    }
  }

  /** At any moment of any conversation the tag of every cell sent is the hash of its hop's seed
      followed by every payload sent to that hop up to and including it. */
  lemma TagsAreHashes(a: seq<Hop>, b: seq<Hop>, es: seq<Event>)
    ensures var s := Run(Start(a, b), es);
      && (forall i :: 0 <= i < |s.a.sent| ==> TagIsHash(a, s.a.sent, i))
      && (forall i :: 0 <= i < |s.b.sent| ==> TagIsHash(b, s.b.sent, i))
  {
    StartAccounted(a);
    StartAccounted(b);
    RunKeepsAccount(a, b, Start(a, b), es);
  }

  lemma StartAccounted(a: seq<Hop>)
    ensures Accounted(a, Party(a, [], [], []))
  {
    forall k | 0 <= k < |a|
      ensures a[k].fwdDigest == Extended(a[k].fwdDigest, History([], k))
    {
      if a[k].fwdDigest.Some? {
        assert a[k].fwdDigest.value.written + [] == a[k].fwdDigest.value.written;
      }
    }
  }

  // ---------------------------------------------------------------- what a receiver takes

  /** The two zero bytes, and the first four bytes of the hash of everything read so far and
      this payload. */
  predicate Genuine(d: Running, p: seq<byte>) {
    && |p| >= 11 && p[1] == 0 && p[2] == 0
    && p[5..9] == d.hash(d.written + Hashed(p))[..4]
  }

  lemma RecognizedIsGenuine(d: Running, p: seq<byte>)
    ensures Recognized(Some(d), p) <==> Genuine(d, p)
  {
    if |p| >= 11 {
      BlankedIsHashed(p);
      assert p[1..3][0] == p[1] && p[1..3][1] == p[2];
    }
  }

  /** `buf` without the layers of hops i .. n-1. */
  function Peeled(b: seq<Hop>, i: nat, n: nat, buf: seq<byte>): (out: seq<byte>)
    requires i <= n <= |b|
    ensures |out| == |buf|
    decreases n - i
  {
    if i == n then buf else Peeled(b, i + 1, n, Xored(b[i].bwdCipher, buf))
  }

  /** Hop k finds the cell genuine under its own layer and those before it, from hop i on. */
  predicate TakenAt(b: seq<Hop>, i: nat, buf: seq<byte>, k: nat)
    requires i <= k < |b|
  {
    b[k].bwdDigest.Some? && Genuine(b[k].bwdDigest.value, Peeled(b, i, k + 1, buf))
  }

  lemma {:induction false} PeeledFrame(b: seq<Hop>, b': seq<Hop>, i: nat, n: nat, buf: seq<byte>)
    requires i <= n <= |b| == |b'| && forall k :: i <= k < n ==> b[k].bwdCipher == b'[k].bwdCipher
    ensures Peeled(b, i, n, buf) == Peeled(b', i, n, buf)
    decreases n - i
  {
    if i < n {
      PeeledFrame(b, b', i + 1, n, Xored(b[i].bwdCipher, buf));
    }
  }

  lemma TakenLater(b: seq<Hop>, i: nat, buf: seq<byte>, k: nat)
    requires i < k < |b|
    ensures TakenAt(b, i, buf, k) <==> TakenAt(b[i := Received(b[i], false, buf)], i + 1, Xored(b[i].bwdCipher, buf), k)
  {
    PeeledFrame(b, b[i := Received(b[i], false, buf)], i + 1, k + 1, Xored(b[i].bwdCipher, buf));
  }

  lemma TakenFirst(b: seq<Hop>, i: nat, buf: seq<byte>)
    requires i < |b|
    ensures TakenAt(b, i, buf, i) <==> Recognized(b[i].bwdDigest, Xored(b[i].bwdCipher, buf))
  {
    assert Peeled(b, i, i + 1, buf) == Xored(b[i].bwdCipher, buf);
    if b[i].bwdDigest.Some? {
      RecognizedIsGenuine(b[i].bwdDigest.value, Xored(b[i].bwdCipher, buf));
    }
  }

  /** r took the cell at the first hop from i on that finds it genuine, with that many layers
      off and the hash as its tag; or at none, as no hop does. */
  ghost predicate TakesFirst(b: seq<Hop>, i: nat, buf: seq<byte>, r: Decrypted) {
    && (r.hop == -1 || i <= r.hop < |b|)
    && (forall k :: i <= k < |b| && (r.hop == -1 || k < r.hop) ==> !TakenAt(b, i, buf, k))
    && (r.hop != -1 ==>
          && TakenAt(b, i, buf, r.hop)
          && r.out == Peeled(b, i, r.hop + 1, buf)
          && r.tag == HashedTag(b[r.hop].bwdDigest.value, r.out))
  }

  function HashedTag(d: Running, p: seq<byte>): seq<byte> {
    d.hash(d.written + Hashed(p))
  }

  lemma TakenHere(b: seq<Hop>, i: nat, buf: seq<byte>)
    requires i < |b| && Recognized(b[i].bwdDigest, Xored(b[i].bwdCipher, buf))
    ensures TakesFirst(b, i, buf, Peel(b, i, buf))
  {
    var out := Xored(b[i].bwdCipher, buf);
    TakenFirst(b, i, buf);
    BlankedIsHashed(out);
    assert Peeled(b, i, i + 1, buf) == out;
  }

  lemma TakenBeyond(b: seq<Hop>, i: nat, buf: seq<byte>, r: Decrypted)
    requires i < |b| && !Recognized(b[i].bwdDigest, Xored(b[i].bwdCipher, buf))
    requires TakesFirst(b[i := Received(b[i], false, buf)], i + 1, Xored(b[i].bwdCipher, buf), r)
    ensures TakesFirst(b, i, buf, r)
  {
    var out, b' := Xored(b[i].bwdCipher, buf), b[i := Received(b[i], false, buf)];
    TakenFirst(b, i, buf);
    forall k | i < k < |b|
      ensures TakenAt(b, i, buf, k) <==> TakenAt(b', i + 1, out, k)
    {
      TakenLater(b, i, buf, k);
    }
    if r.hop != -1 {
      PeeledFrame(b, b', i + 1, r.hop + 1, out);
    }
  }

  /** Whoever sent it, a cell is taken at the first hop that finds it genuine. */
  lemma {:induction false} TakenByFirst(b: seq<Hop>, i: nat, buf: seq<byte>)
    requires i <= |b|
    ensures TakesFirst(b, i, buf, Peel(b, i, buf))
    decreases |b| - i
  {
    if i < |b| {
      var out, b' := Xored(b[i].bwdCipher, buf), b[i := Received(b[i], false, buf)];
      if Recognized(b[i].bwdDigest, out) {
        TakenHere(b, i, buf);
      } else {
        TakenByFirst(b', i + 1, out);
        TakenBeyond(b, i, buf, Peel(b', i + 1, out));
      }
    }
  }

  // ---------------------------------------------------------------- tampering

  lemma XoredAgrees(c: Option<Stream>, x: seq<byte>, y: seq<byte>, j: nat)
    requires j < |x| == |y|
    ensures Xored(c, x)[j] == Xored(c, y)[j] <==> x[j] == y[j]
  {
    XoredAt(c, x, j);
    XoredAt(c, y, j);
    XorGroup(x[j], KeyByte(c, j), 0);
    XorGroup(y[j], KeyByte(c, j), 0);
    XorCancels(KeyByte(c, j), x[j], y[j]);
  }

  lemma {:induction false} PeeledAgrees(b: seq<Hop>, i: nat, n: nat, x: seq<byte>, y: seq<byte>, j: nat)
    requires i <= n <= |b| && j < |x| == |y|
    ensures Peeled(b, i, n, x)[j] == Peeled(b, i, n, y)[j] <==> x[j] == y[j]
    decreases n - i
  {
    if i < n {
      XoredAgrees(b[i].bwdCipher, x, y, j);
      PeeledAgrees(b, i + 1, n, Xored(b[i].bwdCipher, x), Xored(b[i].bwdCipher, y), j);
    }
  }

  lemma {:induction false} PeeledLayered(a: seq<Hop>, b: seq<Hop>, i: nat, n: nat, buf: seq<byte>)
    requires i <= n <= |a| == |b| && forall k :: i <= k < n ==> Paired(a[k], b[k])
    ensures Peeled(b, i, n, Layered(a, i, n, buf)) == buf
    decreases n - i
  {
    if i < n {
      XoredTwice(a[i].fwdCipher, Layered(a, i + 1, n, buf));
      PeeledLayered(a, b, i + 1, n, buf);
    }
  }

  lemma EncryptedPeels(a: seq<Hop>, b: seq<Hop>, dest: nat, p: seq<byte>)
    requires Mirrored(a, b) && dest < |a|
    ensures Encrypt(a, dest, p).Encrypted? && |Encrypt(a, dest, p).out| == |p|
    ensures Peeled(b, 0, dest + 1, Encrypt(a, dest, p).out) == Fill(a[dest].fwdDigest, p).1
  {
    var (d, filled, tag) := Fill(a[dest].fwdDigest, p);
    var a1 := a[dest := a[dest].(fwdDigest := d)];
    WrapIsLayered(a1, dest + 1, filled);
    LayeredFrame(a, a1, 0, dest + 1, filled);
    PeeledLayered(a, b, 0, dest + 1, filled);
  }

  /** A cell changed on its way, though not in its digest field, is genuine to its destination
      if and only if its two zero bytes are untouched and the hash of what was read with the
      changed payload begins with the same four bytes as with the payload sent: another input,
      so a collision. */
  lemma TamperedCell(a: seq<Hop>, b: seq<Hop>, dest: nat, p: seq<byte>, wire: seq<byte>)
    requires Mirrored(a, b) && Sendable(a, dest, p)
    requires |wire| == |p| && Encrypt(a, dest, p).Encrypted? && |Encrypt(a, dest, p).out| == |p|
    requires wire != Encrypt(a, dest, p).out && wire[5..9] == Encrypt(a, dest, p).out[5..9]
    ensures var d, m := a[dest].fwdDigest.value, Hashed(Peeled(b, 0, dest + 1, wire));
      && m != Hashed(p)
      && (TakenAt(b, 0, wire, dest) <==>
            && m[1] == 0 && m[2] == 0
            && d.hash(d.written + m)[..4] == d.hash(d.written + Hashed(p))[..4])
  {
    var out, filled := Encrypt(a, dest, p).out, Fill(a[dest].fwdDigest, p).1;
    var x := Peeled(b, 0, dest + 1, wire);
    EncryptedPeels(a, b, dest, p);
    forall j | 0 <= j < |p|
      ensures x[j] == filled[j] <==> wire[j] == out[j]
    {
      PeeledAgrees(b, 0, dest + 1, wire, out, j);
    }
    FilledField(a[dest].fwdDigest.value, p);
    SameField(wire, out, x, filled);
    OutsideField(x, p, filled);
  }

  lemma FilledField(d: Running, p: seq<byte>)
    requires |p| >= 11
    ensures var filled := Fill(Some(d), p).1;
      && |filled| == |p| && Hashed(filled) == Hashed(p)
      && filled[5..9] == d.hash(d.written + Hashed(p))[..4]
  {
    BlankedIsHashed(p);
  }

  lemma SameField(wire: seq<byte>, out: seq<byte>, x: seq<byte>, filled: seq<byte>)
    requires |wire| == |out| == |x| == |filled| >= 11 && wire != out && wire[5..9] == out[5..9]
    requires forall j :: 0 <= j < |x| ==> (x[j] == filled[j] <==> wire[j] == out[j])
    ensures x[5..9] == filled[5..9]
    ensures exists j :: 0 <= j < |x| && !(5 <= j < 9) && x[j] != filled[j]
  {
    assert forall j :: 5 <= j < 9 ==> wire[j] == wire[5..9][j - 5] && out[j] == out[5..9][j - 5];
    var j :| 0 <= j < |wire| && wire[j] != out[j];
    assert x[j] != filled[j];
  }

  lemma OutsideField(x: seq<byte>, p: seq<byte>, filled: seq<byte>)
    requires |x| == |p| == |filled| && Hashed(filled) == Hashed(p)
    requires exists j :: 0 <= j < |x| && !(5 <= j < 9) && x[j] != filled[j]
    ensures Hashed(x) != Hashed(p)
  {
    var j :| 0 <= j < |x| && !(5 <= j < 9) && x[j] != filled[j];
    assert Hashed(x)[j] == x[j] && Hashed(filled)[j] == filled[j];
  }
}
