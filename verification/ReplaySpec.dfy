/** Replay protection in one direction: a bounded window of sequence numbers and cell
    digests, as functions on values, and what it remembers of an unbounded history. */
module ReplaySpec {
  import opened Arith
  import opened Bytes

  type Digest = seq<byte>

  datatype Tracker = Tracker(
    windowSize: nat,
    next: nat,
    window: set<nat>,
    digests: map<Digest, nat>,
    attempts: nat,
    outOfOrder: nat)

  datatype Verdict = Accepted | EmptyCell | DuplicateDigest | DuplicateSequence | TooOld | TooFarAhead

  function NewTracker(windowSize: nat): Tracker {
    Tracker(windowSize, 0, {}, map[], 0, 0)
  }

  /** validateSequence */
  function ValidateSequence(t: Tracker, num: nat): Verdict {
    if num in t.window then DuplicateSequence
    else if t.next > t.windowSize && num < t.next - t.windowSize then TooOld
    else if num > t.next + t.windowSize * 2 then TooFarAhead
    else Accepted
  }

  function MinValid(t: Tracker): nat {
    if t.next > t.windowSize then t.next - t.windowSize else 0
  }

  /** cleanupWindow */
  function Cleanup(t: Tracker): Tracker {
    t.(window := (set n | n in t.window && n >= MinValid(t)),
       digests := (map d | d in t.digests && t.digests[d] >= MinValid(t) :: t.digests[d]))
  }

  function Check(t: Tracker, num: nat, digest: Digest): Verdict {
    if digest in t.digests then DuplicateDigest else ValidateSequence(t, num)
  }

  function Remember(t: Tracker, num: nat, digest: Digest): Tracker {
    t.(window := t.window + {num},
       digests := t.digests[digest := num],
       outOfOrder := if num < t.next then t.outOfOrder + 1 else t.outOfOrder)
  }

  /** ValidateAndTrack with a caller's number: the window is cleaned after `next` moves. */
  function Track(t: Tracker, num: nat, digest: Digest): (Tracker, Verdict) {
    var v := Check(t, num, digest);
    if v != Accepted then (t.(attempts := t.attempts + 1), v)
    else
      var t1 := Remember(t, num, digest);
      (Cleanup(t1.(next := if num >= t.next then num + 1 else t.next)), Accepted)
  }

  /** ValidateAndTrackAuto: the number is `next`, and the window is cleaned before it moves. */
  function Auto(t: Tracker, digest: Digest): (Tracker, Verdict) {
    var v := Check(t, t.next, digest);
    if v != Accepted then (t.(attempts := t.attempts + 1), v)
    else
      var t1 := Cleanup(Remember(t, t.next, digest));
      (t1.(next := t.next + 1), Accepted)
  }

  /** GetNextSequence hands out `next` without tracking anything. */
  function GetNext(t: Tracker): Tracker {
    t.(next := t.next + 1)
  }

  // ---------------------------------------------------------------- runs and history

  datatype Call = CallTrack(num: nat, digest: Digest) | CallAuto(digest: Digest) | CallGetNext

  function Apply(t: Tracker, c: Call): (Tracker, Verdict) {
    match c
    case CallTrack(num, digest) => Track(t, num, digest)
    case CallAuto(digest) => Auto(t, digest)
    case CallGetNext => (GetNext(t), Accepted)
  }

  /** An accepted cell: its number and its digest. */
  datatype Entry = Entry(num: nat, digest: Digest)

  function EntryOf(t: Tracker, c: Call): seq<Entry> {
    match c
    case CallTrack(num, digest) => if Track(t, num, digest).1 == Accepted then [Entry(num, digest)] else []
    case CallAuto(digest) => if Auto(t, digest).1 == Accepted then [Entry(t.next, digest)] else []
    case CallGetNext => []
  }

  /** The state after a list of calls, and every cell accepted on the way. */
  function Run(t: Tracker, h: seq<Entry>, cs: seq<Call>): (Tracker, seq<Entry>)
    decreases |cs|
  {
    if cs == [] then (t, h) else Run(Apply(t, cs[0]).0, h + EntryOf(t, cs[0]), cs[1..])
  }

  /** An entry is either still remembered, number and digest together, or so old that its
      number can never pass the window check again. */
  ghost predicate Kept(t: Tracker, e: Entry) {
    || (e.num in t.window && e.digest in t.digests && t.digests[e.digest] == e.num)
    || e.num + t.windowSize < t.next
  }

  /** The digests are in bijection with the numbers in the window, and the window holds at
      most W + 1 of them, all below `next`. */
  ghost predicate WindowOk(t: Tracker) {
    && |t.window| <= t.windowSize + 1
    && (forall n :: n in t.window ==> n < t.next)
    && Bijective(t.window, t.digests)
  }

  ghost predicate Bijective(window: set<nat>, digests: map<Digest, nat>) {
    && (forall d :: d in digests ==> digests[d] in window)
    && (forall n :: n in window ==> exists d :: d in digests && digests[d] == n)
    && (forall d, e :: d in digests && e in digests && digests[d] == digests[e] ==> d == e)
  }

  ghost predicate NumbersDistinct(h: seq<Entry>) {
    forall i, j :: 0 <= i < j < |h| ==> h[i].num != h[j].num
  }

  ghost predicate Inv(t: Tracker, h: seq<Entry>) {
    && WindowOk(t)
    && (forall i :: 0 <= i < |h| ==> Kept(t, h[i]) && h[i].num < t.next)
    && NumbersDistinct(h)
  }

  // ---------------------------------------------------------------- proofs

  lemma CleanupKeeps(t: Tracker)
    requires Bijective(t.window, t.digests)
    ensures Bijective(Cleanup(t).window, Cleanup(t).digests)
  {
    var c := Cleanup(t);
    forall n | n in c.window
      ensures exists d :: d in c.digests && c.digests[d] == n
    {
      var d :| d in t.digests && t.digests[d] == n;
      assert d in c.digests;
    }
  }

  lemma RememberKeeps(t: Tracker, num: nat, digest: Digest)
    requires Bijective(t.window, t.digests) && num !in t.window && digest !in t.digests
    ensures Bijective(t.window + {num}, t.digests[digest := num])
  {
    var digests := t.digests[digest := num];
    forall n | n in t.window + {num}
      ensures exists d :: d in digests && digests[d] == n
    {
      if n == num {
        assert digest in digests;
      } else {
        var d :| d in t.digests && t.digests[d] == n;
        assert d in digests && digests[d] == n;
      }
    }
  }

  /** An accepted number was never accepted before, though its entry may long be forgotten;
      and an earlier cell with the same digest is at least W + 1 numbers behind. */
  lemma AcceptedIsNew(t: Tracker, h: seq<Entry>, num: nat, digest: Digest)
    requires Inv(t, h) && Check(t, num, digest) == Accepted
    ensures forall i :: 0 <= i < |h| ==> h[i].num != num
    ensures forall i :: 0 <= i < |h| && h[i].digest == digest ==> h[i].num + t.windowSize < t.next
  {
    forall i | 0 <= i < |h|
      ensures h[i].num != num
    {
      assert Kept(t, h[i]);
    }
    forall i | 0 <= i < |h| && h[i].digest == digest
      ensures h[i].num + t.windowSize < t.next
    {
      assert Kept(t, h[i]);
    }
  }

  /** Remembering, then cleaning at `next` as it stands, then moving `next` by `ahead`. */
  lemma CleanedWindow(r: Tracker, ahead: nat)
    requires Bijective(r.window, r.digests)
    requires forall n :: n in r.window ==> n < r.next + ahead
    requires ahead <= 1
    ensures WindowOk(Cleanup(r).(next := r.next + ahead))
  {
    CleanupKeeps(r);
    IntervalSize(Cleanup(r).window, MinValid(r), r.next + ahead);
  }

  lemma CleanedKept(t: Tracker, r: Tracker, e: Entry, ahead: nat)
    requires Kept(t, e)
    requires r.windowSize == t.windowSize && r.next >= t.next
    requires t.window <= r.window
    requires forall d :: d in t.digests ==> d in r.digests && r.digests[d] == t.digests[d]
    ensures Kept(Cleanup(r).(next := r.next + ahead), e)
  {
  }

  lemma Extended(c: Tracker, h: seq<Entry>, e: Entry)
    requires WindowOk(c) && NumbersDistinct(h)
    requires forall i :: 0 <= i < |h| ==> Kept(c, h[i]) && h[i].num < c.next && h[i].num != e.num
    requires Kept(c, e) && e.num < c.next
    ensures Inv(c, h + [e])
  {
  }

  lemma TrackedIsKept(t: Tracker, num: nat, digest: Digest)
    requires Check(t, num, digest) == Accepted
    ensures Kept(Track(t, num, digest).0, Entry(num, digest))
    ensures num < Track(t, num, digest).0.next && t.next <= Track(t, num, digest).0.next
  {
  }

  lemma TrackKeepsInv(t: Tracker, h: seq<Entry>, num: nat, digest: Digest)
    requires Inv(t, h) && Check(t, num, digest) == Accepted
    ensures Inv(Track(t, num, digest).0, h + [Entry(num, digest)])
  {
    AcceptedIsNew(t, h, num, digest);
    RememberKeeps(t, num, digest);
    var r := Remember(t, num, digest).(next := if num >= t.next then num + 1 else t.next);
    var c := Track(t, num, digest).0;
    assert c == Cleanup(r).(next := r.next + 0);
    CleanedWindow(r, 0);
    forall i | 0 <= i < |h|
      ensures Kept(c, h[i])
    {
      CleanedKept(t, r, h[i], 0);
    }
    TrackedIsKept(t, num, digest);
    Extended(c, h, Entry(num, digest));
  }

  lemma AutoKeepsInv(t: Tracker, h: seq<Entry>, digest: Digest)
    requires Inv(t, h) && Check(t, t.next, digest) == Accepted
    ensures Inv(Auto(t, digest).0, h + [Entry(t.next, digest)])
  {
    AcceptedIsNew(t, h, t.next, digest);
    RememberKeeps(t, t.next, digest);
    var r := Remember(t, t.next, digest);
    CleanedWindow(r, 1);
    forall i | 0 <= i < |h|
      ensures Kept(Auto(t, digest).0, h[i])
    {
      CleanedKept(t, r, h[i], 1);
    }
    Extended(Auto(t, digest).0, h, Entry(t.next, digest));
  }

  lemma ApplyKeepsInv(t: Tracker, h: seq<Entry>, c: Call)
    requires Inv(t, h)
    ensures Inv(Apply(t, c).0, h + EntryOf(t, c))
  {
    assert h + [] == h;
    match c
    case CallTrack(num, digest) =>
      if Check(t, num, digest) == Accepted {
        TrackKeepsInv(t, h, num, digest);
      } else {
        RejectKeepsInv(t, h);
      }
    case CallAuto(digest) =>
      if Check(t, t.next, digest) == Accepted {
        AutoKeepsInv(t, h, digest);
      } else {
        RejectKeepsInv(t, h);
      }
    case CallGetNext =>
      forall i | 0 <= i < |h|
        ensures Kept(GetNext(t), h[i])
      {
        assert Kept(t, h[i]);
      }
  }

  lemma RejectKeepsInv(t: Tracker, h: seq<Entry>)
    requires Inv(t, h)
    ensures Inv(t.(attempts := t.attempts + 1), h)
  {
    forall i | 0 <= i < |h|
      ensures Kept(t.(attempts := t.attempts + 1), h[i])
    {
      assert Kept(t, h[i]);
    }
  }

  /** Over any mix of calls: no number is ever accepted twice, the digests stay in bijection
      with the window, and the window never holds more than W + 1 entries. */
  lemma {:induction false} ReplayHistory(t: Tracker, h: seq<Entry>, cs: seq<Call>)
    requires Inv(t, h)
    ensures Inv(Run(t, h, cs).0, Run(t, h, cs).1)
    ensures h <= Run(t, h, cs).1
    decreases |cs|
  {
    if cs != [] {
      ApplyKeepsInv(t, h, cs[0]);
      ReplayHistory(Apply(t, cs[0]).0, h + EntryOf(t, cs[0]), cs[1..]);
    }
  }

  /** The same for a new tracker, spelled out. */
  lemma ReplayFromStart(windowSize: nat, cs: seq<Call>)
    ensures var (t, h) := Run(NewTracker(windowSize), [], cs);
      && (forall i, j :: 0 <= i < j < |h| ==> h[i].num != h[j].num)
      && |t.window| <= windowSize + 1
      && Bijective(t.window, t.digests)
  {
    assert Inv(NewTracker(windowSize), []);
    ReplayHistory(NewTracker(windowSize), [], cs);
    SizeConstant(NewTracker(windowSize), [], cs);
  }

  lemma {:induction false} SizeConstant(t: Tracker, h: seq<Entry>, cs: seq<Call>)
    ensures Run(t, h, cs).0.windowSize == t.windowSize
    decreases |cs|
  {
    if cs != [] {
      SizeConstant(Apply(t, cs[0]).0, h + EntryOf(t, cs[0]), cs[1..]);
    }
  }

  // ---------------------------------------------------------------- automatic numbering alone

  /** The digests of the last k cells of a history. */
  function Recent(hist: seq<Digest>, k: nat): seq<Digest> {
    if |hist| <= k then hist else hist[|hist| - k..]
  }

  /** The tracker remembers exactly the last W + 1 accepted cells, under their positions. */
  ghost predicate Mirrors(t: Tracker, hist: seq<Digest>) {
    var lo := if |hist| <= t.windowSize + 1 then 0 else |hist| - (t.windowSize + 1);
    && t.next == |hist|
    && (forall n :: n in t.window <==> lo <= n < |hist|)
    && (forall n :: lo <= n < |hist| ==> hist[n] in t.digests && t.digests[hist[n]] == n)
    && (forall d :: d in t.digests ==> lo <= t.digests[d] < |hist| && hist[t.digests[d]] == d)
  }

  lemma AutoStep(t: Tracker, hist: seq<Digest>, digest: Digest)
    requires Mirrors(t, hist)
    ensures var (t', v) := Auto(t, digest);
      && (v == Accepted <==> digest !in Recent(hist, t.windowSize + 1))
      && (v != Accepted ==> v == DuplicateDigest)
      && Mirrors(t', if v == Accepted then hist + [digest] else hist)
  {
    var k := t.windowSize + 1;
    var lo := if |hist| <= k then 0 else |hist| - k;
    assert Recent(hist, k) == hist[lo..];
    if digest in t.digests {
      assert hist[lo..][t.digests[digest] - lo] == digest;
    } else {
      assert forall n :: lo <= n < |hist| ==> hist[n] != digest;
    }
    if Auto(t, digest).1 == Accepted {
      AutoAccepts(t, hist, digest);
    }
  }

  lemma AutoAccepts(t: Tracker, hist: seq<Digest>, digest: Digest)
    requires Mirrors(t, hist) && digest !in t.digests
    ensures Auto(t, digest).1 == Accepted && Mirrors(Auto(t, digest).0, hist + [digest])
  {
    var hist' := hist + [digest];
    var t' := Auto(t, digest).0;
    var lo := if |hist| <= t.windowSize + 1 then 0 else |hist| - (t.windowSize + 1);
    var lo' := if |hist'| <= t.windowSize + 1 then 0 else |hist'| - (t.windowSize + 1);
    assert MinValid(t) == lo';
    forall n | lo' <= n < |hist'|
      ensures hist'[n] in t'.digests && t'.digests[hist'[n]] == n
    {
      if n < |hist| {
        assert hist'[n] == hist[n] && hist[n] != digest;
      }
    }
  }

  /** The reference: an unbounded history, of which the last k cells may not recur. */
  function Reference(hist: seq<Digest>, k: nat, input: seq<Digest>): (seq<Digest>, seq<bool>)
    decreases |input|
  {
    if input == [] then (hist, [])
    else
      var ok := input[0] !in Recent(hist, k);
      var (h, oks) := Reference(if ok then hist + [input[0]] else hist, k, input[1..]);
      (h, [ok] + oks)
  }

  function AutoRun(t: Tracker, input: seq<Digest>): (Tracker, seq<bool>)
    decreases |input|
  {
    if input == [] then (t, [])
    else
      var (t1, v) := Auto(t, input[0]);
      var (t2, oks) := AutoRun(t1, input[1..]);
      (t2, [v == Accepted] + oks)
  }

  lemma AutoKeepsSize(t: Tracker, digest: Digest)
    ensures Auto(t, digest).0.windowSize == t.windowSize
  {
  }

  /** A run of ValidateAndTrackAuto and one of the reference give the same answers and end in
      the same place. */
  ghost predicate Agree(t: Tracker, hist: seq<Digest>, input: seq<Digest>) {
    var run, ref := AutoRun(t, input), Reference(hist, t.windowSize + 1, input);
    run.1 == ref.1 && Mirrors(run.0, ref.0)
  }

  /** They do: a cell is refused if and only if it repeats one of the last W + 1 accepted
      cells. */
  lemma {:induction false} ReplayRefinement(t: Tracker, hist: seq<Digest>, input: seq<Digest>)
    requires Mirrors(t, hist)
    ensures Agree(t, hist, input)
    decreases |input|
  {
    if input != [] {
      var next, hist1 := AgreeStep(t, hist, input[0]);
      ReplayRefinement(next.0, hist1, input[1..]);
      AgreeMore(t, hist, input, next, hist1);
    }
  }

  lemma AgreeStep(t: Tracker, hist: seq<Digest>, digest: Digest) returns (next: (Tracker, Verdict), hist1: seq<Digest>)
    requires Mirrors(t, hist)
    ensures next == Auto(t, digest) && next.0.windowSize == t.windowSize
    ensures next.1 == Accepted <==> digest !in Recent(hist, t.windowSize + 1)
    ensures hist1 == if next.1 == Accepted then hist + [digest] else hist
    ensures Mirrors(next.0, hist1)
  {
    next := Auto(t, digest);
    hist1 := if next.1 == Accepted then hist + [digest] else hist;
    AutoStep(t, hist, digest);
    AutoKeepsSize(t, digest);
  }

  lemma AgreeMore(t: Tracker, hist: seq<Digest>, input: seq<Digest>, next: (Tracker, Verdict), hist1: seq<Digest>)
    requires input != [] && next == Auto(t, input[0]) && next.0.windowSize == t.windowSize
    requires next.1 == Accepted <==> input[0] !in Recent(hist, t.windowSize + 1)
    requires hist1 == if next.1 == Accepted then hist + [input[0]] else hist
    requires Agree(next.0, hist1, input[1..])
    ensures Agree(t, hist, input)
  {
    var rest := input[1..];
    assert AutoRun(t, input) == (AutoRun(next.0, rest).0, [next.1 == Accepted] + AutoRun(next.0, rest).1);
    var ref := Reference(hist1, t.windowSize + 1, rest);
    assert Reference(hist, t.windowSize + 1, input) == (ref.0, [next.1 == Accepted] + ref.1);
  }

  lemma RefinementFromStart(windowSize: nat, input: seq<Digest>)
    ensures AutoRun(NewTracker(windowSize), input).1 == Reference([], windowSize + 1, input).1
  {
    ReplayRefinement(NewTracker(windowSize), [], input);
  }
}
