/** Replay protection over any mix of its calls: the bounded tracker against a log of every
    cell it ever accepted. */
module ReplayLog {
  import opened Arith
  import opened Bytes
  import opened ReplaySpec

  /** Every accepted cell, the next number, the number below which cells are forgotten, and
      the counts of refused and of late cells. */
  datatype Log = Log(cells: seq<Entry>, next: nat, floor: nat, refused: nat, late: nat)

  const EMPTY_LOG := Log([], 0, 0, 0, 0)

  /** A cell with this number was accepted at some time. */
  predicate Used(cells: seq<Entry>, num: nat) {
    exists i :: 0 <= i < |cells| && cells[i].num == num
  }

  /** A cell with this digest was accepted and is not yet forgotten. */
  predicate Known(cells: seq<Entry>, floor: nat, digest: Digest) {
    exists i :: 0 <= i < |cells| && cells[i].num >= floor && cells[i].digest == digest
  }

  /** A number never used before, at most w behind and at most 2 w ahead of the next one, with
      a digest that is not known. */
  predicate Fresh(l: Log, w: nat, num: nat, digest: Digest) {
    !Known(l.cells, l.floor, digest) && !Used(l.cells, num) && l.next - w <= num <= l.next + 2 * w
  }

  function Refuse(l: Log): Log {
    l.(refused := l.refused + 1)
  }

  function LogTrack(l: Log, w: nat, num: nat, digest: Digest): (Log, bool) {
    if !Fresh(l, w, num, digest) then (Refuse(l), false)
    else
      var next := Max(l.next, num + 1);
      (Log(l.cells + [Entry(num, digest)], next, Max(0, next - w), l.refused,
           if num < l.next then l.late + 1 else l.late), true)
  }

  function LogAuto(l: Log, w: nat, digest: Digest): (Log, bool) {
    if !Fresh(l, w, l.next, digest) then (Refuse(l), false)
    else (Log(l.cells + [Entry(l.next, digest)], l.next + 1, Max(0, l.next - w), l.refused, l.late), true)
  }

  function LogStep(l: Log, w: nat, c: Call): (Log, bool) {
    match c
    case CallTrack(num, digest) => LogTrack(l, w, num, digest)
    case CallAuto(digest) => LogAuto(l, w, digest)
    case CallGetNext => (l.(next := l.next + 1), true)
  }

  function LogRun(l: Log, w: nat, cs: seq<Call>): (Log, seq<bool>)
    decreases |cs|
  {
    if cs == [] then (l, [])
    else
      var (l1, ok) := LogStep(l, w, cs[0]);
      var (l2, oks) := LogRun(l1, w, cs[1..]);
      (l2, [ok] + oks)
  }

  /** The tracker's answers to a list of calls. */
  function Answers(t: Tracker, cs: seq<Call>): (Tracker, seq<bool>)
    decreases |cs|
  {
    if cs == [] then (t, [])
    else
      var (t1, v) := Apply(t, cs[0]);
      var (t2, oks) := Answers(t1, cs[1..]);
      (t2, [v == Accepted] + oks)
  }

  // ---------------------------------------------------------------- what the tracker remembers

  predicate Remembers(window: set<nat>, digests: map<Digest, nat>, cells: seq<Entry>, floor: nat) {
    && (forall n :: n in window ==> n >= floor && Used(cells, n))
    && (forall i :: 0 <= i < |cells| && cells[i].num >= floor ==>
          cells[i].num in window && cells[i].digest in digests && digests[cells[i].digest] == cells[i].num)
    && (forall d :: d in digests ==> digests[d] >= floor && Known(cells, floor, d))
  }

  predicate Below(cells: seq<Entry>, next: nat) {
    forall i :: 0 <= i < |cells| ==> cells[i].num < next
  }

  predicate Shows(t: Tracker, l: Log) {
    && t.next == l.next && t.attempts == l.refused && t.outOfOrder == l.late
    && l.floor <= Max(0, l.next - t.windowSize)
    && Below(l.cells, l.next)
    && Remembers(t.window, t.digests, l.cells, l.floor)
  }

  /** The tracker's verdict is the log's. */
  lemma SameVerdict(t: Tracker, l: Log, num: nat, digest: Digest)
    requires Shows(t, l)
    ensures Check(t, num, digest) == Accepted <==> Fresh(l, t.windowSize, num, digest)
    ensures digest in t.digests <==> Known(l.cells, l.floor, digest)
    ensures Check(t, num, digest) == DuplicateDigest <==> Known(l.cells, l.floor, digest)
    ensures Check(t, num, digest) == DuplicateSequence <==>
      !Known(l.cells, l.floor, digest) && num >= l.floor && Used(l.cells, num)
    ensures Check(t, num, digest) == TooOld <==>
      !Known(l.cells, l.floor, digest) && !(num >= l.floor && Used(l.cells, num)) && num < l.next - t.windowSize
    ensures Check(t, num, digest) == TooFarAhead <==>
      !Known(l.cells, l.floor, digest) && num > l.next + 2 * t.windowSize
  {
    if num in t.window {
      assert Used(l.cells, num);
    }
  }

  /** One more cell remembered, and everything below a higher floor forgotten. */
  lemma RememberAndForget(t: Tracker, cells: seq<Entry>, floor: nat, num: nat, digest: Digest, higher: nat)
    requires Remembers(t.window, t.digests, cells, floor) && floor <= higher
    requires !Known(cells, floor, digest)
    ensures
      var window, digests := t.window + {num}, t.digests[digest := num];
      Remembers(set n | n in window && n >= higher, map d | d in digests && digests[d] >= higher :: digests[d],
                cells + [Entry(num, digest)], higher)
  {
    var more := cells + [Entry(num, digest)];
    var window, digests := t.window + {num}, t.digests[digest := num];
    assert more[|cells|] == Entry(num, digest);
    forall n | n in window && n >= higher
      ensures Used(more, n)
    {
      if n in t.window {
        UsedMore(cells, Entry(num, digest), n);
      }
    }
    forall i | 0 <= i < |more| && more[i].num >= higher
      ensures more[i].num in window && more[i].digest in digests && digests[more[i].digest] == more[i].num
    {
      if i < |cells| {
        assert more[i] == cells[i];
      }
    }
    forall d | d in digests && digests[d] >= higher
      ensures Known(more, higher, d)
    {
      if d != digest {
        KnownMore(t.digests, cells, floor, Entry(num, digest), higher, d);
      }
    }
  }

  lemma UsedMore(cells: seq<Entry>, e: Entry, n: nat)
    requires Used(cells, n)
    ensures Used(cells + [e], n)
  {
    var i :| 0 <= i < |cells| && cells[i].num == n;
    assert (cells + [e])[i] == cells[i];
  }

  lemma KnownMore(digests: map<Digest, nat>, cells: seq<Entry>, floor: nat, e: Entry, higher: nat, d: Digest)
    requires d in digests && digests[d] >= higher && Known(cells, floor, d)
    requires forall i :: 0 <= i < |cells| && cells[i].num >= floor ==>
      cells[i].digest in digests && digests[cells[i].digest] == cells[i].num
    ensures Known(cells + [e], higher, d)
  {
    var i :| 0 <= i < |cells| && cells[i].num >= floor && cells[i].digest == d;
    assert (cells + [e])[i] == cells[i];
  }

  /** What cleaning at a next number of n leaves after remembering a cell. */
  lemma Cleaned(t: Tracker, cells: seq<Entry>, floor: nat, num: nat, digest: Digest, n: nat)
    requires Remembers(t.window, t.digests, cells, floor) && floor <= Max(0, n - t.windowSize)
    requires !Known(cells, floor, digest)
    ensures var c := Cleanup(Remember(t, num, digest).(next := n));
      Remembers(c.window, c.digests, cells + [Entry(num, digest)], Max(0, n - t.windowSize))
  {
    RememberAndForget(t, cells, floor, num, digest, Max(0, n - t.windowSize));
  }

  lemma BelowMore(cells: seq<Entry>, next: nat, e: Entry, next': nat)
    requires Below(cells, next) && next <= next' && e.num < next'
    ensures Below(cells + [e], next')
  {
  }

  lemma TrackShape(t: Tracker, num: nat, digest: Digest)
    requires Check(t, num, digest) == Accepted
    ensures Track(t, num, digest).0 == Cleanup(Remember(t, num, digest).(next := Max(t.next, num + 1)))
  {
    assert Remember(t, num, digest).(next := Max(t.next, num + 1))
        == Remember(t, num, digest).(next := if num >= t.next then num + 1 else t.next);
  }

  lemma CleanupFrame(r: Tracker)
    ensures var c := Cleanup(r);
      c.next == r.next && c.windowSize == r.windowSize && c.attempts == r.attempts && c.outOfOrder == r.outOfOrder
  {
  }

  lemma TrackAccepts(t: Tracker, l: Log, num: nat, digest: Digest)
    requires Shows(t, l) && Check(t, num, digest) == Accepted && Fresh(l, t.windowSize, num, digest)
    ensures Shows(Track(t, num, digest).0, LogTrack(l, t.windowSize, num, digest).0)
  {
    var next := Max(l.next, num + 1);
    BelowMore(l.cells, l.next, Entry(num, digest), next);
    Cleaned(t, l.cells, l.floor, num, digest, next);
    CleanupFrame(Remember(t, num, digest).(next := next));
    TrackShape(t, num, digest);
    ShowsParts(Track(t, num, digest).0, LogTrack(l, t.windowSize, num, digest).0);
  }

  lemma ShowsParts(t: Tracker, l: Log)
    requires t.next == l.next && t.attempts == l.refused && t.outOfOrder == l.late
    requires l.floor == Max(0, l.next - t.windowSize)
    requires Below(l.cells, l.next) && Remembers(t.window, t.digests, l.cells, l.floor)
    ensures Shows(t, l)
  {
  }

  lemma TrackShows(t: Tracker, l: Log, num: nat, digest: Digest)
    requires Shows(t, l)
    ensures var (t', v) := Track(t, num, digest);
      var (l', ok) := LogTrack(l, t.windowSize, num, digest);
      Shows(t', l') && (v == Accepted <==> ok) && t'.windowSize == t.windowSize
  {
    SameVerdict(t, l, num, digest);
    if Fresh(l, t.windowSize, num, digest) {
      TrackAccepts(t, l, num, digest);
    }
  }

  lemma AutoAccepted(t: Tracker, l: Log, digest: Digest)
    requires Shows(t, l) && Check(t, t.next, digest) == Accepted && Fresh(l, t.windowSize, l.next, digest)
    ensures Shows(Auto(t, digest).0, LogAuto(l, t.windowSize, digest).0)
  {
    Cleaned(t, l.cells, l.floor, l.next, digest, l.next);
    BelowMore(l.cells, l.next, Entry(l.next, digest), l.next + 1);
    assert Remember(t, l.next, digest).(next := l.next) == Remember(t, t.next, digest);
  }

  lemma AutoShows(t: Tracker, l: Log, digest: Digest)
    requires Shows(t, l)
    ensures var (t', v) := Auto(t, digest);
      var (l', ok) := LogAuto(l, t.windowSize, digest);
      Shows(t', l') && (v == Accepted <==> ok) && t'.windowSize == t.windowSize
  {
    SameVerdict(t, l, l.next, digest);
    if Fresh(l, t.windowSize, l.next, digest) {
      AutoAccepted(t, l, digest);
    }
  }

  lemma StepShows(t: Tracker, l: Log, c: Call)
    requires Shows(t, l)
    ensures var (t', v) := Apply(t, c);
      var (l', ok) := LogStep(l, t.windowSize, c);
      Shows(t', l') && (v == Accepted <==> ok) && t'.windowSize == t.windowSize
  {
    match c
    case CallTrack(num, digest) => TrackShows(t, l, num, digest);
    case CallAuto(digest) => AutoShows(t, l, digest);
    case CallGetNext =>
  }

  /** Over any mix of calls the bounded tracker answers as the unbounded log does, and shows
      its counts. */
  lemma {:induction false} TrackerIsLog(t: Tracker, l: Log, cs: seq<Call>)
    requires Shows(t, l)
    ensures Answers(t, cs).1 == LogRun(l, t.windowSize, cs).1
    ensures Shows(Answers(t, cs).0, LogRun(l, t.windowSize, cs).0)
    decreases |cs|
  {
    if cs != [] {
      StepShows(t, l, cs[0]);
      TrackerIsLog(Apply(t, cs[0]).0, LogStep(l, t.windowSize, cs[0]).0, cs[1..]);
    }
  }

  /** From a new tracker: the same answers, and the statistics are the number of cells refused
      and the number accepted behind the next number. */
  lemma LogFromStart(windowSize: nat, cs: seq<Call>)
    ensures var (t, oks) := Answers(NewTracker(windowSize), cs);
      var (l, expected) := LogRun(EMPTY_LOG, windowSize, cs);
      oks == expected && t.next == l.next && t.attempts == l.refused && t.outOfOrder == l.late
  {
    TrackerIsLog(NewTracker(windowSize), EMPTY_LOG, cs);
  }
}
