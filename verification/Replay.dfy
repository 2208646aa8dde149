/** The ReplayProtection object: one tracker per direction, updated in place and cleaned
    in loops. Each method is proved against the functions of ReplaySpec. */
module Replay {
  import opened Bytes
  import opened ReplaySpec

  datatype Direction = Forward | Backward

  /** The fields ReplayProtection keeps for one direction. */
  class DirectionState {
    const windowSize: nat
    var next: nat
    var window: set<nat>
    var digests: map<Digest, nat>
    var attempts: nat
    var outOfOrder: nat

    ghost function View(): Tracker
      reads this
    {
      Tracker(windowSize, next, window, digests, attempts, outOfOrder)
    }

    constructor (windowSize: nat)
      ensures View() == NewTracker(windowSize)
    {
      this.windowSize := windowSize;
      next, window, digests, attempts, outOfOrder := 0, {}, map[], 0, 0;
    }

    /** cleanupWindow: two loops that delete what is below the window. */
    method CleanupWindow()
      modifies this`window, this`digests
      ensures View() == Cleanup(old(View()))
    {
      var minValid := if next > windowSize then next - windowSize else 0;
      var todo := window;
      while todo != {}
        invariant digests == old(digests)
        invariant todo <= window <= old(window)
        invariant forall n :: n in old(window) && (n >= minValid || n in todo) ==> n in window
        invariant forall n :: n in window && n !in todo ==> n >= minValid
        decreases todo
      {
        var n :| n in todo;
        if n < minValid {
          window := window - {n};
        }
        todo := todo - {n};
      }
      CleanupDigests(minValid);
      assert window == Cleanup(old(View())).window && digests == Cleanup(old(View())).digests;
    }

    method CleanupDigests(minValid: nat)
      modifies this`digests
      ensures digests == map d | d in old(digests) && old(digests)[d] >= minValid :: old(digests)[d]
    {
      var todo := digests.Keys;
      while todo != {}
        invariant todo <= digests.Keys <= old(digests).Keys
        invariant forall d :: d in digests ==> digests[d] == old(digests)[d]
        invariant forall d :: d in old(digests) && (old(digests)[d] >= minValid || d in todo) ==> d in digests
        invariant forall d :: d in digests && d !in todo ==> digests[d] >= minValid
        decreases todo
      {
        var d :| d in todo;
        if digests[d] < minValid {
          digests := digests - {d};
        }
        todo := todo - {d};
      }
    }

    /** The checks shared by both ways of tracking; counts a refusal. */
    method Validate(num: nat, digest: Digest) returns (v: Verdict)
      modifies this`attempts
      ensures v == Check(old(View()), num, digest)
      ensures v != EmptyCell
      ensures View() == if v == Accepted then old(View()) else old(View()).(attempts := old(attempts) + 1)
    {
      v := Accepted;
      if digest in digests {
        v := DuplicateDigest;
      } else if num in window {
        v := DuplicateSequence;
      } else if next > windowSize && num < next - windowSize {
        v := TooOld;
      } else if num > next + windowSize * 2 {
        v := TooFarAhead;
      }
      if v != Accepted {
        attempts := attempts + 1;
      }
    }

    /** validateForward and validateBackward */
    method TrackNumbered(num: nat, digest: Digest) returns (v: Verdict)
      modifies this
      ensures (View(), v) == Track(old(View()), num, digest)
    {
      v := Validate(num, digest);
      if v != Accepted {
        return;
      }
      window := window + {num};
      digests := digests[digest := num];
      if num < next {
        outOfOrder := outOfOrder + 1;
      }
      if num >= next {
        next := num + 1;
      }
      CleanupWindow();
    }

    /** validateForwardLocked and validateBackwardLocked, then the increment after them. */
    method TrackNext(digest: Digest) returns (v: Verdict)
      modifies this
      ensures (View(), v) == Auto(old(View()), digest)
    {
      v := Validate(next, digest);
      if v != Accepted {
        return;
      }
      window := window + {next};
      digests := digests[digest := next];
      CleanupWindow();
      next := next + 1;
    }
  }

  class ReplayProtection {
    const forward: DirectionState
    const backward: DirectionState

    constructor (windowSize: nat)
      ensures fresh(forward) && fresh(backward) && forward != backward
      ensures forward.View() == NewTracker(windowSize) && backward.View() == NewTracker(windowSize)
    {
      forward := new DirectionState(windowSize);
      backward := new DirectionState(windowSize);
    }

    function Side(dir: Direction): DirectionState {
      if dir == Forward then forward else backward
    }

    method ValidateAndTrack(dir: Direction, num: nat, cell: seq<byte>, sha256: seq<byte> -> Digest) returns (v: Verdict)
      requires forward != backward
      modifies Side(dir)
      ensures cell == [] ==> v == EmptyCell && Side(dir).View() == old(Side(dir).View())
      ensures cell != [] ==> (Side(dir).View(), v) == Track(old(Side(dir).View()), num, sha256(cell))
    {
      if |cell| == 0 {
        return EmptyCell;
      }
      v := Side(dir).TrackNumbered(num, sha256(cell));
    }

    method ValidateAndTrackAuto(dir: Direction, cell: seq<byte>, sha256: seq<byte> -> Digest) returns (v: Verdict)
      requires forward != backward
      modifies Side(dir)
      ensures cell == [] ==> v == EmptyCell && Side(dir).View() == old(Side(dir).View())
      ensures cell != [] ==> (Side(dir).View(), v) == Auto(old(Side(dir).View()), sha256(cell))
    {
      if |cell| == 0 {
        return EmptyCell;
      }
      v := Side(dir).TrackNext(sha256(cell));
    }

    method GetNextSequence(dir: Direction) returns (num: nat)
      requires forward != backward
      modifies Side(dir)
      ensures num == old(Side(dir).next)
      ensures Side(dir).View() == GetNext(old(Side(dir).View()))
    {
      var side := Side(dir);
      num := side.next;
      side.next := side.next + 1;
    }
  }
}
