/** Two sampling routines that are exact: rejection sampling of a duration, and the
    weighted choice of a histogram bin. Random draws are inputs. */
module Sampling {
  import opened Arith
  import opened Bytes

  // ---------------------------------------------------------------- randomDuration

  const MAX_DRAW := 0xFFFF_FFFF_FFFF_FFFF

  /** Draws at or above this are rejected. */
  function Limit(range: int): int
    requires range > 0
  {
    MAX_DRAW - MAX_DRAW % range
  }

  predicate AcceptedDraw(n: nat, range: int)
    requires range > 0
  {
    n < Limit(range)
  }

  /** How many draws below `bound` lead to the given offset. */
  function CountOffset(bound: nat, range: int, offset: int): nat
    requires range > 0
  {
    if bound == 0 then 0
    else CountOffset(bound - 1, range, offset) + (if (bound - 1) % range == offset then 1 else 0)
  }

  /** Within one block of `range` consecutive draws each offset occurs once. */
  lemma {:induction false} CountBlock(q: nat, range: int, offset: int, r: nat)
    requires 0 <= r <= range && 0 <= offset < range
    ensures CountOffset(q * range + r, range, offset)
      == CountOffset(q * range, range, offset) + (if offset < r then 1 else 0)
    decreases r
  {
    if r > 0 {
      CountBlock(q, range, offset, r - 1);
      DivUnique(q * range + (r - 1), range, q, r - 1);
    }
  }

  lemma {:induction false} CountBlocks(q: nat, range: int, offset: int)
    requires 0 <= offset < range
    ensures CountOffset(q * range, range, offset) == q
    decreases q
  {
    if q > 0 {
      CountBlocks(q - 1, range, offset);
      CountBlock(q - 1, range, offset, range);
      assert (q - 1) * range + range == q * range;
    }
  }

  /** Exactly the same number of 64-bit draws is accepted for every offset. */
  lemma UniformDuration(range: int, offset: int)
    requires 0 < range <= MAX_DRAW && 0 <= offset < range
    ensures CountOffset(Limit(range), range, offset) == MAX_DRAW / range >= 1
  {
    var q := MAX_DRAW / range;
    assert Limit(range) == q * range;
    CountBlocks(q, range, offset);
    assert MAX_DRAW == q * range + MAX_DRAW % range;
    MulLt(0, q, range);
  }

  /** The draw that decides: the first that is accepted or could not be made. */
  ghost predicate Decides(draws: seq<Option<nat>>, range: int, i: int)
    requires range > 0
  {
    && 0 <= i < |draws| && (draws[i].None? || AcceptedDraw(draws[i].value, range))
    && forall j :: 0 <= j < i ==> draws[j].Some? && !AcceptedDraw(draws[j].value, range)
  }

  function OffsetOf(draw: Option<nat>, range: int): int
    requires range > 0
  {
    if draw.None? then 0 else draw.value % range
  }

  /** randomDuration, over a list of draws that stands for the random source, with None for a
      draw that failed. The answer comes from the deciding draw, and is min if that one
      failed; there is none as long as every draw is rejected. */
  method RandomDuration(min: int, max: int, draws: seq<Option<nat>>) returns (d: Option<int>)
    requires max - min <= MAX_DRAW
    requires forall i :: 0 <= i < |draws| && draws[i].Some? ==> draws[i].value <= MAX_DRAW
    ensures min >= max ==> d == Some(min)
    ensures min < max && d.Some? ==> min <= d.value < max
    ensures min < max && d.Some? ==>
      exists i :: Decides(draws, max - min, i) && d.value == min + OffsetOf(draws[i], max - min)
    ensures min < max && d.None? ==>
      forall i :: 0 <= i < |draws| ==> draws[i].Some? && !AcceptedDraw(draws[i].value, max - min)
  {
    if min >= max {
      return Some(min);
    }
    var range := max - min;
    var limit := MAX_DRAW - (MAX_DRAW % range);
    var i := 0;
    while i < |draws|
      invariant 0 <= i <= |draws|
      invariant forall j :: 0 <= j < i ==> draws[j].Some? && !AcceptedDraw(draws[j].value, range)
    {
      if draws[i].None? {
        assert Decides(draws, range, i);
        return Some(min);
      }
      if draws[i].value < limit {
        assert Decides(draws, range, i);
        return Some(min + draws[i].value % range);
      }
      i := i + 1;
    }
    return None;
  }

  // ---------------------------------------------------------------- SampleDelay

  datatype Histogram = Histogram(edges: seq<uint32>, bins: seq<uint32>)

  function BinCount(h: Histogram): nat {
    var n := if |h.edges| == 0 then 0 else |h.edges| - 1;
    if |h.bins| < n then |h.bins| else n
  }

  /** Tokens in the first n bins. */
  function Tokens(bins: seq<uint32>, n: nat): nat
    requires n <= |bins|
  {
    if n == 0 then 0 else Tokens(bins, n - 1) + bins[n - 1]
  }

  lemma {:induction false} TokensMonotone(bins: seq<uint32>, m: nat, n: nat)
    requires m <= n <= |bins|
    ensures Tokens(bins, m) <= Tokens(bins, n)
    decreases n - m
  {
    if m < n {
      TokensMonotone(bins, m, n - 1);
    }
  }

  /** The first bin whose running total exceeds the choice. */
  method ChooseBin(h: Histogram, choice: nat) returns (bin: nat)
    requires choice < Tokens(h.bins, BinCount(h))
    ensures bin < BinCount(h)
    ensures InBin(h.bins, bin, choice)
  {
    var weight: nat := 0;
    bin := 0;
    while bin < BinCount(h)
      invariant bin <= BinCount(h)
      invariant weight == Tokens(h.bins, bin) <= choice
    {
      weight := weight + h.bins[bin];
      if weight > choice {
        break;
      }
      bin := bin + 1;
    }
  }

  /** A choice lies in exactly one bin's interval of running totals. */
  lemma BinUnique(bins: seq<uint32>, choice: nat, i: nat, j: nat)
    requires i < |bins| && j < |bins|
    requires InBin(bins, i, choice) && InBin(bins, j, choice)
    ensures i == j
  {
    if i < j {
      TokensMonotone(bins, i + 1, j);
    } else if j < i {
      TokensMonotone(bins, j + 1, i);
    }
  }

  predicate InBin(bins: seq<uint32>, i: nat, choice: nat)
    requires i < |bins|
  {
    Tokens(bins, i) <= choice < Tokens(bins, i + 1)
  }

  /** How many of the choices 0 .. bound-1 lead to bin i. */
  function CountChoices(bins: seq<uint32>, i: nat, bound: nat): nat
    requires i < |bins|
  {
    if bound == 0 then 0
    else CountChoices(bins, i, bound - 1) + (if InBin(bins, i, bound - 1) then 1 else 0)
  }

  lemma {:induction false} CountSoFar(bins: seq<uint32>, i: nat, bound: nat)
    requires i < |bins|
    ensures CountChoices(bins, i, bound) ==
      if bound <= Tokens(bins, i) then 0
      else if bound <= Tokens(bins, i + 1) then bound - Tokens(bins, i)
      else bins[i]
    decreases bound
  {
    if bound > 0 {
      CountSoFar(bins, i, bound - 1);
    }
  }

  /** Of the equally likely choices, exactly as many lead to a bin as it has tokens. */
  lemma ExactWeights(bins: seq<uint32>, n: nat, i: nat)
    requires i < n <= |bins|
    ensures CountChoices(bins, i, Tokens(bins, n)) == bins[i]
  {
    CountSoFar(bins, i, Tokens(bins, n));
    TokensMonotone(bins, i + 1, n);
  }

  datatype Delay = EmptyHistogram | Infinite | Microseconds(usec: nat)

  /** SampleDelay. `choice` and `offset` stand for the two draws, each below the bound it is
      given. The delay lies within the edges of the bin that the choice falls in. */
  method SampleDelay(h: Histogram, choice: nat, offset: nat) returns (d: Delay, ghost bin: nat)
    requires choice < Tokens(h.bins, BinCount(h)) || Tokens(h.bins, BinCount(h)) == 0
    requires forall i: nat :: i < BinCount(h) && InBin(h.bins, i, choice) ==>
      h.edges[i + 1] <= h.edges[i] || offset < h.edges[i + 1] - h.edges[i]
    ensures d == EmptyHistogram <==> |h.edges| < 2 || |h.bins| == 0
    ensures d == Infinite <==> !(|h.edges| < 2 || |h.bins| == 0) && Tokens(h.bins, BinCount(h)) == 0
    ensures d.Microseconds? ==>
      && bin < BinCount(h)
      && InBin(h.bins, bin, choice)
      && (if h.edges[bin] < h.edges[bin + 1] then h.edges[bin] <= d.usec == h.edges[bin] + offset < h.edges[bin + 1]
          else d.usec == h.edges[bin])
  {
    bin := 0;
    if |h.edges| < 2 || |h.bins| == 0 {
      return EmptyHistogram, bin;
    }
    var n := |h.edges| - 1;
    if |h.bins| < n {
      n := |h.bins|;
    }
    var total: nat := 0;
    for i := 0 to n
      invariant total == Tokens(h.bins, i)
    {
      total := total + h.bins[i];
    }
    if total == 0 {
      return Infinite, bin;
    }
    var b := ChooseBin(h, choice);
    var lo, hi := h.edges[b], h.edges[b + 1];
    if hi <= lo {
      return Microseconds(lo), b;
    }
    return Microseconds(lo + offset), b;
  }
}
