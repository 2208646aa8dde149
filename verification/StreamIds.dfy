/** The stream-ID allocator of a circuit: a cyclic search over 1..65535. */
module StreamIds {
  import opened Arith
  import opened Bytes

  const IDS := 65535

  /** The k-th ID at or after `start`, wrapping past 65535 to 1. */
  function Cyclic(start: int, k: nat): (id: int)
    requires 1 <= start <= IDS
    ensures 1 <= id <= IDS
    ensures k < IDS && start + k <= IDS ==> id == start + k
    ensures k < IDS && start + k > IDS ==> id == start + k - IDS
  {
    (start - 1 + k) % IDS + 1
  }

  ghost predicate IdSet(used: set<uint16>) {
    forall id :: id in used ==> 1 <= id <= IDS
  }

  /** Every ID is within one turn of `start`. */
  lemma CyclicCovers(start: int, id: int) returns (k: nat)
    requires 1 <= start <= IDS && 1 <= id <= IDS
    ensures k < IDS && Cyclic(start, k) == id
  {
    k := if id >= start then id - start else id - start + IDS;
  }

  function Cursor(next: uint16): uint16 {
    if next == 0 then 1 else next
  }

  /** `id` is free, and every ID from `start` up to it is taken. */
  ghost predicate FirstFree(start: int, used: set<uint16>, id: int)
    requires 1 <= start <= IDS
  {
    exists k: nat :: k < IDS && Cyclic(start, k) == id && id !in used && forall j: nat :: j < k ==> Cyclic(start, j) in used
  }

  /** One allocation, from one used set to the next. */
  ghost predicate Allocates(used: set<uint16>, id: Option<uint16>, used': set<uint16>) {
    match id
    case None => used' == used && forall i :: 1 <= i <= IDS ==> i in used
    case Some(n) => 1 <= n && n !in used && used' == used + {n}
  }

  class StreamIds {
    var next: uint16
    var used: set<uint16>

    constructor ()
      ensures next == 1 && used == {}
    {
      next, used := 1, {};
    }

    /** AllocateStreamID. It fails exactly when every ID from 1 to 65535 is in use; otherwise
        the ID returned is free, and is the first free one at or after the cursor. */
    method Allocate() returns (id: Option<uint16>)
      requires IdSet(used)
      modifies this
      ensures IdSet(used) && next >= 1
      ensures Allocates(old(used), id, used)
      ensures id.None? ==> next == Cursor(old(next))
      ensures id.Some? ==> next == Cyclic(id.value, 1) && FirstFree(Cursor(old(next)), old(used), id.value)
    {
      if next == 0 {
        next := 1;
      }
      var start := next;
      ghost var k: nat := 0;
      while true
        invariant k < IDS && start >= 1
        invariant next == Cyclic(start, k)
        invariant used == old(used)
        invariant forall j: nat :: j < k ==> Cyclic(start, j) in used
        decreases IDS - k
      {
        var cand := next;
        next := (next + 1) % 0x10000;
        if next == 0 {
          next := 1;
        }
        if cand in used {
          if next == start {
            assert k == IDS - 1;
            forall i | 1 <= i <= IDS
              ensures i in used
            {
              var j := CyclicCovers(start, i);
            }
            return None;
          }
          k := k + 1;
          continue;
        }
        used := used + {cand};
        return Some(cand);
      }
    }

    /** ReleaseStreamID */
    method Release(id: uint16)
      requires IdSet(used)
      modifies this`used
      ensures IdSet(used) && used == old(used) - {id}
    {
      if id == 0 {
        return;
      }
      used := used - {id};
    }
  }

  // ---------------------------------------------------------------- runs

  /** A history of allocations, with the IDs they gave and the releases between them. */
  datatype Op = Alloc(id: Option<uint16>) | Free(freed: uint16)

  ghost predicate OpStep(used: set<uint16>, op: Op, used': set<uint16>) {
    match op
    case Alloc(id) => Allocates(used, id, used')
    case Free(id) => used' == used - {id}
  }

  /** states[i] is the used set before ops[i]. */
  ghost predicate History(states: seq<set<uint16>>, ops: seq<Op>) {
    && |states| == |ops| + 1
    && states[0] == {}
    && forall i :: 0 <= i < |ops| ==> OpStep(states[i], ops[i], states[i + 1])
  }

  lemma {:induction false} HistoryIds(states: seq<set<uint16>>, ops: seq<Op>, k: nat)
    requires History(states, ops) && k < |states|
    ensures IdSet(states[k])
  {
    if k > 0 {
      HistoryIds(states, ops, k - 1);
      assert OpStep(states[k - 1], ops[k - 1], states[k]);
    }
  }

  /** Over any run of allocations and releases: an allocation fails exactly when 65535 IDs
      are out, and an ID handed out twice was released in between. */
  lemma StreamIdHistory(states: seq<set<uint16>>, ops: seq<Op>, i: nat)
    requires History(states, ops) && i < |ops| && ops[i].Alloc?
    ensures ops[i].id.None? <==> |states[i]| == IDS
    ensures forall j :: 0 <= j < i && ops[j].Alloc? && ops[j].id.Some? && ops[j].id == ops[i].id ==>
      exists m :: j < m < i && ops[m] == Free(ops[j].id.value)
  {
    HistoryIds(states, ops, i);
    IntervalSize(states[i], 1, IDS + 1);
    assert OpStep(states[i], ops[i], states[i + 1]);
    forall j | 0 <= j < i && ops[j].Alloc? && ops[j].id.Some? && ops[j].id == ops[i].id
      ensures exists m :: j < m < i && ops[m] == Free(ops[j].id.value)
    {
      assert OpStep(states[j], ops[j], states[j + 1]);
      LostMeansFreed(states, ops, j + 1, i, ops[j].id.value);
    }
  }

  lemma {:induction false} LostMeansFreed(states: seq<set<uint16>>, ops: seq<Op>, lo: nat, hi: nat, id: uint16)
    requires History(states, ops) && lo <= hi <= |ops|
    requires id in states[lo] && id !in states[hi]
    ensures exists m :: lo <= m < hi && ops[m] == Free(id)
    decreases hi - lo
  {
    assert lo < hi;
    assert OpStep(states[lo], ops[lo], states[lo + 1]);
    if id in states[lo + 1] {
      LostMeansFreed(states, ops, lo + 1, hi, id);
    } else {
      assert ops[lo] == Free(id);
    }
  }
}
