/** The timed events of the scheduler and the heap that keeps them ordered by target time. */
module LoopEvents {

  const UINT64_RANGE: int := 0x1_0000_0000_0000_0000

  type Uint64 = n: int | 0 <= n < UINT64_RANGE

  function Wrap64(n: int): Uint64 {
    n % UINT64_RANGE
  }

  /** One entry of the loop's queue. `seqNo` is the clock sample handed back to the caller as a handle;
      `job` stands for the callback, whose body is outside the model. */
  datatype LoopEvent = LoopEvent(
    seqNo: Uint64,
    isRepeat: bool,
    interval: Uint64,
    enqueueTime: Uint64,
    targetTime: Uint64,
    job: nat)
  {
    /** Only a repeating event with a positive interval goes back into the queue. */
    predicate Recurs() {
      isRepeat && interval > 0
    }
  }

  function CreateLoopEvent(now: Uint64, job: nat): LoopEvent {
    LoopEvent(now, false, 0, now, now, job)
  }
}

module EventPriorityQueues {
  import opened LoopEvents

  function Parent(i: nat): nat
    requires i > 0
  {
    (i - 1) / 2
  }

  /** Heap order restricted to the nodes whose parent is at `lo` or later; `lo == 0` is the whole heap. */
  ghost predicate HeapFrom(s: seq<LoopEvent>, lo: nat) {
    forall i | 0 < i < |s| && lo <= Parent(i) :: s[Parent(i)].targetTime <= s[i].targetTime
  }

  ghost predicate IsHeap(s: seq<LoopEvent>) {
    HeapFrom(s, 0)
  }

  /** Heap order everywhere except between `hole` and its parent; the children of `hole` already
      respect its parent. */
  ghost predicate HeapAbove(s: seq<LoopEvent>, hole: nat) {
    && (forall i | 0 < i < |s| && i != hole :: s[Parent(i)].targetTime <= s[i].targetTime)
    && (forall i | 0 < i < |s| && Parent(i) == hole && hole > 0 ::
          s[Parent(hole)].targetTime <= s[i].targetTime)
  }

  /** Heap order from `lo` on, except between `hole` and its children, which already respect the
      parent of `hole`. */
  ghost predicate HeapBelow(s: seq<LoopEvent>, lo: nat, hole: nat) {
    && (forall i | 0 < i < |s| && lo <= Parent(i) && Parent(i) != hole ::
          s[Parent(i)].targetTime <= s[i].targetTime)
    && (forall i | 0 < i < |s| && Parent(i) == hole && hole > 0 && lo <= Parent(hole) ::
          s[Parent(hole)].targetTime <= s[i].targetTime)
  }

  function Swap(s: seq<LoopEvent>, i: nat, j: nat): (r: seq<LoopEvent>)
    requires i < |s| && j < |s|
    ensures multiset(r) == multiset(s)
  {
    s[i := s[j]][j := s[i]]
  }

  /** The root of a heap has the least target time of all entries. */
  lemma {:induction false} RootIsLeast(s: seq<LoopEvent>, i: nat)
    requires IsHeap(s) && i < |s|
    ensures s[0].targetTime <= s[i].targetTime
    decreases i
  {
    if i > 0 {
      RootIsLeast(s, Parent(i));
    }
  }

  lemma RootIsLeastOfAll(s: seq<LoopEvent>)
    requires IsHeap(s) && s != []
    ensures s[0] in multiset(s)
    ensures forall e | e in multiset(s) :: s[0].targetTime <= e.targetTime
  {
    forall e | e in multiset(s) ensures s[0].targetTime <= e.targetTime {
      var i :| 0 <= i < |s| && s[i] == e;
      RootIsLeast(s, i);
    }
  }

  /** A binary heap over a growable vector, as std::priority_queue keeps it, with removal by handle. */
  class EventPriorityQueue {
    var c: seq<LoopEvent>

    ghost predicate Valid()
      reads this
    {
      IsHeap(c)
    }

    ghost function Contents(): multiset<LoopEvent>
      reads this
    {
      multiset(c)
    }

    constructor ()
      ensures Valid() && Contents() == multiset{}
    {
      c := [];
    }

    method Empty() returns (b: bool)
      ensures b <==> Contents() == multiset{}
    {
      b := |c| == 0;
      assert |c| > 0 ==> c[0] in multiset(c);
    }

    method Top() returns (e: LoopEvent)
      requires Valid() && Contents() != multiset{}
      ensures c != [] && e == c[0] && e in Contents()
      ensures forall x | x in Contents() :: e.targetTime <= x.targetTime
    {
      e := c[0];
      RootIsLeastOfAll(c);
    }

    method Push(e: LoopEvent)
      requires Valid()
      modifies this
      ensures Valid() && Contents() == old(Contents()) + multiset{e}
    {
      c := c + [e];
      SiftUp(|c| - 1);
    }

    /** Moves the entry at `start` towards the root until its parent is no later. */
    method SiftUp(start: nat)
      requires start < |c| && HeapAbove(c, start)
      modifies this
      ensures Valid() && Contents() == old(Contents())
    {
      var s := c;
      var hole: nat := start;
      while hole > 0 && s[hole].targetTime < s[Parent(hole)].targetTime
        invariant hole < |s|
        invariant HeapAbove(s, hole)
        invariant multiset(s) == old(Contents())
      {
        RiseStep(s, hole);
        s, hole := Swap(s, hole, Parent(hole)), Parent(hole);
      }
      c := s;
    }

    /** Removes the root: the last entry takes its place and sinks. */
    method Pop()
      requires Valid() && Contents() != multiset{}
      modifies this
      ensures Valid() && old(c) != []
      ensures Contents() == old(Contents()) - multiset{old(c)[0]}
    {
      var last := |c| - 1;
      ghost var was := c;
      var s := Swap(c, 0, last);
      assert s == s[..last] + [s[last]];
      assert s[last] == was[0];
      c := s[..last];
      assert multiset(c) == multiset(was) - multiset{was[0]};
      if |c| > 0 {
        assert HeapBelow(c, 0, 0);
        SiftDown(0, 0);
      }
    }

    /** Moves the entry at `start` away from the root until neither child is earlier. */
    method SiftDown(ghost lo: nat, start: nat)
      requires lo <= start < |c| && HeapBelow(c, lo, start)
      modifies this
      ensures HeapFrom(c, lo) && Contents() == old(Contents())
      ensures |c| == old(|c|)
    {
      var s := c;
      var hole: nat := start;
      var sinking := true;
      while sinking && 2 * hole + 1 < |s|
        invariant lo <= hole < |s| == old(|c|)
        invariant sinking ==> HeapBelow(s, lo, hole)
        invariant !sinking ==> HeapFrom(s, lo)
        invariant multiset(s) == old(Contents())
        decreases sinking, |s| - hole
      {
        var child := EarliestChild(s, hole);
        if s[hole].targetTime <= s[child].targetTime {
          SinkEnds(s, lo, hole, child);
          sinking := false;
        } else {
          SinkStep(s, lo, hole, child);
          s, hole := Swap(s, hole, child), child;
        }
      }
      c := s;
    }

    /** Deletes the first entry carrying the handle and rebuilds the heap; false when there is none. */
    method Remove(seqNo: Uint64) returns (found: bool)
      requires Valid()
      modifies this
      ensures Valid()
      ensures found <==> exists e | e in old(Contents()) :: e.seqNo == seqNo
      ensures !found ==> Contents() == old(Contents())
      ensures found ==> exists e | e in old(Contents()) ::
                e.seqNo == seqNo && Contents() == old(Contents()) - multiset{e}
    {
      var i := 0;
      while i < |c| && c[i].seqNo != seqNo
        invariant i <= |c|
        invariant forall j | 0 <= j < i :: c[j].seqNo != seqNo
      {
        i := i + 1;
      }
      found := i < |c|;
      if found {
        ghost var e := c[i];
        assert c == c[..i] + [e] + c[i + 1..];
        c := c[..i] + c[i + 1..];
        assert Contents() == old(Contents()) - multiset{e};
        MakeHeap();
      }
    }

    /** Restores heap order over the whole vector, deepest parents first. */
    method MakeHeap()
      modifies this
      ensures Valid() && Contents() == old(Contents())
    {
      var i := |c| / 2;
      while i > 0
        invariant 0 <= i <= |c|
        invariant HeapFrom(c, i)
        invariant Contents() == old(Contents())
      {
        i := i - 1;
        SiftDown(i, i);
      }
    }
  }

  /** Swapping an entry with its later parent moves the one place where heap order may fail up. */
  lemma RiseStep(s: seq<LoopEvent>, hole: nat)
    requires 0 < hole < |s| && HeapAbove(s, hole)
    requires s[hole].targetTime < s[Parent(hole)].targetTime
    ensures HeapAbove(Swap(s, hole, Parent(hole)), Parent(hole))
  {
    var p := Parent(hole);
    var t := Swap(s, hole, p);
    forall i | 0 < i < |t| && i != p ensures t[Parent(i)].targetTime <= t[i].targetTime {
      var q := Parent(i);
      assert i != hole ==> s[q].targetTime <= s[i].targetTime;
      assert q == hole ==> s[p].targetTime <= s[i].targetTime;
    }
    forall i | 0 < i < |t| && Parent(i) == p && p > 0 ensures t[Parent(p)].targetTime <= t[i].targetTime {
      assert s[Parent(p)].targetTime <= s[p].targetTime;
      assert i != hole ==> s[p].targetTime <= s[i].targetTime;
    }
  }

  /** Swapping an entry with its earliest child moves the one place where heap order may fail down. */
  lemma SinkStep(s: seq<LoopEvent>, lo: nat, hole: nat, child: nat)
    requires lo <= hole < child < |s|
    requires Parent(child) == hole
    requires HeapBelow(s, lo, hole)
    requires forall i | 0 < i < |s| && Parent(i) == hole :: s[child].targetTime <= s[i].targetTime
    requires s[child].targetTime < s[hole].targetTime
    ensures HeapBelow(Swap(s, hole, child), lo, child)
  {
    var t := Swap(s, hole, child);
    forall i | 0 < i < |t| && lo <= Parent(i) && Parent(i) != child ensures t[Parent(i)].targetTime <= t[i].targetTime {
      var q := Parent(i);
      assert q != hole ==> s[q].targetTime <= s[i].targetTime;
      assert i == hole ==> s[q].targetTime <= s[child].targetTime;
    }
    forall i | 0 < i < |t| && Parent(i) == child ensures t[hole].targetTime <= t[i].targetTime {
      assert s[child].targetTime <= s[i].targetTime;
    }
  }

  lemma SinkEnds(s: seq<LoopEvent>, lo: nat, hole: nat, child: nat)
    requires hole < |s| && child < |s| && HeapBelow(s, lo, hole) && s[hole].targetTime <= s[child].targetTime
    requires forall i | 0 < i < |s| && Parent(i) == hole :: s[child].targetTime <= s[i].targetTime
    ensures HeapFrom(s, lo)
  {
  }

  function EarliestChild(s: seq<LoopEvent>, hole: nat): (child: nat)
    requires 2 * hole + 1 < |s|
    ensures hole < child < |s| && Parent(child) == hole
    ensures forall i | 0 < i < |s| && Parent(i) == hole :: s[child].targetTime <= s[i].targetTime
  {
    var left := 2 * hole + 1;
    assert forall i | 0 < i && Parent(i) == hole :: i == left || i == left + 1;
    if left + 1 < |s| && s[left + 1].targetTime < s[left].targetTime then left + 1 else left
  }
}
