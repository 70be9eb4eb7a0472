/**
 The queue of scheduled executions: a slice-backed binary heap ordered by execution time, with
 the sift-up and sift-down of Go's container/heap written out.
 */
module ScheduleQueue {
  /** Execution times are instants; 0 is Go's zero time. */
  datatype JobScheduleKey = JobScheduleKey(jobId: nat, executionTime: int)

  const ZERO_KEY: JobScheduleKey := JobScheduleKey(0, 0)

  function Parent(i: int): int
    requires i > 0
  {
    (i - 1) / 2
  }

  /** Among the first n slots, no child of a parent at or after `low` is earlier than it, the slot `hole` aside. */
  predicate OrderedBelow(s: seq<JobScheduleKey>, n: nat, low: nat, hole: int)
    requires n <= |s|
  {
    && (forall c :: 0 < c < n && Parent(c) >= low && Parent(c) != hole ==> s[Parent(c)].executionTime <= s[c].executionTime)
    && (forall c :: 0 < c < n && Parent(c) == hole && hole > 0 && Parent(hole) >= low ==> s[Parent(hole)].executionTime <= s[c].executionTime)
  }

  /** The same with the hole looking up: only slot `hole` may be earlier than its parent. */
  predicate OrderedAbove(s: seq<JobScheduleKey>, hole: int) {
    && (forall c :: 0 < c < |s| && c != hole ==> s[Parent(c)].executionTime <= s[c].executionTime)
    && (forall c :: 0 < c < |s| && Parent(c) == hole && hole > 0 ==> s[Parent(hole)].executionTime <= s[c].executionTime)
  }

  predicate IsHeap(s: seq<JobScheduleKey>) {
    forall c :: 0 < c < |s| ==> s[Parent(c)].executionTime <= s[c].executionTime
  }

  lemma {:induction false} RootIsEarliest(s: seq<JobScheduleKey>, i: nat)
    requires IsHeap(s) && i < |s|
    ensures s[0].executionTime <= s[i].executionTime
    decreases i
  {
    if i > 0 {
      RootIsEarliest(s, Parent(i));
    }
  }

  function Swapped(s: seq<JobScheduleKey>, i: nat, j: nat): seq<JobScheduleKey>
    requires i < |s| && j < |s|
  {
    s[i := s[j]][j := s[i]]
  }

  lemma SwappedSame(s: seq<JobScheduleKey>, i: nat, j: nat)
    requires i < |s| && j < |s|
    ensures multiset(Swapped(s, i, j)) == multiset(s)
  {
  }

  class JobHeap {
    var items: seq<JobScheduleKey>

    constructor (items: seq<JobScheduleKey>)
      ensures this.items == items
    {
      this.items := items;
    }

    predicate Less(i: nat, j: nat)
      requires i < |items| && j < |items|
      reads this
    {
      items[i].executionTime < items[j].executionTime
    }

    method Swap(i: nat, j: nat)
      requires i < |items| && j < |items|
      modifies this
      ensures items == Swapped(old(items), i, j)
      ensures multiset(items) == multiset(old(items))
    {
      SwappedSame(items, i, j);
      items := items[i := items[j]][j := items[i]];
    }

    method Up(start: nat)
      requires start < |items| && OrderedAbove(items, start)
      modifies this
      ensures IsHeap(items) && multiset(items) == multiset(old(items))
    {
      var j := start;
      while j > 0 && Less(j, Parent(j))
        invariant 0 <= j < |items| && OrderedAbove(items, j)
        invariant multiset(items) == multiset(old(items))
        decreases j
      {
        var i := Parent(j);
        ghost var before := items;
        Swap(i, j);
        SiftUpStep(before, j);
        j := i;
      }
    }

    method Down(start: nat, n: nat)
      requires start < n <= |items| && OrderedBelow(items, n, start, start)
      modifies this
      ensures |items| == |old(items)| && items[n..] == old(items)[n..]
      ensures OrderedBelow(items, n, start, -1) && multiset(items) == multiset(old(items))
    {
      var i := start;
      while 2 * i + 1 < n
        invariant start <= i < n && |items| == |old(items)|
        invariant OrderedBelow(items, n, start, i)
        invariant multiset(items) == multiset(old(items)) && items[n..] == old(items)[n..]
        decreases n - i
      {
        var j := 2 * i + 1;
        if j + 1 < n && Less(j + 1, j) {
          j := j + 1;
        }
        EarlierChild(items, n, i, j);
        if !Less(j, i) {
          HoleCloses(items, n, start, i);
          return;
        }
        ghost var before := items;
        Swap(i, j);
        SiftDownStep(before, n, start, i, j);
        assert items[n..] == before[n..];
        i := j;
      }
      HoleCloses(items, n, start, i);
    }

    /** heap.Init */
    method Init()
      modifies this
      ensures IsHeap(items) && multiset(items) == multiset(old(items))
    {
      var n := |items|;
      var i := n / 2 - 1;
      while i >= 0
        invariant -1 <= i < n && |items| == n
        invariant OrderedBelow(items, n, i + 1, -1)
        invariant multiset(items) == multiset(old(items))
        decreases i
      {
        assert OrderedBelow(items, n, i, i);
        Down(i, n);
        i := i - 1;
      }
    }

    /** heap.Push */
    method Push(x: JobScheduleKey)
      requires IsHeap(items)
      modifies this
      ensures IsHeap(items) && multiset(items) == multiset(old(items)) + multiset{x}
    {
      items := items + [x];
      Up(|items| - 1);
    }

    /** heap.Pop */
    method Pop() returns (x: JobScheduleKey)
      requires items != [] && IsHeap(items)
      modifies this
      ensures IsHeap(items) && multiset(items) + multiset{x} == multiset(old(items))
      ensures |items| == |old(items)| - 1
      ensures x == old(items)[0] && forall k :: k in old(items) ==> x.executionTime <= k.executionTime
    {
      RootIsLeast(items);
      var n := |items| - 1;
      Swap(0, n);
      if n > 0 {
        LastAside(old(items));
        Down(0, n);
      }
      x := items[n];
      DropLast(items);
      items := items[..n];
    }

    function Peek(): (k: JobScheduleKey)
      requires IsHeap(items)
      reads this
      ensures items == [] ==> k == ZERO_KEY
      ensures items != [] ==> k in items && forall j :: j in items ==> k.executionTime <= j.executionTime
    {
      if items == [] then ZERO_KEY
      else
        RootIsLeast(items);
        items[0]
    }
  }

  lemma RootIsLeast(s: seq<JobScheduleKey>)
    requires IsHeap(s) && s != []
    ensures forall k :: k in s ==> s[0].executionTime <= k.executionTime
  {
    forall k | k in s ensures s[0].executionTime <= k.executionTime {
      var i :| 0 <= i < |s| && s[i] == k;
      RootIsEarliest(s, i);
    }
  }

  /** Swapping the root with the last slot leaves a hole at the root of the other slots. */
  lemma LastAside(s: seq<JobScheduleKey>)
    requires IsHeap(s) && |s| > 1
    ensures OrderedBelow(Swapped(s, 0, |s| - 1), |s| - 1, 0, 0)
  {
  }

  lemma DropLast(s: seq<JobScheduleKey>)
    requires s != [] && OrderedBelow(s, |s| - 1, 0, -1)
    ensures IsHeap(s[..|s| - 1])
    ensures multiset(s[..|s| - 1]) + multiset{s[|s| - 1]} == multiset(s)
  {
    assert s == s[..|s| - 1] + [s[|s| - 1]];
  }

  lemma SiftUpStep(s: seq<JobScheduleKey>, j: nat)
    requires 0 < j < |s| && OrderedAbove(s, j) && s[j].executionTime < s[Parent(j)].executionTime
    ensures OrderedAbove(Swapped(s, Parent(j), j), Parent(j))
  {
    var i := Parent(j);
    var t := Swapped(s, i, j);
    forall c | 0 < c < |t| && c != i ensures t[Parent(c)].executionTime <= t[c].executionTime {
      if c != j && Parent(c) == i {
        assert s[i].executionTime <= s[c].executionTime;
      } else if c != j && Parent(c) == j {
        assert s[i].executionTime <= s[c].executionTime;
      } else if c != j {
        assert t[c] == s[c] && t[Parent(c)] == s[Parent(c)];
      }
    }
    forall c | 0 < c < |t| && Parent(c) == i && i > 0 ensures t[Parent(i)].executionTime <= t[c].executionTime {
      assert s[Parent(i)].executionTime <= s[i].executionTime;
      assert t[Parent(i)] == s[Parent(i)];
      assert c != j ==> s[i].executionTime <= s[c].executionTime;
    }
  }

  lemma EarlierChild(s: seq<JobScheduleKey>, n: nat, i: nat, j: nat)
    requires 2 * i + 1 < n <= |s| && 2 * i + 1 <= j <= 2 * i + 2 && j < n
    requires s[j].executionTime <= s[2 * i + 1].executionTime
    requires 2 * i + 2 < n ==> s[j].executionTime <= s[2 * i + 2].executionTime
    ensures Parent(j) == i
    ensures forall c :: 0 < c < n && Parent(c) == i ==> s[j].executionTime <= s[c].executionTime
  {
  }

  lemma SiftDownStep(s: seq<JobScheduleKey>, n: nat, low: nat, i: nat, j: nat)
    requires n <= |s| && low <= i < j < n && Parent(j) == i && OrderedBelow(s, n, low, i)
    requires s[j].executionTime < s[i].executionTime
    requires forall c :: 0 < c < n && Parent(c) == i ==> s[j].executionTime <= s[c].executionTime
    ensures OrderedBelow(Swapped(s, i, j), n, low, j)
  {
  }

  lemma HoleCloses(s: seq<JobScheduleKey>, n: nat, low: nat, i: nat)
    requires n <= |s| && OrderedBelow(s, n, low, i)
    requires forall c :: 0 < c < n && Parent(c) == i ==> s[i].executionTime <= s[c].executionTime
    ensures OrderedBelow(s, n, low, -1)
  {
  }

  class ScheduleQueue {
    var jobs: JobHeap

    predicate Valid()
      reads this, jobs
    {
      IsHeap(jobs.items) && forall k :: k in jobs.items ==> k.jobId != 0 && k.executionTime != 0
    }

    /** The queue as a multiset of keys. */
    ghost function Contents(): multiset<JobScheduleKey>
      reads this, jobs
    {
      multiset(jobs.items)
    }

    constructor ()
      ensures Valid() && fresh(jobs) && Contents() == multiset{}
    {
      jobs := new JobHeap([]);
    }

    /** A zero id or time makes the source panic; nothing is added then. */
    method AddJob(job: JobScheduleKey) returns (panicked: bool)
      requires Valid()
      modifies jobs
      ensures Valid()
      ensures panicked <==> job.jobId == 0 || job.executionTime == 0
      ensures Contents() == if panicked then old(Contents()) else old(Contents()) + multiset{job}
    {
      if job.jobId == 0 || job.executionTime == 0 {
        return true;
      }
      ghost var before := jobs.items;
      jobs.Push(job);
      SameMembers(jobs.items, before, job);
      return false;
    }

    /** Every key with the given job id goes, every other one stays as often as it was. */
    method RemoveJob(job: JobScheduleKey)
      requires Valid()
      modifies this, jobs
      ensures Valid() && fresh(jobs)
      ensures forall k :: Contents()[k] == if k.jobId == job.jobId then 0 else old(Contents())[k]
    {
      var newHeap := new JobHeap([]);
      newHeap.Init();
      ghost var all := multiset(jobs.items);
      while |jobs.items| > 0
        invariant jobs == old(jobs) && fresh(newHeap) && newHeap != jobs
        invariant IsHeap(jobs.items) && IsHeap(newHeap.items)
        invariant forall k :: multiset(newHeap.items)[k] + multiset(jobs.items)[k]
                              == if k.jobId == job.jobId then multiset(jobs.items)[k] else all[k]
        decreases |jobs.items|
      {
        ghost var kept, left := newHeap.items, jobs.items;
        var j := jobs.Pop();
        assert multiset(left) == multiset(jobs.items) + multiset{j};
        if j.jobId != job.jobId {
          newHeap.Push(j);
        }
      }
      jobs := newHeap;
      forall k | k in jobs.items ensures k.jobId != 0 && k.executionTime != 0 {
        assert k in multiset(jobs.items);
        assert k in all;
      }
    }

    method Pop() returns (k: JobScheduleKey)
      requires Valid()
      modifies jobs
      ensures Valid()
      ensures k == ZERO_KEY <==> old(Contents()) == multiset{}
      ensures old(Contents()) == multiset{} ==> Contents() == multiset{}
      ensures old(Contents()) != multiset{} ==>
                && k in old(Contents()) && Contents() == old(Contents()) - multiset{k}
                && (forall j :: j in old(Contents()) ==> k.executionTime <= j.executionTime)
    {
      if |jobs.items| == 0 {
        return ZERO_KEY;
      }
      ghost var before := jobs.items;
      k := jobs.Pop();
      assert k in before;
      SameMembers(before, jobs.items, k);
      assert k in multiset(before);
    }

    method Peek() returns (k: JobScheduleKey)
      requires Valid()
      ensures k == ZERO_KEY <==> Contents() == multiset{}
      ensures Contents() != multiset{} ==> k in Contents() && forall j :: j in Contents() ==> k.executionTime <= j.executionTime
    {
      k := jobs.Peek();
      assert jobs.items != [] ==> jobs.items[0] in multiset(jobs.items);
    }

    method Len() returns (n: nat)
      ensures n == |Contents()|
    {
      n := |jobs.items|;
    }

    method Clear()
      modifies this
      ensures Valid() && fresh(jobs) && Contents() == multiset{}
    {
      jobs := new JobHeap([]);
      jobs.Init();
    }

    /** The keys in time order, taken from a copy: the queue itself is only read. */
    method GetAllItems() returns (result: seq<JobScheduleKey>)
      requires Valid()
      ensures multiset(result) == Contents() && InTimeOrder(result)
    {
      var tempHeap := new JobHeap(jobs.items);
      tempHeap.Init();
      result := [];
      while |tempHeap.items| > 0
        invariant fresh(tempHeap) && IsHeap(tempHeap.items)
        invariant multiset(result) + multiset(tempHeap.items) == multiset(jobs.items)
        invariant InTimeOrder(result)
        invariant forall a, b :: a in result && b in tempHeap.items ==> a.executionTime <= b.executionTime
        decreases |tempHeap.items|
      {
        ghost var before := tempHeap.items;
        var k := tempHeap.Pop();
        SameMembers(before, tempHeap.items, k);
        assert k in before;
        result := result + [k];
      }
    }
  }

  lemma SameMembers(whole: seq<JobScheduleKey>, part: seq<JobScheduleKey>, x: JobScheduleKey)
    requires multiset(whole) == multiset(part) + multiset{x}
    ensures forall k :: k in whole <==> k in part || k == x
  {
    forall k ensures k in whole <==> k in part || k == x {
      assert k in whole <==> k in multiset(whole);
      assert k in part <==> k in multiset(part);
    }
  }

  predicate InTimeOrder(s: seq<JobScheduleKey>) {
    forall i, j :: 0 <= i < j < |s| ==> s[i].executionTime <= s[j].executionTime
  }
}
