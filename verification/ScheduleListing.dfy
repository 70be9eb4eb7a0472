/** Why a listing of the schedule queue is determined by its contents. */
module ScheduleListing {
  import opened Collections
  import opened ScheduleQueue

  function Times(s: seq<JobScheduleKey>): (t: seq<int>)
    ensures |t| == |s| && forall i :: 0 <= i < |s| ==> t[i] == s[i].executionTime
  {
    seq(|s|, i requires 0 <= i < |s| => s[i].executionTime)
  }

  function Without<T>(s: seq<T>, j: nat): (rest: seq<T>)
    requires j < |s|
    ensures |rest| == |s| - 1
  {
    s[..j] + s[j + 1..]
  }

  lemma TimesWithout(s: seq<JobScheduleKey>, j: nat)
    requires j < |s|
    ensures Times(Without(s, j)) == Without(Times(s), j)
  {
  }

  lemma Cancel<T>(a: multiset<T>, b: multiset<T>, x: T)
    requires a + multiset{x} == b + multiset{x}
    ensures a == b
  {
    assert a == (a + multiset{x}) - multiset{x};
    assert b == (b + multiset{x}) - multiset{x};
  }

  /** Taking the same element out of both leaves the same elements, and putting it back does. */
  lemma SameWithout<T>(a: seq<T>, i: nat, b: seq<T>, j: nat)
    requires i < |a| && j < |b| && a[i] == b[j]
    ensures multiset(a) == multiset(b) <==> multiset(Without(a, i)) == multiset(Without(b, j))
  {
    SplitAt(a, i);
    SplitAt(b, j);
    if multiset(a) == multiset(b) {
      Cancel(multiset(Without(a, i)), multiset(Without(b, j)), a[i]);
    }
  }

  lemma {:induction false} SameTimes(a: seq<JobScheduleKey>, b: seq<JobScheduleKey>)
    requires multiset(a) == multiset(b)
    ensures multiset(Times(a)) == multiset(Times(b))
    decreases |a|
  {
    assert |multiset(a)| == |multiset(b)|;
    if a != [] {
      assert a[0] in multiset(b);
      var j :| 0 <= j < |b| && b[j] == a[0];
      SameWithout(a, 0, b, j);
      SameTimes(Without(a, 0), Without(b, j));
      TimesWithout(a, 0);
      TimesWithout(b, j);
      SameWithout(Times(a), 0, Times(b), j);
    }
  }

  predicate Ascending(t: seq<int>) {
    forall i, j :: 0 <= i < j < |t| ==> t[i] <= t[j]
  }

  lemma FirstIsLeast(a: seq<int>, b: seq<int>)
    requires a != [] && b != [] && Ascending(b) && multiset(a) == multiset(b)
    ensures b[0] <= a[0]
  {
    assert a[0] in multiset(b);
    var i :| 0 <= i < |b| && b[i] == a[0];
  }

  lemma RestSame(a: seq<int>, b: seq<int>)
    requires a != [] && b != [] && a[0] == b[0] && multiset(a) == multiset(b)
    ensures multiset(a[1..]) == multiset(b[1..])
  {
    assert a == [a[0]] + a[1..] && b == [b[0]] + b[1..];
    assert multiset(a[1..]) == multiset(a) - multiset{a[0]};
    assert multiset(b[1..]) == multiset(b) - multiset{b[0]};
  }

  lemma {:induction false} AscendingUnique(a: seq<int>, b: seq<int>)
    requires Ascending(a) && Ascending(b) && multiset(a) == multiset(b)
    ensures a == b
    decreases |a|
  {
    assert |multiset(a)| == |multiset(b)|;
    if a != [] {
      FirstIsLeast(a, b);
      FirstIsLeast(b, a);
      RestSame(a, b);
      AscendingUnique(a[1..], b[1..]);
      assert a == [a[0]] + a[1..] && b == [b[0]] + b[1..];
    }
  }

  /**
   The contents determine the listed times: two listings of one multiset agree on every time,
   however ties between keys were broken.
   */
  lemma ListingUnique(a: seq<JobScheduleKey>, b: seq<JobScheduleKey>)
    requires InTimeOrder(a) && InTimeOrder(b) && multiset(a) == multiset(b)
    ensures Times(a) == Times(b)
  {
    SameTimes(a, b);
    AscendingUnique(Times(a), Times(b));
  }
}
