/** Result and option types, sums over sequences that are updated one slot at a time, and iterated steps. */
module Collections {

  datatype Option<+T> = None | Some(value: T)

  datatype Result<+T, +E> = Ok(value: T) | Err(error: E)

  /** The union of what every slot of a sequence holds. */
  function Gather<A, T>(slots: seq<A>, f: A -> multiset<T>): multiset<T> {
    if slots == [] then multiset{} else f(slots[0]) + Gather(slots[1..], f)
  }

  lemma {:induction false} GatherUpdate<A, T>(slots: seq<A>, i: nat, a: A, f: A -> multiset<T>)
    requires i < |slots|
    ensures Gather(slots[i := a], f) + f(slots[i]) == Gather(slots, f) + f(a)
    ensures f(slots[i]) <= Gather(slots, f)
  {
    var updated := slots[i := a];
    if i == 0 {
      assert updated[1..] == slots[1..];
    } else {
      assert updated[1..] == slots[1..][i - 1 := a];
      GatherUpdate(slots[1..], i - 1, a, f);
      var head, before, after := f(slots[0]), Gather(slots[1..], f), Gather(updated[1..], f);
      assert (head + after) + f(slots[i]) == head + (after + f(slots[i]));
      assert head + (before + f(a)) == (head + before) + f(a);
    }
  }

  /** The same update, counted for one element. */
  lemma GatherUpdateAt<A, T>(slots: seq<A>, i: nat, a: A, f: A -> multiset<T>, x: T)
    requires i < |slots|
    ensures Gather(slots[i := a], f)[x] + f(slots[i])[x] == Gather(slots, f)[x] + f(a)[x]
    ensures f(slots[i])[x] <= Gather(slots, f)[x]
  {
    GatherUpdate(slots, i, a, f);
    var before, after := Gather(slots, f) + f(a), Gather(slots[i := a], f) + f(slots[i]);
    assert before[x] == after[x];
  }

  lemma {:induction false} GatherAppend<A, T>(slots: seq<A>, a: A, f: A -> multiset<T>)
    ensures Gather(slots + [a], f) == Gather(slots, f) + f(a)
  {
    if slots == [] {
      assert ([a])[1..] == [];
    } else {
      assert (slots + [a])[1..] == slots[1..] + [a];
      GatherAppend(slots[1..], a, f);
    }
  }

  lemma {:induction false} GatherEmpty<A, T>(slots: seq<A>, f: A -> multiset<T>)
    requires forall i :: 0 <= i < |slots| ==> f(slots[i]) == multiset{}
    ensures Gather(slots, f) == multiset{}
  {
    if slots != [] {
      GatherEmpty(slots[1..], f);
    }
  }

  lemma SameCounts<T(!new)>(a: multiset<T>, b: multiset<T>)
    requires forall x: T :: a[x] == b[x]
    ensures a == b
  {
  }

  /** What taking the first element off a queue does to the count of x. */
  lemma PopCount<T>(s: seq<T>, x: T)
    requires s != []
    ensures multiset(s)[x] == multiset(s[1..])[x] + if x == s[0] then 1 else 0
  {
    assert s == [s[0]] + s[1..];
  }

  lemma {:induction false} GatherSize<A, T>(slots: seq<A>, f: A -> multiset<T>)
    requires forall i :: 0 <= i < |slots| ==> |f(slots[i])| <= 1
    ensures |Gather(slots, f)| <= |slots|
  {
    if slots != [] {
      GatherSize(slots[1..], f);
    }
  }

  /** The sum of a weight over every slot. */
  function Total<A>(slots: seq<A>, f: A -> nat): nat {
    if slots == [] then 0 else f(slots[0]) + Total(slots[1..], f)
  }

  lemma {:induction false} TotalUpdate<A>(slots: seq<A>, i: nat, a: A, f: A -> nat)
    requires i < |slots|
    ensures Total(slots[i := a], f) + f(slots[i]) == Total(slots, f) + f(a)
  {
    var updated := slots[i := a];
    if i == 0 {
      assert updated[1..] == slots[1..];
    } else {
      assert updated[1..] == slots[1..][i - 1 := a];
      TotalUpdate(slots[1..], i - 1, a, f);
    }
  }

  lemma {:induction false} TotalZero<A>(slots: seq<A>, f: A -> nat)
    requires forall i :: 0 <= i < |slots| ==> f(slots[i]) == 0
    ensures Total(slots, f) == 0
  {
    if slots != [] {
      TotalZero(slots[1..], f);
    }
  }

  /** A sequence of distinct numbers below n has at most n elements. */
  lemma {:induction false} DistinctBelow(s: seq<nat>, n: nat)
    requires forall k :: k in s ==> k < n
    requires forall k :: k in s ==> multiset(s)[k] == 1
    ensures |s| <= n
  {
    if s == [] {
    } else if n - 1 !in s {
      assert s[0] in s;
      DistinctBelow(s, n - 1);
    } else {
      var i :| 0 <= i < |s| && s[i] == n - 1;
      var rest := s[..i] + s[i + 1..];
      SplitAt(s, i);
      forall k | k in rest ensures k < n - 1 && multiset(rest)[k] == 1 {
        assert k in multiset(rest);
        assert k in s;
      }
      DistinctBelow(rest, n - 1);
    }
  }

  lemma SplitAt<T>(s: seq<T>, i: nat)
    requires i < |s|
    ensures multiset(s) == multiset(s[..i] + s[i + 1..]) + multiset{s[i]}
    ensures |s| == |s[..i] + s[i + 1..]| + 1
    ensures forall x :: x in s[..i] + s[i + 1..] ==> x in s
  {
    assert s == s[..i] + [s[i]] + s[i + 1..];
  }

  // Iterating a step function.

  function Iterate(step: int -> int, t: int, k: nat): int {
    if k == 0 then t else step(Iterate(step, t, k - 1))
  }

  ghost predicate Spreads(step: int -> int, low: int, high: int) {
    forall x :: low <= step(x) - x <= high
  }

  lemma {:induction false} IterateSpread(step: int -> int, low: int, high: int, t: int, j: nat, k: nat)
    requires j <= k && Spreads(step, low, high)
    ensures low * (k - j) <= Iterate(step, t, k) - Iterate(step, t, j) <= high * (k - j)
    decreases k
  {
    if j < k {
      IterateSpread(step, low, high, t, j, k - 1);
      assert low * (k - j) == low * (k - 1 - j) + low;
      assert high * (k - j) == high * (k - 1 - j) + high;
    }
  }

  lemma FitsInto(n: nat, d: int, x: int)
    requires d > 0 && d * n <= x
    ensures n <= x / d
  {
    var q := x / d;
    assert x < (q + 1) * d;
    Ordered(d, n, q + 1);
  }

  /** Multiples of d are ordered as their factors. */
  lemma Ordered(d: int, a: int, b: int)
    requires d > 0
    ensures a * d < b * d <==> a < b
  {
  }

  lemma QuotientIs(x: int, d: int, q: int)
    requires d > 0 && q * d <= x < (q + 1) * d
    ensures x / d == q
  {
    var f := x / d;
    assert f * d <= x < (f + 1) * d;
    Ordered(d, q, f + 1);
    Ordered(d, f, q + 1);
  }

  lemma {:induction false} IterateShift(step: int -> int, t: int, j: nat, k: nat)
    ensures Iterate(step, Iterate(step, t, j), k) == Iterate(step, t, j + k)
    decreases k
  {
    if k > 0 {
      IterateShift(step, t, j, k - 1);
    }
  }

  lemma {:induction false} IterateGrows(step: int -> int, t: int, j: nat, k: nat)
    requires j <= k && forall x :: step(x) > x
    ensures Iterate(step, t, j) <= Iterate(step, t, k)
    decreases k
  {
    if j < k {
      IterateGrows(step, t, j, k - 1);
    }
  }

  lemma IterateAround(step: int -> int, t: int, j: nat, k: nat, x: int)
    requires forall y :: step(y) > y
    requires Iterate(step, t, j) <= x < Iterate(step, t, j + 1)
    requires Iterate(step, t, k) <= x < Iterate(step, t, k + 1)
    ensures j == k
  {
    if j < k {
      IterateGrows(step, t, j + 1, k);
    } else if k < j {
      IterateGrows(step, t, k + 1, j);
    }
  }
}
