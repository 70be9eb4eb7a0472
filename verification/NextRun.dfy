/** When a job runs next: the catch-up walk along its schedule from the last run to the present. */
module NextRun {
  import opened Collections

  /** Dates are instants, 0 being Go's zero time; a job's timezone only matters for being loadable. */
  datatype Job = Job(spec: string, startDate: int, lastExecutionDate: int, timezone: string)

  datatype Error = NoStartDate | BadSpec | BadTimezone

  /** The cron parser and the timezone database. A schedule maps an instant to its next tick. */
  datatype Environment = Environment(parse: string -> Option<int -> int>, knownZone: string -> bool)

  /** r is the first element of the chain seed, next(seed), ... that lies after `now`. */
  ghost predicate FirstAfter(next: int -> int, seed: int, now: int, r: int) {
    exists k: nat :: r == Iterate(next, seed, k) && r > now && forall j: nat :: j < k ==> Iterate(next, seed, j) <= now
  }

  /** The chain from `seed` passes `now`. */
  ghost predicate Passes(next: int -> int, seed: int, now: int) {
    exists k: nat :: Iterate(next, seed, k) > now
  }

  /** The job has a recurring schedule and is past its first run, or has no start date. */
  predicate CatchesUp(env: Environment, job: Job) {
    && job.spec != "" && env.parse(job.spec).Some? && env.knownZone(job.timezone)
    && (job.lastExecutionDate != 0 || job.startDate == 0)
  }

  /** The walk of a job that catches up ends exactly if its chain passes now; every other job needs no walk. */
  method GetNextExecutionTime(env: Environment, job: Job, now: int) returns (r: Result<int, Error>)
    requires CatchesUp(env, job) ==> Passes(env.parse(job.spec).value, if job.lastExecutionDate != 0 then job.lastExecutionDate else now, now)
    ensures job.spec == "" ==>
              r == if job.startDate == 0 then Err(NoStartDate)
                   else if job.lastExecutionDate != 0 then Ok(0)
                   else if env.knownZone(job.timezone) then Ok(job.startDate) else Err(BadTimezone)
    ensures job.spec != "" ==>
              && (r == Err(BadSpec) <==> env.parse(job.spec).None?)
              && (r == Err(BadTimezone) <==> env.parse(job.spec).Some? && !env.knownZone(job.timezone))
              && r != Err(NoStartDate)
    ensures job.spec != "" && r.Ok? && !CatchesUp(env, job) ==> r.value == job.startDate
    ensures CatchesUp(env, job) ==>
              r.Ok? && FirstAfter(env.parse(job.spec).value, if job.lastExecutionDate != 0 then job.lastExecutionDate else now, now, r.value)
  {
    if job.spec == "" {
      if job.startDate == 0 {
        return Err(NoStartDate);
      }
      if job.lastExecutionDate != 0 {
        return Ok(0);
      }
      if !env.knownZone(job.timezone) {
        return Err(BadTimezone);
      }
      return Ok(job.startDate);
    }
    var schedule := env.parse(job.spec);
    if schedule.None? {
      return Err(BadSpec);
    }
    if !env.knownZone(job.timezone) {
      return Err(BadTimezone);
    }
    if job.lastExecutionDate == 0 && job.startDate != 0 {
      return Ok(job.startDate);
    }
    var next := schedule.value;
    var currentTime := now;
    if job.lastExecutionDate != 0 {
      currentTime := job.lastExecutionDate;
    }
    ghost var seed := currentTime;
    ghost var n: nat :| Iterate(next, seed, n) > now;
    ghost var k: nat := 0;
    while !(currentTime > now)
      invariant currentTime == Iterate(next, seed, k)
      invariant forall j: nat :: j < k ==> Iterate(next, seed, j) <= now
      decreases n - k
    {
      currentTime := next(currentTime);
      k := k + 1;
    }
    return Ok(currentTime);
  }

  /** The walk's result is determined: there is one first chain element after now. */
  lemma FirstAfterUnique(next: int -> int, seed: int, now: int, a: int, b: int)
    requires FirstAfter(next, seed, now, a) && FirstAfter(next, seed, now, b)
    ensures a == b
  {
    var j: nat :| a == Iterate(next, seed, j) && forall i: nat :: i < j ==> Iterate(next, seed, i) <= now;
    var k: nat :| b == Iterate(next, seed, k) && forall i: nat :: i < k ==> Iterate(next, seed, i) <= now;
    assert j == k;
  }

  // When the walk ends.

  /** What is taken of the cron library: a schedule moves forward, or answers the zero time when it finds no tick within five years. */
  ghost predicate CronLike(next: int -> int) {
    forall x :: next(x) > x || next(x) == 0
  }

  /** The chain comes to the zero time before it passes now. */
  ghost predicate RunsDry(next: int -> int, seed: int, now: int) {
    exists k: nat :: DryAt(next, seed, now, k)
  }

  ghost predicate DryAt(next: int -> int, seed: int, now: int, k: nat) {
    k > 0 && Iterate(next, seed, k) == 0 && forall j: nat :: j <= k ==> Iterate(next, seed, j) <= now
  }

  /** As long as the chain neither passes now nor comes to zero it climbs. */
  lemma {:induction false} Climbs(next: int -> int, seed: int, now: int, k: nat)
    requires CronLike(next) && !RunsDry(next, seed, now)
    requires forall j: nat :: j <= k ==> Iterate(next, seed, j) <= now
    ensures Iterate(next, seed, k) >= seed + k
    decreases k
  {
    if k > 0 {
      Climbs(next, seed, now, k - 1);
      assert !DryAt(next, seed, now, k);
    }
  }

  lemma NotDryPasses(next: int -> int, seed: int, now: int)
    requires CronLike(next) && !RunsDry(next, seed, now)
    ensures Passes(next, seed, now)
  {
    if !Passes(next, seed, now) {
      Climbs(next, seed, now, if now < seed then 0 else now - seed + 1);
    }
  }

  /** A chain that comes back to zero from zero goes round for ever. */
  lemma {:induction false} ZeroAgain(next: int -> int, now: int, m: nat, n: nat)
    requires DryAt(next, 0, now, m)
    ensures Iterate(next, 0, n) <= now
    decreases n
  {
    if n > m {
      IterateShift(next, 0, m, n - m);
      ZeroAgain(next, now, m, n - m);
    }
  }

  lemma StaysDry(next: int -> int, seed: int, now: int, k: nat, m: nat, n: nat)
    requires DryAt(next, seed, now, k) && DryAt(next, 0, now, m)
    ensures Iterate(next, seed, n) <= now
  {
    if n > k {
      IterateShift(next, seed, k, n - k);
      ZeroAgain(next, now, m, n - k);
    }
  }

  /**
   The walk ends exactly if the chain passes now before it comes to the zero time, or else the chain
   that starts over from the zero time does.
   */
  lemma EndsExactly(next: int -> int, seed: int, now: int)
    requires CronLike(next)
    ensures Passes(next, seed, now) <==> !RunsDry(next, seed, now) || !RunsDry(next, 0, now)
  {
    if !RunsDry(next, seed, now) {
      NotDryPasses(next, seed, now);
    } else {
      var k: nat :| DryAt(next, seed, now, k);
      if !RunsDry(next, 0, now) {
        NotDryPasses(next, 0, now);
        var m: nat :| Iterate(next, 0, m) > now;
        IterateShift(next, seed, k, m);
      } else {
        var m: nat :| DryAt(next, 0, now, m);
        forall n: nat ensures Iterate(next, seed, n) <= now {
          StaysDry(next, seed, now, k, m, n);
        }
      }
    }
  }

  /** A schedule that answers the zero time from the zero time gets no second chance. */
  lemma EndsWithoutTicksAtZero(next: int -> int, seed: int, now: int)
    requires CronLike(next) && next(0) == 0 && now >= 0
    ensures Passes(next, seed, now) <==> !RunsDry(next, seed, now)
  {
    EndsExactly(next, seed, now);
    assert Iterate(next, 0, 0) == 0 && Iterate(next, 0, 1) == 0;
    assert DryAt(next, 0, now, 1);
  }

  /** The input: 30 February parses and never ticks, so that for a job that ran, or has no start date, the walk never ends. */
  lemma NeverTicks(seed: int, now: int)
    requires 0 <= now && seed <= now
    ensures !Passes(x => 0, seed, now)
  {
    var never := x => 0;
    assert Iterate(never, seed, 0) == seed && Iterate(never, seed, 1) == 0;
    assert DryAt(never, seed, now, 1);
    EndsWithoutTicksAtZero(never, seed, now);
  }

  // What the walk finds.

  /** From low to high the schedule finds the least of the instants `tick` after its argument. */
  ghost predicate LeastTickAfter(next: int -> int, tick: int -> bool, low: int, high: int) {
    forall x :: low <= x <= high ==> next(x) > x && tick(next(x)) && forall y :: x < y < next(x) ==> !tick(y)
  }

  lemma {:induction false} NeverBehindSeed(next: int -> int, tick: int -> bool, seed: int, now: int, k: nat)
    requires LeastTickAfter(next, tick, seed, now) && seed <= now
    requires forall j: nat :: j < k ==> Iterate(next, seed, j) <= now
    ensures seed <= Iterate(next, seed, k)
    decreases k
  {
    if k > 0 {
      NeverBehindSeed(next, tick, seed, now, k - 1);
    }
  }

  /** Then walking there from an earlier seed gives what asking for the tick after now would. */
  lemma WalkIsNextOfNow(next: int -> int, tick: int -> bool, seed: int, now: int, r: int)
    requires LeastTickAfter(next, tick, seed, now) && seed <= now && FirstAfter(next, seed, now, r)
    ensures r == next(now)
  {
    var k: nat :| r == Iterate(next, seed, k) && r > now && forall j: nat :: j < k ==> Iterate(next, seed, j) <= now;
    assert k > 0;
    NeverBehindSeed(next, tick, seed, now, k - 1);
    var before := Iterate(next, seed, k - 1);
    assert seed <= before <= now < next(before) == r;
    assert tick(r) && tick(next(now));
    assert !(r < next(now)) && !(next(now) < r);
  }

  lemma {:induction false} IterateDelay(d: int, seed: int, k: nat)
    ensures Iterate(x => x + d, seed, k) == seed + k * d
  {
    if k > 0 {
      IterateDelay(d, seed, k - 1);
      assert k * d == (k - 1) * d + d;
    }
  }

  /** With a fixed delay d the walk from `last` lands on last + (floor((now - last) / d) + 1) * d. */
  lemma WalkWithFixedDelay(d: int, last: int, now: int, r: int)
    requires d > 0 && last <= now && FirstAfter(x => x + d, last, now, r)
    ensures r == last + ((now - last) / d + 1) * d
  {
    var step := x => x + d;
    var k: nat :| r == Iterate(step, last, k) && r > now && forall j: nat :: j < k ==> Iterate(step, last, j) <= now;
    IterateDelay(d, last, k);
    assert k > 0;
    IterateDelay(d, last, k - 1);
    assert Iterate(step, last, k - 1) <= now;
    QuotientIs(now - last, d, k - 1);
  }
}
