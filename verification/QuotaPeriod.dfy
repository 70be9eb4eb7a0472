/** The lazily advanced monthly AI-quota window of each account. */
module QuotaPeriod {
  import opened Collections
  import opened Calendar

  /** Usage counts from `start`; the window ends at `next`. */
  datatype Period = Period(start: int, next: int)

  datatype Error = BadRequest | WriteFailed

  function Created(now: int): Period { Period(now, AddMonth(now)) }

  /** The window a stored one is advanced to at time `now`. */
  function Rolled(p: Period, now: int): Period
    decreases now - p.next
  {
    if now < p.next then p
    else
      AddMonthAdvances(p.next);
      Rolled(Period(p.next, AddMonth(p.next)), now)
  }

  class QuotaPeriodRepo {
    var periods: map<nat, Period>

    constructor ()
      ensures periods == map[]
    {
      periods := map[];
    }

    /** The insert fails when the log refuses it or the account has a row already. */
    method Create(account: nat, now: int, writeOk: bool) returns (r: Result<Period, Error>)
      modifies this
      ensures r == Err(BadRequest) <==> account == 0
      ensures r.Ok? <==> account != 0 && writeOk && account !in old(periods)
      ensures r.Ok? ==> r.value == Created(now)
      ensures periods == if r.Ok? then old(periods)[account := Created(now)] else old(periods)
    {
      if account == 0 {
        return Err(BadRequest);
      }
      var nextReset := AddMonth(now);
      if !writeOk || account in periods {
        return Err(WriteFailed);
      }
      periods := periods[account := Period(now, nextReset)];
      return Ok(Period(now, nextReset));
    }

    method EnsurePeriod(account: nat, now: int, writeOk: bool) returns (r: Result<Period, Error>)
      modifies this
      ensures account != 0 && account in old(periods) ==>
                var w := Rolled(old(periods)[account], now);
                && (r.Ok? <==> writeOk || now < old(periods)[account].next)
                && (r.Ok? ==> r.value == w && periods == old(periods)[account := w])
      ensures account != 0 && account !in old(periods) ==>
                if writeOk then r == Ok(Created(now)) && periods == old(periods)[account := Created(now)] else r.Err?
      ensures r == Err(BadRequest) <==> account == 0
      ensures r.Err? ==> periods == old(periods)
    {
      if account == 0 {
        return Err(BadRequest);
      }
      if account !in periods {
        r := Create(account, now, writeOk);
        return;
      }
      var record := periods[account];
      if now < record.next {
        assert periods == periods[account := record];
        return Ok(record);
      }
      var periodStart := record.next;
      AddMonthAdvances(record.next);
      var nextReset := AddMonth(record.next);
      while !(now < nextReset)
        invariant record.next <= periodStart < nextReset
        invariant periods == old(periods)
        invariant Rolled(Period(periodStart, nextReset), now) == Rolled(record, now)
        decreases now - nextReset
      {
        AddMonthAdvances(nextReset);
        periodStart := nextReset;
        nextReset := AddMonth(nextReset);
      }
      if !writeOk {
        return Err(WriteFailed);
      }
      periods := periods[account := Period(periodStart, nextReset)];
      return Ok(Period(periodStart, nextReset));
    }
  }

  /** The window is the k-th link of the chain of month boundaries that starts at `anchor`. */
  predicate IsLink(anchor: int, k: nat, p: Period) {
    p.start == Boundary(anchor, k) && p.next == Boundary(anchor, k + 1)
  }

  /**
   Advancing a link yields a later link of the same chain, the one around `now`, after at most
   (now - next) / 28 days + 1 rounds.
   */
  lemma {:induction false} RolledIsLink(anchor: int, j: nat, p: Period, now: int) returns (k: nat)
    requires IsLink(anchor, j, p)
    ensures j <= k && IsLink(anchor, k, Rolled(p, now))
    ensures p.start <= now ==> Rolled(p, now).start <= now < Rolled(p, now).next
    ensures p.start <= Rolled(p, now).start
    ensures now < p.next ==> k == j
    ensures now >= p.next ==> k - j <= (now - p.next) / (28 * DAY) + 1
    decreases now - p.next
  {
    if now < p.next {
      k := j;
    } else {
      AddMonthAdvances(p.next);
      var q := Period(p.next, AddMonth(p.next));
      BoundarySpread(anchor, j, j + 1);
      k := RolledIsLink(anchor, j + 1, q, now);
      if now >= p.next && k > j + 1 {
        assert Boundary(anchor, k) <= now;
        BoundarySpread(anchor, j + 1, k);
        FitsInto(k - (j + 1), 28 * DAY, now - p.next);
      }
    }
  }

  /** Advancing in two rounds, in either order of their times, is advancing once to the later time. */
  lemma {:induction false} RolledTwice(p: Period, a: int, b: int)
    requires a <= b
    ensures Rolled(Rolled(p, a), b) == Rolled(p, b)
    ensures Rolled(Rolled(p, b), a) == Rolled(p, b)
    decreases b - p.next
  {
    if b >= p.next {
      AddMonthAdvances(p.next);
      RolledTwice(Period(p.next, AddMonth(p.next)), a, b);
      RolledPast(Period(p.next, AddMonth(p.next)), b);
    }
  }

  lemma {:induction false} RolledPast(p: Period, now: int)
    ensures now < Rolled(p, now).next
    decreases now - p.next
  {
    if now >= p.next {
      AddMonthAdvances(p.next);
      RolledPast(Period(p.next, AddMonth(p.next)), now);
    }
  }

  /** What a sequence of EnsurePeriod calls leaves in the row; a call whose write fails leaves it alone. */
  function Stored(p: Period, calls: seq<(int, bool)>): Period
    decreases |calls|
  {
    if calls == [] then p
    else Stored(if calls[0].1 then Rolled(p, calls[0].0) else p, calls[1..])
  }

  /**
   Laziness does not matter: whichever earlier calls were made, at whatever times up to t and
   with whatever failures, a call at t returns the window that a single call at t would.
   */
  lemma {:induction false} LazinessDoesNotMatter(p: Period, calls: seq<(int, bool)>, t: int)
    requires forall c :: c in calls ==> c.0 <= t
    ensures Rolled(Stored(p, calls), t) == Rolled(p, t)
    decreases |calls|
  {
    if calls != [] {
      assert calls[0] in calls;
      RolledTwice(p, calls[0].0, t);
      LazinessDoesNotMatter(if calls[0].1 then Rolled(p, calls[0].0) else p, calls[1..], t);
    }
  }

  /**
   So the window in force at t is determined by the creation time alone: the link around t of the
   chain anchored there.
   */
  lemma WindowInForce(created: int, calls: seq<(int, bool)>, t: int, k: nat)
    requires created <= t && forall c :: c in calls ==> c.0 <= t
    requires Boundary(created, k) <= t < Boundary(created, k + 1)
    ensures IsLink(created, k, Rolled(Stored(Created(created), calls), t))
  {
    LazinessDoesNotMatter(Created(created), calls, t);
    assert Boundary(created, 0) == created;
    assert IsLink(created, 0, Created(created));
    var j := RolledIsLink(created, 0, Created(created), t);
    BoundaryAround(created, j, k, t);
  }

  /** Successive windows never move backward. */
  lemma NeverBackward(p: Period, calls: seq<(int, bool)>, a: int, b: int)
    requires p.start < p.next && a <= b && forall c :: c in calls ==> c.0 <= a
    ensures Rolled(Stored(p, calls), a).start <= Rolled(Stored(p, calls), b).start
  {
    LazinessDoesNotMatter(p, calls, a);
    LazinessDoesNotMatter(p, calls, b);
    RolledForward(p, a);
    RolledForward(Rolled(p, a), b);
    RolledTwice(p, a, b);
  }

  lemma {:induction false} RolledForward(p: Period, now: int)
    requires p.start < p.next
    ensures p.start <= Rolled(p, now).start < Rolled(p, now).next
    decreases now - p.next
  {
    if now >= p.next {
      AddMonthAdvances(p.next);
      RolledForward(Period(p.next, AddMonth(p.next)), now);
    }
  }
}
