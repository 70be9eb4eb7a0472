/**
 The per-key throttle of operator alerts: `claim` before a publish, `release` after a failed one.

 The class is the publisher's code; the transition system below it lets any number of
 publishes overlap, each between its claim and its end.
 */
module AlertThrottle {
  import opened Collections

  /** A window of fifteen minutes, and the five seconds a publish may take, in nanoseconds. */
  const DEFAULT_THROTTLE: int := 15 * 60 * 1_000_000_000
  const PUBLISH_TIMEOUT: int := 5 * 1_000_000_000

  /** How the call to the notification service ends. A panic is recovered, but releases nothing. */
  datatype Outcome = Delivered | Failed | Panicked

  predicate MayClaim(lastSent: map<string, int>, key: string, now: int, throttle: int) {
    key in lastSent ==> now - lastSent[key] >= throttle
  }

  class SnsPublisher {
    const throttle: int
    var lastSent: map<string, int>

    constructor (throttle: int)
      ensures this.throttle == throttle && lastSent == map[]
    {
      this.throttle := throttle;
      lastSent := map[];
    }

    method Claim(key: string, now: int) returns (claimed: bool)
      modifies this
      ensures claimed <==> key !in old(lastSent) || now - old(lastSent)[key] >= throttle
      ensures lastSent == if claimed then old(lastSent)[key := now] else old(lastSent)
    {
      if key in lastSent && now - lastSent[key] < throttle {
        return false;
      }
      lastSent := lastSent[key := now];
      return true;
    }

    method Release(key: string)
      modifies this
      ensures lastSent == old(lastSent) - {key}
    {
      lastSent := lastSent - {key};
    }

    /** One publish with nothing in between: only a delivered or panicked one leaves a claim behind. */
    method Publish(event: string, throttleKey: string, now: int, outcome: Outcome) returns (r: Result<bool, Outcome>)
      modifies this
      ensures var key := if throttleKey == "" then event else throttleKey;
              if key in old(lastSent) && now - old(lastSent)[key] < throttle
              then r == Ok(false) && lastSent == old(lastSent)
              else if outcome == Failed then r == Err(Failed) && lastSent == old(lastSent) - {key}
              else lastSent == old(lastSent)[key := now] && r == if outcome == Delivered then Ok(true) else Err(Panicked)
    {
      var key := throttleKey;
      if key == "" {
        key := event;
      }
      var claimed := Claim(key, now);
      if !claimed {
        return Ok(false);
      }
      match outcome
      case Delivered => return Ok(true);
      case Failed =>
        Release(key);
        return Err(Failed);
      case Panicked => return Err(Panicked);
    }
  }

  // Overlapping publishes.

  datatype Status = InFlight | Ended(outcome: Outcome)

  /** One publish that got past its claim. */
  datatype Flight = Flight(key: string, claimedAt: int, status: Status)

  datatype State = State(now: int, lastSent: map<string, int>, flights: seq<Flight>)

  datatype Event = Tick(elapsed: nat) | Attempt(key: string) | Finish(i: nat, outcome: Outcome)

  /** `latency` bounds the time from a publish's claim to its end. */
  datatype Config = Config(throttle: int, latency: nat)

  function Init(start: int): State { State(start, map[], []) }

  predicate Enabled(c: Config, s: State, e: Event) {
    match e
    case Tick(_) => true
    case Attempt(_) => true
    case Finish(i, _) => i < |s.flights| && s.flights[i].status.InFlight? && s.now - s.flights[i].claimedAt <= c.latency
  }

  function Next(c: Config, s: State, e: Event): State
    requires Enabled(c, s, e)
  {
    match e
    case Tick(elapsed) => s.(now := s.now + elapsed)
    case Attempt(key) =>
      if MayClaim(s.lastSent, key, s.now, c.throttle)
      then s.(lastSent := s.lastSent[key := s.now], flights := s.flights + [Flight(key, s.now, InFlight)])
      else s
    case Finish(i, outcome) =>
      s.(flights := s.flights[i := s.flights[i].(status := Ended(outcome))],
         lastSent := if outcome == Failed then s.lastSent - {s.flights[i].key} else s.lastSent)
  }

  predicate ValidRun(c: Config, s: State, events: seq<Event>)
    decreases |events|
  {
    events == [] || (Enabled(c, s, events[0]) && ValidRun(c, Next(c, s, events[0]), events[1..]))
  }

  function Final(c: Config, s: State, events: seq<Event>): State
    requires ValidRun(c, s, events)
    decreases |events|
  {
    if events == [] then s else Final(c, Next(c, s, events[0]), events[1..])
  }

  /** Any two delivered publishes with one key were claimed at least a throttle window apart. */
  predicate Spaced(c: Config, s: State) {
    forall i, j ::
      && 0 <= i < j < |s.flights| && s.flights[i].key == s.flights[j].key
      && s.flights[i].status == Ended(Delivered) && s.flights[j].status == Ended(Delivered)
      ==> s.flights[j].claimedAt - s.flights[i].claimedAt >= c.throttle
  }

  ghost predicate Safe(c: Config) {
    forall start: int, events :: ValidRun(c, Init(start), events) ==> Spaced(c, Final(c, Init(start), events))
  }

  // The invariant.

  /** Claims are stamped in order and not after now. */
  predicate Stamped(s: State) {
    && (forall i :: 0 <= i < |s.flights| ==> s.flights[i].claimedAt <= s.now)
    && (forall i, j :: 0 <= i < j < |s.flights| ==> s.flights[i].claimedAt <= s.flights[j].claimedAt)
  }

  /** A publish that may still end is the newest one of its key, and its claim stands. */
  predicate LiveOnTop(c: Config, s: State) {
    forall i :: 0 <= i < |s.flights| && Enabled(c, s, Finish(i, Delivered)) ==>
      && s.flights[i].key in s.lastSent && s.lastSent[s.flights[i].key] == s.flights[i].claimedAt
      && (forall j :: i < j < |s.flights| ==> s.flights[j].key != s.flights[i].key)
  }

  /** A publish that has not failed keeps its key closed for a window after its claim. */
  predicate Guarded(c: Config, s: State, f: Flight) {
    if f.key in s.lastSent
    then s.lastSent[f.key] == f.claimedAt || s.lastSent[f.key] >= f.claimedAt + c.throttle
    else s.now >= f.claimedAt + c.throttle
  }

  predicate AllGuarded(c: Config, s: State) {
    forall i :: 0 <= i < |s.flights| && s.flights[i].status != Ended(Failed) ==> Guarded(c, s, s.flights[i])
  }

  predicate Apart(c: Config, s: State) {
    forall i, j :: 0 <= i < j < |s.flights| && s.flights[i].key == s.flights[j].key && s.flights[i].status != Ended(Failed)
      ==> s.flights[j].claimedAt - s.flights[i].claimedAt >= c.throttle
  }

  predicate Inv(c: Config, s: State) {
    Stamped(s) && LiveOnTop(c, s) && AllGuarded(c, s) && Apart(c, s)
  }

  lemma StepStamped(c: Config, s: State, e: Event)
    requires Stamped(s) && Enabled(c, s, e)
    ensures Stamped(Next(c, s, e))
  {
  }

  lemma AttemptInv(c: Config, s: State, key: string)
    requires 0 <= c.latency < c.throttle && Inv(c, s)
    ensures Inv(c, Next(c, s, Attempt(key)))
  {
    var t := Next(c, s, Attempt(key));
    forall i | 0 <= i < |s.flights| && s.flights[i].key == key && s.flights[i].status != Ended(Failed)
      ensures MayClaim(s.lastSent, key, s.now, c.throttle) ==> s.now - s.flights[i].claimedAt >= c.throttle
    {
      assert Guarded(c, s, s.flights[i]);
    }
    forall i | 0 <= i < |t.flights| && t.flights[i].status != Ended(Failed) ensures Guarded(c, t, t.flights[i]) {
      assert i < |s.flights| ==> Guarded(c, s, s.flights[i]);
    }
    forall i | 0 <= i < |t.flights| && Enabled(c, t, Finish(i, Delivered))
      ensures t.flights[i].key in t.lastSent && t.lastSent[t.flights[i].key] == t.flights[i].claimedAt
      ensures forall j :: i < j < |t.flights| ==> t.flights[j].key != t.flights[i].key
    {
      assert i < |s.flights| ==> Enabled(c, s, Finish(i, Delivered));
    }
  }

  lemma FinishInv(c: Config, s: State, i: nat, outcome: Outcome)
    requires 0 <= c.latency < c.throttle && Inv(c, s) && Enabled(c, s, Finish(i, outcome))
    ensures Inv(c, Next(c, s, Finish(i, outcome)))
  {
    var t := Next(c, s, Finish(i, outcome));
    assert Enabled(c, s, Finish(i, Delivered));
    forall k | 0 <= k < |t.flights| && t.flights[k].status != Ended(Failed) ensures Guarded(c, t, t.flights[k]) {
      assert Guarded(c, s, s.flights[k]);
    }
    forall k | 0 <= k < |t.flights| && Enabled(c, t, Finish(k, Delivered))
      ensures t.flights[k].key in t.lastSent && t.lastSent[t.flights[k].key] == t.flights[k].claimedAt
      ensures forall j :: k < j < |t.flights| ==> t.flights[j].key != t.flights[k].key
    {
      assert Enabled(c, s, Finish(k, Delivered));
      assert k < i ==> s.flights[i].key != s.flights[k].key;
      assert i < k ==> s.flights[k].key != s.flights[i].key;
    }
  }

  lemma TickInv(c: Config, s: State, elapsed: nat)
    requires Inv(c, s)
    ensures Inv(c, Next(c, s, Tick(elapsed)))
  {
  }

  lemma {:induction false} RunInv(c: Config, s: State, events: seq<Event>)
    requires 0 <= c.latency < c.throttle && Inv(c, s) && ValidRun(c, s, events)
    ensures Inv(c, Final(c, s, events))
    decreases |events|
  {
    if events != [] {
      match events[0] {
        case Tick(elapsed) => TickInv(c, s, elapsed);
        case Attempt(key) => AttemptInv(c, s, key);
        case Finish(i, outcome) => FinishInv(c, s, i, outcome);
      }
      RunInv(c, Next(c, s, events[0]), events[1..]);
    }
  }

  lemma {:induction false} RunStamped(c: Config, s: State, events: seq<Event>)
    requires Stamped(s) && ValidRun(c, s, events)
    ensures Stamped(Final(c, s, events))
    decreases |events|
  {
    if events != [] {
      StepStamped(c, s, events[0]);
      RunStamped(c, Next(c, s, events[0]), events[1..]);
    }
  }

  /** The throttle is safe under concurrency exactly when every publish ends before its window does. */
  lemma SafeExactly(c: Config)
    ensures Safe(c) <==> c.throttle <= 0 || c.latency < c.throttle
  {
    if c.throttle <= 0 || c.latency < c.throttle {
      forall start: int, events | ValidRun(c, Init(start), events) ensures Spaced(c, Final(c, Init(start), events)) {
        if c.throttle <= 0 {
          RunStamped(c, Init(start), events);
        } else {
          RunInv(c, Init(start), events);
        }
      }
    } else {
      var events := SlowFailure(c);
      assert !Spaced(c, Final(c, Init(0), events));
    }
  }

  /**
   A publish that fails a full window after its claim deletes the claim of the publish that
   followed it, so a third one goes out at the same instant as the second.
   */
  lemma SlowFailure(c: Config) returns (events: seq<Event>)
    requires c.throttle > 0 && c.latency >= c.throttle
    ensures ValidRun(c, Init(0), events) && !Spaced(c, Final(c, Init(0), events))
  {
    var T := c.throttle;
    var s0 := Init(0);
    var a0 := Flight("k", 0, InFlight);
    var a1 := Flight("k", T, InFlight);
    var dead := a0.(status := Ended(Failed));
    var s1 := State(0, map["k" := 0], [a0]);
    var s2 := State(T, map["k" := 0], [a0]);
    var s3 := State(T, map["k" := T], [a0, a1]);
    var s4 := State(T, map[], [dead, a1]);
    var s5 := State(T, map["k" := T], [dead, a1, a1]);
    var s6 := State(T, map["k" := T], [dead, a1.(status := Ended(Delivered)), a1]);
    var s7 := State(T, map["k" := T], [dead, a1.(status := Ended(Delivered)), a1.(status := Ended(Delivered))]);
    assert Next(c, s0, Attempt("k")) == s1;
    assert Next(c, s1, Tick(T)) == s2;
    assert s2.lastSent["k" := T] == s3.lastSent;
    assert Next(c, s2, Attempt("k")) == s3;
    assert s3.lastSent - {"k"} == map[];
    assert Next(c, s3, Finish(0, Failed)) == s4;
    assert Next(c, s4, Attempt("k")) == s5;
    assert Next(c, s5, Finish(1, Delivered)) == s6;
    assert Next(c, s6, Finish(2, Delivered)) == s7;
    events := [];
    events := Prepend(c, s6, Finish(2, Delivered), events);
    events := Prepend(c, s5, Finish(1, Delivered), events);
    events := Prepend(c, s4, Attempt("k"), events);
    events := Prepend(c, s3, Finish(0, Failed), events);
    events := Prepend(c, s2, Attempt("k"), events);
    events := Prepend(c, s1, Tick(T), events);
    events := Prepend(c, s0, Attempt("k"), events);
    assert s7.flights[1].status == s7.flights[2].status == Ended(Delivered) && s7.flights[1].key == s7.flights[2].key;
  }

  lemma Prepend(c: Config, s: State, e: Event, rest: seq<Event>) returns (events: seq<Event>)
    requires Enabled(c, s, e) && ValidRun(c, Next(c, s, e), rest)
    ensures ValidRun(c, s, events) && Final(c, s, events) == Final(c, Next(c, s, e), rest)
  {
    events := [e] + rest;
    assert events[1..] == rest;
  }

  /** The shipped constants, a quarter of an hour and five seconds, are on the safe side. */
  lemma DefaultsAreSafe(latency: nat)
    requires latency <= PUBLISH_TIMEOUT
    ensures Safe(Config(DEFAULT_THROTTLE, latency))
    ensures DEFAULT_THROTTLE == 900_000_000_000 && PUBLISH_TIMEOUT == 5_000_000_000
  {
    SafeExactly(Config(DEFAULT_THROTTLE, latency));
  }

  /**
   An attempt goes out exactly if its key was never claimed, was freed, or was claimed a full window
   ago or longer; then it is the newest publish, claimed now.
   */
  lemma AttemptGoesOut(c: Config, s: State, key: string)
    ensures var t := Next(c, s, Attempt(key));
            if key !in s.lastSent || s.now - s.lastSent[key] >= c.throttle
            then t == State(s.now, s.lastSent[key := s.now], s.flights + [Flight(key, s.now, InFlight)])
            else t == s
  {
  }

  /** Time alone reopens a key: after a publish that did not fail, exactly once the window has passed. */
  lemma WindowReopens(c: Config, start: int, events: seq<Event>, i: nat, elapsed: nat)
    requires c.latency < c.throttle && ValidRun(c, Init(start), events)
    requires var s := Final(c, Init(start), events);
             && i < |s.flights| && s.flights[i].status == Ended(Delivered)
             && (forall j :: i < j < |s.flights| ==> s.flights[j].key != s.flights[i].key)
    ensures var s := Final(c, Init(start), events);
            var t := Next(c, s, Tick(elapsed));
            |Next(c, t, Attempt(s.flights[i].key)).flights| == |s.flights| + 1
            <==> s.now + elapsed - s.flights[i].claimedAt >= c.throttle
  {
    RunInv(c, Init(start), events);
    var s := Final(c, Init(start), events);
    assert Guarded(c, s, s.flights[i]);
    RunClaims(c, Init(start), events);
  }

  /** Every standing claim is the one of some publish. */
  predicate ClaimsHaveFlights(s: State) {
    forall key :: key in s.lastSent ==> exists i :: 0 <= i < |s.flights| && s.flights[i].key == key && s.flights[i].claimedAt == s.lastSent[key]
  }

  lemma {:induction false} RunClaims(c: Config, s: State, events: seq<Event>)
    requires ClaimsHaveFlights(s) && ValidRun(c, s, events)
    ensures ClaimsHaveFlights(Final(c, s, events))
    decreases |events|
  {
    if events != [] {
      StepClaims(c, s, events[0]);
      RunClaims(c, Next(c, s, events[0]), events[1..]);
    }
  }

  lemma StepClaims(c: Config, s: State, e: Event)
    requires ClaimsHaveFlights(s) && Enabled(c, s, e)
    ensures ClaimsHaveFlights(Next(c, s, e))
  {
    var t := Next(c, s, e);
    forall key | key in t.lastSent
      ensures exists i :: 0 <= i < |t.flights| && t.flights[i].key == key && t.flights[i].claimedAt == t.lastSent[key]
    {
      if key in s.lastSent && t.lastSent[key] == s.lastSent[key] {
        var i :| 0 <= i < |s.flights| && s.flights[i].key == key && s.flights[i].claimedAt == s.lastSent[key];
        assert t.flights[i].key == key && t.flights[i].claimedAt == t.lastSent[key];
      } else {
        assert t.flights[|s.flights|].key == key;
      }
    }
  }

  /** When a publish ends in time, its key is free for the very next attempt exactly if it failed. */
  lemma FailureFreesKey(c: Config, start: int, events: seq<Event>, i: nat, outcome: Outcome)
    requires c.latency < c.throttle && ValidRun(c, Init(start), events)
    requires Enabled(c, Final(c, Init(start), events), Finish(i, outcome))
    ensures var s := Final(c, Init(start), events);
            var t := Next(c, s, Finish(i, outcome));
            MayClaim(t.lastSent, s.flights[i].key, t.now, c.throttle) <==> outcome == Failed
  {
    RunInv(c, Init(start), events);
    assert Enabled(c, Final(c, Init(start), events), Finish(i, Delivered));
  }
}
