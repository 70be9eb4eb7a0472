/**
 Whole calls on the connection pool, each run by one thread with nothing in between: what Get, the
 Close of a wrapper and the Close of the pool do as one step.
 */
module PoolCalls {
  import opened Collections
  import opened ConnectionPool

  ghost predicate RunsTo(s: State, events: seq<Event>, u: State) {
    ValidRun(s, events) && Final(s, events) == u
  }

  /** The operations of one call, all by thread t. */
  function Call(t: nat, ops: seq<Op>): (events: seq<Event>)
    ensures |events| == |ops| && forall i :: 0 <= i < |ops| ==> events[i] == Event(t, ops[i])
  {
    seq(|ops|, i requires 0 <= i < |ops| => Event(t, ops[i]))
  }

  /** The thread is free to make a call. */
  predicate Free(s: State, t: nat) {
    t < |s.threads| && s.threads[t] == Bare(Idle)
  }

  lemma Step(s: State, t: nat, op: Op, u: State, rest: seq<Op>, v: State)
    requires Can(s, t, op) && Next(s, Event(t, op)) == u && RunsTo(u, Call(t, rest), v)
    ensures RunsTo(s, Call(t, [op] + rest), v)
  {
    assert Call(t, [op] + rest) == [Event(t, op)] + Call(t, rest);
    assert Call(t, [op] + rest)[1..] == Call(t, rest);
  }

  lemma Last(s: State, t: nat, op: Op, u: State)
    requires Can(s, t, op) && Next(s, Event(t, op)) == u
    ensures RunsTo(s, Call(t, [op]), u)
  {
    assert RunsTo(u, Call(t, []), u);
    Step(s, t, op, u, [], u);
    assert [op] + [] == [op];
  }

  lemma BackIdle(s: State, t: nat, p: Thread)
    requires Free(s, t)
    ensures To(To(s, t, p), t, Bare(Idle)) == s
  {
    assert s.threads[t := p][t := Bare(Idle)] == s.threads;
  }

  lemma Twice(s: State, t: nat, p: Thread, q: Thread)
    requires t < |s.threads|
    ensures To(To(s, t, p), t, q) == To(s, t, q)
  {
    assert s.threads[t := p][t := q] == s.threads[t := q];
  }

  /** Get hands out the longest idle connection. */
  lemma GetIdle(s: State, t: nat)
    requires Free(s, t) && !s.connsNil && s.buffer != []
    ensures RunsTo(s, Call(t, [GetRead, GetReceive]),
                   s.(buffer := s.buffer[1..], wrappers := s.wrappers + [Wrapper(s.buffer[0], false, false)]))
  {
    var u := To(s, t, Bare(GetHasChan));
    BackIdle(s, t, Bare(GetHasChan));
    Last(u, t, GetReceive, s.(buffer := s.buffer[1..], wrappers := s.wrappers + [Wrapper(s.buffer[0], false, false)]));
    assert [GetRead] + [GetReceive] == [GetRead, GetReceive];
    Step(s, t, GetRead, u, [GetReceive], s.(buffer := s.buffer[1..], wrappers := s.wrappers + [Wrapper(s.buffer[0], false, false)]));
  }

  /** Without an idle one it hands out a new, counted connection, and fails without a trace if the factory does. */
  lemma GetNew(s: State, t: nat)
    requires Free(s, t) && !s.connsNil && !s.chanClosed && s.buffer == []
    ensures RunsTo(s, Call(t, [GetRead, GetFactory(true), GetCount]), HandedNew(s))
    ensures RunsTo(s, Call(t, [GetRead, GetFactory(false)]), s)
  {
    var u, w := To(s, t, Bare(GetHasChan)), To(s, t, With(GetMade, s.made)).(made := s.made + 1, open := s.open + {s.made});
    Twice(s, t, Bare(GetHasChan), With(GetMade, s.made));
    BackIdle(s, t, Bare(GetHasChan));
    BackIdle(s, t, With(GetMade, s.made));
    assert [GetRead] + [GetFactory(false)] == [GetRead, GetFactory(false)];
    assert [GetFactory(true)] + [GetCount] == [GetFactory(true), GetCount];
    assert [GetRead] + [GetFactory(true), GetCount] == [GetRead, GetFactory(true), GetCount];
    Last(w, t, GetCount, HandedNew(s));
    Step(u, t, GetFactory(true), w, [GetCount], HandedNew(s));
    Step(s, t, GetRead, u, [GetFactory(true), GetCount], HandedNew(s));
    Last(u, t, GetFactory(false), s);
    Step(s, t, GetRead, u, [GetFactory(false)], s);
  }

  /** In every interleaving, a Get makes a connection only while none is idle and the channel is open. */
  lemma NewOnlyWhenEmpty(s: State, e: Event)
    requires Enabled(s, e) && Next(s, e).made != s.made
    ensures e.op == GetFactory(true) && s.buffer == [] && !s.chanClosed && Next(s, e).made == s.made + 1
  {
  }

  function HandedNew(s: State): State {
    s.(made := s.made + 1, open := s.open + {s.made}, nOpenConns := s.nOpenConns + 1,
       wrappers := s.wrappers + [Wrapper(s.made, false, false)])
  }

  /** On a closed pool Get fails. */
  lemma GetFails(s: State, t: nat)
    requires Free(s, t) && s.connsNil
    ensures RunsTo(s, Call(t, [GetRead]), s)
  {
    Last(s, t, GetRead, s);
  }

  /** So does a Get that has read the channel before another thread closed and drained it. */
  lemma GetOvertaken(s: State, t: nat)
    requires Free(s, t) && s.chanClosed && s.buffer == []
    ensures RunsTo(To(s, t, Bare(GetHasChan)), Call(t, [GetClosed]), s)
  {
    BackIdle(s, t, Bare(GetHasChan));
    Last(To(s, t, Bare(GetHasChan)), t, GetClosed, s);
  }

  function Closed(s: State, w: nat): State
    requires w < |s.wrappers|
  {
    s.(wrappers := s.wrappers[w := s.wrappers[w].(closed := true)])
  }

  /** Closing a wrapper marked unusable closes its connection behind the counter's back. */
  lemma CloseUnusable(s: State, t: nat, w: nat)
    requires Free(s, t) && w < |s.wrappers| && s.wrappers[w].unusable
    ensures RunsTo(s, Call(t, [ConnClose(w), UnusableDone]),
                   Closed(s, w).(open := s.open - {s.wrappers[w].conn}, droppedUnusable := s.droppedUnusable + 1))
  {
    var v := Closed(s, w).(open := s.open - {s.wrappers[w].conn}, droppedUnusable := s.droppedUnusable + 1);
    var u := To(Closed(s, w), t, With(DropUnusable, s.wrappers[w].conn));
    BackIdle(Closed(s, w), t, With(DropUnusable, s.wrappers[w].conn));
    Last(u, t, UnusableDone, v);
    Step(s, t, ConnClose(w), u, [UnusableDone], v);
    assert [ConnClose(w)] + [UnusableDone] == [ConnClose(w), UnusableDone];
  }

  /** Marking it decides that: before, Close would have put the connection back. */
  lemma Marks(s: State, t: nat, w: nat)
    requires Free(s, t) && w < |s.wrappers|
    ensures RunsTo(s, Call(t, [MarkUnusable(w)]), s.(wrappers := s.wrappers[w := s.wrappers[w].(unusable := true)]))
  {
    Last(s, t, MarkUnusable(w), s.(wrappers := s.wrappers[w := s.wrappers[w].(unusable := true)]));
  }

  /** Closing any other wrapper puts its connection behind the idle ones while there is room. */
  lemma CloseReturns(s: State, t: nat, w: nat)
    requires Free(s, t) && w < |s.wrappers| && !s.wrappers[w].unusable && !s.connsNil && |s.buffer| < s.capacity
    ensures RunsTo(s, Call(t, PutOps(w)), Closed(s, w).(buffer := s.buffer + [s.wrappers[w].conn]))
  {
    var r, conn := Closed(s, w), s.wrappers[w].conn;
    var v := r.(buffer := s.buffer + [conn]);
    BackIdle(r, t, With(PutSending, conn));
    Last(To(r, t, With(PutSending, conn)), t, PutSend, v);
    PutBegins(s, t, w, [PutSend], v);
    assert [ConnClose(w), PutLock, PutCheck] + [PutSend] == PutOps(w);
  }

  /** The way to the send, for any wrapper that is not unusable. */
  lemma PutBegins(s: State, t: nat, w: nat, rest: seq<Op>, v: State)
    requires Free(s, t) && w < |s.wrappers| && !s.wrappers[w].unusable && !s.connsNil
    requires RunsTo(To(Closed(s, w), t, With(PutSending, s.wrappers[w].conn)), Call(t, rest), v)
    ensures RunsTo(s, Call(t, [ConnClose(w), PutLock, PutCheck] + rest), v)
  {
    var r, conn := Closed(s, w), s.wrappers[w].conn;
    var u1, u2, u3 := To(r, t, With(PutStart, conn)), To(r, t, With(PutLocked, conn)), To(r, t, With(PutSending, conn));
    Twice(r, t, With(PutStart, conn), With(PutLocked, conn));
    Twice(r, t, With(PutLocked, conn), With(PutSending, conn));
    Step(u2, t, PutCheck, u3, rest, v);
    Step(u1, t, PutLock, u2, [PutCheck] + rest, v);
    Step(s, t, ConnClose(w), u1, [PutLock] + ([PutCheck] + rest), v);
    assert [ConnClose(w)] + ([PutLock] + ([PutCheck] + rest)) == [ConnClose(w), PutLock, PutCheck] + rest;
  }

  function ClosedRaw(s: State, w: nat): State
    requires w < |s.wrappers|
  {
    Closed(s, w).(open := s.open - {s.wrappers[w].conn}, nOpenConns := s.nOpenConns - 1)
  }

  /** With the channel full it closes the connection and tells the counter. */
  lemma CloseWhenFull(s: State, t: nat, w: nat)
    requires Free(s, t) && w < |s.wrappers| && !s.wrappers[w].unusable && !s.connsNil && |s.buffer| >= s.capacity
    ensures RunsTo(s, Call(t, [ConnClose(w), PutLock, PutCheck, PutSend, PutDone]), ClosedRaw(s, w))
  {
    var r, conn := Closed(s, w), s.wrappers[w].conn;
    var u3, u4 := To(r, t, With(PutSending, conn)), To(r, t, With(PutClosing, conn)).(nOpenConns := s.nOpenConns - 1);
    BackIdle(r, t, With(PutClosing, conn));
    Last(u4, t, PutDone, ClosedRaw(s, w));
    Twice(r, t, With(PutSending, conn), With(PutClosing, conn));
    Step(u3, t, PutSend, u4, [PutDone], ClosedRaw(s, w));
    PutBegins(s, t, w, [PutSend] + [PutDone], ClosedRaw(s, w));
    assert [ConnClose(w), PutLock, PutCheck] + ([PutSend] + [PutDone]) == [ConnClose(w), PutLock, PutCheck, PutSend, PutDone];
  }

  /** So it does once the pool is closed. */
  lemma CloseAfterPool(s: State, t: nat, w: nat)
    requires Free(s, t) && w < |s.wrappers| && !s.wrappers[w].unusable && s.connsNil
    ensures RunsTo(s, Call(t, [ConnClose(w), PutLock, PutCheck, PutDone]), ClosedRaw(s, w))
  {
    var r, conn := Closed(s, w), s.wrappers[w].conn;
    var u1, u2 := To(r, t, With(PutStart, conn)), To(r, t, With(PutLocked, conn));
    var u4 := To(r, t, With(PutClosing, conn)).(nOpenConns := s.nOpenConns - 1);
    BackIdle(r, t, With(PutClosing, conn));
    Last(u4, t, PutDone, ClosedRaw(s, w));
    Twice(r, t, With(PutStart, conn), With(PutLocked, conn));
    Twice(r, t, With(PutLocked, conn), With(PutClosing, conn));
    Step(u2, t, PutCheck, u4, [PutDone], ClosedRaw(s, w));
    Step(u1, t, PutLock, u2, [PutCheck] + [PutDone], ClosedRaw(s, w));
    Step(s, t, ConnClose(w), u1, [PutLock] + ([PutCheck] + [PutDone]), ClosedRaw(s, w));
    assert [ConnClose(w)] + ([PutLock] + ([PutCheck] + [PutDone])) == [ConnClose(w), PutLock, PutCheck, PutDone];
  }

  // The Close of the pool.

  function DrainOps(n: nat): seq<Op> {
    if n == 0 then [DrainDone] else [DrainReceive] + ([DrainClose] + DrainOps(n - 1))
  }

  function Drained(s: State): State {
    s.(buffer := [], open := s.open - (set c | c in s.buffer), drained := s.drained + |s.buffer|)
  }

  lemma {:induction false} Drains(s: State, t: nat)
    requires Free(s, t)
    ensures RunsTo(To(s, t, Bare(CloseDraining)), Call(t, DrainOps(|s.buffer|)), Drained(s))
    decreases |s.buffer|
  {
    var u := To(s, t, Bare(CloseDraining));
    if s.buffer == [] {
      BackIdle(s, t, Bare(CloseDraining));
      assert Drained(s) == s;
      Last(u, t, DrainDone, s);
    } else {
      var rest := s.(buffer := s.buffer[1..], open := s.open - {s.buffer[0]}, drained := s.drained + 1);
      var holding := To(s, t, With(CloseHolding, s.buffer[0])).(buffer := s.buffer[1..]);
      Drains(rest, t);
      assert s.buffer == [s.buffer[0]] + s.buffer[1..];
      assert Drained(rest).open == Drained(s).open;
      assert Drained(rest) == Drained(s);
      Twice(s, t, Bare(CloseDraining), With(CloseHolding, s.buffer[0]));
      Twice(s, t, With(CloseHolding, s.buffer[0]), Bare(CloseDraining));
      Step(holding, t, DrainClose, To(rest, t, Bare(CloseDraining)), DrainOps(|s.buffer| - 1), Drained(s));
      Step(u, t, DrainReceive, holding, [DrainClose] + DrainOps(|s.buffer| - 1), Drained(s));
    }
  }

  /** Close ends the pool and closes every idle connection, none of which the counter forgets; a second one does nothing. */
  lemma PoolCloses(s: State, t: nat)
    requires Free(s, t) && forall u :: 0 <= u < |s.threads| ==> !HoldsReadLock(s.threads[u])
    ensures s.connsNil ==> RunsTo(s, Call(t, [PoolClose]), s)
    ensures !s.connsNil ==>
              RunsTo(s, Call(t, [PoolClose] + ([CloseChannel] + DrainOps(|s.buffer|))), Drained(s).(connsNil := true, chanClosed := true))
  {
    if s.connsNil {
      Last(s, t, PoolClose, s);
    } else {
      var done := s.(connsNil := true, chanClosed := true);
      var u := To(s, t, Bare(CloseSwapped)).(connsNil := true);
      Drains(done, t);
      Twice(s, t, Bare(CloseSwapped), Bare(CloseDraining));
      Step(u, t, CloseChannel, To(done, t, Bare(CloseDraining)), DrainOps(|s.buffer|), Drained(done));
      Step(s, t, PoolClose, u, [CloseChannel] + DrainOps(|s.buffer|), Drained(done));
    }
  }

  // What happens when a caller breaks the discipline.

  lemma Joins(s: State, a: seq<Event>, u: State, b: seq<Event>, v: State)
    requires RunsTo(s, a, u) && RunsTo(u, b, v)
    ensures RunsTo(s, a + b, v)
  {
    RunConcat(s, a, b);
  }

  function PutOps(w: nat): seq<Op> { [ConnClose(w), PutLock, PutCheck, PutSend] }

  /** Closing a wrapper twice makes its connection idle twice, in any pool with room. */
  lemma CloseTwice(s: State, t: nat, w: nat)
    requires Free(s, t) && w < |s.wrappers| && !s.wrappers[w].unusable && !s.connsNil && |s.buffer| + 2 <= s.capacity
    ensures RunsTo(s, Call(t, PutOps(w)) + Call(t, PutOps(w)), Closed(s, w).(buffer := s.buffer + [s.wrappers[w].conn] + [s.wrappers[w].conn]))
  {
    var once := Closed(s, w).(buffer := s.buffer + [s.wrappers[w].conn]);
    CloseReturns(s, t, w);
    CloseReturns(once, t, w);
    assert Closed(once, w).wrappers == once.wrappers;
    Joins(s, Call(t, PutOps(w)), once, Call(t, PutOps(w)), once.(buffer := s.buffer + [s.wrappers[w].conn] + [s.wrappers[w].conn]));
  }

  /** Without the discipline ownership fails: closing one wrapper twice leaves its connection idle twice. */
  lemma DoubleCloseBreaksOwnership() returns (events: seq<Event>)
    ensures ValidRun(Init(0, 2, 1), events) && Final(Init(0, 2, 1), events).buffer == [0, 0]
  {
    var s := Init(0, 2, 1);
    var got := HandedNew(s);
    assert s.buffer == [] && s.capacity == 2 && s.wrappers == [];
    GetNew(s, 0);
    CloseTwice(got, 0, 0);
    events := Call(0, [GetRead, GetFactory(true), GetCount]) + (Call(0, PutOps(0)) + Call(0, PutOps(0)));
    var twice := Closed(got, 0).(buffer := got.buffer + [got.wrappers[0].conn] + [got.wrappers[0].conn]);
    Joins(s, Call(0, [GetRead, GetFactory(true), GetCount]), got, Call(0, PutOps(0)) + Call(0, PutOps(0)), twice);
    assert twice.buffer == [0, 0];
  }
}
