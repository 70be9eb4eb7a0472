/** What becomes of connections that were marked unusable, told by the events of a run. */
module PoolUnusable {
  import opened Collections
  import opened ConnectionPool

  predicate Marked(events: seq<Event>, w: nat) {
    exists i :: 0 <= i < |events| && events[i].op == MarkUnusable(w)
  }

  predicate WasClosed(events: seq<Event>, w: nat) {
    exists i :: 0 <= i < |events| && events[i].op == ConnClose(w)
  }

  /** The last event of a run, taken apart. */
  lemma {:induction false} RunEnds(s: State, events: seq<Event>)
    requires ValidRun(s, events) && events != []
    ensures var n := |events| - 1;
            && ValidRun(s, events[..n]) && Enabled(Final(s, events[..n]), events[n])
            && Final(s, events) == Next(Final(s, events[..n]), events[n])
            && (DisciplinedRun(s, events) ==> DisciplinedRun(s, events[..n]) && Disciplined(Final(s, events[..n]), events[n]))
    decreases |events|
  {
    if |events| > 1 {
      RunEnds(Next(s, events[0]), events[1..]);
      assert events[1..][..|events| - 2] == events[..|events| - 1][1..];
    }
  }

  lemma {:induction false} PrefixRuns(s: State, events: seq<Event>, n: nat)
    requires ValidRun(s, events) && DisciplinedRun(s, events) && n <= |events|
    ensures ValidRun(s, events[..n]) && DisciplinedRun(s, events[..n])
    decreases |events|
  {
    if n == |events| {
      assert events[..n] == events;
    } else {
      RunEnds(s, events);
      PrefixRuns(s, events[..|events| - 1], n);
      assert events[..|events| - 1][..n] == events[..n];
    }
  }

  /** A step adds at most one wrapper, keeps every connection where it is, and changes a flag only for its own event. */
  lemma StepFlags(s: State, e: Event, w: nat)
    requires Enabled(s, e) && w < |Next(s, e).wrappers|
    ensures |s.wrappers| <= |Next(s, e).wrappers|
    ensures w < |s.wrappers| ==>
              && Next(s, e).wrappers[w].conn == s.wrappers[w].conn
              && (Next(s, e).wrappers[w].unusable <==> s.wrappers[w].unusable || e.op == MarkUnusable(w))
              && (Next(s, e).wrappers[w].closed <==> s.wrappers[w].closed || e.op == ConnClose(w))
    ensures w >= |s.wrappers| ==>
              && !Next(s, e).wrappers[w].unusable && !Next(s, e).wrappers[w].closed
              && e.op != MarkUnusable(w) && e.op != ConnClose(w)
  {
    if InGet(e.op) {
      GetFlags(s, e.t, e.op, w);
    } else if !InWrapper(e.op) {
      OthersKeepWrappers(s, e);
    }
  }

  lemma GetFlags(s: State, t: nat, op: Op, w: nat)
    requires Can(s, t, op) && InGet(op)
    ensures s.wrappers <= AfterGet(s, t, op).wrappers
    ensures |s.wrappers| <= w < |AfterGet(s, t, op).wrappers| ==>
              !AfterGet(s, t, op).wrappers[w].unusable && !AfterGet(s, t, op).wrappers[w].closed
  {
  }

  lemma OthersKeepWrappers(s: State, e: Event)
    requires Enabled(s, e) && !InGet(e.op) && !InWrapper(e.op)
    ensures Next(s, e).wrappers == s.wrappers
  {
  }

  lemma MarkedEnds(events: seq<Event>, e: Event, w: nat)
    ensures Marked(events + [e], w) <==> Marked(events, w) || e.op == MarkUnusable(w)
    ensures WasClosed(events + [e], w) <==> WasClosed(events, w) || e.op == ConnClose(w)
  {
    var all := events + [e];
    assert all[|events|] == e;
    assert forall i :: 0 <= i < |events| ==> all[i] == events[i];
  }

  /** In every run the flags of a wrapper say which calls were made on it. */
  lemma {:induction false} FlagsFollowEvents(s: State, events: seq<Event>, w: nat)
    requires s.wrappers == [] && ValidRun(s, events)
    ensures w < |Final(s, events).wrappers| ==>
              && (Final(s, events).wrappers[w].unusable <==> Marked(events, w))
              && (Final(s, events).wrappers[w].closed <==> WasClosed(events, w))
    ensures w >= |Final(s, events).wrappers| ==> !Marked(events, w) && !WasClosed(events, w)
    decreases |events|
  {
    if events != [] {
      var n := |events| - 1;
      RunEnds(s, events);
      FlagsFollowEvents(s, events[..n], w);
      assert events == events[..n] + [events[n]];
      MarkedEnds(events[..n], events[n], w);
      if w < |Final(s, events).wrappers| {
        StepFlags(Final(s, events[..n]), events[n], w);
      } else {
        WrappersGrow(Final(s, events[..n]), events[n]);
      }
    }
  }

  lemma WrappersGrow(s: State, e: Event)
    requires Enabled(s, e)
    ensures |s.wrappers| <= |Next(s, e).wrappers|
    ensures (e.op.MarkUnusable? || e.op.ConnClose?) ==> e.op.w < |s.wrappers|
  {
  }

  // The connection of such a wrapper.

  predicate Dropping(p: Thread, c: Conn) { p == With(DropUnusable, c) }

  /** The connection is closed, or in the hands of a thread that is about to close it. */
  predicate Retired(s: State, c: Conn) {
    c < s.made && (c in s.open ==> exists t :: 0 <= t < |s.threads| && Dropping(s.threads[t], c))
  }

  /** A retired connection is neither idle nor in the hands of a Get, nor in a live wrapper. */
  lemma RetiredIsGone(s: State, c: Conn)
    requires Inv(s) && Retired(s, c)
    ensures c !in s.buffer
    ensures forall t :: 0 <= t < |s.threads| && s.threads[t].hand == Some(c) ==> Dropping(s.threads[t], c)
    ensures forall w :: 0 <= w < |s.wrappers| && s.wrappers[w].conn == c ==> s.wrappers[w].closed
  {
    assert Accounted(s, c);
    assert c in s.buffer ==> c in multiset(s.buffer);
    if c in s.open {
      var t :| 0 <= t < |s.threads| && Dropping(s.threads[t], c);
      GatherUpdateAt(s.threads, t, Bare(Idle), InHand, c);
      forall u | 0 <= u < |s.threads| && s.threads[u].hand == Some(c) ensures u == t {
        if u != t {
          GatherUpdateAt(s.threads[t := Bare(Idle)], u, Bare(Idle), InHand, c);
        }
      }
    } else {
      forall u | 0 <= u < |s.threads| ensures s.threads[u].hand != Some(c) {
        GatherUpdateAt(s.threads, u, Bare(Idle), InHand, c);
      }
    }
    forall w | 0 <= w < |s.wrappers| && s.wrappers[w].conn == c ensures s.wrappers[w].closed {
      GatherUpdateAt(s.wrappers, w, s.wrappers[w], Wrapped, c);
    }
  }

  /** It stays so, and no later wrapper gets it. */
  lemma StaysRetired(s: State, e: Event, c: Conn)
    requires Inv(s) && Retired(s, c) && Enabled(s, e)
    ensures Retired(Next(s, e), c)
    ensures forall w :: |s.wrappers| <= w < |Next(s, e).wrappers| ==> Next(s, e).wrappers[w].conn != c
  {
    var u := Next(s, e);
    RetiredIsGone(s, c);
    if c in u.open {
      OpenGrows(s, e, c);
      assert c in s.open;
      var t :| 0 <= t < |s.threads| && Dropping(s.threads[t], c);
      KeepsDropping(s, e, t, c);
      assert Dropping(u.threads[t], c);
    }
    MadeGrows(s, e);
    NewWrapper(s, e, c);
  }

  lemma KeepsDropping(s: State, e: Event, t: nat, c: Conn)
    requires Enabled(s, e) && t < |s.threads| && Dropping(s.threads[t], c) && c in Next(s, e).open
    ensures Dropping(Next(s, e).threads[t], c)
  {
    if t != e.t {
      assert Next(s, e).threads[t] == s.threads[t];
    }
  }

  lemma MadeGrows(s: State, e: Event)
    requires Enabled(s, e)
    ensures s.made <= Next(s, e).made
  {
  }

  lemma NewWrapper(s: State, e: Event, c: Conn)
    requires Enabled(s, e) && c !in s.buffer
    requires forall t :: 0 <= t < |s.threads| && s.threads[t].hand == Some(c) ==> Dropping(s.threads[t], c)
    ensures forall w :: |s.wrappers| <= w < |Next(s, e).wrappers| ==> Next(s, e).wrappers[w].conn != c
  {
  }

  /** Closing a wrapper marked unusable retires its connection. */
  lemma CloseRetires(s: State, t: nat, w: nat)
    requires Inv(s) && Enabled(s, Event(t, ConnClose(w))) && Disciplined(s, Event(t, ConnClose(w))) && s.wrappers[w].unusable
    ensures Retired(Next(s, Event(t, ConnClose(w))), s.wrappers[w].conn)
  {
    var u, c := Next(s, Event(t, ConnClose(w))), s.wrappers[w].conn;
    assert Accounted(s, c);
    GatherUpdateAt(s.wrappers, w, s.wrappers[w], Wrapped, c);
    assert Dropping(u.threads[t], c);
  }

  /** From a retirement on, to the end of the run. */
  lemma {:induction false} RunRetired(s: State, events: seq<Event>, c: Conn)
    requires Inv(s) && Retired(s, c) && ValidRun(s, events) && DisciplinedRun(s, events)
    ensures Inv(Final(s, events)) && Retired(Final(s, events), c)
    ensures |s.wrappers| <= |Final(s, events).wrappers|
    ensures forall w :: |s.wrappers| <= w < |Final(s, events).wrappers| ==> Final(s, events).wrappers[w].conn != c
    decreases |events|
  {
    if events != [] {
      var u := Next(s, events[0]);
      StepInv(s, events[0]);
      StaysRetired(s, events[0], c);
      WrappersGrow(s, events[0]);
      RunRetired(u, events[1..], c);
      RunWrappers(u, events[1..]);
    }
  }

  lemma {:induction false} RunWrappers(s: State, events: seq<Event>)
    requires ValidRun(s, events)
    ensures |s.wrappers| <= |Final(s, events).wrappers|
    ensures forall w :: 0 <= w < |s.wrappers| ==> Final(s, events).wrappers[w].conn == s.wrappers[w].conn
    decreases |events|
  {
    if events != [] {
      forall w | 0 <= w < |s.wrappers| ensures w < |Next(s, events[0]).wrappers| && Next(s, events[0]).wrappers[w].conn == s.wrappers[w].conn {
        WrappersGrow(s, events[0]);
        StepFlags(s, events[0], w);
      }
      WrappersGrow(s, events[0]);
      RunWrappers(Next(s, events[0]), events[1..]);
    }
  }

  /**
   In a run that closes no wrapper twice, let a call mark wrapper w unusable before the call that closes
   it. From that Close on its connection is not idle, every wrapper of it is closed and none is made for
   it again; and when no call is in progress it is closed.
   */
  lemma UnusableNeverReused(initial: nat, maxCap: nat, nThreads: nat, before: seq<Event>, t: nat, w: nat, after: seq<Event>)
    requires initial <= maxCap && maxCap > 0
    requires var s := Init(initial, maxCap, nThreads);
             ValidRun(s, before + ([Event(t, ConnClose(w))] + after)) && DisciplinedRun(s, before + ([Event(t, ConnClose(w))] + after))
    requires Marked(before, w)
    ensures var s := Init(initial, maxCap, nThreads);
            && ValidRun(s, before) && w < |Final(s, before).wrappers|
            && var c, u := Final(s, before).wrappers[w].conn, Final(s, before + ([Event(t, ConnClose(w))] + after));
               && c !in u.buffer
               && (forall v :: 0 <= v < |u.wrappers| && u.wrappers[v].conn == c ==> v < |Final(s, before).wrappers| && u.wrappers[v].closed)
               && (Quiescent(u) ==> c !in u.open)
  {
    var s, e := Init(initial, maxCap, nThreads), Event(t, ConnClose(w));
    SplitRun(s, before, [e] + after);
    var mid := Final(s, before);
    assert ([e] + after)[0] == e && ([e] + after)[1..] == after;
    FlagsFollowEvents(s, before, w);
    InitInv(initial, maxCap, nThreads);
    RunInv(s, before);
    var c, next := mid.wrappers[w].conn, Next(mid, e);
    StepInv(mid, e);
    CloseRetires(mid, t, w);
    RunRetired(next, after, c);
    RetiredIsGone(Final(next, after), c);
  }

  lemma {:induction false} SplitRun(s: State, a: seq<Event>, b: seq<Event>)
    requires ValidRun(s, a + b) && DisciplinedRun(s, a + b)
    ensures ValidRun(s, a) && DisciplinedRun(s, a)
    ensures ValidRun(Final(s, a), b) && DisciplinedRun(Final(s, a), b) && Final(s, a + b) == Final(Final(s, a), b)
    decreases |a|
  {
    if a == [] {
      assert a + b == b;
    } else {
      assert (a + b)[1..] == a[1..] + b;
      SplitRun(Next(s, a[0]), a[1..], b);
    }
  }

  // How many there are.

  /** The wrappers that were closed after they had been marked unusable. */
  function Dropped(events: seq<Event>): set<nat>
    decreases |events|
  {
    if events == [] then {}
    else
      var before, op := events[..|events| - 1], events[|events| - 1].op;
      Dropped(before) + if op.ConnClose? && Marked(before, op.w) then {op.w} else {}
  }

  lemma {:induction false} DroppedWereClosed(events: seq<Event>, w: nat)
    requires w in Dropped(events)
    ensures WasClosed(events, w)
    decreases |events|
  {
    var n := |events| - 1;
    if w in Dropped(events[..n]) {
      DroppedWereClosed(events[..n], w);
      assert events == events[..n] + [events[n]];
      MarkedEnds(events[..n], events[n], w);
    }
  }

  function DropWeight(p: Thread): nat {
    if p.stage.DropUnusable? then 1 else 0
  }

  lemma StepDrops(s: State, e: Event)
    requires Enabled(s, e)
    ensures var u := Next(s, e);
            u.droppedUnusable + DropWeight(u.threads[e.t])
            == s.droppedUnusable + DropWeight(s.threads[e.t])
               + if e.op.ConnClose? && s.wrappers[e.op.w].unusable then 1 else 0
  {
    if InWrapper(e.op) {
      WrapperDrops(s, e.t, e.op);
    } else if InRawClose(e.op) {
      RawCloseDrops(s, e.t, e.op);
    } else {
      OthersDropNone(s, e);
    }
  }

  lemma WrapperDrops(s: State, t: nat, op: Op)
    requires Can(s, t, op) && InWrapper(op)
    ensures var u := AfterWrapper(s, t, op);
            && u.droppedUnusable == s.droppedUnusable
            && DropWeight(u.threads[t]) == DropWeight(s.threads[t]) + if op.ConnClose? && s.wrappers[op.w].unusable then 1 else 0
  {
  }

  lemma RawCloseDrops(s: State, t: nat, op: Op)
    requires Can(s, t, op) && InRawClose(op)
    ensures var u := AfterRawClose(s, t, op);
            u.droppedUnusable + DropWeight(u.threads[t]) == s.droppedUnusable + DropWeight(s.threads[t])
  {
  }

  lemma OthersDropNone(s: State, e: Event)
    requires Enabled(s, e) && !InWrapper(e.op) && !InRawClose(e.op)
    ensures var u := Next(s, e);
            u.droppedUnusable == s.droppedUnusable && DropWeight(u.threads[e.t]) == DropWeight(s.threads[e.t])
  {
  }

  lemma {:induction false} DroppedCounted(s: State, events: seq<Event>)
    requires s.wrappers == [] && ValidRun(s, events) && DisciplinedRun(s, events)
    ensures Final(s, events).droppedUnusable + Total(Final(s, events).threads, DropWeight)
            == s.droppedUnusable + Total(s.threads, DropWeight) + |Dropped(events)|
    decreases |events|
  {
    if events != [] {
      var n := |events| - 1;
      var before, e := events[..n], events[n];
      RunEnds(s, events);
      DroppedCounted(s, before);
      var mid := Final(s, before);
      StepDrops(mid, e);
      TotalUpdate(mid.threads, e.t, Next(mid, e).threads[e.t], DropWeight);
      if e.op.ConnClose? {
        FlagsFollowEvents(s, before, e.op.w);
        if e.op.w in Dropped(before) {
          DroppedWereClosed(before, e.op.w);
        }
        assert e.op.w !in Dropped(before);
      }
    }
  }

  /** With no call in progress, exactly the wrappers closed after being marked were dropped behind the counter's back. */
  lemma DroppedExactly(initial: nat, maxCap: nat, nThreads: nat, events: seq<Event>)
    requires initial <= maxCap && maxCap > 0
    requires var s := Init(initial, maxCap, nThreads);
             ValidRun(s, events) && DisciplinedRun(s, events) && Quiescent(Final(s, events))
    ensures Final(Init(initial, maxCap, nThreads), events).droppedUnusable == |Dropped(events)|
  {
    var s := Init(initial, maxCap, nThreads);
    DroppedCounted(s, events);
    TotalZero(s.threads, DropWeight);
    TotalZero(Final(s, events).threads, DropWeight);
  }
}
