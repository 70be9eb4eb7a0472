/**
 The channel-based connection pool under every interleaving of Get, put and Close.

 Threads take one step at a time: a read of the pool's fields under the lock, a channel
 operation, a counter update or a raw close. `connsNil` is the pool's nil-ed field and
 `chanClosed` the closed channel, which are set by two different steps of Close.
 */
module ConnectionPool {
  import opened Collections

  /** A raw connection, numbered in the order the factory made them. */
  type Conn = nat

  /** What a thread is in the middle of. */
  datatype Stage =
    | Idle
    | GetHasChan   // Get has read a non-nil channel and factory
    | GetMade      // the factory returned, nOpenConns not yet incremented
    | PutStart     // put called, read lock not yet taken
    | PutLocked    // read lock held
    | PutSending   // read lock held, conns seen non-nil, about to select on the send
    | PutClosing   // read lock held, counter decremented, about to close the connection
    | DropUnusable // Close of a wrapper marked unusable
    | CloseSwapped // Close has taken the channel out of the pool
    | CloseDraining // Close has closed the channel and ranges over it
    | CloseHolding // ... and has just received a connection

  /** A thread with the raw connection in its hands, if any. */
  datatype Thread = Thread(stage: Stage, hand: Option<Conn>)

  function Bare(stage: Stage): Thread { Thread(stage, None) }

  function With(stage: Stage, conn: Conn): Thread { Thread(stage, Some(conn)) }

  /** A handed out connection; `closed` says that its Close has been called. */
  datatype Wrapper = Wrapper(conn: Conn, unusable: bool, closed: bool)

  /** `droppedUnusable` and `drained` count raw closes that the pool's counter does not see. */
  datatype State = State(
    capacity: nat,
    buffer: seq<Conn>,
    connsNil: bool,
    chanClosed: bool,
    nOpenConns: int,
    threads: seq<Thread>,
    wrappers: seq<Wrapper>,
    made: nat,
    open: set<Conn>,
    droppedUnusable: nat,
    drained: nat)

  datatype Op =
    | GetRead
    | GetReceive
    | GetClosed
    | GetFactory(success: bool)
    | GetCount
    | MarkUnusable(w: nat)
    | ConnClose(w: nat)
    | UnusableDone
    | PutLock
    | PutCheck
    | PutSend
    | PutDone
    | PoolClose
    | CloseChannel
    | DrainReceive
    | DrainClose
    | DrainDone

  /** Thread t performs one operation. */
  datatype Event = Event(t: nat, op: Op)

  /** The pool after NewChannelPool filled it with `initial` connections. */
  function Init(initial: nat, maxCap: nat, nThreads: nat): State
    requires initial <= maxCap && maxCap > 0
  {
    State(maxCap, FirstConns(initial), false, false, initial, IdleThreads(nThreads), [], initial, Below(initial), 0, 0)
  }

  function FirstConns(n: nat): (s: seq<Conn>)
    ensures |s| == n && forall i :: 0 <= i < n ==> s[i] == i
  {
    seq(n, i => i)
  }

  function IdleThreads(n: nat): (s: seq<Thread>)
    ensures |s| == n && forall i :: 0 <= i < n ==> s[i] == Bare(Idle)
  {
    seq(n, _ => Bare(Idle))
  }

  function Below(n: nat): (r: set<nat>)
    ensures |r| == n
    ensures forall c :: 0 <= c ==> (c in r <==> c < n)
  {
    if n == 0 then {} else Below(n - 1) + {n - 1}
  }

  datatype Error = InvalidCapacity | FactoryFailed

  /**
   The constructor: the i-th factory call of a fresh pool makes connection i or fails. A failed call
   closes the pool, so that no connection made before it stays open.
   */
  method NewChannelPool(initialCap: int, maxCap: int, nThreads: nat, succeeds: nat -> bool)
      returns (r: Result<State, Error>, open: set<Conn>)
    ensures r == Err(InvalidCapacity) <==> initialCap < 0 || maxCap <= 0 || initialCap > maxCap
    ensures r.Ok? <==> 0 <= initialCap <= maxCap && maxCap > 0 && forall i: nat :: i < initialCap ==> succeeds(i)
    ensures r.Ok? ==> r.value == Init(initialCap, maxCap, nThreads) && r.value.open == open
    ensures r.Ok? ==>
              && r.value.capacity == maxCap && |r.value.threads| == nThreads && r.value.wrappers == []
              && |r.value.buffer| == r.value.nOpenConns == |open| == r.value.made == initialCap
              && (forall i :: 0 <= i < initialCap ==> r.value.buffer[i] == i && i in open)
              && !r.value.connsNil && !r.value.chanClosed
    ensures r.Err? ==> open == {}
  {
    open := {};
    if initialCap < 0 || maxCap <= 0 || initialCap > maxCap {
      return Err(InvalidCapacity), open;
    }
    var conns: seq<Conn> := [];
    var nOpenConns := 0;
    var i := 0;
    while i < initialCap
      invariant 0 <= i <= initialCap && nOpenConns == i
      invariant |conns| == i && (forall k :: 0 <= k < i ==> conns[k] == k)
      invariant forall c: Conn :: c in open <==> c < i
      invariant forall k: nat :: k < i ==> succeeds(k)
    {
      if !succeeds(i) {
        assert forall c: Conn :: c in open ==> conns[c] == c;
        open := CloseAll(conns, open);
        return Err(FactoryFailed), open;
      }
      open := open + {i};
      nOpenConns := nOpenConns + 1;
      conns := conns + [i];
      i := i + 1;
    }
    assert open == Below(i) && conns == FirstConns(i);
    return Ok(State(maxCap, conns, false, false, nOpenConns, IdleThreads(nThreads), [], i, open, 0, 0)), open;
  }

  /** Close on a pool nobody else uses yet: its idle connections, one by one. */
  method CloseAll(idle: seq<Conn>, open: set<Conn>) returns (left: set<Conn>)
    requires forall c :: c in open ==> c in idle
    ensures left == {}
  {
    left := open;
    var conns := idle;
    while conns != []
      invariant forall c :: c in left ==> c in conns
      decreases |conns|
    {
      left := left - {conns[0]};
      conns := conns[1..];
    }
  }

  predicate HoldsReadLock(p: Thread) { p.stage.PutLocked? || p.stage.PutSending? || p.stage.PutClosing? }

  predicate Enabled(s: State, e: Event) {
    Can(s, e.t, e.op)
  }

  predicate Can(s: State, t: nat, op: Op) {
    t < |s.threads| && Ready(s, s.threads[t], op)
  }

  predicate Ready(s: State, p: Thread, op: Op) {
    match op
    case GetRead => p == Bare(Idle)
    case GetReceive => p == Bare(GetHasChan) && s.buffer != []
    case GetClosed => p == Bare(GetHasChan) && s.buffer == [] && s.chanClosed
    case GetFactory(_) => p == Bare(GetHasChan) && s.buffer == [] && !s.chanClosed
    case GetCount => p.stage == GetMade && p.hand.Some?
    case MarkUnusable(w) => p == Bare(Idle) && w < |s.wrappers|
    case ConnClose(w) => p == Bare(Idle) && w < |s.wrappers|
    case UnusableDone => p.stage == DropUnusable && p.hand.Some?
    case PutLock => p.stage == PutStart && p.hand.Some?
    case PutCheck => p.stage == PutLocked && p.hand.Some?
    case PutSend => p.stage == PutSending && p.hand.Some?
    case PutDone => p.stage == PutClosing && p.hand.Some?
    case PoolClose => p == Bare(Idle) && forall u :: 0 <= u < |s.threads| ==> !HoldsReadLock(s.threads[u])
    case CloseChannel => p == Bare(CloseSwapped)
    case DrainReceive => p == Bare(CloseDraining) && s.buffer != []
    case DrainClose => p.stage == CloseHolding && p.hand.Some?
    case DrainDone => p == Bare(CloseDraining) && s.buffer == []
  }

  // Each part of the pool's code has its own operations and its own transition function.

  predicate InGet(op: Op) { op.GetRead? || op.GetReceive? || op.GetClosed? || op.GetFactory? || op.GetCount? }
  predicate InWrapper(op: Op) { op.MarkUnusable? || op.ConnClose? }
  predicate InPut(op: Op) { op.PutLock? || op.PutCheck? || op.PutSend? }
  predicate InRawClose(op: Op) { op.UnusableDone? || op.PutDone? || op.DrainClose? }
  predicate InClose(op: Op) { op.PoolClose? || op.CloseChannel? || op.DrainReceive? || op.DrainDone? }

  /** An operation changes the phase of its own thread only. */
  predicate OwnThreadOnly(s: State, u: State, t: nat) {
    t < |s.threads| == |u.threads| && u.threads == s.threads[t := u.threads[t]]
  }

  function Next(s: State, e: Event): (u: State)
    requires Enabled(s, e)
    ensures OwnThreadOnly(s, u, e.t)
  {
    if InGet(e.op) then AfterGet(s, e.t, e.op)
    else if InWrapper(e.op) then AfterWrapper(s, e.t, e.op)
    else if InPut(e.op) then AfterPut(s, e.t, e.op)
    else if InRawClose(e.op) then AfterRawClose(s, e.t, e.op)
    else AfterClose(s, e.t, e.op)
  }

  /** Get: read the fields, then receive an idle connection or make a new one and count it. */
  function AfterGet(s: State, t: nat, op: Op): (u: State)
    requires Can(s, t, op) && InGet(op)
    ensures OwnThreadOnly(s, u, t)
  {
    match op
    case GetRead => if s.connsNil then s else To(s, t, Bare(GetHasChan))
    case GetReceive =>
      To(s, t, Bare(Idle)).(buffer := s.buffer[1..], wrappers := s.wrappers + [Wrapper(s.buffer[0], false, false)])
    case GetClosed => To(s, t, Bare(Idle))
    case GetFactory(success) =>
      if success then To(s, t, With(GetMade, s.made)).(made := s.made + 1, open := s.open + {s.made}) else To(s, t, Bare(Idle))
    case GetCount =>
      To(s, t, Bare(Idle)).(nOpenConns := s.nOpenConns + 1, wrappers := s.wrappers + [Wrapper(s.threads[t].hand.value, false, false)])
  }

  /** A wrapper's MarkUnusable, and its Close, which goes to put unless the wrapper is unusable. */
  function AfterWrapper(s: State, t: nat, op: Op): (u: State)
    requires Can(s, t, op) && InWrapper(op)
    ensures OwnThreadOnly(s, u, t)
  {
    match op
    case MarkUnusable(w) => s.(wrappers := s.wrappers[w := s.wrappers[w].(unusable := true)])
    case ConnClose(w) =>
      To(s, t, if s.wrappers[w].unusable then With(DropUnusable, s.wrappers[w].conn) else With(PutStart, s.wrappers[w].conn))
        .(wrappers := s.wrappers[w := s.wrappers[w].(closed := true)])
  }

  /** put: lock, look at conns, send or give up on the connection. */
  function AfterPut(s: State, t: nat, op: Op): (u: State)
    requires Can(s, t, op) && InPut(op)
    ensures OwnThreadOnly(s, u, t)
  {
    var conn := s.threads[t].hand.value;
    match op
    case PutLock => To(s, t, With(PutLocked, conn))
    case PutCheck =>
      if s.connsNil then To(s, t, With(PutClosing, conn)).(nOpenConns := s.nOpenConns - 1) else To(s, t, With(PutSending, conn))
    case PutSend =>
      if |s.buffer| < s.capacity then To(s, t, Bare(Idle)).(buffer := s.buffer + [conn])
      else To(s, t, With(PutClosing, conn)).(nOpenConns := s.nOpenConns - 1)
  }

  /** The three places that close a raw connection; only put has told the counter. */
  function AfterRawClose(s: State, t: nat, op: Op): (u: State)
    requires Can(s, t, op) && InRawClose(op)
    ensures OwnThreadOnly(s, u, t)
  {
    To(s, t, if op.DrainClose? then Bare(CloseDraining) else Bare(Idle))
      .(open := s.open - {s.threads[t].hand.value},
        droppedUnusable := s.droppedUnusable + (if op.UnusableDone? then 1 else 0),
        drained := s.drained + (if op.DrainClose? then 1 else 0))
  }

  /** Close: swap the channel out under the write lock, close it, range over what it still holds. */
  function AfterClose(s: State, t: nat, op: Op): (u: State)
    requires Can(s, t, op) && InClose(op)
    ensures OwnThreadOnly(s, u, t)
  {
    match op
    case PoolClose => if s.connsNil then s else To(s, t, Bare(CloseSwapped)).(connsNil := true)
    case CloseChannel => To(s, t, Bare(CloseDraining)).(chanClosed := true)
    case DrainReceive => To(s, t, With(CloseHolding, s.buffer[0])).(buffer := s.buffer[1..])
    case DrainDone => To(s, t, Bare(Idle))
  }

  function To(s: State, t: nat, p: Thread): State
    requires t < |s.threads|
  {
    s.(threads := s.threads[t := p])
  }

  /** The assumption on callers: a wrapper is closed at most once. */
  predicate Disciplined(s: State, e: Event) {
    e.op.ConnClose? && e.op.w < |s.wrappers| ==> !s.wrappers[e.op.w].closed
  }

  /** The runtime panics the pool could raise: a send on, or a second close of, a closed channel. */
  predicate Panics(s: State, e: Event) {
    s.chanClosed && (e.op.PutSend? || e.op.CloseChannel?)
  }

  // Who holds a raw connection.

  function InHand(p: Thread): multiset<Conn> {
    if p.hand.Some? then multiset{p.hand.value} else multiset{}
  }

  function Wrapped(w: Wrapper): multiset<Conn> {
    if w.closed then multiset{} else multiset{w.conn}
  }

  function Uncounted(p: Thread): nat {
    if p.stage.GetMade? || p.stage.PutClosing? then 1 else 0
  }

  function ThreadHeld(s: State): multiset<Conn> { Gather(s.threads, InHand) }

  function WrapperHeld(s: State): multiset<Conn> { Gather(s.wrappers, Wrapped) }

  /** How many places hold connection c: idle slots, live wrappers and threads. */
  function Holders(s: State, c: Conn): nat {
    multiset(s.buffer)[c] + WrapperHeld(s)[c] + ThreadHeld(s)[c]
  }

  predicate Accounted(s: State, c: Conn) {
    Holders(s, c) == if c in s.open then 1 else 0
  }

  /** Every open connection is held in exactly one place, every other one in none. */
  ghost predicate Owned(s: State) {
    && (forall c: Conn :: Accounted(s, c))
    && (forall c: Conn :: c in s.open ==> c < s.made)
  }

  /** What the counter says against what is really open. */
  predicate Counted(s: State) {
    s.nOpenConns + Total(s.threads, Uncounted) == |s.open| + s.droppedUnusable + s.drained
  }

  function Closer(p: Thread): nat {
    if p.stage.CloseSwapped? then 1 else 0
  }

  /** The channel is closed only after it left the pool, by the one thread that took it out. */
  predicate LockProtocol(s: State) {
    && (s.chanClosed ==> s.connsNil)
    && |s.buffer| <= s.capacity
    && (forall t :: 0 <= t < |s.threads| && s.threads[t].stage.PutSending? ==> !s.connsNil)
    && Total(s.threads, Closer) + (if s.chanClosed then 1 else 0) == (if s.connsNil then 1 else 0)
  }

  predicate Draining(p: Thread) { p.stage.CloseDraining? || p.stage.CloseHolding? }

  /** What a closed channel still holds, some Close is about to take out. */
  predicate DrainProtocol(s: State) {
    s.chanClosed && s.buffer != [] ==> exists t :: 0 <= t < |s.threads| && Draining(s.threads[t])
  }

  ghost predicate Inv(s: State) {
    Owned(s) && Counted(s) && LockProtocol(s) && DrainProtocol(s)
  }

  lemma InitInv(initial: nat, maxCap: nat, nThreads: nat)
    requires initial <= maxCap && maxCap > 0
    ensures Inv(Init(initial, maxCap, nThreads))
  {
    var s := Init(initial, maxCap, nThreads);
    GatherEmpty(s.threads, InHand);
    TotalZero(s.threads, Uncounted);
    TotalZero(s.threads, Closer);
    forall c: Conn ensures Accounted(s, c) {
      FirstNumbers(initial, c);
    }
  }

  lemma {:induction false} FirstNumbers(n: nat, c: nat)
    ensures multiset(FirstConns(n))[c] == if c < n then 1 else 0
  {
    if n > 0 {
      assert FirstConns(n) == FirstConns(n - 1) + [n - 1];
      FirstNumbers(n - 1, c);
    }
  }

  /** What changes for connection c when thread t moves from its phase to p. */
  lemma ThreadMoves(s: State, u: State, t: nat, p: Thread, c: Conn)
    requires t < |s.threads| && u.threads == s.threads[t := p]
    ensures ThreadHeld(u)[c] + InHand(s.threads[t])[c] == ThreadHeld(s)[c] + InHand(p)[c]
    ensures InHand(s.threads[t])[c] <= ThreadHeld(s)[c]
  {
    GatherUpdateAt(s.threads, t, p, InHand, c);
  }

  lemma WrapperAdded(s: State, u: State, conn: Conn, c: Conn)
    requires u.wrappers == s.wrappers + [Wrapper(conn, false, false)]
    ensures WrapperHeld(u)[c] == WrapperHeld(s)[c] + if c == conn then 1 else 0
  {
    GatherAppend(s.wrappers, Wrapper(conn, false, false), Wrapped);
  }

  lemma BufferPopped(s: State, u: State, c: Conn)
    requires s.buffer != [] && u.buffer == s.buffer[1..]
    ensures multiset(s.buffer)[c] == multiset(u.buffer)[c] + if c == s.buffer[0] then 1 else 0
  {
    PopCount(s.buffer, c);
  }

  /** A step that neither opens nor closes c and keeps its count over buffer, wrappers and its own thread. */
  lemma HoldersKept(s: State, u: State, t: nat, c: Conn)
    requires Accounted(s, c) && OwnThreadOnly(s, u, t) && (c in u.open <==> c in s.open)
    requires multiset(u.buffer)[c] + WrapperHeld(u)[c] + InHand(u.threads[t])[c]
             == multiset(s.buffer)[c] + WrapperHeld(s)[c] + InHand(s.threads[t])[c]
    ensures Accounted(u, c)
  {
    ThreadMoves(s, u, t, u.threads[t], c);
  }

  predicate SamePlaces(s: State, u: State, t: nat) {
    && t < |s.threads| == |u.threads| && InHand(u.threads[t]) == InHand(s.threads[t])
    && u.buffer == s.buffer && u.wrappers == s.wrappers && u.open == s.open
  }

  lemma PutKeepsPlaces(s: State, t: nat, op: Op)
    requires Can(s, t, op) && InPut(op) && !(op.PutSend? && |s.buffer| < s.capacity)
    ensures SamePlaces(s, AfterPut(s, t, op), t)
  {
  }

  lemma CloseKeepsPlaces(s: State, t: nat, op: Op)
    requires Can(s, t, op) && InClose(op) && !op.DrainReceive?
    ensures SamePlaces(s, AfterClose(s, t, op), t)
  {
  }

  lemma GetAccounts(s: State, t: nat, op: Op, c: Conn)
    requires Owned(s) && Can(s, t, op) && InGet(op)
    ensures Accounted(AfterGet(s, t, op), c)
  {
    assert Accounted(s, c);
    var u := AfterGet(s, t, op);
    if op.GetReceive? || op.GetCount? {
      HandOutAccounts(s, t, op, c);
    } else if op.GetFactory? && op.success {
      assert s.made !in s.open;
      ThreadMoves(s, u, t, With(GetMade, s.made), c);
    } else {
      HoldersKept(s, u, t, c);
    }
  }

  lemma HandOutAccounts(s: State, t: nat, op: Op, c: Conn)
    requires Owned(s) && Can(s, t, op) && (op.GetReceive? || op.GetCount?)
    ensures Accounted(AfterGet(s, t, op), c)
  {
    assert Accounted(s, c);
    var u := AfterGet(s, t, op);
    if op.GetReceive? {
      BufferPopped(s, u, c);
      WrapperAdded(s, u, s.buffer[0], c);
    } else {
      WrapperAdded(s, u, s.threads[t].hand.value, c);
    }
    HoldersKept(s, u, t, c);
  }

  lemma WrapperAccounts(s: State, t: nat, op: Op, c: Conn)
    requires Owned(s) && Can(s, t, op) && InWrapper(op) && Disciplined(s, Event(t, op))
    ensures Accounted(AfterWrapper(s, t, op), c)
  {
    assert Accounted(s, c);
    var u := AfterWrapper(s, t, op);
    GatherUpdateAt(s.wrappers, op.w, u.wrappers[op.w], Wrapped, c);
    HoldersKept(s, u, t, c);
  }

  lemma PutAccounts(s: State, t: nat, op: Op, c: Conn)
    requires Owned(s) && Can(s, t, op) && InPut(op)
    ensures Accounted(AfterPut(s, t, op), c)
  {
    assert Accounted(s, c);
    if op.PutSend? && |s.buffer| < s.capacity {
      SendAccounts(s, t, c);
    } else {
      PutKeepsPlaces(s, t, op);
      HoldersKept(s, AfterPut(s, t, op), t, c);
    }
  }

  lemma SendAccounts(s: State, t: nat, c: Conn)
    requires Owned(s) && Can(s, t, PutSend) && |s.buffer| < s.capacity
    ensures Accounted(AfterPut(s, t, PutSend), c)
  {
    assert Accounted(s, c);
    var u := AfterPut(s, t, PutSend);
    assert multiset(s.buffer + [s.threads[t].hand.value])[c] == multiset(s.buffer)[c] + if c == s.threads[t].hand.value then 1 else 0;
    HoldersKept(s, u, t, c);
  }

  lemma RawCloseAccounts(s: State, t: nat, op: Op, c: Conn)
    requires Owned(s) && Can(s, t, op) && InRawClose(op)
    ensures s.threads[t].hand.value in s.open
    ensures Accounted(AfterRawClose(s, t, op), c)
  {
    var conn := s.threads[t].hand.value;
    assert Accounted(s, c) && Accounted(s, conn);
    var u := AfterRawClose(s, t, op);
    var p := if op.DrainClose? then Bare(CloseDraining) else Bare(Idle);
    ThreadMoves(s, u, t, p, c);
    ThreadMoves(s, u, t, p, conn);
  }

  lemma CloseAccounts(s: State, t: nat, op: Op, c: Conn)
    requires Owned(s) && Can(s, t, op) && InClose(op)
    ensures Accounted(AfterClose(s, t, op), c)
  {
    assert Accounted(s, c);
    if op.DrainReceive? {
      DrainAccounts(s, t, c);
    } else {
      CloseKeepsPlaces(s, t, op);
      HoldersKept(s, AfterClose(s, t, op), t, c);
    }
  }

  lemma DrainAccounts(s: State, t: nat, c: Conn)
    requires Owned(s) && Can(s, t, DrainReceive)
    ensures Accounted(AfterClose(s, t, DrainReceive), c)
  {
    assert Accounted(s, c);
    var u := AfterClose(s, t, DrainReceive);
    BufferPopped(s, u, c);
    HoldersKept(s, u, t, c);
  }

  lemma HoldersStep(s: State, e: Event, c: Conn)
    requires Owned(s) && Enabled(s, e) && Disciplined(s, e)
    ensures Accounted(Next(s, e), c)
  {
    if InGet(e.op) {
      GetAccounts(s, e.t, e.op, c);
    } else if InWrapper(e.op) {
      WrapperAccounts(s, e.t, e.op, c);
    } else if InPut(e.op) {
      PutAccounts(s, e.t, e.op, c);
    } else if InRawClose(e.op) {
      RawCloseAccounts(s, e.t, e.op, c);
    } else {
      CloseAccounts(s, e.t, e.op, c);
    }
  }

  lemma OpenGrows(s: State, e: Event, c: Conn)
    requires Enabled(s, e) && c in Next(s, e).open
    ensures c in s.open || (c == s.made && Next(s, e).made == s.made + 1)
    ensures Next(s, e).made >= s.made
  {
  }

  /** A second Close of a wrapper puts its connection into one more hand. */
  lemma SecondCloseShares(s: State, t: nat, w: nat)
    requires Can(s, t, ConnClose(w)) && s.wrappers[w].closed && Accounted(s, s.wrappers[w].conn)
    ensures !Accounted(AfterWrapper(s, t, ConnClose(w)), s.wrappers[w].conn)
  {
    var u, conn := AfterWrapper(s, t, ConnClose(w)), s.wrappers[w].conn;
    assert u.wrappers == s.wrappers;
    ThreadMoves(s, u, t, u.threads[t], conn);
  }

  /** Every step keeps ownership exactly if it is not a second Close of a wrapper. */
  lemma StepOwned(s: State, e: Event)
    requires Owned(s) && Enabled(s, e)
    ensures Owned(Next(s, e)) <==> Disciplined(s, e)
  {
    var u := Next(s, e);
    if Disciplined(s, e) {
      forall c: Conn ensures Accounted(u, c) {
        HoldersStep(s, e, c);
      }
      forall c: Conn | c in u.open ensures c < u.made {
        OpenGrows(s, e, c);
      }
    } else {
      assert Accounted(s, s.wrappers[e.op.w].conn);
      SecondCloseShares(s, e.t, e.op.w);
    }
  }

  lemma StepCounted(s: State, e: Event)
    requires Owned(s) && Counted(s) && Enabled(s, e)
    ensures Counted(Next(s, e))
  {
    var u := Next(s, e);
    TotalUpdate(s.threads, e.t, u.threads[e.t], Uncounted);
    CounterMoves(s, e);
  }

  /** How the counter, the open set and the thread's uncounted state move against each other. */
  predicate Balanced(s: State, u: State, t: nat)
    requires t < |s.threads| == |u.threads|
  {
    (u.nOpenConns - s.nOpenConns) + (Uncounted(u.threads[t]) - Uncounted(s.threads[t]))
    == (|u.open| - |s.open|) + (u.droppedUnusable - s.droppedUnusable) + (u.drained - s.drained)
  }

  lemma CounterMoves(s: State, e: Event)
    requires Owned(s) && Enabled(s, e)
    ensures |Next(s, e).threads| == |s.threads| && Balanced(s, Next(s, e), e.t)
  {
    if InGet(e.op) {
      GetBalanced(s, e.t, e.op);
    } else if InPut(e.op) {
      PutBalanced(s, e.t, e.op);
    } else if InRawClose(e.op) {
      RawCloseBalanced(s, e.t, e.op);
    } else if InWrapper(e.op) {
      WrapperBalanced(s, e.t, e.op);
    } else {
      CloseBalanced(s, e.t, e.op);
    }
  }

  lemma GetBalanced(s: State, t: nat, op: Op)
    requires Owned(s) && Can(s, t, op) && InGet(op)
    ensures |AfterGet(s, t, op).threads| == |s.threads| && Balanced(s, AfterGet(s, t, op), t)
  {
  }

  lemma PutBalanced(s: State, t: nat, op: Op)
    requires Can(s, t, op) && InPut(op)
    ensures |AfterPut(s, t, op).threads| == |s.threads| && Balanced(s, AfterPut(s, t, op), t)
  {
  }

  lemma WrapperBalanced(s: State, t: nat, op: Op)
    requires Can(s, t, op) && InWrapper(op)
    ensures |AfterWrapper(s, t, op).threads| == |s.threads| && Balanced(s, AfterWrapper(s, t, op), t)
  {
  }

  lemma RawCloseBalanced(s: State, t: nat, op: Op)
    requires Owned(s) && Can(s, t, op) && InRawClose(op)
    ensures |AfterRawClose(s, t, op).threads| == |s.threads| && Balanced(s, AfterRawClose(s, t, op), t)
  {
    RawCloseAccounts(s, t, op, 0);
    assert |s.open - {s.threads[t].hand.value}| == |s.open| - 1;
  }

  lemma CloseBalanced(s: State, t: nat, op: Op)
    requires Can(s, t, op) && InClose(op)
    ensures |AfterClose(s, t, op).threads| == |s.threads| && Balanced(s, AfterClose(s, t, op), t)
  {
  }

  lemma StepLockProtocol(s: State, e: Event)
    requires LockProtocol(s) && Enabled(s, e)
    ensures LockProtocol(Next(s, e))
  {
    var u := Next(s, e);
    TotalUpdate(s.threads, e.t, u.threads[e.t], Closer);
    if InClose(e.op) {
      CloseKeepsProtocol(s, e.t, e.op);
    } else {
      FlagsKept(s, e);
    }
  }

  /** Outside Close nobody touches the two flags or takes on the duty to close the channel. */
  lemma FlagsKept(s: State, e: Event)
    requires Enabled(s, e) && !InClose(e.op) && |s.buffer| <= s.capacity
    ensures var u := Next(s, e);
            && |u.threads| == |s.threads| && |u.buffer| <= u.capacity
            && u.connsNil == s.connsNil && u.chanClosed == s.chanClosed
            && Closer(u.threads[e.t]) == Closer(s.threads[e.t])
            && (u.threads[e.t].stage.PutSending? ==> !s.connsNil || s.threads[e.t].stage.PutSending?)
  {
  }

  lemma CloseKeepsProtocol(s: State, t: nat, op: Op)
    requires LockProtocol(s) && Can(s, t, op) && InClose(op)
    ensures LockProtocol(AfterClose(s, t, op))
  {
    var u := AfterClose(s, t, op);
    TotalUpdate(s.threads, t, u.threads[t], Closer);
    if op.PoolClose? && !s.connsNil {
      forall v | 0 <= v < |u.threads| ensures !u.threads[v].stage.PutSending? {
        assert v == t || !HoldsReadLock(s.threads[v]);
      }
    }
  }

  lemma StepDrainProtocol(s: State, e: Event)
    requires LockProtocol(s) && DrainProtocol(s) && Enabled(s, e)
    ensures DrainProtocol(Next(s, e))
  {
    var u := Next(s, e);
    if u.chanClosed && u.buffer != [] {
      DrainerKept(s, e);
      if e.op.CloseChannel? {
        assert Draining(u.threads[e.t]);
      } else {
        var t :| 0 <= t < |s.threads| && Draining(s.threads[t]);
        assert t != e.t ==> u.threads[t] == s.threads[t];
        assert Draining(u.threads[t]);
      }
    }
  }

  /** Once the channel is closed nothing is sent on it, and a drainer stays one until it is empty. */
  lemma DrainerKept(s: State, e: Event)
    requires LockProtocol(s) && Enabled(s, e)
    ensures var u := Next(s, e);
            && (u.chanClosed && !e.op.CloseChannel? ==> s.chanClosed)
            && (u.chanClosed && u.buffer != [] && !e.op.CloseChannel? ==> s.buffer != [])
            && (u.buffer != [] && Draining(s.threads[e.t]) ==> Draining(u.threads[e.t]))
  {
    if e.op.PutSend? {
      assert s.threads[e.t].stage.PutSending?;
    }
  }

  /** Every step keeps the whole invariant exactly if it is not a second Close of a wrapper. */
  lemma StepInv(s: State, e: Event)
    requires Inv(s) && Enabled(s, e)
    ensures Inv(Next(s, e)) <==> Disciplined(s, e)
  {
    StepDrainProtocol(s, e);
    StepOwned(s, e);
    StepCounted(s, e);
    StepLockProtocol(s, e);
  }

  // Runs.

  predicate ValidRun(s: State, events: seq<Event>)
    decreases |events|
  {
    events == [] || (Enabled(s, events[0]) && ValidRun(Next(s, events[0]), events[1..]))
  }

  function Final(s: State, events: seq<Event>): State
    requires ValidRun(s, events)
    decreases |events|
  {
    if events == [] then s else Final(Next(s, events[0]), events[1..])
  }

  predicate DisciplinedRun(s: State, events: seq<Event>)
    requires ValidRun(s, events)
    decreases |events|
  {
    events == [] || (Disciplined(s, events[0]) && DisciplinedRun(Next(s, events[0]), events[1..]))
  }

  /** Every state an interleaving can reach in which callers close each wrapper at most once. */
  ghost predicate Reachable(s: State) {
    exists initial: nat, maxCap: nat, nThreads: nat, events ::
      && initial <= maxCap && maxCap > 0
      && ValidRun(Init(initial, maxCap, nThreads), events)
      && DisciplinedRun(Init(initial, maxCap, nThreads), events)
      && Final(Init(initial, maxCap, nThreads), events) == s
  }

  lemma {:induction false} RunInv(s: State, events: seq<Event>)
    requires Inv(s) && ValidRun(s, events) && DisciplinedRun(s, events)
    ensures Inv(Final(s, events))
    decreases |events|
  {
    if events != [] {
      StepInv(s, events[0]);
      RunInv(Next(s, events[0]), events[1..]);
    }
  }

  lemma ReachableInv(s: State)
    requires Reachable(s)
    ensures Inv(s)
  {
    var initial: nat, maxCap: nat, nThreads: nat, events :|
      && initial <= maxCap && maxCap > 0
      && ValidRun(Init(initial, maxCap, nThreads), events)
      && DisciplinedRun(Init(initial, maxCap, nThreads), events)
      && Final(Init(initial, maxCap, nThreads), events) == s;
    InitInv(initial, maxCap, nThreads);
    RunInv(Init(initial, maxCap, nThreads), events);
  }

  /** Ownership holds before, between and after the steps of a run. */
  ghost predicate OwnedThroughout(s: State, events: seq<Event>)
    requires ValidRun(s, events)
    decreases |events|
  {
    Owned(s) && (events == [] || OwnedThroughout(Next(s, events[0]), events[1..]))
  }

  lemma {:induction false} RunOwned(s: State, events: seq<Event>)
    requires Inv(s) && ValidRun(s, events)
    ensures OwnedThroughout(s, events) <==> DisciplinedRun(s, events)
    decreases |events|
  {
    if events != [] {
      StepInv(s, events[0]);
      if Disciplined(s, events[0]) {
        RunOwned(Next(s, events[0]), events[1..]);
      } else {
        StepOwned(s, events[0]);
      }
    }
  }

  /** A run of a pool keeps ownership throughout exactly if no wrapper is closed twice in it. */
  lemma OwnedExactly(initial: nat, maxCap: nat, nThreads: nat, events: seq<Event>)
    requires initial <= maxCap && maxCap > 0 && ValidRun(Init(initial, maxCap, nThreads), events)
    ensures OwnedThroughout(Init(initial, maxCap, nThreads), events) <==> DisciplinedRun(Init(initial, maxCap, nThreads), events)
  {
    InitInv(initial, maxCap, nThreads);
    RunOwned(Init(initial, maxCap, nThreads), events);
  }

  /** Exactly one of idle, wrapped, in a thread's hands, or closed: a connection has one holder while open and none after. */
  lemma Ownership(s: State, c: Conn)
    requires Reachable(s)
    ensures Holders(s, c) == if c in s.open then 1 else 0
    ensures c in s.open ==> c < s.made
    ensures |s.buffer| <= s.capacity
  {
    ReachableInv(s);
    assert Accounted(s, c);
  }

  /** No two live wrappers share a raw connection, and a wrapped one is neither idle nor closed. */
  lemma ExclusiveUse(s: State, v: nat, w: nat)
    requires Reachable(s)
    requires v < |s.wrappers| && w < |s.wrappers| && v != w
    requires !s.wrappers[v].closed && !s.wrappers[w].closed
    ensures s.wrappers[v].conn != s.wrappers[w].conn
    ensures s.wrappers[v].conn in s.open && s.wrappers[v].conn !in s.buffer
  {
    ReachableInv(s);
    var c := s.wrappers[v].conn;
    assert Accounted(s, c);
    GatherUpdateAt(s.wrappers, v, s.wrappers[v].(closed := true), Wrapped, c);
    var without := s.wrappers[v := s.wrappers[v].(closed := true)];
    GatherUpdateAt(without, w, s.wrappers[w], Wrapped, c);
    assert Gather(without, Wrapped)[c] + 1 == WrapperHeld(s)[c];
    assert c in s.buffer ==> c in multiset(s.buffer);
  }

  /** put never sends on a closed channel and the channel is never closed twice. */
  lemma NoPanic(s: State, e: Event)
    requires Reachable(s) && Enabled(s, e)
    ensures !Panics(s, e)
  {
    ReachableInv(s);
    if e.op.CloseChannel? {
      TotalUpdate(s.threads, e.t, Bare(Idle), Closer);
    }
  }

  predicate Quiescent(s: State) {
    forall t :: 0 <= t < |s.threads| ==> s.threads[t] == Bare(Idle)
  }

  /** With no call in progress the counter exceeds the open connections by the unusable and the drained ones. */
  lemma CounterOvershoot(s: State)
    requires Reachable(s) && Quiescent(s)
    ensures s.nOpenConns == |s.open| + s.droppedUnusable + s.drained
  {
    ReachableInv(s);
    TotalZero(s.threads, Uncounted);
  }

  /** At rest after Close, connections are left open exactly if some wrapper was not closed. */
  lemma NoLeak(s: State)
    requires Reachable(s) && Quiescent(s) && s.connsNil
    ensures s.open == {} <==> forall w :: 0 <= w < |s.wrappers| ==> s.wrappers[w].closed
  {
    ReachableInv(s);
    TotalZero(s.threads, Closer);
    assert s.buffer == [];
    if forall w :: 0 <= w < |s.wrappers| ==> s.wrappers[w].closed {
      GatherEmpty(s.threads, InHand);
      GatherEmpty(s.wrappers, Wrapped);
      forall c: Conn ensures c !in s.open {
        assert Accounted(s, c);
      }
      assert s.open == {};
    } else {
      var w :| 0 <= w < |s.wrappers| && !s.wrappers[w].closed;
      assert Accounted(s, s.wrappers[w].conn);
      GatherUpdateAt(s.wrappers, w, s.wrappers[w], Wrapped, s.wrappers[w].conn);
    }
  }

  lemma {:induction false} RunConcat(s: State, a: seq<Event>, b: seq<Event>)
    requires ValidRun(s, a) && ValidRun(Final(s, a), b)
    ensures ValidRun(s, a + b) && Final(s, a + b) == Final(Final(s, a), b)
    decreases |a|
  {
    if a == [] {
      assert a + b == b;
    } else {
      assert (a + b)[1..] == a[1..] + b;
      RunConcat(Next(s, a[0]), a[1..], b);
    }
  }
}
