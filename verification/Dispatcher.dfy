/**
 The dispatcher and its worker pool as a transition system over bounded channels.

 One mover goroutine drains the input queue into the pending buffer, a fixed set of
 assigners pairs pending work with tokens taken from the worker pool, and every worker
 offers its own queue as a token before it waits for work. A state records what sits in
 each channel and in each goroutine's hands; an event is one channel operation.
 */
module Dispatcher {
  import opened Collections

  const PENDING_BUFFER_MIN: nat := 65536

  /** The identity of one submission. */
  type Work = nat

  datatype Config = Config(maxWorkers: nat, maxQueue: nat) {
    function PendingCap(): nat {
      if maxQueue < PENDING_BUFFER_MIN then PENDING_BUFFER_MIN else maxQueue
    }
  }

  /** A goroutine that has returned keeps what it still held, which is then lost. */
  datatype Mover = MoverFree | MoverHolding(work: Work) | MoverGone(lost: seq<Work>)

  datatype Assigner =
    | Free
    | Holding(work: Work)
    | Handing(work: Work, token: nat)
    | AssignerGone(lost: multiset<Work>)

  datatype Worker = Offering | Waiting | Executing(work: Work) | WorkerGone

  /** `accepted`, `taken` and `executed` are histories; the rest is what the channels and goroutines hold. */
  datatype State = State(
    inputQueue: seq<Work>,
    mover: Mover,
    pending: seq<Work>,
    assigners: seq<Assigner>,
    workers: seq<Worker>,
    workerPool: seq<nat>,
    cancelled: bool,
    accepted: seq<Work>,
    taken: seq<Work>,
    executed: seq<Work>)

  datatype Event =
    | Submit(work: Work)
    | MoverTake
    | MoverPut
    | MoverQuit
    | AssignerTake(i: nat)
    | AssignerGrab(i: nat)
    | Deliver(i: nat)
    | AssignerQuit(i: nat)
    | WorkerOffer(k: nat)
    | WorkerFinish(k: nat)
    | WorkerQuit(k: nat)
    | Cancel

  function Init(c: Config): State {
    State([], MoverFree, [], seq(c.maxWorkers, _ => Free), seq(c.maxWorkers, _ => Offering), [], false, [], [], [])
  }

  /** A send needs room (or, on an unbuffered channel, a ready receiver), a receive needs an element. */
  predicate Enabled(c: Config, s: State, e: Event) {
    match e
    case Submit(_) => if c.maxQueue == 0 then s.mover == MoverFree else |s.inputQueue| < c.maxQueue
    case MoverTake => s.mover == MoverFree && s.inputQueue != []
    case MoverPut => s.mover.MoverHolding? && |s.pending| < c.PendingCap()
    case MoverQuit => s.cancelled && !s.mover.MoverGone?
    case AssignerTake(i) => i < |s.assigners| && s.assigners[i].Free? && s.pending != []
    case AssignerGrab(i) => i < |s.assigners| && s.assigners[i].Holding? && s.workerPool != []
    case Deliver(i) =>
      && i < |s.assigners| && s.assigners[i].Handing?
      && s.assigners[i].token < |s.workers| && s.workers[s.assigners[i].token].Waiting?
    case AssignerQuit(i) => s.cancelled && i < |s.assigners| && (s.assigners[i].Free? || s.assigners[i].Holding?)
    case WorkerOffer(k) => k < |s.workers| && s.workers[k].Offering? && |s.workerPool| < c.maxWorkers
    case WorkerFinish(k) => k < |s.workers| && s.workers[k].Executing?
    case WorkerQuit(k) => s.cancelled && k < |s.workers| && s.workers[k].Waiting?
    case Cancel => true
  }

  function Next(c: Config, s: State, e: Event): State
    requires Enabled(c, s, e)
  {
    match e
    case Submit(w) =>
      var t := s.(accepted := s.accepted + [w]);
      if c.maxQueue == 0 then t.(mover := MoverHolding(w)) else t.(inputQueue := s.inputQueue + [w])
    case MoverTake => s.(mover := MoverHolding(s.inputQueue[0]), inputQueue := s.inputQueue[1..])
    case MoverPut => s.(mover := MoverFree, pending := s.pending + [s.mover.work])
    case MoverQuit => s.(mover := MoverGone(MoverWork(s.mover)))
    case AssignerTake(i) =>
      s.(assigners := s.assigners[i := Holding(s.pending[0])], pending := s.pending[1..], taken := s.taken + [s.pending[0]])
    case AssignerGrab(i) =>
      s.(assigners := s.assigners[i := Handing(s.assigners[i].work, s.workerPool[0])], workerPool := s.workerPool[1..])
    case Deliver(i) =>
      s.(assigners := s.assigners[i := Free],
         workers := s.workers[s.assigners[i].token := Executing(s.assigners[i].work)])
    case AssignerQuit(i) => s.(assigners := s.assigners[i := AssignerGone(AssignerWork(s.assigners[i]))])
    case WorkerOffer(k) => s.(workers := s.workers[k := Waiting], workerPool := s.workerPool + [k])
    case WorkerFinish(k) => s.(workers := s.workers[k := Offering], executed := s.executed + [s.workers[k].work])
    case WorkerQuit(k) => s.(workers := s.workers[k := WorkerGone])
    case Cancel => s.(cancelled := true)
  }

  // What each goroutine holds.

  function MoverWork(m: Mover): seq<Work> {
    match m
    case MoverFree => []
    case MoverHolding(w) => [w]
    case MoverGone(lost) => lost
  }

  function AssignerWork(a: Assigner): multiset<Work> {
    match a
    case Free => multiset{}
    case Holding(w) => multiset{w}
    case Handing(w, _) => multiset{w}
    case AssignerGone(lost) => lost
  }

  function AssignerToken(a: Assigner): multiset<nat> {
    if a.Handing? then multiset{a.token} else multiset{}
  }

  function WorkerWork(w: Worker): multiset<Work> {
    if w.Executing? then multiset{w.work} else multiset{}
  }

  function HeldWork(s: State): multiset<Work> { Gather(s.assigners, AssignerWork) }

  function RunningWork(s: State): multiset<Work> { Gather(s.workers, WorkerWork) }

  function HandedTokens(s: State): multiset<nat> { Gather(s.assigners, AssignerToken) }

  /** How often worker k's queue occurs in the pool and in the assigners' hands together. */
  function TokenCount(s: State, k: nat): nat { multiset(s.workerPool)[k] + HandedTokens(s)[k] }

  // The invariant.

  predicate Bounded(c: Config, s: State) {
    && |s.assigners| == c.maxWorkers
    && |s.workers| == c.maxWorkers
    && |s.inputQueue| <= c.maxQueue
    && |s.pending| <= c.PendingCap()
    && |MoverWork(s.mover)| <= 1
    && (forall i :: 0 <= i < |s.assigners| ==> |AssignerWork(s.assigners[i])| <= 1)
  }

  /** Accepted work, in acceptance order, is what was taken, then what is pending, then the mover's, then the input queue. */
  predicate InOrder(s: State) {
    s.accepted == s.taken + s.pending + MoverWork(s.mover) + s.inputQueue
  }

  /** Conservation counted for one submission. */
  predicate ConservedFor(s: State, w: Work) {
    multiset(s.taken)[w] == HeldWork(s)[w] + RunningWork(s)[w] + multiset(s.executed)[w]
  }

  /** Work taken by assigners is held by one of them, being executed, or executed. */
  ghost predicate Conserved(s: State) {
    forall w: Work :: ConservedFor(s, w)
  }

  lemma TakenWork(s: State)
    requires Conserved(s)
    ensures multiset(s.taken) == HeldWork(s) + RunningWork(s) + multiset(s.executed)
  {
    var places := HeldWork(s) + RunningWork(s) + multiset(s.executed);
    forall w: Work ensures multiset(s.taken)[w] == places[w] {
      assert ConservedFor(s, w);
    }
    SameCounts(multiset(s.taken), places);
  }

  /** The number of tokens worker k should have in circulation. */
  function TokensOwed(s: State, k: nat): nat {
    if k < |s.workers| && (s.workers[k].Waiting? || s.workers[k].WorkerGone?) then 1 else 0
  }

  /** Worker k's token exists exactly while worker k waits to receive (or has quit while waiting), and then once. */
  ghost predicate TokensMatch(s: State) {
    forall k: nat :: TokenCount(s, k) == TokensOwed(s, k)
  }

  /** Goroutines return only after cancellation. */
  predicate AliveUntilCancelled(s: State) {
    !s.cancelled ==>
      && !s.mover.MoverGone?
      && (forall i :: 0 <= i < |s.assigners| ==> !s.assigners[i].AssignerGone?)
      && (forall k :: 0 <= k < |s.workers| ==> !s.workers[k].WorkerGone?)
  }

  ghost predicate Inv(c: Config, s: State) {
    Bounded(c, s) && InOrder(s) && Conserved(s) && TokensMatch(s) && AliveUntilCancelled(s)
  }

  lemma InitInv(c: Config)
    ensures Inv(c, Init(c))
  {
    var s := Init(c);
    GatherEmpty(s.assigners, AssignerWork);
    GatherEmpty(s.assigners, AssignerToken);
    GatherEmpty(s.workers, WorkerWork);
  }

  lemma StepInOrder(c: Config, s: State, e: Event)
    requires Bounded(c, s) && InOrder(s) && Enabled(c, s, e)
    ensures InOrder(Next(c, s, e))
  {
  }

  lemma StepConserved(c: Config, s: State, e: Event)
    requires Conserved(s) && Enabled(c, s, e)
    ensures Conserved(Next(c, s, e))
  {
    forall w: Work ensures ConservedFor(Next(c, s, e), w) {
      assert ConservedFor(s, w);
      ConservedStep(c, s, e, w);
    }
  }

  lemma ConservedStep(c: Config, s: State, e: Event, w: Work)
    requires ConservedFor(s, w) && Enabled(c, s, e)
    ensures ConservedFor(Next(c, s, e), w)
  {
    match e
    case AssignerTake(i) => TakeConserves(c, s, i, w);
    case AssignerGrab(i) => AssignerConserves(c, s, e, w);
    case AssignerQuit(i) => AssignerConserves(c, s, e, w);
    case Deliver(i) => DeliverConserves(c, s, e, w);
    case WorkerOffer(k) => WorkerConserves(c, s, e, w);
    case WorkerFinish(k) => WorkerConserves(c, s, e, w);
    case WorkerQuit(k) => WorkerConserves(c, s, e, w);
    case _ => OthersConserve(c, s, e);
  }

  lemma OthersConserve(c: Config, s: State, e: Event)
    requires Enabled(c, s, e) && (e.Submit? || e.MoverTake? || e.MoverPut? || e.MoverQuit? || e.Cancel?)
    ensures var t := Next(c, s, e);
            t.taken == s.taken && t.assigners == s.assigners && t.workers == s.workers && t.executed == s.executed && t.workerPool == s.workerPool
  {
  }

  lemma TakeConserves(c: Config, s: State, i: nat, w: Work)
    requires Enabled(c, s, AssignerTake(i))
    ensures var t := Next(c, s, AssignerTake(i));
            && t.executed == s.executed && t.workers == s.workers
            && multiset(t.taken)[w] + HeldWork(s)[w] == multiset(s.taken)[w] + HeldWork(t)[w]
  {
    GatherUpdateAt(s.assigners, i, Holding(s.pending[0]), AssignerWork, w);
  }

  lemma AssignerConserves(c: Config, s: State, e: Event, w: Work)
    requires Enabled(c, s, e) && (e.AssignerGrab? || e.AssignerQuit?)
    ensures var t := Next(c, s, e);
            t.executed == s.executed && t.workers == s.workers && t.taken == s.taken && HeldWork(t)[w] == HeldWork(s)[w]
  {
    var a := s.assigners[e.i];
    GatherUpdateAt(s.assigners, e.i, if e.AssignerGrab? then Handing(a.work, s.workerPool[0]) else AssignerGone(AssignerWork(a)), AssignerWork, w);
  }

  lemma DeliverConserves(c: Config, s: State, e: Event, w: Work)
    requires Enabled(c, s, e) && e.Deliver?
    ensures var t := Next(c, s, e);
            && t.executed == s.executed && t.taken == s.taken
            && HeldWork(t)[w] + RunningWork(t)[w] == HeldWork(s)[w] + RunningWork(s)[w]
  {
    var t := Next(c, s, e);
    var k := s.assigners[e.i].token;
    GatherUpdateAt(s.assigners, e.i, Free, AssignerWork, w);
    GatherUpdateAt(s.workers, k, Executing(s.assigners[e.i].work), WorkerWork, w);
  }

  lemma WorkerConserves(c: Config, s: State, e: Event, w: Work)
    requires Enabled(c, s, e) && (e.WorkerOffer? || e.WorkerFinish? || e.WorkerQuit?)
    ensures var t := Next(c, s, e);
            && t.taken == s.taken && t.assigners == s.assigners
            && RunningWork(t)[w] + multiset(t.executed)[w] == RunningWork(s)[w] + multiset(s.executed)[w]
  {
    var t := Next(c, s, e);
    GatherUpdateAt(s.workers, e.k, t.workers[e.k], WorkerWork, w);
  }

  lemma StepTokens(c: Config, s: State, e: Event)
    requires TokensMatch(s) && Enabled(c, s, e)
    ensures TokensMatch(Next(c, s, e))
  {
    forall k: nat ensures TokenCount(Next(c, s, e), k) == TokensOwed(Next(c, s, e), k) {
      assert TokenCount(s, k) == TokensOwed(s, k);
      TokenStep(c, s, e, k);
    }
  }

  lemma TokenStep(c: Config, s: State, e: Event, k: nat)
    requires Enabled(c, s, e) && TokenCount(s, k) == TokensOwed(s, k)
    ensures TokenCount(Next(c, s, e), k) == TokensOwed(Next(c, s, e), k)
  {
    match e
    case AssignerTake(i) => IdleHandTokens(c, s, e, k);
    case AssignerQuit(i) => IdleHandTokens(c, s, e, k);
    case AssignerGrab(i) => GrabTokens(c, s, i, k);
    case Deliver(i) =>
      DeliverTokens(c, s, i, k);
      DeliverOwed(c, s, i, k);
    case WorkerOffer(j) => OfferTokens(c, s, j, k);
    case WorkerFinish(j) => BusyWorkerTokens(c, s, e, k);
    case WorkerQuit(j) => BusyWorkerTokens(c, s, e, k);
    case _ => OthersConserve(c, s, e);
  }

  lemma OfferTokens(c: Config, s: State, j: nat, k: nat)
    requires Enabled(c, s, WorkerOffer(j))
    ensures TokenCount(Next(c, s, WorkerOffer(j)), k) == TokenCount(s, k) + if k == j then 1 else 0
    ensures TokensOwed(Next(c, s, WorkerOffer(j)), k) == TokensOwed(s, k) + if k == j then 1 else 0
  {
  }

  lemma BusyWorkerTokens(c: Config, s: State, e: Event, k: nat)
    requires Enabled(c, s, e) && (e.WorkerFinish? || e.WorkerQuit?)
    ensures TokenCount(Next(c, s, e), k) == TokenCount(s, k)
    ensures TokensOwed(Next(c, s, e), k) == TokensOwed(s, k)
  {
  }

  lemma IdleHandTokens(c: Config, s: State, e: Event, k: nat)
    requires Enabled(c, s, e) && (e.AssignerTake? || e.AssignerQuit?)
    ensures TokenCount(Next(c, s, e), k) == TokenCount(s, k) && Next(c, s, e).workers == s.workers
  {
    GatherUpdateAt(s.assigners, e.i, if e.AssignerTake? then Holding(s.pending[0]) else AssignerGone(AssignerWork(s.assigners[e.i])), AssignerToken, k);
  }

  lemma GrabTokens(c: Config, s: State, i: nat, k: nat)
    requires Enabled(c, s, AssignerGrab(i))
    ensures TokenCount(Next(c, s, AssignerGrab(i)), k) == TokenCount(s, k) && Next(c, s, AssignerGrab(i)).workers == s.workers
  {
    GatherUpdateAt(s.assigners, i, Handing(s.assigners[i].work, s.workerPool[0]), AssignerToken, k);
    PopCount(s.workerPool, k);
  }

  lemma DeliverTokens(c: Config, s: State, i: nat, k: nat)
    requires Enabled(c, s, Deliver(i))
    ensures TokenCount(Next(c, s, Deliver(i)), k) + (if k == s.assigners[i].token then 1 else 0) == TokenCount(s, k)
  {
    var t := Next(c, s, Deliver(i));
    assert t.workerPool == s.workerPool && t.assigners == s.assigners[i := Free];
    HandEmptied(s, t, i, k);
  }

  lemma HandEmptied(s: State, t: State, i: nat, k: nat)
    requires i < |s.assigners| && s.assigners[i].Handing? && t.assigners == s.assigners[i := Free]
    ensures HandedTokens(t)[k] + (if k == s.assigners[i].token then 1 else 0) == HandedTokens(s)[k]
  {
    GatherUpdateAt(s.assigners, i, Free, AssignerToken, k);
  }

  lemma DeliverOwed(c: Config, s: State, i: nat, k: nat)
    requires Enabled(c, s, Deliver(i))
    ensures TokensOwed(Next(c, s, Deliver(i)), k) + (if k == s.assigners[i].token then 1 else 0) == TokensOwed(s, k)
  {
  }

  lemma StepBounded(c: Config, s: State, e: Event)
    requires Bounded(c, s) && AliveUntilCancelled(s) && Enabled(c, s, e)
    ensures Bounded(c, Next(c, s, e)) && AliveUntilCancelled(Next(c, s, e))
  {
  }

  lemma StepInv(c: Config, s: State, e: Event)
    requires Inv(c, s) && Enabled(c, s, e)
    ensures Inv(c, Next(c, s, e))
  {
    StepBounded(c, s, e);
    StepInOrder(c, s, e);
    StepConserved(c, s, e);
    StepTokens(c, s, e);
  }

  // Runs.

  predicate ValidRun(c: Config, s: State, events: seq<Event>)
    decreases |events|
  {
    events == [] || (Enabled(c, s, events[0]) && ValidRun(c, Next(c, s, events[0]), events[1..]))
  }

  function Final(c: Config, s: State, events: seq<Event>): State
    requires ValidRun(c, s, events)
    decreases |events|
  {
    if events == [] then s else Final(c, Next(c, s, events[0]), events[1..])
  }

  lemma {:induction false} RunInv(c: Config, s: State, events: seq<Event>)
    requires Inv(c, s) && ValidRun(c, s, events)
    ensures Inv(c, Final(c, s, events))
    decreases |events|
  {
    if events != [] {
      StepInv(c, s, events[0]);
      RunInv(c, Next(c, s, events[0]), events[1..]);
    }
  }

  /** Every state any interleaving can reach. */
  ghost predicate Reachable(c: Config, s: State) {
    exists events :: ValidRun(c, Init(c), events) && Final(c, Init(c), events) == s
  }

  lemma ReachableInv(c: Config, s: State)
    requires Reachable(c, s)
    ensures Inv(c, s)
  {
    var events :| ValidRun(c, Init(c), events) && Final(c, Init(c), events) == s;
    InitInv(c);
    RunInv(c, Init(c), events);
  }

  /** Nothing is lost, duplicated or taken out of order: the places partition what was accepted. */
  lemma Conservation(c: Config, s: State)
    requires Reachable(c, s)
    ensures multiset(s.accepted) ==
            multiset(s.inputQueue) + multiset(MoverWork(s.mover)) + multiset(s.pending)
            + HeldWork(s) + RunningWork(s) + multiset(s.executed)
    ensures s.taken <= s.accepted
  {
    ReachableInv(c, s);
    TakenWork(s);
  }

  /** Even after cancellation, distinct submissions are executed at most once, and never while still executing. */
  lemma AtMostOnce(c: Config, s: State, w: Work)
    requires Reachable(c, s)
    requires multiset(s.accepted)[w] <= 1
    ensures multiset(s.executed)[w] + RunningWork(s)[w] <= 1
    ensures multiset(s.executed)[w] + RunningWork(s)[w] == 1 ==>
              w !in s.inputQueue && w !in s.pending && w !in MoverWork(s.mover) && w !in HeldWork(s)
  {
    Conservation(c, s);
    assert multiset(s.accepted)[w] ==
           multiset(s.inputQueue)[w] + multiset(MoverWork(s.mover))[w] + multiset(s.pending)[w]
           + HeldWork(s)[w] + RunningWork(s)[w] + multiset(s.executed)[w];
  }

  /** Accepted work that no worker has started is bounded by the channel sizes and the two goroutine pools. */
  lemma Occupancy(c: Config, s: State)
    requires Reachable(c, s)
    ensures |s.accepted| - |RunningWork(s)| - |s.executed|
            <= c.maxQueue + 1 + (if c.maxQueue < 65536 then 65536 else c.maxQueue) + c.maxWorkers
  {
    ReachableInv(c, s);
    GatherSize(s.assigners, AssignerWork);
    TakenWork(s);
    assert |multiset(s.taken)| == |HeldWork(s)| + |RunningWork(s)| + |multiset(s.executed)|;
  }

  /** A submission is accepted exactly while the input queue has room, or, without a queue, while the mover is free. */
  lemma SubmitAccepted(c: Config, s: State, w: Work)
    ensures Enabled(c, s, Submit(w)) <==> |s.inputQueue| < c.maxQueue || (c.maxQueue == 0 && s.mover == MoverFree)
    ensures Enabled(c, s, Submit(w)) ==> Next(c, s, Submit(w)).accepted == s.accepted + [w]
  {
  }

  /** Cancelling lets every goroutine that waits on a channel of its own return, and changes nothing else. */
  lemma CancelStops(c: Config, s: State, i: nat, k: nat)
    requires i < |s.assigners| && k < |s.workers|
    ensures var t := Next(c, s, Cancel);
            && t == s.(cancelled := true)
            && (!s.mover.MoverGone? ==> Enabled(c, t, MoverQuit) && Next(c, t, MoverQuit).mover.MoverGone?)
            && (s.assigners[i].Free? || s.assigners[i].Holding? ==> Enabled(c, t, AssignerQuit(i)) && Next(c, t, AssignerQuit(i)).assigners[i].AssignerGone?)
            && (s.workers[k].Waiting? ==> Enabled(c, t, WorkerQuit(k)) && Next(c, t, WorkerQuit(k)).workers[k].WorkerGone?)
  {
  }

  // The occupancy bound is reached.

  function Zeros(n: nat): (z: seq<Work>)
    ensures |z| == n
  {
    seq(n, _ => 0)
  }

  /** Before any worker offers itself: a assigners hold work, p items are pending, perhaps one is with the mover, q are queued. */
  function Loaded(c: Config, a: nat, p: nat, moving: bool, q: nat): State
    requires a <= c.maxWorkers
  {
    State(Zeros(q), if moving then MoverHolding(0) else MoverFree, Zeros(p),
          seq(c.maxWorkers, i => if i < a then Holding(0) else Free), seq(c.maxWorkers, _ => Offering), [], false,
          Zeros(a + p + (if moving then 1 else 0) + q), Zeros(a), [])
  }

  lemma OneMore(c: Config, s: State, e: Event)
    requires Reachable(c, s) && Enabled(c, s, e)
    ensures Reachable(c, Next(c, s, e))
  {
    SingleStep(c, s, e);
    ReachableStep(c, s, [e]);
  }

  /** A submission travels to the mover. */
  lemma LoadMover(c: Config, a: nat, p: nat)
    requires a <= c.maxWorkers && Reachable(c, Loaded(c, a, p, false, 0))
    ensures Reachable(c, Loaded(c, a, p, true, 0))
  {
    var s := Loaded(c, a, p, false, 0);
    OneMore(c, s, Submit(0));
    assert Zeros(a + p) + [0] == Zeros(a + p + 1);
    if c.maxQueue == 0 {
      assert Next(c, s, Submit(0)) == Loaded(c, a, p, true, 0);
    } else {
      assert [] + [0 as Work] == Zeros(1) && Zeros(1)[1..] == [];
      assert Next(c, s, Submit(0)) == Loaded(c, a, p, false, 1);
      OneMore(c, Loaded(c, a, p, false, 1), MoverTake);
      assert Next(c, Loaded(c, a, p, false, 1), MoverTake) == Loaded(c, a, p, true, 0);
    }
  }

  /** ... and on into the pending buffer. */
  lemma LoadPending(c: Config, a: nat, p: nat)
    requires a <= c.maxWorkers && p < c.PendingCap() && Reachable(c, Loaded(c, a, p, false, 0))
    ensures Reachable(c, Loaded(c, a, p + 1, false, 0))
  {
    LoadMover(c, a, p);
    OneMore(c, Loaded(c, a, p, true, 0), MoverPut);
    assert Zeros(p) + [0] == Zeros(p + 1);
    assert Next(c, Loaded(c, a, p, true, 0), MoverPut) == Loaded(c, a, p + 1, false, 0);
  }

  lemma {:induction false} LoadAssigners(c: Config, a: nat)
    requires a <= c.maxWorkers
    ensures Reachable(c, Loaded(c, a, 0, false, 0))
  {
    if a == 0 {
      assert ValidRun(c, Init(c), []) && Final(c, Init(c), []) == Init(c);
      assert Init(c) == Loaded(c, 0, 0, false, 0);
    } else {
      LoadAssigners(c, a - 1);
      LoadPending(c, a - 1, 0);
      var s := Loaded(c, a - 1, 1, false, 0);
      OneMore(c, s, AssignerTake(a - 1));
      assert Zeros(1)[1..] == [] && Zeros(a - 1) + [0] == Zeros(a);
      assert Next(c, s, AssignerTake(a - 1)) == Loaded(c, a, 0, false, 0);
    }
  }

  lemma {:induction false} FillPending(c: Config, p: nat)
    requires p <= c.PendingCap()
    ensures Reachable(c, Loaded(c, c.maxWorkers, p, false, 0))
    decreases p
  {
    if p == 0 {
      LoadAssigners(c, c.maxWorkers);
    } else {
      FillPending(c, p - 1);
      LoadPending(c, c.maxWorkers, p - 1);
    }
  }

  lemma {:induction false} FillQueue(c: Config, q: nat)
    requires q <= c.maxQueue
    ensures Reachable(c, Loaded(c, c.maxWorkers, c.PendingCap(), true, q))
    decreases q
  {
    if q == 0 {
      FillPending(c, c.PendingCap());
      LoadMover(c, c.maxWorkers, c.PendingCap());
    } else {
      FillQueue(c, q - 1);
      var s := Loaded(c, c.maxWorkers, c.PendingCap(), true, q - 1);
      OneMore(c, s, Submit(0));
      assert Zeros(q - 1) + [0] == Zeros(q);
      assert Zeros(c.maxWorkers + c.PendingCap() + 1 + (q - 1)) + [0] == Zeros(c.maxWorkers + c.PendingCap() + 1 + q);
      assert Next(c, s, Submit(0)) == Loaded(c, c.maxWorkers, c.PendingCap(), true, q);
    }
  }

  /** The bound is exact: some run holds that much unstarted work, and then accepts no more. */
  lemma OccupancyReached(c: Config) returns (s: State)
    ensures Reachable(c, s)
    ensures |s.accepted| - |RunningWork(s)| - |s.executed|
            == c.maxQueue + 1 + (if c.maxQueue < 65536 then 65536 else c.maxQueue) + c.maxWorkers
    ensures !Enabled(c, s, Submit(0))
  {
    FillQueue(c, c.maxQueue);
    s := Loaded(c, c.maxWorkers, c.PendingCap(), true, c.maxQueue);
    GatherEmpty(s.workers, WorkerWork);
  }

  lemma PoolDistinct(c: Config, s: State)
    requires Inv(c, s)
    ensures forall k :: k in s.workerPool ==> k < c.maxWorkers && multiset(s.workerPool)[k] == 1
  {
    forall k | k in s.workerPool ensures k < c.maxWorkers && multiset(s.workerPool)[k] == 1 {
      assert k in multiset(s.workerPool);
      assert TokenCount(s, k) == TokensOwed(s, k);
    }
  }

  /** A worker can always offer its queue without blocking: its own token is the one missing from the pool. */
  lemma PoolNeverOverflows(c: Config, s: State, k: nat)
    requires Reachable(c, s)
    requires k < |s.workers| && s.workers[k].Offering?
    ensures Enabled(c, s, WorkerOffer(k))
  {
    ReachableInv(c, s);
    PoolDistinct(c, s);
    assert TokenCount(s, k) == 0;
    var withOwn := s.workerPool + [k];
    forall x | x in withOwn ensures x < c.maxWorkers && multiset(withOwn)[x] == 1 {
      assert multiset(withOwn) == multiset(s.workerPool) + multiset{k};
      assert x in s.workerPool || x == k;
    }
    DistinctBelow(withOwn, c.maxWorkers);
  }

  /** Before cancellation an assigner that has a worker's queue always finds that worker waiting on it. */
  lemma HandoverNeverBlocks(c: Config, s: State, i: nat)
    requires Reachable(c, s) && !s.cancelled
    requires i < |s.assigners| && s.assigners[i].Handing?
    ensures Enabled(c, s, Deliver(i))
    ensures s.assigners[i].token !in s.workerPool
  {
    ReachableInv(c, s);
    var k := s.assigners[i].token;
    GatherUpdateAt(s.assigners, i, Free, AssignerToken, k);
    assert HandedTokens(s)[k] >= 1;
    assert TokenCount(s, k) == TokensOwed(s, k);
    assert multiset(s.workerPool)[k] == 0;
    assert k in s.workerPool ==> k in multiset(s.workerPool);
  }

  /** No two assigners hold the same worker's queue, even after cancellation. */
  lemma TokensUnshared(c: Config, s: State, i: nat, j: nat)
    requires Reachable(c, s)
    requires i < |s.assigners| && j < |s.assigners| && i != j
    requires s.assigners[i].Handing? && s.assigners[j].Handing?
    ensures s.assigners[i].token != s.assigners[j].token
  {
    ReachableInv(c, s);
    var k := s.assigners[i].token;
    var without := s.(assigners := s.assigners[i := Free]);
    GatherUpdateAt(s.assigners, i, Free, AssignerToken, k);
    GatherUpdateAt(without.assigners, j, Free, AssignerToken, k);
    assert TokenCount(s, k) == TokensOwed(s, k);
    assert HandedTokens(without)[k] == HandedTokens(s)[k] - 1;
  }

  // Progress: internal events and the measure they lower.

  predicate Internal(e: Event) {
    !e.Submit? && !e.Cancel? && !e.MoverQuit? && !e.AssignerQuit? && !e.WorkerQuit?
  }

  function AssignerWeight(a: Assigner): nat {
    match a
    case Free => 0
    case Holding(_) => 4
    case Handing(_, _) => 3
    case AssignerGone(_) => 0
  }

  function WorkerWeight(w: Worker): nat {
    match w
    case Offering => 1
    case Waiting => 0
    case Executing(_) => 2
    case WorkerGone => 0
  }

  /** Every item is weighed by the hops it still has to make. */
  function Measure(s: State): nat {
    7 * |s.inputQueue| + (if s.mover.MoverHolding? then 6 else 0) + 5 * |s.pending|
    + Total(s.assigners, AssignerWeight) + Total(s.workers, WorkerWeight)
  }

  lemma MeasureDrops(c: Config, s: State, e: Event)
    requires Enabled(c, s, e) && Internal(e)
    ensures Measure(Next(c, s, e)) < Measure(s)
  {
    var t := Next(c, s, e);
    if e.AssignerTake? || e.AssignerGrab? || e.Deliver? {
      TotalUpdate(s.assigners, e.i, t.assigners[e.i], AssignerWeight);
    }
    if e.Deliver? {
      TotalUpdate(s.workers, s.assigners[e.i].token, t.workers[s.assigners[e.i].token], WorkerWeight);
    }
    if e.WorkerOffer? || e.WorkerFinish? {
      TotalUpdate(s.workers, e.k, t.workers[e.k], WorkerWeight);
    }
  }

  /** Deadlock freedom: before cancellation, unfinished accepted work always leaves an internal event enabled. */
  lemma NoDeadlock(c: Config, s: State) returns (e: Event)
    requires Reachable(c, s) && !s.cancelled && c.maxWorkers > 0
    requires multiset(s.executed) != multiset(s.accepted)
    ensures Internal(e) && Enabled(c, s, e)
  {
    ReachableInv(c, s);
    if k :| 0 <= k < |s.workers| && s.workers[k].Offering? {
      PoolNeverOverflows(c, s, k);
      e := WorkerOffer(k);
    } else if k :| 0 <= k < |s.workers| && s.workers[k].Executing? {
      e := WorkerFinish(k);
    } else {
      e := AssignmentProgress(c, s);
    }
  }

  /** The same when every worker is waiting: the work still to be handed over can move. */
  lemma AssignmentProgress(c: Config, s: State) returns (e: Event)
    requires Reachable(c, s) && Inv(c, s) && !s.cancelled && c.maxWorkers > 0
    requires forall k :: 0 <= k < |s.workers| ==> s.workers[k].Waiting?
    requires multiset(s.executed) != multiset(s.accepted)
    ensures Internal(e) && Enabled(c, s, e)
  {
    if i :| 0 <= i < |s.assigners| && s.assigners[i].Handing? {
      HandoverNeverBlocks(c, s, i);
      e := Deliver(i);
    } else if i :| 0 <= i < |s.assigners| && s.assigners[i].Holding? {
      AllTokensPooled(c, s);
      e := AssignerGrab(i);
    } else if s.pending != [] {
      assert s.assigners[0].Free?;
      e := AssignerTake(0);
    } else if s.mover.MoverHolding? {
      e := MoverPut;
    } else {
      IdleMeansDone(c, s);
      e := MoverTake;
    }
  }

  lemma IdleMeansDone(c: Config, s: State)
    requires InOrder(s) && Conserved(s)
    requires forall k :: 0 <= k < |s.workers| ==> s.workers[k].Waiting?
    requires forall i :: 0 <= i < |s.assigners| ==> s.assigners[i].Free?
    requires s.pending == [] && s.mover == MoverFree && multiset(s.executed) != multiset(s.accepted)
    ensures s.inputQueue != []
  {
    GatherEmpty(s.assigners, AssignerWork);
    GatherEmpty(s.workers, WorkerWork);
    TakenWork(s);
    assert s.taken + s.pending + MoverWork(s.mover) == s.taken;
    assert s.inputQueue == [] ==> s.accepted == s.taken;
  }

  lemma AllTokensPooled(c: Config, s: State)
    requires Inv(c, s) && c.maxWorkers > 0
    requires forall k :: 0 <= k < |s.workers| ==> s.workers[k].Waiting?
    requires forall i :: 0 <= i < |s.assigners| ==> !s.assigners[i].Handing?
    ensures s.workerPool != []
  {
    GatherEmpty(s.assigners, AssignerToken);
    assert s.workers[0].Waiting?;
    assert TokenCount(s, 0) == 1;
    assert 0 in multiset(s.workerPool);
  }

  predicate AllInternal(events: seq<Event>) {
    forall e :: e in events ==> Internal(e)
  }

  lemma {:induction false} InternalRun(c: Config, s: State, events: seq<Event>)
    requires ValidRun(c, s, events) && AllInternal(events)
    ensures |events| + Measure(Final(c, s, events)) <= Measure(s)
    ensures Final(c, s, events).accepted == s.accepted && Final(c, s, events).cancelled == s.cancelled
    decreases |events|
  {
    if events != [] {
      assert Internal(events[0]);
      MeasureDrops(c, s, events[0]);
      InternalRun(c, Next(c, s, events[0]), events[1..]);
    }
  }

  lemma {:induction false} RunConcat(c: Config, s: State, a: seq<Event>, b: seq<Event>)
    requires ValidRun(c, s, a) && ValidRun(c, Final(c, s, a), b)
    ensures ValidRun(c, s, a + b) && Final(c, s, a + b) == Final(c, Final(c, s, a), b)
    decreases |a|
  {
    if a == [] {
      assert a + b == b;
    } else {
      assert (a + b)[1..] == a[1..] + b;
      RunConcat(c, Next(c, s, a[0]), a[1..], b);
    }
  }

  lemma ReachableStep(c: Config, s: State, events: seq<Event>)
    requires Reachable(c, s) && ValidRun(c, s, events)
    ensures Reachable(c, Final(c, s, events))
  {
    var before :| ValidRun(c, Init(c), before) && Final(c, Init(c), before) == s;
    RunConcat(c, Init(c), before, events);
  }

  /**
   Once submissions stop, every internal run is shorter than the measure, and one that cannot be
   extended has executed exactly the accepted work.
   */
  lemma Drains(c: Config, s: State, events: seq<Event>)
    requires Reachable(c, s) && !s.cancelled && c.maxWorkers > 0
    requires ValidRun(c, s, events) && AllInternal(events)
    ensures |events| <= Measure(s)
    ensures (forall e :: Internal(e) ==> !Enabled(c, Final(c, s, events), e))
            ==> multiset(Final(c, s, events).executed) == multiset(s.accepted)
  {
    InternalRun(c, s, events);
    var t := Final(c, s, events);
    ReachableStep(c, s, events);
    if multiset(t.executed) != multiset(s.accepted) {
      var e := NoDeadlock(c, t);
      assert Internal(e) && Enabled(c, t, e);
    }
  }

  lemma SingleStep(c: Config, s: State, e: Event)
    requires Enabled(c, s, e)
    ensures ValidRun(c, s, [e]) && Final(c, s, [e]) == Next(c, s, e)
  {
    assert [e][1..] == [];
    assert ValidRun(c, Next(c, s, e), []);
  }

  /** And such a run exists from every reachable state. */
  lemma {:induction false} CanDrain(c: Config, s: State) returns (events: seq<Event>)
    requires Reachable(c, s) && !s.cancelled && c.maxWorkers > 0
    ensures ValidRun(c, s, events) && AllInternal(events)
    ensures multiset(Final(c, s, events).executed) == multiset(s.accepted)
    decreases Measure(s)
  {
    if multiset(s.executed) == multiset(s.accepted) {
      events := [];
    } else {
      var e := NoDeadlock(c, s);
      MeasureDrops(c, s, e);
      SingleStep(c, s, e);
      ReachableStep(c, s, [e]);
      InternalRun(c, s, [e]);
      var rest := CanDrain(c, Next(c, s, e));
      events := [e] + rest;
      assert events[1..] == rest;
    }
  }
}
