/** Services, their queues and the threads that work on them (skynet_server.c with skynet_mq.c and skynet_handle.c), as
    a machine whose steps are the sections that the original makes atomic: one lock-protected section or one atomic
    operation each, or a write of a pointer or a flag that others may read. Any number of threads takes steps in any order.

    Every thread may play every part: worker, sender, creator or killer. What a service does while it handles a message
    is left open, since the threads at rest can do all of it at any time. */
module Scheduler {
  import opened MessageQueue

  type Id = nat

  /** A service: its context and its queue, with what has happened to its messages. `registered` says that the handle
      table refers to it, and `made` that its queue has been made; `contextFrees` and `queueFrees` count how often its memory was
      given back, and `strays` how often its creator touched the context after that. The messages that were pushed through the
      pointer to the queue before there was one are `early`. */
  datatype Service = Service(
    registered: bool,
    refs: int,
    init: bool,
    contextFrees: nat,
    queue: Queue,
    queueFrees: nat,
    pushed: seq<Message>,
    dispatched: seq<Message>,
    dropped: seq<Message>,
    strays: nat,
    made: bool,
    early: seq<Message>
  )

  const NEW := Service(true, 2, false, 0, CREATED, 0, [], [], [], 0, false, [])

  /** What a thread does once it has given back a reference */
  datatype Next = Stop | Keep(queue: Id) | Publish | Abandon | Discard

  /** Where a thread is between two steps */
  datatype Stage =
    // skynet_context_push
    | Pushing(message: Message)
    // skynet_context_release, and what comes after it
    | Releasing(next: Next)
    | Deleting(next: Next)     // skynet_mq_mark_release(ctx->queue)
    | Unmaking(next: Next)     // skynet_free(ctx)
    // skynet_context_new
    | Registered               // ctx->queue = skynet_mq_create(ctx->handle)
    | Initializing
    | Launching
    | Marking                  // ctx->init = true
    | Publishing(ret: bool)
    | Logging                  // skynet_error(ret, ...)
    | Abandoning
    // skynet_context_message_dispatch
    | Held
    | Working(k: nat, n: nat)
    | Measuring(k: nat, n: nat, message: Message)
    | Running(k: nat, n: nat, message: Message)
    | Yielding
    | PuttingBack(queue: Id)
    // skynet_mq_release
    | Discarding
    | Dropping
    | Freeing

  /** A thread is at rest, or busy with one service. */
  datatype Pc = Idle | At(id: Id, stage: Stage)

  datatype State = State(services: seq<Service>, global: seq<Id>, threads: seq<Pc>, weights: seq<int>)

  /** What a thread at rest decides to do, and how a service's init ends; `Go` is the next step anywhere else. */
  datatype Action =
    | Go
    | Send(to: Id, message: Message)
    | Kill(id: Id)
    | Grab(id: Id)
    | Create
    | Fetch
    | InitDone(ok: bool)

  predicate InTable(s: State, i: Id) {
    i < |s.services| && s.services[i].registered
  }

  function SetService(s: State, i: Id, v: Service): State
    requires i < |s.services|
  {
    s.(services := s.services[i := v])
  }

  function Goto(s: State, a: nat, pc: Pc): State
    requires a < |s.threads|
  {
    s.(threads := s.threads[a := pc])
  }

  function Resume(i: Id, next: Next): Pc {
    match next
    case Stop => Idle
    case Keep(q) => At(q, Held)
    case Publish => At(i, Publishing(false))
    case Abandon => At(i, Abandoning)
    case Discard => At(i, Discarding)
  }

  /** `skynet_handle_grab`, which may fail */
  function TryGrab(s: State, a: nat, i: Id, found: Stage, missing: Pc): State
    requires a < |s.threads|
  {
    if InTable(s, i) then
      Goto(SetService(s, i, s.services[i].(refs := s.services[i].refs + 1)), a, At(i, found))
    else
      Goto(s, a, missing)
  }

  /** `skynet_handle_retire` up to the release of the reference that the table held */
  function Retire(s: State, a: nat, i: Id, next: Next): State
    requires a < |s.threads|
  {
    if InTable(s, i) then
      Goto(SetService(s, i, s.services[i].(registered := false)), a, At(i, Releasing(next)))
    else
      Goto(s, a, Resume(i, next))
  }

  /** `skynet_globalmq_pop` */
  function FetchNext(s: State, a: nat): State
    requires a < |s.threads|
  {
    if s.global == [] then Goto(s, a, Idle)
    else Goto(s.(global := s.global[1..]), a, At(s.global[0], Held))
  }

  /** `skynet_globalmq_push` */
  function Listing(s: State, i: Id, publish: bool): State {
    if publish then s.(global := s.global + [i]) else s
  }

  predicate InRange(s: State, a: nat, i: Id) {
    a < |s.threads| && |s.threads| == |s.weights| && i < |s.services|
  }

  function DoIdle(s: State, a: nat, act: Action): State
    requires a < |s.threads|
  {
    match act
    case Go | InitDone(_) => s
    case Send(i, m) => TryGrab(s, a, i, Pushing(m), Idle)
    case Grab(i) => TryGrab(s, a, i, Releasing(Stop), Idle)
    case Kill(i) => Retire(s, a, i, Stop)
    case Create => Goto(s.(services := s.services + [NEW]), a, At(|s.services|, Registered))
    case Fetch => FetchNext(s, a)
  }

  function DoPush(s: State, a: nat, i: Id, m: Message): State
    requires InRange(s, a, i)
  {
    var v := s.services[i];
    if !v.made then Goto(SetService(s, i, v.(early := v.early + [m])), a, At(i, Releasing(Stop)))
    else
      var p := Enqueued(v.queue, m);
      var t := SetService(s, i, v.(queue := p.queue, pushed := v.pushed + [m]));
      Goto(Listing(t, i, p.publish), a, At(i, Releasing(Stop)))
  }

  /** The queue is made once the handle is known, which others may know by then too. */
  function DoMake(s: State, a: nat, i: Id): State
    requires InRange(s, a, i)
  {
    Goto(SetService(s, i, s.services[i].(made := true)), a, At(i, Initializing))
  }

  function DoRelease(s: State, a: nat, i: Id, next: Next): State
    requires InRange(s, a, i)
  {
    var v := s.services[i];
    Goto(SetService(s, i, v.(refs := v.refs - 1)), a, if v.refs == 1 then At(i, Deleting(next)) else Resume(i, next))
  }

  function DoDelete(s: State, a: nat, i: Id, next: Next): State
    requires InRange(s, a, i)
  {
    var v := s.services[i];
    var p := MarkedReleased(v.queue);
    Goto(Listing(SetService(s, i, v.(queue := p.queue)), i, p.publish), a, At(i, Unmaking(next)))
  }

  function DoUnmake(s: State, a: nat, i: Id, next: Next): State
    requires InRange(s, a, i)
  {
    Goto(SetService(s, i, s.services[i].(contextFrees := s.services[i].contextFrees + 1)), a, Resume(i, next))
  }

  /** The end of a launch: the creator's reference goes. What it does with the context after that, it does without one. */
  function DoLaunch(s: State, a: nat, i: Id): State
    requires InRange(s, a, i)
  {
    var v := s.services[i];
    Goto(SetService(s, i, v.(refs := v.refs - 1)), a, if v.refs == 1 then At(i, Deleting(Publish)) else At(i, Marking))
  }

  /** A touch of the context, which may have been freed */
  function Touched(v: Service): Service {
    v.(strays := v.strays + if v.contextFrees > 0 then 1 else 0)
  }

  /** The write of `init`; in memory that was freed it marks nothing. */
  function DoMark(s: State, a: nat, i: Id): State
    requires InRange(s, a, i)
  {
    var v := Touched(s.services[i]);
    Goto(SetService(s, i, if v.contextFrees > 0 then v else v.(init := true)), a, At(i, Publishing(true)))
  }

  /** The log line, whose source is read from the context */
  function DoLog(s: State, a: nat, i: Id): State
    requires InRange(s, a, i)
  {
    Goto(SetService(s, i, Touched(s.services[i])), a, Idle)
  }

  function DoPublish(s: State, a: nat, i: Id, ret: bool): State
    requires InRange(s, a, i)
  {
    Goto(Listing(s, i, true), a, if ret then At(i, Logging) else Idle)
  }

  /** Take the next message, or give up the queue when there is none. */
  function DoWork(s: State, a: nat, i: Id, k: nat, n: nat): State
    requires InRange(s, a, i)
  {
    var v := s.services[i];
    var p := Dequeued(v.queue);
    match p.message
    case None => Goto(SetService(s, i, v.(queue := p.queue)), a, At(i, Releasing(Stop)))
    case Some(m) =>
      Goto(SetService(s, i, v.(queue := p.queue, dispatched := v.dispatched + [m])), a, At(i, Measuring(k, n, m)))
  }

  /** What is left of a length after a shift to the right */
  function Shift(length: nat, weight: nat): nat
    decreases weight
  {
    if weight == 0 then length else Shift(length / 2, weight - 1)
  }

  /** How many messages a turn takes, fixed once the first one is out */
  function Limit(s: State, a: nat, i: Id, k: nat, n: nat): nat
    requires InRange(s, a, i)
  {
    if k == 0 && s.weights[a] >= 0 then Shift(|s.services[i].queue.contents|, s.weights[a]) else n
  }

  /** The end of a turn: go on with the next queue of the global list, if there is one. */
  function DoYield(s: State, a: nat, i: Id): State
    requires InRange(s, a, i)
  {
    if s.global == [] then Goto(s, a, At(i, Releasing(Keep(i))))
    else Goto(s.(global := s.global[1..]), a, At(i, PuttingBack(s.global[0])))
  }

  function DoDiscard(s: State, a: nat, i: Id): State
    requires InRange(s, a, i)
  {
    if s.services[i].queue.release then Goto(s, a, At(i, Dropping)) else Goto(Listing(s, i, true), a, Idle)
  }

  function DoDrop(s: State, a: nat, i: Id): State
    requires InRange(s, a, i)
  {
    var v := s.services[i];
    var p := Dequeued(v.queue);
    match p.message
    case None => Goto(SetService(s, i, v.(queue := p.queue)), a, At(i, Freeing))
    case Some(m) => Goto(SetService(s, i, v.(queue := p.queue, dropped := v.dropped + [m])), a, At(i, Dropping))
  }

  function DoFree(s: State, a: nat, i: Id): State
    requires InRange(s, a, i)
  {
    Goto(SetService(s, i, s.services[i].(queueFrees := s.services[i].queueFrees + 1)), a, Idle)
  }

  /** The end of init: on failure the creator gives back its reference, retires the handle and discards the queue. */
  function DoInitialize(s: State, a: nat, i: Id, act: Action): State
    requires InRange(s, a, i)
  {
    if !act.InitDone? then s else Goto(s, a, At(i, if act.ok then Launching else Releasing(Abandon)))
  }

  /** One step of thread `a`, busy with service `i` */
  function DoBusy(s: State, a: nat, i: Id, stage: Stage, act: Action): State
    requires InRange(s, a, i)
  {
    match stage
    case Pushing(m) => DoPush(s, a, i, m)
    case Releasing(next) => DoRelease(s, a, i, next)
    case Deleting(next) => DoDelete(s, a, i, next)
    case Unmaking(next) => DoUnmake(s, a, i, next)
    case Registered => DoMake(s, a, i)
    case Initializing => DoInitialize(s, a, i, act)
    case Launching => DoLaunch(s, a, i)
    case Marking => DoMark(s, a, i)
    case Publishing(ret) => DoPublish(s, a, i, ret)
    case Logging => DoLog(s, a, i)
    case Abandoning => Retire(s, a, i, Discard)
    case Held => TryGrab(s, a, i, Working(0, 1), At(i, Discarding))
    case Working(k, n) => if k >= n then Goto(s, a, At(i, Yielding)) else DoWork(s, a, i, k, n)
    case Measuring(k, n, m) => Goto(s, a, At(i, Running(k, Limit(s, a, i, k, n), m)))
    case Running(k, n, _) => Goto(s, a, At(i, Working(k + 1, n)))
    case Yielding => DoYield(s, a, i)
    case PuttingBack(q) => Goto(Listing(s, i, true), a, At(i, Releasing(Keep(q))))
    case Discarding => DoDiscard(s, a, i)
    case Dropping => DoDrop(s, a, i)
    case Freeing => DoFree(s, a, i)
  }

  /** One step of thread `a` */
  function Do(s: State, a: nat, act: Action): State
    requires a < |s.threads| == |s.weights|
  {
    match s.threads[a]
    case Idle => DoIdle(s, a, act)
    case At(i, stage) => if i < |s.services| then DoBusy(s, a, i, stage, act) else s
  }

  // ---- What the threads hold together ---------------------------------------------------------------------------

  /** References to the context, the queue itself, the duty to mark the queue and to free the context, that to free the context
      alone, the queue of a service that is still being made, the same before there is a queue, the queue that is being emptied
      for good, and a place in the global list */
  datatype Tally = Tally(refs: int, holds: int, deletes: int, frees: int, makes: int, unmade: int, drops: int, listed: int)

  function Plus(t: Tally, u: Tally): Tally {
    Tally(t.refs + u.refs, t.holds + u.holds, t.deletes + u.deletes, t.frees + u.frees, t.makes + u.makes, t.unmade + u.unmade,
          t.drops + u.drops, t.listed + u.listed)
  }

  function Minus(t: Tally, u: Tally): Tally {
    Tally(t.refs - u.refs, t.holds - u.holds, t.deletes - u.deletes, t.frees - u.frees, t.makes - u.makes, t.unmade - u.unmade,
          t.drops - u.drops, t.listed - u.listed)
  }

  predicate AtWork(stage: Stage) {
    stage.Working? || stage.Measuring? || stage.Running? || stage.Yielding? || stage.PuttingBack?
  }

  predicate HasNext(stage: Stage) {
    stage.Releasing? || stage.Deleting? || stage.Unmaking?
  }

  predicate HasRef(stage: Stage) {
    stage.Pushing? || stage.Releasing? || stage.Registered? || stage.Initializing? || stage.Launching? || AtWork(stage)
  }

  /** The creator of a service holds its queue until the queue is published or discarded. */
  predicate Making(stage: Stage) {
    || stage.Registered? || stage.Initializing? || stage.Launching? || stage.Marking? || stage.Publishing? || stage.Abandoning?
    || (HasNext(stage) && (stage.next.Publish? || stage.next.Abandon?))
  }

  predicate Emptying(stage: Stage) {
    stage.Dropping? || stage.Freeing?
  }

  predicate HasQueue(stage: Stage) {
    || Making(stage) || Emptying(stage) || stage.Held? || AtWork(stage) || stage.Discarding?
    || (HasNext(stage) && stage.next.Discard?)
  }

  /** The other queue that a thread holds, if any */
  function Other(stage: Stage): Option<Id> {
    match stage
    case Releasing(Keep(q)) => Some(q)
    case Deleting(Keep(q)) => Some(q)
    case Unmaking(Keep(q)) => Some(q)
    case PuttingBack(q) => Some(q)
    case _ => None
  }

  /** What a thread holds of service `i` */
  function Weigh(pc: Pc, i: Id): Tally {
    match pc
    case Idle => Tally(0, 0, 0, 0, 0, 0, 0, 0)
    case At(j, stage) =>
      Tally(if j == i && HasRef(stage) then 1 else 0,
            (if j == i && HasQueue(stage) then 1 else 0) + (if Other(stage) == Some(i) then 1 else 0),
            if j == i && stage.Deleting? then 1 else 0,
            if j == i && stage.Unmaking? then 1 else 0,
            if j == i && Making(stage) then 1 else 0,
            if j == i && stage.Registered? then 1 else 0,
            if j == i && Emptying(stage) then 1 else 0,
            0)
  }

  function Total(threads: seq<Pc>, i: Id): Tally {
    if threads == [] then Tally(0, 0, 0, 0, 0, 0, 0, 0) else Plus(Total(threads[..|threads| - 1], i), Weigh(threads[|threads| - 1], i))
  }

  function Listed(global: seq<Id>, i: Id): nat {
    if global == [] then 0 else Listed(global[..|global| - 1], i) + (if global[|global| - 1] == i then 1 else 0)
  }

  lemma {:induction false} TotalUpdate(threads: seq<Pc>, a: nat, pc: Pc, i: Id)
    requires a < |threads|
    ensures Total(threads[a := pc], i) == Plus(Minus(Total(threads, i), Weigh(threads[a], i)), Weigh(pc, i))
  {
    hide Weigh;
    var n := |threads| - 1;
    if a == n {
      assert threads[a := pc][..n] == threads[..n];
    } else {
      assert threads[a := pc][..n] == threads[..n][a := pc];
      TotalUpdate(threads[..n], a, pc, i);
    }
  }

  lemma ListedPush(global: seq<Id>, j: Id, i: Id)
    ensures Listed(global + [j], i) == Listed(global, i) + (if i == j then 1 else 0)
  {
    assert (global + [j])[..|global|] == global;
  }

  lemma {:induction false} ListedPop(global: seq<Id>, i: Id)
    requires global != []
    ensures Listed(global[1..], i) == Listed(global, i) - (if global[0] == i then 1 else 0)
  {
    var n := |global| - 1;
    if n > 0 {
      ListedPop(global[..n], i);
      assert global[1..][..n - 1] == global[..n][1..];
    } else {
      assert global[..0] == [] && global[1..] == [];
    }
  }

  /** No share is negative, and makers and droppers hold the queue. */
  predicate Sound(t: Tally) {
    t.refs >= 0 && t.deletes >= 0 && t.frees >= 0 && 0 <= t.unmade <= t.makes <= t.holds && 0 <= t.drops <= t.holds && t.listed >= 0
  }

  lemma WeighSound(pc: Pc, i: Id)
    ensures Sound(Weigh(pc, i))
  {
  }

  lemma {:induction false} TotalSound(threads: seq<Pc>, i: Id)
    ensures Sound(Total(threads, i))
  {
    if threads != [] {
      TotalSound(threads[..|threads| - 1], i);
      WeighSound(threads[|threads| - 1], i);
    }
  }

  /** What the others have beside a thread's share */
  lemma {:induction false} Share(threads: seq<Pc>, a: nat, i: Id)
    requires a < |threads|
    ensures Sound(Weigh(threads[a], i)) && Sound(Minus(Total(threads, i), Weigh(threads[a], i)))
  {
    hide Weigh;
    var n := |threads| - 1;
    WeighSound(threads[n], i);
    if a < n {
      Share(threads[..n], a, i);
    } else {
      TotalSound(threads[..n], i);
    }
  }

  lemma {:induction false} SharePair(threads: seq<Pc>, a: nat, b: nat, i: Id)
    requires a < b < |threads|
    ensures Sound(Minus(Minus(Total(threads, i), Weigh(threads[a], i)), Weigh(threads[b], i)))
  {
    hide Weigh;
    var n := |threads| - 1;
    WeighSound(threads[n], i);
    if b < n {
      SharePair(threads[..n], a, b, i);
    } else {
      Share(threads[..n], a, i);
    }
  }

  // ---- The invariant --------------------------------------------------------------------------------------------

  function TallyOf(s: State, i: Id): Tally {
    Total(s.threads, i).(listed := Listed(s.global, i))
  }

  /** Places where a queue is accounted for: in the global list, or with a thread */
  function Places(t: Tally): int {
    t.listed + t.holds
  }

  ghost predicate ServiceOk(v: Service, t: Tally) {
    && (if v.registered then v.refs == t.refs + 1 else v.refs == t.refs)
    && v.queueFrees <= 1
    && (if v.refs == 0 then t.deletes + t.frees + v.contextFrees == 1 else t.deletes == t.frees == 0 && v.contextFrees == 0)
    && v.queue.release == (t.frees + v.contextFrees == 1)
    && t.unmade == (if v.made then 0 else 1)
    && (v.queueFrees == 1 ==> v.queue.release && v.queue.contents == [])
    && (if v.queueFrees == 0 && (v.queue.inGlobal || v.queue.release) then Places(t) == 1 else Places(t) == 0)
    && (!v.queue.inGlobal && !v.queue.release ==> v.queue.contents == [])
    && v.pushed == v.dispatched + v.dropped + v.queue.contents
    && (v.dropped != [] ==> v.queue.release && (v.queueFrees == 1 || t.drops == 1))
    && (!v.init ==> t.makes >= 1 || !v.registered)
  }

  /** What a thread can count on about its service, where it is */
  predicate LocalOk(v: Service, stage: Stage) {
    && (AtWork(stage) ==> v.init)
    && (stage.Discarding? || (HasNext(stage) && stage.next.Discard?) ==> !v.registered)
    && (stage.Publishing? || (HasNext(stage) && stage.next.Publish?) ==> v.init || !v.registered)
    && (stage.Dropping? ==> v.queue.release)
    && (stage.Freeing? ==> v.queue.release && v.queue.contents == [])
  }

  ghost predicate ThreadOk(s: State, pc: Pc) {
    match pc
    case Idle => true
    case At(i, stage) =>
      && i < |s.services| && LocalOk(s.services[i], stage)
      && (Other(stage).Some? ==> Other(stage).value < |s.services|)
  }

  ghost predicate Inv(s: State) {
    && |s.threads| == |s.weights|
    && (forall k :: 0 <= k < |s.global| ==> s.global[k] < |s.services|)
    && (forall a :: 0 <= a < |s.threads| ==> ThreadOk(s, s.threads[a]))
    && (forall i :: 0 <= i < |s.services| ==> ServiceOk(s.services[i], TallyOf(s, i)))
  }

  // ---- Every step keeps it --------------------------------------------------------------------------------------

  /** What never goes back */
  ghost predicate Grows(v: Service, w: Service) {
    && (v.init ==> w.init)
    && (!v.registered ==> !w.registered)
    && (v.queue.release ==> w.queue.release)
    && (v.queue.release && v.queue.contents == [] ==> w.queue.contents == [])
  }

  lemma ThreadKeeps(s: State, t: State, pc: Pc)
    requires ThreadOk(s, pc) && |s.services| <= |t.services|
    requires forall i :: 0 <= i < |s.services| ==> Grows(s.services[i], t.services[i])
    ensures ThreadOk(t, pc)
  {
  }

  /** The tally when a thread's share goes from `p` to `q` */
  function Shifted(t: Tally, p: Tally, q: Tally, listed: int): Tally {
    Tally(t.refs - p.refs + q.refs, t.holds - p.holds + q.holds, t.deletes - p.deletes + q.deletes, t.frees - p.frees + q.frees,
          t.makes - p.makes + q.makes, t.unmade - p.unmade + q.unmade, t.drops - p.drops + q.drops, listed)
  }

  lemma TallyMoves(s: State, t: State, a: nat, i: Id)
    requires a < |s.threads| == |t.threads| && t.threads == s.threads[a := t.threads[a]]
    ensures TallyOf(t, i)
         == Shifted(TallyOf(s, i), Weigh(s.threads[a], i), Weigh(t.threads[a], i), Listed(t.global, i))
  {
    hide Total, Weigh, Listed;
    TotalUpdate(s.threads, a, t.threads[a], i);
  }

  /** For service `j` nothing changes but whether its queue is in the list or with the thread. */
  ghost predicate Even(s: State, t: State, p: Tally, q: Tally, j: Id) {
    q == p.(holds := q.holds) && Listed(t.global, j) + q.holds == Listed(s.global, j) + p.holds
  }

  ghost predicate Moves(s: State, t: State, a: nat, i: Id) {
    && a < |s.threads| == |t.threads| && t.threads == s.threads[a := t.threads[a]] && t.weights == s.weights
    && |t.services| == |s.services|
    && (forall j :: 0 <= j < |s.services| && j != i ==> t.services[j] == s.services[j])
    && (i < |s.services| ==> Grows(s.services[i], t.services[i]))
  }

  /** A step of thread `a` that concerns service `i` keeps the invariant when it does so for that service. */
  lemma MoveKeeps(s: State, t: State, a: nat, i: Id)
    requires Inv(s) && Moves(s, t, a, i)
    requires forall k :: 0 <= k < |t.global| ==> t.global[k] < |s.services|
    requires ThreadOk(t, t.threads[a])
    requires forall j :: 0 <= j < |s.services| && j != i ==>
               Even(s, t, Weigh(s.threads[a], j), Weigh(t.threads[a], j), j)
    requires i < |s.services| ==>
               ServiceOk(t.services[i],
                         Shifted(TallyOf(s, i), Weigh(s.threads[a], i), Weigh(t.threads[a], i), Listed(t.global, i)))
    ensures Inv(t)
  {
    hide Weigh, Total, Listed, ServiceOk;
    forall b | 0 <= b < |t.threads| ensures ThreadOk(t, t.threads[b]) {
      if b != a {
        ThreadKeeps(s, t, s.threads[b]);
      }
    }
    forall j | 0 <= j < |t.services| ensures ServiceOk(t.services[j], TallyOf(t, j)) {
      TallyMoves(s, t, a, j);
      if j != i {
        assert Even(s, t, Weigh(s.threads[a], j), Weigh(t.threads[a], j), j);
        EvenOk(s.services[j], TallyOf(s, j), TallyOf(t, j));
      }
    }
  }

  lemma EvenOk(v: Service, t: Tally, u: Tally)
    requires ServiceOk(v, t) && u == t.(holds := u.holds, listed := u.listed) && Places(u) == Places(t)
    ensures ServiceOk(v, u)
  {
  }

  /** What a thread knows about a service */
  lemma Knows(s: State, a: nat, i: Id)
    requires Inv(s) && a < |s.threads| && i < |s.services|
    ensures ServiceOk(s.services[i], TallyOf(s, i)) && ThreadOk(s, s.threads[a]) && Sound(Weigh(s.threads[a], i))
    ensures Sound(Minus(TallyOf(s, i), Weigh(s.threads[a], i)).(listed := Listed(s.global, i)))
  {
    hide Weigh, ServiceOk;
    Share(s.threads, a, i);
  }

  /** `MoveKeeps` for a step that concerns one service and at most puts its queue into the list */
  lemma LocalKeeps(s: State, t: State, a: nat, i: Id, publish: bool)
    requires Inv(s) && Moves(s, t, a, i) && i < |s.services| && ThreadOk(t, t.threads[a])
    requires t.global == if publish then s.global + [i] else s.global
    requires forall j :: j != i ==> Weigh(t.threads[a], j) == Weigh(s.threads[a], j)
    requires ServiceOk(t.services[i],
                       Shifted(TallyOf(s, i), Weigh(s.threads[a], i), Weigh(t.threads[a], i), Listed(s.global, i) + (if publish then 1 else 0)))
    ensures Inv(t)
  {
    hide Weigh, Total, ServiceOk, Shifted, Listed, Inv, ThreadOk, Moves;
    forall j ensures Listed(s.global + [i], j) == Listed(s.global, j) + (if j == i then 1 else 0) {
      ListedPush(s.global, i, j);
    }
    assert forall k :: 0 <= k < |t.global| ==> t.global[k] < |s.services| by {
      ListInRange(s);
    }
    MoveKeeps(s, t, a, i);
  }

  lemma ListInRange(s: State)
    requires Inv(s)
    ensures forall k :: 0 <= k < |s.global| ==> s.global[k] < |s.services|
  {
  }

  lemma GrabKeeps(s: State, a: nat, i: Id, found: Stage)
    requires Inv(s) && a < |s.threads| && i < |s.services|
    requires s.threads[a] == Idle && (found == Releasing(Stop) || found.Pushing?)
    ensures Inv(TryGrab(s, a, i, found, Idle))
  {
    Knows(s, a, i);
    LocalKeeps(s, TryGrab(s, a, i, found, Idle), a, i, false);
  }

  lemma KillKeeps(s: State, a: nat, i: Id)
    requires Inv(s) && a < |s.threads| && i < |s.services| && s.threads[a] == Idle
    ensures Inv(Retire(s, a, i, Stop))
  {
    Knows(s, a, i);
    if InTable(s, i) {
      LocalKeeps(s, Retire(s, a, i, Stop), a, i, false);
    } else {
      assert s.threads[a := Idle] == s.threads;
    }
  }

  lemma AbandonKeeps(s: State, a: nat, i: Id)
    requires Inv(s) && a < |s.threads| && i < |s.services| && s.threads[a] == At(i, Abandoning)
    ensures Inv(Retire(s, a, i, Discard))
  {
    Knows(s, a, i);
    LocalKeeps(s, Retire(s, a, i, Discard), a, i, false);
  }

  lemma FetchKeeps(s: State, a: nat)
    requires Inv(s) && a < |s.threads| && s.threads[a] == Idle
    ensures Inv(FetchNext(s, a))
  {
    if s.global == [] {
      assert s.threads[a := Idle] == s.threads;
    } else {
      forall j ensures Listed(s.global[1..], j) == Listed(s.global, j) - (if s.global[0] == j then 1 else 0) {
        ListedPop(s.global, j);
      }
      MoveKeeps(s, FetchNext(s, a), a, |s.services|);
    }
  }

  lemma CreateKeeps(s: State, a: nat)
    requires Inv(s) && a < |s.threads| && s.threads[a].Idle?
    ensures Inv(DoIdle(s, a, Create))
  {
    hide Weigh, Total, Listed, ServiceOk;
    var t := DoIdle(s, a, Create);
    var n := |s.services|;
    forall b | 0 <= b < |t.threads| && b != a ensures ThreadOk(t, t.threads[b]) {
      ThreadKeeps(s, t, s.threads[b]);
    }
    forall i | 0 <= i <= n ensures ServiceOk(t.services[i], TallyOf(t, i)) {
      TallyMoves(s, t, a, i);
      NewWeight(n, i);
      if i == n {
        NobodyYet(s, s.threads, i);
        NotListed(s.global, i);
        NewOk();
      } else {
        EvenOk(s.services[i], TallyOf(s, i), TallyOf(t, i));
      }
    }
  }

  lemma NewOk()
    ensures ServiceOk(NEW, Tally(1, 1, 0, 0, 1, 1, 0, 0))
  {
  }

  lemma NewWeight(n: Id, i: Id)
    ensures Weigh(Idle, i) == Tally(0, 0, 0, 0, 0, 0, 0, 0)
    ensures Weigh(At(n, Registered), i) == if i == n then Tally(1, 1, 0, 0, 1, 1, 0, 0) else Tally(0, 0, 0, 0, 0, 0, 0, 0)
  {
  }

  lemma {:induction false} NobodyYet(s: State, threads: seq<Pc>, i: Id)
    requires i >= |s.services| && forall a :: 0 <= a < |threads| ==> ThreadOk(s, threads[a])
    ensures Total(threads, i) == Tally(0, 0, 0, 0, 0, 0, 0, 0)
  {
    if threads != [] {
      NobodyYet(s, threads[..|threads| - 1], i);
      assert Weigh(threads[|threads| - 1], i) == Tally(0, 0, 0, 0, 0, 0, 0, 0);
    }
  }

  lemma {:induction false} NotListed(global: seq<Id>, i: Id)
    requires forall k :: 0 <= k < |global| ==> global[k] != i
    ensures Listed(global, i) == 0
  {
    if global != [] {
      NotListed(global[..|global| - 1], i);
    }
  }

  lemma IdleKeeps(s: State, a: nat, act: Action)
    requires Inv(s) && a < |s.threads| && s.threads[a].Idle?
    ensures Inv(DoIdle(s, a, act))
  {
    hide Inv;
    assert s.threads[a := Idle] == s.threads;
    match act
    case Send(i, m) => if i < |s.services| { GrabKeeps(s, a, i, Pushing(m)); }
    case Grab(i) => if i < |s.services| { GrabKeeps(s, a, i, Releasing(Stop)); }
    case Kill(i) => if i < |s.services| { KillKeeps(s, a, i); }
    case Create => CreateKeeps(s, a);
    case Fetch => FetchKeeps(s, a);
    case _ =>
  }

  lemma PushKeeps(s: State, a: nat, i: Id, m: Message)
    requires Inv(s) && a < |s.threads| && s.threads[a] == At(i, Pushing(m)) && i < |s.services|
    ensures Inv(DoPush(s, a, i, m))
  {
    var v := s.services[i];
    Knows(s, a, i);
    assert v.dispatched + v.dropped + v.queue.contents + [m] == v.dispatched + v.dropped + (v.queue.contents + [m]);
    LocalKeeps(s, DoPush(s, a, i, m), a, i, v.made && Enqueued(v.queue, m).publish);
  }

  lemma MakeKeeps(s: State, a: nat, i: Id)
    requires Inv(s) && a < |s.threads| && s.threads[a] == At(i, Registered) && i < |s.services|
    ensures Inv(DoMake(s, a, i))
  {
    Knows(s, a, i);
    LocalKeeps(s, DoMake(s, a, i), a, i, false);
  }

  /** What giving back a reference, or deleting the context, changes for the thread */
  lemma ResumeWeighs(i: Id, next: Next, j: Id)
    ensures var after := Weigh(Resume(i, next), j);
            && Weigh(At(i, Releasing(next)), j) == after.(refs := if j == i then 1 else 0)
            && Weigh(At(i, Deleting(next)), j) == after.(deletes := if j == i then 1 else 0)
            && Weigh(At(i, Unmaking(next)), j) == after.(frees := if j == i then 1 else 0)
            && after.refs == 0 && after.deletes == 0 && after.frees == 0
  {
  }

  lemma ResumeOk(s: State, t: State, i: Id, next: Next)
    requires ThreadOk(s, At(i, Releasing(next))) || ThreadOk(s, At(i, Deleting(next))) || ThreadOk(s, At(i, Unmaking(next)))
    requires i < |s.services| == |t.services| && Grows(s.services[i], t.services[i])
    ensures ThreadOk(t, Resume(i, next)) && ThreadOk(t, At(i, Deleting(next))) && ThreadOk(t, At(i, Unmaking(next)))
  {
  }

  lemma ReleaseKeeps(s: State, a: nat, i: Id, next: Next)
    requires Inv(s) && a < |s.threads| && s.threads[a] == At(i, Releasing(next)) && i < |s.services|
    ensures Inv(DoRelease(s, a, i, next))
  {
    hide Weigh, Resume, Total, Listed, ThreadOk;
    var t := DoRelease(s, a, i, next);
    Knows(s, a, i);
    ResumesWeigh(i, next);
    ResumeOk(s, t, i, next);
    LocalKeeps(s, t, a, i, false);
  }

  lemma ResumesWeigh(i: Id, next: Next)
    ensures forall j :: Weigh(At(i, Releasing(next)), j) == Weigh(Resume(i, next), j).(refs := if j == i then 1 else 0)
    ensures forall j :: Weigh(At(i, Deleting(next)), j) == Weigh(Resume(i, next), j).(deletes := if j == i then 1 else 0)
    ensures forall j :: Weigh(At(i, Unmaking(next)), j) == Weigh(Resume(i, next), j).(frees := if j == i then 1 else 0)
    ensures forall j :: var after := Weigh(Resume(i, next), j); after.refs == 0 && after.deletes == 0 && after.frees == 0
  {
    hide Weigh, Resume;
    forall j ensures Weigh(At(i, Releasing(next)), j) == Weigh(Resume(i, next), j).(refs := if j == i then 1 else 0)
             ensures Weigh(At(i, Deleting(next)), j) == Weigh(Resume(i, next), j).(deletes := if j == i then 1 else 0)
             ensures Weigh(At(i, Unmaking(next)), j) == Weigh(Resume(i, next), j).(frees := if j == i then 1 else 0)
             ensures var after := Weigh(Resume(i, next), j); after.refs == 0 && after.deletes == 0 && after.frees == 0
    {
      ResumeWeighs(i, next, j);
    }
  }

  lemma DeleteKeeps(s: State, a: nat, i: Id, next: Next)
    requires Inv(s) && a < |s.threads| && s.threads[a] == At(i, Deleting(next)) && i < |s.services|
    ensures Inv(DoDelete(s, a, i, next))
  {
    hide Weigh, Resume, Total, Listed, ThreadOk;
    var t := DoDelete(s, a, i, next);
    Knows(s, a, i);
    ResumesWeigh(i, next);
    ResumeOk(s, t, i, next);
    LocalKeeps(s, t, a, i, MarkedReleased(s.services[i].queue).publish);
  }

  lemma UnmakeKeeps(s: State, a: nat, i: Id, next: Next)
    requires Inv(s) && a < |s.threads| && s.threads[a] == At(i, Unmaking(next)) && i < |s.services|
    ensures Inv(DoUnmake(s, a, i, next))
  {
    hide Weigh, Resume, Total, Listed, ThreadOk;
    var t := DoUnmake(s, a, i, next);
    Knows(s, a, i);
    ResumesWeigh(i, next);
    ResumeOk(s, t, i, next);
    LocalKeeps(s, t, a, i, false);
  }

  lemma InitializeKeeps(s: State, a: nat, i: Id, act: Action)
    requires Inv(s) && a < |s.threads| && s.threads[a] == At(i, Initializing) && i < |s.services|
    ensures Inv(DoInitialize(s, a, i, act))
  {
    Knows(s, a, i);
    if act.InitDone? {
      LocalKeeps(s, DoInitialize(s, a, i, act), a, i, false);
    }
  }

  lemma LaunchKeeps(s: State, a: nat, i: Id)
    requires Inv(s) && a < |s.threads| && s.threads[a] == At(i, Launching) && i < |s.services|
    ensures Inv(DoLaunch(s, a, i))
  {
    Knows(s, a, i);
    LocalKeeps(s, DoLaunch(s, a, i), a, i, false);
  }

  lemma MarkKeeps(s: State, a: nat, i: Id)
    requires Inv(s) && a < |s.threads| && s.threads[a] == At(i, Marking) && i < |s.services|
    ensures Inv(DoMark(s, a, i))
  {
    Knows(s, a, i);
    LocalKeeps(s, DoMark(s, a, i), a, i, false);
  }

  lemma PublishKeeps(s: State, a: nat, i: Id, ret: bool)
    requires Inv(s) && a < |s.threads| && s.threads[a] == At(i, Publishing(ret)) && i < |s.services|
    ensures Inv(DoPublish(s, a, i, ret))
  {
    Knows(s, a, i);
    LocalKeeps(s, DoPublish(s, a, i, ret), a, i, true);
  }

  lemma LogKeeps(s: State, a: nat, i: Id)
    requires Inv(s) && a < |s.threads| && s.threads[a] == At(i, Logging) && i < |s.services|
    ensures Inv(DoLog(s, a, i))
  {
    Knows(s, a, i);
    LocalKeeps(s, DoLog(s, a, i), a, i, false);
  }

  lemma HeldKeeps(s: State, a: nat, i: Id)
    requires Inv(s) && a < |s.threads| && s.threads[a] == At(i, Held) && i < |s.services|
    ensures Inv(TryGrab(s, a, i, Working(0, 1), At(i, Discarding)))
  {
    Knows(s, a, i);
    LocalKeeps(s, TryGrab(s, a, i, Working(0, 1), At(i, Discarding)), a, i, false);
  }

  predicate InTurn(stage: Stage) {
    AtWork(stage) && !stage.PuttingBack?
  }

  lemma TurnKeeps(s: State, a: nat, i: Id, stage: Stage)
    requires Inv(s) && a < |s.threads| && i < |s.services| && InTurn(stage)
    requires s.threads[a].At? && s.threads[a].id == i && InTurn(s.threads[a].stage)
    ensures Inv(Goto(s, a, At(i, stage)))
  {
    Knows(s, a, i);
    LocalKeeps(s, Goto(s, a, At(i, stage)), a, i, false);
  }

  lemma WorkKeeps(s: State, a: nat, i: Id, k: nat, n: nat)
    requires Inv(s) && a < |s.threads| && s.threads[a] == At(i, Working(k, n)) && i < |s.services|
    ensures Inv(DoWork(s, a, i, k, n))
  {
    var v := s.services[i];
    Knows(s, a, i);
    if v.queue.contents != [] {
      TakenFirst(v.dispatched, v.dropped, v.queue.contents);
    }
    LocalKeeps(s, DoWork(s, a, i, k, n), a, i, false);
  }

  lemma TakenFirst(done: seq<Message>, dropped: seq<Message>, contents: seq<Message>)
    requires contents != []
    ensures dropped == [] ==> done + dropped + contents == done + [contents[0]] + dropped + contents[1..]
    ensures done + dropped + contents == done + (dropped + [contents[0]]) + contents[1..]
  {
  }

  lemma YieldKeeps(s: State, a: nat, i: Id)
    requires Inv(s) && a < |s.threads| && s.threads[a] == At(i, Yielding) && i < |s.services|
    ensures Inv(DoYield(s, a, i))
  {
    Knows(s, a, i);
    if s.global == [] {
      LocalKeeps(s, DoYield(s, a, i), a, i, false);
    } else {
      forall j ensures Listed(s.global[1..], j) == Listed(s.global, j) - (if s.global[0] == j then 1 else 0) {
        ListedPop(s.global, j);
      }
      MoveKeeps(s, DoYield(s, a, i), a, |s.services|);
    }
  }

  lemma PutBackKeeps(s: State, a: nat, i: Id, q: Id)
    requires Inv(s) && a < |s.threads| && s.threads[a] == At(i, PuttingBack(q)) && i < |s.services|
    ensures Inv(Goto(Listing(s, i, true), a, At(i, Releasing(Keep(q)))))
  {
    Knows(s, a, i);
    LocalKeeps(s, Goto(Listing(s, i, true), a, At(i, Releasing(Keep(q)))), a, i, true);
  }

  lemma DiscardKeeps(s: State, a: nat, i: Id)
    requires Inv(s) && a < |s.threads| && s.threads[a] == At(i, Discarding) && i < |s.services|
    ensures Inv(DoDiscard(s, a, i))
  {
    Knows(s, a, i);
    LocalKeeps(s, DoDiscard(s, a, i), a, i, !s.services[i].queue.release);
  }

  lemma DropKeeps(s: State, a: nat, i: Id)
    requires Inv(s) && a < |s.threads| && s.threads[a] == At(i, Dropping) && i < |s.services|
    ensures Inv(DoDrop(s, a, i))
  {
    var v := s.services[i];
    Knows(s, a, i);
    if v.queue.contents != [] {
      TakenFirst(v.dispatched, v.dropped, v.queue.contents);
    }
    LocalKeeps(s, DoDrop(s, a, i), a, i, false);
  }

  lemma FreeKeeps(s: State, a: nat, i: Id)
    requires Inv(s) && a < |s.threads| && s.threads[a] == At(i, Freeing) && i < |s.services|
    ensures Inv(DoFree(s, a, i))
  {
    Knows(s, a, i);
    LocalKeeps(s, DoFree(s, a, i), a, i, false);
  }

  lemma BusyKeeps(s: State, a: nat, i: Id, stage: Stage, act: Action)
    requires Inv(s) && a < |s.threads| && s.threads[a] == At(i, stage) && i < |s.services|
    ensures InRange(s, a, i) && Inv(DoBusy(s, a, i, stage, act))
  {
    assert InRange(s, a, i);
    hide Inv, InRange, DoPush, DoRelease, DoDelete, DoUnmake, DoMake, DoInitialize, DoLaunch, DoMark, DoPublish, DoLog, DoWork, DoYield, DoDiscard,
      DoDrop, DoFree, TryGrab, Retire, Goto, Listing;
    match stage
    case Pushing(m) => PushKeeps(s, a, i, m);
    case Releasing(next) => ReleaseKeeps(s, a, i, next);
    case Deleting(next) => DeleteKeeps(s, a, i, next);
    case Unmaking(next) => UnmakeKeeps(s, a, i, next);
    case Registered => MakeKeeps(s, a, i);
    case Initializing => InitializeKeeps(s, a, i, act);
    case Launching => LaunchKeeps(s, a, i);
    case Marking => MarkKeeps(s, a, i);
    case Publishing(ret) => PublishKeeps(s, a, i, ret);
    case Logging => LogKeeps(s, a, i);
    case Abandoning => AbandonKeeps(s, a, i);
    case _ => TurnStepKeeps(s, a, i, stage, act);
  }

  /** The steps of a thread that has a queue to work on, or to get rid of */
  lemma TurnStepKeeps(s: State, a: nat, i: Id, stage: Stage, act: Action)
    requires Inv(s) && a < |s.threads| && s.threads[a] == At(i, stage) && InRange(s, a, i)
    requires stage.Held? || AtWork(stage) || stage.Discarding? || Emptying(stage)
    ensures Inv(DoBusy(s, a, i, stage, act))
  {
    hide Inv, InRange, DoPush, DoRelease, DoDelete, DoUnmake, DoMake, DoInitialize, DoLaunch, DoMark, DoPublish, DoLog, DoWork, DoYield, DoDiscard,
      DoDrop, DoFree, TryGrab, Retire, Goto, Listing;
    assert i < |s.services| by { ServiceInRange(s, a, i); }
    match stage
    case Held => HeldKeeps(s, a, i);
    case Working(k, n) => if k >= n { TurnKeeps(s, a, i, Yielding); } else { WorkKeeps(s, a, i, k, n); }
    case Measuring(k, n, m) => TurnKeeps(s, a, i, Running(k, Limit(s, a, i, k, n), m));
    case Running(k, n, _) => TurnKeeps(s, a, i, Working(k + 1, n));
    case Yielding => YieldKeeps(s, a, i);
    case PuttingBack(q) => PutBackKeeps(s, a, i, q);
    case Discarding => DiscardKeeps(s, a, i);
    case Dropping => DropKeeps(s, a, i);
    case Freeing => FreeKeeps(s, a, i);
  }

  lemma ServiceInRange(s: State, a: nat, i: Id)
    requires InRange(s, a, i)
    ensures i < |s.services|
  {
  }

  /** Every step of every thread keeps the invariant. */
  lemma StepKeeps(s: State, a: nat, act: Action)
    requires Inv(s) && a < |s.threads|
    ensures Inv(Do(s, a, act))
  {
    assert ThreadOk(s, s.threads[a]) && |s.threads| == |s.weights|;
    hide Inv, DoIdle, DoBusy;
    match s.threads[a]
    case Idle => IdleKeeps(s, a, act);
    case At(i, stage) => BusyKeeps(s, a, i, stage, act);
  }

  // ---- Whole runs -----------------------------------------------------------------------------------------------

  /** The next step of a run: which thread moves, and what it decides */
  datatype Move = Move(thread: nat, action: Action)

  predicate ValidMoves(weights: seq<int>, moves: seq<Move>) {
    forall k :: 0 <= k < |moves| ==> moves[k].thread < |weights|
  }

  /** One thread for each weight, all at rest, and no services yet */
  function Start(weights: seq<int>): State {
    State([], [], seq(|weights|, _ => Idle), weights)
  }

  function Run(weights: seq<int>, moves: seq<Move>): (s: State)
    requires ValidMoves(weights, moves)
    ensures |s.threads| == |s.weights| == |weights|
  {
    if moves == [] then Start(weights)
    else
      var s := Run(weights, moves[..|moves| - 1]);
      var last := moves[|moves| - 1];
      DoSizes(s, last.thread, last.action);
      Do(s, last.thread, last.action)
  }

  lemma IdleSizes(s: State, a: nat, act: Action)
    requires a < |s.threads| == |s.weights|
    ensures |DoIdle(s, a, act).threads| == |s.threads| && DoIdle(s, a, act).weights == s.weights
  {
  }

  lemma BusySizes(s: State, a: nat, i: Id, stage: Stage, act: Action)
    requires InRange(s, a, i)
    ensures |DoBusy(s, a, i, stage, act).threads| == |s.threads| && DoBusy(s, a, i, stage, act).weights == s.weights
  {
    hide Enqueued, Dequeued, MarkedReleased, Limit, Resume;
  }

  lemma DoSizes(s: State, a: nat, act: Action)
    requires a < |s.threads| == |s.weights|
    ensures |Do(s, a, act).threads| == |s.threads| && Do(s, a, act).weights == s.weights
  {
    hide DoIdle, DoBusy;
    match s.threads[a]
    case Idle => IdleSizes(s, a, act);
    case At(i, stage) => if i < |s.services| { BusySizes(s, a, i, stage, act); }
  }

  lemma {:induction false} RunKeeps(weights: seq<int>, moves: seq<Move>)
    requires ValidMoves(weights, moves)
    ensures Inv(Run(weights, moves))
  {
    hide Inv, Do;
    if moves == [] {
      assert Inv(Start(weights)) by { StartOk(weights); }
    } else {
      var last := moves[|moves| - 1];
      RunKeeps(weights, moves[..|moves| - 1]);
      StepKeeps(Run(weights, moves[..|moves| - 1]), last.thread, last.action);
    }
  }

  lemma StartOk(weights: seq<int>)
    ensures Inv(Start(weights))
  {
  }

  ghost predicate Reachable(s: State) {
    exists weights, moves :: ValidMoves(weights, moves) && s == Run(weights, moves)
  }

  lemma ReachableOk(s: State, i: Id)
    requires Reachable(s) && i < |s.services|
    ensures Inv(s) && ServiceOk(s.services[i], TallyOf(s, i)) && Sound(TallyOf(s, i))
  {
    var weights, moves :| ValidMoves(weights, moves) && s == Run(weights, moves);
    RunKeeps(weights, moves);
    TotalSound(s.threads, i);
  }

  /** The four places of a queue that has not been freed */
  datatype Place = Unpublished | InGlobalList | WithWorker | AtRest

  predicate IsAt(v: Service, t: Tally, place: Place) {
    match place
    case Unpublished => t.listed == 0 && t.holds == 1 && t.makes == 1
    case InGlobalList => t.listed == 1 && t.holds == 0
    case WithWorker => t.listed == 0 && t.holds == 1 && t.makes == 0
    case AtRest => t.listed == 0 && t.holds == 0 && !v.queue.inGlobal && !v.queue.release
  }

  lemma PlaceOf(v: Service, t: Tally) returns (place: Place)
    requires ServiceOk(v, t) && Sound(t)
    ensures v.queueFrees == 0 ==> IsAt(v, t, place) && forall other :: other != place ==> !IsAt(v, t, other)
    ensures IsAt(v, t, AtRest) && v.queueFrees == 0 ==> v.queue.contents == []
    ensures v.queueFrees == 1 ==> t.listed == 0 && t.holds == 0
  {
    place := if t.listed == 1 then InGlobalList else if t.holds == 0 then AtRest
             else if t.makes == 1 then Unpublished else WithWorker;
  }

  /** Every queue that has not been freed is in exactly one place; a queue at rest is empty, so no message waits without
      a thread that is going to see it. A freed queue is nowhere. */
  lemma OnePlace(s: State, i: Id)
    requires Reachable(s) && i < |s.services|
    ensures var v, t := s.services[i], TallyOf(s, i);
            && (v.queueFrees == 0 ==>
                  exists place :: IsAt(v, t, place) && forall other :: other != place ==> !IsAt(v, t, other))
            && (v.queueFrees == 0 && IsAt(v, t, AtRest) ==> v.queue.contents == [])
            && (v.queueFrees == 1 ==> t.listed == 0 && t.holds == 0)
  {
    ReachableOk(s, i);
    hide *;
    var place := PlaceOf(s.services[i], TallyOf(s, i));
  }

  /** Two threads never work on the same queue: the messages of a service are dispatched one at a time. */
  lemma NoConcurrentDispatch(s: State, a: nat, b: nat, i: Id)
    requires Reachable(s) && i < |s.services| && a < b < |s.threads|
    ensures Weigh(s.threads[a], i).holds + Weigh(s.threads[b], i).holds <= 1
  {
    ReachableOk(s, i);
    SharePair(s.threads, a, b, i);
  }

  /** Who holds a reference, or a queue, has it: the context, or the queue, has not been freed. Messages are dispatched only
      to services whose init is done, and nothing is freed twice. */
  lemma HoldersSafe(s: State, a: nat, i: Id)
    requires Reachable(s) && i < |s.services| && a < |s.threads|
    ensures var v, w := s.services[i], Weigh(s.threads[a], i);
            && (w.refs > 0 || w.deletes > 0 || w.frees > 0 ==> v.contextFrees == 0)
            && (w.holds > 0 || w.refs > 0 || w.deletes > 0 ==> v.queueFrees == 0)
            && (w.holds > 0 && w.unmade == 0 ==> v.made)
            && v.contextFrees <= 1 && v.queueFrees <= 1
            && (s.threads[a].At? && s.threads[a].id == i && AtWork(s.threads[a].stage) ==> v.init)
  {
    ReachableOk(s, i);
    Share(s.threads, a, i);
    assert ThreadOk(s, s.threads[a]);
  }

  /** The creator is about to touch the context, after it gave up its reference. No other step touches a context without a
      reference, or the duty to delete it. */
  predicate Touches(pc: Pc) {
    pc.At? && (pc.stage.Marking? || pc.stage.Logging?)
  }

  /** The context is still there if and only if somebody has a reference to it, the handle table for one, or is deleting it. The
      queue is there, from then on until it is freed, if and only if nobody is still between registering and making it. */
  lemma ThereExactly(s: State, i: Id)
    requires Reachable(s) && i < |s.services|
    ensures s.services[i].contextFrees == 0 <==> s.services[i].refs > 0 || TallyOf(s, i).deletes > 0 || TallyOf(s, i).frees > 0
    ensures s.services[i].registered ==> s.services[i].contextFrees == 0
    ensures s.services[i].made <==> TallyOf(s, i).unmade == 0
  {
    ReachableOk(s, i);
    hide Reachable, Inv, TallyOf;
  }

  /** At each late touch of the run, somebody else has a reference to the context, or has not finished deleting it; and at each
      push the creator of the service has made the queue. */
  ghost predicate Calm(weights: seq<int>, moves: seq<Move>)
    requires ValidMoves(weights, moves)
  {
    forall k {:trigger moves[k]} :: 0 <= k < |moves| ==> CalmMove(Run(weights, moves[..k]), moves[k])
  }

  ghost predicate CalmMove(s: State, move: Move)
    requires move.thread < |s.threads|
  {
    var pc := s.threads[move.thread];
    pc.At? && pc.id < |s.services| ==>
      && (Touches(pc) ==> s.services[pc.id].refs > 0 || TallyOf(s, pc.id).deletes > 0 || TallyOf(s, pc.id).frees > 0)
      && (pc.stage.Pushing? ==> TallyOf(s, pc.id).unmade == 0)
  }

  ghost predicate NoStrays(s: State) {
    forall i :: 0 <= i < |s.services| ==> s.services[i].strays == 0 && s.services[i].early == []
  }

  /** What a step of a thread at `pc` adds to the touches of freed memory, and to the pushes without a queue */
  predicate Adds(pc: Pc, j: Id, v: Service, w: Service) {
    && w.strays == v.strays + (if Touches(pc) && pc.id == j && v.contextFrees > 0 then 1 else 0)
    && w.early == v.early + (if pc.At? && pc.stage.Pushing? && pc.id == j && !v.made then [pc.stage.message] else [])
  }

  lemma StepStrays(s: State, a: nat, act: Action)
    requires a < |s.threads| == |s.weights|
    ensures var t := Do(s, a, act);
            && |s.services| <= |t.services|
            && (forall j :: |s.services| <= j < |t.services| ==> t.services[j].strays == 0 && t.services[j].early == [])
            && forall j :: 0 <= j < |s.services| ==> Adds(s.threads[a], j, s.services[j], t.services[j])
  {
    hide Enqueued, Dequeued, MarkedReleased, Limit, Resume;
    match s.threads[a]
    case Idle => IdleStrays(s, a, act);
    case At(i, stage) => if i < |s.services| { BusyStrays(s, a, i, stage, act); }
  }

  lemma IdleStrays(s: State, a: nat, act: Action)
    requires a < |s.threads|
    ensures var t := DoIdle(s, a, act);
            && |s.services| <= |t.services|
            && (forall j :: |s.services| <= j < |t.services| ==> t.services[j].strays == 0 && t.services[j].early == [])
            && forall j :: 0 <= j < |s.services| ==> Adds(Idle, j, s.services[j], t.services[j])
  {
  }

  lemma BusyStrays(s: State, a: nat, i: Id, stage: Stage, act: Action)
    requires InRange(s, a, i)
    ensures var t := DoBusy(s, a, i, stage, act);
            && |s.services| == |t.services|
            && forall j :: 0 <= j < |s.services| ==> Adds(At(i, stage), j, s.services[j], t.services[j])
  {
    hide Enqueued, Dequeued, MarkedReleased, Limit, Resume;
  }

  /** No run touches a context that was freed, or pushes without a queue, if and only if, at each touch by a creator, somebody else
      has a reference to the context or is still deleting it, and at each push the queue has been made. */
  lemma {:induction false} MemorySafe(weights: seq<int>, moves: seq<Move>)
    requires ValidMoves(weights, moves)
    ensures NoStrays(Run(weights, moves)) <==> Calm(weights, moves)
  {
    hide Do, Inv;
    if moves != [] {
      var n := |moves| - 1;
      var (front, last) := (moves[..n], moves[n]);
      var s := Run(weights, front);
      MemorySafe(weights, front);
      StepStrays(s, last.thread, last.action);
      assert Calm(weights, moves) <==> Calm(weights, front) && CalmMove(s, last) by { CalmSplit(weights, moves); }
      assert Reachable(s);
      hide TallyOf, Calm, CalmMove, NoStrays;
      assert NoStrays(Run(weights, moves)) <==> NoStrays(s) && CalmMove(s, last) by {
        StraysSplit(s, last);
      }
    }
  }

  lemma CalmSplit(weights: seq<int>, moves: seq<Move>)
    requires ValidMoves(weights, moves) && moves != []
    ensures var n := |moves| - 1; Calm(weights, moves) <==> Calm(weights, moves[..n]) && CalmMove(Run(weights, moves[..n]), moves[n])
  {
    hide Run, CalmMove;
    var n := |moves| - 1;
    forall k | 0 <= k < n ensures moves[..n][..k] == moves[..k] && moves[..n][k] == moves[k] {
    }
    if Calm(weights, moves) {
      forall k | 0 <= k < n ensures CalmMove(Run(weights, moves[..n][..k]), moves[..n][k]) {
        assert CalmMove(Run(weights, moves[..k]), moves[k]);
      }
      assert CalmMove(Run(weights, moves[..n]), moves[n]);
    }
    if Calm(weights, moves[..n]) && CalmMove(Run(weights, moves[..n]), moves[n]) {
      forall k | 0 <= k < |moves| ensures CalmMove(Run(weights, moves[..k]), moves[k]) {
        if k < n {
          assert CalmMove(Run(weights, moves[..n][..k]), moves[..n][k]);
        }
      }
    }
  }

  lemma StraysSplit(s: State, last: Move)
    requires last.thread < |s.threads| == |s.weights| && Reachable(s)
    ensures NoStrays(Do(s, last.thread, last.action)) <==> NoStrays(s) && CalmMove(s, last)
  {
    StepStrays(s, last.thread, last.action);
    hide Do, Reachable, TallyOf;
    var t := Do(s, last.thread, last.action);
    var pc := s.threads[last.thread];
    if pc.At? && pc.id < |s.services| {
      ThereExactly(s, pc.id);
      assert Adds(pc, pc.id, s.services[pc.id], t.services[pc.id]);
    }
    if NoStrays(t) {
      forall i | 0 <= i < |s.services| ensures s.services[i].strays == 0 && s.services[i].early == [] {
        assert Adds(pc, i, s.services[i], t.services[i]) && t.services[i].strays == 0 && t.services[i].early == [];
      }
    }
  }

  /** A service is retired between its creator's release and its write of `init`. */
  function Racing(): (moves: seq<Move>)
    ensures |moves| == 12
  {
    [Move(0, Create), Move(0, Go), Move(0, InitDone(true)), Move(0, Go), Move(1, Kill(0)), Move(1, Go), Move(1, Go), Move(1, Go),
     Move(0, Go), Move(0, Go), Move(0, Go), Move(0, Go)]
  }

  lemma RunStep(weights: seq<int>, moves: seq<Move>, k: nat)
    requires ValidMoves(weights, moves) && k < |moves|
    ensures Run(weights, moves[..k + 1]) == Do(Run(weights, moves[..k]), moves[k].thread, moves[k].action)
  {
    hide Do;
    assert moves[..k + 1][..k] == moves[..k];
  }

  /** The service up to the release of its creator */
  lemma RaceLaunch(s: State, w: seq<int>)
    requires s == State([], [], [Idle, Idle], w) && |w| == 2
    ensures Four(s, Move(0, Create), Move(0, Go), Move(0, InitDone(true)), Move(0, Go))
         == State([NEW.(refs := 1, made := true)], [], [At(0, Marking), Idle], w)
  {
  }

  /** Its end */
  lemma RaceRetire(s: State, w: seq<int>)
    requires s == State([NEW.(refs := 1, made := true)], [], [At(0, Marking), Idle], w) && |w| == 2
    ensures Four(s, Move(1, Kill(0)), Move(1, Go), Move(1, Go), Move(1, Go))
         == State([NEW.(refs := 0, made := true, registered := false, queue := Queue([], true, true), contextFrees := 1)],
                  [], [At(0, Marking), Idle], w)
  {
  }

  lemma RaceTouches(s: State, w: seq<int>)
    requires |s.services| == 1 && s.services[0].contextFrees == 1 && s.services[0].strays == 0 && |w| == 2 && s.weights == w
    requires s.threads == [At(0, Marking), Idle]
    ensures var t := Four(s, Move(0, Go), Move(0, Go), Move(0, Go), Move(0, Go)); |t.services| == 1 && t.services[0].strays == 2
  {
  }

  /** Four steps */
  function Four(s: State, x: Move, y: Move, z: Move, u: Move): State
    requires |s.threads| == |s.weights|
    requires x.thread < |s.threads| && y.thread < |s.threads| && z.thread < |s.threads| && u.thread < |s.threads|
  {
    DoSizes(s, x.thread, x.action);
    var s1 := Do(s, x.thread, x.action);
    DoSizes(s1, y.thread, y.action);
    var s2 := Do(s1, y.thread, y.action);
    DoSizes(s2, z.thread, z.action);
    Do(Do(s2, z.thread, z.action), u.thread, u.action)
  }

  lemma RunFour(weights: seq<int>, moves: seq<Move>, k: nat)
    requires ValidMoves(weights, moves) && k + 4 <= |moves|
    ensures Run(weights, moves[..k + 4]) == Four(Run(weights, moves[..k]), moves[k], moves[k + 1], moves[k + 2], moves[k + 3])
  {
    hide Do;
    RunStep(weights, moves, k);
    RunStep(weights, moves, k + 1);
    RunStep(weights, moves, k + 2);
    RunStep(weights, moves, k + 3);
  }

  lemma RunNone(w: seq<int>, moves: seq<Move>)
    requires |w| == 2 && ValidMoves(w, moves)
    ensures Run(w, moves[..0]) == State([], [], [Idle, Idle], w)
  {
  }

  lemma RaceRuns(w: seq<int>)
    requires |w| == 2
    ensures var m := Racing();
            && ValidMoves(w, m) && m[..12] == m
            && Run(w, m[..4]) == Four(Run(w, m[..0]), Move(0, Create), Move(0, Go), Move(0, InitDone(true)), Move(0, Go))
            && Run(w, m[..8]) == Four(Run(w, m[..4]), Move(1, Kill(0)), Move(1, Go), Move(1, Go), Move(1, Go))
            && Run(w, m[..12]) == Four(Run(w, m[..8]), Move(0, Go), Move(0, Go), Move(0, Go), Move(0, Go))
  {
    hide Run, Do, Four;
    var m := Racing();
    RunFour(w, m, 0);
    RunFour(w, m, 4);
    RunFour(w, m, 8);
  }

  /** The creator writes to a context that has been freed, and reads it again for its log line. */
  lemma RaceStrays(w: seq<int>)
    requires |w| == 2
    ensures ValidMoves(w, Racing())
    ensures var s := Run(w, Racing()); |s.services| == 1 && s.services[0].strays == 2 && !Calm(w, Racing())
  {
    RaceRuns(w);
    RunNone(w, Racing());
    hide *;
    var m := Racing();
    var (s0, s4, s8) := (Run(w, m[..0]), Run(w, m[..4]), Run(w, m[..8]));
    RaceLaunch(s0, w);
    RaceRetire(s4, w);
    RaceTouches(s8, w);
    MemorySafe(w, m);
    assert Run(w, m).services[0].strays == 2;
    StraysSeen(Run(w, m));
  }

  /** A message is sent to a service between the registration of its handle and the making of its queue. */
  function Hurrying(m: Message): (moves: seq<Move>)
    ensures |moves| == 4
  {
    [Move(0, Create), Move(1, Send(0, m)), Move(1, Go), Move(1, Go)]
  }

  lemma HurryPushes(s: State, w: seq<int>, m: Message)
    requires s == State([], [], [Idle, Idle], w) && |w| == 2
    ensures Four(s, Move(0, Create), Move(1, Send(0, m)), Move(1, Go), Move(1, Go))
         == State([NEW.(early := [m])], [], [At(0, Registered), Idle], w)
  {
    var s1 := Do(s, 0, Create);
    assert s1 == State([NEW], [], [At(0, Registered), Idle], w);
    var s2 := Do(s1, 1, Send(0, m));
    assert s2 == State([NEW.(refs := 3)], [], [At(0, Registered), At(0, Pushing(m))], w);
    var s3 := Do(s2, 1, Go);
    assert [] + [m] == [m];
    assert s3 == State([NEW.(refs := 3, early := [m])], [], [At(0, Registered), At(0, Releasing(Stop))], w);
  }

  lemma HurryRuns(w: seq<int>, m: Message)
    requires |w| == 2
    ensures var h := Hurrying(m);
            && ValidMoves(w, h) && h[..4] == h
            && Run(w, h) == Four(Run(w, h[..0]), Move(0, Create), Move(1, Send(0, m)), Move(1, Go), Move(1, Go))
  {
    hide Run, Do, Four;
    var h := Hurrying(m);
    assert h[..4] == h;
    RunFour(w, h, 0);
  }

  /** The message is pushed through a pointer that has not been set, and is in no queue. */
  lemma PushedEarly(w: seq<int>, m: Message)
    requires |w| == 2
    ensures ValidMoves(w, Hurrying(m))
    ensures var s := Run(w, Hurrying(m));
            |s.services| == 1 && s.services[0].early == [m] && s.services[0].pushed == [] && !Calm(w, Hurrying(m))
  {
    HurryRuns(w, m);
    RunNone(w, Hurrying(m));
    hide *;
    var h := Hurrying(m);
    HurryPushes(Run(w, h[..0]), w, m);
    MemorySafe(w, h);
    assert Run(w, h).services[0] == NEW.(early := [m]);
    EarlySeen(Run(w, h), m);
  }

  lemma EarlySeen(s: State, m: Message)
    requires |s.services| == 1 && s.services[0].early == [m]
    ensures !NoStrays(s)
  {
  }

  lemma StraysSeen(s: State)
    requires |s.services| == 1 && s.services[0].strays == 2
    ensures !NoStrays(s)
  {
  }

  /** Every message pushed is dispatched, or dropped, or still waiting, once and in the order of the pushes. */
  lemma MessagesConserved(s: State, i: Id)
    requires Reachable(s) && i < |s.services|
    ensures var v := s.services[i];
            && v.pushed == v.dispatched + v.dropped + v.queue.contents
            && (v.queueFrees == 1 ==> v.pushed == v.dispatched + v.dropped)
            && (v.dropped != [] ==> v.refs == 0)
            && (v.registered ==> v.pushed == v.dispatched + v.queue.contents)
  {
    ReachableOk(s, i);
    hide TallyOf, Inv, Total, Listed, Reachable;
    var v := s.services[i];
    assert v.dispatched + v.dropped + [] == v.dispatched + v.dropped;
    assert v.dispatched + [] == v.dispatched;
  }

  /** When all threads are at rest and nothing is runnable, every message has been handled, and every service that was
      retired has been freed with its queue. */
  lemma NothingLeftBehind(s: State, i: Id)
    requires Reachable(s) && i < |s.services| && s.global == []
    requires forall a :: 0 <= a < |s.threads| ==> s.threads[a] == Idle
    ensures var v := s.services[i];
            && v.pushed == v.dispatched + v.dropped
            && v.contextFrees == v.queueFrees == (if v.registered then 0 else 1)
  {
    ReachableOk(s, i);
    AllIdle(s.threads, i);
    var v := s.services[i];
    assert v.dispatched + v.dropped + [] == v.dispatched + v.dropped;
  }

  lemma {:induction false} AllIdle(threads: seq<Pc>, i: Id)
    requires forall a :: 0 <= a < |threads| ==> threads[a] == Idle
    ensures Total(threads, i) == Tally(0, 0, 0, 0, 0, 0, 0, 0)
  {
    if threads != [] {
      AllIdle(threads[..|threads| - 1], i);
    }
  }
}
