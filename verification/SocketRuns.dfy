/** Workers that send to one TCP socket, its command pipe, and the thread that owns it: every interleaving. */
module SocketRuns {
  import opened Socket

  /** A request in the pipe to the socket thread */
  datatype Command = Send(pkg: Package) | TriggerWrite | Close(shutdown: bool) | ResumeSocket

  /** Where a worker is inside `socket_server_send` */
  datatype Worker =
    | Rest
    | Checked(pkg: Package)
    | Writing(pkg: Package)
    | Triggering
    | Referring(pkg: Package)
    | Queueing(pkg: Package)

  /** The socket thread: ready, or about to close the descriptor, for which it needs the lock */
  datatype Thread = Ready | Forcing(event: Option<Event>)

  datatype State = State(
    sock: Sock,
    thread: Thread,
    pipe: seq<Command>,
    workers: seq<Worker>,
    lock: Option<nat>,
    counts: seq<nat>,
    issued: seq<Package>,
    events: seq<Event>
  )

  /** What the socket thread, or a worker, does next */
  datatype Action =
    | Command
    | PollWrite(io: seq<Outcome>)
    | PollRead(got: Arrival)
    | PollConnect(ok: bool)
    | PollError
    | PollEnd
    | FinishForce
    | SendNew(w: nat, bytes: seq<Byte>, low: bool)
    | Continue(w: nat, answer: Outcome)
    | Request(command: Command)

  const SENDINGMAX := 0xffff

  /** `can_direct_write`, taken as one test */
  predicate CanDirect(s: Sock) {
    NoMoreData(s) && s.kind.Connected?
  }

  /** The kinds that the poll hands on to reading, writing and closing */
  predicate Polled(k: Kind) {
    !k.Connecting? && !k.Listen? && !k.Invalid?
  }

  function Raise1(events: seq<Event>, e: Option<Event>): seq<Event> {
    if e.Some? then events + [e.value] else events
  }

  /** Go on after an operation of the socket thread. */
  function After(s: State, n: Next): State {
    match n
    case Done(sock, e) => s.(sock := sock, events := Raise1(s.events, e))
    case Force(sock, e) => s.(sock := FreeLists(sock), thread := Forcing(e))
  }

  function DoCommand(s: State): State {
    if s.pipe == [] || !s.thread.Ready? then s
    else
      var t := s.(pipe := s.pipe[1..]);
      match s.pipe[0]
      case Send(p) => t.(sock := SendSocket(s.sock, p))
      case TriggerWrite => if s.sock.kind.Invalid? then t else t.(sock := s.sock.(writing := true))
      case Close(shutdown) => After(t, CloseSocket(s.sock, shutdown))
      case ResumeSocket => After(t, Resume(s.sock))
  }

  function DoPollWrite(s: State, io: seq<Outcome>): State {
    if !s.thread.Ready? || !Polled(s.sock.kind) || s.lock.Some? then s
    else
      var r := SendBuffer(s.sock, io);
      s.(sock := r.sock, events := Raise1(s.events, r.event))
  }

  /** Begin `socket_server_send`, or its low-priority form. */
  function DoSendNew(s: State, w: nat, bytes: seq<Byte>, low: bool): State {
    if w >= |s.workers| || w >= |s.counts| || !s.workers[w].Rest? then s
    else
      var p := Package(w, s.counts[w], low, bytes);
      var t := s.(counts := s.counts[w := s.counts[w] + 1], issued := s.issued + [p]);
      if s.sock.kind.Invalid? || (!low && s.sock.closing) then t.(sock := s.sock.(dropped := s.sock.dropped + [p]))
      else t.(workers := s.workers[w := if low then Referring(p) else Checked(p)])
  }

  /** The answer of `write` to a direct write: an error counts as nothing written. */
  function DirectCount(answer: Outcome, p: Package): (n: nat)
    ensures n <= |p.bytes|
  {
    match answer
    case Wrote(n) => Min(n, |p.bytes|)
    case _ => 0
  }

  /** A direct write: all of the package, or what is left of it waits for the socket thread. */
  function DirectWrite(s: Sock, p: Package, n: nat): Sock
    requires n <= |p.bytes|
  {
    var wb := WriteBuffer(p, 0);
    var t := s.(log := Logged(s.log, wb, n));
    if n == |p.bytes| then t.(done := t.done + [p]) else t.(dw := Some(WriteBuffer(p, n)))
  }

  function DoContinue(s: State, w: nat, answer: Outcome): State {
    if w >= |s.workers| then s
    else
      match s.workers[w]
      case Rest => s
      case Checked(p) =>
        if CanDirect(s.sock) && s.lock.None? then s.(workers := s.workers[w := Writing(p)], lock := Some(w))
        else s.(workers := s.workers[w := Referring(p)])
      case Writing(p) =>
        var n := DirectCount(answer, p);
        s.(sock := DirectWrite(s.sock, p, n), lock := None,
           workers := s.workers[w := if n == |p.bytes| then Rest else Triggering])
      case Triggering => s.(pipe := s.pipe + [TriggerWrite], workers := s.workers[w := Rest])
      case Referring(p) =>
        if s.sock.sending >= SENDINGMAX then s
        else s.(sock := s.sock.(sending := s.sock.sending + 1), workers := s.workers[w := Queueing(p)])
      case Queueing(p) => s.(pipe := s.pipe + [Send(p)], workers := s.workers[w := Rest])
  }

  function Do(s: State, a: Action): State {
    match a
    case Command => DoCommand(s)
    case PollWrite(io) => DoPollWrite(s, io)
    case PollRead(got) => if s.thread.Ready? && Polled(s.sock.kind) then After(s, Forward(s.sock, got)) else s
    case PollConnect(ok) => if s.thread.Ready? && s.sock.kind.Connecting? then After(s, ReportConnect(s.sock, ok)) else s
    case PollError => if s.thread.Ready? && Polled(s.sock.kind) then s.(events := s.events + [Failed]) else s
    case PollEnd => if s.thread.Ready? && Polled(s.sock.kind) then After(s, EndOfStream(s.sock)) else s
    case FinishForce =>
      if s.thread.Forcing? && s.lock.None? then
        s.(sock := CloseFd(s.sock), thread := Ready, events := Raise1(s.events, s.thread.event))
      else s
    case SendNew(w, bytes, low) => DoSendNew(s, w, bytes, low)
    case Continue(w, answer) => DoContinue(s, w, answer)
    case Request(c) => if c.Send? then s else s.(pipe := s.pipe + [c])
  }

  /** A socket that has just been opened in one of the ways there are: with nothing to write yet */
  predicate Opening(k: Kind) {
    k.Connecting? || k.Connected? || k.PAccept? || k.PListen? || k.Bind?
  }

  function Start(k: Kind, workers: nat): State {
    State(Sock(k, false, k.Connecting?, [], [], 0, None, 0, [], [], []), Ready, [], seq(workers, _ => Rest), None,
          seq(workers, _ => 0), [], [])
  }

  function Run(k: Kind, workers: nat, actions: seq<Action>): State {
    if actions == [] then Start(k, workers)
    else Do(Run(k, workers, actions[..|actions| - 1]), actions[|actions| - 1])
  }

  // ---- Structure --------------------------------------------------------------------------------------------------

  /** The packages in the pipe, in order */
  function Sends(pipe: seq<Command>): seq<Package> {
    if pipe == [] then []
    else if pipe[0].Send? then [pipe[0].pkg] + Sends(pipe[1..])
    else Sends(pipe[1..])
  }

  /** Workers that hold a reference (`sending`) for a package that is not in the pipe yet */
  function Queueings(workers: seq<Worker>): nat {
    if workers == [] then 0
    else Queueings(workers[..|workers| - 1]) + if workers[|workers| - 1].Queueing? then 1 else 0
  }

  lemma {:induction false} SendsAppend(pipe: seq<Command>, c: Command)
    ensures Sends(pipe + [c]) == if c.Send? then Sends(pipe) + [c.pkg] else Sends(pipe)
  {
    if pipe == [] {
      assert [] + [c] == [c];
    } else {
      SendsAppend(pipe[1..], c);
      assert (pipe + [c])[1..] == pipe[1..] + [c];
    }
  }

  lemma {:induction false} QueueingsUpdate(workers: seq<Worker>, w: nat, to: Worker)
    requires w < |workers|
    ensures Queueings(workers[w := to])
         == Queueings(workers) - (if workers[w].Queueing? then 1 else 0) + if to.Queueing? then 1 else 0
  {
    var n := |workers| - 1;
    if w == n {
      assert workers[w := to][..n] == workers[..n];
    } else {
      assert workers[w := to][..n] == workers[..n][w := to];
      QueueingsUpdate(workers[..n], w, to);
    }
  }

  /** The lock is with the worker that writes; the references are counted; what is left of a closed socket. */
  ghost predicate Structure(s: State) {
    && |s.counts| == |s.workers|
    && (s.lock.Some? ==> s.lock.value < |s.workers| && s.workers[s.lock.value].Writing? && s.sock.dw.None?
                            && !s.sock.kind.Invalid?)
    && (forall w :: 0 <= w < |s.workers| && s.workers[w].Writing? ==> s.lock == Some(w))
    && s.sock.sending == |Sends(s.pipe)| + Queueings(s.workers)
    && (s.thread.Forcing? ==> !s.sock.kind.Invalid? && Empty(s.sock))
    && (s.sock.kind.Invalid? ==> !Waiting(s.sock))
  }

  /** What is written: the log follows the lists while the socket is open, and it is never torn. */
  ghost predicate Written(s: State) {
    && (s.thread.Ready? && !s.sock.kind.Invalid? ==> Alive(s.sock))
    && (s.thread.Ready? && s.lock.Some? ==> Fresh(s.sock.high) && Fresh(s.sock.low))
    && (s.thread.Forcing? || s.sock.kind.Invalid? ==>
          !Received(s.sock.log).Torn? && DoneOf(Received(s.sock.log)) == s.sock.done && Begun(Received(s.sock.log)))
    && (s.thread.Forcing? && s.lock.Some? ==> Received(s.sock.log).Between?)
    && (s.thread.Forcing? && s.sock.dw.Some? ==>
          WellFormed(s.sock.dw.value) && Tracks(Received(s.sock.log), s.sock.done, s.sock.dw))
  }

  ghost predicate Inv(s: State) {
    Structure(s) && Written(s)
  }

  /** A direct write begins while the socket is being forced closed and a package had been written in part: the lists
      have been freed, but the lock that keeps workers away is not taken yet. */
  predicate Gap(s: State, a: Action) {
    && a.Continue? && a.w < |s.workers| && s.workers[a.w].Checked? && s.thread.Forcing?
    && CanDirect(s.sock) && s.lock.None? && Received(s.sock.log).Inside?
  }

  lemma SendCommandKeeps(s: State)
    requires Inv(s) && s.thread.Ready? && s.pipe != [] && s.pipe[0].Send?
    ensures Inv(s.(pipe := s.pipe[1..], sock := SendSocket(s.sock, s.pipe[0].pkg)))
  {
    hide Received, Alive;
    if s.sock.kind.Invalid? {
    } else {
      SendSocketKeeps(s.sock, s.pipe[0].pkg);
    }
  }

  lemma AfterKeeps(s: State, n: Next)
    requires Inv(s) && s.thread.Ready? && !s.sock.kind.Invalid?
    requires !n.sock.kind.Invalid? && n.sock.high == s.sock.high && n.sock.low == s.sock.low && n.sock.dw == s.sock.dw
    requires n.sock.log == s.sock.log && n.sock.done == s.sock.done && n.sock.wbSize == s.sock.wbSize
    requires n.sock.sending == s.sock.sending
    ensures Inv(After(s, n))
  {
    hide Received;
    StillAlive(s.sock, n.sock);
  }

  /** Taking a command that carries no package out of the pipe */
  lemma PopKeeps(s: State)
    requires Inv(s) && s.pipe != [] && !s.pipe[0].Send?
    ensures Inv(s.(pipe := s.pipe[1..]))
  {
  }

  lemma CommandKeeps(s: State)
    requires Inv(s)
    ensures Inv(DoCommand(s))
  {
    if s.pipe != [] && s.thread.Ready? {
      if s.pipe[0].Send? {
        SendCommandKeeps(s);
      } else {
        PopKeeps(s);
        hide Inv, Alive, After;
        var t := s.(pipe := s.pipe[1..]);
        match s.pipe[0]
        case TriggerWrite => if !s.sock.kind.Invalid? { WritingKeeps(t); }
        case Close(shutdown) => NextKeeps(t, CloseSocket(t.sock, shutdown));
        case ResumeSocket => NextKeeps(t, Resume(t.sock));
        case _ =>
      }
    }
  }

  lemma WritingKeeps(s: State)
    requires Inv(s) && s.thread.Ready? && !s.sock.kind.Invalid?
    ensures Inv(s.(sock := s.sock.(writing := true)))
  {
    hide Received;
    StillAlive(s.sock, s.sock.(writing := true));
  }

  predicate SameData(s: Sock, t: Sock) {
    && t.high == s.high && t.low == s.low && t.dw == s.dw && t.log == s.log && t.done == s.done
    && t.wbSize == s.wbSize && t.sending == s.sending && t.dropped == s.dropped
  }

  lemma NextKeeps(s: State, n: Next)
    requires Inv(s) && s.thread.Ready? && SameData(s.sock, n.sock)
    requires if s.sock.kind.Invalid? then n.Done? && n.sock.kind.Invalid? else !n.sock.kind.Invalid?
    ensures Inv(After(s, n))
  {
    hide Received;
    if s.sock.kind.Invalid? {
    } else {
      AfterKeeps(s, n);
    }
  }

  lemma PollWriteKeeps(s: State, io: seq<Outcome>)
    requires Inv(s)
    ensures Inv(DoPollWrite(s, io))
  {
    if s.thread.Ready? && Polled(s.sock.kind) && s.lock.None? {
      SendBufferKeeps(s.sock, io);
    }
  }

  lemma StillAliveDropped(s: Sock, p: Package)
    ensures Alive(s) ==> Alive(s.(dropped := s.dropped + [p]))
  {
  }

  lemma SendNewKeeps(s: State, w: nat, bytes: seq<Byte>, low: bool)
    requires Inv(s)
    ensures Inv(DoSendNew(s, w, bytes, low))
  {
    hide Received;
    if w < |s.workers| && s.workers[w].Rest? {
      var p := Package(w, s.counts[w], low, bytes);
      QueueingsUpdate(s.workers, w, Referring(p));
      QueueingsUpdate(s.workers, w, Checked(p));
      StillAliveDropped(s.sock, p);
    }
  }

  lemma CheckedKeeps(s: State, w: nat)
    requires Inv(s) && w < |s.workers| && s.workers[w].Checked? && !Gap(s, Continue(w, WouldBlock))
    ensures Inv(DoContinue(s, w, WouldBlock))
  {
    var p := s.workers[w].pkg;
    QueueingsUpdate(s.workers, w, Referring(p));
    QueueingsUpdate(s.workers, w, Writing(p));
    hide Received;
  }

  lemma QueueStructure(s: State, w: nat)
    requires Structure(s) && w < |s.workers|
    requires s.workers[w].Triggering? || s.workers[w].Referring? || s.workers[w].Queueing?
    ensures Structure(DoContinue(s, w, WouldBlock))
  {
    hide Sends, Queueings;
    match s.workers[w]
    case Triggering =>
      QueueingsUpdate(s.workers, w, Rest);
      SendsAppend(s.pipe, TriggerWrite);
    case Referring(p) => QueueingsUpdate(s.workers, w, Queueing(p));
    case Queueing(p) =>
      QueueingsUpdate(s.workers, w, Rest);
      SendsAppend(s.pipe, Send(p));
    case _ =>
  }

  lemma QueueKeeps(s: State, w: nat)
    requires Inv(s) && w < |s.workers|
    requires s.workers[w].Triggering? || s.workers[w].Referring? || s.workers[w].Queueing?
    ensures Inv(DoContinue(s, w, WouldBlock))
  {
    QueueStructure(s, w);
    SendingKeeps(s.sock);
    hide Received, Alive, Structure;
  }

  lemma SendingKeeps(s: Sock)
    ensures Alive(s) ==> Alive(s.(sending := s.sending + 1))
  {
  }

  lemma DirectKeeps(s: Sock, p: Package, n: nat)
    requires n <= |p.bytes| && s.dw.None? && Received(s.log) == Between(s.done)
    ensures var t := DirectWrite(s, p, n);
            if n == |p.bytes| then t.dw.None? && Received(t.log) == Between(t.done)
            else t.dw.Some? && WellFormed(t.dw.value) && Tracks(Received(t.log), t.done, t.dw)
  {
    WriteTracked(s.log, s.done, WriteBuffer(p, 0), n);
  }

  lemma WriteStructure(s: State, w: nat, answer: Outcome)
    requires Structure(s) && w < |s.workers| && s.workers[w].Writing?
    ensures Structure(DoContinue(s, w, answer))
  {
    assert s.lock == Some(w);
    QueueingsUpdate(s.workers, w, Rest);
    QueueingsUpdate(s.workers, w, Triggering);
    hide Logged, Sends, Queueings;
  }

  lemma DirectAlive(s: Sock, p: Package, n: nat)
    requires n <= |p.bytes| && Alive(s) && s.dw.None? && Fresh(s.high) && Fresh(s.low)
    ensures Alive(DirectWrite(s, p, n))
  {
    FreshBetween(s);
    DirectTracks(s, p, n);
    DirectLists(s, p, n);
    hide Received, Logged, Unsent, ListsOk, Tracks, Current, Fresh;
  }

  lemma DirectTracks(s: Sock, p: Package, n: nat)
    requires n <= |p.bytes| && s.dw.None? && Fresh(s.high) && Received(s.log) == Between(s.done)
    ensures var t := DirectWrite(s, p, n); Tracks(Received(t.log), t.done, Current(t))
  {
    DirectKeeps(s, p, n);
    hide Received, Logged, WellFormed;
  }

  lemma DirectLists(s: Sock, p: Package, n: nat)
    requires n <= |p.bytes| && ListsOk(s) && s.dw.None? && Fresh(s.high)
    ensures ListsOk(DirectWrite(s, p, n))
  {
    hide Logged;
  }

  lemma FreshBetween(s: Sock)
    requires Alive(s) && s.dw.None? && Fresh(s.high)
    ensures Received(s.log) == Between(s.done)
  {
    hide Received, Unsent, WellFormed;
  }

  lemma DirectEnded(s: State, p: Package, n: nat)
    requires n <= |p.bytes| && s.sock.dw.None? && Received(s.sock.log) == Between(s.sock.done)
    ensures var t := DirectWrite(s.sock, p, n);
            && !Received(t.log).Torn? && DoneOf(Received(t.log)) == t.done && Begun(Received(t.log))
            && (t.dw.Some? ==> WellFormed(t.dw.value) && Tracks(Received(t.log), t.done, t.dw))
  {
    DirectKeeps(s.sock, p, n);
    hide Received, Logged;
  }

  lemma WriteWritten(s: State, w: nat, answer: Outcome)
    requires Inv(s) && w < |s.workers| && s.workers[w].Writing?
    ensures Written(DoContinue(s, w, answer))
  {
    var p := s.workers[w].pkg;
    var n := DirectCount(answer, p);
    assert s.lock == Some(w) && s.sock.dw.None? && !s.sock.kind.Invalid?;
    BetweenWhenLocked(s);
    if s.thread.Ready? {
      DirectAlive(s.sock, p, n);
    }
    DirectEnded(s, p, n);
    assert DirectWrite(s.sock, p, n).kind == s.sock.kind;
    hide Received, Structure, Alive, DirectWrite;
  }

  lemma WriteKeeps(s: State, w: nat, answer: Outcome)
    requires Inv(s) && w < |s.workers| && s.workers[w].Writing?
    ensures Inv(DoContinue(s, w, answer))
  {
    WriteStructure(s, w, answer);
    WriteWritten(s, w, answer);
    hide Structure, Written, DoContinue;
  }

  lemma BetweenWhenLocked(s: State)
    requires Inv(s) && s.lock.Some?
    ensures Received(s.sock.log) == Between(s.sock.done)
  {
  }

  lemma FinishForceKeeps(s: State)
    requires Inv(s)
    ensures Inv(Do(s, FinishForce))
  {
    hide Received;
  }

  lemma ContinueKeeps(s: State, w: nat, answer: Outcome)
    requires Inv(s) && !Gap(s, Continue(w, answer))
    ensures Inv(DoContinue(s, w, answer))
  {
    if w < |s.workers| && !s.workers[w].Rest? {
      match s.workers[w]
      case Checked(p) => CheckedKeeps(s, w);
      case Writing(p) => WriteKeeps(s, w, answer);
      case Triggering => QueueKeeps(s, w);
      case Referring(p) => QueueKeeps(s, w);
      case Queueing(p) => QueueKeeps(s, w);
    }
  }

  /** Every step but a direct write in the gap keeps the invariant. */
  lemma StepKeeps(s: State, a: Action)
    requires Inv(s) && !Gap(s, a)
    ensures Inv(Do(s, a))
  {
    match a {
      case Command => CommandKeeps(s);
      case PollWrite(io) => PollWriteKeeps(s, io);
      case PollRead(got) => if s.thread.Ready? && Polled(s.sock.kind) { NextKeeps(s, Forward(s.sock, got)); }
      case PollConnect(ok) => if s.thread.Ready? && s.sock.kind.Connecting? { NextKeeps(s, ReportConnect(s.sock, ok)); }
      case PollError =>
      case PollEnd => if s.thread.Ready? && Polled(s.sock.kind) { NextKeeps(s, EndOfStream(s.sock)); }
      case FinishForce => FinishForceKeeps(s);
      case SendNew(w, bytes, low) => SendNewKeeps(s, w, bytes, low);
      case Continue(w, answer) => ContinueKeeps(s, w, answer);
      case Request(c) => RequestKeeps(s, c);
    }
  }

  lemma RequestKeeps(s: State, c: Command)
    requires Inv(s)
    ensures Inv(Do(s, Request(c)))
  {
    SendsAppend(s.pipe, c);
  }

  // ---- Conservation and order -------------------------------------------------------------------------------------

  /** The package that a worker has in hand */
  function Hand(w: Worker): seq<Package> {
    match w
    case Checked(p) => [p]
    case Writing(p) => [p]
    case Referring(p) => [p]
    case Queueing(p) => [p]
    case _ => []
  }

  /** How often a package is in the hand of a worker */
  function InHands(p: Package, workers: seq<Worker>): nat {
    if workers == [] then 0 else InHands(p, workers[..|workers| - 1]) + Count(p, Hand(workers[|workers| - 1]))
  }

  lemma {:induction false} InHandsUpdate(p: Package, workers: seq<Worker>, w: nat, to: Worker)
    requires w < |workers|
    ensures InHands(p, workers[w := to]) == InHands(p, workers) - Count(p, Hand(workers[w])) + Count(p, Hand(to))
  {
    hide Hand, Count;
    var n := |workers| - 1;
    if w == n {
      assert workers[w := to][..n] == workers[..n];
    } else {
      assert workers[w := to][..n] == workers[..n][w := to];
      InHandsUpdate(p, workers[..n], w, to);
    }
  }

  /** A package was issued as often as it is written, under way, waiting, dropped, in the pipe, or in hand. */
  predicate Places(p: Package, s: State) {
    Count(p, s.issued) == Held(p, s.sock) + Count(p, Sends(s.pipe)) + InHands(p, s.workers)
  }

  ghost predicate Conserved(s: State) {
    forall p :: Places(p, s)
  }

  predicate Increasing(ns: seq<nat>) {
    forall i, j :: 0 <= i < j < |ns| ==> ns[i] < ns[j]
  }

  predicate Below(ns: seq<nat>, n: nat) {
    forall i :: 0 <= i < |ns| ==> ns[i] < n
  }

  /** The high-priority packages of worker `w`, from the first one written to the one in hand */
  function Line(s: State, w: nat): seq<nat>
    requires w < |s.workers|
  {
    Outgoing(w, s.sock) + Mine(w, Sends(s.pipe)) + Mine(w, Hand(s.workers[w]))
  }

  /** They stand in line in the order in which they were issued, and none that waits stands before one that is being
      written directly. */
  ghost predicate Ordered(s: State) {
    && |s.counts| == |s.workers|
    && (forall w :: 0 <= w < |s.workers| ==> Increasing(Line(s, w)) && Below(Line(s, w), s.counts[w]))
    && (forall w :: 0 <= w < |s.workers| ==> forall k :: 0 <= k < |Hand(s.workers[w])| ==>
          Hand(s.workers[w])[k].worker == w)
    && (forall w :: 0 <= w < |s.workers| && s.workers[w].Writing? ==>
          Mine(w, InHand(s.sock.dw)) == [] && Mine(w, Packages(s.sock.high)) == [] && Mine(w, Sends(s.pipe)) == [])
  }

  lemma DropMiddle(a: seq<nat>, b: seq<nat>, c: seq<nat>, n: nat)
    requires Increasing(a + b + c) && Below(a + b + c, n)
    ensures Increasing(a + c) && Below(a + c, n)
  {
    var all := a + b + c;
    forall i, j | 0 <= i < j < |a + c| ensures (a + c)[i] < (a + c)[j] {
      var i1 := if i < |a| then i else i + |b|;
      var j1 := if j < |a| then j else j + |b|;
      assert (a + c)[i] == all[i1] && (a + c)[j] == all[j1];
    }
    forall i | 0 <= i < |a + c| ensures (a + c)[i] < n {
      assert (a + c)[i] == all[if i < |a| then i else i + |b|];
    }
  }

  // ---- Conservation, step by step --------------------------------------------------------------------------------

  lemma DirectHeld(p: Package, s: Sock, q: Package, n: nat)
    requires n <= |q.bytes| && s.dw.None?
    ensures Held(p, DirectWrite(s, q, n)) == Held(p, s) + Count(p, [q])
  {
    CountOne(p, q);
    hide Count, Packages;
    CountAppend(p, s.done, [q]);
  }

  lemma AfterConserved(p: Package, s: State, n: Next)
    requires Places(p, s) && SameData(s.sock, n.sock)
    ensures Places(p, After(s, n))
  {
    hide Held;
    SameHeld(p, s.sock, n.sock);
    CloseHeld(p, n.sock);
  }

  lemma SendCommandConserved(p: Package, s: State, q: Package)
    requires Places(p, s) && s.pipe != [] && s.pipe[0] == Send(q)
    ensures Places(p, s.(pipe := s.pipe[1..], sock := SendSocket(s.sock, q)))
  {
    hide Held, SendSocket, Count;
    SendSocketHeld(s.sock, q, p);
    CountAppend(p, [q], Sends(s.pipe[1..]));
  }

  lemma PopConserved(p: Package, s: State)
    requires Places(p, s) && s.pipe != [] && !s.pipe[0].Send?
    ensures Places(p, s.(pipe := s.pipe[1..]))
  {
  }

  lemma SockConserved(p: Package, s: State, t: Sock)
    requires Places(p, s) && SameData(s.sock, t)
    ensures Places(p, s.(sock := t))
  {
    hide Held;
    SameHeld(p, s.sock, t);
  }

  /** The operations that open and close do not touch what is written or waiting. */
  lemma NextSame(s: Sock)
    ensures forall shutdown :: SameData(s, CloseSocket(s, shutdown).sock)
    ensures SameData(s, Resume(s).sock) && SameData(s, EndOfStream(s).sock)
    ensures forall got :: SameData(s, Forward(s, got).sock)
    ensures forall ok :: SameData(s, ReportConnect(s, ok).sock)
    ensures SameData(s, s.(writing := true))
  {
  }

  lemma CommandConserved(p: Package, s: State)
    requires Places(p, s)
    ensures Places(p, DoCommand(s))
  {
    if s.pipe != [] && s.thread.Ready? {
      if s.pipe[0].Send? {
        SendCommandConserved(p, s, s.pipe[0].pkg);
      } else {
        PopConserved(p, s);
        NextSame(s.sock);
        hide Places, After, SameData, CloseSocket, Resume, SendSocket;
        var t := s.(pipe := s.pipe[1..]);
        match s.pipe[0]
        case TriggerWrite => SockConserved(p, t, s.sock.(writing := true));
        case Close(shutdown) => AfterConserved(p, t, CloseSocket(s.sock, shutdown));
        case ResumeSocket => AfterConserved(p, t, Resume(s.sock));
        case _ =>
      }
    }
  }

  lemma PollWriteConserved(p: Package, s: State, io: seq<Outcome>)
    requires Inv(s) && Places(p, s)
    ensures Places(p, DoPollWrite(s, io))
  {
    if s.thread.Ready? && Polled(s.sock.kind) && s.lock.None? {
      SendBufferKeeps(s.sock, io);
    }
  }

  lemma SendNewConserved(p: Package, s: State, w: nat, bytes: seq<Byte>, low: bool)
    requires Places(p, s)
    ensures Places(p, DoSendNew(s, w, bytes, low))
  {
    if w < |s.workers| && w < |s.counts| && s.workers[w].Rest? {
      hide Held, Count, Sends;
      var q := Package(w, s.counts[w], low, bytes);
      CountAppend(p, s.issued, [q]);
      CountOne(p, q);
      RefuseHeld(s.sock, q, p);
      InHandsUpdate(p, s.workers, w, Referring(q));
      InHandsUpdate(p, s.workers, w, Checked(q));
    }
  }

  lemma WriteConserved(p: Package, s: State, w: nat, answer: Outcome)
    requires Places(p, s) && w < |s.workers| && s.workers[w].Writing? && s.sock.dw.None?
    ensures Places(p, DoContinue(s, w, answer))
  {
    hide Held, Count, Sends, DirectWrite;
    var q := s.workers[w].pkg;
    CountOne(p, q);
    DirectHeld(p, s.sock, q, DirectCount(answer, q));
    InHandsUpdate(p, s.workers, w, Rest);
    InHandsUpdate(p, s.workers, w, Triggering);
  }

  lemma QueueConserved(p: Package, s: State, w: nat)
    requires Places(p, s) && w < |s.workers| && (s.workers[w].Queueing? || s.workers[w].Triggering?)
    ensures Places(p, DoContinue(s, w, WouldBlock))
  {
    hide Held, Count, Sends;
    InHandsUpdate(p, s.workers, w, Rest);
    if s.workers[w].Queueing? {
      var q := s.workers[w].pkg;
      CountOne(p, q);
      SendsAppend(s.pipe, Send(q));
      CountAppend(p, Sends(s.pipe), [q]);
    } else {
      SendsAppend(s.pipe, TriggerWrite);
    }
  }

  lemma MoveOnConserved(p: Package, s: State, w: nat)
    requires Places(p, s) && w < |s.workers| && (s.workers[w].Checked? || s.workers[w].Referring?)
    ensures Places(p, DoContinue(s, w, WouldBlock))
  {
    hide Held, Count, Sends;
    InHandsUpdate(p, s.workers, w, DoContinue(s, w, WouldBlock).workers[w]);
    SameHeld(p, s.sock, s.sock.(sending := s.sock.sending + 1));
  }

  lemma ContinueConserved(p: Package, s: State, w: nat, answer: Outcome)
    requires Inv(s) && Places(p, s)
    ensures Places(p, DoContinue(s, w, answer))
  {
    if w < |s.workers| && !s.workers[w].Rest? {
      assert s.workers[w].Writing? ==> s.sock.dw.None?;
      hide Places, Inv;
      match s.workers[w]
      case Writing(_) => WriteConserved(p, s, w, answer);
      case Checked(_) => MoveOnConserved(p, s, w);
      case Referring(_) => MoveOnConserved(p, s, w);
      case _ => QueueConserved(p, s, w);
    }
  }

  lemma StepConserved(s: State, a: Action)
    requires Inv(s) && Conserved(s)
    ensures Conserved(Do(s, a))
  {
    hide Do, Places, Inv;
    forall p ensures Places(p, Do(s, a)) {
      StepPlaces(p, s, a);
    }
  }

  lemma StepPlaces(p: Package, s: State, a: Action)
    requires Inv(s) && Places(p, s)
    ensures Places(p, Do(s, a))
  {
    NextSame(s.sock);
    hide Places, Inv, DoCommand, DoPollWrite, DoSendNew, DoContinue, After, SameData, CloseSocket, Resume, Forward,
      ReportConnect, EndOfStream, CloseFd, FreeLists;
    match a {
      case Command => CommandConserved(p, s);
      case PollWrite(io) => PollWriteConserved(p, s, io);
      case PollRead(got) => if s.thread.Ready? && Polled(s.sock.kind) { AfterConserved(p, s, Forward(s.sock, got)); }
      case PollConnect(ok) =>
        if s.thread.Ready? && s.sock.kind.Connecting? { AfterConserved(p, s, ReportConnect(s.sock, ok)); }
      case PollError => SamePlaces(p, s, s.(events := s.events + [Failed]));
      case PollEnd => if s.thread.Ready? && Polled(s.sock.kind) { AfterConserved(p, s, EndOfStream(s.sock)); }
      case FinishForce => FinishConserved(p, s);
      case SendNew(w, bytes, low) => SendNewConserved(p, s, w, bytes, low);
      case Continue(w, answer) => ContinueConserved(p, s, w, answer);
      case Request(c) => RequestConserved(p, s, c);
    }
  }

  lemma SamePlaces(p: Package, s: State, t: State)
    requires Places(p, s) && t.sock == s.sock && t.issued == s.issued && t.workers == s.workers
    requires Sends(t.pipe) == Sends(s.pipe)
    ensures Places(p, t)
  {
  }

  lemma FinishConserved(p: Package, s: State)
    requires Places(p, s)
    ensures Places(p, Do(s, FinishForce))
  {
    hide Held;
    CloseHeld(p, s.sock);
  }

  lemma RequestConserved(p: Package, s: State, c: Command)
    requires Places(p, s)
    ensures Places(p, Do(s, Request(c)))
  {
    SendsAppend(s.pipe, c);
  }

  // ---- Order, step by step ----------------------------------------------------------------------------------------

  lemma LineDrops(a: seq<nat>, b: seq<nat>, c: seq<nat>, n: nat)
    requires a <= b && Increasing(b + c) && Below(b + c, n)
    ensures Increasing(a + c) && Below(a + c, n)
  {
    var m := b[|a|..];
    assert b == a + m;
    DropMiddle(a, m, c, n);
  }

  /** A step of the socket thread that leaves pipe and hands alone */
  lemma ThreadOrdered(s: State, t: State)
    requires Ordered(s) && t.pipe == s.pipe && t.workers == s.workers && t.counts == s.counts
    requires forall w :: Outgoing(w, t.sock) <= Outgoing(w, s.sock)
    requires forall w :: 0 <= w < |s.workers| && s.workers[w].Writing? ==>
               Mine(w, InHand(t.sock.dw)) == [] && Mine(w, Packages(t.sock.high)) == []
    ensures Ordered(t)
  {
    hide Outgoing, Mine, Packages, Sends, Hand;
    forall w | 0 <= w < |t.workers| ensures Increasing(Line(t, w)) && Below(Line(t, w), t.counts[w]) {
      var rest := Mine(w, Sends(s.pipe)) + Mine(w, Hand(s.workers[w]));
      assert Line(s, w) == Outgoing(w, s.sock) + rest && Line(t, w) == Outgoing(w, t.sock) + rest;
      LineDrops(Outgoing(w, t.sock), Outgoing(w, s.sock), rest, s.counts[w]);
    }
  }

  lemma CloseOutgoing(s: Sock, w: nat)
    ensures Outgoing(w, FreeLists(s)) <= Outgoing(w, s)
    ensures s.high == [] ==> Outgoing(w, CloseFd(s)) <= Outgoing(w, s)
  {
  }

  lemma AfterOrdered(s: State, n: Next)
    requires Ordered(s) && SameData(s.sock, n.sock)
    ensures Ordered(After(s, n))
  {
    forall w ensures Outgoing(w, After(s, n).sock) <= Outgoing(w, s.sock) {
      CloseOutgoing(n.sock, w);
    }
    ThreadOrdered(s, After(s, n));
  }

  lemma PollWriteOrdered(s: State, io: seq<Outcome>)
    requires Inv(s) && Ordered(s)
    ensures Ordered(DoPollWrite(s, io))
  {
    if s.thread.Ready? && Polled(s.sock.kind) && s.lock.None? {
      SendBufferKeeps(s.sock, io);
      ThreadOrdered(s, DoPollWrite(s, io));
    }
  }

  lemma FinishOrdered(s: State)
    requires Inv(s) && Ordered(s)
    ensures Ordered(Do(s, FinishForce))
  {
    if s.thread.Forcing? && s.lock.None? {
      forall w ensures Outgoing(w, CloseFd(s.sock)) <= Outgoing(w, s.sock) {
        CloseOutgoing(s.sock, w);
      }
      ThreadOrdered(s, Do(s, FinishForce));
    }
  }

  /** A package goes from the pipe to the socket, where it stands last, or it is refused. */
  lemma SendCommandOrdered(s: State, q: Package)
    requires Ordered(s) && s.pipe != [] && s.pipe[0] == Send(q)
    ensures Ordered(s.(pipe := s.pipe[1..], sock := SendSocket(s.sock, q)))
  {
    var t := s.(pipe := s.pipe[1..], sock := SendSocket(s.sock, q));
    forall w | 0 <= w < |t.workers| ensures Increasing(Line(t, w)) && Below(Line(t, w), t.counts[w]) {
      SendSocketOutgoing(s.sock, q, w);
      hide Outgoing, Hand, SendSocket;
      var rest := Sends(s.pipe[1..]);
      MineAppend(w, [q], rest);
      assert Sends(s.pipe) == [q] + rest;
      hide Mine, Sends;
      var a, b, c := Outgoing(w, s.sock), Mine(w, [q]), Mine(w, rest) + Mine(w, Hand(s.workers[w]));
      assert Line(s, w) == a + b + c;
      if Refuses(s.sock) {
        DropMiddle(a, b, c, s.counts[w]);
        assert Line(t, w) == a + c;
      } else {
        assert Line(t, w) == a + b + c;
      }
    }
    forall w | 0 <= w < |t.workers| && t.workers[w].Writing?
      ensures Mine(w, InHand(t.sock.dw)) == [] && Mine(w, Packages(t.sock.high)) == [] && Mine(w, Sends(t.pipe)) == []
    {
      WritingWaits(s, q, w);
    }
  }

  /** A package of another worker does not come before the one that is being written. */
  lemma WritingWaits(s: State, q: Package, w: nat)
    requires s.pipe != [] && s.pipe[0] == Send(q)
    requires Mine(w, InHand(s.sock.dw)) == [] && Mine(w, Packages(s.sock.high)) == [] && Mine(w, Sends(s.pipe)) == []
    ensures var t := SendSocket(s.sock, q);
            Mine(w, InHand(t.dw)) == [] && Mine(w, Packages(t.high)) == [] && Mine(w, Sends(s.pipe[1..])) == []
  {
    MineAppend(w, [q], Sends(s.pipe[1..]));
    assert Sends(s.pipe) == [q] + Sends(s.pipe[1..]);
    ListAppend(s.sock.high, q);
    MineAppend(w, Packages(s.sock.high), [q]);
  }

  lemma PipeOrdered(s: State, t: State)
    requires Ordered(s) && t.sock == s.sock && t.workers == s.workers && t.counts == s.counts
    requires Sends(t.pipe) == Sends(s.pipe)
    ensures Ordered(t)
  {
    assert forall w :: 0 <= w < |s.workers| ==> Line(t, w) == Line(s, w);
  }

  lemma CommandOrdered(s: State)
    requires Inv(s) && Ordered(s)
    ensures Ordered(DoCommand(s))
  {
    if s.pipe != [] && s.thread.Ready? {
      if s.pipe[0].Send? {
        SendCommandOrdered(s, s.pipe[0].pkg);
      } else {
        NextSame(s.sock);
        var t := s.(pipe := s.pipe[1..]);
        PipeOrdered(s, t);
        hide Ordered, Inv, After, SameData, CloseSocket, Resume, SendSocket;
        match s.pipe[0]
        case TriggerWrite => WritingFlagOrdered(t);
        case Close(shutdown) => AfterOrdered(t, CloseSocket(s.sock, shutdown));
        case ResumeSocket => AfterOrdered(t, Resume(s.sock));
        case _ =>
      }
    }
  }

  lemma WritingFlagOrdered(s: State)
    requires Ordered(s)
    ensures Ordered(s.(sock := s.sock.(writing := true)))
  {
    var t := s.(sock := s.sock.(writing := true));
    assert forall w :: 0 <= w < |s.workers| ==> Line(t, w) == Line(s, w);
  }

  lemma IncreasingSnoc(a: seq<nat>, n: nat)
    requires Increasing(a) && Below(a, n)
    ensures Increasing(a + [n]) && Below(a + [n], n + 1)
  {
  }

  lemma MineOne(w: nat, p: Package)
    ensures Mine(w, [p]) == (if p.worker == w && !p.low then [p.no] else []) && Mine(w, []) == []
  {
  }

  /** The hand of one worker changes. */
  lemma HandOrdered(s: State, t: State, w: nat)
    requires Ordered(s) && w < |s.workers| == |t.workers| && |t.counts| == |s.counts|
    requires t.workers == s.workers[w := t.workers[w]] && t.pipe == s.pipe && (forall v :: Outgoing(v, t.sock) == Outgoing(v, s.sock))
    requires forall v :: 0 <= v < |s.counts| && v != w ==> t.counts[v] == s.counts[v]
    requires Increasing(Line(t, w)) && Below(Line(t, w), t.counts[w])
    requires forall k :: 0 <= k < |Hand(t.workers[w])| ==> Hand(t.workers[w])[k].worker == w
    requires t.sock.dw == s.sock.dw && t.sock.high == s.sock.high
    requires t.workers[w].Writing? ==>
               Mine(w, InHand(t.sock.dw)) == [] && Mine(w, Packages(t.sock.high)) == [] && Mine(w, Sends(t.pipe)) == []
    ensures Ordered(t)
  {
    hide Outgoing, Mine, Sends, Packages;
    forall v | 0 <= v < |t.workers| ensures Increasing(Line(t, v)) && Below(Line(t, v), t.counts[v]) {
      if v != w {
        assert t.workers[v] == s.workers[v];
        assert Line(t, v) == Line(s, v);
      }
    }
  }

  lemma SameOutgoing(w: nat, s: Sock, t: Sock)
    requires t.done == s.done && t.dw == s.dw && t.high == s.high
    ensures Outgoing(w, t) == Outgoing(w, s)
  {
  }

  lemma SendNewLine(s: State, w: nat, bytes: seq<Byte>, low: bool)
    requires w < |s.workers| == |s.counts| && s.workers[w].Rest? && Increasing(Line(s, w)) && Below(Line(s, w), s.counts[w])
    ensures var t := DoSendNew(s, w, bytes, low); Increasing(Line(t, w)) && Below(Line(t, w), t.counts[w])
  {
    var t := DoSendNew(s, w, bytes, low);
    SameOutgoing(w, s.sock, t.sock);
    MineOne(w, Package(w, s.counts[w], low, bytes));
    hide Outgoing, Sends, Mine;
    var a := Outgoing(w, s.sock) + Mine(w, Sends(s.pipe));
    assert Line(s, w) == a + [];
    assert Line(t, w) == a + [] || Line(t, w) == a + [s.counts[w]];
    LineGrows(a, s.counts[w]);
  }

  lemma LineGrows(a: seq<nat>, n: nat)
    requires Increasing(a + []) && Below(a + [], n)
    ensures Increasing(a + [n]) && Below(a + [n], n + 1) && Below(a + [], n + 1)
  {
    assert a + [] == a;
    IncreasingSnoc(a, n);
  }

  lemma SendNewOrdered(s: State, w: nat, bytes: seq<Byte>, low: bool)
    requires Ordered(s)
    ensures Ordered(DoSendNew(s, w, bytes, low))
  {
    if w < |s.workers| && s.workers[w].Rest? {
      SendNewLine(s, w, bytes, low);
      var t := DoSendNew(s, w, bytes, low);
      forall v ensures Outgoing(v, t.sock) == Outgoing(v, s.sock) {
        SameOutgoing(v, s.sock, t.sock);
      }
      hide Outgoing, Sends, Mine, Packages, Line;
      HandOrdered(s, t, w);
    }
  }

  /** A worker goes on with the package that it has in hand. */
  lemma MoveOnOrdered(s: State, w: nat)
    requires Inv(s) && Ordered(s) && w < |s.workers| && (s.workers[w].Checked? || s.workers[w].Referring?)
    ensures Ordered(DoContinue(s, w, WouldBlock))
  {
    var t := DoContinue(s, w, WouldBlock);
    hide Written;
    if t.workers[w].Writing? {
      NothingBefore(s, w);
    }
    hide Inv, Structure, NoMoreData, Mine, Sends, Packages;
    forall v ensures Outgoing(v, t.sock) == Outgoing(v, s.sock) {
      SameOutgoing(v, s.sock, t.sock);
    }
    assert Line(t, w) == Line(s, w);
    HandOrdered(s, t, w);
  }

  /** When a direct write is allowed, nothing that was issued before is still on its way. */
  lemma NothingBefore(s: State, w: nat)
    requires Structure(s) && CanDirect(s.sock)
    ensures Mine(w, InHand(s.sock.dw)) == [] && Mine(w, Packages(s.sock.high)) == [] && Mine(w, Sends(s.pipe)) == []
  {
    assert s.sock.sending == 0;
    assert |Sends(s.pipe)| == 0;
    MineOne(w, Package(0, 0, false, []));
  }

  lemma QueueLine(s: State, w: nat, v: nat)
    requires Ordered(s) && w < |s.workers| && s.workers[w].Queueing? && v < |s.workers|
    ensures var t := DoContinue(s, w, WouldBlock);
            && Line(t, v) == Line(s, v) && |t.workers| == |s.workers|
            && (t.workers[v].Writing? ==> Mine(v, Sends(t.pipe)) == [])
  {
    var t := DoContinue(s, w, WouldBlock);
    var q := s.workers[w].pkg;
    assert Hand(s.workers[w]) == [q] && Hand(s.workers[w])[0].worker == w;
    assert s.workers[v].Writing? ==> Mine(v, Sends(s.pipe)) == [];
    hide Ordered;
    SendsAppend(s.pipe, Send(q));
    MineAppend(v, Sends(s.pipe), [q]);
    MineOne(v, q);
    hide Outgoing, Sends, Mine;
    var pipe := Mine(v, Sends(s.pipe));
    assert pipe + [] == pipe;
  }

  lemma QueueOrdered(s: State, w: nat)
    requires Ordered(s) && w < |s.workers| && (s.workers[w].Queueing? || s.workers[w].Triggering?)
    ensures Ordered(DoContinue(s, w, WouldBlock))
  {
    var t := DoContinue(s, w, WouldBlock);
    if s.workers[w].Queueing? {
      forall v | 0 <= v < |t.workers|
        ensures Increasing(Line(t, v)) && Below(Line(t, v), t.counts[v])
        ensures t.workers[v].Writing? ==> Mine(v, Sends(t.pipe)) == []
      {
        QueueLine(s, w, v);
      }
    } else {
      SendsAppend(s.pipe, TriggerWrite);
      assert Line(t, w) == Line(s, w);
      HandOrdered(s.(pipe := t.pipe), t, w) by {
        PipeOrdered(s, s.(pipe := t.pipe));
        assert Line(s.(pipe := t.pipe), w) == Line(s, w);
      }
    }
  }

  lemma DirectOutgoing(s: Sock, q: Package, n: nat, w: nat)
    requires n <= |q.bytes| && s.dw.None?
    ensures Outgoing(w, DirectWrite(s, q, n)) == Mine(w, s.done) + Mine(w, [q]) + Mine(w, Packages(s.high))
    ensures Outgoing(w, s) == Mine(w, s.done) + Mine(w, Packages(s.high))
  {
    MineAppend(w, s.done, [q]);
    MineOne(w, q);
    assert Mine(w, s.done) + [] == Mine(w, s.done);
    assert Mine(w, s.done) + Mine(w, [q]) + [] == Mine(w, s.done) + Mine(w, [q]);
  }

  lemma WriteLine(s: State, w: nat, answer: Outcome, v: nat)
    requires Ordered(s) && w < |s.workers| && s.workers[w].Writing? && v < |s.workers| && s.sock.dw.None?
    ensures var t := DoContinue(s, w, answer); |t.workers| == |s.workers| && Line(t, v) == Line(s, v)
  {
    var t := DoContinue(s, w, answer);
    var q := s.workers[w].pkg;
    assert Hand(s.workers[w]) == [q] && Hand(s.workers[w])[0].worker == w;
    DirectOutgoing(s.sock, q, DirectCount(answer, q), v);
    MineOne(v, q);
    hide Outgoing, Sends, Mine, Packages, DirectWrite;
    var done, high, pipe := Mine(v, s.sock.done), Mine(v, Packages(s.sock.high)), Mine(v, Sends(s.pipe));
    if v == w {
      assert high == [] && pipe == [];
      assert Line(s, v) == done + [] + [] + Mine(v, [q]);
      assert Line(t, v) == done + Mine(v, [q]) + [] + [] + [];
    } else {
      assert done + [] + high == done + high;
    }
  }

  lemma WriteOrdered(s: State, w: nat, answer: Outcome)
    requires Inv(s) && Ordered(s) && w < |s.workers| && s.workers[w].Writing?
    ensures Ordered(DoContinue(s, w, answer))
  {
    var t := DoContinue(s, w, answer);
    assert s.lock == Some(w) && s.sock.dw.None?;
    assert forall v :: 0 <= v < |t.workers| ==> !t.workers[v].Writing?;
    forall v | 0 <= v < |t.workers| ensures Increasing(Line(t, v)) && Below(Line(t, v), t.counts[v]) {
      WriteLine(s, w, answer, v);
    }
  }

  lemma ContinueOrdered(s: State, w: nat, answer: Outcome)
    requires Inv(s) && Ordered(s)
    ensures Ordered(DoContinue(s, w, answer))
  {
    if w < |s.workers| && !s.workers[w].Rest? {
      hide Ordered, Inv;
      match s.workers[w]
      case Writing(_) => WriteOrdered(s, w, answer);
      case Checked(_) => MoveOnOrdered(s, w);
      case Referring(_) => MoveOnOrdered(s, w);
      case _ => QueueOrdered(s, w);
    }
  }

  lemma StepOrdered(s: State, a: Action)
    requires Inv(s) && Ordered(s)
    ensures Ordered(Do(s, a))
  {
    NextSame(s.sock);
    hide Ordered, Inv, DoCommand, DoPollWrite, DoSendNew, DoContinue, After, SameData, CloseSocket, Resume, Forward,
      ReportConnect, EndOfStream, CloseFd, FreeLists;
    match a {
      case Command => CommandOrdered(s);
      case PollWrite(io) => PollWriteOrdered(s, io);
      case PollRead(got) => if s.thread.Ready? && Polled(s.sock.kind) { AfterOrdered(s, Forward(s.sock, got)); }
      case PollConnect(ok) =>
        if s.thread.Ready? && s.sock.kind.Connecting? { AfterOrdered(s, ReportConnect(s.sock, ok)); }
      case PollError => PipeOrdered(s, s.(events := s.events + [Failed]));
      case PollEnd => if s.thread.Ready? && Polled(s.sock.kind) { AfterOrdered(s, EndOfStream(s.sock)); }
      case FinishForce => FinishOrdered(s);
      case SendNew(w, bytes, low) => SendNewOrdered(s, w, bytes, low);
      case Continue(w, answer) => ContinueOrdered(s, w, answer);
      case Request(c) => RequestOrdered(s, c);
    }
  }

  lemma RequestOrdered(s: State, c: Command)
    requires Ordered(s)
    ensures Ordered(Do(s, Request(c)))
  {
    SendsAppend(s.pipe, c);
    if !c.Send? {
      PipeOrdered(s, s.(pipe := s.pipe + [c]));
    }
  }

  // ---- Closing ----------------------------------------------------------------------------------------------------

  function Closes(events: seq<Event>): nat {
    if events == [] then 0 else Closes(events[..|events| - 1]) + if events[|events| - 1].Closed? then 1 else 0
  }

  lemma ClosesSnoc(events: seq<Event>, e: Event)
    ensures Closes(events + [e]) == Closes(events) + if e.Closed? then 1 else 0
  {
    assert (events + [e])[..|events|] == events;
  }

  /** Closes raised, and the one that will be raised when the descriptor is closed */
  function AllCloses(s: State): nat {
    Closes(s.events) + if s.thread == Forcing(Some(Closed)) then 1 else 0
  }

  /** The read side is closed for good, or going to be. */
  predicate ReadClosed(s: State) {
    s.sock.kind.HalfCloseRead? || s.sock.kind.Invalid? || s.thread.Forcing?
  }

  predicate ClosedOnce(s: State) {
    && AllCloses(s) <= 1 && (AllCloses(s) == 1 || s.sock.closing ==> ReadClosed(s))
    && (s.thread == Forcing(Some(Closed)) ==> !s.sock.kind.HalfCloseRead?)
    && (s.thread.Forcing? ==> !s.sock.kind.Invalid?)
  }

  lemma AfterClosed(s: State, n: Next)
    requires ClosedOnce(s) && s.thread.Ready?
    requires n.Done? && n.event != Some(Closed) ==>
               (n.sock.kind == s.sock.kind || !ReadClosed(s)) && (n.sock.closing ==> s.sock.closing || n.sock.kind.HalfCloseRead?)
    requires n.Done? && n.event == Some(Closed) ==> n.sock.kind.HalfCloseRead? && !ReadClosed(s)
    requires n.Force? ==> n.sock.kind == s.sock.kind && !s.sock.kind.Invalid?
    requires n.Force? && n.event == Some(Closed) ==> !s.sock.kind.HalfCloseRead?
    ensures ClosedOnce(After(s, n))
  {
    if n.event.Some? {
      ClosesSnoc(s.events, n.event.value);
    }
  }

  lemma FinishClosedOnce(s: State)
    requires ClosedOnce(s)
    ensures ClosedOnce(Do(s, FinishForce))
  {
    if s.thread.Forcing? && s.thread.event.Some? {
      ClosesSnoc(s.events, s.thread.event.value);
    }
  }

  /** Steps that leave the kind, and report no close */
  lemma OtherClosedOnce(s: State, t: State)
    requires ClosedOnce(s) && t.sock.kind == s.sock.kind && t.sock.closing == s.sock.closing && t.thread == s.thread
    requires t.events == s.events || t.events == s.events + [Failed]
    ensures ClosedOnce(t)
  {
    ClosesSnoc(s.events, Failed);
  }

  lemma StepClosedOnce(s: State, a: Action)
    requires ClosedOnce(s)
    ensures ClosedOnce(Do(s, a))
  {
    match a {
      case Command => CommandClosedOnce(s);
      case PollWrite(io) => PollWriteClosedOnce(s, io);
      case PollRead(got) => if s.thread.Ready? && Polled(s.sock.kind) { AfterClosed(s, Forward(s.sock, got)); }
      case PollConnect(ok) => if s.thread.Ready? && s.sock.kind.Connecting? { AfterClosed(s, ReportConnect(s.sock, ok)); }
      case PollError => OtherClosedOnce(s, Do(s, a));
      case PollEnd => if s.thread.Ready? && Polled(s.sock.kind) { AfterClosed(s, EndOfStream(s.sock)); }
      case FinishForce => FinishClosedOnce(s);
      case SendNew(w, bytes, low) => OtherClosedOnce(s, Do(s, a));
      case Continue(w, answer) =>
        ContinueKind(s, w, answer);
        OtherClosedOnce(s, Do(s, a));
      case Request(c) => OtherClosedOnce(s, Do(s, a));
    }
  }

  lemma CommandClosedOnce(s: State)
    requires ClosedOnce(s)
    ensures ClosedOnce(DoCommand(s))
  {
    if s.pipe != [] && s.thread.Ready? {
      var t := s.(pipe := s.pipe[1..]);
      match s.pipe[0]
      case Send(p) =>
      case TriggerWrite =>
      case Close(shutdown) => AfterClosed(t, CloseSocket(s.sock, shutdown));
      case ResumeSocket => AfterClosed(t, Resume(s.sock));
    }
  }

  lemma PollWriteClosedOnce(s: State, io: seq<Outcome>)
    requires ClosedOnce(s)
    ensures ClosedOnce(DoPollWrite(s, io))
  {
    SendBufferKind(s.sock, io);
    var r := SendBuffer(s.sock, io);
    if r.event.Some? {
      ClosesSnoc(s.events, r.event.value);
    }
    hide SendBuffer;
  }

  /** Whatever happens, the close of a socket is reported at most once. */
  lemma {:induction false} ReportedOnce(k: Kind, workers: nat, actions: seq<Action>)
    requires Opening(k)
    ensures ClosedOnce(Run(k, workers, actions)) && Closes(Run(k, workers, actions).events) <= 1
  {
    if actions != [] {
      ReportedOnce(k, workers, actions[..|actions| - 1]);
      StepClosedOnce(Run(k, workers, actions[..|actions| - 1]), actions[|actions| - 1]);
    }
  }

  /** A close is reported only when the socket goes to a kind in which its read side is closed, from one in which it
      was not; and from there it does not come back. */
  predicate Leaves(s: State, t: State) {
    && (Closes(t.events) > Closes(s.events) ==>
          !s.sock.kind.HalfCloseRead? && !s.sock.kind.Invalid? && (t.sock.kind.HalfCloseRead? || t.sock.kind.Invalid?))
    && (s.sock.kind.HalfCloseRead? ==> t.sock.kind in {HalfCloseRead, Invalid})
    && (s.sock.kind.Invalid? ==> t.sock.kind.Invalid?)
  }

  lemma AfterLeaves(s: State, n: Next)
    requires s.thread.Ready?
    requires s.sock.kind.HalfCloseRead? || s.sock.kind.Invalid? ==> n.sock.kind == s.sock.kind && (n.Done? ==> n.event != Some(Closed))
    requires n.Done? && n.event == Some(Closed) ==> n.sock.kind.HalfCloseRead?
    ensures Leaves(s, After(s, n))
  {
    if n.event.Some? {
      ClosesSnoc(s.events, n.event.value);
    }
  }

  lemma CommandLeaves(s: State)
    ensures Leaves(s, DoCommand(s))
  {
    if s.pipe != [] && s.thread.Ready? {
      var t := s.(pipe := s.pipe[1..]);
      match s.pipe[0]
      case Close(shutdown) => AfterLeaves(t, CloseSocket(s.sock, shutdown));
      case ResumeSocket => AfterLeaves(t, Resume(s.sock));
      case _ =>
    }
  }

  lemma PollWriteLeaves(s: State, io: seq<Outcome>)
    ensures Leaves(s, DoPollWrite(s, io))
  {
    SendBufferKind(s.sock, io);
    var r := SendBuffer(s.sock, io);
    if r.event.Some? {
      ClosesSnoc(s.events, r.event.value);
    }
    hide SendBuffer;
  }

  lemma OtherLeaves(s: State, t: State)
    requires t.sock.kind == s.sock.kind && (t.events == s.events || t.events == s.events + [Failed])
    ensures Leaves(s, t)
  {
    ClosesSnoc(s.events, Failed);
  }

  lemma FinishLeaves(s: State)
    requires ClosedOnce(s)
    ensures Leaves(s, Do(s, FinishForce))
  {
    hide InHand;
    if s.thread.Forcing? && s.thread.event.Some? {
      ClosesSnoc(s.events, s.thread.event.value);
    }
  }

  lemma ContinueKind(s: State, w: nat, answer: Outcome)
    ensures var t := DoContinue(s, w, answer);
            t.sock.kind == s.sock.kind && t.sock.closing == s.sock.closing && t.thread == s.thread && t.events == s.events
  {
  }

  lemma ReportLeaves(s: State, a: Action)
    requires ClosedOnce(s)
    ensures Leaves(s, Do(s, a))
  {
    hide Leaves, After, DoCommand, DoPollWrite, DoContinue, ClosedOnce;
    match a {
      case Command => CommandLeaves(s);
      case PollWrite(io) => PollWriteLeaves(s, io);
      case PollRead(got) =>
        if s.thread.Ready? && Polled(s.sock.kind) { AfterLeaves(s, Forward(s.sock, got)); } else { OtherLeaves(s, s); }
      case PollConnect(ok) =>
        if s.thread.Ready? && s.sock.kind.Connecting? { AfterLeaves(s, ReportConnect(s.sock, ok)); } else { OtherLeaves(s, s); }
      case PollError => OtherLeaves(s, Do(s, a));
      case PollEnd =>
        if s.thread.Ready? && Polled(s.sock.kind) { AfterLeaves(s, EndOfStream(s.sock)); } else { OtherLeaves(s, s); }
      case FinishForce => FinishLeaves(s);
      case SendNew(_, _, _) => OtherLeaves(s, Do(s, a));
      case Continue(w, answer) =>
        ContinueKind(s, w, answer);
        OtherLeaves(s, Do(s, a));
      case Request(_) => OtherLeaves(s, Do(s, a));
    }
  }

  // ---- Nothing is stuck -------------------------------------------------------------------------------------------

  /** The write event is going to be enabled by a request that is on its way. */
  predicate TriggerPending(s: State) {
    (exists k :: 0 <= k < |s.pipe| && s.pipe[k].TriggerWrite?) || (exists w :: 0 <= w < |s.workers| && s.workers[w].Triggering?)
  }

  /** What waits to be written is going to be: the poll reports when the socket can be written, or will do so. */
  predicate Armed(s: State) {
    s.thread.Ready? && !s.sock.kind.Invalid? && !s.sock.kind.HalfCloseWrite? && Waiting(s.sock) ==>
      s.sock.writing || TriggerPending(s)
  }

  lemma SamePending(s: State, t: State)
    requires TriggerPending(s)
    requires s.pipe <= t.pipe || (s.pipe != [] && !s.pipe[0].TriggerWrite? && t.pipe == s.pipe[1..])
    requires forall w :: 0 <= w < |s.workers| && s.workers[w].Triggering? ==> w < |t.workers| && t.workers[w].Triggering?
    ensures TriggerPending(t)
  {
    if k :| 0 <= k < |s.pipe| && s.pipe[k].TriggerWrite? {
      assert if s.pipe <= t.pipe then t.pipe[k] == s.pipe[k] else t.pipe[k - 1] == s.pipe[k];
    }
  }

  lemma CommandArmed(s: State)
    requires Inv(s) && Armed(s)
    ensures Armed(DoCommand(s))
  {
    hide TriggerPending;
    if s.pipe != [] && s.thread.Ready? {
      var t := DoCommand(s);
      if TriggerPending(s) && !s.pipe[0].TriggerWrite? {
        SamePending(s, t);
      }
      if s.pipe[0].Send? && !s.sock.kind.Invalid? {
        SendSocketKeeps(s.sock, s.pipe[0].pkg);
      }
    }
  }

  lemma PollWriteArmed(s: State, io: seq<Outcome>)
    requires Inv(s) && Armed(s)
    ensures Armed(DoPollWrite(s, io))
  {
    var t := DoPollWrite(s, io);
    if s.thread.Ready? && Polled(s.sock.kind) && s.lock.None? {
      SendBufferKeeps(s.sock, io);
      if !Waiting(s.sock) {
        NothingToSend(s.sock, io);
      }
      if TriggerPending(s) {
        SamePending(s, t);
      }
    }
  }

  lemma ContinueArmed(s: State, w: nat, answer: Outcome)
    requires Inv(s) && Armed(s)
    ensures Armed(DoContinue(s, w, answer))
  {
    var t := DoContinue(s, w, answer);
    if w < |s.workers| {
      assert s.workers[w].Writing? ==> s.sock.dw.None?;
      hide Inv, Logged;
      if s.workers[w].Triggering? {
        assert t.pipe[|s.pipe|].TriggerWrite?;
      } else if TriggerPending(s) {
        SamePending(s, t);
      }
      if t.workers[w].Triggering? {
        assert TriggerPending(t);
      }
    }
  }

  lemma StepArmed(s: State, a: Action)
    requires Inv(s) && Armed(s)
    ensures Armed(Do(s, a))
  {
    match a {
      case Command => CommandArmed(s);
      case PollWrite(io) => PollWriteArmed(s, io);
      case Continue(w, answer) => ContinueArmed(s, w, answer);
      case _ => OtherArmed(s, a);
    }
  }

  lemma OtherArmed(s: State, a: Action)
    requires Inv(s) && Armed(s) && !a.Command? && !a.PollWrite? && !a.Continue?
    ensures Armed(Do(s, a))
  {
    hide Inv, Logged;
    if TriggerPending(s) {
      SamePending(s, Do(s, a));
    }
  }

  // ---- Whole runs -------------------------------------------------------------------------------------------------

  /** No direct write begins in the gap. */
  predicate GapFree(k: Kind, workers: nat, actions: seq<Action>) {
    actions == [] ||
    var init := actions[..|actions| - 1];
    GapFree(k, workers, init) && !Gap(Run(k, workers, init), actions[|actions| - 1])
  }

  ghost predicate Safe(s: State) {
    Inv(s) && Conserved(s) && Ordered(s) && Armed(s)
  }

  lemma StartSafe(k: Kind, workers: nat)
    requires Opening(k)
    ensures Safe(Start(k, workers))
  {
    StartInv(k, workers);
    StartConserved(k, workers);
    StartOrdered(k, workers);
    hide Inv, Conserved, Ordered;
  }

  lemma StartInv(k: Kind, workers: nat)
    requires Opening(k)
    ensures Inv(Start(k, workers))
  {
    NoQueueings(Start(k, workers).workers);
  }

  lemma StartOrdered(k: Kind, workers: nat)
    ensures Ordered(Start(k, workers))
  {
  }

  lemma StartConserved(k: Kind, workers: nat)
    ensures Conserved(Start(k, workers))
  {
    var s := Start(k, workers);
    forall p ensures Places(p, s) {
      NoHands(p, s.workers);
      CountOne(p, Package(0, 0, false, []));
    }
  }

  lemma {:induction false} NoQueueings(workers: seq<Worker>)
    requires forall w :: 0 <= w < |workers| ==> workers[w].Rest?
    ensures Queueings(workers) == 0
  {
    if workers != [] {
      NoQueueings(workers[..|workers| - 1]);
    }
  }

  lemma {:induction false} NoHands(p: Package, workers: seq<Worker>)
    requires forall w :: 0 <= w < |workers| ==> workers[w].Rest?
    ensures InHands(p, workers) == 0
  {
    if workers != [] {
      NoHands(p, workers[..|workers| - 1]);
    }
  }

  lemma {:induction false} RunSafe(k: Kind, workers: nat, actions: seq<Action>)
    requires Opening(k) && GapFree(k, workers, actions)
    ensures Safe(Run(k, workers, actions))
  {
    hide Inv, Conserved, Ordered, Armed, Do, Gap;
    if actions == [] {
      StartSafe(k, workers);
    } else {
      var s, a := Run(k, workers, actions[..|actions| - 1]), actions[|actions| - 1];
      RunSafe(k, workers, actions[..|actions| - 1]);
      StepKeeps(s, a);
      StepConserved(s, a);
      StepOrdered(s, a);
      StepArmed(s, a);
    }
  }

  /** What is on the descriptor: whole packages, in the order in which they were completed, and the beginning of at
      most one more. While the socket is open that one is left by a direct write, or stands at the head of the high
      list, and what is counted as waiting is what the lists hold. */
  lemma WireIsWhole(k: Kind, workers: nat, actions: seq<Action>)
    requires Opening(k) && GapFree(k, workers, actions)
    ensures var s := Run(k, workers, actions).sock;
            && Shape(Received(s.log), Wire(s.log)) && !Received(s.log).Torn? && DoneOf(Received(s.log)) == s.done
            && (Run(k, workers, actions).thread.Ready? && !s.kind.Invalid? ==>
                  && s.wbSize == Unsent(s.high) + Unsent(s.low)
                  && Wire(s.log) == match Current(s) case None => Flat(s.done)
                                                 case Some(wb) => Flat(s.done) + wb.pkg.bytes[..Min(wb.sent, |wb.pkg.bytes|)])
  {
    RunSafe(k, workers, actions);
    hide Run, Inv, Conserved, Ordered, Armed;
    WireOf(Run(k, workers, actions));
  }

  lemma WireOf(s: State)
    requires Inv(s)
    ensures Shape(Received(s.sock.log), Wire(s.sock.log)) && !Received(s.sock.log).Torn?
    ensures DoneOf(Received(s.sock.log)) == s.sock.done
    ensures s.thread.Ready? && !s.sock.kind.Invalid? ==>
              && s.sock.wbSize == Unsent(s.sock.high) + Unsent(s.sock.low)
              && Wire(s.sock.log) == match Current(s.sock)
                                     case None => Flat(s.sock.done)
                                     case Some(wb) => Flat(s.sock.done) + wb.pkg.bytes[..Min(wb.sent, |wb.pkg.bytes|)]
  {
    WireShape(s.sock.log);
    hide Received, Wire, Flat, Unsent, Structure;
    if s.thread.Ready? && !s.sock.kind.Invalid? && Current(s.sock).Some? {
      var wb := Current(s.sock).value;
      assert wb.sent == 0 ==> wb.pkg.bytes[..Min(wb.sent, |wb.pkg.bytes|)] == [];
      assert Flat(s.sock.done) + [] == Flat(s.sock.done);
    }
  }

  /** The high-priority packages of one worker go out in the order in which it issued them. */
  lemma IssueOrder(k: Kind, workers: nat, actions: seq<Action>, w: nat)
    requires Opening(k) && GapFree(k, workers, actions) && w < workers
    ensures Increasing(Mine(w, Run(k, workers, actions).sock.done))
  {
    RunSafe(k, workers, actions);
    RunSizes(k, workers, actions);
    hide Run, Inv, Conserved, Armed;
    FirstInLine(Run(k, workers, actions), w);
  }

  lemma FirstInLine(s: State, w: nat)
    requires Ordered(s) && w < |s.workers|
    ensures Increasing(Mine(w, s.sock.done))
  {
    hide Mine, Sends, Packages;
    var done := Mine(w, s.sock.done);
    var dw, high := Mine(w, InHand(s.sock.dw)), Mine(w, Packages(s.sock.high));
    var pipe, hand := Mine(w, Sends(s.pipe)), Mine(w, Hand(s.workers[w]));
    assert Line(s, w) == done + (dw + high + pipe + hand);
    IncreasingPrefix(done, dw + high + pipe + hand);
  }

  lemma IncreasingPrefix(a: seq<nat>, b: seq<nat>)
    requires Increasing(a + b)
    ensures Increasing(a)
  {
    forall i, j | 0 <= i < j < |a| ensures a[i] < a[j] {
      assert (a + b)[i] == a[i] && (a + b)[j] == a[j];
    }
  }

  lemma {:induction false} RunSizes(k: Kind, workers: nat, actions: seq<Action>)
    ensures |Run(k, workers, actions).workers| == workers
  {
    if actions != [] {
      RunSizes(k, workers, actions[..|actions| - 1]);
      DoSizes(Run(k, workers, actions[..|actions| - 1]), actions[|actions| - 1]);
    }
  }

  lemma DoSizes(s: State, a: Action)
    ensures |Do(s, a).workers| == |s.workers|
  {
  }

  /** Without the condition the property fails, and exactly there: a direct write in the gap that puts anything on the
      descriptor tears the packages apart, and nothing mends that. */
  lemma GapTears(s: State, a: Action, answer: Outcome)
    requires Inv(s) && a.Continue?
    ensures Gap(s, a) ==>
              var p := s.workers[a.w].pkg;
              var t := Do(Do(s, a), Continue(a.w, answer));
              Received(t.sock.log).Torn? <==> DirectCount(answer, p) > 0 || p.bytes == []
    ensures !Gap(s, a) ==> !Received(Do(s, a).sock.log).Torn?
  {
    hide Received;
    if Gap(s, a) {
      var p := s.workers[a.w].pkg;
      ReceivedSnoc(s.sock.log, Chunk(p, 0, DirectCount(answer, p)));
    } else {
      StepKeeps(s, a);
    }
  }

  /** No package is lost: it was issued as often as it is found somewhere. */
  lemma NothingLost(k: Kind, workers: nat, actions: seq<Action>, p: Package)
    requires Opening(k) && GapFree(k, workers, actions)
    ensures Places(p, Run(k, workers, actions)) && Armed(Run(k, workers, actions))
  {
    RunSafe(k, workers, actions);
  }

  // ---- Runs that show what can go wrong --------------------------------------------------------------------------

  /** One byte of a package is written directly and the rest goes to the high list; then another worker asks for a
      shutdown, and a third writes directly before the descriptor is closed. */
  function Tearing(long: seq<Byte>, short: seq<Byte>): seq<Action> {
    [SendNew(0, long, false), Continue(0, WouldBlock), Continue(0, Wrote(1)), PollWrite([WouldBlock]),
     SendNew(1, short, false), Request(Close(true)), Command, Continue(1, WouldBlock), Continue(1, Wrote(1))]
  }

  /** Two workers and an open socket, with what matters in the runs below */
  function Two(sock: Sock, thread: Thread, pipe: seq<Command>, first: Worker, second: Worker, lock: Option<nat>,
      counts: seq<nat>, issued: seq<Package>): State {
    State(sock, thread, pipe, [first, second], lock, counts, issued, [])
  }

  function Open(high: seq<WriteBuffer>, size: int, dw: Option<WriteBuffer>, log: seq<Chunk>, dropped: seq<Package>): Sock {
    Sock(Connected, false, false, high, [], size, dw, 0, log, [], dropped)
  }

  lemma FirstHalf(p: Package)
    requires p.worker == 0 && p.no == 0 && !p.low && |p.bytes| == 2
    ensures var s := Start(Connected, 2);
            var s1 := Do(s, SendNew(0, p.bytes, false));
            var s2 := Do(s1, Continue(0, WouldBlock));
            var s3 := Do(s2, Continue(0, Wrote(1)));
            var s4 := Do(s3, PollWrite([WouldBlock]));
            s4 == Two(Open([WriteBuffer(p, 1)], 1, None, [Chunk(p, 0, 1)], []), Ready, [], Triggering, Rest, None, [1, 0], [p])
            && !Gap(s, SendNew(0, p.bytes, false)) && !Gap(s1, Continue(0, WouldBlock))
  {
    var s := Start(Connected, 2);
    assert s == Two(Open([], 0, None, [], []), Ready, [], Rest, Rest, None, [0, 0], []);
    var s1 := Do(s, SendNew(0, p.bytes, false));
    assert s1 == Two(Open([], 0, None, [], []), Ready, [], Checked(p), Rest, None, [1, 0], [p]);
    var s2 := Do(s1, Continue(0, WouldBlock));
    assert s2 == Two(Open([], 0, None, [], []), Ready, [], Writing(p), Rest, Some(0), [1, 0], [p]);
    var s3 := Do(s2, Continue(0, Wrote(1)));
    assert s3 == Two(Open([], 0, Some(WriteBuffer(p, 1)), [Chunk(p, 0, 1)], []), Ready, [], Triggering, Rest, None, [1, 0], [p]);
    HeadBlocked(s3, p);
  }

  lemma HeadBlocked(s: State, p: Package)
    requires |p.bytes| == 2
    requires s == Two(Open([], 0, Some(WriteBuffer(p, 1)), [Chunk(p, 0, 1)], []), Ready, [], Triggering, Rest, None, [1, 0], [p])
    ensures Do(s, PollWrite([WouldBlock]))
         == Two(Open([WriteBuffer(p, 1)], 1, None, [Chunk(p, 0, 1)], []), Ready, [], Triggering, Rest, None, [1, 0], [p])
  {
    var t := TakeDirect(s.sock);
    assert t == Open([WriteBuffer(p, 1)], 1, None, [Chunk(p, 0, 1)], []);
    assert SendList(t, true, [WouldBlock]).sock == t;
  }

  lemma SecondHalf(s: State, p: Package, q: Package)
    requires |p.bytes| == 2 && q == Package(1, 0, false, q.bytes) && |q.bytes| == 1
    requires s == Two(Open([WriteBuffer(p, 1)], 1, None, [Chunk(p, 0, 1)], []), Ready, [], Triggering, Rest, None, [1, 0], [p])
    ensures var s1 := Do(s, SendNew(1, q.bytes, false));
            var s2 := Do(s1, Request(Close(true)));
            var s3 := Do(s2, Command);
            var s4 := Do(s3, Continue(1, WouldBlock));
            var s5 := Do(s4, Continue(1, Wrote(1)));
            Gap(s3, Continue(1, WouldBlock)) && s5.sock.log == [Chunk(p, 0, 1), Chunk(q, 0, 1)]
  {
    var sock := Open([WriteBuffer(p, 1)], 1, None, [Chunk(p, 0, 1)], []);
    var s1 := Do(s, SendNew(1, q.bytes, false));
    assert s1 == Two(sock, Ready, [], Triggering, Checked(q), None, [1, 1], [p, q]);
    var s2 := Do(s1, Request(Close(true)));
    assert s2 == Two(sock, Ready, [Close(true)], Triggering, Checked(q), None, [1, 1], [p, q]);
    var s3 := Do(s2, Command);
    assert FreeLists(sock).(dropped := []) == Open([], 1, None, [Chunk(p, 0, 1)], []);
    assert s3.thread == Forcing(Some(Closed)) && s3.sock == FreeLists(sock) && s3.lock == None;
    OneChunk(p);
    var s4 := Do(s3, Continue(1, WouldBlock));
    assert s4.workers[1] == Writing(q) && s4.sock == s3.sock;
  }

  lemma OneChunk(p: Package)
    requires |p.bytes| == 2
    ensures Received([Chunk(p, 0, 1)]) == Inside([], p, 1) && Wire([Chunk(p, 0, 1)]) == [p.bytes[0]]
  {
    var c := Chunk(p, 0, 1);
    assert [c][..0] == [];
    assert Received([]) == Between([]);
    assert Wire([]) == [] && [] + BytesOf(c) == BytesOf(c) == [p.bytes[0]];
  }

  /** The first byte of one package on the descriptor, and then another package */
  lemma GapRun(long: seq<Byte>, short: seq<Byte>)
    requires |long| == 2 && |short| == 1
    ensures var s := Run(Connected, 2, Tearing(long, short));
            && Received(s.sock.log).Torn? && Wire(s.sock.log) == [long[0], short[0]]
            && !GapFree(Connected, 2, Tearing(long, short))
  {
    var p, q := Package(0, 0, false, long), Package(1, 0, false, short);
    var acts := Tearing(long, short);
    hide Do, Gap, Received, Wire;
    FirstHalf(p);
    RunFirst(acts);
    SecondHalf(Run(Connected, 2, acts[..4]), p, q);
    RunLast(acts);
    TwoChunks(p, q);
    NotGapFree(acts);
  }

  lemma RunFirst(acts: seq<Action>)
    requires |acts| == 9
    ensures Run(Connected, 2, acts[..4]) == Do(Do(Do(Do(Start(Connected, 2), acts[0]), acts[1]), acts[2]), acts[3])
  {
    hide Do;
    RunTail(Connected, 2, acts, 0);
    RunTail(Connected, 2, acts, 1);
    RunTail(Connected, 2, acts, 2);
    RunTail(Connected, 2, acts, 3);
    assert acts[..0] == [];
  }

  lemma RunLast(acts: seq<Action>)
    requires |acts| == 9
    ensures Run(Connected, 2, acts[..7]) == Do(Do(Do(Run(Connected, 2, acts[..4]), acts[4]), acts[5]), acts[6])
    ensures Run(Connected, 2, acts) == Do(Do(Run(Connected, 2, acts[..7]), acts[7]), acts[8])
  {
    hide Do;
    RunTail(Connected, 2, acts, 4);
    RunTail(Connected, 2, acts, 5);
    RunTail(Connected, 2, acts, 6);
    RunTail(Connected, 2, acts, 7);
    RunTail(Connected, 2, acts, 8);
    assert acts[..9] == acts;
  }

  lemma {:induction false} RunTail(k: Kind, workers: nat, acts: seq<Action>, n: nat)
    requires n < |acts|
    ensures Run(k, workers, acts[..n + 1]) == Do(Run(k, workers, acts[..n]), acts[n])
  {
    assert acts[..n + 1][..n] == acts[..n];
  }

  lemma NotGapFree(acts: seq<Action>)
    requires |acts| == 9 && Gap(Run(Connected, 2, acts[..7]), acts[7])
    ensures !GapFree(Connected, 2, acts)
  {
    assert acts[..8][..7] == acts[..7];
    assert !GapFree(Connected, 2, acts[..8]);
  }

  lemma TwoChunks(p: Package, q: Package)
    requires |p.bytes| == 2 && |q.bytes| == 1 && p != q
    ensures Received([Chunk(p, 0, 1), Chunk(q, 0, 1)]).Torn?
    ensures Wire([Chunk(p, 0, 1), Chunk(q, 0, 1)]) == [p.bytes[0], q.bytes[0]]
  {
    var a, b := Chunk(p, 0, 1), Chunk(q, 0, 1);
    OneChunk(p);
    assert [a, b][..1] == [a];
    assert BytesOf(b) == [q.bytes[0]];
  }

  // ---- A socket that is never closed ------------------------------------------------------------------------------

  /** A close command leaves the socket closing with nothing to write, so that no write will complete the close,
      exactly when a package is on its way to the socket and nothing else is. */
  lemma CloseStrands(s: Sock, shutdown: bool)
    requires !s.kind.Invalid?
    ensures (CloseSocket(s, shutdown).Done? && CloseSocket(s, shutdown).sock.closing && !Waiting(CloseSocket(s, shutdown).sock))
       <==> (!shutdown && !Waiting(s) && s.sending > 0 && !s.kind.HalfCloseWrite?)
  {
  }

  /** That package is refused when it arrives: the socket stays half closed, with nothing to write and no write event. */
  lemma StrandedStays(s: Sock, p: Package)
    requires s.closing && !Waiting(s) && s.sending > 0
    ensures var t := SendSocket(s, p);
            t.closing && t.kind == s.kind && !Waiting(t) && t.sending == s.sending - 1 && t.writing == s.writing
            && t.dropped == s.dropped + [p]
  {
  }

  /** A low-priority package is sent while the socket is being closed by another service. */
  function Stranding(bytes: seq<Byte>): seq<Action> {
    [SendNew(0, bytes, true), Continue(0, WouldBlock), Request(Close(false)), Continue(0, WouldBlock), Command, Command]
  }

  /** The run ends at rest: the pipe is empty, the worker is at rest, nothing waits, and the socket is still open,
      waiting for a write that nothing will cause. */
  lemma StrandedRun(bytes: seq<Byte>)
    ensures var s := Run(Connected, 1, Stranding(bytes));
            && s.thread.Ready? && s.sock.closing && s.sock.kind.HalfCloseRead? && !Waiting(s.sock) && !s.sock.writing
            && s.sock.sending == 0 && s.pipe == [] && s.workers == [Rest] && s.sock.dropped == [Package(0, 0, true, bytes)]
  {
    hide *;
    var acts, p := Stranding(bytes), Package(0, 0, true, bytes);
    StrandingParts(bytes);
    RunNothing(Connected, 1);
    RunTwo(Connected, 1, acts, 0, SendNew(0, bytes, true), Continue(0, WouldBlock));
    RunTwo(Connected, 1, acts, 2, Request(Close(false)), Continue(0, WouldBlock));
    RunTwo(Connected, 1, acts, 4, Command, Command);
    SendLow(Run(Connected, 1, acts[..0]), p);
    CloseMeanwhile(Run(Connected, 1, acts[..2]), p);
    BothCommands(Run(Connected, 1, acts[..4]), p);
    StrandedEnd(Run(Connected, 1, acts), p);
  }

  lemma StrandingParts(bytes: seq<Byte>)
    ensures var acts := Stranding(bytes);
            && |acts| == 6 && acts[..0] == [] && acts[..6] == acts
            && acts[0] == SendNew(0, bytes, true) && acts[1] == Continue(0, WouldBlock)
            && acts[2] == Request(Close(false)) && acts[3] == Continue(0, WouldBlock) && acts[4] == acts[5] == Command
  {
  }

  lemma StrandedEnd(s: State, p: Package)
    requires Single(s, Rest, 0, [], true, [p])
    ensures s.thread.Ready? && s.sock.closing && s.sock.kind.HalfCloseRead? && !Waiting(s.sock) && !s.sock.writing
         && s.sock.sending == 0 && s.pipe == [] && s.workers == [Rest] && s.sock.dropped == [p]
  {
  }

  lemma RunTwo(k: Kind, workers: nat, actions: seq<Action>, n: nat, a: Action, b: Action)
    requires n + 2 <= |actions| && actions[n] == a && actions[n + 1] == b
    ensures Run(k, workers, actions[..n + 2]) == Do(Do(Run(k, workers, actions[..n]), a), b)
  {
    RunTail(k, workers, actions, n);
    RunTail(k, workers, actions, n + 1);
  }

  lemma RunNothing(k: Kind, workers: nat)
    ensures Run(k, workers, []) == Start(k, workers)
  {
  }

  /** One worker and a socket, with what matters in this run */
  predicate Single(s: State, worker: Worker, sending: nat, pipe: seq<Command>, closing: bool, dropped: seq<Package>) {
    && s.thread.Ready? && s.workers == [worker] && s.pipe == pipe
    && s.sock == Sock(if closing then HalfCloseRead else Connected, closing, false, [], [], 0, None, sending, [], [], dropped)
  }

  lemma SendLow(s: State, p: Package)
    requires s == Start(Connected, 1) && p == Package(0, 0, true, p.bytes)
    ensures Single(Do(Do(s, SendNew(0, p.bytes, true)), Continue(0, WouldBlock)), Queueing(p), 1, [], false, [])
  {
    assert s.workers == [Rest] && s.counts == [0];
    var t := Do(s, SendNew(0, p.bytes, true));
    assert Single(t, Referring(p), 0, [], false, []);
  }

  lemma CloseMeanwhile(s: State, p: Package)
    requires Single(s, Queueing(p), 1, [], false, [])
    ensures Single(Do(Do(s, Request(Close(false))), Continue(0, WouldBlock)), Rest, 1, [Close(false), Send(p)], false, [])
  {
    assert Single(Do(s, Request(Close(false))), Queueing(p), 1, [Close(false)], false, []);
  }

  lemma BothCommands(s: State, p: Package)
    requires Single(s, Rest, 1, [Close(false), Send(p)], false, [])
    ensures Single(Do(Do(s, Command), Command), Rest, 0, [], true, [p])
  {
    var t := Do(s, Command);
    assert Single(t, Rest, 1, [Send(p)], true, []);
  }
}
