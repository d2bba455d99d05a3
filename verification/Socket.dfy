/** The write path and the close states of one TCP socket (socket_server.c). `Sock` and the functions on it say what each
    operation of the socket thread does; the class `Socket` is the structure whose fields the original updates. What
    the operating system answers to `write` and `read` is a parameter. */
module Socket {
  datatype Option<+T> = None | Some(value: T)

  type Byte = b: int | 0 <= b < 256

  /** A package: who issued it, as which one of that worker, and with which priority */
  datatype Package = Package(worker: nat, no: nat, low: bool, bytes: seq<Byte>)

  /** A package in a write list, and how much of it has been written (`ptr` and `sz`) */
  datatype WriteBuffer = WriteBuffer(pkg: Package, sent: nat)

  datatype Kind = PListen | Listen | Connecting | Connected | HalfCloseRead | HalfCloseWrite | PAccept | Bind | Invalid

  /** What `write` returns: a count, EINTR, EAGAIN, or another error */
  datatype Outcome = Wrote(n: nat) | Interrupted | WouldBlock | Broken

  datatype Event = Opened | Closed | Failed | Data

  /** One successful `write`: bytes `from` to `to` of a package */
  datatype Chunk = Chunk(pkg: Package, from: nat, to: nat)

  /** A socket, with what it has written to its descriptor: `log` are the writes, `done` the packages written
      completely, `dropped` those that were given up. */
  datatype Sock = Sock(
    kind: Kind,
    closing: bool,
    writing: bool,
    high: seq<WriteBuffer>,
    low: seq<WriteBuffer>,
    wbSize: int,
    dw: Option<WriteBuffer>,
    sending: nat,
    log: seq<Chunk>,
    done: seq<Package>,
    dropped: seq<Package>
  )

  /** How the receiver sees the writes: between two packages, inside one, or torn apart because a package was not
      continued where the last write left it. */
  datatype Progress = Between(done: seq<Package>) | Inside(done: seq<Package>, pkg: Package, upTo: nat) | Torn

  function Advance(p: Progress, c: Chunk): Progress {
    if c.from > c.to || c.to > |c.pkg.bytes| then Torn
    else
      match p
      case Torn => Torn
      case Between(ds) =>
        if c.from != 0 then Torn
        else if c.to == |c.pkg.bytes| then Between(ds + [c.pkg])
        else Inside(ds, c.pkg, c.to)
      case Inside(ds, pkg, upTo) =>
        if c.pkg != pkg || c.from != upTo then Torn
        else if c.to == |pkg.bytes| then Between(ds + [pkg])
        else Inside(ds, pkg, c.to)
  }

  /** The writes so far, as the receiver sees them */
  function Received(log: seq<Chunk>): Progress {
    if log == [] then Between([]) else Advance(Received(log[..|log| - 1]), log[|log| - 1])
  }

  function BytesOf(c: Chunk): seq<Byte> {
    if c.from <= c.to <= |c.pkg.bytes| then c.pkg.bytes[c.from..c.to] else []
  }

  /** The bytes on the descriptor */
  function Wire(log: seq<Chunk>): seq<Byte> {
    if log == [] then [] else Wire(log[..|log| - 1]) + BytesOf(log[|log| - 1])
  }

  function Flat(ps: seq<Package>): seq<Byte> {
    if ps == [] then [] else Flat(ps[..|ps| - 1]) + ps[|ps| - 1].bytes
  }

  /** Whole packages, and a prefix of at most one more */
  predicate Shape(p: Progress, wire: seq<Byte>) {
    match p
    case Torn => true
    case Between(ds) => wire == Flat(ds)
    case Inside(ds, pkg, upTo) => upTo <= |pkg.bytes| && wire == Flat(ds) + pkg.bytes[..upTo]
  }

  lemma FlatSnoc(ds: seq<Package>, p: Package)
    ensures Flat(ds + [p]) == Flat(ds) + p.bytes
  {
    assert (ds + [p])[..|ds|] == ds;
  }

  lemma AdvanceShape(p: Progress, wire: seq<Byte>, c: Chunk)
    requires Shape(p, wire)
    ensures Shape(Advance(p, c), wire + BytesOf(c))
  {
    hide Flat;
    var all := c.pkg.bytes;
    match p
    case Torn =>
    case Between(ds) =>
      FlatSnoc(ds, c.pkg);
      if c.from == 0 && c.to == |all| {
        assert all[0..c.to] == all;
      } else if c.from == 0 && c.to < |all| {
        assert all[0..c.to] == all[..c.to];
      }
    case Inside(ds, pkg, upTo) =>
      FlatSnoc(ds, pkg);
      if c.pkg == pkg && c.from == upTo <= c.to <= |all| {
        assert Flat(ds) + all[..upTo] + all[upTo..c.to] == Flat(ds) + all[..c.to] by {
          assert all[..upTo] + all[upTo..c.to] == all[..c.to];
        }
        assert c.to == |all| ==> all[..c.to] == all;
      }
  }

  /** Writes that are not torn put whole packages on the wire, and a prefix of at most one more. */
  lemma {:induction false} WireShape(log: seq<Chunk>)
    ensures Shape(Received(log), Wire(log))
  {
    if log != [] {
      WireShape(log[..|log| - 1]);
      AdvanceShape(Received(log[..|log| - 1]), Wire(log[..|log| - 1]), log[|log| - 1]);
    }
  }

  // ---- Lists ------------------------------------------------------------------------------------------------------

  predicate WellFormed(wb: WriteBuffer) {
    wb.sent <= |wb.pkg.bytes|
  }

  function Left(wb: WriteBuffer): int {
    |wb.pkg.bytes| - wb.sent
  }

  function Unsent(list: seq<WriteBuffer>): int {
    if list == [] then 0 else Left(list[0]) + Unsent(list[1..])
  }

  function Packages(list: seq<WriteBuffer>): (r: seq<Package>)
    ensures |r| == |list|
  {
    if list == [] then [] else [list[0].pkg] + Packages(list[1..])
  }

  function InHand(dw: Option<WriteBuffer>): seq<Package> {
    if dw.Some? then [dw.value.pkg] else []
  }

  function Empty(s: Sock): bool {
    s.high == [] && s.low == []
  }

  /** `nomore_sending_data` */
  function NoMoreData(s: Sock): bool {
    (Empty(s) && s.dw.None? && s.sending == 0) || s.kind.HalfCloseWrite?
  }

  // ---- Closing ----------------------------------------------------------------------------------------------------

  /** The first part of `force_close`, before the lock is taken: the lists are freed. */
  function FreeLists(s: Sock): Sock {
    if s.kind.Invalid? then s
    else
      s.(high := [], low := [], dropped := s.dropped + Packages(s.high) + Packages(s.low))
  }

  /** The second part, under the lock: the descriptor is closed, and a package left by a direct write is freed. */
  function CloseFd(s: Sock): Sock {
    if s.kind.Invalid? then s
    else
      s.(kind := Invalid, dw := None, dropped := s.dropped + InHand(s.dw))
  }

  function ForceClose(s: Sock): Sock {
    CloseFd(FreeLists(s))
  }

  /** How a list was sent: as far as possible for now, or the socket failed, or it was reset. */
  datatype Status = Going | Error | Reset

  datatype Sent = Sent(sock: Sock, status: Status, io: seq<Outcome>)

  /** `close_write` */
  function CloseWrite(s: Sock, io: seq<Outcome>): Sent {
    if s.closing || s.kind.HalfCloseRead? then Sent(ForceClose(s), Reset, io)
    else if s.kind.HalfCloseWrite? then Sent(s, Reset, io)
    else Sent(s.(kind := HalfCloseWrite, writing := false), Error, io)
  }

  // ---- Sending ----------------------------------------------------------------------------------------------------

  /** The next answer of `write`: nothing can be written once the write side is shut down. */
  function Answer(s: Sock, io: seq<Outcome>): Outcome {
    if io == [] then WouldBlock
    else if s.kind.HalfCloseWrite? && io[0].Wrote? then Broken
    else io[0]
  }

  function Min(a: int, b: int): int {
    if a < b then a else b
  }

  function List(s: Sock, high: bool): seq<WriteBuffer> {
    if high then s.high else s.low
  }

  function SetList(s: Sock, high: bool, list: seq<WriteBuffer>): Sock {
    if high then s.(high := list) else s.(low := list)
  }

  /** A write of nothing, when there is something left, leaves no trace. */
  function Logged(log: seq<Chunk>, wb: WriteBuffer, n: nat): seq<Chunk> {
    if n == 0 && Left(wb) > 0 then log else log + [Chunk(wb.pkg, wb.sent, wb.sent + n)]
  }

  /** `n` bytes of the head of a list go out. */
  function WriteHead(s: Sock, high: bool, n: nat): Sock
    requires List(s, high) != [] && WellFormed(List(s, high)[0]) && n <= Left(List(s, high)[0])
  {
    var list := List(s, high);
    var head := list[0];
    var t := s.(log := Logged(s.log, head, n), wbSize := s.wbSize - n);
    if n == Left(head) then SetList(t, high, list[1..]).(done := t.done + [head.pkg])
    else SetList(t, high, list[0 := head.(sent := head.sent + n)])
  }

  /** `send_list_tcp` */
  function SendList(s: Sock, high: bool, io: seq<Outcome>): Sent
    decreases |io|
  {
    if List(s, high) == [] || !WellFormed(List(s, high)[0]) then Sent(s, Going, io)
    else
      match Answer(s, io)
      case WouldBlock => Sent(s, Going, if io == [] then io else io[1..])
      case Interrupted => SendList(s, high, io[1..])
      case Broken => CloseWrite(s, io[1..])
      case Wrote(n) =>
        var m: nat := Min(n, Left(List(s, high)[0]));
        var t := WriteHead(s, high, m);
        if m != Left(List(s, high)[0]) then Sent(t, Going, io[1..]) else SendList(t, high, io[1..])
  }

  predicate Incomplete(list: seq<WriteBuffer>) {
    list != [] && list[0].sent > 0
  }

  /** `raise_uncomplete` */
  function Raise(s: Sock): Sock
    requires s.low != []
  {
    s.(high := [s.low[0]], low := s.low[1..])
  }

  datatype Step = Step(sock: Sock, event: Option<Event>)

  /** The end of `send_buffer_`, when everything is written */
  function FinishSend(s: Sock): Sock {
    if s.closing then ForceClose(s) else s.(writing := false)
  }

  /** `send_buffer_` */
  function SendLists(s: Sock, io: seq<Outcome>): Step {
    var a := SendList(s, true, io);
    if a.status != Going then Step(a.sock, if a.status.Error? then Some(Failed) else None)
    else if a.sock.high != [] then Step(a.sock, None)
    else if a.sock.low == [] then Step(FinishSend(a.sock), None)
    else SendLow(a.sock, a.io)
  }

  /** Step 2 and 3 of `send_buffer_`: the low list, whose head goes to the high list when it is written in part */
  function SendLow(s: Sock, io: seq<Outcome>): Step {
    var b := SendList(s, false, io);
    if b.status != Going then Step(b.sock, if b.status.Error? then Some(Failed) else None)
    else if Incomplete(b.sock.low) then Step(Raise(b.sock), None)
    else if b.sock.low != [] then Step(b.sock, None)
    else Step(FinishSend(b.sock), None)
  }

  /** The package of a direct write goes before everything else. */
  function TakeDirect(s: Sock): Sock {
    if s.dw.None? then s
    else s.(high := [s.dw.value] + s.high, dw := None, wbSize := s.wbSize + Left(s.dw.value))
  }

  /** `send_buffer`, with the lock */
  function SendBuffer(s: Sock, io: seq<Outcome>): Step {
    SendLists(TakeDirect(s), io)
  }

  /** `append_sendbuffer` and `append_sendbuffer_low` */
  function Append(s: Sock, high: bool, p: Package): Sock {
    SetList(s, high, List(s, high) + [WriteBuffer(p, 0)]).(wbSize := s.wbSize + |p.bytes|)
  }

  /** Is a package refused? */
  predicate Refuses(s: Sock) {
    s.kind.Invalid? || s.kind.HalfCloseWrite? || s.kind.PAccept? || s.closing || s.kind.PListen? || s.kind.Listen?
  }

  /** `send_socket` and `dec_sending_ref`: a package goes to the high list if nothing waits, whatever its priority. */
  function SendSocket(s: Sock, p: Package): Sock {
    var t := s.(sending := if s.sending > 0 then s.sending - 1 else 0);
    if Refuses(s) then t.(dropped := t.dropped + [p])
    else if Empty(s) then Append(t, true, p).(writing := true)
    else Append(t, !p.low, p)
  }

  // ---- Commands and events that close ---------------------------------------------------------------------------

  /** What an operation of the socket thread leads to: it is done, or it goes on to force the socket closed, and then
      raises an event. */
  datatype Next = Done(sock: Sock, event: Option<Event>) | Force(sock: Sock, event: Option<Event>)

  /** `close_read` */
  function CloseRead(s: Sock): Sock {
    s.(kind := HalfCloseRead)
  }

  /** `close_socket` */
  function CloseSocket(s: Sock, shutdown: bool): Next {
    if s.kind.Invalid? then Done(s, None)
    else if shutdown || NoMoreData(s) then Force(s, if s.kind.HalfCloseRead? then None else Some(Closed))
    else if s.kind.HalfCloseRead? then Done(s.(closing := true), None)
    else Done(CloseRead(s.(closing := true)), Some(Closed))
  }

  /** `resume_socket` */
  function Resume(s: Sock): Next {
    match s.kind
    case Invalid | HalfCloseRead => Done(s, Some(Failed))
    case PAccept => Done(s.(kind := Connected), Some(Opened))
    case PListen => Done(s.(kind := Listen), Some(Opened))
    case Connected => Done(s, Some(Opened))
    case _ => Done(s, None)
  }

  datatype Arrival = Bytes | Again | ReadError | EndOfFile

  /** `forward_message_tcp` */
  function Forward(s: Sock, got: Arrival): Next {
    match got
    case ReadError => Done(s, Some(Failed))
    case Again => Done(s, None)
    case Bytes => Done(s, if s.kind.HalfCloseRead? then None else Some(Data))
    case EndOfFile =>
      if s.closing then (if NoMoreData(s) then Force(s, None) else Done(s, None))
      else if s.kind.HalfCloseRead? then Done(s, None)
      else if s.kind.HalfCloseWrite? then Force(s, Some(Closed))
      else Done(CloseRead(s), Some(Closed))
  }

  /** `report_connect` */
  function ReportConnect(s: Sock, ok: bool): Next {
    if !ok then Force(s, Some(Failed))
    else
      var t := s.(kind := Connected);
      Done(if NoMoreData(t) then t.(writing := false) else t, Some(Opened))
  }

  /** The end of input and output was reported by the poll. */
  function EndOfStream(s: Sock): Next {
    Force(s, if s.kind.HalfCloseRead? then None else Some(Closed))
  }

  // ---- What the socket thread keeps ------------------------------------------------------------------------------

  /** The package under way, if any */
  function Current(s: Sock): Option<WriteBuffer> {
    if s.dw.Some? then s.dw else if s.high != [] then Some(s.high[0]) else None
  }

  /** The log agrees with `done` and with the package under way. */
  predicate Tracks(p: Progress, done: seq<Package>, current: Option<WriteBuffer>) {
    if current.Some? && current.value.sent > 0 then p == Inside(done, current.value.pkg, current.value.sent)
    else p == Between(done)
  }

  predicate Fresh(list: seq<WriteBuffer>) {
    forall k :: 0 <= k < |list| ==> list[k].sent == 0
  }

  /** Only the package under way has been written in part. */
  predicate ListsOk(s: Sock) {
    && (forall k :: 0 <= k < |s.high| ==> WellFormed(s.high[k]))
    && (forall k :: 0 <= k < |s.low| ==> WellFormed(s.low[k]) && s.low[k].pkg.low)
    && (s.dw.Some? ==> WellFormed(s.dw.value))
    && (s.high != [] ==> Fresh(s.high[1..])) && Fresh(s.low)
    && (s.dw.Some? ==> Fresh(s.high))
  }

  /** A socket between two steps of its thread */
  predicate Alive(s: Sock) {
    ListsOk(s) && Tracks(Received(s.log), s.done, Current(s)) && s.wbSize == Unsent(s.high) + Unsent(s.low)
  }

  /** A package that the receiver is inside of has been begun. */
  predicate Begun(p: Progress) {
    p.Inside? ==> p.upTo > 0
  }

  /** A socket that has been closed, after whatever was written last */
  predicate Ended(s: Sock) {
    && s.kind.Invalid? && s.high == [] && s.low == [] && s.dw.None?
    && !Received(s.log).Torn? && DoneOf(Received(s.log)) == s.done && Begun(Received(s.log))
  }

  function DoneOf(p: Progress): seq<Package> {
    if p.Torn? then [] else p.done
  }

  lemma UnsentCons(wb: WriteBuffer, list: seq<WriteBuffer>)
    ensures Unsent([wb] + list) == Left(wb) + Unsent(list)
    ensures Packages([wb] + list) == [wb.pkg] + Packages(list)
  {
    assert ([wb] + list)[1..] == list;
  }

  lemma ReceivedSnoc(log: seq<Chunk>, c: Chunk)
    ensures Received(log + [c]) == Advance(Received(log), c)
  {
    assert (log + [c])[..|log|] == log;
  }

  lemma AdvanceTracked(p: Progress, done: seq<Package>, wb: WriteBuffer, n: nat)
    requires WellFormed(wb) && n <= Left(wb) && Tracks(p, done, Some(wb)) && (n > 0 || Left(wb) == 0)
    ensures var q := Advance(p, Chunk(wb.pkg, wb.sent, wb.sent + n));
            if n == Left(wb) then q == Between(done + [wb.pkg]) else Tracks(q, done, Some(wb.(sent := wb.sent + n)))
  {
  }

  /** A write to the package under way is tracked. */
  lemma WriteTracked(log: seq<Chunk>, done: seq<Package>, wb: WriteBuffer, n: nat)
    requires WellFormed(wb) && n <= Left(wb) && Tracks(Received(log), done, Some(wb))
    ensures var p := Received(Logged(log, wb, n));
            if n == Left(wb) then p == Between(done + [wb.pkg]) else Tracks(p, done, Some(wb.(sent := wb.sent + n)))
  {
    ReceivedSnoc(log, Chunk(wb.pkg, wb.sent, wb.sent + n));
    hide Received, Tracks, Advance;
    if n > 0 || Left(wb) == 0 {
      AdvanceTracked(Received(log), done, wb, n);
    } else {
      assert wb.(sent := wb.sent + n) == wb;
    }
  }

  /** The list that is being sent: the high one, or the low one while the high one is empty */
  predicate Turn(s: Sock, high: bool) {
    s.dw.None? && (!high ==> s.high == [])
  }

  /** What holds while a list is sent: the low head may be under way too. */
  predicate Sending(s: Sock, high: bool) {
    && Turn(s, high) && HeadUnderWay(s.high) && HeadUnderWay(s.low)
    && (forall k :: 0 <= k < |s.low| ==> s.low[k].pkg.low)
    && (high ==> Fresh(s.low))
    && Tracks(Received(s.log), s.done, if List(s, high) != [] then Some(List(s, high)[0]) else None)
    && s.wbSize == Unsent(s.high) + Unsent(s.low)
  }

  predicate HeadUnderWay(list: seq<WriteBuffer>) {
    && (forall k :: 0 <= k < |list| ==> WellFormed(list[k]))
    && (list != [] ==> Fresh(list[1..]))
  }

  function AfterWrite(list: seq<WriteBuffer>, n: nat): seq<WriteBuffer>
    requires list != []
  {
    if n == Left(list[0]) then list[1..] else list[0 := list[0].(sent := list[0].sent + n)]
  }

  lemma ListWrite(list: seq<WriteBuffer>, n: nat)
    requires HeadUnderWay(list) && list != [] && n <= Left(list[0])
    ensures var r := AfterWrite(list, n);
            && HeadUnderWay(r) && Unsent(r) == Unsent(list) - n
            && (n == Left(list[0]) ==> Fresh(r))
            && (n < Left(list[0]) ==> r != [] && r[0] == list[0].(sent := list[0].sent + n))
            && ((forall k :: 0 <= k < |list| ==> list[k].pkg.low) ==> (forall k :: 0 <= k < |r| ==> r[k].pkg.low))
  {
    var more := list[0].(sent := list[0].sent + n);
    assert list[0 := more][1..] == list[1..];
  }

  lemma WriteHeadKeeps(s: Sock, high: bool, n: nat)
    requires Sending(s, high) && List(s, high) != [] && n <= Left(List(s, high)[0])
    ensures Sending(WriteHead(s, high, n), high)
  {
    hide Received, Logged, Unsent;
    var list := List(s, high);
    WriteTracked(s.log, s.done, list[0], n);
    ListWrite(list, n);
    assert List(WriteHead(s, high, n), high) == AfterWrite(list, n);
  }

  /** Sending a list keeps everything, and ends with the list or with the head under way; a socket that was reset has
      ended. */
  lemma {:induction false} SendListKeeps(s: Sock, high: bool, io: seq<Outcome>)
    requires Sending(s, high) && !s.kind.Invalid? && Fresh(s.low)
    ensures var r := SendList(s, high, io);
            && (!r.status.Going? ==> Fresh(r.sock.low))
            && (r.status.Going? || r.status.Error? ==> Sending(r.sock, high) && !r.sock.kind.Invalid?)
            && (r.status.Reset? ==> if r.sock.kind.Invalid? then Ended(r.sock) else Sending(r.sock, high))
            && (high ==> r.sock.kind.Invalid? || r.sock.low == s.low)
            && (r.status.Going? ==> r.sock.kind == s.kind && r.sock.closing == s.closing && r.sock.writing == s.writing)
            && r.sock.sending == s.sending
    decreases |io|
  {
    if List(s, high) != [] {
      match Answer(s, io)
      case WouldBlock =>
      case Interrupted => SendListKeeps(s, high, io[1..]);
      case Broken => CloseWriteKeeps(s, high, io[1..]);
      case Wrote(n) =>
        var m: nat := Min(n, Left(List(s, high)[0]));
        WriteHeadKeeps(s, high, m);
        if m == Left(List(s, high)[0]) {
          SendListKeeps(WriteHead(s, high, m), high, io[1..]);
        }
    }
  }

  lemma CloseWriteKeeps(s: Sock, high: bool, io: seq<Outcome>)
    requires Sending(s, high) && !s.kind.Invalid?
    ensures var r := CloseWrite(s, io);
            && (r.sock.kind.Invalid? ==> r.status.Reset? && Ended(r.sock))
            && (!r.sock.kind.Invalid? ==> !r.status.Going? && Sending(r.sock, high) && r.sock.low == s.low)
            && r.sock.sending == s.sending
  {
  }

  // ---- Which packages, and in which order ------------------------------------------------------------------------

  /** How often a package is among some */
  function Count(p: Package, ps: seq<Package>): nat {
    if ps == [] then 0 else Count(p, ps[1..]) + if ps[0] == p then 1 else 0
  }

  lemma {:induction false} CountAppend(p: Package, a: seq<Package>, b: seq<Package>)
    ensures Count(p, a + b) == Count(p, a) + Count(p, b)
  {
    if a == [] {
      assert a + b == b;
    } else {
      CountAppend(p, a[1..], b);
      assert (a + b)[1..] == a[1..] + b;
    }
  }

  lemma CountOne(p: Package, q: Package)
    ensures Count(p, [q]) == (if p == q then 1 else 0) && Count(p, []) == 0
  {
  }

  /** How often the socket has been given a package */
  function Held(p: Package, s: Sock): nat {
    Count(p, s.done) + Count(p, InHand(s.dw)) + Count(p, Packages(s.high)) + Count(p, Packages(s.low))
    + Count(p, s.dropped)
  }

  /** The numbers of the high-priority packages of worker `w`, in the order given */
  function Mine(w: nat, ps: seq<Package>): seq<nat> {
    if ps == [] then []
    else if ps[0].worker == w && !ps[0].low then [ps[0].no] + Mine(w, ps[1..])
    else Mine(w, ps[1..])
  }

  lemma Joined(n: nat, a: seq<nat>, b: seq<nat>)
    ensures [n] + (a + b) == [n] + a + b
  {
  }

  lemma {:induction false} MineAppend(w: nat, a: seq<Package>, b: seq<Package>)
    ensures Mine(w, a + b) == Mine(w, a) + Mine(w, b)
  {
    if a == [] {
      assert a + b == b && [] + Mine(w, b) == Mine(w, b);
    } else {
      MineAppend(w, a[1..], b);
      assert (a + b)[1..] == a[1..] + b && (a + b)[0] == a[0];
      Joined(a[0].no, Mine(w, a[1..]), Mine(w, b));
    }
  }

  /** What has gone out of the packages of one worker, and what will go out next, in order */
  function Outgoing(w: nat, s: Sock): seq<nat> {
    Mine(w, s.done) + Mine(w, InHand(s.dw)) + Mine(w, Packages(s.high))
  }

  /** Packages stay where they are in the order; those of a closed socket that are not written are dropped. */
  ghost predicate Moves(s: Sock, t: Sock) {
    && t.sending == s.sending && (forall p :: Held(p, t) == Held(p, s))
    && (if t.kind.Invalid? then forall w :: Outgoing(w, t) <= Outgoing(w, s) else forall w :: Outgoing(w, t) == Outgoing(w, s))
  }

  lemma ForceCloseMoves(s: Sock)
    requires !s.kind.Invalid?
    ensures Moves(s, ForceClose(s))
  {
    forall p ensures Held(p, ForceClose(s)) == Held(p, s) {
      CloseHeld(p, s);
      CloseHeld(p, FreeLists(s));
    }
  }

  lemma CloseHeld(p: Package, s: Sock)
    ensures Held(p, FreeLists(s)) == Held(p, s) && Held(p, CloseFd(s)) == Held(p, s)
  {
    CountOne(p, Package(0, 0, false, []));
    hide Count;
    CountAppend(p, s.dropped + Packages(s.high), Packages(s.low));
    CountAppend(p, s.dropped, Packages(s.high));
    CountAppend(p, s.dropped, InHand(s.dw));
  }

  lemma PackagesHead(list: seq<WriteBuffer>)
    requires list != []
    ensures Packages(list) == [list[0].pkg] + Packages(list[1..])
  {
  }

  lemma SamePackages(list: seq<WriteBuffer>, n: nat)
    requires list != []
    ensures Packages(list[0 := list[0].(sent := list[0].sent + n)]) == Packages(list)
  {
    assert list[0 := list[0].(sent := list[0].sent + n)][1..] == list[1..];
  }

  /** The head of a list is done: it stays where it is in the order. */
  lemma HeadDone(w: nat, done: seq<Package>, p: Package, rest: seq<Package>)
    ensures Mine(w, done + [p]) + Mine(w, rest) == Mine(w, done) + Mine(w, [p] + rest)
    ensures p.low ==> Mine(w, done + [p]) == Mine(w, done)
  {
    MineAppend(w, done, [p]);
    MineAppend(w, [p], rest);
    if p.low {
      assert Mine(w, [p]) == [];
      assert Mine(w, done) + [] == Mine(w, done);
    }
  }

  lemma WriteHeadMoves(s: Sock, high: bool, n: nat)
    requires Sending(s, high) && List(s, high) != [] && n <= Left(List(s, high)[0]) && !s.kind.Invalid?
    ensures Moves(s, WriteHead(s, high, n))
  {
    TurnOf(s, high);
    WriteHeadKind(s, high, n);
    assert WriteHead(s, high, n).sending == s.sending;
    hide Held, Outgoing, WriteHead;
    forall p ensures Held(p, WriteHead(s, high, n)) == Held(p, s) {
      WriteHeadHeld(s, high, n, p);
    }
    forall w ensures Outgoing(w, WriteHead(s, high, n)) == Outgoing(w, s) {
      WriteHeadOutgoing(s, high, n, w);
    }
  }

  lemma WriteHeadHeld(s: Sock, high: bool, n: nat, p: Package)
    requires List(s, high) != [] && WellFormed(List(s, high)[0]) && n <= Left(List(s, high)[0])
    ensures Held(p, WriteHead(s, high, n)) == Held(p, s)
  {
    hide Packages, Logged, Count;
    var list := List(s, high);
    SamePackages(list, n);
    PackagesHead(list);
    CountAppend(p, s.done, [list[0].pkg]);
    CountAppend(p, [list[0].pkg], Packages(list[1..]));
  }

  lemma WriteHeadOutgoing(s: Sock, high: bool, n: nat, w: nat)
    requires Sending(s, high) && List(s, high) != [] && n <= Left(List(s, high)[0])
    ensures Outgoing(w, WriteHead(s, high, n)) == Outgoing(w, s)
  {
    TurnOf(s, high);
    LowOf(s, high);
    hide Mine, Packages, Sending, Logged;
    var list, t := List(s, high), WriteHead(s, high, n);
    SamePackages(list, n);
    PackagesHead(list);
    MineNone(w);
    if n == Left(list[0]) {
      HeadDone(w, s.done, list[0].pkg, if high then Packages(list[1..]) else []);
      assert Mine(w, s.done) + [] == Mine(w, s.done) && Mine(w, t.done) + [] == Mine(w, t.done);
    }
  }

  lemma MineNone(w: nat)
    ensures Mine(w, []) == []
  {
  }

  lemma TurnOf(s: Sock, high: bool)
    requires Sending(s, high)
    ensures s.dw.None? && (!high ==> s.high == []) && (List(s, high) != [] ==> WellFormed(List(s, high)[0]))
  {
  }

  lemma LowOf(s: Sock, high: bool)
    requires Sending(s, high) && List(s, high) != []
    ensures !high ==> s.low[0].pkg.low
  {
  }

  lemma MovesOn(s: Sock, t: Sock, u: Sock)
    requires Moves(s, t) && Moves(t, u) && !t.kind.Invalid?
    ensures Moves(s, u)
  {
  }

  lemma MovesNot(s: Sock)
    ensures Moves(s, s)
  {
  }

  lemma CloseWriteMoves(s: Sock, io: seq<Outcome>)
    requires !s.kind.Invalid?
    ensures Moves(s, CloseWrite(s, io).sock)
  {
    ForceCloseMoves(s);
  }

  lemma {:induction false} SendListMoves(s: Sock, high: bool, io: seq<Outcome>)
    requires Sending(s, high) && !s.kind.Invalid?
    ensures Moves(s, SendList(s, high, io).sock)
    decreases |io|
  {
    hide Moves, Sending, WriteHead;
    MovesNot(s);
    if List(s, high) != [] && WellFormed(List(s, high)[0]) {
      match Answer(s, io)
      case WouldBlock =>
      case Interrupted => SendListMoves(s, high, io[1..]);
      case Broken => CloseWriteMoves(s, io[1..]);
      case Wrote(n) =>
        var m: nat := Min(n, Left(List(s, high)[0]));
        WriteHeadMoves(s, high, m);
        WriteHeadKeeps(s, high, m);
        var t := WriteHead(s, high, m);
        assert t.kind == s.kind by { WriteHeadKind(s, high, m); }
        if m == Left(List(s, high)[0]) {
          SendListMoves(t, high, io[1..]);
          MovesOn(s, t, SendList(t, high, io[1..]).sock);
        }
    }
  }

  lemma WriteHeadKind(s: Sock, high: bool, n: nat)
    requires List(s, high) != [] && WellFormed(List(s, high)[0]) && n <= Left(List(s, high)[0])
    ensures WriteHead(s, high, n).kind == s.kind
  {
  }

  // ---- Sending as a whole ----------------------------------------------------------------------------------------

  /** Something waits to be written. */
  predicate Waiting(s: Sock) {
    s.high != [] || s.low != [] || s.dw.Some?
  }

  lemma TakeDirectMoves(s: Sock)
    requires !s.kind.Invalid?
    ensures Moves(s, TakeDirect(s))
  {
    if s.dw.Some? {
      UnsentCons(s.dw.value, s.high);
      hide Packages;
      var p := s.dw.value.pkg;
      forall q ensures Held(q, TakeDirect(s)) == Held(q, s) {
        CountAppend(q, [p], Packages(s.high));
      }
      forall w ensures Outgoing(w, TakeDirect(s)) == Outgoing(w, s) {
        MineAppend(w, [p], Packages(s.high));
        MineNone(w);
        assert Mine(w, s.done) + [] == Mine(w, s.done);
        assert Mine(w, s.done) + (Mine(w, [p]) + Mine(w, Packages(s.high)))
            == Mine(w, s.done) + Mine(w, [p]) + Mine(w, Packages(s.high));
      }
    }
  }

  lemma TakeDirectKeeps(s: Sock)
    requires Alive(s) && !s.kind.Invalid?
    ensures Sending(TakeDirect(s), true)
  {
    if s.dw.Some? {
      UnsentCons(s.dw.value, s.high);
      assert ([s.dw.value] + s.high)[1..] == s.high;
    }
  }

  /** A socket that is still open after sending is between two steps again; one that was closed has ended. */
  predicate SentOk(s: Sock, t: Sock) {
    && (if t.kind.Invalid? then Ended(t) else Alive(t))
    && t.dw.None? && t.sending == s.sending
    && (!t.kind.Invalid? && !t.kind.HalfCloseWrite? && Waiting(t) ==> t.writing == s.writing)
    && (t.kind == s.kind || t.kind.Invalid? || (t.kind.HalfCloseWrite? && !s.kind.HalfCloseRead? && !s.closing))
    && (t.closing == s.closing)
  }

  /** The two stages of `SendLists` one by one */
  lemma SentAlive(s: Sock, high: bool)
    requires Sending(s, high) && !s.kind.Invalid? && (high || !Incomplete(s.low))
    ensures Alive(s) && s.dw.None?
  {
  }

  lemma RaiseAlive(s: Sock)
    requires Sending(s, false) && !s.kind.Invalid? && Incomplete(s.low)
    ensures Alive(Raise(s)) && Moves(s, Raise(s))
  {
    RaiseMoves(s);
  }

  lemma RaiseMoves(s: Sock)
    requires s.low != [] && s.high == [] && s.low[0].pkg.low && !s.kind.Invalid?
    ensures Moves(s, Raise(s))
  {
    PackagesHead(s.low);
    PackagesHead([s.low[0]]);
    assert [s.low[0]][1..] == [];
    forall p ensures Held(p, Raise(s)) == Held(p, s) {
      CountAppend(p, [s.low[0].pkg], Packages(s.low[1..]));
    }
  }

  lemma FinishKeeps(s: Sock)
    requires Sending(s, true) && !s.kind.Invalid? && s.high == [] && s.low == []
    ensures SentOk(s, FinishSend(s)) && Moves(s, FinishSend(s))
  {
    ForceCloseMoves(s);
  }

  lemma SendListsKeep(s: Sock, io: seq<Outcome>)
    requires Sending(s, true) && !s.kind.Invalid?
    ensures SentOk(s, SendLists(s, io).sock) && Moves(s, SendLists(s, io).sock)
    ensures SendLists(s, io).event in {None, Some(Failed)}
  {
    TurnOf(s, true);
    hide Moves, Sending, Alive, Ended, SendList;
    LowFresh(s);
    SendListKeeps(s, true, io);
    SendListMoves(s, true, io);
    SendListKind(s, true, io);
    var a := SendList(s, true, io);
    if !a.sock.kind.Invalid? {
      SentAlive(a.sock, true);
    }
    if a.status.Going? && a.sock.high == [] {
      LowFresh(a.sock);
      if a.sock.low != [] {
        SendLowKeeps(a.sock, a.io);
        MovesOn(s, a.sock, SendLow(a.sock, a.io).sock);
      } else {
        FinishKeeps(a.sock);
        MovesOn(s, a.sock, FinishSend(a.sock));
      }
    }
  }

  lemma LowFresh(s: Sock)
    requires Sending(s, true)
    ensures Fresh(s.low) && (s.high == [] ==> Sending(s, false))
  {
  }

  lemma SendLowKeeps(s: Sock, io: seq<Outcome>)
    requires Sending(s, false) && Fresh(s.low) && !s.kind.Invalid?
    ensures SentOk(s, SendLow(s, io).sock) && Moves(s, SendLow(s, io).sock)
    ensures SendLow(s, io).event in {None, Some(Failed)}
  {
    TurnOf(s, false);
    hide Moves, Sending, Alive, Ended, SendList;
    SendListKeeps(s, false, io);
    SendListMoves(s, false, io);
    SendListKind(s, false, io);
    var b := SendList(s, false, io);
    if b.status.Going? {
      if Incomplete(b.sock.low) {
        RaiseAlive(b.sock);
        MovesOn(s, b.sock, Raise(b.sock));
      } else {
        NotUnderWay(b.sock);
        if b.sock.low == [] {
          FinishKeeps(b.sock);
          MovesOn(s, b.sock, FinishSend(b.sock));
        }
      }
    } else if !b.sock.kind.Invalid? {
      NotUnderWay(b.sock);
    }
  }

  lemma NotUnderWay(s: Sock)
    requires Sending(s, false) && !s.kind.Invalid? && !Incomplete(s.low)
    ensures Alive(s) && Fresh(s.low) && (s.low == [] ==> Sending(s, true) && s.high == [])
  {
  }

  /** How the kind can change while a list is sent */
  lemma {:induction false} SendListKind(s: Sock, high: bool, io: seq<Outcome>)
    ensures var r := SendList(s, high, io);
            && KindMoves(s, r.sock) && (s.dw.None? ==> r.sock.dw.None?)
            && (!r.sock.kind.Invalid? && !r.sock.kind.HalfCloseWrite? ==> r.sock.writing == s.writing)
            && (r.status.Going? ==> r.sock.kind == s.kind)
    decreases |io|
  {
    if List(s, high) != [] && WellFormed(List(s, high)[0]) {
      match Answer(s, io)
      case WouldBlock =>
      case Interrupted => SendListKind(s, high, io[1..]);
      case Broken =>
      case Wrote(n) =>
        var m: nat := Min(n, Left(List(s, high)[0]));
        if m == Left(List(s, high)[0]) {
          SendListKind(WriteHead(s, high, m), high, io[1..]);
        }
    }
  }

  /** Sending leaves the kind as it is, or closes the socket, or closes its write side: that not when it is closing. */
  predicate KindMoves(s: Sock, t: Sock) {
    && t.closing == s.closing
    && (t.kind == s.kind || t.kind.Invalid? || (t.kind.HalfCloseWrite? && !s.kind.HalfCloseRead? && !s.closing))
  }

  lemma SendBufferKind(s: Sock, io: seq<Outcome>)
    ensures KindMoves(s, SendBuffer(s, io).sock) && SendBuffer(s, io).event != Some(Closed)
  {
    var t := TakeDirect(s);
    SendListKind(t, true, io);
    var a := SendList(t, true, io);
    SendListKind(a.sock, false, a.io);
  }

  /** Sending does not make anything wait. */
  lemma NothingToSend(s: Sock, io: seq<Outcome>)
    requires !Waiting(s)
    ensures !Waiting(SendBuffer(s, io).sock)
  {
  }

  /** `send_buffer` leaves a socket with its invariant, or closed. */
  lemma SendBufferKeeps(s: Sock, io: seq<Outcome>)
    requires Alive(s) && !s.kind.Invalid?
    ensures SentOk(s, SendBuffer(s, io).sock) && Moves(s, SendBuffer(s, io).sock)
    ensures SendBuffer(s, io).event in {None, Some(Failed)}
  {
    hide Moves, Sending, Alive, Ended, SendLists;
    TakeDirectKeeps(s);
    TakeDirectMoves(s);
    SendListsKeep(TakeDirect(s), io);
    MovesOn(s, TakeDirect(s), SendBuffer(s, io).sock);
  }

  lemma {:induction false} ListAppend(list: seq<WriteBuffer>, p: Package)
    ensures Unsent(list + [WriteBuffer(p, 0)]) == Unsent(list) + |p.bytes|
    ensures Packages(list + [WriteBuffer(p, 0)]) == Packages(list) + [p]
  {
    var wb := WriteBuffer(p, 0);
    if list == [] {
      assert [] + [wb] == [wb];
    } else {
      ListAppend(list[1..], p);
      assert (list + [wb])[1..] == list[1..] + [wb];
    }
  }

  lemma UnderWayAppend(list: seq<WriteBuffer>, p: Package)
    requires HeadUnderWay(list)
    ensures HeadUnderWay(list + [WriteBuffer(p, 0)])
    ensures Fresh(list) ==> Fresh(list + [WriteBuffer(p, 0)])
  {
    assert list != [] ==> (list + [WriteBuffer(p, 0)])[1..] == list[1..] + [WriteBuffer(p, 0)];
    assert list == [] ==> (list + [WriteBuffer(p, 0)])[1..] == [];
  }

  lemma AppendAlive(s: Sock, high: bool, p: Package)
    requires Alive(s) && (high || p.low)
    ensures Alive(Append(s, high, p))
  {
    hide Received;
    ListAppend(List(s, high), p);
    UnderWayAppend(List(s, high), p);
  }

  lemma AppendHeld(s: Sock, high: bool, q: Package, p: Package)
    ensures Held(p, Append(s, high, q)) == Held(p, s) + Count(p, [q])
  {
    ListAppend(List(s, high), q);
    hide Packages, Count;
    CountAppend(p, Packages(List(s, high)), [q]);
  }

  lemma AppendOutgoing(s: Sock, high: bool, p: Package, w: nat)
    ensures Outgoing(w, Append(s, high, p)) == Outgoing(w, s) + if high then Mine(w, [p]) else []
  {
    ListAppend(List(s, high), p);
    MineAppend(w, Packages(s.high), [p]);
  }

  lemma RefuseHeld(s: Sock, q: Package, p: Package)
    ensures Held(p, s.(dropped := s.dropped + [q])) == Held(p, s) + Count(p, [q])
  {
    hide Packages, Count;
    CountAppend(p, s.dropped, [q]);
  }

  /** A package is refused, or it waits as the last one of a list: of the high list if nothing else waits. */
  lemma SendSocketKeeps(s: Sock, p: Package)
    requires Alive(s) && s.sending > 0
    ensures var t := SendSocket(s, p);
            && Alive(t) && t.kind == s.kind && t.closing == s.closing && t.dw == s.dw && t.sending == s.sending - 1
            && t.done == s.done && t.log == s.log
            && (!Empty(t) && (Empty(s) || s.writing) ==> t.writing) && (s.writing ==> t.writing)
            && (t.high == s.high || t.high == s.high + [WriteBuffer(p, 0)])
            && (t.low == s.low || (p.low && t.low == s.low + [WriteBuffer(p, 0)]))
            && (!Empty(s) ==> !Empty(t))
  {
    hide Alive;
    var t := s.(sending := s.sending - 1);
    assert Alive(t) by { StillAlive(s, t); }
    if !Refuses(s) {
      AppendAlive(t, true, p);
      StillAlive(Append(t, true, p), Append(t, true, p).(writing := true));
      if p.low {
        AppendAlive(t, false, p);
      }
    } else {
      StillAlive(t, t.(dropped := t.dropped + [p]));
    }
  }

  lemma StillAlive(s: Sock, t: Sock)
    requires Alive(s) && t.high == s.high && t.low == s.low && t.dw == s.dw && t.log == s.log && t.done == s.done
    requires t.wbSize == s.wbSize
    ensures Alive(t)
  {
  }

  lemma SendSocketHeld(s: Sock, q: Package, p: Package)
    ensures Held(p, SendSocket(s, q)) == Held(p, s) + Count(p, [q])
  {
    hide Held, Count;
    var t := s.(sending := if s.sending > 0 then s.sending - 1 else 0);
    SameHeld(p, s, t);
    RefuseHeld(t, q, p);
    AppendHeld(t, true, q, p);
    AppendHeld(t, !q.low, q, p);
    SameHeld(p, Append(t, true, q), Append(t, true, q).(writing := true));
  }

  lemma SameHeld(p: Package, s: Sock, t: Sock)
    requires t.high == s.high && t.low == s.low && t.dw == s.dw && t.done == s.done && t.dropped == s.dropped
    ensures Held(p, t) == Held(p, s)
  {
  }

  lemma SendSocketOutgoing(s: Sock, p: Package, w: nat)
    ensures var t := SendSocket(s, p);
            Outgoing(w, t) == Outgoing(w, s) + if Refuses(s) then [] else Mine(w, [p])
  {
    var t := s.(sending := if s.sending > 0 then s.sending - 1 else 0);
    AppendOutgoing(t, true, p, w);
    AppendOutgoing(t, !p.low, p, w);
    assert Outgoing(w, s) + [] == Outgoing(w, s);
    assert p.low ==> Mine(w, [p]) == [];
  }
}
