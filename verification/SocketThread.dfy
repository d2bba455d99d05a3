/** The socket structure of socket_server.c and the operations of its thread, which update it in place; each is proved
    against the function in `Socket` that says what it does. */
module SocketThread {
  import opened Socket

  class Slot {
    var kind: Kind
    var closing: bool
    var writing: bool
    var high: seq<WriteBuffer>
    var low: seq<WriteBuffer>
    var wbSize: int
    var dw: Option<WriteBuffer>
    var sending: nat
    /** What the operating system has been given, and what became of the packages */
    var log: seq<Chunk>
    var done: seq<Package>
    var dropped: seq<Package>

    function Model(): Sock
      reads this
    {
      Sock(kind, closing, writing, high, low, wbSize, dw, sending, log, done, dropped)
    }

    /** `new_fd`, and the kind that the caller gives */
    constructor (kind: Kind, connecting: bool)
      ensures Model() == Sock(kind, false, connecting, [], [], 0, None, 0, [], [], [])
    {
      this.kind := kind;
      closing, writing := false, connecting;
      high, low, wbSize := [], [], 0;
      dw, sending := None, 0;
      log, done, dropped := [], [], [];
    }

    method FreeList(list: seq<WriteBuffer>)
      modifies this`dropped
      ensures dropped == old(dropped) + Packages(list)
    {
      var wb := list;
      while wb != []
        invariant dropped + Packages(wb) == old(dropped) + Packages(list)
        decreases |wb|
      {
        dropped := dropped + [wb[0].pkg];
        wb := wb[1..];
      }
    }

    method ForceClose()
      modifies this
      ensures Model() == Socket.ForceClose(old(Model()))
    {
      if kind.Invalid? {
        return;
      }
      FreeList(high);
      high := [];
      FreeList(low);
      low := [];
      kind := Invalid;
      if dw.Some? {
        dropped := dropped + [dw.value.pkg];
        dw := None;
      }
    }

    method CloseWrite() returns (status: Status)
      modifies this
      ensures forall io :: Sent(Model(), status, io) == Socket.CloseWrite(old(Model()), io)
    {
      if closing {
        ForceClose();
        return Reset;
      }
      if kind.HalfCloseRead? {
        ForceClose();
        return Reset;
      }
      if kind.HalfCloseWrite? {
        return Reset;
      }
      kind := HalfCloseWrite;
      writing := false;
      return Error;
    }

    /** `n` bytes of the head of a list have been written. */
    method HeadWritten(isHigh: bool, n: nat)
      requires List(Model(), isHigh) != [] && WellFormed(List(Model(), isHigh)[0]) && n <= Left(List(Model(), isHigh)[0])
      modifies this
      ensures Model() == WriteHead(old(Model()), isHigh, n)
    {
      var list := if isHigh then high else low;
      var head := list[0];
      log := Logged(log, head, n);
      wbSize := wbSize - n;
      if n != Left(head) {
        list := list[0 := head.(sent := head.sent + n)];
      } else {
        list := list[1..];
        done := done + [head.pkg];
      }
      if isHigh {
        high := list;
      } else {
        low := list;
      }
    }

    /** Write the head of a list again and again, until it does not go on. `io` are the answers of `write`. */
    method SendListTcp(isHigh: bool, io: seq<Outcome>) returns (status: Status, rest: seq<Outcome>)
      requires HeadUnderWay(List(Model(), isHigh))
      modifies this
      ensures Sent(Model(), status, rest) == SendList(old(Model()), isHigh, io)
    {
      hide SendList, WriteHead, Socket.CloseWrite, Answer, HeadUnderWay;
      rest := io;
      while (if isHigh then high else low) != []
        invariant SendList(Model(), isHigh, rest) == SendList(old(Model()), isHigh, io)
        invariant HeadUnderWay(List(Model(), isHigh))
        decreases |rest|
      {
        SendListUnfold(Model(), isHigh, rest);
        var head := if isHigh then high[0] else low[0];
        var answer := Answer(Model(), rest);
        if rest == [] {
          return Going, rest;
        }
        rest := rest[1..];
        match answer {
          case Interrupted =>
          case WouldBlock => return Going, rest;
          case Broken =>
            status := CloseWrite();
            return status, rest;
          case Wrote(n) =>
            var m: nat := Min(n, Left(head));
            HeadWritten(isHigh, m);
            if m != Left(head) {
              return Going, rest;
            }
        }
      }
      NothingToWrite(Model(), isHigh, rest);
      return Going, rest;
    }

    /** `raise_uncomplete` */
    method RaiseUncomplete()
      requires low != [] && high == []
      modifies this`high, this`low
      ensures Model() == Raise(old(Model()))
    {
      var head := low[0];
      low := low[1..];
      high := [head];
    }

    method Finish()
      modifies this
      ensures Model() == FinishSend(old(Model()))
    {
      if closing {
        ForceClose();
      } else {
        writing := false;
      }
    }

    method SendLists(io: seq<Outcome>) returns (event: Option<Event>)
      requires Sending(Model(), true) && !kind.Invalid?
      modifies this
      ensures Step(Model(), event) == Socket.SendLists(old(Model()), io)
    {
      hide SendList, Sending, FinishSend;
      ghost var start := Model();
      SendingLists(start, true);
      LowFresh(start);
      SendListKeeps(start, true, io);
      var status, rest := SendListTcp(true, io);
      if status != Going {
        return if status.Error? then Some(Failed) else None;
      }
      if high != [] {
        return None;
      }
      if low != [] {
        ghost var middle := Model();
        LowFresh(middle);
        SendingLists(middle, false);
        SendListKeeps(middle, false, rest);
        status, rest := SendListTcp(false, rest);
        if status != Going {
          return if status.Error? then Some(Failed) else None;
        }
        TurnOf(Model(), false);
        if Incomplete(low) {
          RaiseUncomplete();
          return None;
        }
        if low != [] {
          return None;
        }
      }
      Finish();
      return None;
    }

    /** `send_buffer`, once the lock is taken */
    method SendBuffer(io: seq<Outcome>) returns (event: Option<Event>)
      requires Alive(Model()) && !kind.Invalid?
      modifies this
      ensures Step(Model(), event) == Socket.SendBuffer(old(Model()), io)
      ensures SentOk(old(Model()), Model())
    {
      hide Alive, Sending, Socket.SendLists, SentOk;
      SendBufferKeeps(Model(), io);
      TakeDirectKeeps(Model());
      if dw.Some? {
        high := [dw.value] + high;
        wbSize := wbSize + Left(dw.value);
        dw := None;
      }
      event := SendLists(io);
    }

    /** `send_socket` with the release of the reference that kept the socket from being closed */
    method SendSocket(p: Package)
      requires sending > 0
      modifies this
      ensures Model() == Socket.SendSocket(old(Model()), p)
    {
      sending := sending - 1;
      if kind.Invalid? || kind.HalfCloseWrite? || kind.PAccept? || closing || kind.PListen? || kind.Listen? {
        dropped := dropped + [p];
        return;
      }
      var wb := WriteBuffer(p, 0);
      if high == [] && low == [] {
        high := high + [wb];
        writing := true;
      } else if p.low {
        low := low + [wb];
      } else {
        high := high + [wb];
      }
      wbSize := wbSize + |p.bytes|;
    }

    method NoMoreSendingData() returns (nothing: bool)
      ensures nothing == NoMoreData(Model())
    {
      return (high == [] && low == [] && dw == None && sending == 0) || kind == HalfCloseWrite;
    }

    /** `close_socket`, with the lock free: what it does in the end, and what it reports */
    method CloseSocket(shutdown: bool) returns (event: Option<Event>)
      modifies this
      ensures Finished(Socket.CloseSocket(old(Model()), shutdown)) == Step(Model(), event)
    {
      if kind.Invalid? {
        return None;
      }
      var readClosed := kind.HalfCloseRead?;
      var nothing := NoMoreSendingData();
      if shutdown || nothing {
        ForceClose();
        return if readClosed then None else Some(Closed);
      }
      closing := true;
      if !readClosed {
        kind := HalfCloseRead;
        return Some(Closed);
      }
      return None;
    }

    /** `forward_message_tcp`, with the lock free */
    method ForwardMessage(got: Arrival) returns (event: Option<Event>)
      modifies this
      ensures Finished(Forward(old(Model()), got)) == Step(Model(), event)
    {
      if got.ReadError? {
        return Some(Failed);
      }
      if got.Again? {
        return None;
      }
      if got.EndOfFile? {
        if closing {
          var nothing := NoMoreSendingData();
          if nothing {
            ForceClose();
          }
          return None;
        }
        if kind.HalfCloseRead? {
          return None;
        }
        if kind.HalfCloseWrite? {
          ForceClose();
        } else {
          kind := HalfCloseRead;
        }
        return Some(Closed);
      }
      if kind.HalfCloseRead? {
        return None;
      }
      return Some(Data);
    }
  }

  /** An operation of the socket thread that nobody holds up */
  function Finished(n: Next): Step {
    match n
    case Done(sock, e) => Step(sock, e)
    case Force(sock, e) => Step(Socket.ForceClose(sock), e)
  }

  lemma SendListUnfold(s: Sock, high: bool, io: seq<Outcome>)
    requires List(s, high) != [] && HeadUnderWay(List(s, high))
    ensures WellFormed(List(s, high)[0])
    ensures SendList(s, high, io) ==
              (match Answer(s, io)
               case WouldBlock => Sent(s, Going, if io == [] then io else io[1..])
               case Interrupted => SendList(s, high, io[1..])
               case Broken => Socket.CloseWrite(s, io[1..])
               case Wrote(n) =>
                 var m: nat := Min(n, Left(List(s, high)[0]));
                 var t := WriteHead(s, high, m);
                 if m != Left(List(s, high)[0]) then Sent(t, Going, io[1..]) else SendList(t, high, io[1..]))
    ensures io == [] ==> Answer(s, io) == WouldBlock
    ensures HeadUnderWay(List(WriteHead(s, high, Left(List(s, high)[0])), high))
  {
    ListWrite(List(s, high), Left(List(s, high)[0]));
  }

  lemma NothingToWrite(s: Sock, high: bool, io: seq<Outcome>)
    requires List(s, high) == []
    ensures SendList(s, high, io) == Sent(s, Going, io)
  {
  }

  lemma SendingLists(s: Sock, high: bool)
    requires Sending(s, high)
    ensures HeadUnderWay(List(s, high))
  {
  }
}
