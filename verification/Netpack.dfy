/** The package filter of lua-netpack.c: streams of packages with a length of two bytes in front, cut into chunks anywhere,
    many streams at a time. */
module Netpack {
  datatype Option<+T> = None | Some(value: T)

  type Byte = b: int | 0 <= b < 256

  /** A stream is known by its descriptor. */
  type Fd = nat

  // ---- The format -------------------------------------------------------------------------------------------------

  function ReadSize(b0: Byte, b1: Byte): (n: nat)
    ensures n < 0x1_0000
  {
    b0 * 256 + b1
  }

  /** What a stream contains: whole packages, and what is left of it after them */
  datatype Parsed = Parsed(packages: seq<seq<Byte>>, rest: seq<Byte>)

  function Parse(s: seq<Byte>): Parsed
    decreases |s|
  {
    if |s| < 2 then Parsed([], s)
    else
      var n := ReadSize(s[0], s[1]);
      if |s| - 2 < n then Parsed([], s)
      else
        var p := Parse(s[2 + n..]);
        Parsed([s[2..2 + n]] + p.packages, p.rest)
  }

  /** A stream in which no package is complete */
  predicate Incomplete(s: seq<Byte>) {
    |s| < 2 || |s| - 2 < ReadSize(s[0], s[1])
  }

  function Encode(package: seq<Byte>): seq<Byte>
    requires |package| < 0x1_0000
  {
    [|package| / 256, |package| % 256] + package
  }

  function Stream(packages: seq<seq<Byte>>): seq<Byte>
    requires Packable(packages)
  {
    if packages == [] then [] else Encode(packages[0]) + Stream(packages[1..])
  }

  predicate Packable(packages: seq<seq<Byte>>) {
    forall k :: 0 <= k < |packages| ==> |packages[k]| < 0x1_0000
  }

  /** A package in front of a stream */
  lemma ParseEncode(p: seq<Byte>, rest: seq<Byte>)
    requires |p| < 0x1_0000
    ensures Parse(Encode(p) + rest) == Parsed([p] + Parse(rest).packages, Parse(rest).rest)
    ensures !Incomplete(Encode(p) + rest)
  {
    var s := Encode(p) + rest;
    assert s[0] == |p| / 256 && s[1] == |p| % 256;
    assert ReadSize(s[0], s[1]) == |p|;
    assert s[2..2 + |p|] == p && s[2 + |p|..] == rest;
  }

  /** A stream with a complete package is that package in front of a stream. */
  lemma Complete(s: seq<Byte>) returns (p: seq<Byte>, rest: seq<Byte>)
    requires !Incomplete(s)
    ensures |p| < 0x1_0000 && s == Encode(p) + rest && |rest| < |s|
  {
    var n := ReadSize(s[0], s[1]);
    p, rest := s[2..2 + n], s[2 + n..];
    assert n / 256 == s[0] && n % 256 == s[1];
    assert Encode(p) == s[..2 + n];
  }

  /** Parsing loses nothing: the stream is the encoding of its packages, and an incomplete rest. */
  lemma {:induction false} ParseExact(s: seq<Byte>)
    ensures var p := Parse(s); Packable(p.packages) && s == Stream(p.packages) + p.rest && Incomplete(p.rest)
    decreases |s|
  {
    if !Incomplete(s) {
      var p, rest := Complete(s);
      ParseExact(rest);
      ParseEncode(p, rest);
      hide Parse, Encode, Incomplete;
      var more := Parse(rest).packages;
      assert ([p] + more)[1..] == more;
      assert Encode(p) + (Stream(more) + Parse(rest).rest) == Encode(p) + Stream(more) + Parse(rest).rest;
    }
  }

  /** The packages of an encoded sequence are that sequence. */
  lemma {:induction false} ParseStream(packages: seq<seq<Byte>>, rest: seq<Byte>)
    requires Packable(packages) && Incomplete(rest)
    ensures Parse(Stream(packages) + rest) == Parsed(packages, rest)
  {
    hide Parse, Encode, Incomplete;
    if packages == [] {
      ParseShort(rest);
      assert [] + rest == rest;
    } else {
      var p := packages[0];
      ParseStream(packages[1..], rest);
      ParseEncode(p, Stream(packages[1..]) + rest);
      Grouping(Encode(p), Stream(packages[1..]), rest);
      assert [p] + packages[1..] == packages;
    }
  }

  lemma ParseShort(s: seq<Byte>)
    requires Incomplete(s)
    ensures Parse(s) == Parsed([], s)
  {
  }

  lemma Grouping<T>(a: seq<T>, b: seq<T>, c: seq<T>)
    ensures a + b + c == a + (b + c)
  {
  }

  lemma CutAfter(p: seq<Byte>, rest: seq<Byte>, b: seq<Byte>)
    requires |p| < 0x1_0000
    requires var x, y := Parse(rest), Parse(Parse(rest).rest + b); Parse(rest + b) == Parsed(x.packages + y.packages, y.rest)
    ensures var x, y := Parse(Encode(p) + rest), Parse(Parse(Encode(p) + rest).rest + b);
            Parse(Encode(p) + rest + b) == Parsed(x.packages + y.packages, y.rest)
  {
    hide Parse, Encode, Incomplete;
    ParseEncode(p, rest);
    ParseEncode(p, rest + b);
    Grouping(Encode(p), rest, b);
    Grouping([p], Parse(rest).packages, Parse(Parse(rest).rest + b).packages);
  }

  /** Cutting a stream anywhere does not change what it contains. */
  lemma {:induction false} ParseCut(a: seq<Byte>, b: seq<Byte>)
    ensures var p, q := Parse(a), Parse(Parse(a).rest + b);
            Parse(a + b) == Parsed(p.packages + q.packages, q.rest)
    decreases |a|
  {
    hide Parse, Encode, Incomplete;
    if Incomplete(a) {
      ParseShort(a);
      assert [] + Parse(a + b).packages == Parse(a + b).packages;
    } else {
      var p, rest := Complete(a);
      ParseCut(rest, b);
      CutAfter(p, rest, b);
    }
  }

  // ---- What one call does -----------------------------------------------------------------------------------------

  /** A package that is not complete. `read` is -1 when only the first byte of the length is known. */
  datatype Uncomplete = Uncomplete(fd: Fd, read: int, header: Byte, size: nat, buffer: seq<Byte>)

  predicate WellFormed(uc: Uncomplete) {
    uc.read == -1 || 0 <= uc.read == |uc.buffer| < uc.size < 0x1_0000
  }

  /** The part of the stream that an incomplete package stands for */
  function Raw(uc: Uncomplete): seq<Byte>
    requires WellFormed(uc)
  {
    if uc.read < 0 then [uc.header] else [uc.size / 256, uc.size % 256] + uc.buffer
  }

  datatype Pack = Pack(fd: Fd, data: seq<Byte>)

  /** What the filter returns for a chunk: nothing yet, one package, or that there are packages in the queue */
  datatype Reply = Nothing | Data(fd: Fd, data: seq<Byte>) | More

  /** The streams that are not at the end of a package, and the queue */
  datatype State = State(raw: map<Fd, seq<Byte>>, queue: seq<Pack>)

  function RawOf(s: State, fd: Fd): seq<Byte> {
    if fd in s.raw then s.raw[fd] else []
  }

  function Packs(fd: Fd, packages: seq<seq<Byte>>): (r: seq<Pack>)
    ensures |r| == |packages|
  {
    if packages == [] then [] else [Pack(fd, packages[0])] + Packs(fd, packages[1..])
  }

  function SetRaw(raw: map<Fd, seq<Byte>>, fd: Fd, rest: seq<Byte>): map<Fd, seq<Byte>> {
    if rest == [] then raw - {fd} else raw[fd := rest]
  }

  datatype Filtered = Filtered(state: State, reply: Reply)

  /** A chunk arrives: what is complete is delivered, directly if it is one package that ends with the chunk. */
  function Filter(s: State, fd: Fd, chunk: seq<Byte>): Filtered {
    var p := Parse(RawOf(s, fd) + chunk);
    var raw := SetRaw(s.raw, fd, p.rest);
    if p.packages == [] then Filtered(State(raw, s.queue), Nothing)
    else if |p.packages| == 1 && p.rest == [] then Filtered(State(raw, s.queue), Data(fd, p.packages[0]))
    else Filtered(State(raw, s.queue + Packs(fd, p.packages)), More)
  }

  /** The stream of a descriptor ends: what is not complete is given up. */
  function CloseStream(s: State, fd: Fd): State {
    s.(raw := s.raw - {fd})
  }

  // ---- The structure ----------------------------------------------------------------------------------------------

  const QUEUESIZE: nat := 1024
  const HASHSIZE: nat := 4096

  /** `hash_fd` */
  function HashFd(fd: Fd): (h: nat)
    ensures h < HASHSIZE
  {
    (fd / 0x100_0000 + fd / 0x1000 + fd) % 0x1_0000_0000 % HASHSIZE
  }

  predicate Chained(chain: seq<Uncomplete>, h: nat) {
    && (forall i :: 0 <= i < |chain| ==> WellFormed(chain[i]) && HashFd(chain[i].fd) == h)
    && (forall i, j :: 0 <= i < j < |chain| ==> chain[i].fd != chain[j].fd)
  }

  predicate InChain(chain: seq<Uncomplete>, fd: Fd) {
    exists i :: 0 <= i < |chain| && chain[i].fd == fd
  }

  class Queue {
    var cap: nat
    var head: nat
    var tail: nat
    var queue: array<Pack>
    const hash: array<seq<Uncomplete>>
    ghost var raw: map<Fd, seq<Byte>>

    ghost predicate Valid()
      reads this, queue, hash
    {
      && 0 < cap == queue.Length && head < cap && tail < cap
      && HashValid()
    }

    /** The chains hold the incomplete streams, each in the chain where it is looked for. */
    ghost predicate HashValid()
      reads this`raw, hash
    {
      && hash.Length == HASHSIZE
      && (forall h :: 0 <= h < HASHSIZE ==> Chained(hash[h], h))
      && (forall h, i :: 0 <= h < HASHSIZE && 0 <= i < |hash[h]| ==>
            hash[h][i].fd in raw && WellFormed(hash[h][i]) && raw[hash[h][i].fd] == Raw(hash[h][i]))
      && (forall fd :: fd in raw ==> InChain(hash[HashFd(fd)], fd))
    }

    ghost function Contents(): seq<Pack>
      requires Valid()
      reads this, queue, hash
    {
      if head <= tail then queue[head..tail] else queue[head..] + queue[..tail]
    }

    ghost function Model(): State
      requires Valid()
      reads this, queue, hash
    {
      State(raw, Contents())
    }

    constructor ()
      ensures Valid() && Model() == State(map[], []) && fresh(queue) && fresh(hash)
    {
      cap, head, tail := QUEUESIZE, 0, 0;
      queue := new Pack[QUEUESIZE](_ => Pack(0, []));
      hash := new seq<Uncomplete>[HASHSIZE](_ => []);
      raw := map[];
    }

    /** Take the incomplete package of a stream out of its chain. */
    method FindUncomplete(fd: Fd) returns (found: Option<Uncomplete>)
      requires HashValid()
      modifies hash, this`raw
      ensures HashValid() && raw == old(raw) - {fd}
      ensures found.Some? <==> fd in old(raw)
      ensures found.Some? ==> found.value.fd == fd && WellFormed(found.value) && Raw(found.value) == old(raw)[fd]
    {
      var h := HashFd(fd);
      var chain := hash[h];
      for i := 0 to |chain|
        invariant forall k :: 0 <= k < i ==> chain[k].fd != fd
        invariant HashValid() && raw == old(raw) && hash[h] == chain
      {
        if chain[i].fd == fd {
          found := Some(chain[i]);
          hash[h] := chain[..i] + chain[i + 1..];
          raw := raw - {fd};
          Removed(chain, i, h);
          return;
        }
      }
      found := None;
      assert fd !in raw;
    }

    /** Put an incomplete package at the head of its chain. */
    method SaveUncomplete(uc: Uncomplete)
      requires HashValid() && WellFormed(uc) && uc.fd !in raw
      modifies hash, this`raw
      ensures HashValid() && raw == old(raw)[uc.fd := Raw(uc)]
    {
      var h := HashFd(uc.fd);
      assert !InChain(hash[h], uc.fd);
      ghost var before := hash[h];
      hash[h] := [uc] + hash[h];
      raw := raw[uc.fd := Raw(uc)];
      Added(before, uc, h);
    }

    /** Store a package at the end of the queue. */
    method PushData(fd: Fd, data: seq<Byte>)
      requires Valid()
      modifies this`cap, this`head, this`tail, this`queue, queue
      ensures Valid() && (queue == old(queue) || fresh(queue)) && Contents() == old(Contents()) + [Pack(fd, data)]
    {
      ghost var before := Contents();
      queue[tail] := Pack(fd, data);
      tail := tail + 1;
      if tail >= cap {
        tail := tail - cap;
      }
      if head == tail {
        assert queue[head..] + queue[..head] == before + [Pack(fd, data)];
        ExpandQueue();
      } else {
        assert Contents() == before + [Pack(fd, data)];
      }
    }

    /** A ring whose ends have met gets more room, and starts at zero. */
    method ExpandQueue()
      requires Valid() && head == tail
      modifies this`cap, this`head, this`tail, this`queue
      ensures Valid() && fresh(queue) && Contents() == old(queue[head..] + queue[..head])
    {
      var nq := new Pack[cap + QUEUESIZE](_ => Pack(0, []));
      ghost var turned := queue[head..] + queue[..head];
      for i := 0 to cap
        modifies nq
        invariant forall k :: 0 <= k < i ==> nq[k] == turned[k]
      {
        Around(head + i, cap);
        nq[i] := queue[(head + i) % cap];
      }
      assert nq[..cap] == turned;
      queue := nq;
      head, tail := 0, cap;
      cap := cap + QUEUESIZE;
    }

    /** Keep what there is of a package. */
    method SavePart(fd: Fd, buffer: seq<Byte>)
      requires HashValid() && buffer != [] && Incomplete(buffer) && fd !in raw
      modifies hash, this`raw
      ensures HashValid() && raw == old(raw)[fd := buffer]
    {
      if |buffer| == 1 {
        assert [buffer[0]] == buffer;
        SaveUncomplete(Uncomplete(fd, -1, buffer[0], 0, []));
      } else {
        RawOfSize(buffer);
        SaveUncomplete(Uncomplete(fd, |buffer| - 2, 0, ReadSize(buffer[0], buffer[1]), buffer[2..]));
      }
    }

    /** Packages in what follows the first one of a chunk */
    method PushMore(fd: Fd, buffer: seq<Byte>)
      requires Valid() && buffer != [] && fd !in raw
      modifies this, queue, hash
      ensures Valid() && (queue == old(queue) || fresh(queue))
      ensures Model() == State(SetRaw(old(raw), fd, Parse(buffer).rest), old(Contents()) + Packs(fd, Parse(buffer).packages))
      decreases |buffer|
    {
      hide Parse, Packs, ReadSize, HashFd;
      if |buffer| == 1 {
        SavePart(fd, buffer);
        PartModel(old(Model()), fd, buffer);
        return;
      }
      var packSize := ReadSize(buffer[0], buffer[1]);
      var rest := buffer[2..];
      if |rest| < packSize {
        SavePart(fd, buffer);
        PartModel(old(Model()), fd, buffer);
        return;
      }
      ghost var before := Contents();
      PushData(fd, rest[..packSize]);
      rest := rest[packSize..];
      OneMore(fd, buffer);
      Grouped(before, Pack(fd, buffer[2..2 + packSize]), Packs(fd, Parse(rest).packages));
      if rest != [] {
        PushMore(fd, rest);
      } else {
        ParseShort(rest);
        NoPacks(fd, Contents());
      }
    }

    /** `filter_data_` */
    method FilterData(fd: Fd, chunk: seq<Byte>) returns (reply: Reply)
      requires Valid() && chunk != []
      modifies this, queue, hash
      ensures Valid() && (queue == old(queue) || fresh(queue))
      ensures Filtered(Model(), reply) == Filter(old(Model()), fd, chunk)
    {
      hide Parse, Packs, HashFd, Filter;
      ghost var s := Model();
      var found := FindUncomplete(fd);
      if found.Some? {
        reply := FillUncomplete(found.value, chunk, s);
        return;
      }
      assert raw == s.raw;
      reply := FilterFresh(fd, chunk);
    }

    /** A chunk for a stream of which nothing is kept */
    method FilterFresh(fd: Fd, chunk: seq<Byte>) returns (reply: Reply)
      requires Valid() && chunk != [] && fd !in raw
      modifies this, queue, hash
      ensures Valid() && (queue == old(queue) || fresh(queue))
      ensures Filtered(Model(), reply) == Filter(old(Model()), fd, chunk)
    {
      hide Parse, Packs, HashFd, Filter, SetRaw, Encode;
      ghost var s := Model();
      assert RawOf(s, fd) + chunk == chunk;
      if |chunk| == 1 {
        FilterPart(s, fd, chunk);
        SavePart(fd, chunk);
        return Nothing;
      }
      var packSize := ReadSize(chunk[0], chunk[1]);
      var buffer := chunk[2..];
      if |buffer| < packSize {
        FilterPart(s, fd, chunk);
        SavePart(fd, chunk);
        return Nothing;
      }
      RawOfSize(chunk);
      CutPackage(packSize, [], buffer);
      assert [packSize / 256, packSize % 256] + [] + buffer == chunk && [] + buffer[..packSize] == buffer[..packSize];
      assert s.raw - {fd} == s.raw;
      reply := FinishWhole(fd, buffer[..packSize], buffer[packSize..], s, chunk);
    }

    /** A chunk goes on with a package that is not complete. */
    method FillUncomplete(uc: Uncomplete, chunk: seq<Byte>, ghost s: State) returns (reply: Reply)
      requires Valid() && chunk != [] && WellFormed(uc) && uc.fd in s.raw && s.raw[uc.fd] == Raw(uc)
      requires Model() == s.(raw := s.raw - {uc.fd})
      modifies this, queue, hash
      ensures Valid() && (queue == old(queue) || fresh(queue))
      ensures Filtered(Model(), reply) == Filter(s, uc.fd, chunk)
    {
      hide Parse, Packs, HashFd, Filter;
      var fd, buffer, got, size := uc.fd, chunk, uc.buffer, uc.size;
      if uc.read < 0 {
        size := ReadSize(uc.header, buffer[0]);
        buffer := buffer[1..];
        got := [];
      }
      Whole(uc, chunk);
      assert RawOf(s, fd) + chunk == [size / 256, size % 256] + got + buffer;
      var need := size - |got|;
      CutPackage(size, got, buffer);
      if |buffer| < need {
        KeepPart(fd, size, got + buffer, s, chunk);
        return Nothing;
      }
      reply := FinishWhole(fd, got + buffer[..need], buffer[need..], s, chunk);
    }

    /** The package is still not complete. */
    method KeepPart(fd: Fd, size: nat, got: seq<Byte>, ghost s: State, ghost chunk: seq<Byte>)
      requires Valid() && |got| < size < 0x1_0000 && fd in s.raw && chunk != []
      requires RawOf(s, fd) + chunk == [size / 256, size % 256] + got
      requires Model() == s.(raw := s.raw - {fd})
      modifies this`raw, hash
      ensures Valid() && Filtered(Model(), Nothing) == Filter(s, fd, chunk)
    {
      hide Parse, Packs, HashFd, Filter;
      StillIncomplete(size, got);
      FilterPart(s, fd, chunk);
      assert s.raw[fd := RawOf(s, fd) + chunk] == (s.raw - {fd})[fd := RawOf(s, fd) + chunk];
      SaveUncomplete(Uncomplete(fd, |got|, 0, size, got));
    }

    /** The package is complete, and there may be more behind it. */
    method FinishWhole(fd: Fd, data: seq<Byte>, buffer: seq<Byte>, ghost s: State, ghost chunk: seq<Byte>) returns (reply: Reply)
      requires Valid() && |data| < 0x1_0000 && RawOf(s, fd) + chunk == Encode(data) + buffer
      requires Model() == s.(raw := s.raw - {fd})
      modifies this, queue, hash
      ensures Valid() && (queue == old(queue) || fresh(queue))
      ensures Filtered(Model(), reply) == Filter(s, fd, chunk)
    {
      hide Parse, Packs, HashFd, Filter, SetRaw, RawOf, Encode;
      FilterWhole(s, fd, chunk, data, buffer);
      if buffer == [] {
        return Data(fd, data);
      }
      PushData(fd, data);
      PushMore(fd, buffer);
      return More;
    }

    /** `lpop` */
    method Pop() returns (pack: Option<Pack>)
      requires Valid()
      modifies this`head
      ensures Valid() && raw == old(raw)
      ensures old(Contents()) == [] ==> pack == None && Contents() == []
      ensures old(Contents()) != [] ==> pack == Some(old(Contents()[0])) && Contents() == old(Contents())[1..]
    {
      if head == tail {
        return None;
      }
      pack := Some(queue[head]);
      head := head + 1;
      if head >= cap {
        head := 0;
      }
    }

    /** What the consumer does after `More`: take packages until there are none. */
    method Drain() returns (packs: seq<Pack>)
      requires Valid()
      modifies this`head
      ensures Valid() && raw == old(raw) && packs == old(Contents()) && Contents() == []
    {
      packs := [];
      while true
        invariant Valid() && raw == old(raw) && packs + Contents() == old(Contents())
        decreases |Contents()|
      {
        ghost var left := Contents();
        var pack := Pop();
        if pack.None? {
          assert packs + [] == packs;
          break;
        }
        Grouping(packs, [left[0]], left[1..]);
        assert [left[0]] + left[1..] == left;
        packs := packs + [pack.value];
      }
    }

    /** `close_uncomplete` */
    method CloseUncomplete(fd: Fd)
      requires Valid()
      modifies hash, this`raw
      ensures Valid() && Model() == CloseStream(old(Model()), fd)
    {
      var _ := FindUncomplete(fd);
    }
  }

  /** What the filter does with a stream in which nothing is complete, and with a complete package in front */
  lemma FilterPart(s: State, fd: Fd, chunk: seq<Byte>)
    requires Incomplete(RawOf(s, fd) + chunk) && chunk != []
    ensures Filter(s, fd, chunk) == Filtered(s.(raw := s.raw[fd := RawOf(s, fd) + chunk]), Nothing)
  {
    ParseShort(RawOf(s, fd) + chunk);
  }

  lemma FilterWhole(s: State, fd: Fd, chunk: seq<Byte>, data: seq<Byte>, rest: seq<Byte>)
    requires |data| < 0x1_0000 && RawOf(s, fd) + chunk == Encode(data) + rest
    ensures rest == [] ==> Filter(s, fd, chunk) == Filtered(s.(raw := s.raw - {fd}), Data(fd, data))
    ensures rest != [] ==>
              Filter(s, fd, chunk)
              == Filtered(State(SetRaw(s.raw - {fd}, fd, Parse(rest).rest), s.queue + [Pack(fd, data)] + Packs(fd, Parse(rest).packages)), More)
  {
    assert SetRaw(s.raw, fd, Parse(rest).rest) == SetRaw(s.raw - {fd}, fd, Parse(rest).rest);
    ParseEncode(data, rest);
    var more := Parse(rest);
    assert ([data] + more.packages)[1..] == more.packages;
    Grouped(s.queue, Pack(fd, data), Packs(fd, more.packages));
    if rest == [] {
      ParseShort(rest);
    } else if more.rest == [] && more.packages == [] {
      ParseExact(rest);
      assert false;
    }
  }

  /** What follows a length: the package, when there is enough */
  lemma CutPackage(size: nat, got: seq<Byte>, buffer: seq<Byte>)
    requires |got| <= size < 0x1_0000
    ensures [size / 256, size % 256] + got + buffer == [size / 256, size % 256] + (got + buffer)
    ensures |buffer| >= size - |got| ==>
              var need := size - |got|;
              |got + buffer[..need]| == size
              && [size / 256, size % 256] + got + buffer == Encode(got + buffer[..need]) + buffer[need..]
  {
  }

  lemma PartModel(s: State, fd: Fd, buffer: seq<Byte>)
    requires Incomplete(buffer) && buffer != []
    ensures State(SetRaw(s.raw, fd, Parse(buffer).rest), s.queue + Packs(fd, Parse(buffer).packages))
         == s.(raw := s.raw[fd := buffer])
  {
    ParseShort(buffer);
  }

  lemma NoPacks(fd: Fd, queue: seq<Pack>)
    ensures queue + Packs(fd, []) == queue
  {
  }

  lemma Grouped(a: seq<Pack>, p: Pack, b: seq<Pack>)
    ensures a + ([p] + b) == a + [p] + b
  {
  }

  lemma StillIncomplete(size: nat, got: seq<Byte>)
    requires |got| < size < 0x1_0000
    ensures Incomplete([size / 256, size % 256] + got)
  {
    var s := [size / 256, size % 256] + got;
    assert s[0] == size / 256 && s[1] == size % 256;
  }

  /** A chunk after an incomplete package: the length is known, at least now. */
  lemma Whole(uc: Uncomplete, chunk: seq<Byte>)
    requires WellFormed(uc) && chunk != []
    ensures uc.read < 0 ==>
              var size := ReadSize(uc.header, chunk[0]);
              size / 256 == uc.header && size % 256 == chunk[0] && Raw(uc) + chunk == [size / 256, size % 256] + [] + chunk[1..]
    ensures uc.read >= 0 ==> Raw(uc) + chunk == [uc.size / 256, uc.size % 256] + uc.buffer + chunk
  {
    if uc.read < 0 {
      var size := ReadSize(uc.header, chunk[0]);
      assert size / 256 == uc.header && size % 256 == chunk[0];
      assert chunk == [chunk[0]] + chunk[1..];
    }
  }

  lemma Around(k: nat, n: nat)
    requires 0 < n && k < 2 * n
    ensures k % n == if k < n then k else k - n
  {
    if k >= n {
      assert k == 1 * n + (k - n);
    }
  }

  lemma RawOfSize(s: seq<Byte>)
    requires |s| >= 2
    ensures var n := ReadSize(s[0], s[1]); [n / 256, n % 256] + s[2..] == s
  {
    var n := ReadSize(s[0], s[1]);
    assert n / 256 == s[0] && n % 256 == s[1];
  }

  /** The first package of a stream, and the others */
  lemma OneMore(fd: Fd, s: seq<Byte>)
    requires !Incomplete(s)
    ensures var n := ReadSize(s[0], s[1]);
            && s[2..][..n] == s[2..2 + n] && s[2..][n..] == s[2 + n..]
            && Parse(s) == Parsed([s[2..2 + n]] + Parse(s[2 + n..]).packages, Parse(s[2 + n..]).rest)
            && Packs(fd, Parse(s).packages) == [Pack(fd, s[2..2 + n])] + Packs(fd, Parse(s[2 + n..]).packages)
  {
    var n := ReadSize(s[0], s[1]);
    var more := Parse(s[2 + n..]).packages;
    assert ([s[2..2 + n]] + more)[1..] == more;
  }

  lemma Removed(chain: seq<Uncomplete>, i: nat, h: nat)
    requires i < |chain| && Chained(chain, h)
    ensures var r := chain[..i] + chain[i + 1..];
            && Chained(r, h) && !InChain(r, chain[i].fd)
            && (forall fd :: fd != chain[i].fd && InChain(chain, fd) ==> InChain(r, fd))
            && (forall k :: 0 <= k < |r| ==> r[k] in chain)
  {
    var r := chain[..i] + chain[i + 1..];
    forall fd | fd != chain[i].fd && InChain(chain, fd) ensures InChain(r, fd) {
      var k :| 0 <= k < |chain| && chain[k].fd == fd;
      assert r[if k < i then k else k - 1].fd == fd;
    }
  }

  lemma Added(chain: seq<Uncomplete>, uc: Uncomplete, h: nat)
    requires Chained(chain, h) && WellFormed(uc) && HashFd(uc.fd) == h && !InChain(chain, uc.fd)
    ensures Chained([uc] + chain, h) && InChain([uc] + chain, uc.fd)
    ensures forall fd :: InChain(chain, fd) ==> InChain([uc] + chain, fd)
  {
    var r := [uc] + chain;
    assert r[0].fd == uc.fd;
    forall fd | InChain(chain, fd) ensures InChain(r, fd) {
      var k :| 0 <= k < |chain| && chain[k].fd == fd;
      assert r[k + 1].fd == fd;
    }
  }

  // ---- Whole runs -------------------------------------------------------------------------------------------------

  /** What the socket reports: a chunk of a stream, or its end */
  datatype Event = Arrive(fd: Fd, chunk: seq<Byte>) | End(fd: Fd)

  predicate ValidEvents(events: seq<Event>) {
    forall k :: 0 <= k < |events| ==> events[k].Arrive? ==> events[k].chunk != []
  }

  /** The filter, and what the consumer has been given. It takes all packages out of the queue after each `More`. */
  datatype Service = Service(state: State, out: seq<Pack>)

  function Consume(v: Service, e: Event): Service {
    match e
    case End(fd) => v.(state := CloseStream(v.state, fd))
    case Arrive(fd, chunk) =>
      var f := Filter(v.state, fd, chunk);
      match f.reply
      case Nothing => v.(state := f.state)
      case Data(_, data) => Service(f.state, v.out + [Pack(fd, data)])
      case More => Service(f.state.(queue := []), v.out + f.state.queue)
  }

  function Run(events: seq<Event>): Service {
    if events == [] then Service(State(map[], []), []) else Consume(Run(events[..|events| - 1]), events[|events| - 1])
  }

  /** The bytes of one stream since it began */
  function Current(fd: Fd, events: seq<Event>): seq<Byte> {
    if events == [] then []
    else
      var init, last := events[..|events| - 1], events[|events| - 1];
      if last.fd != fd then Current(fd, init)
      else if last.End? then []
      else Current(fd, init) + last.chunk
  }

  /** The packages of the streams of this descriptor, one stream after the other */
  function Expected(fd: Fd, events: seq<Event>): seq<seq<Byte>>
    decreases |events|, 1
  {
    Past(fd, events) + Parse(Current(fd, events)).packages
  }

  function Past(fd: Fd, events: seq<Event>): seq<seq<Byte>>
    decreases |events|, 0
  {
    if events == [] then []
    else
      var init, last := events[..|events| - 1], events[|events| - 1];
      if last.fd == fd && last.End? then Expected(fd, init) else Past(fd, init)
  }

  /** What the consumer was given of one stream, in order */
  function Given(fd: Fd, out: seq<Pack>): seq<seq<Byte>> {
    if out == [] then []
    else if out[0].fd == fd then [out[0].data] + Given(fd, out[1..])
    else Given(fd, out[1..])
  }

  lemma {:induction false} GivenAppend(fd: Fd, a: seq<Pack>, b: seq<Pack>)
    ensures Given(fd, a + b) == Given(fd, a) + Given(fd, b)
  {
    if a == [] {
      assert a + b == b && [] + Given(fd, b) == Given(fd, b);
    } else {
      GivenAppend(fd, a[1..], b);
      assert (a + b)[1..] == a[1..] + b && (a + b)[0] == a[0];
      Grouping([a[0].data], Given(fd, a[1..]), Given(fd, b));
    }
  }

  lemma {:induction false} GivenPacks(fd: Fd, from: Fd, packages: seq<seq<Byte>>)
    ensures Given(fd, Packs(from, packages)) == if fd == from then packages else []
  {
    if packages != [] {
      GivenPacks(fd, from, packages[1..]);
      var rest := Packs(from, packages[1..]);
      assert ([Pack(from, packages[0])] + rest)[1..] == rest;
      assert [packages[0]] + packages[1..] == packages;
    }
  }

  /** One chunk: the consumer is given exactly the packages that it completes. */
  lemma ConsumeArrive(v: Service, from: Fd, chunk: seq<Byte>, fd: Fd)
    requires v.state.queue == [] && chunk != []
    ensures var w, p := Consume(v, Arrive(from, chunk)), Parse(RawOf(v.state, from) + chunk);
            && w.state.queue == []
            && Given(fd, w.out) == (if fd == from then Given(fd, v.out) + p.packages else Given(fd, v.out))
            && RawOf(w.state, fd) == if fd == from then p.rest else RawOf(v.state, fd)
  {
    var p := Parse(RawOf(v.state, from) + chunk);
    hide Parse, Packs, Given;
    GivenPacks(fd, from, p.packages);
    GivenAppend(fd, v.out, Packs(from, p.packages));
    assert [] + Packs(from, p.packages) == Packs(from, p.packages);
    assert Given(fd, v.out) + [] == Given(fd, v.out);
    if |p.packages| == 1 {
      OnePack(from, p.packages);
    }
  }

  lemma OnePack(fd: Fd, packages: seq<seq<Byte>>)
    requires |packages| == 1
    ensures Packs(fd, packages) == [Pack(fd, packages[0])]
  {
    assert packages[1..] == [];
  }

  /** However the streams are cut into chunks and mixed, every stream is delivered as if it were parsed as a whole, and
      what is kept of it is what is left over. */
  lemma {:induction false} ChunksDoNotMatter(events: seq<Event>, fd: Fd)
    requires ValidEvents(events)
    ensures Run(events).state.queue == []
    ensures Given(fd, Run(events).out) == Expected(fd, events)
    ensures RawOf(Run(events).state, fd) == Parse(Current(fd, events)).rest
  {
    if events != [] {
      var init, last := events[..|events| - 1], events[|events| - 1];
      ChunksDoNotMatter(init, fd);
      hide Parse, Given;
      match last
      case End(from) =>
        ParseShort([]);
        assert Expected(fd, init) + [] == Expected(fd, init);
      case Arrive(from, chunk) =>
        ChunksDoNotMatter(init, from);
        ConsumeArrive(Run(init), from, chunk, fd);
        ParseCut(Current(from, init), chunk);
        var before, more := Parse(Current(from, init)), Parse(Parse(Current(from, init)).rest + chunk);
        Grouping(Past(from, init), before.packages, more.packages);
    } else {
      ParseShort([]);
    }
  }

  /** Streams made of encoded packages arrive as those packages, and nothing is left over. */
  lemma Delivered(events: seq<Event>, fd: Fd, packages: seq<seq<Byte>>)
    requires ValidEvents(events) && Packable(packages) && Current(fd, events) == Stream(packages) && Past(fd, events) == []
    ensures Given(fd, Run(events).out) == packages && RawOf(Run(events).state, fd) == []
  {
    ChunksDoNotMatter(events, fd);
    ParseStream(packages, []);
    assert Stream(packages) + [] == Stream(packages) && [] + packages == packages;
  }

  /** The filter and its consumer, at work */
  method Serve(events: seq<Event>) returns (out: seq<Pack>)
    requires ValidEvents(events)
    ensures out == Run(events).out
  {
    var q := new Queue();
    out := [];
    assert events[..0] == [];
    hide Filter, CloseStream;
    for k := 0 to |events|
      invariant q.Valid() && fresh(q) && fresh(q.queue) && fresh(q.hash)
      invariant Run(events[..k]) == Service(q.Model(), out)
      invariant q.Contents() == []
    {
      assert events[..k + 1][..k] == events[..k];
      match events[k] {
        case End(fd) => q.CloseUncomplete(fd);
        case Arrive(fd, chunk) =>
          var reply := q.FilterData(fd, chunk);
          match reply {
            case Nothing =>
            case Data(_, data) => out := out + [Pack(fd, data)];
            case More =>
              var packs := q.Drain();
              out := out + packs;
          }
      }
    }
    assert events[..|events|] == events;
  }
}
