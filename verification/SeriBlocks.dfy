/** The two ends of lua-seri.c: a writer that fills a list of blocks, and a reader that walks over a buffer. The writer
    refines appending to one sequence, the reader taking from the front of one. */
module SeriBlocks {
  import opened Seri

  const BLOCK_SIZE: nat := 128

  class WriteBlock {
    /** The blocks in the order of their links; the last one is `current` */
    var blocks: seq<array<Byte>>
    var len: nat
    var ptr: nat
    ghost var written: seq<Byte>

    ghost predicate Ready()
      reads this, blocks
    {
      && blocks != [] && (forall i :: 0 <= i < |blocks| ==> blocks[i].Length == BLOCK_SIZE)
      && (forall i, j :: 0 <= i < j < |blocks| ==> blocks[i] != blocks[j])
      && ptr <= BLOCK_SIZE && len == |written| == (|blocks| - 1) * BLOCK_SIZE + ptr
      && (forall k :: 0 <= k < |written| ==> blocks[k / BLOCK_SIZE][k % BLOCK_SIZE] == written[k])
    }

    constructor ()
      ensures Ready() && written == [] && fresh(blocks)
    {
      var b := new Byte[BLOCK_SIZE];
      blocks := [b];
      len, ptr, written := 0, 0, [];
    }

    /** Add bytes that fit into the current block. */
    method Fill(buf: seq<Byte>)
      requires Ready() && |buf| <= BLOCK_SIZE - ptr
      modifies this`len, this`ptr, this`written, blocks[|blocks| - 1]
      ensures Ready() && written == old(written) + buf && blocks == old(blocks) && ptr == old(ptr) + |buf|
    {
      var current := blocks[|blocks| - 1];
      ghost var was := written;
      for i := 0 to |buf|
        modifies current
        invariant forall k :: 0 <= k < ptr ==> current[k] == old(current[k])
        invariant forall k :: 0 <= k < i ==> current[ptr + k] == buf[k]
      {
        current[ptr + i] := buf[i];
      }
      written := written + buf;
      forall k | 0 <= k < |written| ensures k / BLOCK_SIZE < |blocks| && blocks[k / BLOCK_SIZE][k % BLOCK_SIZE] == written[k] {
        Position(k, |blocks| - 1, ptr, |buf|);
      }
      ptr := ptr + |buf|;
      len := len + |buf|;
    }

    /** Link another block. */
    method NewBlock()
      requires Ready() && ptr == BLOCK_SIZE
      modifies this`blocks, this`ptr
      ensures Ready() && written == old(written) && ptr == 0
      ensures |blocks| == |old(blocks)| + 1 && old(blocks) == blocks[..|blocks| - 1] && fresh(blocks[|blocks| - 1])
    {
      var b := new Byte[BLOCK_SIZE];
      ghost var n := |blocks|;
      blocks := blocks + [b];
      ptr := 0;
      forall k | 0 <= k < |written| ensures k / BLOCK_SIZE < |blocks| && blocks[k / BLOCK_SIZE][k % BLOCK_SIZE] == written[k] {
        assert k / BLOCK_SIZE < n;
      }
    }

    /** `wb_push`: fill the current block, and go on with a new one as long as bytes are left. */
    method Push(buf: seq<Byte>)
      requires Ready()
      modifies this, blocks[|blocks| - 1]
      ensures Ready() && written == old(written) + buf
      ensures forall i :: 0 <= i < |blocks| ==> blocks[i] in old(blocks) || fresh(blocks[i])
      ensures |blocks| >= |old(blocks)| && blocks[..|old(blocks)|] == old(blocks)
    {
      var buffer := buf;
      if ptr == BLOCK_SIZE {
        NewBlock();
      }
      while |buffer| > BLOCK_SIZE - ptr
        invariant Ready() && ptr < BLOCK_SIZE && written + buffer == old(written) + buf
        invariant |blocks| >= |old(blocks)| && blocks[..|old(blocks)|] == old(blocks)
        invariant forall i :: |old(blocks)| <= i < |blocks| ==> fresh(blocks[i])
        decreases |buffer|
      {
        var copy := BLOCK_SIZE - ptr;
        ghost var was := written;
        assert buffer == buffer[..copy] + buffer[copy..];
        Fill(buffer[..copy]);
        buffer := buffer[copy..];
        NewBlock();
      }
      Fill(buffer);
    }

    /** `wb_integer` */
    method PushInteger(v: int)
      requires Ready() && -INT63 <= v < INT63
      modifies this, blocks
      ensures Ready() && written == old(written) + PackInteger(v) && Extended(old(blocks))
    {
      hide Little;
      ghost var start := written;
      if v == 0 {
        Push([Tag(TYPE_NUMBER, NUMBER_ZERO)]);
        return;
      }
      var cookie, n, bits := NUMBER_DWORD, 4, v % INT32;
      if v != Signed(v % INT32, INT31) {
        cookie, n, bits := NUMBER_QWORD, 8, v % INT64;
      } else if v < 0 {
      } else if v < 0x100 {
        cookie, n, bits := NUMBER_BYTE, 1, v % 0x100;
      } else if v < 0x1_0000 {
        cookie, n, bits := NUMBER_WORD, 2, v % 0x1_0000;
      }
      Push([Tag(TYPE_NUMBER, cookie)]);
      Push(Little(bits, n));
      Grouping(start, [Tag(TYPE_NUMBER, cookie)], Little(bits, n));
    }

    /** The blocks are old ones, or new. */
    twostate predicate Extended(before: seq<array<Byte>>)
      reads this
    {
      forall i :: 0 <= i < |blocks| ==> blocks[i] in before || fresh(blocks[i])
    }

    /** `wb_string` */
    method PushString(s: seq<Byte>)
      requires Ready() && |s| < INT31
      modifies this, blocks
      ensures Ready() && written == old(written) + PackString(s) && Extended(old(blocks))
    {
      hide Little;
      ghost var start := written;
      if |s| < MAX_COOKIE {
        Push([Tag(TYPE_SHORT_STRING, |s|)]);
        if |s| > 0 {
          Push(s);
        }
        Grouping(start, [Tag(TYPE_SHORT_STRING, |s|)], s);
        assert s == [] ==> start + ([Tag(TYPE_SHORT_STRING, |s|)] + s) == start + [Tag(TYPE_SHORT_STRING, |s|)];
        return;
      }
      var n := if |s| < 0x1_0000 then 2 else 4;
      Push([Tag(TYPE_LONG_STRING, n)]);
      Push(Little(|s|, n));
      Push(s);
      FourParts(start, [Tag(TYPE_LONG_STRING, n)], Little(|s|, n), s);
    }

    method PushSize(n: nat)
      requires Ready() && n < INT31
      modifies this, blocks
      ensures Ready() && written == old(written) + PackSize(n) && Extended(old(blocks))
    {
      ghost var start := written;
      if n >= MAX_COOKIE - 1 {
        Push([Tag(TYPE_TABLE, MAX_COOKIE - 1)]);
        PushInteger(n);
        Grouping(start, [Tag(TYPE_TABLE, MAX_COOKIE - 1)], PackInteger(n));
      } else {
        Push([Tag(TYPE_TABLE, n)]);
      }
    }

    /** `pack_one`; an error gives up what has been written. */
    method PackOne(v: Value, depth: nat) returns (ok: bool)
      requires Ready() && Valid(v)
      modifies this, blocks
      ensures ok == Pack(v, depth).Some? && Ready() && Extended(old(blocks))
      ensures ok ==> written == old(written) + Pack(v, depth).value
      decreases v, 1
    {
      if depth > MAX_DEPTH {
        return false;
      }
      ghost var start := written;
      match v {
        case Nil => Push([Tag(TYPE_NIL, 0)]);
        case Boolean(b) => Push([Tag(TYPE_BOOLEAN, if b then 1 else 0)]);
        case Integer(i) => PushInteger(i);
        case Real(bits) =>
          Push([Tag(TYPE_NUMBER, NUMBER_REAL)]);
          Push(bits);
          Grouping(start, [Tag(TYPE_NUMBER, NUMBER_REAL)], bits);
        case Pointer(bits) =>
          Push([Tag(TYPE_USERDATA, 0)]);
          Push(bits);
          Grouping(start, [Tag(TYPE_USERDATA, 0)], bits);
        case String(s) => PushString(s);
        case Table(items, pairs) =>
          ok := PackTable(v, depth);
          return ok;
        case Unsupported => return false;
      }
      return true;
    }

    /** `wb_table` */
    method PackTable(v: Value, depth: nat) returns (ok: bool)
      requires Ready() && Valid(v) && v.Table? && depth <= MAX_DEPTH
      modifies this, blocks
      ensures ok == Pack(v, depth).Some? && Ready() && Extended(old(blocks))
      ensures ok ==> written == old(written) + Pack(v, depth).value
      decreases v, 0
    {
      hide PackAll, PackPairs, PackSize, Tag;
      ghost var start := written;
      PushSize(|v.items|);
      ok := PackArray(v.items, depth + 1);
      if !ok {
        return false;
      }
      ok := PackHash(v.pairs, depth + 1);
      if !ok {
        return false;
      }
      Push([Tag(TYPE_NIL, 0)]);
      FiveBytes(start, PackSize(|v.items|), PackAll(v.items, depth + 1).value, PackPairs(v.pairs, depth + 1).value,
                [Tag(TYPE_NIL, 0)]);
    }

    /** The elements that `wb_table_array` writes behind the size */
    method PackArray(items: seq<Value>, depth: nat) returns (ok: bool)
      requires Ready() && (forall k :: 0 <= k < |items| ==> Valid(items[k]))
      modifies this, blocks
      ensures ok == PackAll(items, depth).Some? && Ready() && Extended(old(blocks))
      ensures ok ==> written == old(written) + PackAll(items, depth).value
      decreases items
    {
      hide Pack;
      ghost var start := written;
      var i := 0;
      ghost var done: seq<Byte> := [];
      assert items[0..] == items;
      BehindNothing(PackAll(items, depth));
      while i < |items|
        invariant 0 <= i <= |items| && Ready() && Extended(old(blocks)) && written == start + done
        invariant PackAll(items, depth) == Behind(done, PackAll(items[i..], depth))
      {
        ghost var before := done;
        ok := PackOne(items[i], depth);
        assert items[i..][1..] == items[i + 1..] && items[i..][0] == items[i];
        if !ok {
          return false;
        }
        ghost var bytes := Pack(items[i], depth).value;
        done := done + bytes;
        Grouping(start, before, bytes);
        BehindMore(before, bytes, PackAll(items[i + 1..], depth));
        i := i + 1;
      }
      assert items[i..] == [] && done + [] == done;
      return true;
    }

    /** `wb_table_hash`, but for the closing nil */
    method PackHash(pairs: seq<Pair>, depth: nat) returns (ok: bool)
      requires Ready() && (forall k :: 0 <= k < |pairs| ==> Valid(pairs[k].key) && Valid(pairs[k].value))
      modifies this, blocks
      ensures ok == PackPairs(pairs, depth).Some? && Ready() && Extended(old(blocks))
      ensures ok ==> written == old(written) + PackPairs(pairs, depth).value
      decreases pairs
    {
      hide PackPair;
      ghost var start := written;
      var i := 0;
      ghost var done: seq<Byte> := [];
      assert pairs[0..] == pairs;
      BehindNothing(PackPairs(pairs, depth));
      while i < |pairs|
        invariant 0 <= i <= |pairs| && Ready() && Extended(old(blocks)) && written == start + done
        invariant PackPairs(pairs, depth) == Behind(done, PackPairs(pairs[i..], depth))
      {
        ghost var before := done;
        ok := PackKeyValue(pairs[i], depth);
        assert pairs[i..][1..] == pairs[i + 1..] && pairs[i..][0] == pairs[i];
        if !ok {
          return false;
        }
        ghost var bytes := PackPair(pairs[i], depth).value;
        done := done + bytes;
        Grouping(start, before, bytes);
        BehindMore(before, bytes, PackPairs(pairs[i + 1..], depth));
        i := i + 1;
      }
      assert pairs[i..] == [] && done + [] == done;
      return true;
    }

    method PackKeyValue(p: Pair, depth: nat) returns (ok: bool)
      requires Ready() && Valid(p.key) && Valid(p.value)
      modifies this, blocks
      ensures ok == PackPair(p, depth).Some? && Ready() && Extended(old(blocks))
      ensures ok ==> written == old(written) + PackPair(p, depth).value
      decreases p
    {
      hide Pack;
      ghost var start := written;
      ok := PackOne(p.key, depth);
      if !ok {
        return false;
      }
      ok := PackOne(p.value, depth);
      if ok {
        Grouping(start, Pack(p.key, depth).value, Pack(p.value, depth).value);
      }
    }

    /** `seri`: the blocks copied to one buffer */
    method Flatten() returns (buffer: array<Byte>)
      requires Ready()
      ensures fresh(buffer) && buffer[..] == written
    {
      buffer := new Byte[len];
      var left: nat, i: nat, at: nat := len, 0, 0;
      while left > 0
        modifies buffer
        invariant at + left == len && (left > 0 ==> at == i * BLOCK_SIZE) && buffer[..at] == written[..at]
        decreases left
      {
        var n := if left >= BLOCK_SIZE then BLOCK_SIZE else left;
        for k := 0 to n
          modifies buffer
          invariant buffer[..at + k] == written[..at + k]
        {
          Position(at + k, i, 0, BLOCK_SIZE);
          buffer[at + k] := blocks[i][k];
          assert buffer[..at + k + 1] == buffer[..at + k] + [written[at + k]];
        }
        at, left, i := at + n, left - n, i + 1;
      }
    }
  }

  /** Bytes that come behind others, if they can be written at all */
  function Behind(done: seq<Byte>, more: Option<seq<Byte>>): Option<seq<Byte>> {
    if more.None? then None else Some(done + more.value)
  }

  lemma BehindNothing(more: Option<seq<Byte>>)
    ensures Behind([], more) == more
  {
    if more.Some? {
      assert [] + more.value == more.value;
    }
  }

  lemma BehindMore(done: seq<Byte>, bytes: seq<Byte>, more: Option<seq<Byte>>)
    ensures Behind(done, if more.None? then None else Some(bytes + more.value)) == Behind(done + bytes, more)
  {
    if more.Some? {
      Grouping(done, bytes, more.value);
    }
  }

  lemma FiveBytes(a: seq<Byte>, b: seq<Byte>, c: seq<Byte>, d: seq<Byte>, e: seq<Byte>)
    ensures a + b + c + d + e == a + (b + c + d + e)
  {
  }

  lemma FourParts(a: seq<Byte>, b: seq<Byte>, c: seq<Byte>, d: seq<Byte>)
    ensures a + b + c + d == a + (b + c + d)
  {
  }

  lemma Position(k: nat, n: nat, ptr: nat, more: nat)
    requires ptr + more <= BLOCK_SIZE && k < n * BLOCK_SIZE + ptr + more
    ensures k < n * BLOCK_SIZE ==> k / BLOCK_SIZE < n
    ensures k >= n * BLOCK_SIZE ==> k / BLOCK_SIZE == n && k % BLOCK_SIZE == k - n * BLOCK_SIZE
  {
  }

  class ReadBlock {
    const buffer: seq<Byte>
    var len: nat
    var ptr: nat

    ghost predicate Ready()
      reads this
    {
      ptr + len == |buffer|
    }

    ghost function Rest(): seq<Byte>
      requires Ready()
      reads this
    {
      buffer[ptr..]
    }

    /** `rball_init` */
    constructor (buffer: seq<Byte>)
      ensures Ready() && Rest() == buffer
    {
      this.buffer := buffer;
      len, ptr := |buffer|, 0;
    }

    /** `rb_read` */
    method Read(sz: nat) returns (bytes: Option<seq<Byte>>)
      requires Ready()
      modifies this`len, this`ptr
      ensures Ready() && len <= old(len)
      ensures bytes.Some? <==> Take(old(Rest()), sz).Some?
      ensures bytes.Some? ==> Take(old(Rest()), sz) == Some(Seri.Read(bytes.value, Rest()))
    {
      if len < sz {
        return None;
      }
      bytes := Some(buffer[ptr..ptr + sz]);
      assert buffer[ptr..][..sz] == buffer[ptr..ptr + sz] && buffer[ptr..][sz..] == buffer[ptr + sz..];
      ptr, len := ptr + sz, len - sz;
    }

    /** `get_integer` */
    method GetInteger(cookie: nat) returns (i: Option<int>)
      requires Ready()
      modifies this`len, this`ptr
      ensures Ready() && len <= old(len)
      ensures i.Some? <==> UnpackInteger(cookie, old(Rest())).Some?
      ensures i.Some? ==> UnpackInteger(cookie, old(Rest())) == Some(Seri.Read(i.value, Rest()))
    {
      hide Take, FromLittle;
      if cookie == NUMBER_ZERO {
        return Some(0);
      }
      var n := if cookie == NUMBER_BYTE then 1 else if cookie == NUMBER_WORD then 2 else if cookie == NUMBER_DWORD then 4
               else if cookie == NUMBER_QWORD then 8 else 0;
      if n == 0 {
        return None;
      }
      var b := Read(n);
      if b.None? {
        return None;
      }
      var v := FromLittle(b.value);
      return Some(if n == 4 then Signed(v, INT31) else if n == 8 then Signed(v, INT63) else v);
    }

    /** A string behind a length of `n` bytes */
    method GetLong(n: nat) returns (v: Option<Value>)
      requires Ready()
      modifies this`len, this`ptr
      ensures Ready() && len <= old(len)
      ensures v.Some? <==> UnpackLong(n, old(Rest())).Some?
      ensures v.Some? ==> UnpackLong(n, old(Rest())) == Some(Seri.Read(v.value, Rest()))
    {
      hide Take, FromLittle;
      var l := Read(n);
      if l.None? {
        return None;
      }
      var b := Read(FromLittle(l.value));
      if b.None? {
        return None;
      }
      return Some(String(b.value));
    }

    method GetSize(cookie: nat) returns (n: Option<nat>)
      requires Ready()
      modifies this`len, this`ptr
      ensures Ready() && len <= old(len)
      ensures n.Some? <==> UnpackSize(cookie, old(Rest())).Some?
      ensures n.Some? ==> UnpackSize(cookie, old(Rest())) == Some(Seri.Read(n.value, Rest()))
    {
      hide UnpackInteger;
      if cookie != MAX_COOKIE - 1 {
        return Some(cookie);
      }
      var b := Read(1);
      if b.None? {
        return None;
      }
      var t := b.value[0];
      if t % 8 != TYPE_NUMBER || t / 8 == NUMBER_REAL {
        return None;
      }
      var i := GetInteger(t / 8);
      if i.None? {
        return None;
      }
      var size := Signed(i.value % INT32, INT31);
      return Some(if size < 0 then 0 else size);
    }

    /** `unpack_one`; `None` is the error for an invalid stream. */
    method UnpackOne() returns (v: Option<Value>)
      requires Ready()
      modifies this`len, this`ptr
      ensures Ready() && len <= old(len)
      ensures v.Some? <==> Unpack(old(Rest())).Some?
      ensures v.Some? ==> Unpack(old(Rest())) == Some(Seri.Read(v.value, Rest()))
      decreases len, 0
    {
      hide Take, UnpackInteger, UnpackLong, UnpackSize, UnpackItems, UnpackPairs;
      var tag := Read(1);
      TakeOne(old(Rest()));
      if tag.None? {
        return None;
      }
      var t, cookie := tag.value[0] % 8, tag.value[0] / 8;
      if t == TYPE_NIL {
        return Some(Nil);
      } else if t == TYPE_BOOLEAN {
        return Some(Boolean(cookie != 0));
      } else if t == TYPE_NUMBER && cookie != NUMBER_REAL {
        var i := GetInteger(cookie);
        return if i.Some? then Some(Integer(i.value)) else None;
      } else if t == TYPE_NUMBER {
        var b := Read(8);
        return if b.Some? then Some(Real(b.value)) else None;
      } else if t == TYPE_USERDATA {
        var b := Read(8);
        return if b.Some? then Some(Pointer(b.value)) else None;
      } else if t == TYPE_SHORT_STRING {
        var b := Read(cookie);
        return if b.Some? then Some(String(b.value)) else None;
      } else if t == TYPE_LONG_STRING {
        if cookie == 2 || cookie == 4 {
          v := GetLong(cookie);
          return v;
        }
        return None;
      } else if t == TYPE_TABLE {
        var n := GetSize(cookie);
        if n.None? {
          return None;
        }
        var items := UnpackArray(n.value);
        if items.None? {
          return None;
        }
        var pairs := UnpackHash();
        return if pairs.Some? then Some(Table(items.value, pairs.value)) else None;
      }
      return None;
    }

    method UnpackArray(n: nat) returns (items: Option<seq<Value>>)
      requires Ready()
      modifies this`len, this`ptr
      ensures Ready() && len <= old(len)
      ensures items.Some? <==> UnpackItems(n, old(Rest())).Some?
      ensures items.Some? ==> UnpackItems(n, old(Rest())) == Some(Seri.Read(items.value, Rest()))
      decreases len, 1
    {
      hide Unpack;
      var read: seq<Value> := [];
      ghost var start := Rest();
      assert Prefixed([], UnpackItems(n, start)) == UnpackItems(n, start) by {
        PrefixedNothing(UnpackItems(n, start));
      }
      for i := 0 to n
        invariant Ready() && len <= old(len)
        invariant UnpackItems(n, start) == Prefixed(read, UnpackItems(n - i, Rest()))
      {
        ghost var before := Rest();
        var v := UnpackOne();
        if v.None? {
          return None;
        }
        PrefixedMore(read, v.value, UnpackItems(n - i - 1, Rest()));
        read := read + [v.value];
      }
      assert read + [] == read;
      return Some(read);
    }

    method UnpackHash() returns (pairs: Option<seq<Pair>>)
      requires Ready()
      modifies this`len, this`ptr
      ensures Ready() && len <= old(len)
      ensures pairs.Some? <==> UnpackPairs(old(Rest())).Some?
      ensures pairs.Some? ==> UnpackPairs(old(Rest())) == Some(Seri.Read(pairs.value, Rest()))
      decreases len, 1
    {
      hide Unpack;
      var read: seq<Pair> := [];
      ghost var start := Rest();
      PrefixedNothing(UnpackPairs(start));
      while true
        invariant Ready() && len <= old(len)
        invariant UnpackPairs(start) == Prefixed(read, UnpackPairs(Rest()))
        decreases len
      {
        ghost var before := Rest();
        var k := UnpackOne();
        if k.None? {
          return None;
        }
        if k.value.Nil? {
          assert read + [] == read;
          return Some(read);
        }
        var v := UnpackOne();
        if v.None? {
          return None;
        }
        PrefixedMore(read, Pair(k.value, v.value), UnpackPairs(Rest()));
        read := read + [Pair(k.value, v.value)];
      }
    }

    /** `luaseri_unpack` */
    method UnpackAll() returns (vs: Option<seq<Value>>)
      requires Ready()
      modifies this`len, this`ptr
      ensures vs == UnpackStream(old(Rest()))
    {
      hide Unpack;
      var read: seq<Value> := [];
      ghost var start := Rest();
      AfterNothing(UnpackStream(start));
      while len > 0
        invariant Ready()
        invariant UnpackStream(start) == After(read, UnpackStream(Rest()))
        decreases len
      {
        var v := UnpackOne();
        if v.None? {
          return None;
        }
        AfterMore(read, v.value, UnpackStream(Rest()));
        read := read + [v.value];
      }
      assert read + [] == read;
      return Some(read);
    }
  }

  function After(read: seq<Value>, more: Option<seq<Value>>): Option<seq<Value>> {
    if more.None? then None else Some(read + more.value)
  }

  lemma AfterNothing(more: Option<seq<Value>>)
    ensures After([], more) == more
  {
    if more.Some? {
      assert [] + more.value == more.value;
    }
  }

  lemma AfterMore(read: seq<Value>, v: Value, more: Option<seq<Value>>)
    ensures After(read, if more.None? then None else Some([v] + more.value)) == After(read + [v], more)
  {
    if more.Some? {
      Grouping(read, [v], more.value);
    }
  }

  lemma TakeOne(s: seq<Byte>)
    ensures Take(s, 1).Some? <==> s != []
    ensures s != [] ==> Take(s, 1) == Some(Seri.Read([s[0]], s[1..]))
  {
    assert s != [] ==> s[..1] == [s[0]];
  }

  /** What is read after something else has been read */
  function Prefixed<T>(read: seq<T>, more: Option<Read<seq<T>>>): Option<Read<seq<T>>> {
    if more.None? then None else Some(Seri.Read(read + more.value.value, more.value.rest))
  }

  lemma PrefixedNothing<T>(more: Option<Read<seq<T>>>)
    ensures Prefixed([], more) == more
  {
    if more.Some? {
      assert [] + more.value.value == more.value.value;
    }
  }

  lemma PrefixedMore<T>(read: seq<T>, x: T, more: Option<Read<seq<T>>>)
    ensures Prefixed(read, if more.None? then None else Some(Seri.Read([x] + more.value.value, more.value.rest)))
         == Prefixed(read + [x], more)
  {
    if more.Some? {
      Grouping(read, [x], more.value.value);
    }
  }

  /** Values that are packed into a block list, copied to a buffer and unpacked again come back. */
  method PackAndUnpack(vs: seq<Value>) returns (back: Option<seq<Value>>)
    requires forall k :: 0 <= k < |vs| ==> Valid(vs[k])
    ensures back == if PackAll(vs, 0).Some? then Some(vs) else None
  {
    var wb := new WriteBlock();
    var ok := wb.PackArray(vs, 0);
    if !ok {
      return None;
    }
    var buffer := wb.Flatten();
    var rb := new ReadBlock(buffer[..]);
    assert [] + PackAll(vs, 0).value == PackAll(vs, 0).value;
    RoundTrip(vs);
    back := rb.UnpackAll();
  }
}
