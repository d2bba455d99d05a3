/** The serializer of lua-seri.c: a value with a tag byte in front, written to a list of blocks of 128 bytes. */
module Seri {
  datatype Option<+T> = None | Some(value: T)

  type Byte = b: int | 0 <= b < 256

  // ---- Values -----------------------------------------------------------------------------------------------------

  /** A Lua value. A double or a pointer is its eight bytes; a table is its array part and its other pairs, in the
      order in which they are traversed; `Unsupported` is a function, a thread or a full userdata. */
  datatype Value =
    | Nil
    | Boolean(b: bool)
    | Integer(i: int)
    | Real(bits: seq<Byte>)
    | Pointer(bits: seq<Byte>)
    | String(s: seq<Byte>)
    | Table(items: seq<Value>, pairs: seq<Pair>)
    | Unsupported

  datatype Pair = Pair(key: Value, value: Value)

  const TYPE_NIL := 0
  const TYPE_BOOLEAN := 1
  const TYPE_NUMBER := 2
  const TYPE_USERDATA := 3
  const TYPE_SHORT_STRING := 4
  const TYPE_LONG_STRING := 5
  const TYPE_TABLE := 6

  const NUMBER_ZERO := 0
  const NUMBER_BYTE := 1
  const NUMBER_WORD := 2
  const NUMBER_DWORD := 4
  const NUMBER_QWORD := 6
  const NUMBER_REAL := 8

  const MAX_COOKIE: nat := 32
  const MAX_DEPTH: nat := 32

  const INT31: int := 0x8000_0000
  const INT32: int := 0x1_0000_0000
  const INT63: int := 0x8000_0000_0000_0000
  const INT64: int := 0x1_0000_0000_0000_0000

  /** What Lua guarantees of a value, and sizes that fit the `int` in which the original keeps them */
  predicate Valid(v: Value) {
    match v
    case Integer(i) => -INT63 <= i < INT63
    case Real(bits) => |bits| == 8
    case Pointer(bits) => |bits| == 8
    case String(s) => |s| < INT31
    case Table(items, pairs) =>
      && |items| < INT31
      && (forall k :: 0 <= k < |items| ==> Valid(items[k]))
      && (forall k :: 0 <= k < |pairs| ==> !pairs[k].key.Nil? && Valid(pairs[k].key) && Valid(pairs[k].value))
    case _ => true
  }

  // ---- Numbers ----------------------------------------------------------------------------------------------------

  /** `n` bytes of a number, least significant first */
  function Little(v: nat, n: nat): (s: seq<Byte>)
    ensures |s| == n
  {
    if n == 0 then [] else [v % 256] + Little(v / 256, n - 1)
  }

  function FromLittle(s: seq<Byte>): nat {
    if s == [] then 0 else s[0] + 256 * FromLittle(s[1..])
  }

  function Power256(n: nat): nat {
    if n == 0 then 1 else 256 * Power256(n - 1)
  }

  lemma {:induction false} LittleBack(v: nat, n: nat)
    requires v < Power256(n)
    ensures FromLittle(Little(v, n)) == v
  {
    if n > 0 {
      assert v / 256 < Power256(n - 1);
      LittleBack(v / 256, n - 1);
      assert Little(v, n)[1..] == Little(v / 256, n - 1);
    }
  }

  lemma Powers()
    ensures Power256(1) == 0x100 && Power256(2) == 0x1_0000 && Power256(4) == INT32 && Power256(8) == INT64
  {
    assert Power256(0) == 1;
    assert Power256(1) == 256 * Power256(0);
    assert Power256(2) == 256 * Power256(1);
    assert Power256(3) == 256 * Power256(2);
    assert Power256(4) == 256 * Power256(3);
    assert Power256(5) == 256 * Power256(4);
    assert Power256(6) == 256 * Power256(5);
    assert Power256(7) == 256 * Power256(6);
    assert Power256(8) == 256 * Power256(7);
  }

  /** `COMBINE_TYPE` */
  function Tag(t: nat, cookie: nat): Byte
    requires t < 8 && cookie < MAX_COOKIE
  {
    t + cookie * 8
  }

  /** `wb_integer` */
  function PackInteger(v: int): seq<Byte>
    requires -INT63 <= v < INT63
  {
    if v == 0 then [Tag(TYPE_NUMBER, NUMBER_ZERO)]
    else if v < -INT31 || v >= INT31 then [Tag(TYPE_NUMBER, NUMBER_QWORD)] + Little(v % INT64, 8)
    else if v < 0 then [Tag(TYPE_NUMBER, NUMBER_DWORD)] + Little(v % INT32, 4)
    else if v < 0x100 then [Tag(TYPE_NUMBER, NUMBER_BYTE)] + Little(v, 1)
    else if v < 0x1_0000 then [Tag(TYPE_NUMBER, NUMBER_WORD)] + Little(v, 2)
    else [Tag(TYPE_NUMBER, NUMBER_DWORD)] + Little(v, 4)
  }

  /** `wb_string` */
  function PackString(s: seq<Byte>): seq<Byte>
    requires |s| < INT31
  {
    if |s| < MAX_COOKIE then [Tag(TYPE_SHORT_STRING, |s|)] + s
    else if |s| < 0x1_0000 then [Tag(TYPE_LONG_STRING, 2)] + Little(|s|, 2) + s
    else [Tag(TYPE_LONG_STRING, 4)] + Little(|s|, 4) + s
  }

  /** The tag of a table, with the size of its array part */
  function PackSize(n: nat): seq<Byte>
    requires n < INT31
  {
    if n >= MAX_COOKIE - 1 then [Tag(TYPE_TABLE, MAX_COOKIE - 1)] + PackInteger(n) else [Tag(TYPE_TABLE, n)]
  }

  // ---- Packing ----------------------------------------------------------------------------------------------------

  /** `pack_one`: the bytes for a value at some depth of nesting. It fails on values that are not supported, and deeper
      than `MAX_DEPTH`. */
  function Pack(v: Value, depth: nat): Option<seq<Byte>>
    requires Valid(v)
    decreases v
  {
    if depth > MAX_DEPTH then None
    else
      match v
      case Nil => Some([Tag(TYPE_NIL, 0)])
      case Boolean(b) => Some([Tag(TYPE_BOOLEAN, if b then 1 else 0)])
      case Integer(i) => Some(PackInteger(i))
      case Real(bits) => Some([Tag(TYPE_NUMBER, NUMBER_REAL)] + bits)
      case Pointer(bits) => Some([Tag(TYPE_USERDATA, 0)] + bits)
      case String(s) => Some(PackString(s))
      case Table(items, pairs) =>
        var a := PackAll(items, depth + 1);
        var p := PackPairs(pairs, depth + 1);
        if a.Some? && p.Some? then Some(PackSize(|items|) + a.value + p.value + [Tag(TYPE_NIL, 0)]) else None
      case Unsupported => None
  }

  function PackAll(vs: seq<Value>, depth: nat): Option<seq<Byte>>
    requires forall k :: 0 <= k < |vs| ==> Valid(vs[k])
    decreases vs
  {
    if vs == [] then Some([])
    else
      var a, b := Pack(vs[0], depth), PackAll(vs[1..], depth);
      if a.Some? && b.Some? then Some(a.value + b.value) else None
  }

  function PackPairs(ps: seq<Pair>, depth: nat): Option<seq<Byte>>
    requires forall k :: 0 <= k < |ps| ==> Valid(ps[k].key) && Valid(ps[k].value)
    decreases ps
  {
    if ps == [] then Some([])
    else
      var a, b := PackPair(ps[0], depth), PackPairs(ps[1..], depth);
      if a.Some? && b.Some? then Some(a.value + b.value) else None
  }

  function PackPair(p: Pair, depth: nat): Option<seq<Byte>>
    requires Valid(p.key) && Valid(p.value)
    decreases p
  {
    var k, v := Pack(p.key, depth), Pack(p.value, depth);
    if k.Some? && v.Some? then Some(k.value + v.value) else None
  }

  /** How many levels of tables there are below a value */
  function Height(v: Value): nat {
    match v
    case Table(items, pairs) => Max(HeightAll(items), HeightPairs(pairs))
    case _ => 0
  }

  function HeightAll(vs: seq<Value>): nat {
    if vs == [] then 0 else Max(1 + Height(vs[0]), HeightAll(vs[1..]))
  }

  function HeightPairs(ps: seq<Pair>): nat {
    if ps == [] then 0 else Max(1 + HeightPair(ps[0]), HeightPairs(ps[1..]))
  }

  function HeightPair(p: Pair): nat {
    Max(Height(p.key), Height(p.value))
  }

  function Max(a: nat, b: nat): nat {
    if a < b then b else a
  }

  predicate Supported(v: Value) {
    match v
    case Table(items, pairs) =>
      && (forall k :: 0 <= k < |items| ==> Supported(items[k]))
      && (forall k :: 0 <= k < |pairs| ==> SupportedPair(pairs[k]))
    case Unsupported => false
    case _ => true
  }

  predicate SupportedPair(p: Pair) {
    Supported(p.key) && Supported(p.value)
  }

  /** Exactly the supported values that are not nested too deeply can be packed. */
  lemma {:induction false} PackSucceeds(v: Value, depth: nat)
    requires Valid(v) && depth <= MAX_DEPTH
    ensures Pack(v, depth).Some? <==> Supported(v) && depth + Height(v) <= MAX_DEPTH
    decreases v
  {
    if v.Table? {
      PackAllSucceeds(v.items, depth + 1);
      PackPairsSucceeds(v.pairs, depth + 1);
    }
  }

  lemma {:induction false} PackAllSucceeds(vs: seq<Value>, depth: nat)
    requires (forall k :: 0 <= k < |vs| ==> Valid(vs[k])) && 0 < depth <= MAX_DEPTH + 1
    ensures PackAll(vs, depth).Some? <==> (forall k :: 0 <= k < |vs| ==> Supported(vs[k])) && depth - 1 + HeightAll(vs) <= MAX_DEPTH
    decreases vs
  {
    if vs != [] {
      if depth <= MAX_DEPTH {
        PackSucceeds(vs[0], depth);
      }
      PackAllSucceeds(vs[1..], depth);
      assert forall k :: 1 <= k < |vs| ==> vs[k] == vs[1..][k - 1];
    }
  }

  lemma TooDeep(p: Pair, depth: nat)
    requires Valid(p.key) && Valid(p.value) && depth > MAX_DEPTH
    ensures PackPair(p, depth).None?
  {
  }

  lemma {:induction false} PackPairsSucceeds(ps: seq<Pair>, depth: nat)
    requires (forall k :: 0 <= k < |ps| ==> Valid(ps[k].key) && Valid(ps[k].value)) && 0 < depth <= MAX_DEPTH + 1
    ensures PackPairs(ps, depth).Some? <==>
              (forall k :: 0 <= k < |ps| ==> SupportedPair(ps[k])) && depth - 1 + HeightPairs(ps) <= MAX_DEPTH
    decreases ps
  {
    hide Pack, PackPair, HeightPair, SupportedPair, Valid;
    if ps != [] {
      if depth <= MAX_DEPTH {
        PackPairSucceeds(ps[0], depth);
      } else {
        TooDeep(ps[0], depth);
      }
      PackPairsSucceeds(ps[1..], depth);
      assert forall k :: 1 <= k < |ps| ==> ps[k] == ps[1..][k - 1];
    }
  }

  lemma {:induction false} PackPairSucceeds(p: Pair, depth: nat)
    requires Valid(p.key) && Valid(p.value) && depth <= MAX_DEPTH
    ensures PackPair(p, depth).Some? <==> SupportedPair(p) && depth + HeightPair(p) <= MAX_DEPTH
    decreases p
  {
    PackSucceeds(p.key, depth);
    PackSucceeds(p.value, depth);
  }

  // ---- Unpacking --------------------------------------------------------------------------------------------------

  /** Something read from the front of a stream, and what is left */
  datatype Read<T> = Read(value: T, rest: seq<Byte>)

  /** `rb_read` */
  function Take(s: seq<Byte>, n: nat): (r: Option<Read<seq<Byte>>>)
    ensures r.Some? ==> |r.value.rest| == |s| - n && |r.value.value| == n
  {
    if |s| < n then None else Some(Read(s[..n], s[n..]))
  }

  function Signed(v: nat, half: int): int {
    if v >= half then v - 2 * half else v
  }

  /** `get_integer` */
  function UnpackInteger(cookie: nat, s: seq<Byte>): (r: Option<Read<int>>)
    ensures r.Some? ==> |r.value.rest| <= |s|
  {
    if cookie == NUMBER_ZERO then Some(Read(0, s))
    else
      var n := if cookie == NUMBER_BYTE then 1 else if cookie == NUMBER_WORD then 2 else if cookie == NUMBER_DWORD then 4
               else if cookie == NUMBER_QWORD then 8 else 0;
      if n == 0 then None
      else
        var t := Take(s, n);
        if t.None? then None
        else
          var v := FromLittle(t.value.value);
          Some(Read(if n == 4 then Signed(v, INT31) else if n == 8 then Signed(v, INT63) else v, t.value.rest))
  }

  /** The bytes of a string, behind a length of `n` bytes */
  function UnpackLong(n: nat, s: seq<Byte>): (r: Option<Read<Value>>)
    ensures r.Some? ==> |r.value.rest| <= |s|
  {
    var l := Take(s, n);
    if l.None? then None
    else
      var t := Take(l.value.rest, FromLittle(l.value.value));
      if t.None? then None else Some(Read(String(t.value.value), t.value.rest))
  }

  /** The size of the array part: in the tag, or as a number behind it. A number is cut to the 32 bits of an `int`, and
      a negative one is no elements. */
  function UnpackSize(cookie: nat, s: seq<Byte>): (r: Option<Read<nat>>)
    ensures r.Some? ==> |r.value.rest| <= |s|
  {
    if cookie != MAX_COOKIE - 1 then Some(Read(cookie, s))
    else if s == [] then None
    else if s[0] % 8 != TYPE_NUMBER || s[0] / 8 == NUMBER_REAL then None
    else
      var i := UnpackInteger(s[0] / 8, s[1..]);
      if i.None? then None
      else
        var n := Signed(i.value.value % INT32, INT31);
        Some(Read(if n < 0 then 0 else n, i.value.rest))
  }

  /** `unpack_one` */
  function Unpack(s: seq<Byte>): (r: Option<Read<Value>>)
    ensures r.Some? ==> |r.value.rest| < |s|
    decreases |s|, 0
  {
    if s == [] then None
    else
      var t, cookie, rest := s[0] % 8, s[0] / 8, s[1..];
      if t == TYPE_NIL then Some(Read(Nil, rest))
      else if t == TYPE_BOOLEAN then Some(Read(Boolean(cookie != 0), rest))
      else if t == TYPE_NUMBER then
        if cookie == NUMBER_REAL then
          var b := Take(rest, 8);
          if b.None? then None else Some(Read(Real(b.value.value), b.value.rest))
        else
          var i := UnpackInteger(cookie, rest);
          if i.None? then None else Some(Read(Integer(i.value.value), i.value.rest))
      else if t == TYPE_USERDATA then
        var b := Take(rest, 8);
        if b.None? then None else Some(Read(Pointer(b.value.value), b.value.rest))
      else if t == TYPE_SHORT_STRING then
        var b := Take(rest, cookie);
        if b.None? then None else Some(Read(String(b.value.value), b.value.rest))
      else if t == TYPE_LONG_STRING then
        if cookie == 2 then UnpackLong(2, rest) else if cookie == 4 then UnpackLong(4, rest) else None
      else if t == TYPE_TABLE then
        var n := UnpackSize(cookie, rest);
        if n.None? then None
        else
          var items := UnpackItems(n.value.value, n.value.rest);
          if items.None? then None
          else
            var pairs := UnpackPairs(items.value.rest);
            if pairs.None? then None else Some(Read(Table(items.value.value, pairs.value.value), pairs.value.rest))
      else None
  }

  function UnpackItems(n: nat, s: seq<Byte>): (r: Option<Read<seq<Value>>>)
    ensures r.Some? ==> |r.value.rest| <= |s|
    decreases |s|, 1
  {
    if n == 0 then Some(Read([], s))
    else
      var v := Unpack(s);
      if v.None? then None
      else
        var more := UnpackItems(n - 1, v.value.rest);
        if more.None? then None else Some(Read([v.value.value] + more.value.value, more.value.rest))
  }

  /** Pairs up to a nil key */
  function UnpackPairs(s: seq<Byte>): (r: Option<Read<seq<Pair>>>)
    ensures r.Some? ==> |r.value.rest| < |s|
    decreases |s|, 1
  {
    var k := Unpack(s);
    if k.None? then None
    else if k.value.value.Nil? then Some(Read([], k.value.rest))
    else
      var v := Unpack(k.value.rest);
      if v.None? then None
      else
        var more := UnpackPairs(v.value.rest);
        if more.None? then None else Some(Read([Pair(k.value.value, v.value.value)] + more.value.value, more.value.rest))
  }

  /** All values of a stream */
  function UnpackStream(s: seq<Byte>): Option<seq<Value>>
    decreases |s|
  {
    if s == [] then Some([])
    else
      var v := Unpack(s);
      if v.None? then None
      else
        var more := UnpackStream(v.value.rest);
        if more.None? then None else Some([v.value.value] + more.value)
  }

  // ---- Round trip -------------------------------------------------------------------------------------------------

  lemma TagBack(t: nat, cookie: nat)
    requires t < 8 && cookie < MAX_COOKIE
    ensures Tag(t, cookie) % 8 == t && Tag(t, cookie) / 8 == cookie
  {
  }

  lemma TakeBack(a: seq<Byte>, b: seq<Byte>)
    ensures Take(a + b, |a|) == Some(Read(a, b))
  {
    assert (a + b)[..|a|] == a && (a + b)[|a|..] == b;
  }

  lemma SignedBack(i: int, half: int)
    requires half > 0 && -half <= i < half
    ensures 0 <= i % (2 * half) < 2 * half && Signed(i % (2 * half), half) == i
  {
    if i < 0 {
      assert i % (2 * half) == i + 2 * half by {
        ModOf(i, -1, 2 * half);
      }
    } else {
      ModOf(i, 0, 2 * half);
    }
  }

  lemma Multiple(d: int, m: int)
    requires m > 0
    ensures d >= 1 ==> d * m >= m
    ensures d <= -1 ==> d * m <= -m
  {
  }

  lemma ModOf(i: int, q: int, m: int)
    requires m > 0 && q * m <= i < q * m + m
    ensures i % m == i - q * m
  {
    Multiple(i / m - q, m);
    assert (i / m - q) * m == i - i % m - q * m;
  }

  /** An integer comes back, whatever its width. */
  lemma IntegerBack(i: int, rest: seq<Byte>)
    requires -INT63 <= i < INT63
    ensures var s := PackInteger(i);
            && s != [] && s[0] % 8 == TYPE_NUMBER && s[0] / 8 != NUMBER_REAL
            && UnpackInteger(s[0] / 8, s[1..] + rest) == Some(Read(i, rest))
  {
    Powers();
    var s := PackInteger(i);
    var body := s[1..];
    TakeBack(body, rest);
    if i == 0 {
      assert body + rest == rest;
    } else if i < -INT31 || i >= INT31 {
      SignedBack(i, INT63);
      LittleBack(i % INT64, 8);
      assert body == Little(i % INT64, 8);
    } else if i < 0 {
      SignedBack(i, INT31);
      LittleBack(i % INT32, 4);
      assert body == Little(i % INT32, 4);
    } else if i < 0x100 {
      LittleBack(i, 1);
      assert body == Little(i, 1);
    } else if i < 0x1_0000 {
      LittleBack(i, 2);
      assert body == Little(i, 2);
    } else {
      LittleBack(i, 4);
      assert body == Little(i, 4);
    }
  }

  lemma Grouping<T>(a: seq<T>, b: seq<T>, c: seq<T>)
    ensures a + b + c == a + (b + c)
  {
  }

  lemma LongBack(t: seq<Byte>, n: nat, rest: seq<Byte>)
    requires |t| < Power256(n)
    ensures UnpackLong(n, Little(|t|, n) + t + rest) == Some(Read(String(t), rest))
  {
    hide Power256;
    LittleBack(|t|, n);
    Grouping(Little(|t|, n), t, rest);
    TakeBack(Little(|t|, n), t + rest);
    TakeBack(t, rest);
    hide Little, FromLittle, Take;
  }

  lemma StringBack(t: seq<Byte>, rest: seq<Byte>)
    requires |t| < INT31
    ensures Unpack(PackString(t) + rest) == Some(Read(String(t), rest))
  {
    Powers();
    hide Take, Little, UnpackLong, UnpackSize, UnpackInteger, UnpackItems, UnpackPairs, Tag;
    if |t| < MAX_COOKIE {
      TakeBack(t, rest);
      TagRead(TYPE_SHORT_STRING, |t|, t + rest);
      Grouping([Tag(TYPE_SHORT_STRING, |t|)], t, rest);
    } else {
      var n := if |t| < 0x1_0000 then 2 else 4;
      LongBack(t, n, rest);
      var tag := [Tag(TYPE_LONG_STRING, n)];
      TagRead(TYPE_LONG_STRING, n, Little(|t|, n) + t + rest);
      assert tag + Little(|t|, n) + t + rest == tag + (Little(|t|, n) + t + rest);
    }
  }

  lemma SizeBack(n: nat, rest: seq<Byte>)
    requires n < INT31
    ensures var s := PackSize(n);
            && s != [] && s[0] % 8 == TYPE_TABLE
            && UnpackSize(s[0] / 8, s[1..] + rest) == Some(Read(n, rest))
  {
    var s := PackSize(n);
    if n >= MAX_COOKIE - 1 {
      TagBack(TYPE_TABLE, MAX_COOKIE - 1);
      IntegerBack(n, rest);
      assert s[1..] == PackInteger(n);
      assert (PackInteger(n) + rest)[1..] == PackInteger(n)[1..] + rest;
      ModOf(n, 0, INT32);
    } else {
      TagBack(TYPE_TABLE, n);
      assert s[1..] + rest == rest;
    }
  }

  lemma TagRead(t: nat, cookie: nat, rest: seq<Byte>)
    requires t < 8 && cookie < MAX_COOKIE
    ensures var s := [Tag(t, cookie)] + rest; s[0] % 8 == t && s[0] / 8 == cookie && s[1..] == rest
  {
    TagBack(t, cookie);
  }

  lemma ScalarBack(v: Value, depth: nat, rest: seq<Byte>)
    requires Valid(v) && Pack(v, depth).Some? && !v.Table?
    ensures Unpack(Pack(v, depth).value + rest) == Some(Read(v, rest))
  {
    match v
    case Nil => TagRead(TYPE_NIL, 0, rest);
    case Boolean(b) => TagRead(TYPE_BOOLEAN, if b then 1 else 0, rest);
    case Integer(i) =>
      IntegerBack(i, rest);
      assert (PackInteger(i) + rest)[1..] == PackInteger(i)[1..] + rest;
    case Real(bits) =>
      TagRead(TYPE_NUMBER, NUMBER_REAL, bits + rest);
      Grouping([Tag(TYPE_NUMBER, NUMBER_REAL)], bits, rest);
      TakeBack(bits, rest);
    case Pointer(bits) =>
      TagRead(TYPE_USERDATA, 0, bits + rest);
      Grouping([Tag(TYPE_USERDATA, 0)], bits, rest);
      TakeBack(bits, rest);
    case String(s) => StringBack(s, rest);
  }

  /** A value that is packed comes back, with whatever follows it left alone. */
  lemma {:induction false} PackBack(v: Value, depth: nat, rest: seq<Byte>)
    requires Valid(v) && Pack(v, depth).Some?
    ensures Unpack(Pack(v, depth).value + rest) == Some(Read(v, rest))
    decreases v
  {
    if !v.Table? {
      ScalarBack(v, depth, rest);
    } else {
      var items, pairs := PackAll(v.items, depth + 1).value, PackPairs(v.pairs, depth + 1).value;
      var end := [Tag(TYPE_NIL, 0)];
      ItemsBack(v.items, depth + 1, pairs + end + rest);
      PairsBack(v.pairs, depth + 1, rest);
      TableBack(v, depth, rest, items, pairs);
    }
  }

  lemma TableRead(size: seq<Byte>, n: nat, items: seq<Value>, pairs: seq<Pair>, more: seq<Byte>, tail: seq<Byte>, rest: seq<Byte>)
    requires size != [] && size[0] % 8 == TYPE_TABLE
    requires UnpackSize(size[0] / 8, size[1..] + more) == Some(Read(n, more))
    requires UnpackItems(n, more) == Some(Read(items, tail)) && UnpackPairs(tail) == Some(Read(pairs, rest))
    ensures Unpack(size + more) == Some(Read(Table(items, pairs), rest))
  {
    hide UnpackSize, UnpackItems, UnpackPairs;
    assert (size + more)[0] == size[0] && (size + more)[1..] == size[1..] + more;
  }

  lemma FiveParts(a: seq<Byte>, b: seq<Byte>, c: seq<Byte>, d: seq<Byte>, e: seq<Byte>)
    ensures a + b + c + d + e == a + (b + (c + d + e))
  {
  }

  lemma TableBack(v: Value, depth: nat, rest: seq<Byte>, items: seq<Byte>, pairs: seq<Byte>)
    requires Valid(v) && v.Table? && Pack(v, depth).Some?
    requires items == PackAll(v.items, depth + 1).value && pairs == PackPairs(v.pairs, depth + 1).value
    requires UnpackItems(|v.items|, items + (pairs + [Tag(TYPE_NIL, 0)] + rest)) == Some(Read(v.items, pairs + [Tag(TYPE_NIL, 0)] + rest))
    requires UnpackPairs(pairs + [Tag(TYPE_NIL, 0)] + rest) == Some(Read(v.pairs, rest))
    ensures Unpack(Pack(v, depth).value + rest) == Some(Read(v, rest))
  {
    var end := [Tag(TYPE_NIL, 0)];
    var size := PackSize(|v.items|);
    var more := items + (pairs + end + rest);
    assert Pack(v, depth).value == size + items + pairs + end;
    hide Pack, PackAll, PackPairs, Unpack, UnpackItems, UnpackPairs, UnpackSize, PackSize, Tag;
    SizeBack(|v.items|, more);
    FiveParts(size, items, pairs, end, rest);
    TableRead(size, |v.items|, v.items, v.pairs, more, pairs + end + rest, rest);
  }

  lemma {:induction false} ItemsBack(vs: seq<Value>, depth: nat, rest: seq<Byte>)
    requires (forall k :: 0 <= k < |vs| ==> Valid(vs[k])) && PackAll(vs, depth).Some?
    ensures UnpackItems(|vs|, PackAll(vs, depth).value + rest) == Some(Read(vs, rest))
    decreases vs
  {
    if vs == [] {
      assert [] + rest == rest;
    } else {
      var a, b := Pack(vs[0], depth).value, PackAll(vs[1..], depth).value;
      PackBack(vs[0], depth, b + rest);
      ItemsBack(vs[1..], depth, rest);
      Grouping(a, b, rest);
      assert [vs[0]] + vs[1..] == vs;
    }
  }

  /** A pair in front of others */
  lemma PairRead(p: Pair, ps: seq<Pair>, s: seq<Byte>, t: seq<Byte>, u: seq<Byte>, rest: seq<Byte>)
    requires !p.key.Nil? && Unpack(s) == Some(Read(p.key, t)) && Unpack(t) == Some(Read(p.value, u))
    requires UnpackPairs(u) == Some(Read(ps, rest))
    ensures UnpackPairs(s) == Some(Read([p] + ps, rest))
  {
    hide Unpack;
  }

  lemma NoMorePairs(rest: seq<Byte>)
    ensures UnpackPairs([] + [Tag(TYPE_NIL, 0)] + rest) == Some(Read([], rest))
  {
    TagRead(TYPE_NIL, 0, rest);
    assert [] + [Tag(TYPE_NIL, 0)] + rest == [Tag(TYPE_NIL, 0)] + rest;
  }

  lemma {:induction false} PairsBack(ps: seq<Pair>, depth: nat, rest: seq<Byte>)
    requires (forall k :: 0 <= k < |ps| ==> !ps[k].key.Nil? && Valid(ps[k].key) && Valid(ps[k].value)) && PackPairs(ps, depth).Some?
    ensures UnpackPairs(PackPairs(ps, depth).value + [Tag(TYPE_NIL, 0)] + rest) == Some(Read(ps, rest))
    decreases ps
  {
    hide Unpack, UnpackPairs, Pack, Tag, Valid;
    var end := [Tag(TYPE_NIL, 0)];
    if ps == [] {
      NoMorePairs(rest);
    } else {
      var k, v, b := Pack(ps[0].key, depth).value, Pack(ps[0].value, depth).value, PackPairs(ps[1..], depth).value;
      PairBack(ps[0], depth, b + end + rest);
      PairsBack(ps[1..], depth, rest);
      FiveParts(k, v, b, end, rest);
      PairRead(ps[0], ps[1..], k + (v + (b + end + rest)), v + (b + end + rest), b + end + rest, rest);
      assert [ps[0]] + ps[1..] == ps;
    }
  }

  lemma {:induction false} PairBack(p: Pair, depth: nat, rest: seq<Byte>)
    requires Valid(p.key) && Valid(p.value) && PackPair(p, depth).Some?
    ensures Unpack(Pack(p.key, depth).value + (Pack(p.value, depth).value + rest))
         == Some(Read(p.key, Pack(p.value, depth).value + rest))
    ensures Unpack(Pack(p.value, depth).value + rest) == Some(Read(p.value, rest))
    decreases p
  {
    PackBack(p.key, depth, Pack(p.value, depth).value + rest);
    PackBack(p.value, depth, rest);
  }

  /** A sequence of values that is packed comes back. */
  lemma {:induction false} RoundTrip(vs: seq<Value>)
    requires forall k :: 0 <= k < |vs| ==> Valid(vs[k])
    requires PackAll(vs, 0).Some?
    ensures UnpackStream(PackAll(vs, 0).value) == Some(vs)
  {
    if vs != [] {
      var a, b := Pack(vs[0], 0).value, PackAll(vs[1..], 0).value;
      PackBack(vs[0], 0, b);
      RoundTrip(vs[1..]);
      assert [vs[0]] + vs[1..] == vs;
      NotEmpty(vs[0], 0);
    }
  }

  lemma NotEmpty(v: Value, depth: nat)
    requires Valid(v) && Pack(v, depth).Some?
    ensures Pack(v, depth).value != []
  {
  }
}
