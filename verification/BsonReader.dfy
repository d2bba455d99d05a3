/** The readers and the writer of lua-bson.c: a cursor over the bytes of a document. A negative length, with which the original
    moves its cursor backwards, ends the reading here. */
module BsonReader {
  import opened Bson
  import Seri

  class Reader {
    const data: seq<Byte>
    var ptr: nat
    var size: nat

    ghost predicate Valid() reads this {
      ptr + size <= |data|
    }

    /** What is still to be read */
    ghost function Rest(): (s: seq<Byte>) reads this
      requires Valid()
      ensures |s| == size
    {
      data[ptr..ptr + size]
    }

    constructor (data: seq<Byte>, ptr: nat, size: nat)
      requires ptr + size <= |data|
      ensures Valid() && this.data == data && this.ptr == ptr && this.size == size
      ensures Rest() == data[ptr..ptr + size]
    {
      this.data, this.ptr, this.size := data, ptr, size;
    }

    method ReadByte() returns (r: Option<Byte>)
      requires Valid()
      modifies this
      ensures Valid() && ptr + size == old(ptr + size)
      ensures r.None? <==> old(Rest()) == []
      ensures r.Some? ==> r.value == old(Rest())[0] && Rest() == old(Rest())[1..]
    {
      if size < 1 {
        return None;
      }
      r := Some(data[ptr]);
      ptr, size := ptr + 1, size - 1;
    }

    method ReadBytes(n: int) returns (r: Option<seq<Byte>>)
      requires Valid()
      modifies this
      ensures Valid() && ptr + size == old(ptr + size)
      ensures r.None? <==> n < 0 || n > |old(Rest())|
      ensures r.Some? ==> r.value == old(Rest())[..n] && Rest() == old(Rest())[n..]
    {
      if n < 0 || size < n {
        return None;
      }
      r := Some(data[ptr..ptr + n]);
      ptr, size := ptr + n, size - n;
    }

    method ReadInt32() returns (r: Option<int>)
      requires Valid()
      modifies this
      ensures Valid() && ptr + size == old(ptr + size)
      ensures r.None? <==> |old(Rest())| < 4
      ensures r.Some? ==> r.value == Int32(old(Rest())) && Rest() == old(Rest())[4..]
    {
      hide Seri.FromLittle;
      var b := ReadBytes(4);
      if b.None? {
        return None;
      }
      assert b.value[..4] == b.value;
      r := Some(Int32(b.value));
    }

    method ReadCstring() returns (r: Option<seq<Byte>>)
      requires Valid()
      modifies this
      ensures Valid() && ptr + size == old(ptr + size)
      ensures r.None? <==> Zero(old(Rest())) == |old(Rest())|
      ensures r.Some? ==> r.value == old(Rest())[..Zero(old(Rest()))] && Rest() == old(Rest())[Zero(old(Rest())) + 1..]
    {
      ghost var s := Rest();
      var i := 0;
      while true
        invariant 0 <= i <= size && Valid() && Rest() == s && ptr + size == old(ptr + size)
        invariant forall k :: 0 <= k < i ==> s[k] != 0
        decreases size - i
      {
        if i == size {
          ZeroIs(s, i);
          return None;
        }
        assert s[i] == data[ptr + i];
        if data[ptr + i] == 0 {
          break;
        }
        i := i + 1;
      }
      ZeroIs(s, i);
      r := Some(data[ptr..ptr + i]);
      ptr, size := ptr + i + 1, size - i - 1;
    }
  }

  // ---- The index --------------------------------------------------------------------------------------------------

  /** Over a value whose size is not that of its type; for the other types, the size */
  method Skip(r: Reader, bt: Byte) returns (fixed: Option<nat>)
    requires r.Valid()
    modifies r
    ensures r.Valid() && r.ptr + r.size == old(r.ptr + r.size)
    ensures Indexed(bt) ==> fixed == Some(FixedSize(bt)) && r.Rest() == old(r.Rest())
    ensures !Indexed(bt) ==> (fixed.Some? <==> RawSize(bt, old(r.Rest())).Some?)
    ensures !Indexed(bt) && fixed.Some? ==>
              fixed == Some(0) && r.Rest() == old(r.Rest())[RawSize(bt, old(r.Rest())).value..]
  {
    hide Int32, Zero;
    ghost var s := r.Rest();
    if bt == INT64 || bt == TIMESTAMP || bt == DATE || bt == REAL {
      return Some(8);
    } else if bt == BOOLEAN {
      return Some(1);
    } else if bt == OBJECTID {
      return Some(12);
    } else if bt == INT32 {
      return Some(4);
    } else if bt == MINKEY || bt == MAXKEY || bt == NULL {
      assert s == s[0..];
      return Some(0);
    } else if bt == REGEX {
      var a := r.ReadCstring();
      if a.None? {
        return None;
      }
      var b := r.ReadCstring();
      if b.None? {
        return None;
      }
      return Some(0);
    }
    var extra := 0;
    if bt == JSCODE || bt == SYMBOL || bt == STRING {
    } else if bt == CODEWS || bt == ARRAY || bt == DOCUMENT {
      extra := -4;
    } else if bt == BINARY {
      extra := 1;
    } else if bt == DBPOINTER {
      extra := 12;
    } else {
      return None;
    }
    var n := r.ReadInt32();
    if n.None? {
      return None;
    }
    assert Behind(bt, n.value) == n.value + extra;
    var b := r.ReadBytes(n.value + extra);
    if b.None? {
      return None;
    }
    fixed := Some(0);
  }

  lemma FieldsNext(s: seq<Byte>, base: nat, z: nat)
    requires s != [] && z == Zero(s[1..]) < |s| - 1
    ensures RawSize(s[0], s[z + 2..]).None? ==> FirstField(s, base).None?
    ensures RawSize(s[0], s[z + 2..]).Some? ==>
              var v, n := s[z + 2..], RawSize(s[0], s[z + 2..]).value;
              FirstField(s, base) == Some(Head(Field(s[0], s[1..z + 1], base + z + 2, v[..n]), v[n..]))
  {
    hide Zero, RawSize;
  }

  lemma NoName(s: seq<Byte>, base: nat)
    requires s != [] && Zero(s[1..]) == |s| - 1
    ensures FirstField(s, base).None?
  {
  }

  lemma FixedNeeds(bt: Byte, v: seq<Byte>)
    requires Indexed(bt)
    ensures RawSize(bt, v) == if |v| < FixedSize(bt) then None else Some(FixedSize(bt))
  {
  }

  /** The fields that are left, and the index so far, make the whole index. */
  predicate Indexing(left: Option<seq<Field>>, m: map<seq<Byte>, int>, whole: Option<seq<Field>>) {
    && (left.Some? <==> whole.Some?)
    && (left.Some? ==> IndexFrom(left.value, m) == IndexFrom(whole.value, map[]))
  }

  lemma IndexingNext(s: seq<Byte>, base: nat, h: Head, m: map<seq<Byte>, int>, whole: Option<seq<Field>>)
    requires s != [] && FirstField(s, base) == Some(h) && |h.rest| < |s|
    requires Indexing(Fields(s, base), m, whole)
    ensures Indexing(Fields(h.rest, base + |s| - |h.rest|),
                     if Indexed(h.field.bt) then m[h.field.key := Id(h.field.bt, h.field.at)] else m, whole)
  {
    hide FirstField, Indexed, Id;
    var fs := Fields(h.rest, base + |s| - |h.rest|);
    if fs.Some? {
      assert ([h.field] + fs.value)[1..] == fs.value;
    }
  }

  lemma NoFirst(s: seq<Byte>, base: nat, m: map<seq<Byte>, int>, whole: Option<seq<Field>>)
    requires s != [] && FirstField(s, base).None? && Indexing(Fields(s, base), m, whole)
    ensures whole.None?
  {
  }

  lemma NoMore(base: nat)
    ensures Fields([], base) == Some([])
  {
  }

  /** One field into the index */
  method IndexField(r: Reader, m: map<seq<Byte>, int>, ghost whole: Option<seq<Field>>) returns (m': Option<map<seq<Byte>, int>>)
    requires r.Valid() && r.size > 0
    requires Indexing(Fields(r.Rest(), r.ptr), m, whole)
    modifies r
    ensures r.Valid() && (m'.Some? ==> r.size < old(r.size))
    ensures if m'.None? then whole.None? else Indexing(Fields(r.Rest(), r.ptr), m'.value, whole)
  {
    hide Zero, RawSize, FirstField, FixedSize, Fields, Id, Indexing, Indexed;
    ghost var s, base := r.Rest(), r.ptr;
    var bt := r.ReadByte();
    var key := r.ReadCstring();
    if key.None? {
      NoName(s, base);
      NoFirst(s, base, m, whole);
      return None;
    }
    ghost var z := Zero(s[1..]);
    FieldsNext(s, base, z);
    ghost var v := s[z + 2..];
    assert key.value == s[1..z + 1];
    assert r.Rest() == v && r.ptr == base + z + 2;
    var at := r.ptr;
    var fixed := SkipField(r, bt.value);
    if fixed.None? {
      NoFirst(s, base, m, whole);
      return None;
    }
    IndexingNext(s, base, FirstField(s, base).value, m, whole);
    assert r.size == |r.Rest()| < |s|;
    m' := Some(if fixed.value > 0 then m[key.value := Id(bt.value, at)] else m);
  }

  /** Over the value of a field; more than zero when its type is indexed */
  method SkipField(r: Reader, bt: Byte) returns (fixed: Option<nat>)
    requires r.Valid()
    modifies r
    ensures r.Valid() && r.ptr + r.size == old(r.ptr + r.size)
    ensures fixed.Some? <==> RawSize(bt, old(r.Rest())).Some?
    ensures fixed.Some? ==> r.Rest() == old(r.Rest())[RawSize(bt, old(r.Rest())).value..]
    ensures fixed.Some? ==> (fixed.value > 0 <==> Indexed(bt))
  {
    hide RawSize, FixedSize;
    ghost var v := r.Rest();
    fixed := Skip(r, bt);
    if fixed.Some? && fixed.value > 0 {
      FixedNeeds(bt, v);
      var b := r.ReadBytes(fixed.value);
      if b.None? {
        return None;
      }
    }
  }

  /** The index of a document by one pass over its fields */
  method MakeIndex(doc: seq<Byte>) returns (index: Option<map<seq<Byte>, int>>)
    requires |doc| >= 5 && Int32(doc) == |doc|
    ensures index == match Fields(Inside(doc), 4)
                     case None => None
                     case Some(fs) => Some(IndexFrom(fs, map[]))
  {
    hide Int32, Fields;
    var r := new Reader(doc, 4, Int32(doc) - 5);
    var m: map<seq<Byte>, int> := map[];
    ghost var whole := Fields(Inside(doc), 4);
    while r.size != 0
      invariant r.Valid() && fresh(r)
      invariant Indexing(Fields(r.Rest(), r.ptr), m, whole)
      decreases r.size
    {
      var m' := IndexField(r, m, whole);
      if m'.None? {
        return None;
      }
      m := m'.value;
    }
    NoMore(r.ptr);
    index := Some(m);
  }

  // ---- Replacement in place ---------------------------------------------------------------------------------------

  /** `write_int32`, `write_int64` and `write_double`: the low byte first */
  method WriteLittle(doc: array<Byte>, at: nat, v: nat, n: nat)
    requires at + n <= doc.Length
    modifies doc
    ensures doc[..] == Patched(old(doc[..]), at, Seri.Little(v, n))
  {
    hide Seri.Little, Patched;
    ghost var was, t := doc[..], Seri.Little(v, n);
    assert doc[..] == Patched(was, at, t[..0]) by { PatchedNone(was, at); }
    var i, u := 0, v;
    while i < n
      invariant 0 <= i <= n
      invariant t[i..] == Seri.Little(u, n - i)
      invariant doc[..] == Patched(was, at, t[..i])
    {
      LittleStep(u, n - i);
      assert t[i] == t[i..][0] && t[i + 1..] == t[i..][1..];
      PatchedStep(was, at, t, i);
      doc[at + i] := u % 256;
      u := u / 256;
      i := i + 1;
    }
    assert t[..n] == t;
  }

  lemma LittleStep(u: nat, n: nat)
    requires n > 0
    ensures Seri.Little(u, n)[0] == u % 256 && Seri.Little(u, n)[1..] == Seri.Little(u / 256, n - 1)
  {
  }

  lemma PatchedNone(s: seq<Byte>, at: nat)
    requires at <= |s|
    ensures Patched(s, at, []) == s
  {
  }

  lemma PatchedStep(s: seq<Byte>, at: nat, t: seq<Byte>, i: nat)
    requires i < |t| && at + |t| <= |s|
    ensures Patched(s, at, t[..i])[at + i := t[i]] == Patched(s, at, t[..i + 1])
  {
  }

  method WriteBytes(doc: array<Byte>, at: nat, b: seq<Byte>)
    requires at + |b| <= doc.Length
    modifies doc
    ensures doc[..] == Patched(old(doc[..]), at, b)
  {
    forall k | 0 <= k < |b| {
      doc[at + k] := b[k];
    }
    assert doc[..at] == old(doc[..at]) && doc[at..at + |b|] == b && doc[at + |b|..] == old(doc[at + |b|..]);
  }

  lemma PatchedTwice(s: seq<Byte>, at: nat, a: seq<Byte>, b: seq<Byte>)
    requires at + |a| + |b| <= |s|
    ensures Patched(Patched(s, at, a), at + |a|, b) == Patched(s, at, a + b)
  {
  }

  /** What the index says of a name is a type that can be replaced, and a place in the document for its bytes. */
  predicate InDocument(size: nat, id: int) {
    IdType(id) < 256 && Indexed(IdType(id)) && 0 <= IdPlace(id) && IdPlace(id) + FixedSize(IdType(id)) <= size
  }

  /** The new value takes the place of the old one, or nothing changes. */
  method Replace(doc: array<Byte>, index: map<seq<Byte>, int>, key: seq<Byte>, a: Arg, double: int -> Bits) returns (ok: bool)
    requires key in index ==> InDocument(doc.Length, index[key])
    modifies doc
    ensures ok <==> key in index && Accepts(IdType(index[key]), a)
    ensures ok ==> doc[..] == Patched(old(doc[..]), IdPlace(index[key]), Written(IdType(index[key]), a, double))
    ensures !ok ==> doc[..] == old(doc[..])
  {
    hide Seri.Little, Seri.FromLittle;
    if key !in index {
      return false;
    }
    var id := index[key];
    var bt, at := IdType(id), IdPlace(id);
    if bt == REAL {
      if !a.Int? && !(a.Number? && |a.bits| == 8) {
        return false;
      }
      WriteBytes(doc, at, if a.Int? then double(a.i) else a.bits);
    } else if bt == BOOLEAN {
      WriteBytes(doc, at, [if a == Nil || a == Bool(false) then 0 else 1]);
    } else if bt == OBJECTID || bt == DATE || bt == TIMESTAMP {
      ok := ReplaceObject(doc, bt, at, a, double);
      return;
    } else if bt == INT32 {
      if !a.Int? {
        return false;
      }
      WriteLittle(doc, at, a.i % Seri.INT32, 4);
    } else {
      if !a.Int? {
        return false;
      }
      WriteLittle(doc, at, a.i % Seri.INT64, 8);
    }
    ok := true;
  }

  method ReplaceObject(doc: array<Byte>, bt: Byte, at: nat, a: Arg, ghost double: int -> Bits) returns (ok: bool)
    requires bt == OBJECTID || bt == DATE || bt == TIMESTAMP
    requires at + FixedSize(bt) <= doc.Length
    modifies doc
    ensures ok <==> Accepts(bt, a)
    ensures ok ==> doc[..] == Patched(old(doc[..]), at, Written(bt, a, double))
    ensures !ok ==> doc[..] == old(doc[..])
  {
    hide Seri.Little, Seri.FromLittle;
    if !a.String? || |a.s| < 6 || a.s[0] != 0 || a.s[1] != bt {
      return false;
    }
    if bt == OBJECTID {
      if |a.s| != 14 {
        return false;
      }
      WriteBytes(doc, at, a.s[2..]);
    } else if bt == DATE {
      if |a.s| != 6 {
        return false;
      }
      WriteLittle(doc, at, Seri.FromLittle(a.s[2..6]) * 1000, 8);
    } else {
      if |a.s| != 10 {
        return false;
      }
      WriteLittle(doc, at, Seri.FromLittle(a.s[2..6]), 4);
      WriteLittle(doc, at + 4, Seri.FromLittle(a.s[6..10]), 4);
      PatchedTwice(old(doc[..]), at, Seri.Little(Seri.FromLittle(a.s[2..6]), 4), Seri.Little(Seri.FromLittle(a.s[6..10]), 4));
    }
    ok := true;
  }

  // ---- Decoding ---------------------------------------------------------------------------------------------------

  /** The document at the front of the bytes */
  function FrontDocument(s: seq<Byte>, isArray: bool, num: Numbering): Option<Value> {
    if |s| < 4 || Int32(s) < 5 || Int32(s) > |s| then None else Decode(s[..Int32(s)], isArray, num)
  }

  /** The value at the front of the bytes */
  function FrontValue(bt: Byte, s: seq<Byte>, num: Numbering): Option<Value> {
    match RawSize(bt, s)
    case None => None
    case Some(n) => assert Indexed(bt) ==> n == FixedSize(bt); Val(bt, s[..n], num)
  }

  method UnpackFixed(r: Reader, bt: Byte, num: Numbering) returns (v: Option<Value>)
    requires r.Valid() && Indexed(bt)
    modifies r
    ensures r.Valid() && r.ptr + r.size == old(r.ptr + r.size)
    ensures v == FrontValue(bt, old(r.Rest()), num)
    ensures v.Some? ==> r.Rest() == old(r.Rest())[FixedSize(bt)..]
  {
    hide Int32, Int64, Seri.Little, Seconds;
    var b := r.ReadBytes(FixedSize(bt));
    if b.None? {
      return None;
    }
    if bt == REAL {
      v := Some(Real(b.value));
    } else if bt == BOOLEAN {
      v := Some(Boolean(b.value[0] != 0));
    } else if bt == INT32 {
      v := Some(Integer(Int32(b.value)));
    } else if bt == INT64 {
      v := Some(Integer(Int64(b.value)));
    } else if bt == DATE {
      v := Some(Object(DATE, Seri.Little(Seconds(Int64(b.value)) % Seri.INT32, 4)));
    } else {
      v := Some(Object(bt, b.value));
    }
  }

  method UnpackRegex(r: Reader) returns (v: Option<Value>)
    requires r.Valid()
    modifies r
    ensures r.Valid() && r.ptr + r.size == old(r.ptr + r.size)
    ensures v.Some? <==> RegexSize(old(r.Rest())) <= |old(r.Rest())|
    ensures v.Some? ==> var n := RegexSize(old(r.Rest()));
              v.value == Object(REGEX, old(r.Rest())[..n]) && r.Rest() == old(r.Rest())[n..]
  {
    hide Zero;
    ghost var s := r.Rest();
    var a := r.ReadCstring();
    if a.None? {
      return None;
    }
    ghost var z := Zero(s);
    var b := r.ReadCstring();
    if b.None? {
      return None;
    }
    v := Some(Object(REGEX, a.value + [0] + b.value + [0]));
    ghost var y := Zero(s[z + 1..]);
    RegexCut(s, z, y);
  }

  lemma RegexCut(s: seq<Byte>, z: nat, y: nat)
    requires z < |s| && y < |s[z + 1..]|
    ensures s[..z + 1 + y + 1] == s[..z] + [s[z]] + s[z + 1..][..y] + [s[z + 1..][y]]
    ensures s[z + 1 + y + 1..] == s[z + 1..][y + 1..]
  {
    var e := z + 1 + y;
    assert s[z + 1..][..y] == s[z + 1..e] && s[z + 1..][y] == s[e];
    assert s[..z + 1] == s[..z] + [s[z]];
    assert s[..e] == s[..z + 1] + s[z + 1..e];
    assert s[..e + 1] == s[..e] + [s[e]];
  }

  lemma RawSizeOf(bt: Byte, s: seq<Byte>)
    ensures bt == MINKEY || bt == MAXKEY || bt == NULL ==> RawSize(bt, s) == Some(0)
    ensures bt == REGEX ==> RawSize(bt, s) == if RegexSize(s) > |s| then None else Some(RegexSize(s))
    ensures bt == DOCUMENT || bt == ARRAY ==>
              RawSize(bt, s) == if |s| < 4 || Int32(s) < 4 || Int32(s) > |s| then None else Some(Int32(s))
    ensures bt == STRING ==>
              RawSize(bt, s) == if |s| < 4 || Int32(s) < 0 || Int32(s) + 4 > |s| then None else Some(4 + Int32(s))
    ensures bt == BINARY ==>
              RawSize(bt, s) == if |s| < 4 || Int32(s) < -1 || Int32(s) + 5 > |s| then None else Some(5 + Int32(s))
    ensures bt == DBPOINTER || bt == JSCODE || bt == SYMBOL || bt == CODEWS ==>
              RawSize(bt, s) == if |s| < 4 || Behind(bt, Int32(s)) < 0 || Behind(bt, Int32(s)) + 4 > |s| then None
                                else Some(4 + Behind(bt, Int32(s)))
    ensures Indexed(bt) || (bt in {MINKEY, MAXKEY, NULL, REGEX, DBPOINTER, JSCODE, SYMBOL, CODEWS, STRING, BINARY, DOCUMENT, ARRAY})
            || RawSize(bt, s).None?
  {
    hide Int32, RegexSize;
  }

  /** A length and as many bytes behind it as it says, kept with the length */
  method UnpackCounted(r: Reader, bt: Byte) returns (v: Option<Value>)
    requires r.Valid() && (bt == DBPOINTER || bt == JSCODE || bt == SYMBOL || bt == CODEWS)
    modifies r
    ensures r.Valid() && r.ptr + r.size == old(r.ptr + r.size)
    ensures v.Some? <==> RawSize(bt, old(r.Rest())).Some?
    ensures v.Some? ==> var n := RawSize(bt, old(r.Rest())).value;
              v.value == Object(bt, old(r.Rest())[..n]) && r.Rest() == old(r.Rest())[n..]
  {
    hide Int32, RawSize;
    ghost var s := r.Rest();
    RawSizeOf(bt, s);
    var from := r.ptr;
    var n := r.ReadInt32();
    if n.None? {
      return None;
    }
    var m := if bt == DBPOINTER then n.value + 12 else if bt == CODEWS then n.value - 4 else n.value;
    assert m == Behind(bt, n.value);
    var b := r.ReadBytes(m);
    if b.None? {
      return None;
    }
    v := Some(Object(bt, r.data[from..from + 4 + m]));
    assert s[..4 + m] == r.data[from..from + 4 + m];
    assert s[4..][m..] == s[4 + m..];
  }

  lemma StringCut(s: seq<Byte>, n: nat)
    requires 1 <= n && 4 + n <= |s|
    ensures s[..4 + n][4..3 + n] == s[4..][..n][..n - 1] && s[4..][n..] == s[4 + n..]
  {
  }

  method UnpackString(r: Reader) returns (v: Option<Value>)
    requires r.Valid()
    modifies r
    ensures r.Valid() && r.ptr + r.size == old(r.ptr + r.size)
    ensures v.Some? <==> RawSize(STRING, old(r.Rest())).Some? && RawSize(STRING, old(r.Rest())).value >= 5
    ensures v.Some? ==> var n := RawSize(STRING, old(r.Rest())).value;
              v.value == Str(old(r.Rest())[..n][4..n - 1]) && r.Rest() == old(r.Rest())[n..]
  {
    hide Int32, RawSize;
    ghost var s := r.Rest();
    RawSizeOf(STRING, s);
    var n := r.ReadInt32();
    if n.None? || n.value <= 0 {
      return None;
    }
    var b := r.ReadBytes(n.value);
    if b.None? {
      return None;
    }
    StringCut(s, n.value);
    v := Some(Str(b.value[..n.value - 1]));
  }

  method UnpackBinary(r: Reader) returns (v: Option<Value>)
    requires r.Valid()
    modifies r
    ensures r.Valid() && r.ptr + r.size == old(r.ptr + r.size)
    ensures v.Some? <==> RawSize(BINARY, old(r.Rest())).Some? && RawSize(BINARY, old(r.Rest())).value >= 5
    ensures v.Some? ==> var n := RawSize(BINARY, old(r.Rest())).value;
              v.value == Object(BINARY, old(r.Rest())[..n][4..]) && r.Rest() == old(r.Rest())[n..]
  {
    hide Int32, RawSize;
    ghost var s := r.Rest();
    RawSizeOf(BINARY, s);
    var n := r.ReadInt32();
    if n.None? {
      return None;
    }
    var subtype := r.ReadByte();
    if subtype.None? {
      return None;
    }
    var b := r.ReadBytes(n.value);
    if b.None? {
      return None;
    }
    v := Some(Object(BINARY, [subtype.value] + b.value));
    assert s[..5 + n.value][4..] == [s[4]] + s[5..5 + n.value];
  }

  lemma ValOf(bt: Byte, raw: seq<Byte>, num: Numbering)
    requires Indexed(bt) ==> |raw| == FixedSize(bt)
    ensures bt == STRING ==> Val(bt, raw, num) == if |raw| < 5 then None else Some(Str(raw[4..|raw| - 1]))
    ensures bt == BINARY ==> Val(bt, raw, num) == if |raw| < 5 then None else Some(Object(bt, raw[4..]))
    ensures bt == DOCUMENT || bt == ARRAY ==> Val(bt, raw, num) == Decode(raw, bt == ARRAY, num)
    ensures bt in {MINKEY, MAXKEY, NULL, REGEX, DBPOINTER, JSCODE, SYMBOL, CODEWS} ==> Val(bt, raw, num) == Some(Object(bt, raw))
  {
    hide Decode;
  }

  /** A document of four bytes is none. */
  lemma TooShort(d: seq<Byte>, isArray: bool, num: Numbering)
    requires |d| < 5
    ensures Decode(d, isArray, num).None?
  {
  }

  /** One value of any type */
  method UnpackValue(r: Reader, bt: Byte, num: Numbering) returns (v: Option<Value>)
    requires r.Valid()
    modifies r
    ensures r.Valid() && r.ptr + r.size == old(r.ptr + r.size)
    ensures v == FrontValue(bt, old(r.Rest()), num)
    ensures v.Some? ==> RawSize(bt, old(r.Rest())).Some? && r.Rest() == old(r.Rest())[RawSize(bt, old(r.Rest())).value..]
    decreases r.size, 1
  {
    hide Int32, RawSize, Val, Decode, RegexSize, FixedSize;
    ghost var s := r.Rest();
    RawSizeOf(bt, s);
    if RawSize(bt, s).Some? {
      FixedSizeOf(bt, s);
      ValOf(bt, s[..RawSize(bt, s).value], num);
    }
    if bt == REAL || bt == BOOLEAN || bt == INT32 || bt == INT64 || bt == DATE || bt == OBJECTID || bt == TIMESTAMP {
      IndexedOf(bt);
      FixedNeeds(bt, s);
      v := UnpackFixed(r, bt, num);
    } else if bt == STRING {
      v := UnpackString(r);
    } else if bt == DOCUMENT || bt == ARRAY {
      v := UnpackDict(r, bt == ARRAY, num);
      if |s| >= 4 && Int32(s) == 4 {
        TooShort(s[..4], bt == ARRAY, num);
      }
    } else if bt == BINARY {
      v := UnpackBinary(r);
    } else if bt == MINKEY || bt == MAXKEY || bt == NULL {
      v := Some(Object(bt, []));
    } else if bt == REGEX {
      v := UnpackRegex(r);
    } else if bt == DBPOINTER || bt == JSCODE || bt == SYMBOL || bt == CODEWS {
      v := UnpackCounted(r, bt);
    } else {
      NotIndexed(bt);
      v := None;
    }
  }

  lemma FixedSizeOf(bt: Byte, s: seq<Byte>)
    requires RawSize(bt, s).Some?
    ensures Indexed(bt) ==> RawSize(bt, s).value == FixedSize(bt)
  {
  }

  lemma IndexedOf(bt: Byte)
    ensures Indexed(bt) <==> bt in {REAL, BOOLEAN, INT32, INT64, DATE, OBJECTID, TIMESTAMP}
  {
  }

  lemma NotIndexed(bt: Byte)
    requires bt !in {REAL, BOOLEAN, INT32, INT64, DATE, OBJECTID, TIMESTAMP}
    ensures !Indexed(bt)
  {
  }

  /** The fields that are left, and the table so far, make the whole table. */
  predicate Unpacking(s: seq<Byte>, isArray: bool, num: Numbering, m: map<Key, Value>, whole: Option<map<Key, Value>>) {
    DecodeFields(s, isArray, num, m) == whole
  }

  lemma UnpackingNext(s: seq<Byte>, z: nat, isArray: bool, num: Numbering, m: map<Key, Value>, whole: Option<map<Key, Value>>)
    requires s != [] && z == Zero(s[1..]) < |s| - 1
    requires Unpacking(s, isArray, num, m, whole)
    ensures var v := s[z + 2..];
            if FrontValue(s[0], v, num).None? then whole.None?
            else Unpacking(v[RawSize(s[0], v).value..], isArray, num,
                           m[KeyOf(s[1..z + 1], isArray, num) := FrontValue(s[0], v, num).value], whole)
  {
    hide Zero, RawSize, FirstField, Val, FixedSize;
    FieldsNext(s, 0, z);
  }

  lemma UnpackingNoName(s: seq<Byte>, isArray: bool, num: Numbering, m: map<Key, Value>, whole: Option<map<Key, Value>>)
    requires s != [] && Zero(s[1..]) == |s| - 1
    requires Unpacking(s, isArray, num, m, whole)
    ensures whole.None?
  {
    NoName(s, 0);
  }

  lemma UnpackingDone(isArray: bool, num: Numbering, m: map<Key, Value>, whole: Option<map<Key, Value>>)
    ensures Unpacking([], isArray, num, m, whole) <==> whole == Some(m)
  {
  }

  lemma Int32Front(s: seq<Byte>, n: nat)
    requires 4 <= n <= |s|
    ensures Int32(s[..n]) == Int32(s)
  {
    assert s[..n][..4] == s[..4];
  }

  /** The parts of the document at the front of the bytes */
  lemma FrontParts(s: seq<Byte>, isArray: bool, num: Numbering)
    requires |s| >= 4 && 5 <= Int32(s) <= |s|
    ensures var n := Int32(s);
            var whole := DecodeFields(s[4..][..n - 5], isArray, num, map[]);
            FrontDocument(s, isArray, num) == if s[n - 1] != 0 || whole.None? then None else Some(Table(whole.value))
  {
    hide Int32, DecodeFields;
    var n := Int32(s);
    Int32Front(s, n);
    assert s[..n][4..n - 1] == s[4..][..n - 5];
  }

  lemma NoFront(s: seq<Byte>, isArray: bool, num: Numbering)
    requires |s| < 4 || Int32(s) < 5 || Int32(s) > |s|
    ensures FrontDocument(s, isArray, num).None?
  {
  }

  /** A document and all that is in it */
  method UnpackDict(r: Reader, isArray: bool, num: Numbering) returns (v: Option<Value>)
    requires r.Valid()
    modifies r
    ensures r.Valid() && r.ptr + r.size == old(r.ptr + r.size)
    ensures v == FrontDocument(old(r.Rest()), isArray, num)
    ensures v.Some? ==> r.Rest() == old(r.Rest())[Int32(old(r.Rest()))..]
    decreases r.size, 0
  {
    hide Int32, RawSize, Zero, FrontValue, Unpacking, FrontDocument;
    ghost var s := r.Rest();
    var n := r.ReadInt32();
    if n.None? {
      NoFront(s, isArray, num);
      return None;
    }
    var from := r.ptr;
    var bytes := r.ReadBytes(n.value - 5);
    var end := None;
    if bytes.Some? {
      end := r.ReadByte();
    }
    if end.None? {
      NoFront(s, isArray, num);
      return None;
    }
    FrontParts(s, isArray, num);
    assert end.value == s[n.value - 1] && r.Rest() == s[n.value..];
    if end.value != 0 {
      return None;
    }
    var t := new Reader(r.data, from, n.value - 5);
    assert t.Rest() == s[4..][..n.value - 5];
    var m := UnpackFields(t, isArray, num);
    v := if m.None? then None else Some(Table(m.value));
  }

  /** The loop over the fields, up to the end of the document */
  method UnpackFields(t: Reader, isArray: bool, num: Numbering) returns (r: Option<map<Key, Value>>)
    requires t.Valid()
    modifies t
    ensures r == DecodeFields(old(t.Rest()), isArray, num, map[])
    decreases t.size, 2
  {
    hide RawSize, Zero, FrontValue, DecodeFields;
    ghost var whole := DecodeFields(t.Rest(), isArray, num, map[]);
    var m: map<Key, Value> := map[];
    while t.size != 0
      invariant t.Valid() && t.size <= old(t.size)
      invariant Unpacking(t.Rest(), isArray, num, m, whole)
      decreases t.size
    {
      hide Unpacking;
      ghost var s := t.Rest();
      var bt := t.ReadByte();
      var key := t.ReadCstring();
      if key.None? {
        UnpackingNoName(s, isArray, num, m, whole);
        return None;
      }
      ghost var z := Zero(s[1..]);
      assert key.value == s[1..z + 1] && t.Rest() == s[z + 2..];
      UnpackingNext(s, z, isArray, num, m, whole);
      var v := UnpackValue(t, bt.value, num);
      if v.None? {
        return None;
      }
      assert t.size == |t.Rest()| < |s|;
      m := m[KeyOf(key.value, isArray, num) := v.value];
    }
    UnpackingDone(isArray, num, m, whole);
    r := Some(m);
  }

  // ---- The whole --------------------------------------------------------------------------------------------------

  /** `ldecode` */
  method DecodeDocument(doc: seq<Byte>, num: Numbering) returns (v: Option<Value>)
    requires |doc| >= 4 && Int32(doc) == |doc|
    ensures v == Decode(doc, false, num)
  {
    hide Int32, Decode;
    var r := new Reader(doc, 0, |doc|);
    assert r.Rest() == doc;
    v := UnpackDict(r, false, num);
    if |doc| >= 5 {
      assert doc[..|doc|] == doc;
    } else {
      TooShort(doc, false, num);
    }
  }

  /** The field that the index has for the name, if any, begins below 2^26: `IdBack` says that only then its place is known. */
  predicate InReach(d: seq<Byte>, key: seq<Byte>)
    requires |d| >= 5
  {
    match Fields(Inside(d), 4)
    case None => true
    case Some(fs) => LastIndexed(fs, key).Some? ==> fs[LastIndexed(fs, key).value].at < 0x400_0000
  }

  /** The index says where a field within reach is. */
  lemma Located(d: seq<Byte>, i: nat)
    requires 5 <= |d| && Fields(Inside(d), 4).Some?
    requires i < |Fields(Inside(d), 4).value| && Indexed(Fields(Inside(d), 4).value[i].bt)
    requires Fields(Inside(d), 4).value[i].at < 0x400_0000
    ensures var f := Fields(Inside(d), 4).value[i];
            && 4 <= f.at && f.at + FixedSize(f.bt) <= |d| - 1
            && IdType(Id(f.bt, f.at)) == f.bt && IdPlace(Id(f.bt, f.at)) == f.at
            && InDocument(|d|, Id(f.bt, f.at))
  {
    hide FixedSize, Id, IdType, IdPlace;
    var f := Fields(Inside(d), 4).value[i];
    FieldsSized(Inside(d), 4);
    FieldsPatched(Inside(d), 4, i, f.raw);
    IdBack(f.bt, f.at);
  }

  /** A document is decoded, indexed, changed in one name, and decoded again: the second table is the first one with the new
      value at the name when the field found by the index is the last of the name, and is the first table when it is not. */
  method ReplaceAndDecode(doc: array<Byte>, key: seq<Byte>, a: Arg, double: int -> Bits, num: Numbering)
    returns (before: Option<Value>, ok: bool, after: Option<Value>)
    requires 5 <= doc.Length && Int32(doc[..]) == doc.Length && InReach(doc[..], key)
    requires Decode(doc[..], false, num).Some?
    modifies doc
    ensures before == Decode(old(doc[..]), false, num)
    ensures Fields(Inside(old(doc[..])), 4).Some?
    ensures var fs := Fields(Inside(old(doc[..])), 4).value;
            var i := LastIndexed(fs, key);
            && (ok <==> i.Some? && Accepts(fs[i.value].bt, a))
            && after == if ok && Last(fs, i.value)
                        then Some(Table(before.value.fields[Name(key) := Shown(fs[i.value].bt, a, double)]))
                        else before
  {
    hide Int32, Decode, Val, Fields, IndexFrom, Id, FixedSize, Shown, Written, Accepts, Last;
    ghost var d := doc[..];
    DecodesToFields(d, num);
    before := DecodeDocument(doc[..], num);
    var index := MakeIndex(doc[..]);
    ghost var fs := Fields(Inside(d), 4).value;
    IndexIs(fs, map[], key);
    ghost var i := LastIndexed(fs, key);
    if i.Some? {
      Located(d, i.value);
    }
    ok := Replace(doc, index.value, key, a, double);
    if ok {
      ghost var f := fs[i.value];
      InsidePatched(d, f.at, Written(f.bt, a, double));
      WrittenShown(f.bt, a, double, num);
      DocumentPatched(d, num, before.value.fields, i.value, Written(f.bt, a, double), Shown(f.bt, a, double));
    }
    after := DecodeDocument(doc[..], num);
  }

  // ---- A name that comes twice ------------------------------------------------------------------------------------

  /** { a: 7, a: "" } */
  function Twice(): (d: seq<Byte>)
    ensures |d| == 20
  {
    [20, 0, 0, 0] + ([INT32, 97, 0, 7, 0, 0, 0] + [STRING, 97, 0, 1, 0, 0, 0, 0]) + [0]
  }

  /** Two fields, one after the other */
  lemma TwoFields(base: nat, f: Field, g: Field, s: seq<Byte>, rest: seq<Byte>)
    requires Zero(f.key) == |f.key| && Zero(g.key) == |g.key|
    requires rest == [g.bt] + g.key + [0] + (g.raw + []) && s == [f.bt] + f.key + [0] + (f.raw + rest)
    requires RawSize(f.bt, f.raw + rest) == Some(|f.raw|) && RawSize(g.bt, g.raw + []) == Some(|g.raw|)
    requires f.at == base + 2 + |f.key| && g.at == base + |s| - |rest| + 2 + |g.key|
    ensures Fields(s, base) == Some([f, g])
  {
    hide RawSize, Zero, FirstField;
    FirstFieldIs(f.bt, f.key, f.raw, rest, base);
    FirstFieldIs(g.bt, g.key, g.raw, [], base + |s| - |rest|);
    FieldsStep(rest, base + |s| - |rest|, g, [], []);
    assert [g] + [] == [g] && [f] + [g] == [f, g];
    FieldsStep(s, base, f, rest, [g]);
  }

  /** The two fields of the document */
  function TwiceList(): (fs: seq<Field>)
    ensures |fs| == 2
  {
    [Field(INT32, [97], 7, [7, 0, 0, 0]), Field(STRING, [97], 14, [1, 0, 0, 0, 0])]
  }

  lemma TwiceFields()
    ensures Fields(Inside(Twice()), 4) == Some(TwiceList())
  {
    var (f, g) := (TwiceList()[0], TwiceList()[1]);
    var rest := [STRING, 97, 0, 1, 0, 0, 0, 0];
    ZeroIs([97], 1);
    SmallInt32(g.raw, 1);
    hide Zero, Int32, Fields;
    assert g.raw + [] == g.raw;
    assert rest == [g.bt] + g.key + [0] + (g.raw + []);
    assert Inside(Twice()) == [f.bt] + f.key + [0] + (f.raw + rest);
    TwoFields(4, f, g, Inside(Twice()), rest);
    assert [f, g] == TwiceList();
  }

  lemma SmallInt32(s: seq<Byte>, n: Byte)
    requires |s| >= 4 && s[0] == n && s[1] == s[2] == s[3] == 0
    ensures Int32(s) == n
  {
    var t := s[..4];
    assert Seri.FromLittle(t[1..][1..][1..][1..]) == 0;
    assert Seri.FromLittle(t[1..][1..][1..]) == 0;
    assert Seri.FromLittle(t[1..][1..]) == 0;
    assert Seri.FromLittle(t[1..]) == 0;
    assert Seri.FromLittle(t) == n;
  }

  /** The document decodes to the string, while the index has the number: a replacement of the name does not show. */
  method ReplaceUnseen(a: int, double: int -> Bits, num: Numbering) returns (before: Option<Value>, ok: bool, after: Option<Value>)
    ensures before == after == Some(Table(map[Name([97]) := Str([])])) && ok
  {
    hide *;
    var d := Twice();
    TwiceFields();
    TwiceDecodes(num);
    TwiceReady(a);
    var doc := new Byte[|d|](i requires 0 <= i < |d| => d[i]);
    assert doc[..] == d;
    before, ok, after := ReplaceAndDecode(doc, [97], Int(a), double, num);
  }

  lemma TwiceReady(a: int)
    ensures LastIndexed(TwiceList(), [97]) == Some(0) && !Last(TwiceList(), 0) && Accepts(TwiceList()[0].bt, Int(a))
    ensures Int32(Twice()) == 20 && InReach(Twice(), [97])
  {
    var fs := TwiceList();
    assert fs[1].key == fs[0].key;
    OnlyFirst(fs);
    SmallInt32(Twice(), 20);
    TwiceFields();
    hide Fields, Int32, Inside, LastIndexed;
  }

  lemma OnlyFirst(fs: seq<Field>)
    requires |fs| == 2 && Indexed(fs[0].bt) && fs[0].key == [97] && !Indexed(fs[1].bt)
    ensures LastIndexed(fs, [97]) == Some(0)
  {
    assert fs[1..][1..] == [];
    assert LastIndexed(fs[1..], [97]) == None;
  }

  lemma TwiceDecodes(num: Numbering)
    ensures Decode(Twice(), false, num) == Some(Table(map[Name([97]) := Str([])]))
  {
    var d := Twice();
    TwiceFields();
    SmallInt32(d, 20);
    DecodeIsFold(Inside(d), 4, num, map[]);
    TwiceFold(TwiceList(), num);
    hide Fields, Int32, DecodeFields, TwiceList, Fold, Sized;
  }

  lemma TwiceFold(fs: seq<Field>, num: Numbering)
    requires fs == TwiceList() && Sized(fs)
    ensures Fold(fs, num, map[]) == Some(map[Name([97]) := Str([])])
  {
    SmallInt32(fs[0].raw, 7);
    hide Int32;
    ValOf(STRING, fs[1].raw, num);
    var k := Name([97]);
    var m1: map<Key, Value> := map[][k := Integer(7)];
    assert Val(INT32, fs[0].raw, num) == Some(Integer(7));
    assert fs[1].raw[4..4] == [];
    assert fs[1..] == [fs[1]] && fs[1..][1..] == [];
    assert m1[k := Str([])] == map[k := Str([])];
    assert Fold(fs[1..], num, m1) == Some(map[k := Str([])]);
  }
}
