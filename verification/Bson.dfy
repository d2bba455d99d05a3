/** The documents of lua-bson.c: decoding, the index of the fields whose values have a fixed size, and the replacement of such
    a value in place. */
module Bson {
  import Seri

  type Byte = Seri.Byte

  datatype Option<+T> = None | Some(value: T)

  // ---- Values -----------------------------------------------------------------------------------------------------

  const REAL: Byte := 1
  const STRING: Byte := 2
  const DOCUMENT: Byte := 3
  const ARRAY: Byte := 4
  const BINARY: Byte := 5
  const OBJECTID: Byte := 7
  const BOOLEAN: Byte := 8
  const DATE: Byte := 9
  const NULL: Byte := 10
  const REGEX: Byte := 11
  const DBPOINTER: Byte := 12
  const JSCODE: Byte := 13
  const SYMBOL: Byte := 14
  const CODEWS: Byte := 15
  const INT32: Byte := 16
  const TIMESTAMP: Byte := 17
  const INT64: Byte := 18
  const MINKEY: Byte := 255
  const MAXKEY: Byte := 127

  datatype Key = Name(s: seq<Byte>) | Position(n: int)

  /** What decoding leaves in Lua. The types without a Lua type of their own are strings: a zero, the type, and the data. */
  datatype Value =
    | Real(bits: seq<Byte>)
    | Boolean(b: bool)
    | Integer(i: int)
    | Str(s: seq<Byte>)
    | Table(fields: map<Key, Value>)

  function Object(bt: Byte, data: seq<Byte>): Value {
    Str([0, bt] + data)
  }

  /** How a name of an array's field is read as a number (`strtol`): nothing depends on it. */
  type Numbering = seq<Byte> -> int

  // ---- The format -------------------------------------------------------------------------------------------------

  function Int32(s: seq<Byte>): int
    requires |s| >= 4
  {
    Seri.Signed(Seri.FromLittle(s[..4]), Seri.INT31)
  }

  function Int64(s: seq<Byte>): int
    requires |s| >= 8
  {
    Seri.Signed(Seri.FromLittle(s[..8]), Seri.INT63)
  }

  /** Where the first zero is; the length when there is none */
  function Zero(s: seq<Byte>): (z: nat)
    ensures z <= |s|
    ensures forall k :: 0 <= k < z ==> s[k] != 0
    ensures z < |s| ==> s[z] == 0
  {
    if s == [] || s[0] == 0 then 0 else 1 + Zero(s[1..])
  }

  /** The types whose values all have the same size, other than none */
  function FixedSize(bt: Byte): nat {
    if bt == REAL || bt == DATE || bt == TIMESTAMP || bt == INT64 then 8
    else if bt == BOOLEAN then 1
    else if bt == OBJECTID then 12
    else if bt == INT32 then 4
    else 0
  }

  predicate Indexed(bt: Byte) {
    FixedSize(bt) > 0
  }

  /** What a length in front of a value says of the bytes behind it */
  function Behind(bt: Byte, len: int): int {
    if bt == STRING || bt == JSCODE || bt == SYMBOL then len
    else if bt == DOCUMENT || bt == ARRAY || bt == CODEWS then len - 4
    else if bt == BINARY then len + 1
    else if bt == DBPOINTER then len + 12
    else -1
  }

  /** The two strings of a regular expression, with their zeros */
  function RegexSize(s: seq<Byte>): nat {
    var z := Zero(s);
    if z == |s| then |s| + 1 else z + 1 + Zero(s[z + 1..]) + 1
  }

  /** How long the value at the front is; none for a type that is not supported and for a value that is not there */
  function RawSize(bt: Byte, s: seq<Byte>): (r: Option<nat>)
    ensures r.Some? ==> r.value <= |s|
  {
    if Indexed(bt) then if |s| < FixedSize(bt) then None else Some(FixedSize(bt))
    else if bt == MINKEY || bt == MAXKEY || bt == NULL then Some(0)
    else if bt == REGEX then if RegexSize(s) > |s| then None else Some(RegexSize(s))
    else if |s| < 4 || Behind(bt, Int32(s)) < 0 || |s| - 4 < Behind(bt, Int32(s)) then None
    else Some(4 + Behind(bt, Int32(s)))
  }

  /** A field: its type, its name, where its value begins, and the bytes of the value */
  datatype Field = Field(bt: Byte, key: seq<Byte>, at: nat, raw: seq<Byte>)

  datatype Head = Head(field: Field, rest: seq<Byte>)

  /** The first of the fields; `base` is where they begin in the document. */
  function FirstField(s: seq<Byte>, base: nat): (r: Option<Head>)
    requires s != []
    ensures r.Some? ==> |r.value.rest| < |s| && |r.value.field.raw| < |s|
  {
    var z := Zero(s[1..]);
    if z == |s| - 1 then None
    else
      var v := s[z + 2..];
      match RawSize(s[0], v)
      case None => None
      case Some(n) => Some(Head(Field(s[0], s[1..z + 1], base + z + 2, v[..n]), v[n..]))
  }

  function Fields(s: seq<Byte>, base: nat): Option<seq<Field>>
    decreases |s|
  {
    if s == [] then Some([])
    else
      match FirstField(s, base)
      case None => None
      case Some(h) =>
        match Fields(h.rest, base + |s| - |h.rest|)
        case None => None
        case Some(fs) => Some([h.field] + fs)
  }

  // ---- Decoding ---------------------------------------------------------------------------------------------------

  /** Truncated as in C */
  function Seconds(date: int): int {
    if date < 0 then -(-date / 1000) else date / 1000
  }

  /** The value of the bytes of a field */
  function Val(bt: Byte, raw: seq<Byte>, num: Numbering): Option<Value>
    requires Indexed(bt) ==> |raw| == FixedSize(bt)
    decreases |raw|, 2
  {
    if bt == REAL then Some(Real(raw))
    else if bt == BOOLEAN then Some(Boolean(raw[0] != 0))
    else if bt == INT32 then Some(Integer(Int32(raw)))
    else if bt == INT64 then Some(Integer(Int64(raw)))
    else if bt == DATE then Some(Object(DATE, Seri.Little(Seconds(Int64(raw)) % Seri.INT32, 4)))
    else if bt == STRING then if |raw| < 5 then None else Some(Str(raw[4..|raw| - 1]))
    else if bt == DOCUMENT || bt == ARRAY then Decode(raw, bt == ARRAY, num)
    else if bt == BINARY then if |raw| < 5 then None else Some(Object(BINARY, raw[4..]))
    else Some(Object(bt, raw))
  }

  /** A document: its length, its fields and a zero */
  function Decode(d: seq<Byte>, isArray: bool, num: Numbering): Option<Value>
    decreases |d|, 1
  {
    if |d| < 5 || Int32(d) != |d| || d[|d| - 1] != 0 then None
    else
      match DecodeFields(d[4..|d| - 1], isArray, num, map[])
      case None => None
      case Some(m) => Some(Table(m))
  }

  function KeyOf(name: seq<Byte>, isArray: bool, num: Numbering): Key {
    if isArray then Position(num(name) + 1) else Name(name)
  }

  /** The fields into a table; a later field takes the place of an earlier one of the same name. */
  function DecodeFields(s: seq<Byte>, isArray: bool, num: Numbering, m: map<Key, Value>): Option<map<Key, Value>>
    decreases |s|, 0
  {
    if s == [] then Some(m)
    else
      match FirstField(s, 0)
      case None => None
      case Some(h) =>
        FirstFieldSize(s, 0);
        match Val(h.field.bt, h.field.raw, num)
        case None => None
        case Some(v) => DecodeFields(h.rest, isArray, num, m[KeyOf(h.field.key, isArray, num) := v])
  }

  lemma FirstFieldSize(s: seq<Byte>, base: nat)
    requires s != [] && FirstField(s, base).Some?
    ensures var f := FirstField(s, base).value.field; Indexed(f.bt) ==> |f.raw| == FixedSize(f.bt)
  {
  }

  // ---- Decoding as a fold over the fields -------------------------------------------------------------------------

  predicate Sized(fs: seq<Field>) {
    forall k :: 0 <= k < |fs| && Indexed(fs[k].bt) ==> |fs[k].raw| == FixedSize(fs[k].bt)
  }

  lemma {:induction false} FieldsSized(s: seq<Byte>, base: nat)
    requires Fields(s, base).Some?
    ensures Sized(Fields(s, base).value)
    decreases |s|
  {
    hide FirstField, FixedSize;
    if s != [] {
      FirstFieldSize(s, base);
      var h := FirstField(s, base).value;
      FieldsSized(h.rest, base + |s| - |h.rest|);
    }
  }

  function Fold(fs: seq<Field>, num: Numbering, m: map<Key, Value>): Option<map<Key, Value>>
    requires Sized(fs)
  {
    if fs == [] then Some(m)
    else
      match Val(fs[0].bt, fs[0].raw, num)
      case None => None
      case Some(v) =>
        assert Sized(fs[1..]);
        Fold(fs[1..], num, m[Name(fs[0].key) := v])
  }

  lemma FirstFieldBase(s: seq<Byte>, base: nat)
    requires s != []
    ensures FirstField(s, 0).Some? <==> FirstField(s, base).Some?
    ensures FirstField(s, base).Some? ==>
              var h, g := FirstField(s, 0).value, FirstField(s, base).value;
              h.rest == g.rest && h.field.bt == g.field.bt && h.field.key == g.field.key && h.field.raw == g.field.raw
  {
    hide RawSize, Zero;
  }

  lemma {:induction false} DecodeIsFold(s: seq<Byte>, base: nat, num: Numbering, m: map<Key, Value>)
    ensures Fields(s, base).None? ==> DecodeFields(s, false, num, m).None?
    ensures Fields(s, base).Some? ==> Sized(Fields(s, base).value)
    ensures Fields(s, base).Some? ==> DecodeFields(s, false, num, m) == Fold(Fields(s, base).value, num, m)
    decreases |s|
  {
    hide FirstField, Val, FixedSize;
    if Fields(s, base).Some? {
      FieldsSized(s, base);
    }
    if s != [] {
      FirstFieldBase(s, base);
      if FirstField(s, 0).Some? {
        FirstFieldSize(s, 0);
        var h := FirstField(s, 0).value;
        var v := Val(h.field.bt, h.field.raw, num);
        if v.Some? {
          DecodeIsFold(h.rest, base + |s| - |h.rest|, num, m[Name(h.field.key) := v.value]);
          var fs := Fields(h.rest, base + |s| - |h.rest|);
          if fs.Some? {
            assert ([FirstField(s, base).value.field] + fs.value)[1..] == fs.value;
          }
        }
      }
    }
  }

  // ---- One value replaced -----------------------------------------------------------------------------------------

  /** No later field has the name of field i. */
  predicate Last(fs: seq<Field>, i: nat) {
    i < |fs| && forall k :: i < k < |fs| ==> fs[k].key != fs[i].key
  }

  predicate Named(fs: seq<Field>, key: seq<Byte>) {
    exists k :: 0 <= k < |fs| && fs[k].key == key
  }

  /** A value put in the table first stays, unless a field of the name follows. */
  lemma {:induction false} FoldOver(fs: seq<Field>, num: Numbering, m: map<Key, Value>, key: seq<Byte>, v: Value, w: Value)
    requires Sized(fs)
    requires Fold(fs, num, m[Name(key) := v]).Some?
    ensures Fold(fs, num, m[Name(key) := w]) ==
            Some(var t := Fold(fs, num, m[Name(key) := v]).value; if Named(fs, key) then t else t[Name(key) := w])
  {
    hide Val, FixedSize;
    if fs == [] {
      assert m[Name(key) := w] == m[Name(key) := v][Name(key) := w];
    } else {
      var f := fs[0];
      var x := Val(f.bt, f.raw, num).value;
      assert Sized(fs[1..]);
      if f.key == key {
        assert m[Name(key) := v][Name(key) := x] == m[Name(key) := w][Name(key) := x];
        assert fs[0].key == key;
      } else {
        var m' := m[Name(f.key) := x];
        assert m[Name(key) := v][Name(f.key) := x] == m'[Name(key) := v];
        assert m[Name(key) := w][Name(f.key) := x] == m'[Name(key) := w];
        FoldOver(fs[1..], num, m', key, v, w);
        NamedRest(fs, key);
      }
    }
  }

  lemma NamedRest(fs: seq<Field>, key: seq<Byte>)
    requires fs != []
    ensures Named(fs, key) <==> fs[0].key == key || Named(fs[1..], key)
  {
    if Named(fs, key) && fs[0].key != key {
      var k :| 0 <= k < |fs| && fs[k].key == key;
      assert fs[1..][k - 1].key == key;
    }
    if Named(fs[1..], key) {
      var k :| 0 <= k < |fs[1..]| && fs[1..][k].key == key;
      assert fs[k + 1].key == key;
    }
  }

  function Replaced(fs: seq<Field>, i: nat, raw: seq<Byte>): seq<Field>
    requires i < |fs|
  {
    fs[i := fs[i].(raw := raw)]
  }

  /** The table changes in the one name, if the field is the last of that name, and else not at all. */
  lemma {:induction false} FoldReplaced(fs: seq<Field>, num: Numbering, m: map<Key, Value>, i: nat, raw: seq<Byte>, w: Value)
    requires Sized(fs) && i < |fs| && Sized(Replaced(fs, i, raw))
    requires Fold(fs, num, m).Some?
    requires Indexed(fs[i].bt) ==> |raw| == FixedSize(fs[i].bt)
    requires Val(fs[i].bt, raw, num) == Some(w)
    ensures Fold(Replaced(fs, i, raw), num, m) ==
            Some(var t := Fold(fs, num, m).value; if Last(fs, i) then t[Name(fs[i].key) := w] else t)
  {
    hide Val, FixedSize;
    var v := Val(fs[0].bt, fs[0].raw, num).value;
    assert Sized(fs[1..]);
    var gs := Replaced(fs, i, raw);
    if i == 0 {
      assert gs[1..] == fs[1..];
      FoldOver(fs[1..], num, m, fs[0].key, v, w);
      LastFirst(fs);
    } else {
      assert gs[1..] == Replaced(fs[1..], i - 1, raw);
      FoldReplaced(fs[1..], num, m[Name(fs[0].key) := v], i - 1, raw, w);
      LastRest(fs, i);
    }
  }

  lemma LastFirst(fs: seq<Field>)
    requires fs != []
    ensures Last(fs, 0) <==> !Named(fs[1..], fs[0].key)
  {
    if !Last(fs, 0) {
      var k :| 0 < k < |fs| && fs[k].key == fs[0].key;
      assert fs[1..][k - 1].key == fs[0].key;
    }
  }

  lemma LastRest(fs: seq<Field>, i: nat)
    requires 0 < i < |fs|
    ensures Last(fs, i) <==> Last(fs[1..], i - 1)
  {
    if Last(fs[1..], i - 1) {
      forall k | i < k < |fs| ensures fs[k].key != fs[i].key {
        assert fs[1..][k - 1].key != fs[1..][i - 1].key;
      }
    }
    if Last(fs, i) {
      forall k | i - 1 < k < |fs| - 1 ensures fs[1..][k].key != fs[1..][i - 1].key {
        assert fs[k + 1].key != fs[i].key;
      }
    }
  }

  // ---- The same on the bytes --------------------------------------------------------------------------------------

  function Patched(s: seq<Byte>, at: nat, raw: seq<Byte>): (r: seq<Byte>)
    requires at + |raw| <= |s|
    ensures |r| == |s|
  {
    s[..at] + raw + s[at + |raw|..]
  }

  /** The first zero is known by its place. */
  lemma {:induction false} ZeroIs(s: seq<Byte>, z: nat)
    requires z <= |s| && (forall k :: 0 <= k < z ==> s[k] != 0) && (z < |s| ==> s[z] == 0)
    ensures Zero(s) == z
  {
    if z > 0 {
      ZeroIs(s[1..], z - 1);
    }
  }

  lemma ZeroFront(a: seq<Byte>, b: seq<Byte>)
    requires Zero(a) < |a|
    ensures Zero(a + b) == Zero(a)
  {
    ZeroIs(a + b, Zero(a));
  }

  /** A name with its zero, in front of anything */
  lemma NameFront(key: seq<Byte>, b: seq<Byte>)
    requires Zero(key) == |key|
    ensures Zero(key + [0] + b) == |key|
  {
    ZeroIs(key + [0], |key|);
    ZeroFront(key + [0], b);
  }

  lemma ConcatParts(bt: Byte, key: seq<Byte>, v: seq<Byte>)
    ensures var s := [bt] + key + [0] + v;
            s[0] == bt && s[1..] == key + [0] + v && s[1..|key| + 1] == key && s[|key| + 2..] == v
  {
  }

  /** The first of the fields: a type, a name, a zero and a value, whatever follows */
  lemma FirstFieldIs(bt: Byte, key: seq<Byte>, raw: seq<Byte>, rest: seq<Byte>, base: nat)
    requires Zero(key) == |key|
    requires RawSize(bt, raw + rest) == Some(|raw|)
    ensures FirstField([bt] + key + [0] + (raw + rest), base) == Some(Head(Field(bt, key, base + 2 + |key|, raw), rest))
  {
    NameFront(key, raw + rest);
    ConcatParts(bt, key, raw + rest);
    FirstFieldUnfold([bt] + key + [0] + (raw + rest), base, bt, key, raw + rest, |raw|);
    assert (raw + rest)[..|raw|] == raw && (raw + rest)[|raw|..] == rest;
  }

  lemma FirstFieldUnfold(s: seq<Byte>, base: nat, bt: Byte, key: seq<Byte>, v: seq<Byte>, n: nat)
    requires |s| == |key| + 2 + |v| && s[0] == bt && s[1..|key| + 1] == key && s[|key| + 2..] == v
    requires Zero(s[1..]) == |key| && RawSize(bt, v) == Some(n) && n <= |v|
    ensures FirstField(s, base) == Some(Head(Field(bt, key, base + 2 + |key|, v[..n]), v[n..]))
  {
    hide RawSize, Zero;
  }

  lemma FirstFieldParts(s: seq<Byte>, base: nat)
    requires s != [] && FirstField(s, base).Some?
    ensures var h := FirstField(s, base).value;
            && Zero(h.field.key) == |h.field.key|
            && s == [h.field.bt] + h.field.key + [0] + (h.field.raw + h.rest)
            && h.field.at == base + 2 + |h.field.key|
            && RawSize(h.field.bt, h.field.raw + h.rest) == Some(|h.field.raw|)
  {
    hide RawSize;
    var z := Zero(s[1..]);
    var h := FirstField(s, base).value;
    assert s[z + 2..] == h.field.raw + h.rest;
    assert h.field.key == s[1..][..z];
    assert s[z + 1] == s[1..][z] == 0;
    assert s == [s[0]] + s[1..z + 1] + [s[z + 1]] + s[z + 2..];
    ZeroIs(h.field.key, z);
  }

  /** How long a value is depends on the value alone. */
  lemma RawSizeLocal(bt: Byte, raw: seq<Byte>, a: seq<Byte>, b: seq<Byte>)
    requires RawSize(bt, raw + a) == Some(|raw|)
    ensures RawSize(bt, raw + b) == Some(|raw|)
  {
    hide Behind, FixedSize, Int32, RegexSize;
    if !Indexed(bt) && !(bt == MINKEY || bt == MAXKEY || bt == NULL) {
      if bt == REGEX {
        RegexLocal(raw, a, b);
      } else {
        assert Behind(bt, Int32(raw + a)) == |raw| - 4;
        Int32Local(raw, a, b);
      }
    }
  }

  lemma Int32Local(raw: seq<Byte>, a: seq<Byte>, b: seq<Byte>)
    requires |raw| >= 4
    ensures Int32(raw + a) == Int32(raw + b) == Int32(raw)
  {
    assert (raw + a)[..4] == raw[..4] == (raw + b)[..4];
  }

  lemma RegexLocal(raw: seq<Byte>, a: seq<Byte>, b: seq<Byte>)
    requires RegexSize(raw + a) == |raw|
    ensures RegexSize(raw + b) == |raw|
  {
    var s, t := raw + a, raw + b;
    var z := Zero(s);
    var y := Zero(s[z + 1..]);
    assert z + 1 + y + 1 == |raw|;
    assert raw[z] == s[z] == 0;
    TailAppend(raw, a, z + 1);
    TailAppend(raw, b, z + 1);
    ZeroAt(raw, z, s);
    ZeroFront(raw, a);
    ZeroFront(raw, b);
    var u := raw[z + 1..];
    assert u[y] == s[z + 1..][y] == 0;
    ZeroAt(u, y, s[z + 1..]);
    ZeroFront(u, a);
    ZeroFront(u, b);
  }

  lemma TailAppend(a: seq<Byte>, b: seq<Byte>, k: nat)
    requires k <= |a|
    ensures (a + b)[k..] == a[k..] + b
  {
  }

  lemma ZeroAt(a: seq<Byte>, z: nat, s: seq<Byte>)
    requires z < |a| <= |s| && a == s[..|a|] && Zero(s) == z && a[z] == 0
    ensures Zero(a) == z
  {
    ZeroIs(a, z);
  }

  /** The fields of the patched bytes are the fields with the one value replaced. */
  lemma {:induction false} FieldsPatched(s: seq<Byte>, base: nat, i: nat, raw: seq<Byte>)
    requires Fields(s, base).Some? && i < |Fields(s, base).value|
    requires var f := Fields(s, base).value[i]; Indexed(f.bt) && |raw| == FixedSize(f.bt)
    ensures var f := Fields(s, base).value[i];
            && base <= f.at && f.at + |raw| <= base + |s|
            && Fields(Patched(s, f.at - base, raw), base) == Some(Replaced(Fields(s, base).value, i, raw))
    decreases |s|
  {
    hide FirstField, FixedSize, RawSize, Zero;
    FirstFieldParts(s, base);
    var h := FirstField(s, base).value;
    var f := h.field;
    var front := [f.bt] + f.key + [0];
    var next := base + |s| - |h.rest|;
    var fs := Fields(h.rest, next).value;
    assert Fields(s, base).value == [f] + fs;
    if i == 0 {
      FirstFieldSize(s, base);
      PatchedFirst(front, f.raw, h.rest, raw);
      FixedRawSize(f.bt, raw, h.rest);
      FirstFieldIs(f.bt, f.key, raw, h.rest, base);
      FieldsStep(front + (raw + h.rest), base, f.(raw := raw), h.rest, fs);
      assert Replaced([f] + fs, 0, raw) == [f.(raw := raw)] + fs;
    } else {
      FieldsPatched(h.rest, next, i - 1, raw);
      assert ([f] + fs)[i] == fs[i - 1];
      var at := fs[i - 1].at;
      var rest := Patched(h.rest, at - next, raw);
      PatchedLater(front, f.raw, h.rest, at - next, raw);
      RawSizeLocal(f.bt, f.raw, h.rest, rest);
      FirstFieldIs(f.bt, f.key, f.raw, rest, base);
      FieldsStep(front + (f.raw + rest), base, f, rest, Replaced(fs, i - 1, raw));
      assert Replaced([f] + fs, i, raw) == [f] + Replaced(fs, i - 1, raw);
    }
  }

  lemma FieldsStep(s: seq<Byte>, base: nat, f: Field, rest: seq<Byte>, fs: seq<Field>)
    requires s != [] && FirstField(s, base) == Some(Head(f, rest)) && |rest| < |s|
    requires Fields(rest, base + |s| - |rest|) == Some(fs)
    ensures Fields(s, base) == Some([f] + fs)
  {
    hide FirstField;
  }

  lemma PatchedFirst(front: seq<Byte>, before: seq<Byte>, rest: seq<Byte>, raw: seq<Byte>)
    requires |before| == |raw|
    ensures Patched(front + (before + rest), |front|, raw) == front + (raw + rest)
  {
    var s := front + (before + rest);
    assert s[..|front|] == front;
    assert s[|front| + |raw|..] == rest;
  }

  lemma PatchedLater(front: seq<Byte>, value: seq<Byte>, rest: seq<Byte>, at: nat, raw: seq<Byte>)
    requires at + |raw| <= |rest|
    ensures Patched(front + (value + rest), |front| + |value| + at, raw) == front + (value + Patched(rest, at, raw))
  {
    PatchedBehind(value, rest, at, raw);
    PatchedBehind(front, value + rest, |value| + at, raw);
  }

  lemma FixedRawSize(bt: Byte, raw: seq<Byte>, rest: seq<Byte>)
    requires Indexed(bt) && |raw| == FixedSize(bt)
    ensures RawSize(bt, raw + rest) == Some(|raw|)
  {
  }

  lemma PatchedBehind(a: seq<Byte>, b: seq<Byte>, at: nat, raw: seq<Byte>)
    requires at + |raw| <= |b|
    ensures Patched(a + b, |a| + at, raw) == a + Patched(b, at, raw)
  {
    assert (a + b)[..|a| + at] == a + b[..at];
    assert (a + b)[|a| + at + |raw|..] == b[at + |raw|..];
  }

  /** Where the fields are in a document */
  function Inside(d: seq<Byte>): seq<Byte>
    requires |d| >= 5
  {
    d[4..|d| - 1]
  }

  lemma InsidePatched(d: seq<Byte>, at: nat, raw: seq<Byte>)
    requires 4 <= at && at + |raw| <= |d| - 1
    ensures Inside(Patched(d, at, raw)) == Patched(Inside(d), at - 4, raw)
    ensures Int32(Patched(d, at, raw)) == Int32(d) && Patched(d, at, raw)[|d| - 1] == d[|d| - 1]
  {
    var p := Patched(d, at, raw);
    assert p[..4] == d[..4];
    assert Inside(d)[..at - 4] == d[4..at];
    assert Inside(d)[at - 4 + |raw|..] == d[at + |raw|..|d| - 1];
    assert d[at + |raw|..] == d[at + |raw|..|d| - 1] + [d[|d| - 1]];
    assert p == d[..4] + (d[4..at] + raw + d[at + |raw|..|d| - 1]) + [d[|d| - 1]];
  }

  /** The document whose bytes are patched decodes to the same table, changed in one name at most. */
  lemma DocumentPatched(d: seq<Byte>, num: Numbering, t: map<Key, Value>, i: nat, raw: seq<Byte>, w: Value)
    requires Decode(d, false, num) == Some(Table(t)) && Fields(Inside(d), 4).Some?
    requires i < |Fields(Inside(d), 4).value|
    requires var f := Fields(Inside(d), 4).value[i];
             Indexed(f.bt) && |raw| == FixedSize(f.bt) && Val(f.bt, raw, num) == Some(w)
    ensures var fs := Fields(Inside(d), 4).value;
            && fs[i].at + |raw| <= |d|
            && Decode(Patched(d, fs[i].at, raw), false, num)
               == Some(Table(if Last(fs, i) then t[Name(fs[i].key) := w] else t))
  {
    var fs := Fields(Inside(d), 4).value;
    FieldsPatched(Inside(d), 4, i, raw);
    InsidePatched(d, fs[i].at, raw);
    var p := Patched(d, fs[i].at, raw);
    DecodeInside(d, num);
    DecodeInside(p, num);
    hide FixedSize, Val, Fold, Last, Decode, DecodeFields, Fields, Int32, Patched, Inside, Indexed;
    DecodeIsFold(Inside(d), 4, num, map[]);
    DecodeIsFold(Inside(p), 4, num, map[]);
    FoldReplaced(fs, num, map[], i, raw, w);
  }

  lemma DecodeInside(d: seq<Byte>, num: Numbering)
    requires |d| >= 5
    ensures Decode(d, false, num)
         == if Int32(d) != |d| || d[|d| - 1] != 0 then None
            else match DecodeFields(Inside(d), false, num, map[]) case None => None case Some(m) => Some(Table(m))
  {
    hide Int32, DecodeFields;
  }

  /** A document that decodes has fields. */
  lemma DecodesToFields(d: seq<Byte>, num: Numbering)
    requires Decode(d, false, num).Some?
    ensures |d| >= 5 && Int32(d) == |d| && Fields(Inside(d), 4).Some?
    ensures Decode(d, false, num).value.Table?
  {
    hide DecodeFields, Fields;
    DecodeIsFold(Inside(d), 4, num, map[]);
  }

  // ---- The index --------------------------------------------------------------------------------------------------

  /** The type in the low five bits and the place above them, in an `int` of 32 bits */
  function Id(bt: Byte, at: nat): int {
    Seri.Signed((bt % 32 + 32 * at) % Seri.INT32, Seri.INT31)
  }

  function IdType(id: int): nat { id % 32 }

  /** Shifted as a signed number */
  function IdPlace(id: int): int { id / 32 }

  lemma IndexedSmall(bt: Byte)
    requires Indexed(bt)
    ensures bt < 32
  {
  }

  /** The type always comes back; the place comes back exactly when it is below 2^26. */
  lemma IdBack(bt: Byte, at: nat)
    requires Indexed(bt)
    ensures IdType(Id(bt, at)) == bt
    ensures IdPlace(Id(bt, at)) == at <==> at < 0x400_0000
  {
    IndexedSmall(bt);
    var x := bt + 32 * at;
    var q := x / Seri.INT32;
    var id := x - q * Seri.INT32 - if x % Seri.INT32 >= Seri.INT31 then Seri.INT32 else 0;
    var k := if x % Seri.INT32 >= Seri.INT31 then q + 1 else q;
    assert Id(bt, at) == bt + 32 * (at - k * 0x800_0000);
    FiveBits(bt, at - k * 0x800_0000);
  }

  /** A place at 2^26 comes back negative. */
  lemma PlaceLost()
    ensures IdPlace(Id(INT32, 0x400_0000)) == -0x400_0000
  {
    var x := INT32 + 32 * 0x400_0000;
    assert x % Seri.INT32 == x && Seri.Signed(x, Seri.INT31) == x - Seri.INT32;
    FiveBits(INT32, -0x400_0000);
  }

  lemma FiveBits(low: int, high: int)
    requires 0 <= low < 32
    ensures (low + 32 * high) % 32 == low && (low + 32 * high) / 32 == high
  {
  }

  function IndexFrom(fs: seq<Field>, m: map<seq<Byte>, int>): map<seq<Byte>, int> {
    if fs == [] then m
    else IndexFrom(fs[1..], if Indexed(fs[0].bt) then m[fs[0].key := Id(fs[0].bt, fs[0].at)] else m)
  }

  /** The last field of a name among those that are indexed */
  function LastIndexed(fs: seq<Field>, key: seq<Byte>): (r: Option<nat>)
    ensures r.Some? ==> r.value < |fs| && Indexed(fs[r.value].bt) && fs[r.value].key == key
    ensures forall k :: (if r.Some? then r.value else -1) < k < |fs| && fs[k].key == key ==> !Indexed(fs[k].bt)
  {
    if fs == [] then None
    else
      match LastIndexed(fs[1..], key)
      case Some(i) => Some(i + 1)
      case None => if Indexed(fs[0].bt) && fs[0].key == key then Some(0) else None
  }

  lemma {:induction false} IndexIs(fs: seq<Field>, m: map<seq<Byte>, int>, key: seq<Byte>)
    ensures var l, x := LastIndexed(fs, key), IndexFrom(fs, m);
            if l.Some? then key in x && x[key] == Id(fs[l.value].bt, fs[l.value].at)
            else (key in x <==> key in m) && (key in m ==> x[key] == m[key])
  {
    hide Indexed, Id;
    if fs != [] {
      IndexIs(fs[1..], if Indexed(fs[0].bt) then m[fs[0].key := Id(fs[0].bt, fs[0].at)] else m, key);
    }
  }

  // ---- Replacement ------------------------------------------------------------------------------------------------

  /** A Lua value to be stored. A number that is not an integer is its eight bytes. */
  datatype Arg = Nil | Bool(b: bool) | Int(i: int) | Number(bits: seq<Byte>) | String(s: seq<Byte>) | Other

  type Bits = b: seq<Byte> | |b| == 8 witness seq(8, _ => 0)

  /** The values that are accepted for a type */
  predicate Accepts(bt: Byte, a: Arg) {
    if bt == REAL then a.Int? || (a.Number? && |a.bits| == 8)
    else if bt == BOOLEAN then true
    else if bt == INT32 || bt == INT64 then a.Int?
    else if bt == OBJECTID then a.String? && |a.s| == 14 && a.s[0] == 0 && a.s[1] == bt
    else if bt == DATE then a.String? && |a.s| == 6 && a.s[0] == 0 && a.s[1] == bt
    else if bt == TIMESTAMP then a.String? && |a.s| == 10 && a.s[0] == 0 && a.s[1] == bt
    else false
  }

  /** What decoding shows after the value was stored: the value itself, but for an integer stored as a double or in 32 bits */
  function Shown(bt: Byte, a: Arg, double: int -> Bits): Value
    requires Accepts(bt, a)
  {
    if bt == REAL then Real(if a.Int? then double(a.i) else a.bits)
    else if bt == BOOLEAN then Boolean(a != Nil && a != Bool(false))
    else if bt == INT32 then Integer(Seri.Signed(a.i % Seri.INT32, Seri.INT31))
    else if bt == INT64 then Integer(Seri.Signed(a.i % Seri.INT64, Seri.INT63))
    else Str(a.s)
  }

  function Written(bt: Byte, a: Arg, double: int -> Bits): (r: seq<Byte>)
    requires Accepts(bt, a)
    ensures |r| == FixedSize(bt)
  {
    if bt == REAL then if a.Int? then double(a.i) else a.bits
    else if bt == BOOLEAN then [if a == Nil || a == Bool(false) then 0 else 1]
    else if bt == INT32 then Seri.Little(a.i % Seri.INT32, 4)
    else if bt == INT64 then Seri.Little(a.i % Seri.INT64, 8)
    else if bt == OBJECTID then a.s[2..]
    else if bt == DATE then Seri.Little(Seri.FromLittle(a.s[2..6]) * 1000, 8)
    else Seri.Little(Seri.FromLittle(a.s[2..6]), 4) + Seri.Little(Seri.FromLittle(a.s[6..10]), 4)
  }

  lemma {:induction false} FromLittleBack(s: seq<Byte>)
    ensures FromLittleBound(s)
    ensures Seri.Little(Seri.FromLittle(s), |s|) == s
  {
    if s != [] {
      FromLittleBack(s[1..]);
      assert Seri.FromLittle(s) % 256 == s[0] && Seri.FromLittle(s) / 256 == Seri.FromLittle(s[1..]);
    }
  }

  predicate FromLittleBound(s: seq<Byte>) {
    Seri.FromLittle(s) < Seri.Power256(|s|)
  }

  lemma Int32Little(v: nat)
    requires v < Seri.INT32
    ensures Int32(Seri.Little(v, 4)) == Seri.Signed(v, Seri.INT31)
  {
    Seri.Powers();
    Seri.LittleBack(v, 4);
    assert Seri.Little(v, 4)[..4] == Seri.Little(v, 4);
  }

  lemma Int64Little(v: nat)
    requires v < Seri.INT64
    ensures Int64(Seri.Little(v, 8)) == Seri.Signed(v, Seri.INT63)
  {
    Seri.Powers();
    Seri.LittleBack(v, 8);
    assert Seri.Little(v, 8)[..8] == Seri.Little(v, 8);
  }

  /** A date of whole seconds survives the milliseconds in which it is stored. */
  lemma DateBack(s: seq<Byte>)
    requires |s| == 4
    ensures Seri.Little(Seconds(Int64(Seri.Little(Seri.FromLittle(s) * 1000, 8))) % Seri.INT32, 4) == s
  {
    hide Int64, Seri.Little, Seri.FromLittle, Seri.Power256;
    var ts := Seri.FromLittle(s);
    FromLittleBack(s);
    assert ts < Seri.INT32 by { Seri.Powers(); }
    Int64Little(ts * 1000);
    assert Seconds(ts * 1000) == ts by { Thousand(ts); }
  }

  lemma Thousand(ts: nat)
    ensures ts * 1000 / 1000 == ts
  {
  }

  lemma ValDate(raw: seq<Byte>, num: Numbering)
    requires |raw| == 8
    ensures Val(DATE, raw, num) == Some(Object(DATE, Seri.Little(Seconds(Int64(raw)) % Seri.INT32, 4)))
  {
    hide Int64, Seconds;
  }

  lemma ValObject(bt: Byte, raw: seq<Byte>, num: Numbering)
    requires (bt == OBJECTID || bt == TIMESTAMP) && |raw| == FixedSize(bt)
    ensures Val(bt, raw, num) == Some(Object(bt, raw))
  {
  }

  lemma ValInteger(bt: Byte, v: nat, num: Numbering)
    requires bt == INT32 || bt == INT64
    requires v < if bt == INT32 then Seri.INT32 else Seri.INT64
    ensures Val(bt, Seri.Little(v, FixedSize(bt)), num)
            == Some(Integer(if bt == INT32 then Seri.Signed(v, Seri.INT31) else Seri.Signed(v, Seri.INT63)))
  {
    hide Seri.Little, Int32, Int64;
    if bt == INT32 {
      Int32Little(v);
    } else {
      Int64Little(v);
    }
  }

  /** What was written is what is read. */
  lemma WrittenShown(bt: Byte, a: Arg, double: int -> Bits, num: Numbering)
    requires Accepts(bt, a)
    ensures Val(bt, Written(bt, a, double), num) == Some(Shown(bt, a, double))
  {
    hide Seri.Little, Seri.FromLittle;
    if bt == INT32 {
      hide Val;
      ValInteger(bt, a.i % Seri.INT32, num);
    } else if bt == INT64 {
      hide Val;
      ValInteger(bt, a.i % Seri.INT64, num);
    } else if bt == OBJECTID {
      hide Val;
      ValObject(bt, a.s[2..], num);
      assert a.s == [0, bt] + a.s[2..];
    } else if bt == DATE {
      hide Val;
      ValDate(Written(bt, a, double), num);
      DateBack(a.s[2..6]);
      assert a.s == [0, bt] + a.s[2..6];
    } else if bt == TIMESTAMP {
      hide Val;
      ValObject(bt, Written(bt, a, double), num);
      FromLittleBack(a.s[2..6]);
      FromLittleBack(a.s[6..10]);
      assert a.s == [0, bt] + (a.s[2..6] + a.s[6..10]);
    }
  }

  /** The first integer that does not fit comes back negative. */
  lemma ShownWrapped(double: int -> Bits)
    ensures Shown(INT32, Int(Seri.INT31), double) == Integer(-Seri.INT31)
  {
  }

  /** An integer is shown as itself in a field of 32 bits exactly when it fits. */
  lemma ShownExactly(i: int, double: int -> Bits)
    ensures Shown(INT32, Int(i), double) == Integer(i) <==> -Seri.INT31 <= i < Seri.INT31
  {
    if -Seri.INT31 <= i < Seri.INT31 {
      Seri.SignedBack(i, Seri.INT31);
    }
  }
}
