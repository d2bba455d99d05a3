/** The frozen tables of lua-sharedata.c: an array part, and a hash part with exactly one slot for each key, filled in two
    passes over the source table. */
module Sharedata {
  datatype Option<+T> = None | Some(value: T)

  type Byte = b: int | 0 <= b < 256
  type Word = x: int | 0 <= x < 0x1_0000_0000
  type Int32 = x: int | -0x8000_0000 <= x < 0x8000_0000

  /** A key. In a slot, a string key is kept as its index in the string table; here it is the string itself. */
  datatype Key = IntKey(i: Int32) | StringKey(s: seq<Byte>)

  /** A value that is not nil; a table is known by a number. */
  datatype Value = Real(bits: int) | Integer(i: int) | Text(s: seq<Byte>) | Boolean(b: bool) | Table(id: nat)

  datatype Entry = Entry(key: Key, value: Value)

  /** `calchash` can be any function of the string. */
  type StringHash = seq<Byte> -> Word

  function Hash(h: StringHash, k: Key): Word {
    match k
    case IntKey(i) => i % 0x1_0000_0000
    case StringKey(s) => h(s)
  }

  // ---- The source table -------------------------------------------------------------------------------------------

  /** The keys of the array part */
  predicate InArray(k: Key, n: nat) {
    k.IntKey? && 0 < k.i <= n
  }

  /** A table as it is traversed: every key once */
  predicate Distinct(es: seq<Entry>) {
    forall i, j :: 0 <= i < j < |es| ==> es[i].key != es[j].key
  }

  /** What the source table has for a key */
  function Get(es: seq<Entry>, k: Key): Option<Value> {
    if es == [] then None
    else if es[0].key == k then Some(es[0].value)
    else Get(es[1..], k)
  }

  lemma {:induction false} GetAt(es: seq<Entry>, i: nat)
    requires Distinct(es) && i < |es|
    ensures Get(es, es[i].key) == Some(es[i].value)
  {
    if i > 0 {
      GetAt(es[1..], i - 1);
    }
  }

  lemma {:induction false} GetNone(es: seq<Entry>, k: Key)
    ensures Get(es, k).None? <==> forall i :: 0 <= i < |es| ==> es[i].key != k
  {
    if es != [] {
      GetNone(es[1..], k);
      assert forall i :: 1 <= i < |es| ==> es[i] == es[1..][i - 1];
    }
  }

  /** `countsize`: how many keys are not in the array part */
  function HashKeys(es: seq<Entry>, n: nat): set<Key> {
    set e | e in es && !InArray(e.key, n) :: e.key
  }

  // ---- The frozen table -------------------------------------------------------------------------------------------

  /** A slot of the hash part; one without a value is empty. */
  datatype Node = Node(value: Option<Value>, key: Key, keyhash: Word, next: int, nocolliding: bool)

  function Link(chain: seq<nat>, i: nat): int {
    if i < |chain| then chain[i] else -1
  }

  predicate Filled(nodes: seq<Node>, s: int) {
    0 <= s < |nodes| && nodes[s].value.Some?
  }

  /** The main position of a hash value */
  function Position(keyhash: Word, size: nat): (m: nat)
    requires size > 0
    ensures m < size
  {
    keyhash % size
  }

  function Main(nodes: seq<Node>, s: int): nat
    requires 0 <= s < |nodes|
  {
    Position(nodes[s].keyhash, |nodes|)
  }

  predicate IsMain(nodes: seq<Node>, s: int) {
    Filled(nodes, s) && Main(nodes, s) == s
  }

  /** Every slot knows the hash of its key, and no two slots have the same key. */
  ghost predicate KeysOk(h: StringHash, nodes: seq<Node>) {
    && (forall s :: Filled(nodes, s) ==> nodes[s].keyhash == Hash(h, nodes[s].key))
    && (forall s, t :: Filled(nodes, s) && Filled(nodes, t) && s != t ==> nodes[s].key != nodes[t].key)
  }

  /** `chain` are the slots linked behind slot `m`: those of other keys whose main position it is. */
  ghost predicate ChainOk(nodes: seq<Node>, m: int, chain: seq<nat>)
    requires 0 <= m < |nodes|
  {
    && (chain != [] ==> IsMain(nodes, m) && !nodes[m].nocolliding)
    && (IsMain(nodes, m) ==> nodes[m].next == Link(chain, 0))
    && (forall i :: 0 <= i < |chain| ==> Linked(nodes, m, chain, i))
    && (forall i, j :: 0 <= i < j < |chain| ==> chain[i] != chain[j])
  }

  ghost predicate Linked(nodes: seq<Node>, m: int, chain: seq<nat>, i: nat)
    requires i < |chain|
  {
    var s := chain[i];
    s != m && Filled(nodes, s) && Main(nodes, s) == m && !nodes[s].nocolliding && nodes[s].next == Link(chain, i + 1)
  }

  ghost predicate Chained(nodes: seq<Node>, chains: seq<seq<nat>>) {
    && |chains| == |nodes|
    && (forall m :: 0 <= m < |nodes| ==> ChainOk(nodes, m, chains[m]))
    && (forall s :: Filled(nodes, s) && Main(nodes, s) != s ==> s in chains[Main(nodes, s)])
  }

  ghost predicate WellLinked(h: StringHash, nodes: seq<Node>, chains: seq<seq<nat>>) {
    KeysOk(h, nodes) && Chained(nodes, chains)
  }

  ghost predicate NewKey(nodes: seq<Node>, k: Key) {
    forall t :: Filled(nodes, t) ==> nodes[t].key != k
  }

  /** A chain does not notice changes elsewhere. */
  lemma ChainFrame(nodes: seq<Node>, more: seq<Node>, m: int, chain: seq<nat>)
    requires 0 <= m < |nodes| == |more| && ChainOk(nodes, m, chain)
    requires more[m] == nodes[m] || (chain == [] && (more[m].next == -1 || !IsMain(more, m)))
    requires forall i :: 0 <= i < |chain| ==> chain[i] < |nodes| && more[chain[i]] == nodes[chain[i]]
    ensures ChainOk(more, m, chain)
  {
    hide Position;
    forall i | 0 <= i < |chain| ensures Linked(more, m, chain, i) {
      assert Linked(nodes, m, chain, i);
    }
  }

  lemma ChainIn(nodes: seq<Node>, m: int, chain: seq<nat>, s: int)
    requires 0 <= m < |nodes| && ChainOk(nodes, m, chain) && 0 <= s < |nodes|
    requires !Filled(nodes, s) || Main(nodes, s) != m || s == m
    ensures s !in chain
  {
    hide Position;
    forall i | 0 <= i < |chain| ensures chain[i] != s {
      assert Linked(nodes, m, chain, i);
    }
  }

  /** Pass one: a key goes to its main position when that is empty. */
  lemma PlaceMain(h: StringHash, nodes: seq<Node>, chains: seq<seq<nat>>, e: Entry, s: nat)
    requires WellLinked(h, nodes, chains) && |nodes| > 0 && s == Position(Hash(h, e.key), |nodes|) && nodes[s].value.None?
    requires NewKey(nodes, e.key)
    ensures WellLinked(h, nodes[s := Node(Some(e.value), e.key, Hash(h, e.key), -1, true)], chains)
  {
    hide Position, Hash;
    var more := nodes[s := Node(Some(e.value), e.key, Hash(h, e.key), -1, true)];
    forall m | 0 <= m < |nodes| ensures ChainOk(more, m, chains[m]) {
      ChainIn(nodes, m, chains[m], s);
      forall i | 0 <= i < |chains[m]| ensures chains[m][i] < |nodes| {
        assert Linked(nodes, m, chains[m], i);
      }
      ChainFrame(nodes, more, m, chains[m]);
    }
    forall t | Filled(more, t) && Main(more, t) != t ensures t in chains[Main(more, t)] {
      assert t != s && Filled(nodes, t) && Main(nodes, t) == Main(more, t);
    }
  }

  /** Pass two: a key whose main position is taken goes to an empty slot, linked right behind the main position. */
  lemma PlaceColliding(h: StringHash, nodes: seq<Node>, chains: seq<seq<nat>>, e: Entry, m: nat, s: nat)
    requires WellLinked(h, nodes, chains) && |nodes| > 0 && m == Position(Hash(h, e.key), |nodes|) && IsMain(nodes, m)
    requires s < |nodes| && nodes[s].value.None? && NewKey(nodes, e.key)
    ensures var filled := nodes[s := Node(Some(e.value), e.key, Hash(h, e.key), nodes[m].next, false)];
            WellLinked(h, filled[m := filled[m].(next := s, nocolliding := false)], chains[m := [s] + chains[m]])
  {
    hide Position, Hash;
    var filled := nodes[s := Node(Some(e.value), e.key, Hash(h, e.key), nodes[m].next, false)];
    var more := filled[m := filled[m].(next := s, nocolliding := false)];
    var longer := chains[m := [s] + chains[m]];
    forall k | 0 <= k < |nodes| ensures ChainOk(more, k, longer[k]) {
      ChainIn(nodes, k, chains[k], s);
      ChainIn(nodes, k, chains[k], m);
      forall i | 0 <= i < |chains[k]| ensures chains[k][i] < |nodes| {
        assert Linked(nodes, k, chains[k], i);
      }
      if k != m {
        ChainFrame(nodes, more, k, chains[k]);
      } else {
        LongerChain(nodes, more, m, chains[m], s);
      }
    }
    forall t | Filled(more, t) && Main(more, t) != t ensures t in longer[Main(more, t)] {
      if t != s {
        assert Filled(nodes, t) && Main(nodes, t) == Main(more, t);
      }
    }
  }

  lemma LongerChain(nodes: seq<Node>, more: seq<Node>, m: nat, chain: seq<nat>, s: nat)
    requires m < |nodes| == |more| && s < |nodes| && s != m && ChainOk(nodes, m, chain) && IsMain(nodes, m) && s !in chain && m !in chain
    requires forall i :: 0 <= i < |chain| ==> chain[i] < |nodes|
    requires more[m] == nodes[m].(next := s, nocolliding := false)
    requires Filled(more, s) && Main(more, s) == m && !more[s].nocolliding && more[s].next == nodes[m].next
    requires forall t :: 0 <= t < |nodes| && t != m && t != s ==> more[t] == nodes[t]
    ensures ChainOk(more, m, [s] + chain)
  {
    hide Position;
    var longer := [s] + chain;
    forall i | 0 <= i < |longer| ensures Linked(more, m, longer, i) {
      if i > 0 {
        assert Linked(nodes, m, chain, i - 1) && longer[i] == chain[i - 1];
      }
    }
  }

  // ---- There is always room ---------------------------------------------------------------------------------------

  ghost function KeySet(ks: seq<Key>): set<Key> {
    set k | k in ks
  }

  lemma {:induction false} DistinctSet(ks: seq<Key>)
    requires forall i, j :: 0 <= i < j < |ks| ==> ks[i] != ks[j]
    ensures |KeySet(ks)| == |ks|
  {
    if ks != [] {
      var init, last := ks[..|ks| - 1], ks[|ks| - 1];
      DistinctSet(init);
      assert KeySet(ks) == KeySet(init) + {last};
    }
  }

  lemma SubsetSize(a: set<Key>, b: set<Key>)
    requires a <= b
    ensures |a| <= |b|
  {
    assert b == a + (b - a);
  }

  /** While a key is not stored, the slots are not all taken: there are as many slots as keys. */
  lemma FreeSlot(h: StringHash, nodes: seq<Node>, all: set<Key>, k: Key) returns (s: nat)
    requires KeysOk(h, nodes) && |all| == |nodes| && k in all && NewKey(nodes, k)
    requires forall t :: Filled(nodes, t) ==> nodes[t].key in all
    ensures s < |nodes| && !Filled(nodes, s)
  {
    if t: nat :| t < |nodes| && !Filled(nodes, t) {
      s := t;
    } else {
      var ks := seq(|nodes|, i requires 0 <= i < |nodes| => nodes[i].key);
      forall i, j | 0 <= i < j < |ks| ensures ks[i] != ks[j] {
        assert Filled(nodes, i) && Filled(nodes, j);
      }
      DistinctSet(ks);
      forall i | 0 <= i < |ks| ensures ks[i] in all - {k} {
        assert Filled(nodes, i);
      }
      SubsetSize(KeySet(ks), all - {k});
      assert false;
    }
  }

  // ---- Freezing ---------------------------------------------------------------------------------------------------

  /** The slot has been filled from the source. */
  ghost predicate FromSource(es: seq<Entry>, n: nat, nodes: seq<Node>) {
    forall s :: Filled(nodes, s) ==> Entry(nodes[s].key, nodes[s].value.value) in es && !InArray(nodes[s].key, n)
  }

  ghost predicate Stored(nodes: seq<Node>, k: Key) {
    exists s :: Filled(nodes, s) && nodes[s].key == k
  }

  /** The main positions of the keys are taken by keys that belong there. */
  ghost predicate MainsTaken(h: StringHash, es: seq<Entry>, n: nat, nodes: seq<Node>)
    requires |nodes| > 0
  {
    forall i :: 0 <= i < |es| && !InArray(es[i].key, n) ==> IsMain(nodes, Position(Hash(h, es[i].key), |nodes|))
  }

  /** Everything in the array part so far comes from the source, and all of the source so far is there. */
  ghost predicate ArrayOk(es: seq<Entry>, items: seq<Option<Value>>) {
    && (forall i :: 0 <= i < |es| && InArray(es[i].key, |items|) ==> items[es[i].key.i - 1] == Some(es[i].value))
    && (forall j :: 0 <= j < |items| && items[j].Some? ==> j + 1 < 0x8000_0000 && Entry(IntKey(j + 1), items[j].value) in es)
  }

  class Frozen {
    const h: StringHash
    const items: array<Option<Value>>
    const hash: array<Node>
    ghost var chains: seq<seq<nat>>

    /** `countsize` */
    static method CountSize(es: seq<Entry>, n: nat) returns (size: nat)
      requires Distinct(es)
      ensures size == |HashKeys(es, n)|
    {
      size := 0;
      for i := 0 to |es|
        invariant size == |HashKeys(es[..i], n)|
      {
        assert es[..i + 1] == es[..i] + [es[i]];
        if InArray(es[i].key, n) {
          assert HashKeys(es[..i + 1], n) == HashKeys(es[..i], n);
        } else {
          assert HashKeys(es[..i + 1], n) == HashKeys(es[..i], n) + {es[i].key};
          size := size + 1;
        }
      }
      assert es[..|es|] == es;
    }

    ghost predicate Linked(es: seq<Entry>)
      reads this, hash
    {
      WellLinked(h, hash[..], chains) && FromSource(es, items.Length, hash[..])
    }

    /** `fillnocolliding` */
    method FillNoColliding(es: seq<Entry>)
      requires Distinct(es) && hash.Length > 0 && chains == seq(hash.Length, _ => [])
      requires (forall s :: 0 <= s < hash.Length ==> hash[s].value.None?) && (forall j :: 0 <= j < items.Length ==> items[j].None?)
      requires items.Length < 0x8000_0000
      modifies hash, items
      ensures Linked(es) && ArrayOk(es, items[..]) && MainsTaken(h, es, items.Length, hash[..])
      ensures forall s :: Filled(hash[..], s) ==> IsMain(hash[..], s)
    {
      hide Position, Hash;
      assert es[..0] == [];
      for i := 0 to |es|
        invariant Linked(es[..i]) && ArrayOk(es[..i], items[..]) && MainsTaken(h, es[..i], items.Length, hash[..])
        invariant forall s :: Filled(hash[..], s) ==> IsMain(hash[..], s)
      {
        var e := es[i];
        ghost var before := hash[..];
        assert es[..i + 1] == es[..i] + [e];
        if InArray(e.key, items.Length) {
          items[e.key.i - 1] := Some(e.value);
        } else {
          var keyhash := Hash(h, e.key);
          var s := Position(keyhash, hash.Length);
          if hash[s].value.None? {
            PlaceMain(h, before, chains, e, s);
            hash[s] := Node(Some(e.value), e.key, keyhash, -1, true);
            assert hash[..] == before[s := hash[s]];
          }
        }
      }
      assert es[..|es|] == es;
    }

    /** The first empty slot from `from` on */
    method FindEmpty(from: nat, ghost free: nat) returns (s: nat)
      requires free < hash.Length && !Filled(hash[..], free) && forall t :: 0 <= t < from ==> Filled(hash[..], t)
      ensures from <= s < hash.Length && hash[s].value.None? && forall t :: 0 <= t < s ==> Filled(hash[..], t)
    {
      s := from;
      while hash[s].value.Some?
        invariant s <= free && forall t :: 0 <= t < s ==> Filled(hash[..], t)
        decreases free - s
      {
        assert Filled(hash[..], s);
        s := s + 1;
      }
    }

    /** Put an entry into an empty slot, and link it behind its main position. */
    method LinkSlot(e: Entry, m: nat, s: nat)
      requires m < hash.Length && s < hash.Length && s != m
      modifies hash
      ensures hash[..] == Inserted(old(hash[..]), Hash(h, e.key), e, m, s)
    {
      hash[s] := Node(Some(e.value), e.key, Hash(h, e.key), hash[m].next, false);
      hash[m] := hash[m].(next := s, nocolliding := false);
    }

    /** `fillcolliding` */
    method FillColliding(es: seq<Entry>)
      requires Distinct(es) && hash.Length > 0 && Linked(es) && MainsTaken(h, es, items.Length, hash[..])
      requires |HashKeys(es, items.Length)| == hash.Length
      requires forall s :: Filled(hash[..], s) ==> IsMain(hash[..], s)
      modifies hash, this`chains
      ensures Linked(es) && StoredBefore(hash[..], es, items.Length, |es|)
    {
      hide Position, Hash, MainsTaken, FromSource, WellLinked, StoredBefore, CollidedBefore, Inserted;
      var emptyslot := 0;
      NothingCollides(hash[..], es, items.Length);
      for i := 0 to |es|
        invariant Linked(es) && MainsTaken(h, es, items.Length, hash[..])
        invariant emptyslot <= hash.Length && forall t :: 0 <= t < emptyslot ==> Filled(hash[..], t)
        invariant CollidedBefore(hash[..], es, i) && StoredBefore(hash[..], es, items.Length, i)
      {
        var e := es[i];
        ghost var before := hash[..];
        if !InArray(e.key, items.Length) {
          var m := Position(Hash(h, e.key), hash.Length);
          MainTaken(h, es, items.Length, before, i);
          if hash[m].key != e.key {
            StillNew(before, es, i, m);
            NotAll(h, es, items.Length, before, chains, i);
            ghost var free := FreeSlot(h, before, HashKeys(es, items.Length), e.key);
            var s := FindEmpty(emptyslot, free);
            emptyslot := s + 1;
            LinkSlot(e, m, s);
            PlaceInserted(h, before, chains, e, m, s);
            chains := chains[m := [s] + chains[m]];
            InsertedSame(before, Hash(h, e.key), e, m, s);
            InsertedFrom(h, es, items.Length, before, i, m, s);
            InsertedMains(h, es, items.Length, before, i, m, s);
            InsertedStored(h, es, items.Length, before, i, m, s);
          } else {
            StoredAtMain(before, es, items.Length, i, m);
          }
        } else {
          SkipArray(before, es, items.Length, i);
        }
      }
    }

    /** The key at place `i` is not stored yet, when its main position is taken by another one. */
    lemma StillNew(nodes: seq<Node>, es: seq<Entry>, i: nat, m: nat)
      requires Distinct(es) && i < |es| && WellLinked(h, nodes, chains) && |nodes| > 0 && m == Position(Hash(h, es[i].key), |nodes|)
      requires Filled(nodes, m) && nodes[m].key != es[i].key
      requires CollidedBefore(nodes, es, i)
      ensures NewKey(nodes, es[i].key)
    {
      hide Position, Hash;
      forall t | Filled(nodes, t) ensures nodes[t].key != es[i].key {
        if !IsMain(nodes, t) {
          var j :| 0 <= j < i && es[j].key == nodes[t].key;
        }
      }
    }

    /** `convtable`: an array part of `n` elements, and a hash part with a slot for each other key */
    constructor (h: StringHash, es: seq<Entry>, n: nat, size: nat)
      requires Distinct(es) && n < 0x8000_0000 && size == |HashKeys(es, n)|
      ensures Holds(es) && items.Length == n && this.h == h && fresh(hash) && fresh(items)
    {
      this.h := h;
      items := new Option<Value>[n](_ => None);
      var empty := Node(None, IntKey(0), 0, -1, false);
      hash := new Node[size](_ => empty);
      chains := seq(size, _ => []);
      new;
      if size > 0 {
        FillNoColliding(es);
        FillColliding(es);
      } else {
        FillArray(es);
        NoHashKeys(es, n);
      }
      forall s | 0 <= s < hash.Length ensures Filled(hash[..], s) {
        AllThere(es, n, hash[..], s);
      }
    }

    /** The array part of a table without other keys */
    method FillArray(es: seq<Entry>)
      requires Distinct(es) && items.Length < 0x8000_0000 && forall j :: 0 <= j < items.Length ==> items[j].None?
      modifies items
      ensures ArrayOk(es, items[..])
    {
      for k := 0 to items.Length
        invariant forall j :: k <= j < items.Length ==> items[j].None?
        invariant forall j :: 0 <= j < k ==> items[j] == Get(es, IntKey(j + 1))
      {
        items[k] := Get(es, IntKey(k + 1));
      }
      forall i | 0 <= i < |es| && InArray(es[i].key, items.Length) ensures items[es[i].key.i - 1] == Some(es[i].value) {
        GetAt(es, i);
      }
      forall j | 0 <= j < items.Length && items[j].Some? ensures Entry(IntKey(j + 1), items[j].value) in es {
        GetSome(es, IntKey(j + 1));
      }
    }

    /** The frozen table holds exactly what the source holds. */
    ghost predicate Holds(es: seq<Entry>)
      reads this, hash, items
    {
      && items.Length < 0x8000_0000 && ArrayOk(es, items[..])
      && Linked(es) && (forall s :: 0 <= s < hash.Length ==> Filled(hash[..], s))
      && (forall i :: 0 <= i < |es| && !InArray(es[i].key, items.Length) ==> Stored(hash[..], es[i].key))
    }

    /** `lookup_key`: the slot of a key, or -1 */
    method LookupKey(es: seq<Entry>, k: Key) returns (r: int)
      requires Holds(es) && !InArray(k, items.Length)
      ensures if Stored(hash[..], k) then 0 <= r < hash.Length && hash[r].key == k else r == -1
    {
      hide Position, Hash;
      if hash.Length == 0 {
        return -1;
      }
      ghost var nodes := hash[..];
      var keyhash := Hash(h, k);
      var s: nat := Position(keyhash, hash.Length);
      assert Filled(nodes, s);
      if keyhash != hash[s].keyhash && hash[s].nocolliding {
        NotColliding(h, nodes, chains, k, s);
        return -1;
      }
      ghost var m: nat, i := Where(nodes, chains, s);
      ghost var from := i;
      var n: nat := s;
      while true
        invariant m < |nodes| && IsMain(nodes, m) && -1 <= from <= i < |chains[m]| && n == At(m, chains[m], i) && n < hash.Length
        invariant forall j :: from <= j < i && At(m, chains[m], j) < |nodes| ==> nodes[At(m, chains[m], j)].key != k
        decreases |chains[m]| - i
      {
        if keyhash == hash[n].keyhash && hash[n].key == k {
          assert Filled(nodes, n);
          return n;
        }
        NextInChain(nodes, chains, m, i);
        if hash[n].next < 0 {
          NotInChain(h, nodes, chains, k, s, m, from);
          return -1;
        }
        n := hash[n].next;
        i := i + 1;
      }
    }

    /** `lindexconf`: what the frozen table has for a key */
    method Index(es: seq<Entry>, k: Key) returns (v: Option<Value>)
      requires Distinct(es) && Holds(es)
      ensures v == Get(es, k)
    {
      if InArray(k, items.Length) {
        ArrayAgrees(es, items[..], k);
        return items[k.i - 1];
      }
      var s := LookupKey(es, k);
      HashAgrees(es, items.Length, hash[..], k);
      return if s >= 0 then hash[s].value else None;
    }

    /** The key of the first element of the array part from `from` on, or else the key of the first slot */
    method FirstFrom(es: seq<Entry>, from: nat) returns (k: Option<Key>)
      requires Holds(es) && from <= items.Length
      ensures k == First(ArrayKeys(items[..], from) + SlotKeys(hash[..], 0))
    {
      for i := from to items.Length
        invariant ArrayKeys(items[..], from) == ArrayKeys(items[..], i)
      {
        if items[i].Some? {
          return Some(IntKey(i + 1));
        }
      }
      assert [] + SlotKeys(hash[..], 0) == SlotKeys(hash[..], 0);
      return if hash.Length > 0 then Some(hash[0].key) else None;
    }

    /** `lnextkey`: the key after `k`, or the first one */
    method NextKey(es: seq<Entry>, k: Option<Key>) returns (r: Option<Key>)
      requires Holds(es)
      ensures k.None? ==> r == First(Order(items[..], hash[..]))
      ensures forall i :: 0 <= i < |Order(items[..], hash[..])| && k == Some(Order(items[..], hash[..])[i]) ==>
                r == First(Order(items[..], hash[..])[i + 1..])
    {
      if k.None? {
        r := FirstFrom(es, 0);
        return;
      }
      var key := k.value;
      if InArray(key, items.Length) {
        r := FirstFrom(es, key.i);
        hide SlotKeys, ArrayKeys, First;
        forall i | 0 <= i < |Order(items[..], hash[..])| && key == Order(items[..], hash[..])[i]
          ensures r == First(Order(items[..], hash[..])[i + 1..])
        {
          AfterElement(es, items[..], hash[..], key, i);
        }
        return;
      }
      var s := LookupKey(es, key);
      forall i | 0 <= i < |Order(items[..], hash[..])| && key == Order(items[..], hash[..])[i]
        ensures 0 <= s && First(Order(items[..], hash[..])[i + 1..]) == First(SlotKeys(hash[..], s + 1))
      {
        AfterSlot(es, items[..], hash[..], key, i);
      }
      if s < 0 || s + 1 == hash.Length {
        return None;
      }
      return Some(hash[s + 1].key);
    }

    /** Going from key to key visits every key of the source once. */
    method AllKeys(es: seq<Entry>) returns (ks: seq<Key>)
      requires Distinct(es) && Holds(es)
      ensures forall i, j :: 0 <= i < j < |ks| ==> ks[i] != ks[j]
      ensures forall k :: k in ks <==> Get(es, k).Some?
    {
      ghost var order := Order(items[..], hash[..]);
      ks := [];
      var k := NextKey(es, None);
      while k.Some?
        invariant |ks| <= |order| && ks == order[..|ks|] && k == First(order[|ks|..])
        decreases |order| - |ks|
      {
        hide Order, First, Holds;
        ghost var i := |ks|;
        FirstFromAt(order, i);
        assert k == Some(Order(items[..], hash[..])[i]);
        ks := ks + [k.value];
        k := NextKey(es, k);
        assert k == First(Order(items[..], hash[..])[i + 1..]) && order == Order(items[..], hash[..]);
      }
      FirstFromAt(order, |ks|);
      OrderDistinct(es, items[..], hash[..]);
      OrderComplete(es, items[..], hash[..]);
    }
  }

  /** The slots of the second pass hold keys of the entries before `i`. */
  ghost predicate CollidedBefore(nodes: seq<Node>, es: seq<Entry>, i: nat) {
    forall s :: Filled(nodes, s) && !IsMain(nodes, s) ==> exists j :: 0 <= j < i && j < |es| && es[j].key == nodes[s].key
  }

  ghost predicate StoredBefore(nodes: seq<Node>, es: seq<Entry>, n: nat, i: nat) {
    forall j :: 0 <= j < i && j < |es| && !InArray(es[j].key, n) ==> Stored(nodes, es[j].key)
  }

  /** The slots after an entry has been put into slot `s`, behind slot `m` */
  function Inserted(nodes: seq<Node>, keyhash: Word, e: Entry, m: nat, s: nat): (r: seq<Node>)
    requires m < |nodes| && s < |nodes| && m != s
    ensures |r| == |nodes|
  {
    nodes[s := Node(Some(e.value), e.key, keyhash, nodes[m].next, false)][m := nodes[m].(next := s, nocolliding := false)]
  }

  /** The other slots keep their keys and values. */
  lemma InsertedSame(nodes: seq<Node>, keyhash: Word, e: Entry, m: nat, s: nat)
    requires m < |nodes| && s < |nodes| && m != s
    ensures var r := Inserted(nodes, keyhash, e, m, s);
            && Filled(r, s) && r[s].key == e.key && r[s].value == Some(e.value)
            && forall t :: 0 <= t < |nodes| && t != s ==>
                 r[t].key == nodes[t].key && r[t].value == nodes[t].value && r[t].keyhash == nodes[t].keyhash
                 && (Filled(r, t) <==> Filled(nodes, t)) && (IsMain(r, t) <==> IsMain(nodes, t))
  {
    hide Position;
  }

  lemma PlaceInserted(h: StringHash, nodes: seq<Node>, chains: seq<seq<nat>>, e: Entry, m: nat, s: nat)
    requires WellLinked(h, nodes, chains) && |nodes| > 0 && m == Position(Hash(h, e.key), |nodes|) && IsMain(nodes, m)
    requires s < |nodes| && nodes[s].value.None? && NewKey(nodes, e.key)
    ensures m < |chains| && WellLinked(h, Inserted(nodes, Hash(h, e.key), e, m, s), chains[m := [s] + chains[m]])
  {
    PlaceColliding(h, nodes, chains, e, m, s);
    hide WellLinked;
    var filled := nodes[s := Node(Some(e.value), e.key, Hash(h, e.key), nodes[m].next, false)];
    assert filled[m] == nodes[m];
  }

  lemma NothingCollides(nodes: seq<Node>, es: seq<Entry>, n: nat)
    requires forall s :: Filled(nodes, s) ==> IsMain(nodes, s)
    ensures CollidedBefore(nodes, es, 0) && StoredBefore(nodes, es, n, 0)
  {
  }

  lemma MainTaken(h: StringHash, es: seq<Entry>, n: nat, nodes: seq<Node>, i: nat)
    requires |nodes| > 0 && MainsTaken(h, es, n, nodes) && i < |es| && !InArray(es[i].key, n)
    ensures IsMain(nodes, Position(Hash(h, es[i].key), |nodes|))
  {
    hide Position, Hash;
  }

  lemma NotAll(h: StringHash, es: seq<Entry>, n: nat, nodes: seq<Node>, chains: seq<seq<nat>>, i: nat)
    requires FromSource(es, n, nodes) && i < |es| && !InArray(es[i].key, n) && WellLinked(h, nodes, chains)
    ensures KeysOk(h, nodes) && es[i].key in HashKeys(es, n)
    ensures forall t :: Filled(nodes, t) ==> nodes[t].key in HashKeys(es, n)
  {
    hide Hash;
  }

  lemma SkipArray(nodes: seq<Node>, es: seq<Entry>, n: nat, i: nat)
    requires i < |es| && InArray(es[i].key, n) && CollidedBefore(nodes, es, i) && StoredBefore(nodes, es, n, i)
    ensures CollidedBefore(nodes, es, i + 1) && StoredBefore(nodes, es, n, i + 1)
  {
    hide IsMain;
  }

  lemma StoredAtMain(nodes: seq<Node>, es: seq<Entry>, n: nat, i: nat, m: nat)
    requires i < |es| && CollidedBefore(nodes, es, i) && StoredBefore(nodes, es, n, i)
    requires Filled(nodes, m) && nodes[m].key == es[i].key
    ensures CollidedBefore(nodes, es, i + 1) && StoredBefore(nodes, es, n, i + 1)
  {
    hide IsMain;
  }

  lemma InsertedFrom(h: StringHash, es: seq<Entry>, n: nat, nodes: seq<Node>, i: nat, m: nat, s: nat)
    requires i < |es| && m < |nodes| && s < |nodes| && m != s && FromSource(es, n, nodes) && !InArray(es[i].key, n)
    ensures FromSource(es, n, Inserted(nodes, Hash(h, es[i].key), es[i], m, s))
  {
    InsertedSame(nodes, Hash(h, es[i].key), es[i], m, s);
    hide Inserted, Hash;
    var r := Inserted(nodes, Hash(h, es[i].key), es[i], m, s);
    forall t | Filled(r, t) ensures Entry(r[t].key, r[t].value.value) in es && !InArray(r[t].key, n) {
      if t != s {
        assert Filled(nodes, t);
      }
    }
  }

  lemma InsertedMains(h: StringHash, es: seq<Entry>, n: nat, nodes: seq<Node>, i: nat, m: nat, s: nat)
    requires i < |es| && m < |nodes| && s < |nodes| && m != s && MainsTaken(h, es, n, nodes) && !Filled(nodes, s)
    ensures MainsTaken(h, es, n, Inserted(nodes, Hash(h, es[i].key), es[i], m, s))
  {
    InsertedSame(nodes, Hash(h, es[i].key), es[i], m, s);
    hide Inserted, Hash, Position;
    var r := Inserted(nodes, Hash(h, es[i].key), es[i], m, s);
    forall j | 0 <= j < |es| && !InArray(es[j].key, n) ensures IsMain(r, Position(Hash(h, es[j].key), |r|)) {
      assert IsMain(nodes, Position(Hash(h, es[j].key), |nodes|));
    }
  }

  lemma InsertedStored(h: StringHash, es: seq<Entry>, n: nat, nodes: seq<Node>, i: nat, m: nat, s: nat)
    requires i < |es| && m < |nodes| && s < |nodes| && m != s && !Filled(nodes, s)
    requires CollidedBefore(nodes, es, i) && StoredBefore(nodes, es, n, i)
    ensures var r := Inserted(nodes, Hash(h, es[i].key), es[i], m, s);
            CollidedBefore(r, es, i + 1) && StoredBefore(r, es, n, i + 1)
  {
    InsertedSame(nodes, Hash(h, es[i].key), es[i], m, s);
    hide Inserted, Hash, Position, IsMain;
    var r := Inserted(nodes, Hash(h, es[i].key), es[i], m, s);
    forall j | 0 <= j < i + 1 && !InArray(es[j].key, n) ensures Stored(r, es[j].key) {
      if j < i {
        var t :| Filled(nodes, t) && nodes[t].key == es[j].key;
        assert Filled(r, t) && r[t].key == es[j].key;
      } else {
        assert Filled(r, s) && r[s].key == es[j].key;
      }
    }
    forall t | Filled(r, t) && !IsMain(r, t) ensures exists j :: 0 <= j < i + 1 && j < |es| && es[j].key == r[t].key {
      if t != s {
        assert Filled(nodes, t) && !IsMain(nodes, t);
      }
    }
  }

  lemma {:induction false} GetSome(es: seq<Entry>, k: Key)
    ensures Get(es, k).Some? ==> Entry(k, Get(es, k).value) in es
  {
    if es != [] {
      GetSome(es[1..], k);
    }
  }

  lemma ArrayAgrees(es: seq<Entry>, items: seq<Option<Value>>, k: Key)
    requires Distinct(es) && ArrayOk(es, items) && InArray(k, |items|)
    ensures items[k.i - 1] == Get(es, k)
  {
    GetSome(es, k);
    GetNone(es, k);
    if Get(es, k).Some? {
      var i :| 0 <= i < |es| && es[i] == Entry(k, Get(es, k).value);
    }
  }

  lemma HashAgrees(es: seq<Entry>, n: nat, nodes: seq<Node>, k: Key)
    requires Distinct(es) && FromSource(es, n, nodes) && !InArray(k, n)
    requires forall i :: 0 <= i < |es| && !InArray(es[i].key, n) ==> Stored(nodes, es[i].key)
    ensures forall s :: Filled(nodes, s) && nodes[s].key == k ==> nodes[s].value == Get(es, k)
    ensures !Stored(nodes, k) ==> Get(es, k).None?
  {
    forall s | Filled(nodes, s) && nodes[s].key == k ensures nodes[s].value == Get(es, k) {
      var i :| 0 <= i < |es| && es[i] == Entry(k, nodes[s].value.value);
      GetAt(es, i);
    }
    GetNone(es, k);
  }

  lemma {:induction false} KeySetSize(ks: seq<Key>)
    ensures |KeySet(ks)| <= |ks|
  {
    if ks != [] {
      var init, last := ks[..|ks| - 1], ks[|ks| - 1];
      KeySetSize(init);
      assert KeySet(ks) == KeySet(init) + {last};
    }
  }

  /** After both passes every slot is taken. */
  lemma AllThere(es: seq<Entry>, n: nat, nodes: seq<Node>, s: nat)
    requires |HashKeys(es, n)| == |nodes| && s < |nodes|
    requires forall i :: 0 <= i < |es| && !InArray(es[i].key, n) ==> Stored(nodes, es[i].key)
    ensures Filled(nodes, s)
  {
    if !Filled(nodes, s) {
      var others := nodes[..s] + nodes[s + 1..];
      var ks := seq(|others|, t requires 0 <= t < |others| => others[t].key);
      forall k | k in HashKeys(es, n) ensures k in ks {
        var i :| 0 <= i < |es| && !InArray(es[i].key, n) && es[i].key == k;
        var t :| Filled(nodes, t) && nodes[t].key == k;
        assert ks[if t < s then t else t - 1] == k;
      }
      KeySetSize(ks);
      SubsetSize(HashKeys(es, n), KeySet(ks));
    }
  }

  lemma NoHashKeys(es: seq<Entry>, n: nat)
    requires |HashKeys(es, n)| == 0
    ensures forall i :: 0 <= i < |es| ==> InArray(es[i].key, n)
  {
    assert HashKeys(es, n) == {};
    forall i | 0 <= i < |es| ensures InArray(es[i].key, n) {
      assert es[i].key !in HashKeys(es, n);
    }
  }

  /** A place in a chain: the main slot itself is at -1 */
  function At(m: nat, chain: seq<nat>, i: int): nat
    requires -1 <= i < |chain|
  {
    if i < 0 then m else chain[i]
  }

  /** Which chain a slot is in, and where */
  lemma Where(nodes: seq<Node>, chains: seq<seq<nat>>, s: nat) returns (m: nat, i: int)
    requires Chained(nodes, chains) && Filled(nodes, s)
    ensures m < |nodes| && IsMain(nodes, m) && -1 <= i < |chains[m]| && At(m, chains[m], i) == s
    ensures m == Main(nodes, s) && (IsMain(nodes, s) ==> m == s && i == -1)
  {
    hide Position;
    if IsMain(nodes, s) {
      m, i := s, -1;
    } else {
      m := Main(nodes, s);
      assert s in chains[m];
      i :| 0 <= i < |chains[m]| && chains[m][i] == s;
      assert ChainOk(nodes, m, chains[m]);
    }
  }

  lemma NextInChain(nodes: seq<Node>, chains: seq<seq<nat>>, m: nat, i: int)
    requires Chained(nodes, chains) && m < |nodes| && IsMain(nodes, m) && -1 <= i < |chains[m]|
    ensures var n := At(m, chains[m], i); n < |nodes| && nodes[n].next == Link(chains[m], i + 1)
    ensures i + 1 < |chains[m]| ==> chains[m][i + 1] < |nodes|
  {
    hide Position;
    assert ChainOk(nodes, m, chains[m]);
    if i >= 0 {
      assert Linked(nodes, m, chains[m], i);
    }
    if i + 1 < |chains[m]| {
      assert Linked(nodes, m, chains[m], i + 1);
    }
  }

  /** A stored key is at its main position, or in the chain behind it. */
  lemma InItsChain(h: StringHash, nodes: seq<Node>, chains: seq<seq<nat>>, k: Key, t: int) returns (i: int)
    requires WellLinked(h, nodes, chains) && Filled(nodes, t) && nodes[t].key == k
    ensures var s := Position(Hash(h, k), |nodes|);
            && s < |chains| && -1 <= i < |chains[s]| && At(s, chains[s], i) == t
            && IsMain(nodes, s) && (i >= 0 ==> !nodes[s].nocolliding)
  {
    hide Position, Hash;
    var s := Position(Hash(h, k), |nodes|);
    assert Main(nodes, t) == s;
    if t == s {
      i := -1;
    } else {
      assert t in chains[s];
      assert ChainOk(nodes, s, chains[s]);
      i :| 0 <= i < |chains[s]| && chains[s][i] == t;
    }
  }

  /** A main slot that is marked as alone, with another key: the key is not there. */
  lemma NotColliding(h: StringHash, nodes: seq<Node>, chains: seq<seq<nat>>, k: Key, s: nat)
    requires WellLinked(h, nodes, chains) && |nodes| > 0 && s == Position(Hash(h, k), |nodes|) && Filled(nodes, s)
    requires nodes[s].keyhash != Hash(h, k) && nodes[s].nocolliding
    ensures !Stored(nodes, k)
  {
    hide Position, Hash;
    forall t | Filled(nodes, t) && nodes[t].key == k ensures false {
      var i := InItsChain(h, nodes, chains, k, t);
    }
  }

  /** The rest of a chain, from where the search for a key began, does not hold the key: then nothing does. */
  lemma NotInChain(h: StringHash, nodes: seq<Node>, chains: seq<seq<nat>>, k: Key, s: nat, m: nat, from: int)
    requires WellLinked(h, nodes, chains) && |nodes| > 0 && s == Position(Hash(h, k), |nodes|) && Filled(nodes, s)
    requires m < |nodes| && IsMain(nodes, m) && -1 <= from < |chains[m]| && (IsMain(nodes, s) ==> m == s && from == -1)
    requires forall j :: from <= j < |chains[m]| && At(m, chains[m], j) < |nodes| ==> nodes[At(m, chains[m], j)].key != k
    ensures !Stored(nodes, k)
  {
    hide Position, Hash;
    forall t | Filled(nodes, t) && nodes[t].key == k ensures false {
      var i := InItsChain(h, nodes, chains, k, t);
    }
  }

  // ---- The order of the keys --------------------------------------------------------------------------------------

  function First(ks: seq<Key>): Option<Key> {
    if ks == [] then None else Some(ks[0])
  }

  lemma FirstFromAt(ks: seq<Key>, i: nat)
    requires i <= |ks|
    ensures First(ks[i..]) == if i < |ks| then Some(ks[i]) else None
  {
  }

  /** The keys of the array part from `from` on */
  function ArrayKeys(items: seq<Option<Value>>, from: nat): seq<Key>
    requires |items| < 0x8000_0000
    decreases |items| - from
  {
    if from >= |items| then []
    else if items[from].Some? then [IntKey(from + 1)] + ArrayKeys(items, from + 1)
    else ArrayKeys(items, from + 1)
  }

  function SlotKeys(nodes: seq<Node>, from: nat): (ks: seq<Key>)
    ensures |ks| == if from <= |nodes| then |nodes| - from else 0
    decreases |nodes| - from
  {
    if from >= |nodes| then [] else [nodes[from].key] + SlotKeys(nodes, from + 1)
  }

  function Order(items: seq<Option<Value>>, nodes: seq<Node>): seq<Key>
    requires |items| < 0x8000_0000
  {
    ArrayKeys(items, 0) + SlotKeys(nodes, 0)
  }

  lemma {:induction false} SlotKeyAt(nodes: seq<Node>, from: nat, i: nat)
    requires from + i < |nodes|
    ensures SlotKeys(nodes, from)[i] == nodes[from + i].key && SlotKeys(nodes, from)[i + 1..] == SlotKeys(nodes, from + i + 1)
    decreases i
  {
    if i > 0 {
      SlotKeyAt(nodes, from + 1, i - 1);
      assert SlotKeys(nodes, from)[i + 1..] == SlotKeys(nodes, from + 1)[i..];
    } else {
      assert SlotKeys(nodes, from)[1..] == SlotKeys(nodes, from + 1);
    }
  }

  /** What the keys of the array part are, and what comes after one of them */
  lemma {:induction false} ArrayKeyAt(items: seq<Option<Value>>, from: nat, i: nat)
    requires |items| < 0x8000_0000 && i < |ArrayKeys(items, from)|
    ensures var k := ArrayKeys(items, from)[i];
            && k.IntKey? && from < k.i <= |items| && items[k.i - 1].Some?
            && ArrayKeys(items, from)[i + 1..] == ArrayKeys(items, k.i)
    decreases |items| - from
  {
    if from < |items| {
      if items[from].None? {
        ArrayKeyAt(items, from + 1, i);
      } else if i > 0 {
        ArrayKeyAt(items, from + 1, i - 1);
        assert ArrayKeys(items, from)[i + 1..] == ArrayKeys(items, from + 1)[i..];
      } else {
        assert ArrayKeys(items, from)[1..] == ArrayKeys(items, from + 1);
      }
    }
  }

  lemma {:induction false} ArrayKeyIn(items: seq<Option<Value>>, from: nat, j: nat)
    requires |items| < 0x8000_0000 && from <= j < |items| && items[j].Some?
    ensures IntKey(j + 1) in ArrayKeys(items, from)
    decreases |items| - from
  {
    if from < j {
      ArrayKeyIn(items, from + 1, j);
    }
  }

  lemma {:induction false} ArrayKeysDiffer(items: seq<Option<Value>>, from: nat, i: nat, j: nat)
    requires |items| < 0x8000_0000 && i < j < |ArrayKeys(items, from)|
    ensures ArrayKeys(items, from)[i] != ArrayKeys(items, from)[j]
  {
    ArrayKeyAt(items, from, i);
    var k := ArrayKeys(items, from)[i];
    assert ArrayKeys(items, from)[j] == ArrayKeys(items, from)[i + 1..][j - i - 1];
    ArrayKeyAt(items, k.i, j - i - 1);
  }

  ghost predicate Whole(es: seq<Entry>, items: seq<Option<Value>>, nodes: seq<Node>) {
    && |items| < 0x8000_0000 && FromSource(es, |items|, nodes)
    && (forall s :: 0 <= s < |nodes| ==> Filled(nodes, s))
    && (forall s, t :: Filled(nodes, s) && Filled(nodes, t) && s != t ==> nodes[s].key != nodes[t].key)
  }

  /** No key comes twice. */
  lemma OrderDistinct(es: seq<Entry>, items: seq<Option<Value>>, nodes: seq<Node>)
    requires Whole(es, items, nodes)
    ensures forall i, j :: 0 <= i < j < |Order(items, nodes)| ==> Order(items, nodes)[i] != Order(items, nodes)[j]
  {
    var n := |ArrayKeys(items, 0)|;
    forall i, j | 0 <= i < j < |Order(items, nodes)| ensures Order(items, nodes)[i] != Order(items, nodes)[j] {
      if j < n {
        ArrayKeysDiffer(items, 0, i, j);
      } else {
        SlotKeyAt(nodes, 0, j - n);
        assert Filled(nodes, j - n);
        if i < n {
          ArrayKeyAt(items, 0, i);
        } else {
          SlotKeyAt(nodes, 0, i - n);
          assert Filled(nodes, i - n);
        }
      }
    }
  }

  /** A key in the order is one of the array part, or one of a slot. */
  lemma OrderAt(es: seq<Entry>, items: seq<Option<Value>>, nodes: seq<Node>, i: nat)
    requires Whole(es, items, nodes) && i < |Order(items, nodes)|
    ensures var k, n := Order(items, nodes)[i], |ArrayKeys(items, 0)|;
            if i < n then
              k == ArrayKeys(items, 0)[i] && InArray(k, |items|) && items[k.i - 1].Some?
            else
              i - n < |nodes| && k == nodes[i - n].key && Filled(nodes, i - n) && !InArray(k, |items|)
  {
    var n := |ArrayKeys(items, 0)|;
    if i < n {
      ArrayKeyAt(items, 0, i);
    } else {
      SlotKeyAt(nodes, 0, i - n);
      assert Filled(nodes, i - n);
    }
  }

  lemma OrderSound(es: seq<Entry>, items: seq<Option<Value>>, nodes: seq<Node>, i: nat)
    requires Whole(es, items, nodes) && Distinct(es) && ArrayOk(es, items) && i < |Order(items, nodes)|
    requires forall i :: 0 <= i < |es| && !InArray(es[i].key, |items|) ==> Stored(nodes, es[i].key)
    ensures Get(es, Order(items, nodes)[i]).Some?
  {
    OrderAt(es, items, nodes, i);
    var k := Order(items, nodes)[i];
    hide Order, ArrayKeys;
    if InArray(k, |items|) {
      ArrayAgrees(es, items, k);
    } else {
      HashAgrees(es, |items|, nodes, k);
    }
  }

  lemma OrderCovers(es: seq<Entry>, items: seq<Option<Value>>, nodes: seq<Node>, k: Key)
    requires Whole(es, items, nodes) && Distinct(es) && ArrayOk(es, items) && Get(es, k).Some?
    requires forall i :: 0 <= i < |es| && !InArray(es[i].key, |items|) ==> Stored(nodes, es[i].key)
    ensures k in Order(items, nodes)
  {
    hide ArrayKeys, SlotKeys;
    GetSome(es, k);
    if InArray(k, |items|) {
      ArrayAgrees(es, items, k);
      ArrayKeyIn(items, 0, k.i - 1);
    } else {
      HashAgrees(es, |items|, nodes, k);
      var s :| Filled(nodes, s) && nodes[s].key == k;
      SlotKeyAt(nodes, 0, s);
      assert Order(items, nodes)[|ArrayKeys(items, 0)| + s] == k;
    }
  }

  /** Exactly the keys of the source come. */
  lemma OrderComplete(es: seq<Entry>, items: seq<Option<Value>>, nodes: seq<Node>)
    requires Whole(es, items, nodes) && Distinct(es) && ArrayOk(es, items)
    requires forall i :: 0 <= i < |es| && !InArray(es[i].key, |items|) ==> Stored(nodes, es[i].key)
    ensures forall k :: k in Order(items, nodes) <==> Get(es, k).Some?
  {
    assert |items| < 0x8000_0000;
    hide Order, Whole, ArrayOk, Get;
    var order := Order(items, nodes);
    forall k | k in order ensures Get(es, k).Some? {
      var i :| 0 <= i < |order| && order[i] == k;
      OrderSound(es, items, nodes, i);
    }
    forall k | Get(es, k).Some? ensures k in order {
      OrderCovers(es, items, nodes, k);
    }
  }

  lemma AfterElement(es: seq<Entry>, items: seq<Option<Value>>, nodes: seq<Node>, k: Key, i: nat)
    requires Whole(es, items, nodes) && InArray(k, |items|) && i < |Order(items, nodes)| && Order(items, nodes)[i] == k
    ensures Order(items, nodes)[i + 1..] == ArrayKeys(items, k.i) + SlotKeys(nodes, 0)
  {
    OrderAt(es, items, nodes, i);
    ArrayKeyAt(items, 0, i);
    assert Order(items, nodes)[i + 1..] == ArrayKeys(items, 0)[i + 1..] + SlotKeys(nodes, 0);
  }

  lemma AfterSlot(es: seq<Entry>, items: seq<Option<Value>>, nodes: seq<Node>, k: Key, i: nat)
    requires Whole(es, items, nodes) && !InArray(k, |items|) && i < |Order(items, nodes)| && Order(items, nodes)[i] == k
    ensures var s := i - |ArrayKeys(items, 0)|;
            && 0 <= s < |nodes| && nodes[s].key == k && Stored(nodes, k)
            && (forall t :: 0 <= t < |nodes| && nodes[t].key == k ==> t == s)
            && Order(items, nodes)[i + 1..] == SlotKeys(nodes, s + 1)
  {
    OrderAt(es, items, nodes, i);
    var n := |ArrayKeys(items, 0)|;
    SlotKeyAt(nodes, 0, i - n);
    assert Order(items, nodes)[i + 1..] == SlotKeys(nodes, 0)[i - n + 1..];
    forall t | 0 <= t < |nodes| && nodes[t].key == k ensures t == i - n {
      assert Filled(nodes, t);
    }
  }
}
