/** The hash of lsha1.c: the 80 words of the schedule of FIPS 180-4 kept in 16, and a message that arrives in parts. */
module Sha1 {
  type Byte = bv8
  type Word = bv32
  type Block = b: seq<Byte> | |b| == 64 witness seq(64, _ => 0)

  datatype State = State(a: Word, b: Word, c: Word, d: Word, e: Word)

  // ---- The standard: section 6.1.2 of FIPS 180-4 ------------------------------------------------------------------

  function Rotl1(x: Word): Word { (x << 1) | (x >> 31) }

  function Rotl5(x: Word): Word { (x << 5) | (x >> 27) }

  function Rotl30(x: Word): Word { (x << 30) | (x >> 2) }

  function Choose(x: Word, y: Word, z: Word): Word { (x & y) ^ (!x & z) }

  function Parity(x: Word, y: Word, z: Word): Word { x ^ y ^ z }

  function Majority(x: Word, y: Word, z: Word): Word { (x & y) ^ (x & z) ^ (y & z) }

  function F(t: nat, x: Word, y: Word, z: Word): Word {
    if t < 20 then Choose(x, y, z) else if t < 40 then Parity(x, y, z) else if t < 60 then Majority(x, y, z) else Parity(x, y, z)
  }

  function K(t: nat): Word {
    if t < 20 then 0x5A827999 else if t < 40 then 0x6ED9EBA1 else if t < 60 then 0x8F1BBCDC else 0xCA62C1D6
  }

  /** The bytes of a word, highest first */
  function Big(b0: Byte, b1: Byte, b2: Byte, b3: Byte): Word {
    ((b0 as Word) << 24) | ((b1 as Word) << 16) | ((b2 as Word) << 8) | (b3 as Word)
  }

  /** The schedule of 80 words */
  function W(b: Block, t: nat): Word {
    if t < 16 then Big(b[4 * t], b[4 * t + 1], b[4 * t + 2], b[4 * t + 3])
    else Rotl1(Xor4(W(b, t - 3), W(b, t - 8), W(b, t - 14), W(b, t - 16)))
  }

  function Xor4(x: Word, y: Word, z: Word, u: Word): Word { x ^ y ^ z ^ u }

  function Sum5(x: Word, y: Word, z: Word, u: Word, v: Word): Word { x + y + z + u + v }

  function RoundOf(t: nat, s: State, w: Word): State {
    State(Sum5(Rotl5(s.a), F(t, s.b, s.c, s.d), s.e, K(t), w), s.a, Rotl30(s.b), s.c, s.d)
  }

  /** The working variables before round t */
  function Working(h: State, b: Block, t: nat): State {
    if t == 0 then h else RoundOf(t - 1, Working(h, b, t - 1), W(b, t - 1))
  }

  function Compress(h: State, b: Block): State {
    var s := Working(h, b, 80);
    State(Sum(h.a, s.a), Sum(h.b, s.b), Sum(h.c, s.c), Sum(h.d, s.d), Sum(h.e, s.e))
  }

  function Sum(x: Word, y: Word): Word { x + y }

  // ---- One block, as the original computes it ---------------------------------------------------------------------

  /** The bytes of a word in the memory of the machine, lowest first */
  function Little(b0: Byte, b1: Byte, b2: Byte, b3: Byte): Word {
    Big(b3, b2, b1, b0)
  }

  function Reversed(x: Word): Word {
    (((x << 24) | (x >> 8)) & 0xFF00FF00) | (((x << 8) | (x >> 24)) & 0x00FF00FF)
  }

  lemma ReversedLittle(b0: Byte, b1: Byte, b2: Byte, b3: Byte)
    ensures Reversed(Little(b0, b1, b2, b3)) == Big(b0, b1, b2, b3)
  {
  }

  function ChooseShort(w: Word, x: Word, y: Word): Word { (w & (x ^ y)) ^ y }

  function MajorityShort(w: Word, x: Word, y: Word): Word { ((w | x) & y) | (w & x) }

  function Mixed(t: nat, w: Word, x: Word, y: Word): Word {
    if t < 20 then ChooseShort(w, x, y) else if t < 40 then Parity(w, x, y)
    else if t < 60 then MajorityShort(w, x, y) else Parity(w, x, y)
  }

  /** The shorter forms compute the functions of the standard. */
  lemma MixedIsF(t: nat, x: Word, y: Word, z: Word)
    ensures Mixed(t, x, y, z) == F(t, x, y, z)
  {
    hide Choose, Majority, ChooseShort, MajorityShort, Parity;
    ChooseIsShort(x, y, z);
    MajorityIsShort(x, y, z);
  }

  lemma ChooseIsShort(x: Word, y: Word, z: Word)
    ensures ChooseShort(x, y, z) == Choose(x, y, z)
  {
    ChooseBits(x, y, z);
  }

  lemma ChooseBits(x: Word, y: Word, z: Word)
    ensures (x & (y ^ z)) ^ z == (x & y) ^ (!x & z)
  {
  }

  lemma MajorityIsShort(x: Word, y: Word, z: Word)
    ensures MajorityShort(x, y, z) == Majority(x, y, z)
  {
    MajorityBits(x, y, z);
  }

  lemma MajorityBits(x: Word, y: Word, z: Word)
    ensures ((x | y) & z) | (x & y) == (x & y) ^ (x & z) ^ (y & z)
  {
  }

  /** Where a word of the schedule is kept */
  function Slot(j: nat): (k: nat)
    ensures k < 16
  {
    j % 16
  }

  /** Sixteen words before round i: word j of the schedule is in its slot; the words of the block not yet used are as they
      lie in memory. */
  predicate Kept(l: seq<Word>, b: Block, i: nat) {
    && |l| == 16
    && (forall j :: 0 <= j < i && i <= j + 16 ==> l[Slot(j)] == W(b, j))
    && (forall j :: i <= j < 16 ==> l[j] == Little(b[4 * j], b[4 * j + 1], b[4 * j + 2], b[4 * j + 3]))
  }

  lemma KeptWord(l: seq<Word>, b: Block, i: nat, back: nat)
    requires Kept(l, b, i) && i >= 16 && 1 <= back <= 16
    ensures l[(i + 16 - back) % 16] == W(b, i - back)
  {
    hide W, Little, Slot;
    SlotBack(i, back);
  }

  lemma SlotBack(i: nat, back: nat)
    requires i >= back
    ensures (i + 16 - back) % 16 == Slot(i - back)
  {
  }

  lemma KeptNext(l: seq<Word>, b: Block, i: nat, l': seq<Word>)
    requires Kept(l, b, i) && l' == l[Slot(i) := W(b, i)]
    ensures Kept(l', b, i + 1)
  {
    hide W, Little, Slot;
    assert i < 16 ==> Slot(i) == i by { SlotFirst(i); }
    forall j | 0 <= j < i + 1 && i + 1 <= j + 16 ensures l'[Slot(j)] == W(b, j) {
      if j < i {
        Apart(i, j);
      }
    }
  }

  lemma Apart(i: nat, j: nat)
    requires j < i < j + 16
    ensures Slot(i) != Slot(j)
  {
  }

  lemma SlotFirst(i: nat)
    ensures i < 16 ==> Slot(i) == i
  {
  }

  method NextWord(l: array<Word>, i: nat, ghost b: Block) returns (w: Word)
    requires l.Length == 16 && Kept(l[..], b, i)
    modifies l
    ensures w == W(b, i) && Kept(l[..], b, i + 1)
  {
    hide Big, Little, Rotl1, Xor4, Reversed, Kept;
    if i < 16 {
      assert l[i] == Little(b[4 * i], b[4 * i + 1], b[4 * i + 2], b[4 * i + 3]) by { KeptRaw(l[..], b, i); }
      ReversedLittle(b[4 * i], b[4 * i + 1], b[4 * i + 2], b[4 * i + 3]);
      w := Reversed(l[i]);
    } else {
      KeptWord(l[..], b, i, 3);
      KeptWord(l[..], b, i, 8);
      KeptWord(l[..], b, i, 14);
      KeptWord(l[..], b, i, 16);
      w := Rotl1(Xor4(l[(i + 13) % 16], l[(i + 8) % 16], l[(i + 2) % 16], l[i % 16]));
    }
    ghost var before := l[..];
    l[i % 16] := w;
    assert l[..] == before[Slot(i) := w];
    KeptNext(before, b, i, l[..]);
  }

  lemma KeptRaw(l: seq<Word>, b: Block, i: nat)
    requires Kept(l, b, i) && i < 16
    ensures l[i] == Little(b[4 * i], b[4 * i + 1], b[4 * i + 2], b[4 * i + 3])
  {
  }

  /** One round in place: z += f(w, x, y) + word + K + rol(v, 5); w = rol(w, 30) */
  method Round(t: nat, v: Word, w: Word, x: Word, y: Word, z: Word, word: Word) returns (z': Word, w': Word)
    ensures State(z', v, w', x, y) == RoundOf(t, State(v, w, x, y, z), word)
  {
    hide Rotl5, Rotl30, F, K, Mixed;
    MixedIsF(t, w, x, y);
    var mixed, k, r := Mixed(t, w, x, y), K(t), Rotl5(v);
    SumOrder(r, mixed, z, k, word);
    hide Sum5;
    z' := z + (mixed + word + k + r);
    w' := Rotl30(w);
  }

  lemma SumOrder(x: Word, y: Word, z: Word, u: Word, v: Word)
    ensures z + (y + v + u + x) == Sum5(x, y, z, u, v)
  {
  }

  lemma WorkingNext(h: State, b: Block, t: nat)
    ensures Working(h, b, t + 1) == RoundOf(t, Working(h, b, t), W(b, t))
  {
  }

  /** The rounds, five at a time, so that each variable takes each part once */
  method Transform(h: State, b: Block) returns (r: State)
    ensures r == Compress(h, b)
  {
    hide RoundOf, Sum, W, Kept, Little, Working;
    var l := new Word[16](j requires 0 <= j < 16 => Little(b[4 * j], b[4 * j + 1], b[4 * j + 2], b[4 * j + 3]));
    assert Kept(l[..], b, 0) by { KeptFirst(l[..], b); }
    var a, b', c, d, e := h.a, h.b, h.c, h.d, h.e;
    var i := 0;
    assert State(a, b', c, d, e) == Working(h, b, 0) by { WorkingFirst(h, b); }
    while i < 80
      invariant 0 <= i <= 80 && i % 5 == 0
      invariant Kept(l[..], b, i)
      invariant State(a, b', c, d, e) == Working(h, b, i)
    {
      WorkingNext(h, b, i);
      var w := NextWord(l, i, b);
      e, b' := Round(i, a, b', c, d, e, w);
      WorkingNext(h, b, i + 1);
      w := NextWord(l, i + 1, b);
      d, a := Round(i + 1, e, a, b', c, d, w);
      WorkingNext(h, b, i + 2);
      w := NextWord(l, i + 2, b);
      c, e := Round(i + 2, d, e, a, b', c, w);
      WorkingNext(h, b, i + 3);
      w := NextWord(l, i + 3, b);
      b', d := Round(i + 3, c, d, e, a, b', w);
      WorkingNext(h, b, i + 4);
      w := NextWord(l, i + 4, b);
      a, c := Round(i + 4, b', c, d, e, a, w);
      i := i + 5;
    }
    r := State(Sum(h.a, a), Sum(h.b, b'), Sum(h.c, c), Sum(h.d, d), Sum(h.e, e));
  }

  lemma WorkingFirst(h: State, b: Block)
    ensures Working(h, b, 0) == h
  {
  }

  lemma KeptFirst(l: seq<Word>, b: Block)
    requires |l| == 16
    requires forall j :: 0 <= j < 16 ==> l[j] == Little(b[4 * j], b[4 * j + 1], b[4 * j + 2], b[4 * j + 3])
    ensures Kept(l, b, 0)
  {
  }

  // ---- Whole messages: sections 5.1.1 and 6.1 of FIPS 180-4 -------------------------------------------------------

  const TWO32: nat := 0x1_0000_0000
  const TWO64: nat := 0x1_0000_0000_0000_0000

  function Start(): State { State(0x67452301, 0xEFCDAB89, 0x98BADCFE, 0x10325476, 0xC3D2E1F0) }

  /** Block after block */
  function Chain(t: seq<Byte>): State
    requires |t| % 64 == 0
  {
    if t == [] then Start() else Compress(Chain(t[..|t| - 64]), t[|t| - 64..])
  }

  function Lit(n: nat): Byte
    requires n < 256
  {
    n as Byte
  }

  function Four(n: nat): (r: seq<Byte>)
    ensures |r| == 4
  {
    [Lit(n / 0x100_0000 % 256), Lit(n / 0x1_0000 % 256), Lit(n / 0x100 % 256), Lit(n % 256)]
  }

  /** A number of 64 bits, highest byte first */
  function Eight(bits: nat): (r: seq<Byte>)
    ensures |r| == 8
  {
    Four(bits / TWO32 % TWO32) + Four(bits % TWO32)
  }

  function Zeros(n: nat): (r: seq<Byte>)
    ensures |r| == n
  {
    seq(n, _ => 0)
  }

  /** As few zeros as make the message, the byte 0x80 and the zeros end 8 bytes before the end of a block */
  function ZerosFor(n: nat): (z: nat)
    ensures z < 64 && (n + 1 + z) % 64 == 56
  {
    (55 - n) % 64
  }

  function Stream(m: seq<Byte>, bits: nat): (r: seq<Byte>)
    ensures |r| % 64 == 0
  {
    m + [0x80] + Zeros(ZerosFor(|m|)) + Eight(bits)
  }

  function Bytes(x: Word): (r: seq<Byte>)
    ensures |r| == 4
  {
    [(x >> 24) as Byte, ((x >> 16) & 0xFF) as Byte, ((x >> 8) & 0xFF) as Byte, (x & 0xFF) as Byte]
  }

  function Output(s: State): (r: seq<Byte>)
    ensures |r| == 20
  {
    Bytes(s.a) + Bytes(s.b) + Bytes(s.c) + Bytes(s.d) + Bytes(s.e)
  }

  /** The digest of a message */
  function Sha1(m: seq<Byte>): (r: seq<Byte>)
    ensures |r| == 20
  {
    Output(Chain(Stream(m, 8 * |m|)))
  }

  // ---- The bit counter --------------------------------------------------------------------------------------------

  datatype Count = Count(lo: nat, hi: nat)

  function Value(c: Count): nat { c.hi * TWO32 + c.lo }

  predicate InWords(c: Count) { c.lo < TWO32 && c.hi < TWO32 }

  /** The counter after `len` bytes more: the carry is taken from a comparison with all 64 bits of 8 * len. */
  function Counted(c: Count, len: nat): Count {
    var lo := (c.lo + 8 * len % TWO64) % TWO32;
    Count(lo, (c.hi + (if lo < 8 * len % TWO64 then 1 else 0) + len / 0x2000_0000) % TWO32)
  }

  /** The sum of the low words runs over. */
  predicate Carries(c: Count, len: nat) {
    c.lo + 8 * len % TWO32 >= TWO32
  }

  lemma Shift32(x: nat, k: nat)
    ensures (x + k * TWO32) % TWO32 == x % TWO32
  {
  }

  lemma Shift64(x: nat, k: nat)
    ensures (x + k * 64) % 64 == x % 64
  {
  }

  lemma Parts64(x: nat)
    ensures x == x % TWO64 + x / TWO64 * TWO32 * TWO32
  {
  }

  lemma CountedLow(c: Count, len: nat)
    requires InWords(c)
    ensures InWords(Counted(c, len)) && Counted(c, len).lo == (c.lo + 8 * len) % TWO32
  {
    var r, k := 8 * len % TWO64, 8 * len / TWO64 * TWO32;
    assert 8 * len == r + k * TWO32 by { Parts64(8 * len); }
    Shift32(c.lo + r, k);
  }

  function Carry(c: Count, len: nat): nat { if Carries(c, len) then 1 else 0 }

  /** The carry that is counted although the low words did not carry */
  function Spurious(c: Count, len: nat): nat { if len < 0x2000_0000 || Carries(c, len) then 0 else 1 }

  lemma CountedWords(c: Count, len: nat)
    requires InWords(c) && len < 0x2000_0000_0000_0000
    ensures Counted(c, len).lo == c.lo + 8 * len % TWO32 - Carry(c, len) * TWO32
    ensures Counted(c, len).hi == (c.hi + Carry(c, len) + Spurious(c, len) + len / 0x2000_0000) % TWO32
  {
    var q, r := len / 0x2000_0000, 8 * len % TWO32;
    assert 8 * len == q * TWO32 + r && 8 * len % TWO64 == 8 * len by { Parts32(len); }
    Shift32(c.lo + r, q);
    Once(c.lo + r);
  }

  lemma Parts32(len: nat)
    requires len < 0x2000_0000_0000_0000
    ensures 8 * len == len / 0x2000_0000 * TWO32 + 8 * len % TWO32
    ensures 8 * len % TWO64 == 8 * len
  {
  }

  lemma Once(x: nat)
    requires x < 2 * TWO32
    ensures x % TWO32 == if x >= TWO32 then x - TWO32 else x
  {
  }

  lemma CountedValue(c: Count, len: nat)
    requires InWords(c) && len < 0x2000_0000_0000_0000
    ensures Value(Counted(c, len)) == (Value(c) + 8 * len + Spurious(c, len) * TWO32) % TWO64
  {
    CountedWords(c, len);
    CountedLow(c, len);
    Parts32(len);
    hide Counted, Carries, Carry, Spurious;
    var hi := c.hi + Carry(c, len) + Spurious(c, len) + len / 0x2000_0000;
    TwoWords(hi, Counted(c, len).lo);
  }

  /** The counter is right for parts shorter than 2^29 bytes; for a longer part it is right exactly when the low words carry. */
  lemma CountedRight(c: Count, len: nat)
    requires InWords(c) && len < 0x2000_0000_0000_0000
    ensures Value(Counted(c, len)) == (Value(c) + 8 * len) % TWO64 <==> len < 0x2000_0000 || Carries(c, len)
  {
    CountedValue(c, len);
    hide Counted, Carries, Value;
    Differ(Value(c) + 8 * len);
  }

  lemma Differ(x: nat)
    ensures (x + TWO32) % TWO64 != x % TWO64
  {
  }

  lemma TwoWords(hi: nat, lo: nat)
    requires lo < TWO32
    ensures (hi * TWO32 + lo) % TWO64 == hi % TWO32 * TWO32 + lo
  {
    var q := hi / TWO32;
    assert hi * TWO32 + lo == q * TWO64 + (hi % TWO32 * TWO32 + lo);
  }

  // ---- A message in parts -----------------------------------------------------------------------------------------

  function Whole(m: seq<Byte>): (r: seq<Byte>)
    ensures |r| % 64 == 0
  {
    m[..|m| / 64 * 64]
  }

  function Tail(m: seq<Byte>): (r: seq<Byte>)
    ensures |r| == |m| % 64
  {
    m[|m| / 64 * 64..]
  }

  lemma ChainAppend(t: seq<Byte>, b: Block)
    requires |t| % 64 == 0
    ensures Chain(t + b) == Compress(Chain(t), b)
  {
    assert (t + b)[..|t + b| - 64] == t && (t + b)[|t + b| - 64..] == b;
  }

  lemma Position(n: nat, lo: nat)
    requires lo == 8 * n % TWO32
    ensures lo / 8 % 64 == n % 64
  {
    var q := 8 * n / TWO32;
    assert n == lo / 8 + q * 0x80_0000 * 64;
    Shift64(lo / 8, q * 0x80_0000);
  }

  class Context {
    var state: State
    var count: Count
    var buffer: array<Byte>
    ghost var message: seq<Byte>

    /** The state is that of the whole blocks of the message so far, and the buffer begins with the rest. */
    ghost predicate Valid() reads this, buffer {
      && buffer.Length == 64
      && InWords(count)
      && count.lo == 8 * |message| % TWO32
      && state == Chain(Whole(message))
      && buffer[..|message| % 64] == Tail(message)
    }

    constructor ()
      ensures Valid() && fresh(buffer) && message == [] && count == Count(0, 0)
    {
      state, count := Start(), Count(0, 0);
      buffer := new Byte[64];
      message := [];
    }

    method Update(data: seq<Byte>)
      requires Valid()
      modifies this, buffer
      ensures Valid() && buffer == old(buffer)
      ensures message == old(message) + data
      ensures count == Counted(old(count), |data|)
    {
      hide Chain, Counted, Whole, Tail, InWords;
      ghost var m := message;
      CountStep(|m|, count, |data|);
      var j := count.lo / 8 % 64;
      count := Counted(count, |data|);
      message := m + data;
      var i := 0;
      ghost var kept := Tail(m);
      if j + |data| > 63 {
        i := Fill(data, j, m);
        j := 0;
        kept := [];
      }
      assert buffer[..j] == kept;
      ghost var rest := data[i..];
      Copy(buffer, j, data[i..]);
      assert buffer[..j + |rest|] == kept + rest;
      Rest(m, data, i, j, kept, kept + rest);
    }

    /** The buffer filled up, and the whole blocks after it */
    method Fill(data: seq<Byte>, j: nat, ghost m: seq<Byte>) returns (i: nat)
      requires buffer.Length == 64 && j == |m| % 64 && j + |data| > 63
      requires state == Chain(Whole(m)) && buffer[..j] == Tail(m)
      modifies this`state, buffer
      ensures 0 < i <= |data| < i + 64 && (|m| + i) % 64 == 0
      ensures state == Chain((m + data)[..|m| + i])
    {
      hide Chain, Compress, Whole, Tail;
      Copy(buffer, j, data[..64 - j]);
      FirstBlock(m, data, buffer[..], j);
      state, i := Blocks(buffer[..], state, data, 64 - j, m);
    }

    lemma Facts()
      requires Valid()
      ensures InWords(count) && count.lo / 8 % 64 == |message| % 64 && state == Chain(Whole(message)) && buffer.Length == 64
    {
      Position(|message|, count.lo);
    }

    /** The byte 0x80 and the zeros, each through an update of its own */
    method Pad()
      requires Valid()
      modifies this, buffer
      ensures Valid() && buffer == old(buffer)
      ensures message == old(message) + [0x80] + Zeros(ZerosFor(|old(message)|))
    {
      hide Chain, Counted, Whole, Zeros, Valid, ZerosFor;
      ghost var m, n, z := message, |message|, 0;
      Update([0x80]);
      assert Zeros(0) == [] by { ZerosNone(); }
      Facts();
      while count.lo / 8 % 64 != 56
        invariant Valid() && buffer == old(buffer)
        invariant count.lo / 8 % 64 == |message| % 64
        invariant z <= ZerosFor(n) && message == m + [0x80] + Zeros(z)
        decreases ZerosFor(n) - z
      {
        ZerosLess(n, z);
        Update([0]);
        z := z + 1;
        ZerosMore(m + [0x80], z);
        Facts();
      }
      ZerosLess(n, z);
    }

    /** The padding and the counter go through the same updates as the message. */
    method Final() returns (digest: seq<Byte>)
      requires Valid()
      modifies this, buffer
      ensures buffer == old(buffer)
      ensures digest == Output(Chain(Stream(old(message), Value(old(count)))))
    {
      hide Chain, Counted, Whole, Output, Zeros, Eight, Valid, Value;
      Facts();
      var finalcount := CountBytes(count);
      Pad();
      Update(finalcount);
      StreamWhole(message);
      Facts();
      digest := Digest(state);
      state, count := State(0, 0, 0, 0, 0), Count(0, 0);
      forall k | 0 <= k < 64 {
        buffer[k] := 0;
      }
    }
  }

  lemma ZerosNone()
    ensures Zeros(0) == []
  {
  }

  lemma ZerosLess(n: nat, z: nat)
    requires z <= ZerosFor(n)
    ensures (n + 1 + z) % 64 == 56 <==> z == ZerosFor(n)
  {
  }

  lemma ZerosMore(t: seq<Byte>, z: nat)
    requires z > 0
    ensures t + Zeros(z - 1) + [0] == t + Zeros(z)
  {
    assert Zeros(z) == Zeros(z - 1) + [0];
  }

  lemma StreamWhole(t: seq<Byte>)
    requires |t| % 64 == 0
    ensures Whole(t) == t
  {
  }

  /** The shift by (3 - (i & 3)) * 8 bits, and the low byte of what remains */
  function ByteOf(n: nat, i: nat): Byte {
    match i % 4
    case 0 => Lit(n / 0x100_0000 % 256)
    case 1 => Lit(n / 0x1_0000 % 256)
    case 2 => Lit(n / 0x100 % 256)
    case _ => Lit(n % 256)
  }

  lemma EightAt(c: Count, i: nat)
    requires InWords(c) && i < 8
    ensures Eight(Value(c))[i] == ByteOf(if i >= 4 then c.lo else c.hi, i)
  {
    hide Lit, Value;
    CountWords(c);
    if i < 4 {
      assert i % 4 == i;
    } else {
      assert i % 4 == i - 4;
    }
  }

  method CountBytes(c: Count) returns (r: seq<Byte>)
    requires InWords(c)
    ensures r == Eight(Value(c))
  {
    hide Lit;
    hide ByteOf, Eight, Value;
    var a := new Byte[8];
    for i := 0 to 8
      invariant forall k :: 0 <= k < i ==> a[k] == Eight(Value(c))[k]
    {
      EightAt(c, i);
      a[i] := ByteOf(if i >= 4 then c.lo else c.hi, i);
    }
    r := a[..];
  }

  lemma CountWords(c: Count)
    requires InWords(c)
    ensures Value(c) / TWO32 % TWO32 == c.hi && Value(c) % TWO32 == c.lo
  {
  }

  function WordAt(s: State, k: nat): Word {
    match k
    case 0 => s.a
    case 1 => s.b
    case 2 => s.c
    case 3 => s.d
    case _ => s.e
  }

  lemma OutputAt(s: State, k: nat)
    requires k < 20
    ensures Output(s)[k] == Bytes(WordAt(s, k / 4))[k % 4]
  {
    hide Bytes;
    if k < 4 {
    } else if k < 8 {
    } else if k < 12 {
    } else if k < 16 {
    }
  }

  method Digest(s: State) returns (r: seq<Byte>)
    ensures r == Output(s)
  {
    hide Bytes, Output, WordAt;
    var a := new Byte[20];
    for i := 0 to 20
      invariant forall k :: 0 <= k < i ==> a[k] == Output(s)[k]
    {
      OutputAt(s, i);
      a[i] := Bytes(WordAt(s, i / 4))[i % 4];
    }
    r := a[..];
  }

  method Copy(b: array<Byte>, at: nat, part: seq<Byte>)
    requires at + |part| <= b.Length
    modifies b
    ensures b[..at + |part|] == old(b[..at]) + part
    ensures b[at + |part|..] == old(b[at + |part|..])
  {
    forall k | 0 <= k < |part| {
      b[at + k] := part[k];
    }
  }

  /** The filled buffer, and then the whole blocks of the data from i on, straight from the data */
  method Blocks(buffer: Block, state: State, data: seq<Byte>, i0: nat, ghost m: seq<Byte>) returns (r: State, i: nat)
    requires i0 <= |data| && (|m| + i0) % 64 == 0
    requires Compress(state, buffer) == Chain((m + data)[..|m| + i0])
    ensures i0 <= i <= |data| < i + 64 && (|m| + i) % 64 == 0
    ensures r == Chain((m + data)[..|m| + i])
  {
    hide Chain, Compress;
    r := Transform(state, buffer);
    i := i0;
    while i + 63 < |data|
      invariant i0 <= i <= |data| && (|m| + i) % 64 == 0
      invariant r == Chain((m + data)[..|m| + i])
    {
      var block := data[i..i + 64];
      assert (m + data)[..|m| + i + 64] == (m + data)[..|m| + i] + block;
      ChainAppend((m + data)[..|m| + i], block);
      r := Transform(r, block);
      i := i + 64;
    }
  }

  lemma CountStep(n: nat, c: Count, len: nat)
    requires InWords(c) && c.lo == 8 * n % TWO32
    ensures c.lo / 8 % 64 == n % 64 && InWords(Counted(c, len)) && Counted(c, len).lo == 8 * (n + len) % TWO32
  {
    Position(n, c.lo);
    CountedLow(c, len);
    CountedMore(n, len);
  }

  lemma CountedMore(n: nat, len: nat)
    ensures (8 * n % TWO32 + 8 * len) % TWO32 == 8 * (n + len) % TWO32
  {
    var q := 8 * n / TWO32;
    assert 8 * (n + len) == 8 * n % TWO32 + 8 * len + q * TWO32;
    Shift32(8 * n % TWO32 + 8 * len, q);
  }

  /** The buffer filled up is the block after the whole blocks. */
  lemma FirstBlock(m: seq<Byte>, data: seq<Byte>, b: seq<Byte>, j: nat)
    requires j == |m| % 64 && |data| >= 64 - j && |b| == 64
    requires b == Tail(m) + data[..64 - j]
    ensures Compress(Chain(Whole(m)), b) == Chain((m + data)[..|m| + 64 - j])
  {
    hide Chain, Compress;
    assert (m + data)[..|m| + 64 - j] == Whole(m) + b;
    ChainAppend(Whole(m), b);
  }

  /** What is left after the whole blocks is in the buffer. */
  lemma Rest(m: seq<Byte>, data: seq<Byte>, i: nat, j: nat, kept: seq<Byte>, b: seq<Byte>)
    requires i <= |data| && |b| == j + |data| - i < 64
    requires i == 0 ==> j == |m| % 64 && kept == Tail(m)
    requires i > 0 ==> j == 0 && kept == [] && (|m| + i) % 64 == 0
    requires b == kept + data[i..]
    ensures b == Tail(m + data)
    ensures Whole(m + data) == if i == 0 then Whole(m) else (m + data)[..|m| + i]
  {
    var all := m + data;
    if i == 0 {
      assert |all| / 64 == |m| / 64;
      assert all[..|m| / 64 * 64] == m[..|m| / 64 * 64];
      assert all[|m| / 64 * 64..] == m[|m| / 64 * 64..] + data;
    } else {
      assert |all| / 64 * 64 == |m| + i;
      assert all[|m| + i..] == data[i..];
    }
  }

  /** The function offered to callers: one update with the whole message */
  method Hash(m: seq<Byte>) returns (r: seq<Byte>)
    ensures |m| < 0x2000_0000 ==> r == Sha1(m)
    ensures r == Output(Chain(Stream(m, Value(Counted(Count(0, 0), |m|)))))
  {
    hide Chain, Output, Counted, Stream;
    var c := new Context();
    c.Update(m);
    assert c.message == m;
    if |m| < 0x2000_0000 {
      CountedFromZero(|m|);
    }
    r := c.Final();
  }

  /** The length in the padding is that of the message exactly when the message is shorter than 2^29 bytes. */
  lemma CountedFromZero(len: nat)
    requires len < 0x2000_0000_0000_0000
    ensures Value(Counted(Count(0, 0), len)) == 8 * len <==> len < 0x2000_0000
  {
    CountedRight(Count(0, 0), len);
  }

  /** For 2^29 bytes the counter says 2^33 bits, twice as many as there are. */
  lemma CountedTwice()
    ensures Value(Counted(Count(0, 0), 0x2000_0000)) == 2 * (8 * 0x2000_0000)
  {
  }

  function Joined(parts: seq<seq<Byte>>): seq<Byte> {
    if parts == [] then [] else Joined(parts[..|parts| - 1]) + parts[|parts| - 1]
  }

  /** However a message is cut into parts shorter than 2^29 bytes, the digest is that of the message. */
  method HashParts(parts: seq<seq<Byte>>) returns (r: seq<Byte>)
    requires forall k :: 0 <= k < |parts| ==> |parts[k]| < 0x2000_0000
    ensures r == Sha1(Joined(parts))
  {
    hide Chain, Output, Counted, Stream;
    var c := new Context();
    for i := 0 to |parts|
      invariant c.Valid() && fresh(c) && fresh(c.buffer)
      invariant c.message == Joined(parts[..i])
      invariant Value(c.count) == 8 * |c.message| % TWO64
    {
      CountedRight(c.count, |parts[i]|);
      BitsMore(8 * |c.message|, 8 * |parts[i]|);
      assert parts[..i + 1][..i] == parts[..i];
      c.Update(parts[i]);
    }
    assert parts[..|parts|] == parts;
    StreamWraps(c.message, 8 * |c.message|);
    r := c.Final();
  }

  lemma BitsMore(x: nat, y: nat)
    ensures (x % TWO64 + y) % TWO64 == (x + y) % TWO64
  {
    var q := x / TWO64;
    assert x == q * TWO64 + x % TWO64;
  }

  lemma StreamWraps(m: seq<Byte>, bits: nat)
    ensures Stream(m, bits % TWO64) == Stream(m, bits)
  {
    var q := bits / TWO64;
    var r := bits % TWO64;
    assert bits == q * TWO32 * TWO32 + r;
    assert bits / TWO32 == q * TWO32 + r / TWO32;
    assert bits / TWO32 % TWO32 == r / TWO32 % TWO32;
    assert bits % TWO32 == r % TWO32;
  }

  // ---- The keyed hash: section 2 of RFC 2104 ----------------------------------------------------------------------

  function XorByte(b: Byte, x: Byte): Byte { b ^ x }

  function Xored(k: seq<Byte>, x: Byte): (r: seq<Byte>)
    ensures |r| == |k|
  {
    seq(|k|, i requires 0 <= i < |k| => XorByte(k[i], x))
  }

  /** The key of one block: a longer key is hashed, a shorter one is filled up with zeros. */
  function BlockKey(key: seq<Byte>): (r: seq<Byte>)
    ensures |r| == 64
  {
    var k := if |key| > 64 then Sha1(key) else key;
    k + Zeros(64 - |k|)
  }

  function Hmac(key: seq<Byte>, text: seq<Byte>): seq<Byte> {
    Sha1(Xored(BlockKey(key), 0x5C) + Sha1(Xored(BlockKey(key), 0x36) + text))
  }

  /** A word loaded, combined with the word of four bytes x, and stored */
  function XorWord(b0: Byte, b1: Byte, b2: Byte, b3: Byte, x: Byte): seq<Byte> {
    var w := ((b3 as Word) << 24) | ((b2 as Word) << 16) | ((b1 as Word) << 8) | (b0 as Word);
    var z := ((x as Word) << 24) | ((x as Word) << 16) | ((x as Word) << 8) | (x as Word);
    [((w ^ z) & 0xFF) as Byte, (((w ^ z) >> 8) & 0xFF) as Byte, (((w ^ z) >> 16) & 0xFF) as Byte, ((w ^ z) >> 24) as Byte]
  }

  lemma XorBits0(b0: Byte, b1: Byte, b2: Byte, b3: Byte, x: Byte, w: Word, z: Word)
    requires w == ((b3 as Word) << 24) | ((b2 as Word) << 16) | ((b1 as Word) << 8) | (b0 as Word)
    requires z == ((x as Word) << 24) | ((x as Word) << 16) | ((x as Word) << 8) | (x as Word)
    ensures ((w ^ z) & 0xFF) as Byte == b0 ^ x
  {
  }

  lemma XorBits1(b0: Byte, b1: Byte, b2: Byte, b3: Byte, x: Byte, w: Word, z: Word)
    requires w == ((b3 as Word) << 24) | ((b2 as Word) << 16) | ((b1 as Word) << 8) | (b0 as Word)
    requires z == ((x as Word) << 24) | ((x as Word) << 16) | ((x as Word) << 8) | (x as Word)
    ensures (((w ^ z) >> 8) & 0xFF) as Byte == b1 ^ x
  {
  }

  lemma XorBits2(b0: Byte, b1: Byte, b2: Byte, b3: Byte, x: Byte, w: Word, z: Word)
    requires w == ((b3 as Word) << 24) | ((b2 as Word) << 16) | ((b1 as Word) << 8) | (b0 as Word)
    requires z == ((x as Word) << 24) | ((x as Word) << 16) | ((x as Word) << 8) | (x as Word)
    ensures (((w ^ z) >> 16) & 0xFF) as Byte == b2 ^ x
  {
  }

  lemma XorBits3(b0: Byte, b1: Byte, b2: Byte, b3: Byte, x: Byte, w: Word, z: Word)
    requires w == ((b3 as Word) << 24) | ((b2 as Word) << 16) | ((b1 as Word) << 8) | (b0 as Word)
    requires z == ((x as Word) << 24) | ((x as Word) << 16) | ((x as Word) << 8) | (x as Word)
    ensures ((w ^ z) >> 24) as Byte == b3 ^ x
  {
  }

  lemma XorWordIs(b0: Byte, b1: Byte, b2: Byte, b3: Byte, x: Byte)
    ensures XorWord(b0, b1, b2, b3, x) == [XorByte(b0, x), XorByte(b1, x), XorByte(b2, x), XorByte(b3, x)]
  {
    var w := ((b3 as Word) << 24) | ((b2 as Word) << 16) | ((b1 as Word) << 8) | (b0 as Word);
    var z := ((x as Word) << 24) | ((x as Word) << 16) | ((x as Word) << 8) | (x as Word);
    XorBits0(b0, b1, b2, b3, x, w, z);
    XorBits1(b0, b1, b2, b3, x, w, z);
    XorBits2(b0, b1, b2, b3, x, w, z);
    XorBits3(b0, b1, b2, b3, x, w, z);
  }

  method XorKey(key: array<Byte>, x: Byte)
    requires key.Length == 64
    modifies key
    ensures key[..] == Xored(old(key[..]), x)
  {
    hide XorWord, XorByte;
    var i := 0;
    while i < 64
      invariant 0 <= i <= 64 && i % 4 == 0
      invariant forall k :: 0 <= k < i ==> key[k] == XorByte(old(key[k]), x)
      invariant forall k :: i <= k < 64 ==> key[k] == old(key[k])
    {
      XorWordIs(key[i], key[i + 1], key[i + 2], key[i + 3], x);
      var w := XorWord(key[i], key[i + 1], key[i + 2], key[i + 3], x);
      key[i], key[i + 1], key[i + 2], key[i + 3] := w[0], w[1], w[2], w[3];
      i := i + 4;
    }
  }

  /** Combining with 0x5C and then with 0x5C ^ 0x36 is combining with 0x36. */
  lemma {:induction false} XoredTwice(k: seq<Byte>)
    ensures Xored(Xored(k, 0x5C), 0x5C ^ 0x36) == Xored(k, 0x36)
  {
    forall i | 0 <= i < |k| ensures XorByte(XorByte(k[i], 0x5C), 0x5C ^ 0x36) == XorByte(k[i], 0x36) {
      BothXors(k[i]);
    }
  }

  lemma BothXors(b: Byte)
    ensures b ^ 0x5C ^ (0x5C ^ 0x36) == b ^ 0x36
  {
  }

  method KeyBlock(key: seq<Byte>) returns (rkey: array<Byte>)
    ensures fresh(rkey) && rkey.Length == 64
    ensures |key| < 0x2000_0000 ==> rkey[..] == BlockKey(key)
  {
    hide Chain, Stream, Output, Counted, Sha1, Zeros;
    rkey := new Byte[64](_ => 0);
    assert rkey[..] == Zeros(64) by { AllZeros(rkey[..]); }
    if |key| > 64 {
      var d := Hash(key);
      ZerosEnd(20);
      Copy(rkey, 0, d);
      assert rkey[..] == rkey[..20] + rkey[20..];
    } else {
      ZerosEnd(|key|);
      Copy(rkey, 0, key);
      assert rkey[..] == rkey[..|key|] + rkey[|key|..];
    }
  }

  lemma AllZeros(t: seq<Byte>)
    requires forall k :: 0 <= k < |t| ==> t[k] == 0
    ensures t == Zeros(|t|)
  {
  }

  lemma ZerosEnd(n: nat)
    requires n <= 64
    ensures Zeros(64)[n..] == Zeros(64 - n)
  {
  }

  /** The digest of a first part of one block and a second part, in two updates */
  method HashAfter(c: Context, part: seq<Byte>) returns (r: seq<Byte>)
    requires c.Valid() && |c.message| == 64 && Value(c.count) == 512
    modifies c, c.buffer
    ensures |part| < 0x2000_0000 ==> r == Sha1(old(c.message) + part)
  {
    hide Chain, Counted, Stream, Output, c.Valid;
    if |part| < 0x2000_0000 {
      c.Facts();
      CountedRight(c.count, |part|);
    }
    c.Update(part);
    r := c.Final();
  }

  method HmacSha1(key: seq<Byte>, text: seq<Byte>) returns (r: seq<Byte>)
    ensures |key| < 0x2000_0000 && |text| < 0x2000_0000 ==> r == Hmac(key, text)
  {
    hide BlockKey, Sha1, Xored, Context.Valid;
    var rkey := KeyBlock(key);
    ghost var k := rkey[..];
    XorKey(rkey, 0x5C);
    var c1 := new Context();
    c1.Update(rkey[..]);
    assert c1.message == Xored(k, 0x5C);
    XoredTwice(k);
    XorKey(rkey, 0x5C ^ 0x36);
    var c2 := new Context();
    c2.Update(rkey[..]);
    assert c2.message == Xored(k, 0x36);
    var inner := HashAfter(c2, text);
    r := HashAfter(c1, inner);
  }
}
