/** The block cipher of lua-crypt.c (FIPS 46-3), with the two paddings. The tables of the S-boxes and the 32 words of the
    key schedule are parameters: nothing below depends on what they contain. */
module Des {
  type Byte = bv8
  type Word = bv32

  type Box = b: seq<Word> | |b| == 64 witness seq(64, _ => 0)
  datatype Boxes = Boxes(sb1: Box, sb2: Box, sb3: Box, sb4: Box, sb5: Box, sb6: Box, sb7: Box, sb8: Box)

  /** Two words for each of the sixteen rounds */
  type Schedule = s: seq<Word> | |s| == 32 witness seq(32, _ => 0)

  type Block = b: seq<Byte> | |b| == 8 witness seq(8, _ => 0)

  datatype Halves = Halves(l: Word, r: Word)

  // ---- Bytes and words --------------------------------------------------------------------------------------------

  function GetWord(b0: Byte, b1: Byte, b2: Byte, b3: Byte): Word {
    ((b0 as Word) << 24) | ((b1 as Word) << 16) | ((b2 as Word) << 8) | (b3 as Word)
  }

  function PutWord(n: Word): seq<Byte> {
    [(n >> 24) as Byte, ((n >> 16) & 0xFF) as Byte, ((n >> 8) & 0xFF) as Byte, (n & 0xFF) as Byte]
  }

  function GetHalves(b: Block): Halves {
    Halves(GetWord(b[0], b[1], b[2], b[3]), GetWord(b[4], b[5], b[6], b[7]))
  }

  function PutHalves(h: Halves): Block {
    PutWord(h.l) + PutWord(h.r)
  }

  lemma GetPutWord(n: Word)
    ensures var p := PutWord(n); GetWord(p[0], p[1], p[2], p[3]) == n
  {
  }

  lemma PutGetWord(b0: Byte, b1: Byte, b2: Byte, b3: Byte)
    ensures PutWord(GetWord(b0, b1, b2, b3)) == [b0, b1, b2, b3]
  {
  }

  lemma GetPutHalves(h: Halves)
    ensures GetHalves(PutHalves(h)) == h
  {
    GetPutWord(h.l);
    GetPutWord(h.r);
  }

  lemma PutGetHalves(b: Block)
    ensures PutHalves(GetHalves(b)) == b
  {
    PutGetWord(b[0], b[1], b[2], b[3]);
    PutGetWord(b[4], b[5], b[6], b[7]);
    assert b == [b[0], b[1], b[2], b[3]] + [b[4], b[5], b[6], b[7]];
  }

  // ---- The permutations -------------------------------------------------------------------------------------------

  // An exchange of masked bits between two words, for each of the five masks: T = ((X >> s) ^ Y) & M; Y ^= T; X ^= T << s

  function Picked4(x: Word, y: Word): Word { ((x >> 4) ^ y) & 0x0F0F0F0F }

  function Picked16(x: Word, y: Word): Word { ((x >> 16) ^ y) & 0x0000FFFF }

  function Picked2(x: Word, y: Word): Word { ((x >> 2) ^ y) & 0x33333333 }

  function Picked8(x: Word, y: Word): Word { ((x >> 8) ^ y) & 0x00FF00FF }

  function Picked0(x: Word, y: Word): Word { (x ^ y) & 0xAAAAAAAA }

  function Flip4(x: Word, t: Word): Word { x ^ (t << 4) }

  function Flip16(x: Word, t: Word): Word { x ^ (t << 16) }

  function Flip2(x: Word, t: Word): Word { x ^ (t << 2) }

  function Flip8(x: Word, t: Word): Word { x ^ (t << 8) }

  function Flip0(x: Word, t: Word): Word { x ^ t }

  function Exchange4(x: Word, y: Word): Halves {
    var t := Picked4(x, y);
    Halves(Flip4(x, t), Flip0(y, t))
  }

  function Exchange16(x: Word, y: Word): Halves {
    var t := Picked16(x, y);
    Halves(Flip16(x, t), Flip0(y, t))
  }

  function Exchange2(x: Word, y: Word): Halves {
    var t := Picked2(x, y);
    Halves(Flip2(x, t), Flip0(y, t))
  }

  function Exchange8(x: Word, y: Word): Halves {
    var t := Picked8(x, y);
    Halves(Flip8(x, t), Flip0(y, t))
  }

  function Exchange0(x: Word, y: Word): Halves {
    var t := Picked0(x, y);
    Halves(Flip0(x, t), Flip0(y, t))
  }

  function RotateLeft1(x: Word): Word { (x << 1) | (x >> 31) }

  function RotateRight1(x: Word): Word { (x << 31) | (x >> 1) }

  function InitialPermutation(h: Halves): Halves {
    var a := Exchange4(h.l, h.r);
    var b := Exchange16(a.l, a.r);
    var c := Exchange2(b.r, b.l);
    var d := Exchange8(c.l, c.r);
    var y := RotateLeft1(d.l);
    var e := Exchange0(d.r, y);
    Halves(RotateLeft1(e.l), e.r)
  }

  /** As called, `DES_FP(Y, X)`: the first argument becomes the first half of the output. */
  function FinalPermutation(h: Halves): Halves {
    var x := RotateRight1(h.l);
    var e := Exchange0(x, h.r);
    var y := RotateRight1(e.r);
    var d := Exchange8(y, e.l);
    var c := Exchange2(d.l, d.r);
    var b := Exchange16(c.r, c.l);
    Exchange4(b.l, b.r)
  }

  // An exchange is its own inverse, because the masked bits stay within the word when they are shifted back.

  lemma SameBits4(x: Word, y: Word, t: Word, x': Word, y': Word)
    requires t == ((x >> 4) ^ y) & 0x0F0F0F0F && x' == x ^ (t << 4) && y' == y ^ t
    ensures ((x' >> 4) ^ y') & 0x0F0F0F0F == t
  {
  }

  lemma Bits4(x: Word, y: Word, t: Word)
    ensures Picked4(x, y) == ((x >> 4) ^ y) & 0x0F0F0F0F
    ensures Flip4(x, t) == x ^ (t << 4) && Flip0(y, t) == y ^ t
  {
  }

  lemma PickedAgain4(x: Word, y: Word)
    ensures var t := Picked4(x, y); Picked4(Flip4(x, t), Flip0(y, t)) == t
  {
    hide Picked4, Flip4, Flip0;
    var t := Picked4(x, y);
    Bits4(x, y, t);
    SameBits4(x, y, t, Flip4(x, t), Flip0(y, t));
    Bits4(Flip4(x, t), Flip0(y, t), t);
  }

  lemma FlipTwice4(x: Word, t: Word)
    ensures Flip4(Flip4(x, t), t) == x
  {
  }

  lemma ExchangeTwice4(x: Word, y: Word)
    ensures var e := Exchange4(x, y); Exchange4(e.l, e.r) == Halves(x, y)
  {
    hide Picked4, Flip4, Flip0;
    var t := Picked4(x, y);
    PickedAgain4(x, y);
    FlipTwice4(x, t);
    FlipTwice0(y, t);
  }

  lemma SameBits16(x: Word, y: Word, t: Word, x': Word, y': Word)
    requires t == ((x >> 16) ^ y) & 0x0000FFFF && x' == x ^ (t << 16) && y' == y ^ t
    ensures ((x' >> 16) ^ y') & 0x0000FFFF == t
  {
  }

  lemma Bits16(x: Word, y: Word, t: Word)
    ensures Picked16(x, y) == ((x >> 16) ^ y) & 0x0000FFFF
    ensures Flip16(x, t) == x ^ (t << 16) && Flip0(y, t) == y ^ t
  {
  }

  lemma PickedAgain16(x: Word, y: Word)
    ensures var t := Picked16(x, y); Picked16(Flip16(x, t), Flip0(y, t)) == t
  {
    hide Picked16, Flip16, Flip0;
    var t := Picked16(x, y);
    Bits16(x, y, t);
    SameBits16(x, y, t, Flip16(x, t), Flip0(y, t));
    Bits16(Flip16(x, t), Flip0(y, t), t);
  }

  lemma FlipTwice16(x: Word, t: Word)
    ensures Flip16(Flip16(x, t), t) == x
  {
  }

  lemma ExchangeTwice16(x: Word, y: Word)
    ensures var e := Exchange16(x, y); Exchange16(e.l, e.r) == Halves(x, y)
  {
    hide Picked16, Flip16, Flip0;
    var t := Picked16(x, y);
    PickedAgain16(x, y);
    FlipTwice16(x, t);
    FlipTwice0(y, t);
  }

  lemma SameBits2(x: Word, y: Word, t: Word, x': Word, y': Word)
    requires t == ((x >> 2) ^ y) & 0x33333333 && x' == x ^ (t << 2) && y' == y ^ t
    ensures ((x' >> 2) ^ y') & 0x33333333 == t
  {
  }

  lemma Bits2(x: Word, y: Word, t: Word)
    ensures Picked2(x, y) == ((x >> 2) ^ y) & 0x33333333
    ensures Flip2(x, t) == x ^ (t << 2) && Flip0(y, t) == y ^ t
  {
  }

  lemma PickedAgain2(x: Word, y: Word)
    ensures var t := Picked2(x, y); Picked2(Flip2(x, t), Flip0(y, t)) == t
  {
    hide Picked2, Flip2, Flip0;
    var t := Picked2(x, y);
    Bits2(x, y, t);
    SameBits2(x, y, t, Flip2(x, t), Flip0(y, t));
    Bits2(Flip2(x, t), Flip0(y, t), t);
  }

  lemma FlipTwice2(x: Word, t: Word)
    ensures Flip2(Flip2(x, t), t) == x
  {
  }

  lemma ExchangeTwice2(x: Word, y: Word)
    ensures var e := Exchange2(x, y); Exchange2(e.l, e.r) == Halves(x, y)
  {
    hide Picked2, Flip2, Flip0;
    var t := Picked2(x, y);
    PickedAgain2(x, y);
    FlipTwice2(x, t);
    FlipTwice0(y, t);
  }

  lemma SameBits8(x: Word, y: Word, t: Word, x': Word, y': Word)
    requires t == ((x >> 8) ^ y) & 0x00FF00FF && x' == x ^ (t << 8) && y' == y ^ t
    ensures ((x' >> 8) ^ y') & 0x00FF00FF == t
  {
  }

  lemma Bits8(x: Word, y: Word, t: Word)
    ensures Picked8(x, y) == ((x >> 8) ^ y) & 0x00FF00FF
    ensures Flip8(x, t) == x ^ (t << 8) && Flip0(y, t) == y ^ t
  {
  }

  lemma PickedAgain8(x: Word, y: Word)
    ensures var t := Picked8(x, y); Picked8(Flip8(x, t), Flip0(y, t)) == t
  {
    hide Picked8, Flip8, Flip0;
    var t := Picked8(x, y);
    Bits8(x, y, t);
    SameBits8(x, y, t, Flip8(x, t), Flip0(y, t));
    Bits8(Flip8(x, t), Flip0(y, t), t);
  }

  lemma FlipTwice8(x: Word, t: Word)
    ensures Flip8(Flip8(x, t), t) == x
  {
  }

  lemma ExchangeTwice8(x: Word, y: Word)
    ensures var e := Exchange8(x, y); Exchange8(e.l, e.r) == Halves(x, y)
  {
    hide Picked8, Flip8, Flip0;
    var t := Picked8(x, y);
    PickedAgain8(x, y);
    FlipTwice8(x, t);
    FlipTwice0(y, t);
  }

  lemma SameBits0(x: Word, y: Word, t: Word, x': Word, y': Word)
    requires t == (x ^ y) & 0xAAAAAAAA && x' == x ^ t && y' == y ^ t
    ensures (x' ^ y') & 0xAAAAAAAA == t
  {
  }

  lemma Bits0(x: Word, y: Word, t: Word)
    ensures Picked0(x, y) == (x ^ y) & 0xAAAAAAAA
    ensures Flip0(x, t) == x ^ t && Flip0(y, t) == y ^ t
  {
  }

  lemma PickedAgain0(x: Word, y: Word)
    ensures var t := Picked0(x, y); Picked0(Flip0(x, t), Flip0(y, t)) == t
  {
    hide Picked0, Flip0;
    var t := Picked0(x, y);
    Bits0(x, y, t);
    SameBits0(x, y, t, Flip0(x, t), Flip0(y, t));
    Bits0(Flip0(x, t), Flip0(y, t), t);
  }

  lemma FlipTwice0(x: Word, t: Word)
    ensures Flip0(Flip0(x, t), t) == x
  {
  }

  lemma ExchangeTwice0(x: Word, y: Word)
    ensures var e := Exchange0(x, y); Exchange0(e.l, e.r) == Halves(x, y)
  {
    hide Picked0, Flip0, Flip0;
    var t := Picked0(x, y);
    PickedAgain0(x, y);
    FlipTwice0(x, t);
    FlipTwice0(y, t);
  }

  lemma RotateBack(x: Word)
    ensures RotateRight1(RotateLeft1(x)) == x && RotateLeft1(RotateRight1(x)) == x
  {
  }

  lemma FinalAfterInitial(h: Halves)
    ensures FinalPermutation(InitialPermutation(h)) == h
  {
    hide Exchange0, Exchange2, Exchange4, Exchange8, Exchange16, RotateLeft1, RotateRight1;
    var a := Exchange4(h.l, h.r);
    var b := Exchange16(a.l, a.r);
    var c := Exchange2(b.r, b.l);
    var d := Exchange8(c.l, c.r);
    var e := Exchange0(d.r, RotateLeft1(d.l));
    RotateBack(e.l);
    RotateBack(d.l);
    ExchangeTwice0(d.r, RotateLeft1(d.l));
    ExchangeTwice8(c.l, c.r);
    ExchangeTwice2(b.r, b.l);
    ExchangeTwice16(a.l, a.r);
    ExchangeTwice4(h.l, h.r);
  }

  lemma InitialAfterFinal(h: Halves)
    ensures InitialPermutation(FinalPermutation(h)) == h
  {
    hide Exchange0, Exchange2, Exchange4, Exchange8, Exchange16, RotateLeft1, RotateRight1;
    var e := Exchange0(RotateRight1(h.l), h.r);
    var d := Exchange8(RotateRight1(e.r), e.l);
    var c := Exchange2(d.l, d.r);
    var b := Exchange16(c.r, c.l);
    ExchangeTwice4(b.l, b.r);
    ExchangeTwice16(c.r, c.l);
    ExchangeTwice2(d.l, d.r);
    ExchangeTwice8(RotateRight1(e.r), e.l);
    ExchangeTwice0(RotateRight1(h.l), h.r);
    RotateBack(e.r);
    RotateBack(h.l);
  }

  // ---- The rounds -------------------------------------------------------------------------------------------------

  function At(sb: Box, t: Word): Word { sb[t & 0x3F] }

  /** What a round mixes into the other half */
  function Mix(sb: Boxes, k0: Word, k1: Word, x: Word): Word {
    var t := k0 ^ x;
    var u := k1 ^ ((x << 28) | (x >> 4));
    At(sb.sb8, t) ^ At(sb.sb6, t >> 8) ^ At(sb.sb4, t >> 16) ^ At(sb.sb2, t >> 24)
    ^ At(sb.sb7, u) ^ At(sb.sb5, u >> 8) ^ At(sb.sb3, u >> 16) ^ At(sb.sb1, u >> 24)
  }

  /** A round of section 3 of FIPS 46-3: L' = R, R' = L + f(R, K) */
  function Round(sb: Boxes, k0: Word, k1: Word, h: Halves): Halves {
    Halves(h.r, Flip0(h.l, Mix(sb, k0, k1, h.r)))
  }

  /** The first n rounds */
  function Rounds(sb: Boxes, sk: Schedule, n: nat, h: Halves): Halves
    requires n <= 16
  {
    if n == 0 then h else Round(sb, sk[2 * n - 2], sk[2 * n - 1], Rounds(sb, sk, n - 1, h))
  }

  function Swapped(h: Halves): Halves { Halves(h.r, h.l) }

  /** The permuted block goes through sixteen rounds and a swap of the halves. */
  function Crypt(sb: Boxes, sk: Schedule, block: Block): Block {
    PutHalves(FinalPermutation(Swapped(Rounds(sb, sk, 16, InitialPermutation(GetHalves(block))))))
  }

  /** The same pairs of words, last pair first */
  function Backwards(sk: Schedule): Schedule {
    seq(32, i requires 0 <= i < 32 => if i % 2 == 0 then sk[30 - i] else sk[32 - i])
  }

  lemma BackwardsTwice(sk: Schedule)
    ensures Backwards(Backwards(sk)) == sk
  {
  }

  /** A round with the halves swapped undoes a round. */
  lemma RoundBack(sb: Boxes, k0: Word, k1: Word, h: Halves)
    ensures Round(sb, k0, k1, Swapped(Round(sb, k0, k1, h))) == Swapped(h)
  {
    hide Mix, Flip0;
    FlipTwice0(h.l, Mix(sb, k0, k1, h.r));
  }

  lemma BackwardsPair(sk: Schedule, n: nat)
    requires 1 <= n <= 16
    ensures Backwards(sk)[2 * n - 2] == sk[32 - 2 * n] && Backwards(sk)[2 * n - 1] == sk[33 - 2 * n]
  {
  }

  lemma RoundsStep(sb: Boxes, sk: Schedule, n: nat, h: Halves)
    requires 1 <= n <= 16
    ensures Rounds(sb, sk, n, h) == Round(sb, sk[2 * n - 2], sk[2 * n - 1], Rounds(sb, sk, n - 1, h))
  {
  }

  lemma RoundsZero(sb: Boxes, sk: Schedule, h: Halves)
    ensures Rounds(sb, sk, 0, h) == h
  {
  }

  /** After n rounds backwards, the halves are those before the last n rounds. */
  lemma {:induction false} RoundsBack(sb: Boxes, sk: Schedule, n: nat, h: Halves)
    requires n <= 16
    ensures Rounds(sb, Backwards(sk), n, Swapped(Rounds(sb, sk, 16, h))) == Swapped(Rounds(sb, sk, 16 - n, h))
  {
    hide Round, Swapped, Rounds, Backwards;
    var last := Swapped(Rounds(sb, sk, 16, h));
    if n == 0 {
      RoundsZero(sb, Backwards(sk), last);
    } else {
      RoundsBack(sb, sk, n - 1, h);
      BackwardsPair(sk, n);
      RoundsStep(sb, Backwards(sk), n, last);
      RoundsStep(sb, sk, 17 - n, h);
      RoundBack(sb, sk[32 - 2 * n], sk[33 - 2 * n], Rounds(sb, sk, 16 - n, h));
    }
  }

  /** For any 32 words, the cipher with the pairs of words backwards undoes the cipher. */
  lemma CryptBack(sb: Boxes, sk: Schedule, block: Block)
    ensures Crypt(sb, Backwards(sk), Crypt(sb, sk, block)) == block
  {
    hide GetHalves, PutHalves, InitialPermutation, FinalPermutation, Rounds;
    var first := InitialPermutation(GetHalves(block));
    var last := Swapped(Rounds(sb, sk, 16, first));
    GetPutHalves(FinalPermutation(last));
    InitialAfterFinal(last);
    RoundsBack(sb, sk, 16, first);
    assert Rounds(sb, sk, 0, first) == first by { RoundsZero(sb, sk, first); }
    FinalAfterInitial(GetHalves(block));
    PutGetHalves(block);
  }

  /** One block, as the original computes it: two rounds a step, with the halves in place */
  method CryptBlock(sb: Boxes, sk: Schedule, input: Block, output: array<Byte>, at: nat)
    requires at + 8 <= output.Length
    modifies output
    ensures output[..at + 8] == old(output[..at]) + Crypt(sb, sk, input)
    ensures output[at + 8..] == old(output[at + 8..])
  {
    hide Mix, InitialPermutation, FinalPermutation, GetHalves;
    var h := InitialPermutation(GetHalves(input));
    var x, y := h.l, h.r;
    for i := 0 to 8
      invariant Halves(x, y) == Rounds(sb, sk, 2 * i, h)
    {
      assert Rounds(sb, sk, 2 * i + 1, h) == Round(sb, sk[4 * i], sk[4 * i + 1], Rounds(sb, sk, 2 * i, h));
      x := Flip0(x, Mix(sb, sk[4 * i], sk[4 * i + 1], y));
      assert Halves(y, x) == Rounds(sb, sk, 2 * i + 1, h);
      y := Flip0(y, Mix(sb, sk[4 * i + 2], sk[4 * i + 3], x));
    }
    var out := FinalPermutation(Halves(y, x));
    var b := PutHalves(out);
    forall k | 0 <= k < 8 {
      output[at + k] := b[k];
    }
    assert output[..at] == old(output[..at]) && output[at + 8..] == old(output[at + 8..]);
    assert output[at..at + 8] == b;
    assert output[..at + 8] == output[..at] + output[at..at + 8];
  }

  // ---- Texts of whole blocks --------------------------------------------------------------------------------------

  /** Block by block */
  function Blocks(sb: Boxes, sk: Schedule, t: seq<Byte>): (r: seq<Byte>)
    requires |t| % 8 == 0
    ensures |r| == |t|
  {
    if t == [] then [] else Blocks(sb, sk, t[..|t| - 8]) + Crypt(sb, sk, t[|t| - 8..])
  }

  lemma BlocksAppend(sb: Boxes, sk: Schedule, t: seq<Byte>, b: Block)
    requires |t| % 8 == 0
    ensures Blocks(sb, sk, t + b) == Blocks(sb, sk, t) + Crypt(sb, sk, b)
  {
    assert (t + b)[..|t + b| - 8] == t && (t + b)[|t + b| - 8..] == b;
  }

  lemma {:induction false} BlocksBack(sb: Boxes, sk: Schedule, t: seq<Byte>)
    requires |t| % 8 == 0
    ensures Blocks(sb, Backwards(sk), Blocks(sb, sk, t)) == t
  {
    hide Crypt, Backwards;
    if t != [] {
      var u, b := t[..|t| - 8], t[|t| - 8..];
      BlocksBack(sb, sk, u);
      BlocksAppend(sb, Backwards(sk), Blocks(sb, sk, u), Crypt(sb, sk, b));
      CryptBack(sb, sk, b);
      assert t == u + b;
    }
  }

  lemma BlocksAfterBack(sb: Boxes, sk: Schedule, t: seq<Byte>)
    requires |t| % 8 == 0
    ensures Blocks(sb, sk, Blocks(sb, Backwards(sk), t)) == t
  {
    BlocksBack(sb, Backwards(sk), t);
    BackwardsTwice(sk);
  }

  // ---- Padding ----------------------------------------------------------------------------------------------------

  datatype Mode = Iso7816 | Pkcs7

  /** Padding method 2 of ISO/IEC 7816-4: 0x80 and then zeros; section 6.3 of RFC 5652: each byte is the length. */
  function Padding(mode: Mode, n: nat): (r: seq<Byte>)
    requires 1 <= n <= 8
    ensures |r| == n
  {
    match mode
    case Iso7816 => [0x80] + seq(n - 1, _ => 0)
    case Pkcs7 => seq(n, _ => Lit(n))
  }

  function Padded(mode: Mode, text: seq<Byte>): (r: seq<Byte>)
    ensures |r| % 8 == 0 && |r| > 0
  {
    text + Padding(mode, 8 - |text| % 8)
  }

  /** The byte that holds a small number, and the number that it holds */
  function Lit(n: nat): Byte
    requires n < 256
  {
    n as Byte
  }

  function Number(b: Byte): (n: nat)
    ensures n < 256
  {
    b as nat
  }

  lemma LitNumber(b: Byte)
    ensures Lit(Number(b)) == b
  {
    ByteBack(b);
  }

  lemma NumberLit(n: nat)
    requires 1 <= n <= 8
    ensures Number(Lit(n)) == n
  {
    NumberBack(n);
  }

  lemma ByteBack(b: Byte)
    ensures (b as nat) as Byte == b
  {
  }

  lemma NumberBack(n: nat)
    requires 1 <= n <= 8
    ensures (n as Byte) as nat == n
  {
    if n == 1 {
    } else if n == 2 {
    } else if n == 3 {
    } else if n == 4 {
    } else if n == 5 {
    } else if n == 6 {
    } else if n == 7 {
    }
  }

  /** Some padding ends the bytes. */
  predicate EndsIn(mode: Mode, b: seq<Byte>, n: int) {
    1 <= n <= 8 && n <= |b| && b[|b| - n..] == Padding(mode, n)
  }

  lemma PaddingSize(mode: Mode, b: seq<Byte>, n: int)
    requires EndsIn(mode, b, n)
    ensures 1 <= n <= 8 && n <= |b|
  {
  }

  lemma PaddingAt(mode: Mode, b: seq<Byte>, n: int, k: nat)
    requires EndsIn(mode, b, n) && k < n
    ensures b[|b| - n + k] == match mode case Iso7816 => if k == 0 then 0x80 else 0 case Pkcs7 => Lit(n)
  {
    hide Lit;
    assert b[|b| - n + k] == b[|b| - n..][k];
  }

  /** Bytes can end in one padding at most. */
  lemma OnePadding(mode: Mode, b: seq<Byte>, m: int, n: int)
    requires EndsIn(mode, b, m) && EndsIn(mode, b, n)
    ensures m == n
  {
    PaddingSize(mode, b, m);
    PaddingSize(mode, b, n);
    hide Lit, Number, EndsIn;
    PaddingAt(mode, b, m, m - 1);
    PaddingAt(mode, b, n, n - 1);
    NumberLit(m);
    NumberLit(n);
    PaddingAt(mode, b, m, 0);
    PaddingAt(mode, b, n, 0);
    PaddingAt(mode, b, m, if n < m then m - n else 0);
    PaddingAt(mode, b, n, if m < n then n - m else 0);
  }

  /** The bytes from `offset` to the end of the block become the padding. */
  method AddPadding(mode: Mode, buf: array<Byte>, offset: nat)
    requires buf.Length == 8 && offset < 8
    modifies buf
    ensures buf[..] == old(buf[..offset]) + Padding(mode, 8 - offset)
  {
    match mode {
      case Iso7816 =>
        buf[offset] := 0x80;
        forall k | offset < k < 8 {
          buf[k] := 0;
        }
      case Pkcs7 =>
        forall k | offset <= k < 8 {
          buf[k] := Lit(8 - offset);
        }
    }
    assert buf[..offset] == old(buf[..offset]);
    assert buf[offset..] == Padding(mode, 8 - offset);
  }

  method RemoveIso7816(b: seq<Byte>) returns (n: nat)
    requires |b| >= 8
    ensures n == 0 || EndsIn(Iso7816, b, n)
    ensures n == 0 ==> forall m :: !EndsIn(Iso7816, b, m)
  {
    var padding := 1;
    for i := 0 to 8
      invariant padding == i + 1
      invariant forall k :: |b| - i <= k < |b| ==> b[k] == 0
    {
      if b[|b| - 1 - i] == 0 {
        padding := padding + 1;
      } else if b[|b| - 1 - i] == 0x80 {
        assert b[|b| - padding..] == Padding(Iso7816, padding);
        return padding;
      } else {
        forall m | EndsIn(Iso7816, b, m) ensures false {
          PaddingAt(Iso7816, b, m, if m > i then m - 1 - i else 0);
        }
        return 0;
      }
    }
    forall m | EndsIn(Iso7816, b, m) ensures false {
      PaddingAt(Iso7816, b, m, 0);
    }
    n := 0;
  }

  /** The last byte says how many bytes are compared; for a length over 8 these may lie before the last block, and before
      the text: `b` is the memory up to its last byte. */
  method RemovePkcs7(b: seq<Byte>) returns (n: nat)
    requires |b| >= 255
    ensures n == 0 || n > 8 || EndsIn(Pkcs7, b, n)
    ensures n == 0 || n > 8 ==> forall m :: !EndsIn(Pkcs7, b, m)
  {
    hide Lit, Number, EndsIn;
    var last := b[|b| - 1];
    var padding := Number(last);
    LitNumber(last);
    var i := 1;
    while i < padding
      invariant i == 1 || i <= padding
      invariant forall k :: |b| - i <= k < |b| ==> b[k] == last
    {
      if b[|b| - 1 - i] != last {
        forall m | EndsIn(Pkcs7, b, m) ensures false {
          LastIsLength(b, m);
          PaddingAt(Pkcs7, b, m, padding - 1 - i);
        }
        return 0;
      }
      i := i + 1;
    }
    forall m | EndsIn(Pkcs7, b, m) ensures 1 <= padding <= 8 {
      LastIsLength(b, m);
    }
    if 1 <= padding <= 8 {
      AllSame(b, padding);
    }
    n := padding;
  }

  lemma LastIsLength(b: seq<Byte>, n: int)
    requires EndsIn(Pkcs7, b, n)
    ensures 1 <= n <= 8 && n <= |b| && Number(b[|b| - 1]) == n
  {
    PaddingAt(Pkcs7, b, n, n - 1);
    NumberLit(n);
  }

  lemma AllSame(b: seq<Byte>, n: nat)
    requires 1 <= n <= 8 && n <= |b|
    requires forall k :: |b| - n <= k < |b| ==> b[k] == Lit(n)
    ensures EndsIn(Pkcs7, b, n)
  {
    hide Lit;
  }

  // ---- Whole texts ------------------------------------------------------------------------------------------------

  datatype Result = Ok(text: seq<Byte>) | InvalidMode | InvalidLength | InvalidText

  predicate KnownMode(m: int) {
    0 <= m < 2
  }

  function ModeOf(m: int): Mode
    requires KnownMode(m)
  {
    if m == 0 then Iso7816 else Pkcs7
  }

  /** The cipher text of a text */
  function Encoded(sb: Boxes, sk: Schedule, mode: Mode, text: seq<Byte>): seq<Byte> {
    Blocks(sb, sk, Padded(mode, text))
  }

  lemma WholeAndTail(text: seq<Byte>, i: nat, mode: Mode)
    requires i % 8 == 0 && i <= |text| < i + 8
    ensures Padded(mode, text) == text[..i] + (text[i..] + Padding(mode, 8 - (|text| - i)))
  {
    hide Padding;
    assert |text| % 8 == |text| - i;
    var p := Padding(mode, 8 - (|text| - i));
    assert text + p == text[..i] + (text[i..] + p);
  }

  method Encode(sb: Boxes, sk: Schedule, m: int, text: seq<Byte>) returns (r: Result)
    ensures r == if KnownMode(m) then Ok(Encoded(sb, sk, ModeOf(m), text)) else InvalidMode
  {
    hide Crypt, Blocks;
    var buffer := new Byte[(|text| + 8) / 8 * 8];
    var i := 0;
    assert Blocks(sb, sk, []) == [] by { BlocksNone(sb, sk); }
    while i < |text| - 7
      invariant i % 8 == 0 && i <= |text| && i + 8 <= buffer.Length
      invariant buffer[..i] == Blocks(sb, sk, text[..i])
    {
      BlocksAppend(sb, sk, text[..i], text[i..i + 8]);
      assert text[..i + 8] == text[..i] + text[i..i + 8];
      CryptBlock(sb, sk, text[i..i + 8], buffer, i);
      i := i + 8;
    }
    if !KnownMode(m) {
      return InvalidMode;
    }
    LastBlock(sb, sk, ModeOf(m), text, i, buffer);
    r := Ok(buffer[..]);
  }

  /** The bytes after the last whole block, padded, are the last block. */
  method LastBlock(sb: Boxes, sk: Schedule, mode: Mode, text: seq<Byte>, i: nat, buffer: array<Byte>)
    requires i % 8 == 0 && i <= |text| < i + 8 && buffer.Length == i + 8
    requires buffer[..i] == Blocks(sb, sk, text[..i])
    modifies buffer
    ensures buffer[..] == Encoded(sb, sk, mode, text)
  {
    hide Crypt, Blocks, Padding;
    var tail := PaddedTail(mode, text[i..]);
    var last := tail[..];
    WholeAndTail(text, i, mode);
    BlocksAppend(sb, sk, text[..i], last);
    CryptBlock(sb, sk, last, buffer, i);
    assert buffer[..] == buffer[..i + 8];
  }

  method PaddedTail(mode: Mode, rest: seq<Byte>) returns (tail: array<Byte>)
    requires |rest| < 8
    ensures fresh(tail) && tail.Length == 8
    ensures tail[..] == rest + Padding(mode, 8 - |rest|)
  {
    tail := new Byte[8];
    forall k | 0 <= k < |rest| {
      tail[k] := rest[k];
    }
    assert tail[..|rest|] == rest;
    AddPadding(mode, tail, |rest|);
  }

  lemma BlocksNone(sb: Boxes, sk: Schedule)
    ensures Blocks(sb, sk, []) == []
  {
  }

  method RemovePadding(mode: Mode, b: seq<Byte>) returns (n: nat)
    requires |b| >= 255
    ensures n == 0 || n > 8 || EndsIn(mode, b, n)
    ensures n == 0 || n > 8 ==> forall m :: !EndsIn(mode, b, m)
  {
    match mode {
      case Iso7816 => n := RemoveIso7816(b);
      case Pkcs7 => n := RemovePkcs7(b);
    }
  }

  /** A plain text that ends in a padding is a padded text, and no other. */
  lemma PaddedEnds(mode: Mode, plain: seq<Byte>, n: int, text: seq<Byte>)
    requires |plain| % 8 == 0 && EndsIn(mode, plain, n)
    ensures plain == Padded(mode, text) <==> text == plain[..|plain| - n]
  {
    hide Padding;
    var rest := plain[..|plain| - n];
    assert plain == rest + Padding(mode, n);
    assert 8 - |rest| % 8 == n;
    if plain == Padded(mode, text) {
      assert EndsIn(mode, plain, 8 - |text| % 8);
      OnePadding(mode, plain, n, 8 - |text| % 8);
      assert text == plain[..|text|];
    }
  }

  lemma PaddedIsPadded(mode: Mode, text: seq<Byte>)
    ensures EndsIn(mode, Padded(mode, text), 8 - |text| % 8)
  {
    hide Padding;
  }

  lemma EndsAfter(mode: Mode, before: seq<Byte>, b: seq<Byte>, n: int)
    requires |b| >= 8
    ensures EndsIn(mode, before + b, n) == EndsIn(mode, b, n)
  {
    hide Padding;
    if 1 <= n <= 8 {
      assert (before + b)[|before + b| - n..] == b[|b| - n..];
    }
  }

  /** The whole of decoding: a text comes out exactly when the input is its cipher text. `before` is whatever lies in the 247
      bytes in front of the buffer, and changes nothing. */
  method Decode(sb: Boxes, esk: Schedule, m: int, cipher: seq<Byte>, before: seq<Byte>) returns (r: Result)
    requires |before| == 247
    ensures r.InvalidLength? <==> |cipher| % 8 != 0 || |cipher| == 0
    ensures r.InvalidMode? <==> |cipher| % 8 == 0 && |cipher| > 0 && !KnownMode(m)
    ensures KnownMode(m) ==> forall text :: r == Ok(text) <==> cipher == Encoded(sb, esk, ModeOf(m), text)
  {
    hide Crypt, Padding, Blocks, EndsIn, Backwards;
    var sk := new Word[32];
    var i := 0;
    while i < 32
      invariant i % 2 == 0 && 0 <= i <= 32
      invariant forall k :: 0 <= k < i ==> sk[k] == Backwards(esk)[k]
    {
      BackwardsPair(esk, i / 2 + 1);
      sk[i], sk[i + 1] := esk[30 - i], esk[31 - i];
      i := i + 2;
    }
    var back := sk[..];
    assert back == Backwards(esk);
    if |cipher| % 8 != 0 || |cipher| == 0 {
      return InvalidLength;
    }
    var buffer := new Byte[|cipher|];
    i := 0;
    assert Blocks(sb, back, []) == [] by { BlocksNone(sb, back); }
    while i < |cipher|
      invariant i % 8 == 0 && i <= |cipher|
      invariant buffer[..i] == Blocks(sb, back, cipher[..i])
    {
      BlocksAppend(sb, back, cipher[..i], cipher[i..i + 8]);
      assert cipher[..i + 8] == cipher[..i] + cipher[i..i + 8];
      CryptBlock(sb, back, cipher[i..i + 8], buffer, i);
      i := i + 8;
    }
    var plain := buffer[..];
    assert cipher[..i] == cipher;
    DecodeIs(sb, esk, cipher, plain);
    if !KnownMode(m) {
      return InvalidMode;
    }
    var mode := ModeOf(m);
    var padding := RemovePadding(mode, before + plain);
    EndsAfter(mode, before, plain, padding);
    if padding == 0 || padding > 8 {
      r := InvalidText;
      forall text ensures cipher != Encoded(sb, esk, mode, text) {
        PaddedIsPadded(mode, text);
        EndsAfter(mode, before, plain, 8 - |text| % 8);
      }
    } else {
      assert padding <= |plain|;
      r := Ok(plain[..|plain| - padding]);
      forall text ensures r == Ok(text) <==> cipher == Encoded(sb, esk, mode, text) {
        PaddedEnds(mode, plain, padding, text);
      }
    }
  }

  /** What the blocks backwards come out as is the one plain text of the cipher text. */
  lemma DecodeIs(sb: Boxes, sk: Schedule, cipher: seq<Byte>, plain: seq<Byte>)
    requires |cipher| % 8 == 0
    requires plain == Blocks(sb, Backwards(sk), cipher)
    ensures forall mode, text :: cipher == Encoded(sb, sk, mode, text) <==> plain == Padded(mode, text)
  {
    hide Backwards, Blocks;
    BlocksAfterBack(sb, sk, cipher);
    forall mode, text ensures cipher == Encoded(sb, sk, mode, text) <==> plain == Padded(mode, text) {
      BlocksBack(sb, sk, Padded(mode, text));
    }
  }

  /** Decoding undoes encoding, for any boxes, any key, any text and both paddings. */
  method RoundTrip(sb: Boxes, sk: Schedule, m: int, text: seq<Byte>, before: seq<Byte>) returns (r: Result)
    requires KnownMode(m) && |before| == 247
    ensures r == Ok(text)
  {
    var e := Encode(sb, sk, m, text);
    assert |e.text| % 8 == 0 && |e.text| > 0;
    r := Decode(sb, sk, m, e.text, before);
  }
}
