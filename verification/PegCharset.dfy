/** Character sets as the 32 bytes the original keeps them in, and their classification. */
module PegCharset {
  import opened Peg
  import opened PegGen

  const CHARSETSIZE := 32
  const BITSPERCHAR := 8

  type Charset = cs: seq<bv8> | |cs| == CHARSETSIZE witness seq(CHARSETSIZE, _ => 0)

  predicate Bit(b: bv8, k: nat)
    requires k < 8
  {
    (b >> k) & 1 == 1
  }

  predicate Has(cs: Charset, c: Byte) {
    Bit(cs[c / BITSPERCHAR], c % BITSPERCHAR)
  }

  /** The characters in a set */
  ghost function Members(cs: Charset): set<Byte> {
    set c: Byte | Has(cs, c)
  }

  function PackByte(b0: bool, b1: bool, b2: bool, b3: bool, b4: bool, b5: bool, b6: bool, b7: bool): bv8 {
    (if b0 then 1 else 0) | (if b1 then 2 else 0) | (if b2 then 4 else 0) | (if b3 then 8 else 0)
    | (if b4 then 16 else 0) | (if b5 then 32 else 0) | (if b6 then 64 else 0) | (if b7 then 128 else 0)
  }

  /** The bytes of a set of characters */
  function ToBytes(s: set<Byte>): Charset {
    seq(CHARSETSIZE, i requires 0 <= i < CHARSETSIZE =>
      PackByte(8 * i in s, 8 * i + 1 in s, 8 * i + 2 in s, 8 * i + 3 in s,
               8 * i + 4 in s, 8 * i + 5 in s, 8 * i + 6 in s, 8 * i + 7 in s))
  }

  lemma PackByteBits(b0: bool, b1: bool, b2: bool, b3: bool, b4: bool, b5: bool, b6: bool, b7: bool)
    ensures var b := PackByte(b0, b1, b2, b3, b4, b5, b6, b7);
            && Bit(b, 0) == b0 && Bit(b, 1) == b1 && Bit(b, 2) == b2 && Bit(b, 3) == b3
            && Bit(b, 4) == b4 && Bit(b, 5) == b5 && Bit(b, 6) == b6 && Bit(b, 7) == b7
  {
  }

  lemma ToBytesMembers(s: set<Byte>)
    ensures Members(ToBytes(s)) == s
  {
    forall c: Byte ensures Has(ToBytes(s), c) <==> c in s {
      var i := c / 8;
      PackByteBits(8 * i in s, 8 * i + 1 in s, 8 * i + 2 in s, 8 * i + 3 in s,
                   8 * i + 4 in s, 8 * i + 5 in s, 8 * i + 6 in s, 8 * i + 7 in s);
      assert c == 8 * i + c % 8;
    }
  }

  // ---- Facts about one byte -------------------------------------------------------------------------------

  lemma ZeroByte(b: bv8)
    ensures b == 0 <==> forall k: nat | k < 8 :: !Bit(b, k)
  {
    if b != 0 {
      assert Bit(b, 0) || Bit(b, 1) || Bit(b, 2) || Bit(b, 3) || Bit(b, 4) || Bit(b, 5) || Bit(b, 6) || Bit(b, 7);
    }
  }

  lemma FullByte(b: bv8)
    ensures b == 0xFF <==> forall k: nat | k < 8 :: Bit(b, k)
  {
    if b != 0xFF {
      assert !(Bit(b, 0) && Bit(b, 1) && Bit(b, 2) && Bit(b, 3) && Bit(b, 4) && Bit(b, 5) && Bit(b, 6) && Bit(b, 7));
    }
  }

  /** `b & (b - 1)` clears the lowest bit, so nothing is left exactly when one bit was set. */
  lemma OneBit(b: bv8)
    requires b != 0 && b & (b - 1) == 0
    ensures b == 1 || b == 2 || b == 4 || b == 8 || b == 16 || b == 32 || b == 64 || b == 128
  {
  }

  lemma ManyBits(b: bv8) returns (j: nat, k: nat)
    requires b != 0 && b & (b - 1) != 0
    ensures j < k < 8 && Bit(b, j) && Bit(b, k)
  {
    j := if Bit(b, 0) then 0 else if Bit(b, 1) then 1 else if Bit(b, 2) then 2 else if Bit(b, 3) then 3
         else if Bit(b, 4) then 4 else if Bit(b, 5) then 5 else 6;
    k := if Bit(b, 7) then 7 else if Bit(b, 6) then 6 else if Bit(b, 5) then 5 else if Bit(b, 4) then 4
         else if Bit(b, 3) then 3 else if Bit(b, 2) then 2 else 1;
  }

  /** The position of the bit in a byte that has one, found by halving */
  method BitPosition(byte: bv8) returns (k: nat)
    requires byte != 0 && byte & (byte - 1) == 0
    ensures k < 8 && forall j: nat | j < 8 :: Bit(byte, j) <==> j == k
  {
    OneBit(byte);
    var b := byte;
    k := 0;
    if b & 0xF0 != 0 { k := k + 4; b := b >> 4; }
    if b & 0x0C != 0 { k := k + 2; b := b >> 2; }
    if b & 0x02 != 0 { k := k + 1; }
  }

  /** `charsettype`: scan the bytes, stopping as soon as the set is known to be neither empty, nor a single character,
      nor full. */
  method CharsetType(cs: Charset) returns (kind: Kind)
    ensures kind == Classify(Members(cs))
  {
    var count := 0;
    var candidate := 0;
    for i := 0 to CHARSETSIZE
      invariant count == 0 || (count == 1 && i > 0) || (count == BITSPERCHAR * i && i > 0)
      invariant count == 0 ==> forall j :: 0 <= j < i ==> cs[j] == 0
      invariant count == 1 ==> 0 <= candidate < i && cs[candidate] != 0 && cs[candidate] & (cs[candidate] - 1) == 0
      invariant count == 1 ==> forall j :: 0 <= j < i && j != candidate ==> cs[j] == 0
      invariant count > 1 ==> forall j :: 0 <= j < i ==> cs[j] == 0xFF
    {
      var b := cs[i];
      if b == 0 {
        if count > 1 {
          GapAndFull(cs, i, 0);
          return General;
        }
      } else if b == 0xFF {
        if count < i * BITSPERCHAR {
          GapAndFull(cs, if count == 0 then 0 else candidate, i);
          return General;
        }
        count := count + BITSPERCHAR;
      } else if b & (b - 1) == 0 {
        if count > 0 {
          TwoBytes(cs, if count == 1 then candidate else 0, i);
          return General;
        }
        count := count + 1;
        candidate := i;
      } else {
        Scattered(cs, i);
        return General;
      }
    }
    if count == 0 {
      AllZero(cs);
      return Empty;
    } else if count == 1 {
      var k := BitPosition(cs[candidate]);
      OnlyOne(cs, candidate, k);
      return Single(candidate * BITSPERCHAR + k);
    } else {
      AllFull(cs);
      return Full;
    }
  }

  // ---- From bytes to sets ---------------------------------------------------------------------------------

  lemma Member(cs: Charset, i: nat, k: nat)
    requires i < CHARSETSIZE && k < 8
    ensures Bit(cs[i], k) <==> 8 * i + k in Members(cs)
  {
    var c: Byte := 8 * i + k;
    assert c / 8 == i && c % 8 == k;
    assert Has(cs, c) <==> c in Members(cs);
  }

  lemma NotSingle(s: set<Byte>, a: Byte, b: Byte, out: Byte)
    requires a in s && b in s && a != b && out !in s
    ensures Classify(s) == General
  {
    assert out in FULL;
    forall c: Byte ensures s != {c} {
      assert !(a in {c} && b in {c});
    }
  }

  lemma GapAndFull(cs: Charset, gap: nat, full: nat)
    requires full < CHARSETSIZE && gap < CHARSETSIZE && cs[full] == 0xFF && cs[gap] != 0xFF
    ensures Classify(Members(cs)) == General
  {
    var k := SomeGap(cs[gap]);
    FullByte(cs[full]);
    Member(cs, full, 0);
    Member(cs, full, 1);
    Member(cs, gap, k);
    NotSingle(Members(cs), 8 * full, 8 * full + 1, 8 * gap + k);
  }

  lemma SomeBit(b: bv8) returns (k: nat)
    requires b != 0
    ensures k < 8 && Bit(b, k)
  {
    ZeroByte(b);
    k :| k < 8 && Bit(b, k);
  }

  lemma SomeGap(b: bv8) returns (k: nat)
    requires b != 0xFF
    ensures k < 8 && !Bit(b, k)
  {
    FullByte(b);
    k :| k < 8 && !Bit(b, k);
  }

  lemma TwoBytes(cs: Charset, i: nat, j: nat)
    requires i < j < CHARSETSIZE && cs[i] != 0 && cs[j] != 0 && cs[j] != 0xFF
    ensures Classify(Members(cs)) == General
  {
    var k1 := SomeBit(cs[i]);
    var k2 := SomeBit(cs[j]);
    var k3 := SomeGap(cs[j]);
    Member(cs, i, k1);
    Member(cs, j, k2);
    Member(cs, j, k3);
    NotSingle(Members(cs), 8 * i + k1, 8 * j + k2, 8 * j + k3);
  }

  lemma Scattered(cs: Charset, i: nat)
    requires i < CHARSETSIZE && cs[i] != 0 && cs[i] != 0xFF && cs[i] & (cs[i] - 1) != 0
    ensures Classify(Members(cs)) == General
  {
    var j, k := ManyBits(cs[i]);
    var g := SomeGap(cs[i]);
    Member(cs, i, j);
    Member(cs, i, k);
    Member(cs, i, g);
    NotSingle(Members(cs), 8 * i + j, 8 * i + k, 8 * i + g);
  }

  lemma AllZero(cs: Charset)
    requires forall j :: 0 <= j < CHARSETSIZE ==> cs[j] == 0
    ensures Members(cs) == {}
  {
    forall c: Byte ensures !Has(cs, c) {
      assert cs[c / 8] == 0;
      ZeroByte(cs[c / 8]);
    }
  }

  lemma AllFull(cs: Charset)
    requires forall j :: 0 <= j < CHARSETSIZE ==> cs[j] == 0xFF
    ensures Members(cs) == FULL && FULL != {}
  {
    forall c: Byte ensures Has(cs, c) {
      assert cs[c / 8] == 0xFF;
      FullByte(cs[c / 8]);
    }
    assert 0 in FULL;
  }

  lemma OnlyOne(cs: Charset, i: nat, k: nat)
    requires i < CHARSETSIZE && k < 8
    requires forall j :: 0 <= j < CHARSETSIZE && j != i ==> cs[j] == 0
    requires forall j: nat | j < 8 :: Bit(cs[i], j) <==> j == k
    ensures Classify(Members(cs)) == Single(8 * i + k)
  {
    var c0: Byte := 8 * i + k;
    forall c: Byte ensures Has(cs, c) <==> c == c0 {
      if c / 8 != i {
        assert cs[c / 8] == 0;
        ZeroByte(cs[c / 8]);
      } else {
        assert c == 8 * i + c % 8;
      }
    }
    assert Members(cs) == {c0};
    var other: Byte := if c0 == 0 then 1 else 0;
    assert other in FULL && other !in Members(cs);
  }
}
