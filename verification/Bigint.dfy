/** The big integers of dtoa.c: limbs of 32 bits, least significant first, with 64-bit intermediate results. */
module Bigint {
  const BASE: int := 0x1_0000_0000
  const WIDE: int := 0x1_0000_0000_0000_0000

  type Limb = x: int | 0 <= x < 0x1_0000_0000

  // ---- Values -----------------------------------------------------------------------------------------------------

  function Power(base: nat, n: nat): (r: nat)
    ensures base > 0 ==> r > 0
  {
    if n == 0 then 1 else base * Power(base, n - 1)
  }

  lemma Associate(a: int, b: int, c: int)
    ensures a * (b * c) == a * b * c
  {
  }

  lemma {:induction false} PowerSum(base: nat, m: nat, n: nat)
    ensures Power(base, m + n) == Power(base, m) * Power(base, n)
  {
    if m > 0 {
      PowerSum(base, m - 1, n);
      Associate(base, Power(base, m - 1), Power(base, n));
    }
  }

  /** The weight of limb `n` */
  function P(n: nat): (r: nat)
    ensures r > 0
  {
    Power(BASE, n)
  }

  function Val(s: seq<Limb>): (v: nat)
  {
    if s == [] then 0 else Val(s[..|s| - 1]) + s[|s| - 1] * P(|s| - 1)
  }

  lemma ValSnoc(s: seq<Limb>, d: Limb)
    ensures Val(s + [d]) == Val(s) + d * P(|s|)
  {
    assert (s + [d])[..|s|] == s;
  }

  lemma ValExtend(s: seq<Limb>, i: nat)
    requires i < |s|
    ensures Val(s[..i + 1]) == Val(s[..i]) + s[i] * P(i)
  {
    assert s[..i + 1][..i] == s[..i];
  }

  lemma ValNone(s: seq<Limb>)
    ensures Val(s[..0]) == 0 && P(0) == 1
  {
  }

  lemma PStep(n: nat)
    ensures P(n + 1) == BASE * P(n)
  {
  }

  lemma {:induction false} ValBound(s: seq<Limb>)
    ensures Val(s) < P(|s|)
  {
    if s != [] {
      var n := |s| - 1;
      ValBound(s[..n]);
      PStep(n);
      assert s[n] * P(n) <= (BASE - 1) * P(n) by {
        MulMono(s[n], BASE - 1, P(n));
      }
      assert (BASE - 1) * P(n) == BASE * P(n) - P(n);
    }
  }

  lemma MulMono(a: int, b: int, c: int)
    requires a <= b && c >= 0
    ensures a * c <= b * c
  {
  }

  lemma {:induction false} ValZeros(s: seq<Limb>, n: nat)
    requires n <= |s| && forall k :: n <= k < |s| ==> s[k] == 0
    ensures Val(s) == Val(s[..n])
  {
    if n < |s| {
      ValZeros(s[..|s| - 1], n);
      assert s[..|s| - 1][..n] == s[..n];
    } else {
      assert s[..n] == s;
    }
  }

  /** A number without leading zeros lies between the powers that its length says. */
  lemma ValTop(s: seq<Limb>)
    requires s != [] && s[|s| - 1] > 0
    ensures P(|s| - 1) <= Val(s) < P(|s|)
  {
    var n := |s| - 1;
    ValBound(s);
    MulMono(1, s[n], P(n));
  }

  // ---- Numbers ----------------------------------------------------------------------------------------------------

  class Big {
    const k: nat
    const x: array<Limb>
    var wds: nat

    ghost predicate Valid()
      reads this
    {
      x.Length == Power(2, k) && wds <= x.Length
    }

    ghost function Value(): nat
      requires Valid()
      reads this, x
    {
      Val(x[..wds])
    }

    /** No leading zero limbs. Zero has one limb, or none. */
    ghost predicate Trimmed()
      reads this, x
    {
      Valid() && (wds == 0 ==> x[0] == 0) && (wds > 1 ==> x[wds - 1] != 0)
    }

    ghost predicate Normal()
      reads this, x
    {
      Trimmed() && wds >= 1
    }

    /** `Balloc` */
    constructor (k: nat)
      ensures Valid() && wds == 0 && this.k == k && fresh(x)
    {
      this.k := k;
      x := new Limb[Power(2, k)];
      wds := 0;
    }
  }

  /** `i2b` */
  method FromInt(i: Limb) returns (b: Big)
    ensures fresh(b) && fresh(b.x) && b.Normal() && b.Value() == i
  {
    b := new Big(1);
    assert Power(2, 1) == 2 * Power(2, 0);
    b.x[0] := i;
    b.wds := 1;
    assert b.x[..1] == [] + [i];
    ValSnoc([], i);
    assert P(0) == 1;
  }

  lemma CarryStep(lo: int, was: int, p: int, m: int, carry: int, limb: int, a: int)
    requires lo + carry * p == was * m + a
    ensures var y := limb * m + carry;
            lo + y % BASE * p + y / BASE * (BASE * p) == (was + limb * p) * m + a
  {
    var y := limb * m + carry;
    assert y == y / BASE * BASE + y % BASE;
    assert y % BASE * p + y / BASE * (BASE * p) == y * p by {
      assert y / BASE * (BASE * p) == y / BASE * BASE * p;
      assert (y / BASE * BASE + y % BASE) * p == y / BASE * BASE * p + y % BASE * p;
    }
    assert y * p == limb * m * p + carry * p;
    assert limb * p * m == limb * m * p;
    assert (was + limb * p) * m == was * m + limb * p * m;
  }

  lemma TopNonZero(s: seq<Limb>)
    requires s != [] && Val(s) >= P(|s| - 1)
    ensures s[|s| - 1] != 0
  {
    ValBound(s[..|s| - 1]);
  }

  /** What the limbs of a number without leading zeros say about a multiple of it */
  lemma NormalStays(was: seq<Limb>, s: seq<Limb>, m: int, a: int)
    requires was != [] && |s| == |was| && (|was| > 1 ==> was[|was| - 1] != 0)
    requires m > 0 && a >= 0 && Val(s) == Val(was) * m + a
    ensures |s| > 1 ==> s[|s| - 1] != 0
  {
    if |s| > 1 {
      ValTop(was);
      MulMono(1, m, Val(was));
      TopNonZero(s);
    }
  }

  /** Multiply in place by `m` and add `a`; a number that no longer fits moves to one of twice the capacity. */
  method MultAdd(b: Big, m: int, a: int) returns (r: Big)
    requires b.Valid() && b.wds >= 1 && 0 <= m < 0x8000_0000 && 0 <= a < 0x8000_0000
    modifies b, b.x
    ensures r.Valid() && r.wds >= 1 && r.Value() == old(b.Value()) * m + a
    ensures r == b || (fresh(r) && fresh(r.x))
    ensures old(b.Normal()) && m > 0 ==> r.Normal()
  {
    hide Val, P;
    r := b;
    var wds := b.wds;
    var carry: int := a;
    ghost var was := b.x[..wds];
    ValNone(was);
    for i := 0 to wds
      modifies b.x
      invariant 0 <= carry <= (if i == 0 then a else m)
      invariant Val(b.x[..i]) + carry * P(i) == Val(was[..i]) * m + a
      invariant b.x[i..wds] == was[i..]
    {
      var y := b.x[i] * m + carry;
      ghost var lo := b.x[..i];
      assert b.x[i] == was[i];
      CarryStep(Val(lo), Val(was[..i]), P(i), m, carry, was[i], a);
      CarryBound(was[i], m, carry);
      carry := y / 0x1_0000_0000;
      b.x[i] := y % 0x1_0000_0000;
      assert b.x[..i + 1] == lo + [b.x[i]];
      ValSnoc(lo, b.x[i]);
      ValExtend(was, i);
      PStep(i);
    }
    assert was[..wds] == was;
    ghost var low := b.x[..wds];
    if carry != 0 {
      if wds >= b.x.Length {
        r := Grown(b);
      }
      r.x[wds] := carry;
      r.wds := wds + 1;
      assert r.x[..wds + 1] == low + [carry];
      ValSnoc(low, carry);
    } else if old(b.Normal()) && m > 0 {
      NormalStays(was, low, m, a);
    }
  }

  lemma CarryBound(limb: Limb, m: int, carry: int)
    requires 0 <= m < 0x8000_0000 && 0 <= carry < 0x8000_0000
    ensures 0 <= limb * m + carry < WIDE
    ensures (limb * m + carry) / BASE <= m
  {
    MulMono(limb, BASE - 1, m);
    MulMono(0, limb, m);
  }

  /** A copy with twice the room (`Balloc` and `Bcopy`) */
  method Grown(b: Big) returns (r: Big)
    requires b.Valid()
    ensures fresh(r) && fresh(r.x) && r.Valid() && r.x.Length == 2 * b.x.Length
    ensures r.wds == b.wds && r.x[..r.wds] == b.x[..b.wds]
  {
    r := new Big(b.k + 1);
    for i := 0 to b.wds
      modifies r.x
      invariant r.x[..i] == b.x[..i]
    {
      r.x[i] := b.x[i];
    }
    r.wds := b.wds;
  }

  // ---- Multiplication ---------------------------------------------------------------------------------------------

  /** What a row has added so far: the limbs below, and the carry at weight `p` */
  predicate RowSum(lo: int, carry: int, p: int, was: int, av: int, y: int, pj: int) {
    lo + carry * p == was + av * y * pj
  }

  function Wide(x: int, y: int, c: int, carry: int): int {
    x * y + c + carry
  }

  lemma RowStep(s: seq<Limb>, t: seq<Limb>, v: seq<Limb>, i: nat, j: nat, y: Limb, carry: Limb)
    requires j + i < |t| && i < |v| && |s| == j + i
    requires RowSum(Val(s), carry, P(j + i), Val(t[..j + i]), Val(v[..i]), y, P(j))
    ensures var z := Wide(v[i], y, t[j + i], carry);
            && 0 <= z < WIDE && z / BASE < BASE
            && RowSum(Val(s + [z % BASE]), z / BASE, P(j + i + 1), Val(t[..j + i + 1]), Val(v[..i + 1]), y, P(j))
  {
    hide Val, P, RowSum, Wide;
    var z := Wide(v[i], y, t[j + i], carry);
    RowBound(v[i], y, t[j + i], carry);
    PSum(i, j);
    RowArithmetic(Val(s), Val(t[..j + i]), Val(v[..i]), P(j + i), P(i), P(j), v[i], y, t[j + i], carry);
    ValSnoc(s, z % BASE);
    ValExtend(t, j + i);
    ValExtend(v, i);
    PStep(j + i);
  }

  lemma RowArithmetic(lo: int, was: int, av: int, p: int, pi: int, pj: int, x: int, y: int, c: int, carry: int)
    requires RowSum(lo, carry, p, was, av, y, pj) && pi * pj == p
    ensures var z := Wide(x, y, c, carry);
            RowSum(lo + z % BASE * p, z / BASE, BASE * p, was + c * p, av + x * pi, y, pj)
  {
    var z := x * y + c + carry;
    Recombine(z, p);
    assert z * p == x * y * p + c * p + carry * p;
    assert (av + x * pi) * y * pj == av * y * pj + x * y * (pi * pj) by {
      assert (av + x * pi) * y == av * y + x * pi * y;
      assert x * pi * y * pj == x * y * (pi * pj);
    }
  }

  lemma RowStart(t: seq<Limb>, v: seq<Limb>, j: nat, y: Limb)
    requires j <= |t|
    ensures RowSum(Val(t[..j + 0]), 0, P(j), Val(t[..j]), Val(v[..0]), y, P(j))
  {
    assert t[..j + 0] == t[..j];
  }

  lemma RowEnd(s: seq<Limb>, carry: Limb, was: int, av: int, y: int, pj: int)
    requires RowSum(Val(s), carry, P(|s|), was, av, y, pj)
    ensures Val(s + [carry]) == was + av * y * pj
  {
    ValSnoc(s, carry);
  }

  lemma Recombine(z: int, p: int)
    ensures z % BASE * p + z / BASE * (BASE * p) == z * p
  {
    assert z == z / BASE * BASE + z % BASE;
    assert z / BASE * (BASE * p) == z / BASE * BASE * p;
    assert (z / BASE * BASE + z % BASE) * p == z / BASE * BASE * p + z % BASE * p;
  }

  lemma RowBound(x: Limb, y: Limb, c: Limb, carry: Limb)
    ensures 0 <= Wide(x, y, c, carry) < WIDE && Wide(x, y, c, carry) / BASE < BASE
  {
    MulMono(x, BASE - 1, y);
    MulMono(0, x, y);
  }

  lemma PSum(i: nat, j: nat)
    ensures P(i + j) == P(i) * P(j)
  {
    PowerSum(BASE, i, j);
  }

  /** Add `y` times the number in `xa` to `c`, from limb `j` on. */
  method AddRow(c: array<Limb>, j: nat, xa: array<Limb>, wa: nat, y: Limb)
    requires c != xa && wa <= xa.Length && j + wa < c.Length
    modifies c
    ensures Val(c[..j + wa + 1]) == Val(old(c[..j + wa])) + Val(xa[..wa]) * y * P(j)
    ensures c[j + wa + 1..] == old(c[j + wa + 1..])
  {
    hide Val, P, RowSum, Wide;
    ghost var was, av := c[..], xa[..];
    var carry: Limb := 0;
    RowStart(was, av, j, y);
    for i := 0 to wa
      invariant RowSum(Val(c[..j + i]), carry, P(j + i), Val(was[..j + i]), Val(av[..i]), y, P(j))
      invariant c[j + i..] == was[j + i..] && xa[..] == av
    {
      assert c[j + i] == was[j + i];
      ghost var lo := c[..j + i];
      RowStep(lo, was, av, i, j, y, carry);
      var z := Wide(xa[i], y, c[j + i], carry);
      carry := z / 0x1_0000_0000;
      c[j + i] := z % 0x1_0000_0000;
      assert c[..j + i + 1] == lo + [c[j + i]];
    }
    ghost var lo := c[..j + wa];
    c[j + wa] := carry;
    assert c[..j + wa + 1] == lo + [carry];
    assert was[..j + wa] == old(c[..j + wa]) && av[..wa] == xa[..wa];
    RowEnd(lo, carry, Val(was[..j + wa]), Val(av[..wa]), y, P(j));
  }

  lemma ProductStep(av: int, bv: int, y: int, p: int)
    ensures av * bv + av * y * p == av * (bv + y * p)
  {
    assert av * y * p == av * (y * p);
  }

  /** Add the product of the numbers in `xa` and `xb` to `c`, which is zero. */
  method AddRows(c: array<Limb>, xa: array<Limb>, wa: nat, xb: array<Limb>, wb: nat)
    requires c != xa && c != xb && wa <= xa.Length && wb <= xb.Length && wa + wb <= c.Length
    requires forall l :: 0 <= l < wa + wb ==> c[l] == 0
    modifies c
    ensures Val(c[..wa + wb]) == Val(xa[..wa]) * Val(xb[..wb])
  {
    hide Val, P;
    ghost var bv := xb[..wb];
    ValNone(bv);
    AllZero(c[..wa]);
    for j := 0 to wb
      invariant Val(c[..j + wa]) == Val(xa[..wa]) * Val(bv[..j])
      invariant forall l :: j + wa <= l < wa + wb ==> c[l] == 0
    {
      var y := xb[j];
      if y != 0 {
        ghost var rest := c[j + wa + 1..];
        AddRow(c, j, xa, wa, y);
        assert forall l :: j + wa + 1 <= l < wa + wb ==> c[l] == rest[l - (j + wa + 1)];
      } else {
        ghost var now := c[..];
        ValExtend(now, j + wa);
        assert now[..j + wa] == c[..j + wa] && now[..j + wa + 1] == c[..j + wa + 1];
      }
      ProductStep(Val(xa[..wa]), Val(bv[..j]), y, P(j));
      ValExtend(bv, j);
    }
    assert bv[..wb] == bv;
    assert c[..wb + wa] == c[..wa + wb];
  }

  /** `mult` */
  method Mult(a: Big, b: Big) returns (c: Big)
    requires a.Valid() && b.Valid()
    ensures fresh(c) && fresh(c.x) && c.Valid() && c.Value() == a.Value() * b.Value()
    ensures c.Value() > 0 ==> c.Normal()
  {
    hide Val, P;
    var a, b := a, b;
    if a.wds < b.wds {
      a, b := b, a;
    }
    var k, wa, wb := a.k, a.wds, b.wds;
    var wc := wa + wb;
    if wc > a.x.Length {
      k := k + 1;
    }
    c := new Big(k);
    assert wc <= c.x.Length;
    for i := 0 to wc
      modifies c.x
      invariant forall l :: 0 <= l < i ==> c.x[l] == 0
    {
      c.x[i] := 0;
    }
    AddRows(c.x, a.x, wa, b.x, wb);
    Trim(c, wc);
  }

  /** Leave out the leading zero limbs of the first `n`. */
  method Trim(c: Big, n: nat)
    requires c.Valid() && n <= c.x.Length
    modifies c`wds
    ensures c.Valid() && c.Value() == Val(c.x[..n]) && (c.Value() > 0 ==> c.Normal())
  {
    hide Val, P;
    var wc: nat := n;
    while wc > 0 && c.x[wc - 1] == 0
      invariant wc <= n && Val(c.x[..wc]) == Val(c.x[..n])
    {
      wc := wc - 1;
      ValExtend(c.x[..], wc);
      assert c.x[..][..wc] == c.x[..wc] && c.x[..][..wc + 1] == c.x[..wc + 1];
    }
    c.wds := wc;
    ValNone(c.x[..]);
  }

  lemma AllZero(s: seq<Limb>)
    requires forall k :: 0 <= k < |s| ==> s[k] == 0
    ensures Val(s) == 0
  {
    ValZeros(s, 0);
  }

  // ---- Comparison -------------------------------------------------------------------------------------------------

  /** A trimmed number with fewer limbs is smaller. */
  lemma ShorterSmaller(s: seq<Limb>, t: seq<Limb>)
    requires |s| < |t| && t[|t| - 1] != 0
    ensures Val(s) < Val(t)
  {
    ValBound(s);
    ValTop(t);
    PMono(|s|, |t| - 1);
  }

  lemma {:induction false} PMono(m: nat, n: nat)
    requires m <= n
    ensures P(m) <= P(n)
  {
    if m < n {
      PMono(m, n - 1);
      PStep(n - 1);
    }
  }

  /** `cmp`: negative, zero or positive as `a` is less than, equal to or greater than `b` */
  method Cmp(a: Big, b: Big) returns (r: int)
    requires a.Trimmed() && b.Trimmed()
    requires (a.wds == 0 ==> b.Value() > 0) && (b.wds == 0 ==> a.Value() > 0)
    ensures r < 0 <==> a.Value() < b.Value()
    ensures r == 0 <==> a.Value() == b.Value()
  {
    ghost var av, bv := a.x[..a.wds], b.x[..b.wds];
    r := a.wds - b.wds;
    if r != 0 {
      if r < 0 {
        TopLimb(b);
        ShorterSmaller(av, bv);
      } else {
        TopLimb(a);
        ShorterSmaller(bv, av);
      }
      return;
    }
    hide Val, P;
    var i := b.wds;
    assert av[..i] == av && bv[..i] == bv;
    while i > 0
      invariant i <= a.wds == b.wds
      invariant Val(av) - Val(av[..i]) == Val(bv) - Val(bv[..i])
    {
      i := i - 1;
      ValExtend(av, i);
      ValExtend(bv, i);
      if a.x[i] != b.x[i] {
        if a.x[i] < b.x[i] {
          TopDecides(av, bv, i);
          return -1;
        }
        TopDecides(bv, av, i);
        return 1;
      }
    }
    ValNone(av);
    ValNone(bv);
    return 0;
  }

  lemma TopLimb(b: Big)
    requires b.Trimmed() && b.wds >= 1 && (b.wds == 1 ==> b.Value() > 0)
    ensures b.x[b.wds - 1] != 0
  {
    ValExtend(b.x[..b.wds], b.wds - 1);
    ValNone(b.x[..b.wds]);
    assert b.x[..b.wds][..b.wds] == b.x[..b.wds];
  }

  lemma TopDecides(s: seq<Limb>, t: seq<Limb>, i: nat)
    requires i < |s| && i < |t| && s[i] < t[i]
    ensures Val(s[..i + 1]) < Val(t[..i + 1])
  {
    ValExtend(s, i);
    ValExtend(t, i);
    ValBound(s[..i]);
    MulMono(s[i] + 1, t[i], P(i));
    assert (s[i] + 1) * P(i) == s[i] * P(i) + P(i);
  }

  // ---- Shifts -----------------------------------------------------------------------------------------------------

  lemma {:induction false} BasePower()
    ensures Power(2, 32) == BASE
  {
    PowerSum(2, 16, 16);
    PowerSum(2, 8, 8);
    PowerSum(2, 4, 4);
  }

  lemma {:induction false} PIsPower(n: nat)
    ensures P(n) == Power(2, 32 * n)
  {
    BasePower();
    if n > 0 {
      PIsPower(n - 1);
      PowerSum(2, 32, 32 * (n - 1));
    }
  }

  /** Shifting left by `e` and filling in `z`, which has no more than `e` bits: the limb, and what goes to the next one */
  lemma ShiftLimb(x: Limb, e: nat, z: int)
    requires 0 < e < 32 && 0 <= z < Power(2, e)
    ensures Power(2, e) > 0 && Power(2, 32 - e) > 0
    ensures 0 <= x * Power(2, e) % BASE + z < BASE
    ensures x * Power(2, e) == x * Power(2, e) % BASE + x / Power(2, 32 - e) * BASE
    ensures 0 <= x / Power(2, 32 - e) < Power(2, e)
  {
    BasePower();
    PowerSum(2, e, 32 - e);
    ShiftSplit(x, Power(2, e), Power(2, 32 - e), z);
  }

  lemma ShiftSplit(x: Limb, m: int, h: int, z: int)
    requires m > 0 && h > 0 && m * h == BASE && 0 <= z < m
    ensures 0 <= x * m % BASE + z < BASE
    ensures x * m == x * m % BASE + x / h * BASE
    ensures 0 <= x / h < m
  {
    var q, r := x / h, x % h;
    assert x == q * h + r;
    assert (q * h + r) * m == q * (m * h) + r * m;
    MulMono(r, h - 1, m);
    MulMono(0, r, m);
    assert (h - 1) * m == m * h - m;
    DivModUnique(x * m, q, r * m);
    MulGap(q, m, h);
  }

  lemma MulGap(q: int, m: int, h: int)
    requires h > 0 && 0 <= q * h < m * h
    ensures 0 <= q < m
  {
    if q >= m {
      MulMono(m, q, h);
    } else if q < 0 {
      MulMono(q, -1, h);
    }
  }

  lemma DivModUnique(x: int, q: int, r: int)
    requires x == q * BASE + r && 0 <= r < BASE
    ensures x / BASE == q && x % BASE == r
  {
  }

  lemma ShiftStep(lo: int, was: int, p: int, pi: int, pn: int, m: int, x: int, z: int, limb: int, next: int)
    requires lo + z * p == was * m * pn && pi * pn == p && limb + next * BASE == x * m + z
    ensures lo + limb * p + next * (BASE * p) == (was + x * pi) * m * pn
  {
    assert next * (BASE * p) == next * BASE * p;
    assert (limb + next * BASE) * p == limb * p + next * BASE * p;
    assert (x * m + z) * p == x * m * p + z * p;
    assert (was + x * pi) * m * pn == was * m * pn + x * m * (pi * pn) by {
      assert (was + x * pi) * m == was * m + x * pi * m;
      assert x * pi * m * pn == x * m * (pi * pn);
    }
  }

  /** The limbs of `xa`, shifted by `e` bits, go to `c` from limb `n` on; what is left for the next limb is returned. */
  method ShiftInto(c: array<Limb>, n: nat, xa: array<Limb>, wa: nat, e: nat) returns (z: Limb)
    requires c != xa && 0 < e < 32 && wa <= xa.Length && n + wa <= c.Length && Val(c[..n]) == 0
    modifies c
    ensures Val(c[..n + wa]) + z * P(n + wa) == Val(xa[..wa]) * Power(2, e) * P(n)
  {
    hide Val, P, Power;
    z := 0;
    ghost var m: int := Power(2, e);
    assert z < m by {
      PowerPositive(e);
    }
    ghost var av := xa[..];
    ValNone(av);
    assert c[..n + 0] == c[..n];
    for i := 0 to wa
      invariant Val(c[..n + i]) + z * P(n + i) == Val(av[..i]) * m * P(n) && z < m && xa[..] == av
    {
      var x := xa[i];
      ShiftLimb(x, e, z);
      PSum(i, n);
      ghost var lo, next := c[..n + i], x / Power(2, 32 - e);
      var limb := x * Power(2, e) % 0x1_0000_0000 + z;
      ShiftStep(Val(lo), Val(av[..i]), P(n + i), P(i), P(n), m, x, z, limb, next);
      c[n + i] := limb;
      z := x / Power(2, 32 - e);
      assert c[..n + i + 1] == lo + [limb];
      ValSnoc(lo, limb);
      ValExtend(av, i);
      PStep(n + i);
    }
    assert av[..wa] == xa[..wa];
  }

  lemma PowerPositive(e: nat)
    ensures 0 < Power(2, e)
  {
  }

  /** A number with the capacity of `b`, doubled until it is at least `n` */
  method Room(b: Big, n: nat) returns (r: Big)
    requires b.Valid()
    ensures fresh(r) && fresh(r.x) && r.Valid() && n <= r.x.Length
  {
    var k: nat, i: int := b.k, b.x.Length;
    while n > i
      invariant i == Power(2, k) && i > 0
      decreases n - i
    {
      k, i := k + 1, i * 2;
    }
    r := new Big(k);
  }

  /** `lshift` */
  method LShift(b: Big, k: nat) returns (r: Big)
    requires b.Normal()
    ensures fresh(r) && fresh(r.x) && r.Valid() && r.wds >= 1 && r.Value() == b.Value() * Power(2, k)
    ensures b.Value() > 0 ==> r.Normal()
  {
    hide Val, P;
    var n, e, wa := k / 32, k % 32, b.wds;
    var n1 := n + wa + 1;
    r := Room(b, n1);
    for l := 0 to n
      modifies r.x
      invariant forall j :: 0 <= j < l ==> r.x[j] == 0
    {
      r.x[l] := 0;
    }
    AllZero(r.x[..n]);
    ghost var lo;
    if e > 0 {
      var z := ShiftInto(r.x, n, b.x, wa, e);
      lo := r.x[..n + wa];
      r.x[n + wa] := z;
      assert r.x[..n + wa] == lo && r.x[..n + wa + 1] == lo + [z];
      ValSnoc(lo, z);
      r.wds := if z != 0 then n + wa + 1 else n + wa;
    } else {
      CopyInto(r.x, n, b.x, wa);
      r.wds := n + wa;
      assert Power(2, 0) == 1;
    }
    ShiftedValue(b.Value(), k);
    assert r.Value() == b.Value() * Power(2, k);
    if r.wds == n + wa && b.Value() > 0 {
      ShiftedNormal(b.x[..wa], r.x[..n + wa], n, k);
    }
  }

  method CopyInto(c: array<Limb>, n: nat, xa: array<Limb>, wa: nat)
    requires c != xa && wa <= xa.Length && n + wa <= c.Length && Val(c[..n]) == 0
    modifies c
    ensures Val(c[..n + wa]) == Val(xa[..wa]) * P(n)
  {
    hide Val, P;
    ghost var av := xa[..];
    ValNone(av);
    assert c[..n + 0] == c[..n];
    for i := 0 to wa
      invariant Val(c[..n + i]) == Val(av[..i]) * P(n) && xa[..] == av
    {
      ghost var lo := c[..n + i];
      c[n + i] := xa[i];
      assert c[..n + i + 1] == lo + [xa[i]];
      ValSnoc(lo, xa[i]);
      ValExtend(av, i);
      PSum(i, n);
      Distribute(Val(av[..i]), av[i], P(i), P(n));
    }
    assert av[..wa] == xa[..wa];
  }

  lemma Distribute(a: int, x: int, p: int, q: int)
    ensures (a + x * p) * q == a * q + x * (p * q)
  {
    assert x * p * q == x * (p * q);
  }

  lemma ShiftedValue(v: int, k: nat)
    ensures v * Power(2, k % 32) * P(k / 32) == v * Power(2, k)
  {
    hide Power, P;
    PIsPower(k / 32);
    PowerSum(2, k % 32, 32 * (k / 32));
    assert v * Power(2, k % 32) * P(k / 32) == v * (Power(2, k % 32) * P(k / 32));
  }

  lemma ShiftedNormal(s: seq<Limb>, t: seq<Limb>, n: nat, k: nat)
    requires s != [] && (|s| > 1 ==> s[|s| - 1] != 0) && |t| == n + |s| && n == k / 32
    requires Val(s) > 0 && Val(t) == Val(s) * Power(2, k)
    ensures t[|t| - 1] != 0
  {
    if |s| > 1 {
      ValTop(s);
    }
    var p := P(|s| - 1);
    assert Val(s) >= p;
    ShiftedValue(Val(s), k);
    PSum(|s| - 1, n);
    PowerPositive(k % 32);
    MulMono(1, Power(2, k % 32), Val(s));
    MulMono(p, Val(s) * Power(2, k % 32), P(n));
    TopNonZero(t);
  }

  // ---- Subtraction and division -----------------------------------------------------------------------------------

  /** What subtracting `q` times a number has left so far: the limbs below, and what is owed at weight `p` */
  predicate Owed(lo: int, owed: int, p: int, was: int, sv: int, q: int) {
    lo == was - sv * q + owed * p
  }

  /** The 64-bit difference of the original, with its wrap-around */
  function Lower(b: Limb, ys: int, borrow: int): int {
    (b - ys % BASE - borrow) % WIDE
  }

  lemma LowerLimb(b: Limb, ys: int, borrow: int)
    requires ys >= 0 && 0 <= borrow <= 1
    ensures var y := Lower(b, ys, borrow);
            && y >= 0 && 0 <= y / BASE % 2 <= 1
            && y % BASE == b - ys % BASE - borrow + y / BASE % 2 * BASE
  {
    var t := b - ys % BASE - borrow;
    if t < 0 {
      assert Lower(b, ys, borrow) == t + WIDE;
    }
  }

  lemma OwedStep(lo: int, owed: int, p: int, was: int, sv: int, q: int, s: int, b: int, carry: int, borrow: int)
    requires Owed(lo, owed, p, was, sv, q) && owed == carry + borrow
    requires 0 <= b < BASE && 0 <= borrow <= 1 && s * q + carry >= 0
    ensures var ys := s * q + carry;
            var y := Lower(b, ys, borrow);
            Owed(lo + y % BASE * p, ys / BASE + y / BASE % 2, BASE * p, was + b * p, sv + s * p, q)
  {
    var ys := s * q + carry;
    var y := Lower(b, ys, borrow);
    LowerLimb(b, ys, borrow);
    Recombine(ys, p);
    var bb := y / BASE % 2;
    assert y % BASE * p == b * p - ys % BASE * p - borrow * p + bb * BASE * p by {
      assert (b - ys % BASE - borrow + bb * BASE) * p == b * p - ys % BASE * p - borrow * p + bb * BASE * p;
    }
    assert (ys / BASE + bb) * (BASE * p) == ys / BASE * (BASE * p) + bb * BASE * p;
    assert ys * p == s * q * p + carry * p;
    assert (sv + s * p) * q == sv * q + s * q * p;
    assert (carry + borrow) * p == carry * p + borrow * p;
  }

  lemma OwedLimbs(lo: seq<Limb>, t: seq<Limb>, v: seq<Limb>, i: nat, q: Limb, carry: Limb, borrow: int)
    requires i < |t| && i < |v| && |lo| == i && 0 <= borrow <= 1
    requires Owed(Val(lo), carry + borrow, P(i), Val(t[..i]), Val(v[..i]), q)
    ensures var ys := Wide(v[i], q, 0, carry);
            var y := Lower(t[i], ys, borrow);
            && 0 <= ys < WIDE && 0 <= ys / BASE < BASE && y >= 0
            && Owed(Val(lo + [y % BASE]), ys / BASE + y / BASE % 2, P(i + 1), Val(t[..i + 1]), Val(v[..i + 1]), q)
  {
    hide Val, P, Owed, Lower;
    RowBound(v[i], q, 0, carry);
    var ys := Wide(v[i], q, 0, carry);
    var y := Lower(t[i], ys, borrow);
    LowerLimb(t[i], ys, borrow);
    OwedStep(Val(lo), carry + borrow, P(i), Val(t[..i]), Val(v[..i]), q, v[i], t[i], carry, borrow);
    ValSnoc(lo, y % BASE);
    ValExtend(t, i);
    ValExtend(v, i);
    PStep(i);
  }

  lemma OwedStart(t: seq<Limb>, v: seq<Limb>, q: Limb)
    ensures Owed(Val([]), 0, P(0), Val(t[..0]), Val(v[..0]), q)
  {
  }

  /** Nothing is owed in the end when the difference is not negative. */
  lemma OwedEnd(s: seq<Limb>, owed: int, was: int, sv: int, q: int)
    requires Owed(Val(s), owed, P(|s|), was, sv, q) && owed >= 0 && was >= sv * q
    ensures Val(s) == was - sv * q
  {
    ValBound(s);
    if owed >= 1 {
      MulMono(1, owed, P(|s|));
    }
  }

  /** Subtract `q` times the first `n` limbs of `sx` from `bx` in place: the loops of `quorem`. */
  method SubtractMultiple(bx: array<Limb>, sx: array<Limb>, n: nat, q: Limb)
    requires bx != sx && n <= bx.Length && n <= sx.Length && Val(bx[..n]) >= Val(sx[..n]) * q
    modifies bx
    ensures Val(bx[..n]) == old(Val(bx[..n])) - Val(sx[..n]) * q
  {
    hide Val, P, Owed, Wide, Lower;
    ghost var was, sv := bx[..], sx[..];
    var borrow: int, carry: Limb := 0, 0;
    OwedStart(was, sv, q);
    for i := 0 to n
      invariant 0 <= borrow <= 1 && bx[i..] == was[i..] && sx[..] == sv
      invariant Owed(Val(bx[..i]), carry + borrow, P(i), Val(was[..i]), Val(sv[..i]), q)
    {
      ghost var lo := bx[..i];
      assert bx[i] == was[i];
      OwedLimbs(lo, was, sv, i, q, carry, borrow);
      var ys := Wide(sx[i], q, 0, carry);
      var y := Lower(bx[i], ys, borrow);
      carry := ys / 0x1_0000_0000;
      borrow := y / 0x1_0000_0000 % 2;
      bx[i] := y % 0x1_0000_0000;
      assert bx[..i + 1] == lo + [bx[i]];
    }
    assert was[..n] == old(bx[..n]) && sv[..n] == sx[..n];
    OwedEnd(bx[..n], carry + borrow, Val(was[..n]), Val(sv[..n]), q);
  }

  /** The quotient of the top limbs is not too large. */
  lemma EstimateBelow(b: int, s: int, top: int, stop: int, p: int, q: int)
    requires p > 0 && stop >= 0 && top >= 0 && q == top / (stop + 1)
    requires top * p <= b && s < stop * p + p
    ensures 0 <= q && s * q <= b
  {
    assert q * (stop + 1) <= top;
    MulMono(q * (stop + 1), top, p);
    MulMono(s, stop * p + p, q);
    assert (stop * p + p) * q == q * (stop + 1) * p;
  }

  /** Nor is it more than one too small. */
  lemma EstimateAbove(b: int, s: int, top: int, stop: int, p: int, q: int)
    requires p > 0 && q >= 0 && stop >= q + 1 && q == top / (stop + 1)
    requires b < top * p + p && stop * p <= s
    ensures b < s * q + 2 * s
  {
    var u, w := (q + 1) * (stop + 1), (q + 2) * stop;
    assert u - w == q + 1 - stop;
    assert top + 1 <= u by {
      assert u == q * (stop + 1) + (stop + 1);
    }
    MulMono(top + 1, u, p);
    MulMono(u, w, p);
    MulMono(stop * p, s, q + 2);
    assert w * p == stop * p * (q + 2);
    assert s * (q + 2) == s * q + 2 * s;
    assert (top + 1) * p == top * p + p;
  }

  /** After a subtraction: when limb `n` has become zero, leave it and further zeros out. */
  method DropZeros(b: Big, top: nat)
    requires b.Valid() && top < b.x.Length && b.wds == top + 1
    modifies b`wds
    ensures b.Trimmed() && b.wds <= top + 1 && b.Value() == old(b.Value()) && b.Value() == Val(b.x[..top + 1])
    ensures b.x[top] != 0 ==> b.wds == top + 1
    ensures b.x[top] == 0 ==> b.wds <= top
  {
    hide Val, P;
    ghost var all := b.x[..top + 1];
    if b.x[top] == 0 {
      var n: nat := top;
      ValExtend(all, top);
      assert all[..top + 1] == all;
      while n - 1 > 0 && b.x[n - 1] == 0
        invariant n <= top && (n == 0 ==> top == 0) && Val(all[..n]) == Val(all) && b.x[..top + 1] == all
        decreases n
      {
        n := n - 1;
        ValExtend(all, n);
      }
      b.wds := n;
      assert all[..n] == b.x[..n];
    }
  }

  /** The divisor is arranged so that its top limb has exactly four leading zero bits. */
  ghost predicate Arranged(s: Big)
    reads s, s.x
  {
    s.Valid() && s.wds >= 1 && 0x800_0000 <= s.x[s.wds - 1] < 0x1000_0000
  }

  /** The top limb of a number, and that the rest is less than its weight */
  predicate Tops(v: int, top: int, p: int) {
    top * p <= v < top * p + p
  }

  lemma TopPart(s: seq<Limb>)
    requires s != []
    ensures Tops(Val(s), s[|s| - 1], P(|s| - 1))
  {
    ValBound(s[..|s| - 1]);
  }

  lemma TenTimes(s: seq<Limb>)
    requires s != [] && 0x800_0000 <= s[|s| - 1] < 0x1000_0000
    ensures 10 * Val(s) <= P(|s|) && Val(s) > 0
  {
    var n := |s| - 1;
    TopPart(s);
    PStep(n);
    MulMono(s[n] + 1, 0x1000_0000, P(n));
    MulMono(1, s[n], P(n));
    assert (s[n] + 1) * P(n) == s[n] * P(n) + P(n);
  }

  lemma QuoremLength(b: Big, s: Big)
    requires b.Trimmed() && Arranged(s) && b.Value() < 10 * s.Value()
    ensures b.wds <= s.wds
    ensures b.wds < s.wds ==> b.Value() < s.Value()
  {
    var n := s.wds;
    TenTimes(s.x[..n]);
    if b.wds > n {
      PMono(n, b.wds - 1);
      ValTop(b.x[..b.wds]);
    } else if b.wds < n {
      ShorterSmaller(b.x[..b.wds], s.x[..n]);
    }
  }

  /** `x` is `q` times `m`, and `rest`. */
  predicate Split(x: int, m: int, q: int, rest: int) {
    x == m * q + rest
  }

  predicate Fits(x: int, m: int, q: int) {
    m * q <= x
  }

  /** Subtract `q` times `s`, and leave out the limbs that have become zero. */
  method TakeAway(b: Big, s: Big, q: Limb)
    requires b.Trimmed() && s.Valid() && s.wds >= 1 && b.wds == s.wds && b.x != s.x && b != s
    requires Fits(b.Value(), s.Value(), q)
    modifies b, b.x
    ensures b.Trimmed() && b.wds <= s.wds && Split(old(b.Value()), s.Value(), q, b.Value())
  {
    hide Val, P;
    SubtractMultiple(b.x, s.x, s.wds, q);
    DropZeros(b, s.wds - 1);
  }

  /** The estimate of the quotient, from the top limbs */
  function Guess(top: int, stop: int): int
    requires stop >= 0
  {
    top / (stop + 1)
  }

  /** It is at most one too small. */
  lemma Estimate(b: int, s: int, top: int, stop: int, p: int, q: int)
    requires p > 0 && 0x800_0000 <= stop < 0x1000_0000 && 0 <= top
    requires Tops(b, top, p) && Tops(s, stop, p)
    requires s > 0 && b < 10 * s && q == Guess(top, stop)
    ensures 0 <= q <= 9 && Fits(b, s, q)
    ensures forall rest :: Split(b, s, q, rest) ==> rest < 2 * s
  {
    EstimateBelow(b, s, top, stop, p, q);
    QuotientSmall(b, s, q);
    EstimateAbove(b, s, top, stop, p, q);
  }

  lemma EstimateLimbs(b: seq<Limb>, s: seq<Limb>)
    requires s != [] && |b| == |s| && 0x800_0000 <= s[|s| - 1] < 0x1000_0000 && Val(b) < 10 * Val(s)
    ensures var q := Guess(b[|s| - 1], s[|s| - 1]);
            && 0 <= q <= 9 && Fits(Val(b), Val(s), q)
            && forall rest :: Split(Val(b), Val(s), q, rest) ==> rest < 2 * Val(s)
  {
    hide Val, P, Fits, Split, Tops, Guess;
    var n := |s| - 1;
    TenTimes(s);
    TopPart(b);
    TopPart(s);
    Estimate(Val(b), Val(s), b[n], s[n], P(n), Guess(b[n], s[n]));
  }

  /** The first half of `quorem`: take away as often as the top limbs allow for certain. */
  method TakeEstimate(b: Big, s: Big) returns (q: nat)
    requires b.Trimmed() && Arranged(s) && b.x != s.x && b != s && b.Value() < 10 * s.Value() && b.wds == s.wds
    modifies b, b.x
    ensures b.Trimmed() && b.wds <= s.wds && Split(old(b.Value()), s.Value(), q, b.Value())
    ensures b.Value() < 2 * s.Value()
  {
    hide Val, P, Split, Fits, Guess;
    EstimateLimbs(b.x[..b.wds], s.x[..s.wds]);
    q := Guess(b.x[s.wds - 1], s.x[s.wds - 1]);
    if q != 0 {
      TakeAway(b, s, q);
    } else {
      NoSplit(b.Value(), s.Value());
    }
  }

  lemma SplitMore(x: int, m: int, q: int, rest: int, less: int)
    requires Split(x, m, q, rest) && Split(rest, m, 1, less)
    ensures Split(x, m, q + 1, less) && less == rest - m
  {
    assert m * (q + 1) == m * q + m;
  }

  lemma FitsOnce(x: int, m: int)
    requires m <= x
    ensures Fits(x, m, 1)
  {
  }

  lemma SplitDone(x: int, m: int, q: int, rest: int)
    requires Split(x, m, q, rest) && 0 <= rest < m && x < 10 * m
    ensures x / m == q && x % m == rest && q <= 9
  {
    DivUnique(x, m, q, rest);
    QuotientSmall(x, m, q);
  }

  /** `quorem`: the quotient, with the remainder left in `b`. One correction is enough. */
  method Quorem(b: Big, s: Big) returns (q: nat)
    requires b.Trimmed() && Arranged(s) && b.x != s.x && b != s && b.Value() < 10 * s.Value()
    modifies b, b.x
    ensures b.Trimmed() && q == old(b.Value()) / s.Value() && b.Value() == old(b.Value()) % s.Value()
    ensures q <= 9
  {
    hide Val, P, Split;
    QuoremLength(b, s);
    TenTimes(s.x[..s.wds]);
    if b.wds < s.wds {
      assert Split(b.Value(), s.Value(), 0, b.Value()) by {
        NoSplit(b.Value(), s.Value());
      }
      SplitDone(b.Value(), s.Value(), 0, b.Value());
      return 0;
    }
    ghost var start := b.Value();
    q := TakeEstimate(b, s);
    var c := Cmp(b, s);
    if c >= 0 {
      SameLength(b, s);
      FitsOnce(b.Value(), s.Value());
      ghost var rest := b.Value();
      TakeAway(b, s, 1);
      SplitMore(start, s.Value(), q, rest, b.Value());
      q := q + 1;
    }
    SplitDone(start, s.Value(), q, b.Value());
  }

  lemma NoSplit(x: int, m: int)
    ensures Split(x, m, 0, x)
  {
  }

  lemma SameLength(b: Big, s: Big)
    requires b.Trimmed() && Arranged(s) && b.wds <= s.wds && b.Value() >= s.Value()
    ensures b.wds == s.wds
  {
    if b.wds < s.wds {
      ShorterSmaller(b.x[..b.wds], s.x[..s.wds]);
    }
  }

  lemma DivUnique(x: int, m: int, q: int, r: int)
    requires m > 0 && x == m * q + r && 0 <= r < m
    ensures x / m == q && x % m == r
  {
    assert x == x / m * m + x % m;
    if x / m > q {
      MulMono(q + 1, x / m, m);
    } else if x / m < q {
      MulMono(x / m + 1, q, m);
    }
  }

  lemma QuotientSmall(x: int, m: int, q: int)
    requires m > 0 && m * q <= x < 10 * m
    ensures q <= 9
  {
    if q >= 10 {
      MulMono(10, q, m);
    }
  }

  /** `diff`: the absolute difference, and whether `a` is the smaller number */
  method Diff(a: Big, b: Big) returns (c: Big, sign: bool)
    requires a.Normal() && b.Normal() && a.Value() > 0 && b.Value() > 0
    ensures fresh(c) && fresh(c.x) && c.Normal() && sign == (a.Value() < b.Value())
    ensures c.Value() == if sign then b.Value() - a.Value() else a.Value() - b.Value()
  {
    hide Val, P;
    var i := Cmp(a, b);
    if i == 0 {
      c := FromInt(0);
      return c, false;
    }
    sign := i < 0;
    var a, b := a, b;
    if sign {
      a, b := b, a;
    }
    LongerLarger(a, b);
    c := new Big(a.k);
    assert a.x.Length == c.x.Length;
    SubtractInto(c.x, a.x, a.wds, b.x, b.wds);
    Trim(c, a.wds);
  }

  lemma LongerLarger(a: Big, b: Big)
    requires a.Normal() && b.Normal() && a.Value() > b.Value()
    ensures b.wds <= a.wds
  {
    if a.wds < b.wds {
      ShorterSmaller(a.x[..a.wds], b.x[..b.wds]);
    }
  }

  /** A number with leading zero limbs up to `n` */
  ghost function Padded(v: seq<Limb>, n: nat): (r: seq<Limb>)
    requires |v| <= n
    ensures |r| == n && Val(r) == Val(v)
  {
    var r := v + seq(n - |v|, _ => 0);
    ValZeros(r, |v|);
    assert r[..|v|] == v;
    r
  }

  lemma DiffLimb(lo: seq<Limb>, t: seq<Limb>, v: seq<Limb>, i: nat, borrow: int)
    requires i < |t| && i < |v| && |lo| == i && 0 <= borrow <= 1
    requires Owed(Val(lo), borrow, P(i), Val(t[..i]), Val(v[..i]), 1)
    ensures var y := Lower(t[i], v[i], borrow);
            y >= 0 && Owed(Val(lo + [y % BASE]), y / BASE % 2, P(i + 1), Val(t[..i + 1]), Val(v[..i + 1]), 1)
  {
    hide Val, P, Owed, Lower;
    OwedLimbs(lo, t, v, i, 1, 0, borrow);
    assert Wide(v[i], 1, 0, 0) == v[i] && v[i] / BASE == 0;
  }

  /** One round of the loops of `diff` */
  method DiffRound(c: array<Limb>, i: nat, x: Limb, z: Limb, borrow: int, ghost t: seq<Limb>, ghost v: seq<Limb>)
    returns (more: int)
    requires i < c.Length && i < |t| && i < |v| && t[i] == x && v[i] == z && 0 <= borrow <= 1
    requires Owed(Val(c[..i]), borrow, P(i), Val(t[..i]), Val(v[..i]), 1)
    modifies c
    ensures 0 <= more <= 1 && Owed(Val(c[..i + 1]), more, P(i + 1), Val(t[..i + 1]), Val(v[..i + 1]), 1)
  {
    hide Val, P, Owed, Lower;
    ghost var lo := c[..i];
    DiffLimb(lo, t, v, i, borrow);
    var y := Lower(x, z, borrow);
    more := y / 0x1_0000_0000 % 2;
    c[i] := y % 0x1_0000_0000;
    assert c[..i + 1] == lo + [c[i]];
  }

  /** The two loops of `diff` */
  method SubtractInto(c: array<Limb>, xa: array<Limb>, wa: nat, xb: array<Limb>, wb: nat)
    requires c != xa && c != xb && wb <= wa <= xa.Length && wb <= xb.Length && wa <= c.Length
    requires Val(xa[..wa]) >= Val(xb[..wb])
    modifies c
    ensures Val(c[..wa]) == Val(xa[..wa]) - Val(xb[..wb])
  {
    hide Val, P, Owed, Padded;
    ghost var av, bv := xa[..wa], Padded(xb[..wb], wa);
    PaddedAt(xb[..wb], wa);
    assert forall k :: 0 <= k < wb ==> bv[k] == xb[k] by {
      assert bv[..wb] == xb[..wb];
    }
    var borrow: int := 0;
    assert c[..0] == [];
    OwedStart(av, bv, 1);
    for i := 0 to wb
      invariant 0 <= borrow <= 1 && Owed(Val(c[..i]), borrow, P(i), Val(av[..i]), Val(bv[..i]), 1)
    {
      borrow := DiffRound(c, i, xa[i], xb[i], borrow, av, bv);
    }
    for i := wb to wa
      invariant 0 <= borrow <= 1 && Owed(Val(c[..i]), borrow, P(i), Val(av[..i]), Val(bv[..i]), 1)
    {
      borrow := DiffRound(c, i, xa[i], 0, borrow, av, bv);
    }
    assert av[..wa] == av && bv[..wa] == bv;
    OwedEnd(c[..wa], borrow, Val(av), Val(bv), 1);
  }

  lemma PaddedAt(v: seq<Limb>, n: nat)
    requires |v| <= n
    ensures Padded(v, n)[..|v|] == v
    ensures forall k :: |v| <= k < n ==> Padded(v, n)[k] == 0
  {
  }

  // ---- Arranging the divisor --------------------------------------------------------------------------------------

  /** `hi0bits`: the number of leading zero bits */
  method Hi0Bits(limb: Limb) returns (k: nat)
    ensures limb == 0 ==> k == 32
    ensures limb > 0 ==> k < 32 && Power(2, 31 - k) <= limb < Power(2, 32 - k)
  {
    hide Power;
    SmallPowers();
    var x: int := limb;
    k := 0;
    if x < 0x1_0000 {
      ShiftMore(limb, x, k, 16);
      k, x := 16, x * 0x1_0000;
    }
    if x < 0x100_0000 {
      ShiftMore(limb, x, k, 8);
      k, x := k + 8, x * 0x100;
    }
    if x < 0x1000_0000 {
      ShiftMore(limb, x, k, 4);
      k, x := k + 4, x * 0x10;
    }
    if x < 0x4000_0000 {
      ShiftMore(limb, x, k, 2);
      k, x := k + 2, x * 4;
    }
    if x < 0x8000_0000 {
      ShiftMore(limb, x, k, 1);
      k := k + 1;
      if x < 0x4000_0000 {
        return 32;
      }
      x := x * 2;
    }
    BitsFound(limb, k, x);
  }

  lemma {:induction false} SmallPowers()
    ensures Power(2, 0) == 1 && Power(2, 1) == 2 && Power(2, 2) == 4 && Power(2, 4) == 0x10 && Power(2, 8) == 0x100
    ensures Power(2, 16) == 0x1_0000 && Power(2, 27) == 0x800_0000 && Power(2, 28) == 0x1000_0000
    ensures Power(2, 31) == 0x8000_0000 && Power(2, 32) == BASE
  {
    PowerSum(2, 8, 8);
    PowerSum(2, 4, 4);
    PowerSum(2, 16, 8);
    PowerSum(2, 24, 4);
    PowerSum(2, 28, 4);
    assert Power(2, 28) == 2 * Power(2, 27) && Power(2, 32) == 2 * Power(2, 31);
  }

  lemma ShiftMore(limb: int, x: int, k: nat, d: nat)
    requires x == limb * Power(2, k)
    ensures x * Power(2, d) == limb * Power(2, k + d)
  {
    PowerSum(2, k, d);
    assert limb * Power(2, k) * Power(2, d) == limb * (Power(2, k) * Power(2, d));
  }

  lemma BitsFound(limb: int, k: nat, x: int)
    requires k < 32 && x == limb * Power(2, k) && 0x8000_0000 <= x < BASE
    ensures Power(2, 31 - k) <= limb < Power(2, 32 - k)
  {
    hide Power;
    SmallPowers();
    PowerSum(2, 31 - k, k);
    PowerSum(2, 32 - k, k);
    PowerPositive(k);
    Cancel(Power(2, 31 - k), limb, Power(2, k));
    Cancel(Power(2, 32 - k), limb, Power(2, k));
  }

  lemma Cancel(a: int, b: int, p: int)
    requires p > 0
    ensures a * p <= b * p <==> a <= b
  {
    if a <= b {
      MulMono(a, b, p);
    } else {
      MulMono(b + 1, a, p);
      assert (b + 1) * p == b * p + p;
    }
  }

  /** `dshift`: by how much more than `p2` to shift for the top limb to have four leading zero bits */
  method DShift(b: Big, p2: nat) returns (r: nat)
    requires b.Normal() && b.Value() > 0
    ensures r < 32
    ensures forall t: seq<Limb> :: t != [] && (|t| > 1 ==> t[|t| - 1] != 0) && Val(t) == b.Value() * Power(2, p2 + r) ==>
              0x800_0000 <= t[|t| - 1] < 0x1000_0000
  {
    TopLimb(b);
    var h := Hi0Bits(b.x[b.wds - 1]);
    r := (h - 4 - p2) % 32;
    forall t: seq<Limb> | t != [] && (|t| > 1 ==> t[|t| - 1] != 0) && Val(t) == b.Value() * Power(2, p2 + r)
      ensures 0x800_0000 <= t[|t| - 1] < 0x1000_0000
    {
      Shifted(b.x[..b.wds], t, h, p2 + r);
    }
  }

  /** A number of known size in bits, shifted by the right amount */
  lemma Shifted(s: seq<Limb>, t: seq<Limb>, h: nat, e: nat)
    requires s != [] && t != [] && h < 32 && (e - h + 4) % 32 == 0 && (|t| > 1 ==> t[|t| - 1] != 0)
    requires Power(2, 31 - h) <= s[|s| - 1] < Power(2, 32 - h) && Val(t) == Val(s) * Power(2, e)
    ensures 0x800_0000 <= t[|t| - 1] < 0x1000_0000
  {
    hide Val, P, Power;
    var w := |s| - 1;
    var n: nat := w + (e - h + 4) / 32;
    TopPart(s);
    PIsPower(w);
    PIsPower(n);
    SmallPowers();
    ShiftedBounds(Val(s), s[w], P(w), h, e, w);
    assert 31 - h + 32 * w + e == 27 + 32 * n && 32 - h + 32 * w + e == 28 + 32 * n;
    PowerSum(2, 27, 32 * n);
    PowerSum(2, 28, 32 * n);
    TopFromValue(t, n);
  }

  lemma ShiftedBounds(v: int, top: int, p: int, h: nat, e: nat, w: nat)
    requires h < 32 && p == Power(2, 32 * w) && Tops(v, top, p) && Power(2, 31 - h) <= top < Power(2, 32 - h)
    ensures Power(2, 31 - h + 32 * w + e) <= v * Power(2, e) < Power(2, 32 - h + 32 * w + e)
  {
    hide Power;
    PowerPositive(32 * w);
    PowerPositive(e);
    PowerSum(2, 31 - h, 32 * w);
    PowerSum(2, 32 - h, 32 * w);
    PowerSum(2, 31 - h + 32 * w, e);
    PowerSum(2, 32 - h + 32 * w, e);
    MulMono(Power(2, 31 - h), top, p);
    MulMono(top + 1, Power(2, 32 - h), p);
    assert (top + 1) * p == top * p + p;
    Cancel(Power(2, 31 - h + 32 * w), v, Power(2, e));
    Cancel(Power(2, 32 - h + 32 * w), v, Power(2, e));
  }

  lemma TopFromValue(t: seq<Limb>, n: nat)
    requires t != [] && (|t| > 1 ==> t[|t| - 1] != 0) && 0x800_0000 * P(n) <= Val(t) < 0x1000_0000 * P(n)
    ensures |t| == n + 1 && 0x800_0000 <= t[n] < 0x1000_0000
  {
    hide Val, P;
    var m := |t| - 1;
    ValBound(t);
    TopPart(t);
    PStep(n);
    PStep(m);
    if m < n {
      PMono(m + 1, n);
      MulMono(1, 0x800_0000, P(n));
    } else if m > n {
      ValTop(t);
      PMono(n + 1, m);
      MulMono(0x1000_0000, BASE, P(n));
    } else {
      TopExact(Val(t), t[n], P(n));
    }
  }

  lemma TopExact(v: int, top: int, p: int)
    requires p > 0 && Tops(v, top, p) && 0x800_0000 * p <= v < 0x1000_0000 * p
    ensures 0x800_0000 <= top < 0x1000_0000
  {
    assert (top + 1) * p == top * p + p;
    Cancel(0x800_0000, top, p);
    Cancel(0x1000_0000, top, p);
    Cancel(top + 1, 0x800_0000, p);
  }
}
