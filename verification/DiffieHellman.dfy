/** The key exchange of lua-crypt.c: powers modulo the largest prime of 64 bits, computed within 64 bits. */
module DiffieHellman {
  const P: nat := 0xFFFF_FFFF_FFFF_FFC5
  const TWO64: nat := 0x1_0000_0000_0000_0000
  const G: nat := 5

  type Word = w: int | 0 <= w < 0x1_0000_0000_0000_0000

  /** What a computed value becomes in a word */
  function Wrap(x: int): Word { x % TWO64 }

  function Mod(x: int): (r: nat)
    ensures r < P
  {
    x % P
  }

  // ---- Congruence -------------------------------------------------------------------------------------------------

  lemma DivMod(x: int) returns (q: int)
    ensures x == P * q + Mod(x)
  {
    q := x / P;
  }

  lemma {:induction false} Unique(q: int, r: int)
    requires 0 <= r < P
    ensures Mod(P * q + r) == r
  {
  }

  lemma ModShift(x: int, k: int)
    ensures Mod(x + P * k) == Mod(x)
  {
    hide Mod;
    var q := DivMod(x);
    assert x + P * k == P * (q + k) + Mod(x);
    Unique(q + k, Mod(x));
  }

  /** Equal sums and products of congruent numbers */
  lemma ModAdd(x: int, y: int)
    ensures Mod(Mod(x) + y) == Mod(x + y)
  {
    hide Mod;
    var q := DivMod(x);
    assert x + y == Mod(x) + y + P * q;
    ModShift(Mod(x) + y, q);
  }

  lemma ModMul(x: int, y: int)
    ensures Mod(Mod(x) * y) == Mod(x * y)
  {
    hide Mod;
    var q := DivMod(x);
    assert x * y == Mod(x) * y + P * (q * y) by { Distribute(P, q, Mod(x), y); }
    ModShift(Mod(x) * y, q * y);
  }

  lemma Distribute(p: int, q: int, r: int, y: int)
    ensures (p * q + r) * y == r * y + p * (q * y)
  {
  }

  // ---- Products ---------------------------------------------------------------------------------------------------

  /** One digit of the multiplier: a even multiplier halves while the other factor doubles, an odd one adds it first. */
  lemma DigitStep(m: nat, a: nat, b: nat, m': nat, a': nat)
    requires b > 0
    requires Mod(m') == if b % 2 == 1 then Mod(m + a) else Mod(m)
    requires Mod(a') == Mod(2 * a)
    ensures Mod(m' + a' * (b / 2)) == Mod(m + a * b)
  {
    hide Mod;
    var n := if b % 2 == 1 then m + a else m;
    var h := b / 2;
    assert Mod(m' + a' * h) == Mod(n + a' * h) by { ModAdd(m', a' * h); ModAdd(n, a' * h); }
    assert Mod(a' * h) == Mod(2 * a * h) by { ModMul(a', h); ModMul(2 * a, h); }
    ModAdd(a' * h, n);
    ModAdd(2 * a * h, n);
    assert n + 2 * a * h == m + a * b by { Halves(m, a, b); }
  }

  lemma Halves(m: nat, a: nat, b: nat)
    ensures (if b % 2 == 1 then m + a else m) + 2 * a * (b / 2) == m + a * b
  {
    var h := b / 2;
    if b % 2 == 1 {
      assert a * b == a * (2 * h + 1);
    } else {
      assert a * b == a * (2 * h);
    }
  }

  lemma DoubleStep(a: Word)
    requires a <= P
    ensures var d := if a >= P - a then Wrap(Wrap(a * 2) - P) else Wrap(a * 2); d <= P && Mod(d) == Mod(2 * a)
  {
    if a >= P - a {
      ModShift(2 * a - P, 1);
    }
  }

  lemma AddStep(m: Word, a: Word)
    requires m < P && a <= P
    ensures var s := if m >= P - a then m - (P - a) else m + a; s < P && Mod(s) == Mod(m + a)
  {
    if m >= P - a {
      ModShift(m - (P - a), 1);
    }
  }

  /** The product, although twice a factor need not fit a word */
  method MulModP(a0: Word, b0: Word) returns (m: Word)
    requires a0 <= P
    ensures m == Mod(a0 * b0)
  {
    hide Mod, Wrap;
    var a: Word := a0;
    var b: Word := b0;
    m := 0;
    while b != 0
      invariant m < P && a <= P
      invariant Mod(m + a * b) == Mod(a0 * b0)
      decreases b
    {
      ghost var m0, a1 := m, a;
      if b % 2 == 1 {
        AddStep(m, a);
        var t := P - a;
        if m >= t {
          m := m - t;
        } else {
          m := m + a;
        }
      }
      DoubleStep(a);
      if a >= P - a {
        a := Wrap(Wrap(a * 2) - P);
      } else {
        a := Wrap(a * 2);
      }
      DigitStep(m0, a1, b, m, a);
      b := b / 2;
    }
    Small(m);
  }

  lemma Small(m: nat)
    requires m < P
    ensures Mod(m) == m
  {
  }

  // ---- Powers -----------------------------------------------------------------------------------------------------

  function Pow(a: nat, n: nat): nat {
    if n == 0 then 1 else Pow(a, n - 1) * a
  }

  lemma {:induction false} PowAdd(a: nat, m: nat, n: nat)
    ensures Pow(a, m + n) == Pow(a, m) * Pow(a, n)
  {
    if n > 0 {
      PowAdd(a, m, n - 1);
      Associate(Pow(a, m), Pow(a, n - 1), a);
    }
  }

  lemma Associate(x: nat, y: nat, z: nat)
    ensures (x * y) * z == x * (y * z)
  {
  }

  lemma {:induction false} PowPow(a: nat, m: nat, n: nat)
    ensures Pow(Pow(a, m), n) == Pow(a, m * n)
  {
    if n > 0 {
      PowPow(a, m, n - 1);
      assert m * n == m * (n - 1) + m;
      PowAdd(a, m * (n - 1), m);
    }
  }

  /** Powers of congruent numbers are congruent. */
  lemma {:induction false} ModPow(a: nat, n: nat)
    ensures Mod(Pow(Mod(a), n)) == Mod(Pow(a, n))
  {
    hide Mod;
    if n > 0 {
      ModPow(a, n - 1);
      var p, q := Pow(Mod(a), n - 1), Pow(a, n - 1);
      ModMul(p, Mod(a));
      ModMul(q, Mod(a));
      ModMul(a, q);
    }
  }

  lemma ModProduct(x: nat, y: nat)
    ensures Mod(Mod(x) * Mod(y)) == Mod(x * y)
  {
    hide Mod;
    ModMul(x, Mod(y));
    ModMul(y, x);
  }

  lemma ModTwice(x: int)
    ensures Mod(Mod(x)) == Mod(x)
  {
    ModAdd(x, 0);
  }

  /** By squaring. The first power is the number itself, reduced or not. */
  method PowModP(a: Word, b: Word) returns (r: Word)
    requires a <= P && b > 0
    ensures r == if b == 1 then a else Mod(Pow(a, b))
    decreases b
  {
    hide Mod, Pow;
    if b == 1 {
      return a;
    }
    var h := b / 2;
    var t := PowModP(a, h);
    assert t <= P && Mod(t) == Mod(Pow(a, h)) by { PowOne(a); ModTwice(Pow(a, h)); }
    ghost var root := t;
    t := MulModP(t, t);
    assert t == Mod(Pow(a, h + h)) by { ModProduct(root, root); ModProduct(Pow(a, h), Pow(a, h)); PowAdd(a, h, h); }
    if b % 2 == 1 {
      t := MulModP(t, a);
      ModMul(Pow(a, h + h), a);
      PowOne(a);
      PowAdd(a, h + h, 1);
    }
    r := t;
  }

  lemma PowOne(a: nat)
    ensures Pow(a, 1) == a
  {
    assert Pow(a, 0) == 1;
  }

  /** The power modulo P in every case but one: the modulus itself is not reduced. */
  method PowerModP(a: Word, b: Word) returns (r: Word)
    requires b > 0
    ensures r == Mod(Pow(a, b)) <==> !(a == P && b == 1)
    ensures a == P && b == 1 ==> r == P
  {
    hide Pow;
    PowOne(a);
    if a > P {
      r := PowModP(a % P, b);
      ModPow(a, b);
      PowOne(a % P);
      assert a % P == Mod(a) && Mod(Mod(a)) == Mod(a);
    } else {
      r := PowModP(a, b);
    }
  }

  // ---- The exchange -----------------------------------------------------------------------------------------------

  datatype Option<+T> = None | Some(value: T)

  /** The generator has an inverse, so that no power of it is 0. */
  lemma {:induction false} NeverZero(n: nat)
    ensures Mod(Pow(G, n)) != 0
  {
    var inverse := (2 * P + 1) / G;
    assert inverse * G == 2 * P + 1;
    if n == 0 {
      assert Pow(G, 0) == 1;
    } else {
      NeverZero(n - 1);
      var p := Pow(G, n - 1);
      hide Mod, Pow;
      assert Pow(G, n) == p * G by { PowStep(n); }
      Inverse(p, inverse);
      ModShift(p, 2 * p);
      ModMul(p * G, inverse);
      Small(0);
    }
  }

  lemma PowStep(n: nat)
    requires n > 0
    ensures Pow(G, n) == Pow(G, n - 1) * G
  {
  }

  lemma Inverse(p: nat, inverse: nat)
    requires inverse * G == 2 * P + 1
    ensures p * G * inverse == p + P * (2 * p)
  {
    Associate(p, G, inverse);
    assert p * (2 * P + 1) == p + P * (2 * p);
  }

  /** What is sent for a secret number; no answer is the error for zero. */
  method Exchange(x: Word) returns (r: Option<Word>)
    ensures r == if x == 0 then None else Some(Mod(Pow(G, x)))
  {
    if x == 0 {
      return None;
    }
    var p := PowerModP(G, x);
    r := Some(p);
  }

  method Secret(x: Word, y: Word) returns (r: Option<Word>)
    ensures r.None? <==> x == 0 || y == 0
    ensures x != 0 && y != 0 && x < P ==> r == Some(Mod(Pow(x, y)))
  {
    if x == 0 || y == 0 {
      return None;
    }
    var p := PowerModP(x, y);
    r := Some(p);
  }

  /** The two parties come to the same secret, whatever numbers other than zero they chose. */
  method Agree(x: Word, y: Word) returns (a: Option<Word>, b: Option<Word>)
    requires x != 0 && y != 0
    ensures a.Some? && a == b && a.value == Mod(Pow(G, x * y))
  {
    hide Mod, Pow;
    var fromX := Exchange(x);
    var fromY := Exchange(y);
    NeverZero(x);
    NeverZero(y);
    a := Secret(fromX.value, y);
    b := Secret(fromY.value, x);
    ModPow(Pow(G, x), y);
    ModPow(Pow(G, y), x);
    PowPow(G, x, y);
    PowPow(G, y, x);
    assert x * y == y * x;
  }
}
