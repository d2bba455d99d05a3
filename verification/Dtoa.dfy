/** What dtoa.c builds from its big integers: powers of five, and the digits of a quotient, rounded half to even. */
module Dtoa {
  import opened Bigint

  // ---- Powers of five ---------------------------------------------------------------------------------------------

  lemma {:induction false} FivePowers()
    ensures Power(5, 0) == 1 && Power(5, 1) == 5 && Power(5, 2) == 25 && Power(5, 3) == 125 && Power(5, 4) == 625
  {
    assert Power(5, 0) == 1;
    assert Power(5, 1) == 5 * Power(5, 0);
    assert Power(5, 2) == 5 * Power(5, 1);
    assert Power(5, 3) == 5 * Power(5, 2);
    assert Power(5, 4) == 5 * Power(5, 3);
  }

  /** Entry `i` of the cache */
  function Cached(i: nat): (r: nat)
    ensures r > 0
  {
    PowerPositive5(4 * Power(2, i));
    Power(5, 4 * Power(2, i))
  }

  /** The cached powers: entry `i` is 5^(4 * 2^i). The list grows when a larger power is needed for the first time. */
  class Powers {
    var list: seq<Big>

    ghost predicate Valid()
      reads this, list, set p | p in list :: p.x
    {
      forall i :: 0 <= i < |list| ==> list[i].Normal() && list[i].Value() == Cached(i)
    }

    constructor ()
      ensures Valid() && list == []
    {
      list := [];
    }

    ghost predicate Apart(b: Big)
      reads this
    {
      b !in list && forall p :: p in list ==> p.x != b.x
    }

    /** Make sure that the list has an entry `i`. */
    method Extend(i: nat)
      requires Valid() && i <= |list|
      modifies this
      ensures Valid() && i < |list| && old(list) <= list
      ensures forall p :: p in list ==> p in old(list) || (fresh(p) && fresh(p.x))
    {
      if i == |list| {
        var p;
        if i == 0 {
          p := FromInt(625);
          FivePowers();
          assert Power(2, 0) == 1;
        } else {
          p := Mult(list[i - 1], list[i - 1]);
          Doubled(i);
        }
        list := list + [p];
      }
    }

    /** `pow5mult` */
    method Pow5Mult(b: Big, k: nat) returns (r: Big)
      requires Valid() && b.Normal() && b.Value() > 0 && Apart(b)
      modifies this, b, b.x
      ensures Valid() && old(list) <= list
      ensures r.Normal() && r.Value() == old(b.Value()) * Power(5, k)
      ensures (r == b || (fresh(r) && fresh(r.x))) && Apart(r)
      ensures forall p :: p in list ==> p in old(list) || (fresh(p) && fresh(p.x))
    {
      hide Power, Left, Cached;
      ghost var start: int := b.Value();
      r := SmallFactor(b, k % 4);
      FirstFactor(start, r.Value(), k);
      if k / 4 != 0 {
        r := LargeFactor(r, k / 4, start, k);
      }
    }

    /** The rest of `pow5mult`: one cached power for each bit of `k1` */
    method LargeFactor(b: Big, k1: nat, ghost start: int, ghost k: nat) returns (r: Big)
      requires Valid() && b.Normal() && Apart(b) && k1 > 0 && Left(b.Value(), 0, k1, start, k)
      modifies this
      ensures Valid() && old(list) <= list && r.Normal() && r.Value() == start * Power(5, k)
      ensures (r == b || (fresh(r) && fresh(r.x))) && Apart(r)
      ensures forall p :: p in list ==> p in old(list) || (fresh(p) && fresh(p.x))
    {
      hide Power, Left, Cached;
      r := b;
      var k1, n: nat := k1, 0;
      Extend(n);
      while true
        invariant Valid() && old(list) <= list && n < |list| && k1 > 0
        invariant r.Normal() && Left(r.Value(), n, k1, start, k)
        invariant (r == b || (fresh(r) && fresh(r.x))) && Apart(r)
        invariant forall p :: p in list ==> p in old(list) || (fresh(p) && fresh(p.x))
        decreases k1
      {
        LeftStep(r.Value(), n, k1, start, k);
        if k1 % 2 == 1 {
          r := Mult(r, list[n]);
        }
        k1 := k1 / 2;
        if k1 == 0 {
          break;
        }
        Extend(n + 1);
        n := n + 1;
      }
    }
  }

  method SmallFactor(b: Big, i: nat) returns (r: Big)
    requires b.Normal() && i < 4
    modifies b, b.x
    ensures r.Normal() && r.Value() == old(b.Value()) * Power(5, i)
    ensures r == b || (fresh(r) && fresh(r.x))
  {
    FivePowers();
    r := b;
    if i != 0 {
      r := MultAdd(b, if i == 1 then 5 else if i == 2 then 25 else 125, 0);
    }
  }

  function Remaining(n: nat, k1: nat): nat {
    Power(5, 4 * Power(2, n) * k1)
  }

  lemma RemainingStep(n: nat, k1: nat)
    ensures Remaining(n, k1) == if k1 % 2 == 1 then Cached(n) * Remaining(n + 1, k1 / 2) else Remaining(n + 1, k1 / 2)
    ensures Remaining(n, 0) == 1
  {
    assert 4 * Power(2, n + 1) == 2 * (4 * Power(2, n));
    hide Power;
    Halves(4 * Power(2, n), k1);
    ZeroPower(4 * Power(2, n) * 0);
  }

  /** `v` still has to be multiplied by the powers that the bits of `k1` stand for. */
  ghost predicate Left(v: int, n: nat, k1: nat, start: int, k: nat) {
    v > 0 && v * Remaining(n, k1) == start * Power(5, k)
  }

  lemma FirstFactor(start: int, v: int, k: nat)
    requires start > 0 && v == start * Power(5, k % 4)
    ensures Left(v, 0, k / 4, start, k)
    ensures k / 4 == 0 ==> v == start * Power(5, k)
  {
    FivePowers();
    assert Power(2, 0) == 1;
    hide Power;
    PowerSum(5, k % 4, 4 * (k / 4));
    assert start * Power(5, k % 4) * Power(5, 4 * (k / 4)) == start * (Power(5, k % 4) * Power(5, 4 * (k / 4)));
    PowerPositive5(k % 4);
  }

  lemma LeftStep(v: int, n: nat, k1: nat, start: int, k: nat)
    requires Left(v, n, k1, start, k) && k1 > 0
    ensures var w := if k1 % 2 == 1 then v * Cached(n) else v;
            w > 0 && if k1 / 2 == 0 then w == start * Power(5, k) else Left(w, n + 1, k1 / 2, start, k)
  {
    hide Power, Remaining, Cached;
    RemainingStep(n, k1);
    RemainingStep(n + 1, 0);
    var rest := Remaining(n + 1, k1 / 2);
    assert v * (Cached(n) * rest) == v * Cached(n) * rest;
    assert v * Cached(n) > 0;
  }

  /** The power for `k1` from that for half of it */
  lemma Halves(e: nat, k1: nat)
    ensures 2 * e * (k1 / 2) >= 0
    ensures Power(5, e * k1) == if k1 % 2 == 1 then Power(5, e) * Power(5, 2 * e * (k1 / 2)) else Power(5, 2 * e * (k1 / 2))
  {
    hide Power;
    var h := k1 / 2;
    assert e * k1 == 2 * e * h + e * (k1 % 2) by {
      assert k1 == 2 * h + k1 % 2;
      assert e * (2 * h + k1 % 2) == 2 * e * h + e * (k1 % 2);
    }
    if k1 % 2 == 1 {
      PowerSum(5, e, 2 * e * h);
    }
  }

  lemma ZeroPower(n: nat)
    ensures n == 0 ==> Power(5, n) == 1
  {
  }

  lemma PowerPositive5(n: nat)
    ensures Power(5, n) > 0
  {
  }

  lemma Doubled(i: nat)
    requires i > 0
    ensures Power(5, 4 * Power(2, i)) == Power(5, 4 * Power(2, i - 1)) * Power(5, 4 * Power(2, i - 1))
  {
    PowerSum(5, 4 * Power(2, i - 1), 4 * Power(2, i - 1));
  }

  // ---- Digits -----------------------------------------------------------------------------------------------------

  predicate Decimal(ds: seq<nat>) {
    forall k :: 0 <= k < |ds| ==> ds[k] <= 9
  }

  /** The number that the digits stand for */
  function Num(ds: seq<nat>): nat {
    if ds == [] then 0 else 10 * Num(ds[..|ds| - 1]) + ds[|ds| - 1]
  }

  lemma NumSnoc(ds: seq<nat>, d: nat)
    ensures Num(ds + [d]) == 10 * Num(ds) + d
  {
    assert (ds + [d])[..|ds|] == ds;
  }

  /** The quotient rounded to the nearest integer, and to the even one when there are two */
  function RoundHalfEven(x: nat, m: nat): nat
    requires m > 0
  {
    var q, r := x / m, x % m;
    if 2 * r > m || (2 * r == m && q % 2 == 1) then q + 1 else q
  }

  /** No integer is nearer than the rounded quotient, and it is even when another one is as near. */
  lemma RoundsToNearest(x: nat, m: nat, other: int)
    requires m > 0
    ensures var n := RoundHalfEven(x, m);
            && Distance(x, m * n) <= Distance(x, m * other)
            && (Distance(x, m * n) == Distance(x, m * other) && other != n ==> n % 2 == 0)
  {
    var q, r := x / m, x % m;
    assert x == m * q + r;
    assert m * (q + 1) == m * q + m;
    MulSteps(m, q, other);
  }

  /** The first `n` digits of a quotient between one and ten, rounded half to even, as an integer */
  function FirstDigits(x: nat, m: nat, n: nat): nat
    requires m > 0 && n > 0
  {
    RoundHalfEven(x * Power(10, n - 1), m)
  }

  function Distance(a: int, b: int): int {
    if a < b then b - a else a - b
  }

  lemma MulSteps(m: int, q: int, other: int)
    requires m > 0
    ensures other <= q - 1 ==> m * other <= m * q - m
    ensures other >= q + 2 ==> m * other >= m * q + 2 * m
  {
    if other <= q - 1 {
      MulMono(other, q - 1, m);
    } else if other >= q + 2 {
      MulMono(q + 2, other, m);
    }
  }

  /** The digits of `start / m` so far, and what is left */
  predicate Expansion(start: nat, m: nat, ds: seq<nat>, rest: nat) {
    && ds != [] && Decimal(ds) && ds[0] > 0 && rest < m
    && start * Power(10, |ds| - 1) == Num(ds) * m + rest
  }

  lemma ExpansionStarts(start: nat, m: nat)
    requires 0 < m <= start < 10 * m
    ensures start / m <= 9 && Expansion(start, m, [start / m], start % m)
  {
    var q := start / m;
    assert start == q * m + start % m;
    assert Num([q]) == q by {
      NumSnoc([], q);
      assert [] + [q] == [q];
    }
    QuotientSmall(start, m, q);
    assert Power(10, 0) == 1;
  }

  lemma DivModFacts(x: nat, m: nat)
    requires m > 0
    ensures x == x / m * m + x % m && 0 <= x % m < m && x / m * m == m * (x / m)
  {
  }

  lemma TenPower(n: nat)
    ensures Power(10, n + 1) == 10 * Power(10, n)
  {
  }

  lemma NextDigit(start: int, p: int, num: int, m: int, rest: int, d: int, more: int)
    requires start * p == num * m + rest && rest * 10 == d * m + more
    ensures start * (10 * p) == (10 * num + d) * m + more
  {
    assert start * (10 * p) == 10 * (start * p);
    assert (10 * num + d) * m == 10 * (num * m) + d * m;
  }

  lemma ExpansionStep(start: nat, m: nat, ds: seq<nat>, rest: nat, d: nat, more: nat)
    requires Expansion(start, m, ds, rest) && m > 0 && d == rest * 10 / m && more == rest * 10 % m
    ensures d <= 9 && Expansion(start, m, ds + [d], more)
  {
    hide Num, Power;
    DivModFacts(rest * 10, m);
    QuotientSmall(rest * 10, m, d);
    NumSnoc(ds, d);
    TenPower(|ds| - 1);
    NextDigit(start, Power(10, |ds| - 1), Num(ds), m, rest, d, more);
  }

  lemma RoundedFrom(x: nat, m: nat, q: nat, r: nat)
    requires m > 0 && x == q * m + r && r < m
    ensures RoundHalfEven(x, m) == q + if 2 * r > m || (2 * r == m && q % 2 == 1) then 1 else 0
  {
    DivUnique(x, m, q, r);
  }

  lemma LastParity(ds: seq<nat>)
    requires ds != []
    ensures Num(ds) % 2 == ds[|ds| - 1] % 2
  {
  }

  lemma ExpansionRounds(start: nat, m: nat, ds: seq<nat>, rest: nat)
    requires Expansion(start, m, ds, rest) && m > 0
    ensures ds != [] && FirstDigits(start, m, |ds|)
         == Num(ds) + if 2 * rest > m || (2 * rest == m && ds[|ds| - 1] % 2 == 1) then 1 else 0
  {
    hide RoundHalfEven, Num, Power;
    RoundedFrom(start * Power(10, |ds| - 1), m, Num(ds), rest);
    LastParity(ds);
  }

  lemma Scaled(start: int, p: int, num: int, m: int, f: int)
    requires start * p == num * m
    ensures start * (p * f) == num * f * m + 0
  {
    assert start * (p * f) == start * p * f;
    assert num * f * m == num * m * f;
  }

  /** An expansion that ends early is exact. */
  lemma ExpansionExact(start: nat, m: nat, ds: seq<nat>, n: nat)
    requires m > 0 && Expansion(start, m, ds, 0) && |ds| <= n
    ensures FirstDigits(start, m, n) == Num(ds) * Power(10, n - |ds|)
  {
    hide RoundHalfEven, Num, Power;
    var f := Power(10, n - |ds|);
    PowerSum(10, |ds| - 1, n - |ds|);
    Scaled(start, Power(10, |ds| - 1), Num(ds), m, f);
    RoundedFrom(start * Power(10, n - 1), m, Num(ds) * f, 0);
  }

  /** A digit that leaves nothing is not a zero, unless it is the first one. */
  lemma LastDigit(rest: nat, m: nat, more: nat, d: nat)
    requires 0 < rest < m && more == rest * 10 % m && d == rest * 10 / m
    ensures more == 0 ==> d > 0
  {
    DivModFacts(rest * 10, m);
  }

  /** Digits with an exponent: `up` says that the decimal point moves by one. */
  predicate Result(ds: seq<nat>, up: bool, n: nat, value: nat) {
    && ds != [] && Decimal(ds) && |ds| <= n && ds[0] > 0 && ds[|ds| - 1] > 0
    && Num(ds) * Power(10, n - |ds| + if up then 1 else 0) == value
  }

  /** Add one in the last place: nines go, and if there is nothing else the result is a one with a larger exponent. */
  method RoundOff(ds: seq<nat>) returns (r: seq<nat>, up: bool)
    requires ds != [] && Decimal(ds) && ds[0] > 0
    ensures Result(r, up, |ds|, Num(ds) + 1)
  {
    var n := |ds|;
    assert ds[..n] == ds && Power(10, 0) == 1;
    while ds[n - 1] == 9
      invariant 0 < n <= |ds| && (Num(ds[..n]) + 1) * Power(10, |ds| - n) == Num(ds) + 1
      decreases n
    {
      NinesUp(ds, n);
      n := n - 1;
      if n == 0 {
        assert Num([1]) == 1;
        return [1], true;
      }
    }
    NumPrefix(ds, n);
    NumSnoc(ds[..n - 1], ds[n - 1] + 1);
    r, up := ds[..n - 1] + [ds[n - 1] + 1], false;
  }

  lemma NumPrefix(ds: seq<nat>, n: nat)
    requires 0 < n <= |ds|
    ensures Num(ds[..n]) == 10 * Num(ds[..n - 1]) + ds[n - 1]
  {
    assert ds[..n][..n - 1] == ds[..n - 1];
  }

  lemma NinesUp(ds: seq<nat>, n: nat)
    requires 0 < n <= |ds| && ds[n - 1] == 9
    ensures (Num(ds[..n]) + 1) * Power(10, |ds| - n) == (Num(ds[..n - 1]) + 1) * Power(10, |ds| - (n - 1))
    ensures n == 1 ==> (Num(ds[..n]) + 1) * Power(10, |ds| - n) == Power(10, |ds|)
  {
    NumPrefix(ds, n);
    var p := Power(10, |ds| - n);
    assert Power(10, |ds| - (n - 1)) == 10 * p;
    assert (10 * Num(ds[..n - 1]) + 10) * p == (Num(ds[..n - 1]) + 1) * (10 * p);
  }

  lemma ZeroGone(ds: seq<nat>, n: nat)
    requires 0 < n <= |ds| && ds[n - 1] == 0
    ensures Num(ds[..n]) * Power(10, |ds| - n) == Num(ds[..n - 1]) * Power(10, |ds| - (n - 1))
    ensures n == 1 ==> Num(ds[..n]) == 0
  {
    NumPrefix(ds, n);
    var p := Power(10, |ds| - n);
    assert Power(10, |ds| - (n - 1)) == 10 * p;
    assert 10 * Num(ds[..n - 1]) * p == Num(ds[..n - 1]) * (10 * p);
  }

  method TrimZeros(ds: seq<nat>) returns (r: seq<nat>)
    requires ds != [] && Decimal(ds) && ds[0] > 0
    ensures Result(r, false, |ds|, Num(ds))
  {
    var n := |ds|;
    assert ds[..n] == ds && Power(10, 0) == 1;
    hide Num, Power;
    while ds[n - 1] == 0
      invariant 0 < n <= |ds| && Num(ds[..n]) * Power(10, |ds| - n) == Num(ds)
      decreases n
    {
      ZeroGone(ds, n);
      n := n - 1;
    }
    return ds[..n];
  }

  /** The digit loop and the final rounding of `dtoa` for a fixed number of digits: the first `ilim` digits of `b / s`,
      rounded half to even, without trailing zeros. */
  method FixedDigits(b0: Big, s: Big, ilim: nat) returns (ds: seq<nat>, up: bool)
    requires b0.Normal() && Arranged(s) && b0 != s && b0.x != s.x && ilim >= 1
    requires s.Value() <= b0.Value() < 10 * s.Value()
    modifies b0, b0.x
    ensures Result(ds, up, ilim, FirstDigits(old(b0.Value()), s.Value(), ilim))
  {
    hide Val, P, Num, Power, Result, FirstDigits, Expansion;
    ghost var start, m: nat := b0.Value(), s.Value();
    var b := b0;
    var dig := Quorem(b, s);
    ds, up := [dig], false;
    ExpansionStarts(start, m);
    while true
      invariant b.Trimmed() && (b == b0 || (fresh(b) && fresh(b.x)))
      invariant Expansion(start, m, ds, b.Value()) && 1 <= |ds| <= ilim && b.Value() < m
      invariant b.Value() == 0 ==> ds[|ds| - 1] > 0
      decreases ilim - |ds|
    {
      ZeroTest(b);
      if b.x[0] == 0 && b.wds <= 1 {
        ExactResult(start, m, ds, ilim);
        return;
      }
      if |ds| >= ilim {
        break;
      }
      ghost var rest := b.Value();
      b := MultAdd(b, 10, 0);
      dig := Quorem(b, s);
      ExpansionStep(start, m, ds, rest, dig, b.Value());
      LastDigit(rest, m, b.Value(), dig);
      ds := ds + [dig];
    }
    ds, up := RoundLast(ds, b, s, start);
  }

  /** Round off the last digit by what is left: up from one half, and at exactly one half to an even digit. */
  method RoundLast(digits: seq<nat>, b0: Big, s: Big, ghost start: nat) returns (ds: seq<nat>, up: bool)
    requires b0.Normal() && b0.Value() > 0 && Arranged(s) && Expansion(start, s.Value(), digits, b0.Value())
    ensures |digits| > 0 && Result(ds, up, |digits|, FirstDigits(start, s.Value(), |digits|))
  {
    hide Val, P, Num, Power, Result, FirstDigits, Expansion;
    var b := LShift(b0, 1);
    OneBit(b0.Value());
    ExpansionFacts(start, s.Value(), digits, b0.Value());
    ExpansionRounds(start, s.Value(), digits, b0.Value());
    var j := Cmp(b, s);
    if j > 0 || (j == 0 && digits[|digits| - 1] % 2 == 1) {
      ds, up := RoundOff(digits);
    } else {
      ds := TrimZeros(digits);
      up := false;
    }
  }

  lemma OneBit(v: int)
    ensures v * Power(2, 1) == 2 * v
  {
    assert Power(2, 1) == 2 * Power(2, 0);
  }

  lemma ZeroTest(b: Big)
    requires b.Trimmed()
    ensures b.x[0] == 0 && b.wds <= 1 <==> b.Value() == 0
  {
    var s := b.x[..b.wds];
    if b.wds > 1 {
      ValTop(s);
    } else if b.wds == 1 {
      ValExtend(s, 0);
      ValNone(s);
      assert s[..1] == s;
    }
  }

  lemma ExpansionFacts(start: nat, m: nat, ds: seq<nat>, rest: nat)
    requires Expansion(start, m, ds, rest)
    ensures m > 0 && ds != [] && Decimal(ds) && ds[0] > 0
  {
  }

  lemma ExactResult(start: nat, m: nat, ds: seq<nat>, n: nat)
    requires m > 0 && Expansion(start, m, ds, 0) && |ds| <= n && ds[|ds| - 1] > 0
    ensures Result(ds, false, n, FirstDigits(start, m, n))
  {
    ExpansionExact(start, m, ds, n);
  }

  // ---- From a binary fraction to digits ---------------------------------------------------------------------------

  /** A common factor changes neither quotient nor rounding. */
  lemma RoundsScaled(x: nat, m: nat, c: nat)
    requires m > 0 && c > 0
    ensures m * c > 0 && RoundHalfEven(x * c, m * c) == RoundHalfEven(x, m)
  {
    var q, r := x / m, x % m;
    DivModFacts(x, m);
    assert (q * m + r) * c == q * (m * c) + r * c;
    Cancel(r + 1, m, c);
    assert (r + 1) * c == r * c + c;
    RoundedFrom(x, m, q, r);
    assert 0 <= r * c < m * c;
    RoundedFrom(x * c, m * c, q, r * c);
    Cancel(2 * r, m, c);
    Cancel(m, 2 * r, c);
    assert 2 * (r * c) == 2 * r * c;
  }

  /** `x / m` and `y / n` are the same. */
  predicate Proportional(x: nat, m: nat, y: nat, n: nat) {
    m > 0 && n > 0 && x * n == y * m
  }

  lemma RoundsProportional(x: nat, m: nat, y: nat, n: nat)
    requires Proportional(x, m, y, n)
    ensures RoundHalfEven(x, m) == RoundHalfEven(y, n)
  {
    hide RoundHalfEven;
    RoundsScaled(x, m, n);
    RoundsScaled(y, n, m);
    assert m * n == n * m;
  }

  lemma ProportionalScaled(x: nat, m: nat, y: nat, n: nat, f: nat)
    requires Proportional(x, m, y, n)
    ensures Proportional(x * f, m, y * f, n)
  {
    assert x * f * n == x * n * f;
    assert y * f * m == y * m * f;
  }

  lemma ProportionalOrder(x: nat, m: nat, y: nat, n: nat, c: nat, d: nat)
    requires Proportional(x, m, y, n)
    ensures c * x < d * m <==> c * y < d * n
  {
    assert c * (x * n) == c * x * n;
    assert c * (y * m) == c * y * m;
    assert d * n * m == d * m * n;
    Cancel(d * m, c * x, n);
    Cancel(d * n, c * y, m);
  }

  function Fivefold(v: nat, k: nat): nat {
    v * Power(5, k)
  }

  function Twofold(v: nat, k: nat): nat {
    v * Power(2, k)
  }

  lemma TwofoldIs(v: nat, k: nat)
    ensures Twofold(v, k) == v * Power(2, k)
  {
  }

  /** The number v * 5^e5 * 2^e2 */
  function Scale(v: nat, e2: nat, e5: nat): nat {
    Twofold(Fivefold(v, e5), e2)
  }

  lemma CrossProduct(a: nat, c: nat, p: nat, q: nat, u: nat, w: nat)
    requires p * w == u * q && c > 0 && q > 0 && w > 0
    ensures Proportional(a * p, c * q, a * u, c * w)
  {
    assert a * p * (c * w) == a * c * (p * w);
    assert a * u * (c * q) == a * c * (u * q);
  }

  lemma SameRatio(a: nat, c: nat, e1: nat, f1: nat, e2: nat, f2: nat)
    requires c > 0 && e1 + f2 == e2 + f1
    ensures Proportional(Twofold(a, e1), Twofold(c, f1), Twofold(a, e2), Twofold(c, f2))
  {
    hide Power, Proportional;
    PowerPositive(f1);
    PowerPositive(f2);
    PowerSum(2, e1, f2);
    PowerSum(2, e2, f1);
    CrossProduct(a, c, Power(2, e1), Power(2, f1), Power(2, e2), Power(2, f2));
  }

  /** The number lies between 1/10 and 10, and below 1 only when that is checked. */
  predicate Ratio(x: nat, m: nat, kCheck: bool) {
    m <= 10 * x && x < 10 * m && (!kCheck ==> m <= x)
  }

  /** Multiply by a power of five, when there is one. */
  method Fives(b: Big, k: nat, powers: Powers) returns (r: Big)
    requires b.Normal() && b.Value() > 0 && powers.Valid() && powers.Apart(b)
    modifies b, b.x, powers
    ensures powers.Valid() && powers.Apart(r)
    ensures forall p :: p in powers.list ==> p in old(powers.list) || (fresh(p) && fresh(p.x))
    ensures r.Normal() && r.Value() == old(b.Value()) * Power(5, k) && r.Value() > 0
    ensures r == b || (fresh(r) && fresh(r.x))
  {
    hide Power;
    ghost var v: nat := b.Value();
    r := b;
    ZeroPowers();
    PowerPositive5(k);
    if k > 0 {
      r := powers.Pow5Mult(b, k);
    }
    MulMono(1, Power(5, k), v);
  }

  /** The powers of five of the number and of the divisor */
  method BothFives(mant: Big, b5: nat, s5: nat, powers: Powers) returns (b: Big, s: Big)
    requires mant.Normal() && mant.Value() > 0 && powers.Valid() && powers.Apart(mant)
    modifies mant, mant.x, powers
    ensures powers.Valid() && powers.Apart(b) && b.Normal() && s.Normal() && b != s && b.x != s.x
    ensures b == mant || (fresh(b) && fresh(b.x))
    ensures fresh(s) && fresh(s.x)
    ensures b.Value() == Fivefold(old(mant.Value()), b5) && b.Value() > 0
    ensures s.Value() == Fivefold(1, s5) && s.Value() > 0
  {
    hide Power;
    b := Fives(mant, b5, powers);
    s := FromInt(1);
    s := Fives(s, s5, powers);
  }

  /** Shift, when there is anything to shift. */
  method Twos(b: Big, k: nat) returns (r: Big)
    requires b.Normal() && b.Value() > 0
    ensures r.Normal() && r.Value() == Twofold(b.Value(), k) && (r == b || (fresh(r) && fresh(r.x)))
  {
    hide Power;
    r := b;
    ZeroPowers();
    if k > 0 {
      r := LShift(b, k);
    }
  }

  /** Bring `b2` and `s2` down by what they have in common, multiply by the powers of five, and shift both numbers so
      that the divisor is arranged: the first part of the conversion. */
  method Prepare(mant: Big, b2: nat, b5: nat, s2: nat, s5: nat, powers: Powers) returns (b: Big, s: Big)
    requires mant.Normal() && mant.Value() > 0 && powers.Valid() && powers.Apart(mant)
    modifies mant, mant.x, powers
    ensures powers.Valid() && powers.Apart(b) && b.Normal() && s.Normal() && Arranged(s) && b != s && b.x != s.x
    ensures b == mant || (fresh(b) && fresh(b.x))
    ensures Proportional(b.Value(), s.Value(), Scale(old(mant.Value()), b2, b5), Scale(1, s2, s5))
  {
    hide Val, P, Power, Proportional, Fivefold, Twofold;
    var e, f := b2, s2;
    if e > 0 && f > 0 {
      var i := if e < f then e else f;
      e, f := e - i, f - i;
    }
    b, s := BothFives(mant, b5, s5, powers);
    b, s := Arrange(b, s, e, f, b2, s2);
  }

  /** Shift so that the divisor is arranged for `quorem`: both numbers by the same amount more than asked for. */
  method Arrange(b: Big, s: Big, e: nat, f: nat, ghost b2: nat, ghost s2: nat) returns (b1: Big, s1: Big)
    requires b.Normal() && s.Normal() && b != s && b.x != s.x && b.Value() > 0 && s.Value() > 0 && e + s2 == f + b2
    ensures b1.Normal() && s1.Normal() && Arranged(s1) && b1 != s1 && b1.x != s1.x
    ensures b1 == b || (fresh(b1) && fresh(b1.x))
    ensures Proportional(b1.Value(), s1.Value(), Twofold(b.Value(), b2), Twofold(s.Value(), s2))
  {
    hide Val, P, Power, Proportional, Twofold;
    var i := DShift(s, f);
    b1 := Twos(b, e + i);
    s1 := Twos(s, f + i);
    TwofoldIs(s.Value(), f + i);
    assert Val(s1.x[..s1.wds]) == s.Value() * Power(2, f + i);
    SameRatio(b.Value(), s.Value(), e + i, f + i, b2, s2);
  }

  lemma ZeroPowers()
    ensures Power(2, 0) == 1 && Power(5, 0) == 1
  {
  }

  /** Conversion to a fixed number of digits (dtoa.c, with `leftright` zero): the number is
      mant * 2^b2 * 5^b5 / (2^s2 * 5^s5), between 1/10 and 10. Below one, the estimate of the decimal exponent was too
      large: `lower` says so, and ten times the number is converted, to `ilim1` digits. */
  method Convert(mant: Big, b2: nat, b5: nat, s2: nat, s5: nat, kCheck: bool, ilim: nat, ilim1: nat, powers: Powers)
    returns (ds: seq<nat>, up: bool, lower: bool)
    requires mant.Normal() && mant.Value() > 0 && powers.Valid() && powers.Apart(mant) && ilim >= 1 && ilim1 >= 1
    requires Ratio(Scale(mant.Value(), b2, b5), Scale(1, s2, s5), kCheck)
    modifies mant, mant.x, powers
    ensures powers.Valid()
    ensures var x, m := Scale(old(mant.Value()), b2, b5), Scale(1, s2, s5);
            && m > 0 && lower == (x < m)
            && (lower ==> Result(ds, up, ilim1, FirstDigits(x * 10, m, ilim1)))
            && (!lower ==> Result(ds, up, ilim, FirstDigits(x, m, ilim)))
  {
    hide Val, P, Power, Scale, Result, FirstDigits, Proportional, Ratio, Arranged;
    ghost var x, m := Scale(mant.Value(), b2, b5), Scale(1, s2, s5);
    var b, s := Prepare(mant, b2, b5, s2, s5, powers);
    var n := ilim;
    lower := false;
    InRange(b.Value(), s.Value(), x, m, kCheck);
    if kCheck {
      var j := Cmp(b, s);
      if j < 0 {
        lower := true;
        ghost var bv := b.Value();
        b := MultAdd(b, 10, 0);
        ProportionalScaled(bv, s.Value(), x, m, 10);
        n := ilim1;
      }
    }
    SameDigits(b.Value(), s.Value(), if lower then x * 10 else x, m, n);
    ds, up := FixedDigits(b, s, n);
  }

  lemma InRange(bv: nat, sv: nat, x: nat, m: nat, kCheck: bool)
    requires Proportional(bv, sv, x, m) && Ratio(x, m, kCheck)
    ensures m > 0 && sv > 0 && (bv < sv <==> x < m) && sv <= 10 * bv && bv < 10 * sv && (!kCheck ==> m <= x) && bv > 0
  {
    ProportionalOrder(bv, sv, x, m, 1, 1);
    ProportionalOrder(bv, sv, x, m, 10, 1);
    ProportionalOrder(bv, sv, x, m, 1, 10);
  }

  lemma SameDigits(bv: nat, sv: nat, x: nat, m: nat, n: nat)
    requires Proportional(bv, sv, x, m) && n >= 1
    ensures m > 0 && sv > 0
    ensures FirstDigits(bv, sv, n) == FirstDigits(x, m, n)
  {
    ProportionalScaled(bv, sv, x, m, Power(10, n - 1));
    RoundsProportional(bv * Power(10, n - 1), sv, x * Power(10, n - 1), m);
  }
}
