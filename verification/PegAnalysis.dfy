/** The compile-time analyses of lpcode.c and their soundness against the matching relation.

    The original follows calls without a bound, except that `fixedlen` marks the calls that it is in. Here every analysis
    follows at most `d` nested calls and then gives its conservative answer, so that it is total; the theorems hold for every
    `d`. PegAnswers says where the bound makes no difference. */
module PegAnalysis {
  import opened Peg

  /** `checkaux(tree, PEnullable)` */
  function Nullable(d: nat, rules: seq<Tree>, t: Tree): bool
    decreases d, t
  {
    match t
    case Char(_) | CSet(_) | Any | False => false
    case Rep(_) | True | Not(_) | Behind(_, _) | And(_) => true
    case Seq(p1, p2) => Nullable(d, rules, p1) && Nullable(d, rules, p2)
    case Choice(p1, p2) => Nullable(d, rules, p2) || Nullable(d, rules, p1)
    case Call(n) => if d == 0 || n >= |rules| then true else Nullable(d - 1, rules, rules[n])
    case Grammar(rs) => if |rs| == 0 then true else Nullable(d, rs, rs[0])
  }

  /** `checkaux(tree, PEnofail)` */
  function NoFail(d: nat, rules: seq<Tree>, t: Tree): bool
    decreases d, t
  {
    match t
    case Char(_) | CSet(_) | Any | False | Not(_) | Behind(_, _) => false
    case Rep(_) | True => true
    case And(p) => NoFail(d, rules, p)
    case Seq(p1, p2) => NoFail(d, rules, p1) && NoFail(d, rules, p2)
    case Choice(p1, p2) => NoFail(d, rules, p2) || NoFail(d, rules, p1)
    case Call(n) => if d == 0 || n >= |rules| then false else NoFail(d - 1, rules, rules[n])
    case Grammar(rs) => if |rs| == 0 then false else NoFail(d, rs, rs[0])
  }

  /** `fixedlen`: the number of characters every match consumes, or -1 if that varies. */
  function FixedLen(d: nat, rules: seq<Tree>, t: Tree): (r: int)
    ensures r >= -1
    decreases d, t
  {
    match t
    case Char(_) | CSet(_) | Any => 1
    case False | True | Not(_) | And(_) | Behind(_, _) => 0
    case Rep(_) => -1
    case Seq(p1, p2) =>
      var n1 := FixedLen(d, rules, p1);
      if n1 < 0 then -1 else
      var n2 := FixedLen(d, rules, p2);
      if n2 < 0 then -1 else n1 + n2
    case Choice(p1, p2) =>
      var n1 := FixedLen(d, rules, p1);
      var n2 := FixedLen(d, rules, p2);
      if n1 != n2 || n1 < 0 then -1 else n1
    case Call(n) => if d == 0 || n >= |rules| then -1 else FixedLen(d - 1, rules, rules[n])
    case Grammar(rs) => if |rs| == 0 then -1 else FixedLen(d, rs, rs[0])
  }

  /** What `getfirst` reports: whether the pattern may accept the empty subject, and the first set. */
  datatype First = First(empty: bool, cs: set<Byte>)

  /** `getfirst`: the first set of `t` when it is followed by something whose first set is `follow`. */
  function GetFirst(d: nat, rules: seq<Tree>, t: Tree, follow: set<Byte>): First
    decreases d, t
  {
    match t
    case Char(c) => First(false, {c})
    case CSet(cs) => First(false, cs)
    case Any => First(false, FULL)
    case True => First(true, follow)
    case False => First(false, {})
    case Choice(p1, p2) =>
      var f1 := GetFirst(d, rules, p1, follow);
      var f2 := GetFirst(d, rules, p2, follow);
      First(f1.empty || f2.empty, f1.cs + f2.cs)
    case Seq(p1, p2) =>
      if !Nullable(d, rules, p1) then GetFirst(d, rules, p1, FULL)
      else
        var f2 := GetFirst(d, rules, p2, follow);
        var f1 := GetFirst(d, rules, p1, f2.cs);
        First(f1.empty && f2.empty, f1.cs)
    case Rep(p) => First(true, GetFirst(d, rules, p, follow).cs + follow)
    case And(p) =>
      var f := GetFirst(d, rules, p, follow);
      First(f.empty, f.cs * follow)
    case Not(p) =>
      (match ToCharset(p)
       case Some(cs) => First(true, FULL - cs)
       case None => First(true, follow))
    case Behind(_, _) => First(true, follow)
    case Call(n) => if d == 0 || n >= |rules| then First(true, FULL) else GetFirst(d - 1, rules, rules[n], follow)
    case Grammar(rs) => if |rs| == 0 then First(true, FULL) else GetFirst(d, rs, rs[0], follow)
  }

  /** `headfail`: failure depends only on the next character. */
  function HeadFail(d: nat, rules: seq<Tree>, t: Tree): bool
    decreases d, t
  {
    match t
    case Char(_) | CSet(_) | Any | False => true
    case True | Rep(_) | Not(_) | Behind(_, _) => false
    case And(p) => HeadFail(d, rules, p)
    case Seq(p1, p2) => NoFail(d, rules, p2) && HeadFail(d, rules, p1)
    case Choice(p1, p2) => HeadFail(d, rules, p1) && HeadFail(d, rules, p2)
    case Call(n) => if d == 0 || n >= |rules| then false else HeadFail(d - 1, rules, rules[n])
    case Grammar(rs) => if |rs| == 0 then false else HeadFail(d, rs, rs[0])
  }

  /** `needfollow`: can code generation for `t` use a follow set? */
  function NeedFollow(t: Tree): bool {
    match t
    case Choice(_, _) | Rep(_) => true
    case Seq(_, p2) => NeedFollow(p2)
    case _ => false
  }

  /** A pattern that is not nullable consumes at least one character whenever it matches. */
  lemma {:induction false} NullableSound(d: nat, rules: seq<Tree>, t: Tree, s: seq<Byte>, i: nat, fuel: nat)
    requires i <= |s|
    requires !Nullable(d, rules, t)
    ensures Match(rules, t, s, i, fuel) != Some(Ok(i))
    decreases fuel, t
  {
    match t
    case Seq(p1, p2) =>
      var r := Match(rules, p1, s, i, fuel);
      if r.Some? && r.value.Ok? {
        if !Nullable(d, rules, p1) {
          NullableSound(d, rules, p1, s, i, fuel);
        } else {
          NullableSound(d, rules, p2, s, r.value.pos, fuel);
        }
      }
    case Choice(p1, p2) =>
      NullableSound(d, rules, p1, s, i, fuel);
      NullableSound(d, rules, p2, s, i, fuel);
    case Call(n) =>
      if n < |rules| && fuel > 0 {
        NullableSound(d - 1, rules, rules[n], s, i, fuel - 1);
      }
    case Grammar(rs) => NullableSound(d, rs, rs[0], s, i, fuel);
    case _ =>
  }

  /** A `nofail` pattern never fails, on any subject at any position. */
  lemma {:induction false} NoFailSound(d: nat, rules: seq<Tree>, t: Tree, s: seq<Byte>, i: nat, fuel: nat)
    requires i <= |s|
    requires NoFail(d, rules, t)
    ensures Match(rules, t, s, i, fuel) != Some(Fail)
    decreases fuel, t, |s| - i
  {
    match t
    case Rep(p) =>
      var r := Match(rules, p, s, i, fuel);
      if r.Some? && r.value.Ok? && r.value.pos > i {
        NoFailSound(d, rules, t, s, r.value.pos, fuel);
      }
    case And(p) => NoFailSound(d, rules, p, s, i, fuel);
    case Seq(p1, p2) =>
      NoFailSound(d, rules, p1, s, i, fuel);
      var r := Match(rules, p1, s, i, fuel);
      if r.Some? && r.value.Ok? {
        NoFailSound(d, rules, p2, s, r.value.pos, fuel);
      }
    case Choice(p1, p2) =>
      if NoFail(d, rules, p2) {
        NoFailSound(d, rules, p2, s, i, fuel);
      } else {
        NoFailSound(d, rules, p1, s, i, fuel);
      }
    case Call(n) =>
      if fuel > 0 {
        NoFailSound(d - 1, rules, rules[n], s, i, fuel - 1);
      }
    case Grammar(rs) => NoFailSound(d, rs, rs[0], s, i, fuel);
    case _ =>
  }

  /** If `fixedlen` answers `n >= 0`, every match consumes exactly `n` characters. */
  lemma {:induction false} FixedLenSound(d: nat, rules: seq<Tree>, t: Tree, s: seq<Byte>, i: nat, fuel: nat)
    requires i <= |s|
    requires FixedLen(d, rules, t) >= 0
    ensures var r := Match(rules, t, s, i, fuel);
            r.Some? && r.value.Ok? ==> r.value.pos == i + FixedLen(d, rules, t)
    decreases fuel, t
  {
    match t
    case Seq(p1, p2) =>
      FixedLenSound(d, rules, p1, s, i, fuel);
      var r := Match(rules, p1, s, i, fuel);
      if r.Some? && r.value.Ok? {
        FixedLenSound(d, rules, p2, s, r.value.pos, fuel);
      }
    case Choice(p1, p2) =>
      FixedLenSound(d, rules, p1, s, i, fuel);
      FixedLenSound(d, rules, p2, s, i, fuel);
    case Call(n) =>
      if fuel > 0 {
        FixedLenSound(d - 1, rules, rules[n], s, i, fuel - 1);
      }
    case Grammar(rs) => FixedLenSound(d, rs, rs[0], s, i, fuel);
    case _ =>
  }

  /** A character outside the first set makes the pattern, followed by its continuation, fail: either the pattern
      fails by itself, or it matches the empty string and the character is not in the follow set. */
  lemma {:induction false} FirstSound(d: nat, rules: seq<Tree>, t: Tree, follow: set<Byte>, s: seq<Byte>, i: nat, fuel: nat)
    requires i < |s|
    requires s[i] !in GetFirst(d, rules, t, follow).cs
    ensures var r := Match(rules, t, s, i, fuel);
            r.Some? && r.value.Ok? ==> r.value.pos == i && s[i] !in follow
    decreases fuel, t
  {
    match t
    case Choice(p1, p2) =>
      FirstSound(d, rules, p1, follow, s, i, fuel);
      FirstSound(d, rules, p2, follow, s, i, fuel);
    case Seq(p1, p2) =>
      if !Nullable(d, rules, p1) {
        FirstSound(d, rules, p1, FULL, s, i, fuel);
        assert s[i] in FULL;
      } else {
        var f2 := GetFirst(d, rules, p2, follow);
        FirstSound(d, rules, p1, f2.cs, s, i, fuel);
        var r := Match(rules, p1, s, i, fuel);
        if r.Some? && r.value.Ok? {
          FirstSound(d, rules, p2, follow, s, i, fuel);
        }
      }
    case Rep(p) => FirstSound(d, rules, p, follow, s, i, fuel);
    case And(p) =>
      if s[i] !in GetFirst(d, rules, p, follow).cs {
        FirstSound(d, rules, p, follow, s, i, fuel);
      }
    case Call(n) =>
      assert s[i] in FULL;
      if fuel > 0 {
        FirstSound(d - 1, rules, rules[n], follow, s, i, fuel - 1);
      }
    case Grammar(rs) => FirstSound(d, rs, rs[0], follow, s, i, fuel);
    case _ =>
  }

  /** When `getfirst` does not report that the empty subject may be accepted, the pattern fails at the end. */
  lemma {:induction false} FirstEmptySound(d: nat, rules: seq<Tree>, t: Tree, follow: set<Byte>, s: seq<Byte>, fuel: nat)
    requires !GetFirst(d, rules, t, follow).empty
    ensures var r := Match(rules, t, s, |s|, fuel); r.Some? ==> r.value.Fail?
    decreases fuel, t
  {
    match t
    case Choice(p1, p2) =>
      FirstEmptySound(d, rules, p1, follow, s, fuel);
      FirstEmptySound(d, rules, p2, follow, s, fuel);
    case Seq(p1, p2) =>
      if !Nullable(d, rules, p1) {
        FirstEmptySound(d, rules, p1, FULL, s, fuel);
      } else {
        var f2 := GetFirst(d, rules, p2, follow);
        if GetFirst(d, rules, p1, f2.cs).empty {
          FirstEmptySound(d, rules, p2, follow, s, fuel);
        } else {
          FirstEmptySound(d, rules, p1, f2.cs, s, fuel);
        }
      }
    case And(p) => FirstEmptySound(d, rules, p, follow, s, fuel);
    case Call(n) =>
      if fuel > 0 {
        FirstEmptySound(d - 1, rules, rules[n], follow, s, fuel - 1);
      }
    case Grammar(rs) => FirstEmptySound(d, rs, rs[0], follow, s, fuel);
    case _ =>
  }

  /** A pattern that cannot fail puts no constraint on the next character. */
  lemma {:induction false} NoFailFirstFull(d: nat, rules: seq<Tree>, t: Tree)
    requires NoFail(d, rules, t)
    ensures GetFirst(d, rules, t, FULL).cs == FULL
    decreases d, t
  {
    match t
    case And(p) => NoFailFirstFull(d, rules, p);
    case Seq(p1, p2) =>
      NoFailFirstFull(d, rules, p1);
      NoFailFirstFull(d, rules, p2);
    case Choice(p1, p2) =>
      if NoFail(d, rules, p2) {
        NoFailFirstFull(d, rules, p2);
      } else {
        NoFailFirstFull(d, rules, p1);
      }
    case Call(n) => NoFailFirstFull(d - 1, rules, rules[n]);
    case Grammar(rs) => NoFailFirstFull(d, rs, rs[0]);
    case _ =>
  }

  /** A head-fail pattern never reports that it accepts the empty subject. */
  lemma {:induction false} HeadFailNotEmpty(d: nat, rules: seq<Tree>, t: Tree, follow: set<Byte>)
    requires HeadFail(d, rules, t)
    ensures !GetFirst(d, rules, t, follow).empty
    decreases d, t
  {
    match t
    case And(p) => HeadFailNotEmpty(d, rules, p, follow);
    case Seq(p1, p2) =>
      HeadFailNotEmpty(d, rules, p1, FULL);
      HeadFailNotEmpty(d, rules, p1, GetFirst(d, rules, p2, follow).cs);
    case Choice(p1, p2) =>
      HeadFailNotEmpty(d, rules, p1, follow);
      HeadFailNotEmpty(d, rules, p2, follow);
    case Call(n) => HeadFailNotEmpty(d - 1, rules, rules[n], follow);
    case Grammar(rs) => HeadFailNotEmpty(d, rs, rs[0], follow);
    case _ =>
  }

  /** A head-fail pattern is decided by the next character: it does not fail on a character of its first set. */
  lemma {:induction false} HeadFailSound(d: nat, rules: seq<Tree>, t: Tree, s: seq<Byte>, i: nat, fuel: nat)
    requires i < |s|
    requires HeadFail(d, rules, t)
    requires s[i] in GetFirst(d, rules, t, FULL).cs
    ensures Match(rules, t, s, i, fuel) != Some(Fail)
    decreases fuel, t
  {
    match t
    case And(p) => HeadFailSound(d, rules, p, s, i, fuel);
    case Seq(p1, p2) =>
      NoFailFirstFull(d, rules, p2);
      HeadFailSound(d, rules, p1, s, i, fuel);
      var r := Match(rules, p1, s, i, fuel);
      if r.Some? && r.value.Ok? {
        NoFailSound(d, rules, p2, s, r.value.pos, fuel);
      }
    case Choice(p1, p2) =>
      if s[i] in GetFirst(d, rules, p1, FULL).cs {
        HeadFailSound(d, rules, p1, s, i, fuel);
      } else {
        HeadFailSound(d, rules, p2, s, i, fuel);
      }
    case Call(n) =>
      if fuel > 0 {
        HeadFailSound(d - 1, rules, rules[n], s, i, fuel - 1);
      }
    case Grammar(rs) => HeadFailSound(d, rs, rs[0], s, i, fuel);
    case _ =>
  }

  /** Exact form of the head test: for a head-fail pattern that has a result, it matches if and only if there is a
      next character and it lies in the first set. */
  lemma HeadFailExact(d: nat, rules: seq<Tree>, t: Tree, s: seq<Byte>, i: nat, fuel: nat)
    requires i <= |s|
    requires HeadFail(d, rules, t)
    requires Match(rules, t, s, i, fuel).Some?
    ensures Match(rules, t, s, i, fuel).value.Ok? <==> i < |s| && s[i] in GetFirst(d, rules, t, FULL).cs
  {
    if i == |s| {
      HeadFailNotEmpty(d, rules, t, FULL);
      FirstEmptySound(d, rules, t, FULL, s, fuel);
    } else if s[i] in GetFirst(d, rules, t, FULL).cs {
      HeadFailSound(d, rules, t, s, i, fuel);
    } else {
      FirstSound(d, rules, t, FULL, s, i, fuel);
      assert s[i] in FULL;
    }
  }
}
