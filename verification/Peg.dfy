/** Pattern trees and the matching relation they stand for (lptree.h, lptypes.h).

    A tree is closed under the rules of the grammar around it: `Call(n)` is a reference to rule `n` of the
    innermost enclosing `Grammar`, which is what a call points at once its grammar has been built. Captures are not
    part of these trees. */
module Peg {
  type Byte = b: int | 0 <= b < 256

  datatype Option<+T> = None | Some(value: T)

  const FULL: set<Byte> := set b: Byte | 0 <= b < 256 :: b

  datatype Tree =
    | Char(c: Byte)
    | CSet(cs: set<Byte>)
    | Any
    | True
    | False
    | Rep(body: Tree)
    | Seq(first: Tree, second: Tree)
    | Choice(left: Tree, right: Tree)
    | Not(body: Tree)
    | And(body: Tree)
    | Behind(n: nat, body: Tree)
    | Call(rule: nat)
    | Grammar(rules: seq<Tree>)

  /** The outcome of matching at a position: a failure, or the position after the match. */
  datatype Result = Fail | Ok(pos: nat)

  /** The characters a one-character pattern accepts (`tocharset`). */
  function ToCharset(t: Tree): Option<set<Byte>> {
    match t
    case Char(c) => Some({c})
    case CSet(cs) => Some(cs)
    case Any => Some(FULL)
    case _ => None
  }

  function MatchOne(cs: set<Byte>, s: seq<Byte>, i: nat): (r: Result) {
    if i < |s| && s[i] in cs then Ok(i + 1) else Fail
  }

  /** Recursive matching of `t` at position `i` of `s`, inside the grammar `rules`. The result is `None` when `fuel`
      nested calls are not enough, or when a repetition would go round without consuming anything; a pattern
      that has no result for any fuel does not terminate. */
  function Match(rules: seq<Tree>, t: Tree, s: seq<Byte>, i: nat, fuel: nat): (r: Option<Result>)
    requires i <= |s|
    ensures r.Some? && r.value.Ok? ==> i <= r.value.pos <= |s|
    decreases fuel, t, |s| - i
  {
    match t
    case Char(c) => Some(MatchOne({c}, s, i))
    case CSet(cs) => Some(MatchOne(cs, s, i))
    case Any => Some(MatchOne(FULL, s, i))
    case True => Some(Ok(i))
    case False => Some(Fail)
    case Rep(p) =>
      (match Match(rules, p, s, i, fuel)
       case None => None
       case Some(Fail) => Some(Ok(i))
       case Some(Ok(j)) => if j > i then Match(rules, t, s, j, fuel) else None)
    case Seq(p1, p2) =>
      (match Match(rules, p1, s, i, fuel)
       case Some(Ok(j)) => Match(rules, p2, s, j, fuel)
       case other => other)
    case Choice(p1, p2) =>
      (match Match(rules, p1, s, i, fuel)
       case Some(Fail) => Match(rules, p2, s, i, fuel)
       case other => other)
    case Not(p) =>
      (match Match(rules, p, s, i, fuel)
       case None => None
       case Some(Fail) => Some(Ok(i))
       case Some(Ok(_)) => Some(Fail))
    case And(p) =>
      (match Match(rules, p, s, i, fuel)
       case Some(Ok(_)) => Some(Ok(i))
       case other => other)
    case Behind(n, p) =>
      if n > i then Some(Fail) else
      (match Match(rules, p, s, i - n, fuel)
       case Some(Ok(_)) => Some(Ok(i))
       case other => other)
    case Call(n) =>
      if n < |rules| && fuel > 0 then Match(rules, rules[n], s, i, fuel - 1) else None
    case Grammar(rs) =>
      if |rs| > 0 then Match(rs, rs[0], s, i, fuel) else None
  }

  /** More fuel never changes a result. */
  lemma {:induction false} MatchMonotone(rules: seq<Tree>, t: Tree, s: seq<Byte>, i: nat, fuel: nat, more: nat)
    requires i <= |s| && fuel <= more
    requires Match(rules, t, s, i, fuel).Some?
    ensures Match(rules, t, s, i, more) == Match(rules, t, s, i, fuel)
    decreases fuel, t, |s| - i
  {
    match t
    case Rep(p) =>
      MatchMonotone(rules, p, s, i, fuel, more);
      var r := Match(rules, p, s, i, fuel);
      if r.value.Ok? && r.value.pos > i {
        MatchMonotone(rules, t, s, r.value.pos, fuel, more);
      }
    case Seq(p1, p2) =>
      MatchMonotone(rules, p1, s, i, fuel, more);
      var r := Match(rules, p1, s, i, fuel);
      if r.value.Ok? {
        MatchMonotone(rules, p2, s, r.value.pos, fuel, more);
      }
    case Choice(p1, p2) =>
      MatchMonotone(rules, p1, s, i, fuel, more);
      if Match(rules, p1, s, i, fuel).value.Fail? {
        MatchMonotone(rules, p2, s, i, fuel, more);
      }
    case Not(p) => MatchMonotone(rules, p, s, i, fuel, more);
    case And(p) => MatchMonotone(rules, p, s, i, fuel, more);
    case Behind(n, p) =>
      if n <= i {
        MatchMonotone(rules, p, s, i - n, fuel, more);
      }
    case Call(n) => MatchMonotone(rules, rules[n], s, i, fuel - 1, more - 1);
    case Grammar(rs) => MatchMonotone(rs, rs[0], s, i, fuel, more);
    case _ =>
  }
}
