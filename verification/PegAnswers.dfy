/** Where the analyses of lpcode.c end. `checkaux`, `getfirst` and `headfail` follow calls without a bound, and need not
    come back from a grammar that calls itself before anything is consumed. `fixedlen` marks the calls that it is in, and
    answers -1 where it comes to one of them again.

    In PegAnalysis every analysis follows `d` nested calls at most. What an analysis answers without being stopped by that
    bound does not depend on it; and a bound of the size of the grammars stops only what would not end without one. */
module PegAnswers {
  import opened Peg
  import opened PegAnalysis

  datatype Question = Nullability | NoFailure | FirstSet | HeadFailure | FixedLength

  /** The analysis comes to its end without being stopped: it meets no call with `d` calls around it. For the length, which
      is found in every case, it means that there is one. */
  predicate Answers(q: Question, d: nat, rules: seq<Tree>, t: Tree)
    decreases d, t
  {
    match t
    case Call(n) => d > 0 && n < |rules| && Answers(q, d - 1, rules, rules[n])
    case Grammar(rs) => |rs| > 0 && Answers(q, d, rs, rs[0])
    case Rep(p) => !q.FixedLength? && (q.FirstSet? ==> Answers(q, d, rules, p))
    case Not(p) => q.FirstSet? && ToCharset(p).None? ==> Answers(q, d, rules, p)
    case Behind(_, p) => q.FirstSet? ==> Answers(q, d, rules, p)
    case And(p) => q.Nullability? || q.FixedLength? || Answers(q, d, rules, p)
    case Seq(p1, p2) => (
      match q
      case Nullability => Answers(q, d, rules, p1) && (Nullable(d, rules, p1) ==> Answers(q, d, rules, p2))
      case NoFailure => Answers(q, d, rules, p1) && (NoFail(d, rules, p1) ==> Answers(q, d, rules, p2))
      case FirstSet =>
        && Answers(Nullability, d, rules, p1) && Answers(q, d, rules, p1)
        && (Nullable(d, rules, p1) ==> Answers(q, d, rules, p2))
      case HeadFailure => Answers(NoFailure, d, rules, p2) && (NoFail(d, rules, p2) ==> Answers(q, d, rules, p1))
      case FixedLength => Answers(q, d, rules, p1) && Answers(q, d, rules, p2))
    case Choice(p1, p2) => (
      match q
      case Nullability => Answers(q, d, rules, p2) && (!Nullable(d, rules, p2) ==> Answers(q, d, rules, p1))
      case NoFailure => Answers(q, d, rules, p2) && (!NoFail(d, rules, p2) ==> Answers(q, d, rules, p1))
      case FirstSet => Answers(q, d, rules, p1) && Answers(q, d, rules, p2)
      case HeadFailure => Answers(q, d, rules, p1) && (HeadFail(d, rules, p1) ==> Answers(q, d, rules, p2))
      case FixedLength =>
        Answers(q, d, rules, p1) && Answers(q, d, rules, p2) && FixedLen(d, rules, p1) == FixedLen(d, rules, p2))
    case _ => true
  }

  lemma {:induction false} LengthAnswers(d: nat, rules: seq<Tree>, t: Tree)
    ensures Answers(FixedLength, d, rules, t) <==> FixedLen(d, rules, t) >= 0
    decreases d, t
  {
    match t
    case Call(n) => if d > 0 && n < |rules| { LengthAnswers(d - 1, rules, rules[n]); }
    case Grammar(rs) => if |rs| > 0 { LengthAnswers(d, rs, rs[0]); }
    case Seq(p1, p2) => LengthAnswers(d, rules, p1); LengthAnswers(d, rules, p2);
    case Choice(p1, p2) => LengthAnswers(d, rules, p1); LengthAnswers(d, rules, p2);
    case _ =>
  }

  // ---- An answer does not depend on the bound ---------------------------------------------------------------------

  /** Two bounds give the same answer, for every follow set. */
  ghost predicate Agree(q: Question, d: nat, more: nat, rules: seq<Tree>, t: Tree) {
    match q
    case Nullability => Nullable(more, rules, t) == Nullable(d, rules, t)
    case NoFailure => NoFail(more, rules, t) == NoFail(d, rules, t)
    case FirstSet => forall follow :: GetFirst(more, rules, t, follow) == GetFirst(d, rules, t, follow)
    case HeadFailure => HeadFail(more, rules, t) == HeadFail(d, rules, t)
    case FixedLength => FixedLen(more, rules, t) == FixedLen(d, rules, t)
  }

  /** What is answered within a bound is answered in the same way within every larger one. */
  lemma {:induction false} AnswersMore(q: Question, d: nat, more: nat, rules: seq<Tree>, t: Tree)
    requires d <= more && Answers(q, d, rules, t)
    ensures Answers(q, more, rules, t) && Agree(q, d, more, rules, t)
    decreases d, t
  {
    match t
    case Call(n) => AnswersMore(q, d - 1, more - 1, rules, rules[n]);
    case Grammar(rs) => AnswersMore(q, d, more, rs, rs[0]);
    case Rep(p) => if q.FirstSet? { AnswersMore(q, d, more, rules, p); }
    case Not(p) => if q.FirstSet? && ToCharset(p).None? { AnswersMore(q, d, more, rules, p); }
    case Behind(_, p) => if q.FirstSet? { AnswersMore(q, d, more, rules, p); }
    case And(p) => if !q.Nullability? && !q.FixedLength? { AnswersMore(q, d, more, rules, p); }
    case Seq(p1, p2) =>
      if q.FirstSet? {
        AnswersMore(Nullability, d, more, rules, p1);
      }
      if q.HeadFailure? {
        AnswersMore(NoFailure, d, more, rules, p2);
      } else {
        AnswersMore(q, d, more, rules, p1);
      }
      if q.HeadFailure? && NoFail(d, rules, p2) {
        AnswersMore(q, d, more, rules, p1);
      }
      if !q.HeadFailure? && Answers(q, d, rules, p2) {
        AnswersMore(q, d, more, rules, p2);
      }
      LengthAnswers(d, rules, p1);
      LengthAnswers(d, rules, p2);
    case Choice(p1, p2) =>
      if Answers(q, d, rules, p1) {
        AnswersMore(q, d, more, rules, p1);
      }
      if Answers(q, d, rules, p2) {
        AnswersMore(q, d, more, rules, p2);
      }
    case _ =>
  }

  // ---- A bound that is large enough -------------------------------------------------------------------------------

  /** How many nested calls are as good as any number: five for each rule, for the five questions that can be asked of it,
      in the grammars one inside the other */
  function Bound(t: Tree): nat
    decreases t, 0
  {
    match t
    case Rep(p) => Bound(p)
    case Seq(p1, p2) => Max(Bound(p1), Bound(p2))
    case Choice(p1, p2) => Max(Bound(p1), Bound(p2))
    case Not(p) => Bound(p)
    case And(p) => Bound(p)
    case Behind(_, p) => Bound(p)
    case Grammar(rs) => BoundOf(rs, |rs|) + 5 * |rs| + 1
    case _ => 0
  }

  function BoundOf(rs: seq<Tree>, n: nat): (b: nat)
    requires n <= |rs|
    ensures forall k :: 0 <= k < n ==> Bound(rs[k]) <= b
    decreases rs, n
  {
    if n == 0 then 0 else Max(Bound(rs[n - 1]), BoundOf(rs, n - 1))
  }

  function Max(a: nat, b: nat): nat { if a < b then b else a }

  /** The bound is large enough for a pattern over these rules. */
  predicate Ample(d: nat, rules: seq<Tree>, t: Tree) {
    d > BoundOf(rules, |rules|) + 5 * |rules| && d >= Bound(t)
  }

  /** One call more gives the rules no more answers. */
  ghost predicate Stable(d: nat, rules: seq<Tree>) {
    forall q, n :: 0 <= n < |rules| && Answers(q, d + 1, rules, rules[n]) ==> Answers(q, d, rules, rules[n])
  }

  lemma {:induction false} StableStep(q: Question, d: nat, rules: seq<Tree>, t: Tree)
    requires Stable(d, rules) && d + 1 >= Bound(t)
    ensures Answers(q, d + 2, rules, t) ==> Answers(q, d + 1, rules, t) && Agree(q, d + 1, d + 2, rules, t)
    decreases t, 0
  {
    hide Nullable, NoFail, HeadFail, FixedLen, GetFirst;
    match t {
      case Grammar(rs) => AllStable(d + 1, rs);
      case Rep(p) => StableStep(q, d, rules, p);
      case Not(p) => StableStep(q, d, rules, p);
      case Behind(_, p) => StableStep(q, d, rules, p);
      case And(p) => StableStep(q, d, rules, p);
      case Seq(p1, p2) =>
        StableStep(q, d, rules, p1);
        StableStep(q, d, rules, p2);
        StableStep(Nullability, d, rules, p1);
        StableStep(NoFailure, d, rules, p2);
      case Choice(p1, p2) =>
        StableStep(q, d, rules, p1);
        StableStep(q, d, rules, p2);
      case _ =>
    }
    if Answers(q, d + 1, rules, t) {
      AnswersMore(q, d + 1, d + 2, rules, t);
    }
  }

  function Asked(m: nat): Question {
    if m % 5 == 0 then Nullability else if m % 5 == 1 then NoFailure else if m % 5 == 2 then FirstSet
    else if m % 5 == 3 then HeadFailure else FixedLength
  }

  function Number(q: Question): (r: nat)
    ensures r < 5 && Asked(r) == q
  {
    match q case Nullability => 0 case NoFailure => 1 case FirstSet => 2 case HeadFailure => 3 case FixedLength => 4
  }

  /** The questions that are answered of the rules, numbered */
  function Answered(d: nat, rules: seq<Tree>): set<nat> {
    set m: nat | m < 5 * |rules| && Answers(Asked(m), d, rules, rules[m / 5])
  }

  function Numbers(n: nat): (r: set<nat>)
    ensures |r| == n && forall m: nat :: m in r <==> m < n
  {
    if n == 0 then {} else
    var below := Numbers(n - 1);
    assert n - 1 !in below;
    below + {n - 1}
  }

  lemma PartSmaller(a: set<nat>, b: set<nat>)
    requires a <= b
    ensures |a| <= |b| && (a == b || |a| < |b|)
  {
    assert b == a + (b - a);
    if a != b {
      var x :| x in b - a;
    }
  }

  lemma AnsweredMore(d: nat, rules: seq<Tree>)
    ensures Answered(d, rules) <= Answered(d + 1, rules) <= Numbers(5 * |rules|)
    ensures Answered(d, rules) == Answered(d + 1, rules) ==> Stable(d, rules)
  {
    forall m | m in Answered(d, rules) ensures m in Answered(d + 1, rules) {
      AnswersMore(Asked(m), d, d + 1, rules, rules[m / 5]);
    }
    if Answered(d, rules) == Answered(d + 1, rules) {
      forall q, n | 0 <= n < |rules| && Answers(q, d + 1, rules, rules[n]) ensures Answers(q, d, rules, rules[n]) {
        var m := 5 * n + Number(q);
        assert m / 5 == n && m % 5 == Number(q);
        assert m in Answered(d + 1, rules);
      }
    }
  }

  /** As long as the answers are not stable, each call more gives one at least. */
  lemma {:induction false} Growing(rules: seq<Tree>, j: nat)
    ensures Stable(BoundOf(rules, |rules|) + j, rules) || |Answered(BoundOf(rules, |rules|) + j, rules)| >= j
    ensures j >= 5 * |rules| ==> Stable(BoundOf(rules, |rules|) + j, rules)
    decreases rules, j
  {
    hide Stable, Answered, Answers, Numbers, Bound;
    var d := BoundOf(rules, |rules|) + j;
    AnsweredMore(d, rules);
    if j > 0 {
      Growing(rules, j - 1);
      if Stable(d - 1, rules) {
        StaysStable(d - 1, rules);
      } else {
        AnsweredMore(d - 1, rules);
        PartSmaller(Answered(d - 1, rules), Answered(d, rules));
      }
    }
    PartSmaller(Answered(d, rules), Answered(d + 1, rules));
    PartSmaller(Answered(d + 1, rules), Numbers(5 * |rules|));
  }

  lemma {:induction false} StaysStable(d: nat, rules: seq<Tree>)
    requires Stable(d, rules) && d >= BoundOf(rules, |rules|)
    ensures Stable(d + 1, rules)
    decreases rules, 0
  {
    var next := d + 1;
    forall q, n | 0 <= n < |rules| && Answers(q, next + 1, rules, rules[n]) ensures Answers(q, next, rules, rules[n]) {
      StableStep(q, d, rules, rules[n]);
    }
  }

  lemma {:induction false} AllStable(d: nat, rules: seq<Tree>)
    requires d >= BoundOf(rules, |rules|) + 5 * |rules|
    ensures Stable(d, rules)
    decreases rules, d + 1
  {
    Growing(rules, d - BoundOf(rules, |rules|));
  }

  /** A question that is answered within any bound is answered within an ample one. */
  lemma {:induction false} AnswersSettled(q: Question, d: nat, more: nat, rules: seq<Tree>, t: Tree)
    requires Ample(d, rules, t) && Answers(q, more, rules, t)
    ensures Answers(q, d, rules, t) && Agree(q, d, more, rules, t)
    decreases more
  {
    if more > d {
      AllStable(more - 2, rules);
      StableStep(q, more - 2, rules, t);
      AnswersSettled(q, d, more - 1, rules, t);
      AnswersMore(q, d, more, rules, t);
    } else {
      AnswersMore(q, more, d, rules, t);
    }
  }

  /** An ample bound is as good as any other: the same questions are answered, in the same way; and the length is the same,
      also where there is none. */
  lemma AmpleAlike(q: Question, d: nat, more: nat, rules: seq<Tree>, t: Tree)
    requires Ample(d, rules, t) && Ample(more, rules, t)
    ensures Answers(q, d, rules, t) <==> Answers(q, more, rules, t)
    ensures Answers(q, d, rules, t) ==> Agree(q, d, more, rules, t)
    ensures FixedLen(d, rules, t) == FixedLen(more, rules, t)
  {
    forall q | q == q ensures Answers(q, d, rules, t) <==> Answers(q, more, rules, t)
                      ensures Answers(q, d, rules, t) ==> Agree(q, d, more, rules, t) {
      if Answers(q, d, rules, t) {
        AnswersSettled(q, more, d, rules, t);
        AnswersSettled(q, d, more, rules, t);
      } else if Answers(q, more, rules, t) {
        AnswersSettled(q, d, more, rules, t);
      }
    }
    LengthAnswers(d, rules, t);
    LengthAnswers(more, rules, t);
    assert Answers(FixedLength, d, rules, t) ==> Agree(FixedLength, d, more, rules, t);
  }

  // ---- The marks of `fixedlen` ------------------------------------------------------------------------------------

  /** `fixedlen` as it is, without a bound: a call to a rule that is being measured already has no length. */
  function MarkedLen(rules: seq<Tree>, t: Tree, marked: set<nat>): (r: int)
    ensures r >= -1
    decreases Max(BoundOf(rules, |rules|), Bound(t)), Numbers(|rules|) - marked, t
  {
    match t
    case Char(_) | CSet(_) | Any => 1
    case False | True | Not(_) | And(_) | Behind(_, _) => 0
    case Rep(_) => -1
    case Seq(p1, p2) =>
      var n1 := MarkedLen(rules, p1, marked);
      if n1 < 0 then -1 else
      var n2 := MarkedLen(rules, p2, marked);
      if n2 < 0 then -1 else n1 + n2
    case Choice(p1, p2) =>
      var n1 := MarkedLen(rules, p1, marked);
      var n2 := MarkedLen(rules, p2, marked);
      if n1 != n2 || n1 < 0 then -1 else n1
    case Call(n) =>
      if n >= |rules| || n in marked then -1 else
      assert n in Numbers(|rules|) - marked;
      MarkedLen(rules, rules[n], marked + {n})
    case Grammar(rs) => if |rs| == 0 then -1 else MarkedLen(rs, rs[0], {})
  }

  lemma LengthFewer(d: nat, rules: seq<Tree>, n: nat)
    requires n < |rules| && d > BoundOf(rules, |rules|) + 5 * |rules| && FixedLen(d, rules, rules[n]) >= 0
    ensures FixedLen(d - 1, rules, rules[n]) == FixedLen(d, rules, rules[n])
  {
    LengthAnswers(d, rules, rules[n]);
    AllStable(d - 1, rules);
    AnswersMore(FixedLength, d - 1, d, rules, rules[n]);
  }

  lemma {:induction false} MarkedFound(d: nat, rules: seq<Tree>, t: Tree, marked: set<nat>)
    requires Ample(d, rules, t) && MarkedLen(rules, t, marked) >= 0
    ensures FixedLen(d, rules, t) == MarkedLen(rules, t, marked)
    decreases Max(BoundOf(rules, |rules|), Bound(t)), Numbers(|rules|) - marked, t
  {
    match t
    case Seq(p1, p2) => MarkedFound(d, rules, p1, marked); MarkedFound(d, rules, p2, marked);
    case Choice(p1, p2) => MarkedFound(d, rules, p1, marked); MarkedFound(d, rules, p2, marked);
    case Call(n) =>
      assert n in Numbers(|rules|) - marked;
      MarkedFound(d, rules, rules[n], marked + {n});
      LengthFewer(d, rules, n);
    case Grammar(rs) => MarkedFound(d, rs, rs[0], {});
    case _ =>
  }

  /** The fewest calls within which rule `n` has a length */
  function Fewest(rules: seq<Tree>, n: nat, e: nat): (r: nat)
    requires n < |rules| && FixedLen(e, rules, rules[n]) >= 0
    ensures r <= e && FixedLen(r, rules, rules[n]) >= 0 && (r > 0 ==> FixedLen(r - 1, rules, rules[n]) < 0)
  {
    if e > 0 && FixedLen(e - 1, rules, rules[n]) >= 0 then Fewest(rules, n, e - 1) else e
  }

  lemma LengthMore(e: nat, more: nat, rules: seq<Tree>, t: Tree)
    requires e <= more && FixedLen(e, rules, t) >= 0
    ensures FixedLen(more, rules, t) == FixedLen(e, rules, t)
  {
    LengthAnswers(e, rules, t);
    AnswersMore(FixedLength, e, more, rules, t);
  }

  lemma {:induction false} LengthMarked(e: nat, rules: seq<Tree>, t: Tree, marked: set<nat>)
    requires FixedLen(e, rules, t) >= 0
    requires e > 0 ==> forall m :: m in marked && m < |rules| ==> FixedLen(e - 1, rules, rules[m]) < 0
    ensures MarkedLen(rules, t, marked) == FixedLen(e, rules, t)
    decreases e, t
  {
    match t
    case Seq(p1, p2) => LengthMarked(e, rules, p1, marked); LengthMarked(e, rules, p2, marked);
    case Choice(p1, p2) => LengthMarked(e, rules, p1, marked); LengthMarked(e, rules, p2, marked);
    case Call(n) =>
      var f := Fewest(rules, n, e - 1);
      forall m | f > 0 && m in marked && m < |rules| ensures FixedLen(f - 1, rules, rules[m]) < 0 {
        if FixedLen(f - 1, rules, rules[m]) >= 0 {
          LengthMore(f - 1, e - 1, rules, rules[m]);
        }
      }
      LengthMarked(f, rules, rules[n], marked + {n});
      LengthMore(f, e - 1, rules, rules[n]);
    case Grammar(rs) => LengthMarked(e, rs, rs[0], {});
    case _ =>
  }

  /** With an ample bound, the length is what the marks make of it. */
  lemma FixedLenMarked(d: nat, rules: seq<Tree>, t: Tree)
    requires Ample(d, rules, t)
    ensures FixedLen(d, rules, t) == MarkedLen(rules, t, {})
  {
    if MarkedLen(rules, t, {}) >= 0 {
      MarkedFound(d, rules, t, {});
    } else if FixedLen(d, rules, t) >= 0 {
      LengthMarked(d, rules, t, {});
    }
  }
}
