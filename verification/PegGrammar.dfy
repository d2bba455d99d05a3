/** The check that `verifygrammar` of lptree.c makes of a grammar, and what it is for: matching an accepted grammar
    terminates. */
module PegGrammar {
  import opened Peg
  import opened PegAnalysis
  import opened PegAnswers

  const MAXRULES := 250

  /** The answer of `verifyrule`: an error, or whether the pattern is nullable. */
  datatype Verdict = LeftRecursive | Passed(nullable: bool)

  /** `verifyrule`: follow everything that can run before any character is consumed. `npassed` rules have been entered
      so far; `nb` accumulates the answer.

      The original answers for a sub-grammar without looking at `nb`, and does not look into a look-behind. With `fixed`,
      the answer takes the accumulator into account there as everywhere else, and look-behinds are followed as the other
      predicates are; the original is `fixed == false`. */
  function VerifyRule(fixed: bool, d: nat, rules: seq<Tree>, t: Tree, npassed: nat, nb: bool): Verdict
    requires npassed <= MAXRULES
    decreases MAXRULES - npassed, t
  {
    match t
    case Char(_) | CSet(_) | Any | False => Passed(nb)
    case True => Passed(true)
    case Behind(_, p) => if fixed then VerifyRule(fixed, d, rules, p, npassed, true) else Passed(true)
    case Not(p) => VerifyRule(fixed, d, rules, p, npassed, true)
    case And(p) => VerifyRule(fixed, d, rules, p, npassed, true)
    case Rep(p) => VerifyRule(fixed, d, rules, p, npassed, true)
    case Call(n) =>
      if npassed >= MAXRULES || n >= |rules| then LeftRecursive
      else VerifyRule(fixed, d, rules, rules[n], npassed + 1, nb)
    case Seq(p1, p2) =>
      (match VerifyRule(fixed, d, rules, p1, npassed, false)
       case LeftRecursive => LeftRecursive
       case Passed(false) => Passed(nb)
       case Passed(true) => VerifyRule(fixed, d, rules, p2, npassed, nb))
    case Choice(p1, p2) =>
      (match VerifyRule(fixed, d, rules, p1, npassed, nb)
       case LeftRecursive => LeftRecursive
       case Passed(nb1) => VerifyRule(fixed, d, rules, p2, npassed, nb1))
    case Grammar(_) => Passed((fixed && nb) || Nullable(d, rules, t))
  }

  /** `checkloops`: a repetition whose body may match the empty string, outside sub-grammars */
  function CheckLoops(d: nat, rules: seq<Tree>, t: Tree): bool
    decreases t
  {
    match t
    case Rep(p) => Nullable(d, rules, p) || CheckLoops(d, rules, p)
    case Seq(p1, p2) => CheckLoops(d, rules, p1) || CheckLoops(d, rules, p2)
    case Choice(p1, p2) => CheckLoops(d, rules, p1) || CheckLoops(d, rules, p2)
    case Not(p) => CheckLoops(d, rules, p)
    case And(p) => CheckLoops(d, rules, p)
    case Behind(_, p) => CheckLoops(d, rules, p)
    case _ => false
  }

  /** The rules that a pattern calls */
  function Calls(t: Tree): set<nat> {
    match t
    case Call(n) => {n}
    case Rep(p) => Calls(p)
    case Seq(p1, p2) => Calls(p1) + Calls(p2)
    case Choice(p1, p2) => Calls(p1) + Calls(p2)
    case Not(p) => Calls(p)
    case And(p) => Calls(p)
    case Behind(_, p) => Calls(p)
    case _ => {}
  }

  /** A rule has a key once some rule calls it; the initial rule always gets one. Other rules are skipped. */
  predicate Used(rules: seq<Tree>, k: nat) {
    k == 0 || exists j :: 0 <= j < |rules| && k in Calls(rules[j])
  }

  /** The rules that a pattern calls inside look-behinds */
  function BehindCalls(t: Tree): set<nat> {
    match t
    case Rep(p) => BehindCalls(p)
    case Seq(p1, p2) => BehindCalls(p1) + BehindCalls(p2)
    case Choice(p1, p2) => BehindCalls(p1) + BehindCalls(p2)
    case Not(p) => BehindCalls(p)
    case And(p) => BehindCalls(p)
    case Behind(_, p) => Calls(p)
    case _ => {}
  }

  ghost predicate ReachesIn(rules: seq<Tree>, a: nat, b: nat, n: nat)
    decreases n
  {
    a == b || (n > 0 && a < |rules| && exists m :: m in Calls(rules[a]) && ReachesIn(rules, m, b, n - 1))
  }

  /** Rule `a` is rule `b`, or calls it, directly or through other rules. */
  ghost predicate Reaches(rules: seq<Tree>, a: nat, b: nat) {
    exists n: nat :: ReachesIn(rules, a, b, n)
  }

  /** A look-behind in rule `k` calls a rule that leads back to `k`. The position goes back there, so that such a circle of
      calls need not be left recursive to be endless. */
  ghost predicate CallsBack(rules: seq<Tree>, k: nat)
    requires k < |rules|
  {
    exists n :: n in BehindCalls(rules[k]) && Reaches(rules, n, k)
  }

  /** Rule `k` passes; with `fixed`, also its look-behinds must not call back. */
  ghost predicate RuleAccepted(fixed: bool, d: nat, rules: seq<Tree>, k: nat)
    requires k < |rules|
  {
    && VerifyRule(fixed, d, rules, rules[k], 0, false).Passed? && !CheckLoops(d, rules, rules[k])
    && (fixed ==> !CallsBack(rules, k))
  }

  ghost predicate Accepts(fixed: bool, d: nat, rules: seq<Tree>) {
    forall k :: 0 <= k < |rules| && Used(rules, k) ==> RuleAccepted(fixed, d, rules, k)
  }

  /** The analyses that `verifyrule` asks for come to an end. */
  predicate RuleAnswers(d: nat, rules: seq<Tree>, t: Tree, npassed: nat, nb: bool)
    requires npassed <= MAXRULES
    decreases MAXRULES - npassed, t
  {
    match t
    case Not(p) => RuleAnswers(d, rules, p, npassed, true)
    case And(p) => RuleAnswers(d, rules, p, npassed, true)
    case Rep(p) => RuleAnswers(d, rules, p, npassed, true)
    case Call(n) => npassed < MAXRULES && n < |rules| ==> RuleAnswers(d, rules, rules[n], npassed + 1, nb)
    case Seq(p1, p2) =>
      && RuleAnswers(d, rules, p1, npassed, false)
      && (VerifyRule(false, d, rules, p1, npassed, false) == Passed(true) ==> RuleAnswers(d, rules, p2, npassed, nb))
    case Choice(p1, p2) =>
      && RuleAnswers(d, rules, p1, npassed, nb)
      && var v := VerifyRule(false, d, rules, p1, npassed, nb); v.Passed? ==> RuleAnswers(d, rules, p2, npassed, v.nullable)
    case Grammar(_) => Answers(Nullability, d, rules, t)
    case _ => true
  }

  /** Those that `checkloops` asks for */
  predicate LoopsAnswer(d: nat, rules: seq<Tree>, t: Tree)
    decreases t
  {
    match t
    case Rep(p) => Answers(Nullability, d, rules, p) && (Nullable(d, rules, p) || LoopsAnswer(d, rules, p))
    case Seq(p1, p2) => LoopsAnswer(d, rules, p1) && (CheckLoops(d, rules, p1) || LoopsAnswer(d, rules, p2))
    case Choice(p1, p2) => LoopsAnswer(d, rules, p1) && (CheckLoops(d, rules, p1) || LoopsAnswer(d, rules, p2))
    case Not(p) => LoopsAnswer(d, rules, p)
    case And(p) => LoopsAnswer(d, rules, p)
    case Behind(_, p) => LoopsAnswer(d, rules, p)
    case _ => true
  }

  /** No used rule before `n` is left recursive, as far as the check sees. */
  predicate NoneLeft(d: nat, rules: seq<Tree>, n: nat)
    requires n <= |rules|
  {
    forall j :: 0 <= j < n && Used(rules, j) ==> VerifyRule(false, d, rules, rules[j], 0, false).Passed?
  }

  /** No used rule before `n` has an empty loop. */
  predicate NoneLoops(d: nat, rules: seq<Tree>, n: nat)
    requires n <= |rules|
  {
    forall j :: 0 <= j < n && Used(rules, j) ==> !CheckLoops(d, rules, rules[j])
  }

  /** Verifying a grammar comes to an end: so do all analyses that are asked for until it is rejected or accepted. */
  predicate VerifyEnds(d: nat, rules: seq<Tree>) {
    && Ample(d, [], Grammar(rules))
    && (forall k :: 0 <= k < |rules| && Used(rules, k) && NoneLeft(d, rules, k) ==> RuleAnswers(d, rules, rules[k], 0, false))
    && (forall k :: 0 <= k < |rules| && Used(rules, k) && NoneLeft(d, rules, |rules|) && NoneLoops(d, rules, k)
          ==> LoopsAnswer(d, rules, rules[k]))
  }

  /** `verifygrammar`: first all rules for left recursion, then all for empty loops */
  method VerifyGrammar(d: nat, rules: seq<Tree>) returns (ok: bool)
    requires VerifyEnds(d, rules)
    ensures ok <==> Accepts(false, d, rules)
  {
    hide VerifyRule, CheckLoops, RuleAnswers, LoopsAnswer, Ample, Used;
    for k := 0 to |rules|
      invariant NoneLeft(d, rules, k)
    {
      if Used(rules, k) {
        assert RuleAnswers(d, rules, rules[k], 0, false);
        if VerifyRule(false, d, rules, rules[k], 0, false).LeftRecursive? {
          assert !RuleAccepted(false, d, rules, k);
          return false;
        }
      }
    }
    for k := 0 to |rules|
      invariant NoneLoops(d, rules, k)
    {
      if Used(rules, k) {
        assert LoopsAnswer(d, rules, rules[k]);
        if CheckLoops(d, rules, rules[k]) {
          assert !RuleAccepted(false, d, rules, k);
          return false;
        }
      }
    }
    return true;
  }

  lemma {:induction false} RuleSettled(d: nat, more: nat, rules: seq<Tree>, t: Tree, npassed: nat, nb: bool)
    requires npassed <= MAXRULES && Ample(d, rules, t) && Ample(more, rules, t) && RuleAnswers(d, rules, t, npassed, nb)
    ensures RuleAnswers(more, rules, t, npassed, nb)
    ensures VerifyRule(false, d, rules, t, npassed, nb) == VerifyRule(false, more, rules, t, npassed, nb)
    decreases MAXRULES - npassed, t
  {
    hide Answers, Nullable;
    match t
    case Not(p) => RuleSettled(d, more, rules, p, npassed, true);
    case And(p) => RuleSettled(d, more, rules, p, npassed, true);
    case Rep(p) => RuleSettled(d, more, rules, p, npassed, true);
    case Call(n) =>
      if npassed < MAXRULES && n < |rules| {
        RuleSettled(d, more, rules, rules[n], npassed + 1, nb);
      }
    case Seq(p1, p2) =>
      RuleSettled(d, more, rules, p1, npassed, false);
      if VerifyRule(false, d, rules, p1, npassed, false) == Passed(true) {
        RuleSettled(d, more, rules, p2, npassed, nb);
      }
    case Choice(p1, p2) =>
      RuleSettled(d, more, rules, p1, npassed, nb);
      var v := VerifyRule(false, d, rules, p1, npassed, nb);
      if v.Passed? {
        RuleSettled(d, more, rules, p2, npassed, v.nullable);
      }
    case Grammar(_) => AmpleAlike(Nullability, d, more, rules, t);
    case _ =>
  }

  lemma {:induction false} LoopsSettled(d: nat, more: nat, rules: seq<Tree>, t: Tree)
    requires Ample(d, rules, t) && Ample(more, rules, t) && LoopsAnswer(d, rules, t)
    ensures LoopsAnswer(more, rules, t) && CheckLoops(d, rules, t) == CheckLoops(more, rules, t)
    decreases t
  {
    hide Answers, Nullable;
    match t
    case Rep(p) =>
      AmpleAlike(Nullability, d, more, rules, p);
      if !Nullable(d, rules, p) {
        LoopsSettled(d, more, rules, p);
      }
    case Seq(p1, p2) =>
      LoopsSettled(d, more, rules, p1);
      if !CheckLoops(d, rules, p1) {
        LoopsSettled(d, more, rules, p2);
      }
    case Choice(p1, p2) =>
      LoopsSettled(d, more, rules, p1);
      if !CheckLoops(d, rules, p1) {
        LoopsSettled(d, more, rules, p2);
      }
    case Not(p) => LoopsSettled(d, more, rules, p);
    case And(p) => LoopsSettled(d, more, rules, p);
    case Behind(_, p) => LoopsSettled(d, more, rules, p);
    case _ =>
  }

  lemma AskedRule(d: nat, rules: seq<Tree>, k: nat)
    requires k < |rules| && VerifyEnds(d, rules) && Used(rules, k) && NoneLeft(d, rules, k)
    ensures RuleAnswers(d, rules, rules[k], 0, false)
  {
  }

  lemma AskedLoops(d: nat, rules: seq<Tree>, k: nat)
    requires k < |rules| && VerifyEnds(d, rules) && Used(rules, k) && NoneLeft(d, rules, |rules|) && NoneLoops(d, rules, k)
    ensures LoopsAnswer(d, rules, rules[k])
  {
  }

  lemma RuleAmple(d: nat, rules: seq<Tree>, k: nat)
    requires k < |rules| && Ample(d, [], Grammar(rules))
    ensures Ample(d, rules, rules[k])
  {
  }

  lemma {:induction false} NoneLeftSettled(d: nat, more: nat, rules: seq<Tree>, n: nat)
    requires n <= |rules| && VerifyEnds(d, rules) && Ample(d, [], Grammar(rules)) && Ample(more, [], Grammar(rules))
    ensures NoneLeft(d, rules, n) <==> NoneLeft(more, rules, n)
    decreases n
  {
    hide VerifyRule, RuleAnswers, Used, VerifyEnds, Ample;
    if n > 0 {
      NoneLeftSettled(d, more, rules, n - 1);
      if Used(rules, n - 1) && NoneLeft(d, rules, n - 1) {
        AskedRule(d, rules, n - 1);
        RuleAmple(d, rules, n - 1);
        RuleAmple(more, rules, n - 1);
        RuleSettled(d, more, rules, rules[n - 1], 0, false);
      }
    }
  }

  lemma {:induction false} NoneLoopsSettled(d: nat, more: nat, rules: seq<Tree>, n: nat)
    requires n <= |rules| && VerifyEnds(d, rules) && Ample(d, [], Grammar(rules)) && Ample(more, [], Grammar(rules))
    requires NoneLeft(d, rules, |rules|)
    ensures NoneLoops(d, rules, n) <==> NoneLoops(more, rules, n)
    decreases n
  {
    hide VerifyRule, LoopsAnswer, CheckLoops, Used, VerifyEnds, Ample, NoneLeft;
    if n > 0 {
      NoneLoopsSettled(d, more, rules, n - 1);
      if Used(rules, n - 1) && NoneLoops(d, rules, n - 1) {
        AskedLoops(d, rules, n - 1);
        RuleAmple(d, rules, n - 1);
        RuleAmple(more, rules, n - 1);
        LoopsSettled(d, more, rules, rules[n - 1]);
      }
    }
  }

  /** Whether verifying ends, and with what answer, is the same for all ample bounds: it is what happens without a bound. */
  lemma VerifySettled(d: nat, more: nat, rules: seq<Tree>)
    requires Ample(d, [], Grammar(rules)) && Ample(more, [], Grammar(rules))
    ensures VerifyEnds(d, rules) <==> VerifyEnds(more, rules)
    ensures VerifyEnds(d, rules) ==> (Accepts(false, d, rules) <==> Accepts(false, more, rules))
  {
    hide VerifyEnds;
    if VerifyEnds(d, rules) {
      EndsSettled(d, more, rules);
    }
    if VerifyEnds(more, rules) {
      EndsSettled(more, d, rules);
    }
  }

  lemma EndsSettled(d: nat, more: nat, rules: seq<Tree>)
    requires VerifyEnds(d, rules) && Ample(more, [], Grammar(rules))
    ensures VerifyEnds(more, rules) && (Accepts(false, d, rules) <==> Accepts(false, more, rules))
  {
    hide VerifyRule, RuleAnswers, Used, LoopsAnswer, CheckLoops;
    forall k | 0 <= k < |rules| && Used(rules, k) && NoneLeft(more, rules, k)
      ensures RuleAnswers(more, rules, rules[k], 0, false)
    {
      NoneLeftSettled(d, more, rules, k);
      RuleSettled(d, more, rules, rules[k], 0, false);
    }
    NoneLeftSettled(d, more, rules, |rules|);
    forall k | 0 <= k < |rules| && Used(rules, k) && NoneLeft(more, rules, |rules|) && NoneLoops(more, rules, k)
      ensures LoopsAnswer(more, rules, rules[k])
    {
      NoneLoopsSettled(d, more, rules, k);
      LoopsSettled(d, more, rules, rules[k]);
    }
    AcceptedNone(d, rules);
    AcceptedNone(more, rules);
    if NoneLeft(d, rules, |rules|) {
      NoneLoopsSettled(d, more, rules, |rules|);
    }
  }

  lemma AcceptedNone(d: nat, rules: seq<Tree>)
    ensures Accepts(false, d, rules) <==> NoneLeft(d, rules, |rules|) && NoneLoops(d, rules, |rules|)
  {
    hide VerifyRule, CheckLoops, Used;
    if Accepts(false, d, rules) {
      forall j | 0 <= j < |rules| && Used(rules, j)
        ensures VerifyRule(false, d, rules, rules[j], 0, false).Passed? && !CheckLoops(d, rules, rules[j])
      {
        assert RuleAccepted(false, d, rules, j);
      }
    }
  }

  /** What building a pattern guarantees: calls go to rules, and every grammar inside has been accepted when it was built,
      down to `depth` levels. */
  ghost predicate Built(fixed: bool, depth: nat, d: nat, rules: seq<Tree>, t: Tree)
    decreases depth, t
  {
    match t
    case Rep(p) => Built(fixed, depth, d, rules, p)
    case Seq(p1, p2) => Built(fixed, depth, d, rules, p1) && Built(fixed, depth, d, rules, p2)
    case Choice(p1, p2) => Built(fixed, depth, d, rules, p1) && Built(fixed, depth, d, rules, p2)
    case Not(p) => Built(fixed, depth, d, rules, p)
    case And(p) => Built(fixed, depth, d, rules, p)
    case Behind(_, p) => Built(fixed, depth, d, rules, p)
    case Call(n) => n < |rules| && Used(rules, n)
    case Grammar(rs) =>
      && |rs| > 0 && depth > 0 && Accepts(fixed, d, rs)
      && forall k :: 0 <= k < |rs| && Used(rs, k) ==> Built(fixed, depth - 1, d, rs, rs[k])
    case _ => true
  }

  /** Every grammar inside, also in rules that are not used, was accepted when it was built. */
  ghost predicate BuiltInside(fixed: bool, depth: nat, d: nat, t: Tree)
    decreases t
  {
    match t
    case Rep(p) => BuiltInside(fixed, depth, d, p)
    case Seq(p1, p2) => BuiltInside(fixed, depth, d, p1) && BuiltInside(fixed, depth, d, p2)
    case Choice(p1, p2) => BuiltInside(fixed, depth, d, p1) && BuiltInside(fixed, depth, d, p2)
    case Not(p) => BuiltInside(fixed, depth, d, p)
    case And(p) => BuiltInside(fixed, depth, d, p)
    case Behind(_, p) => BuiltInside(fixed, depth, d, p)
    case Grammar(rs) => Built(fixed, depth, d, [], t) && forall k :: 0 <= k < |rs| ==> BuiltInside(fixed, depth, d, rs[k])
    case _ => true
  }

  ghost predicate GoodGrammar(depth: nat, d: nat, rules: seq<Tree>) {
    Accepts(true, d, rules) && forall k :: 0 <= k < |rules| && Used(rules, k) ==> Built(true, depth, d, rules, rules[k])
  }

  ghost predicate Terminates(rules: seq<Tree>, t: Tree, s: seq<Byte>, i: nat)
    requires i <= |s|
  {
    exists fuel: nat :: Match(rules, t, s, i, fuel).Some?
  }

  /** The answer "not nullable" is right, and the accumulator is never lost. */
  lemma {:induction false} VerifyRuleNullable(d: nat, rules: seq<Tree>, t: Tree, npassed: nat, nb: bool, s: seq<Byte>, i: nat, fuel: nat)
    requires npassed <= MAXRULES && i <= |s|
    requires VerifyRule(true, d, rules, t, npassed, nb) == Passed(false)
    ensures !nb
    ensures Match(rules, t, s, i, fuel) != Some(Ok(i))
    decreases MAXRULES - npassed, t
  {
    match t
    case Not(p) => VerifyRuleNullable(d, rules, p, npassed, true, s, i, fuel);
    case And(p) => VerifyRuleNullable(d, rules, p, npassed, true, s, i, fuel);
    case Rep(p) => VerifyRuleNullable(d, rules, p, npassed, true, s, i, fuel);
    case Behind(_, p) => VerifyRuleNullable(d, rules, p, npassed, true, s, i, fuel);
    case Call(n) => VerifyRuleNullable(d, rules, rules[n], npassed + 1, nb, s, i, if fuel > 0 then fuel - 1 else 0);
    case Seq(p1, p2) =>
      if VerifyRule(true, d, rules, p1, npassed, false) == Passed(false) {
        VerifyRuleNullable(d, rules, p1, npassed, false, s, i, fuel);
      } else {
        VerifyRuleNullable(d, rules, p2, npassed, nb, s, i, fuel);
      }
    case Choice(p1, p2) =>
      var nb1 := VerifyRule(true, d, rules, p1, npassed, nb).nullable;
      VerifyRuleNullable(d, rules, p2, npassed, nb1, s, i, fuel);
      VerifyRuleNullable(d, rules, p1, npassed, nb, s, i, fuel);
    case Grammar(rs) => NullableSound(d, rules, t, s, i, fuel);
    case _ =>
  }

  // ---- Putting together the fuels of the parts ---------------------------------------------------------------

  lemma FuelSeq(rules: seq<Tree>, p1: Tree, p2: Tree, s: seq<Byte>, i: nat, f1: nat, f2: nat)
    requires i <= |s| && Match(rules, p1, s, i, f1).Some?
    requires var r := Match(rules, p1, s, i, f1).value; r.Ok? ==> Match(rules, p2, s, r.pos, f2).Some?
    ensures Terminates(rules, Seq(p1, p2), s, i)
  {
    var f := f1 + f2;
    MatchMonotone(rules, p1, s, i, f1, f);
    var r := Match(rules, p1, s, i, f1).value;
    if r.Ok? {
      MatchMonotone(rules, p2, s, r.pos, f2, f);
    }
    assert Match(rules, Seq(p1, p2), s, i, f).Some?;
  }

  lemma FuelChoice(rules: seq<Tree>, p1: Tree, p2: Tree, s: seq<Byte>, i: nat, f1: nat, f2: nat)
    requires i <= |s| && Match(rules, p1, s, i, f1).Some? && Match(rules, p2, s, i, f2).Some?
    ensures Terminates(rules, Choice(p1, p2), s, i)
  {
    var f := f1 + f2;
    MatchMonotone(rules, p1, s, i, f1, f);
    if Match(rules, p1, s, i, f).value.Fail? {
      MatchMonotone(rules, p2, s, i, f2, f);
    }
    assert Match(rules, Choice(p1, p2), s, i, f).Some?;
  }

  lemma FuelRep(rules: seq<Tree>, p: Tree, s: seq<Byte>, i: nat, f1: nat, f2: nat)
    requires i <= |s| && Match(rules, p, s, i, f1).Some?
    requires var r := Match(rules, p, s, i, f1).value; r.Ok? ==> r.pos > i && Match(rules, Rep(p), s, r.pos, f2).Some?
    ensures Terminates(rules, Rep(p), s, i)
  {
    var f := f1 + f2;
    MatchMonotone(rules, p, s, i, f1, f);
    var r := Match(rules, p, s, i, f1).value;
    if r.Ok? {
      MatchMonotone(rules, Rep(p), s, r.pos, f2, f);
    }
    assert Match(rules, Rep(p), s, i, f).Some?;
  }

  lemma FuelGrammar(rules: seq<Tree>, rs: seq<Tree>, s: seq<Byte>, i: nat)
    requires i <= |s| && |rs| > 0 && Terminates(rs, rs[0], s, i)
    ensures Terminates(rules, Grammar(rs), s, i)
  {
    var f: nat :| Match(rs, rs[0], s, i, f).Some?;
    assert Match(rules, Grammar(rs), s, i, f).Some?;
  }

  lemma FuelPredicate(rules: seq<Tree>, p: Tree, s: seq<Byte>, i: nat)
    requires i <= |s| && Terminates(rules, p, s, i)
    ensures Terminates(rules, Not(p), s, i) && Terminates(rules, And(p), s, i)
  {
    var f: nat :| Match(rules, p, s, i, f).Some?;
    assert Match(rules, Not(p), s, i, f).Some? && Match(rules, And(p), s, i, f).Some?;
  }

  // ---- Levels of rules --------------------------------------------------------------------------------------------

  ghost function ReachedFrom(rules: seq<Tree>, k: nat): set<nat> {
    set n: nat | n < |rules| && Reaches(rules, k, n)
  }

  /** How many rules a rule leads to. It goes down along calls, and strictly where a call does not lead back. */
  ghost function Level(rules: seq<Tree>, k: nat): nat {
    |ReachedFrom(rules, k)|
  }

  lemma CallGoesDown(rules: seq<Tree>, k: nat, n: nat)
    requires k < |rules| && n in Calls(rules[k])
    ensures Level(rules, n) <= Level(rules, k)
    ensures !Reaches(rules, n, k) ==> Level(rules, n) < Level(rules, k)
  {
    forall m | m in ReachedFrom(rules, n) ensures m in ReachedFrom(rules, k) {
      var f: nat :| ReachesIn(rules, n, m, f);
      assert ReachesIn(rules, k, m, f + 1);
    }
    assert ReachesIn(rules, k, k, 0) && k in ReachedFrom(rules, k);
    PartSmaller(ReachedFrom(rules, n), ReachedFrom(rules, k));
  }

  /** The calls of `t` go to level `l` at most, and lower inside look-behinds. */
  ghost predicate Within(rules: seq<Tree>, t: Tree, l: nat) {
    && (forall n :: n in Calls(t) ==> Level(rules, n) <= l)
    && forall n :: n in BehindCalls(t) ==> Level(rules, n) < l
  }

  lemma RuleWithin(rules: seq<Tree>, k: nat, l: nat)
    requires k < |rules| && !CallsBack(rules, k) && Level(rules, k) <= l
    ensures Within(rules, rules[k], l)
  {
    hide Reaches, Level;
    BehindCallsCall(rules[k]);
    forall n | n in Calls(rules[k])
      ensures Level(rules, n) <= l && (n in BehindCalls(rules[k]) ==> Level(rules, n) < l)
    {
      CallGoesDown(rules, k, n);
    }
  }

  lemma BehindCallsCall(t: Tree)
    ensures BehindCalls(t) <= Calls(t)
  {
  }

  // ---- Termination -----------------------------------------------------------------------------------------------

  /** A pattern that calls only rules below level `l` terminates, wherever it is tried. */
  lemma {:induction false} LowTerminates(depth: nat, d: nat, rules: seq<Tree>, t: Tree, l: nat, s: seq<Byte>, i: nat)
    requires i <= |s| && GoodGrammar(depth, d, rules) && Built(true, depth, d, rules, t) && !CheckLoops(d, rules, t)
    requires forall n :: n in Calls(t) ==> Level(rules, n) < l
    ensures Terminates(rules, t, s, i)
    decreases depth, l, 0, t, |s| - i
  {
    hide Level;
    match t
    case Rep(p) =>
      LowTerminates(depth, d, rules, p, l, s, i);
      var f1: nat :| Match(rules, p, s, i, f1).Some?;
      var r := Match(rules, p, s, i, f1).value;
      var f2: nat := 0;
      if r.Ok? {
        NullableSound(d, rules, p, s, i, f1);
        LowTerminates(depth, d, rules, t, l, s, r.pos);
        f2 :| Match(rules, t, s, r.pos, f2).Some?;
      }
      FuelRep(rules, p, s, i, f1, f2);
    case Seq(p1, p2) =>
      LowTerminates(depth, d, rules, p1, l, s, i);
      var f1: nat :| Match(rules, p1, s, i, f1).Some?;
      var r := Match(rules, p1, s, i, f1).value;
      var f2: nat := 0;
      if r.Ok? {
        LowTerminates(depth, d, rules, p2, l, s, r.pos);
        f2 :| Match(rules, p2, s, r.pos, f2).Some?;
      }
      FuelSeq(rules, p1, p2, s, i, f1, f2);
    case Choice(p1, p2) =>
      LowTerminates(depth, d, rules, p1, l, s, i);
      LowTerminates(depth, d, rules, p2, l, s, i);
      var f1: nat :| Match(rules, p1, s, i, f1).Some?;
      var f2: nat :| Match(rules, p2, s, i, f2).Some?;
      FuelChoice(rules, p1, p2, s, i, f1, f2);
    case Not(p) =>
      LowTerminates(depth, d, rules, p, l, s, i);
      FuelPredicate(rules, p, s, i);
    case And(p) =>
      LowTerminates(depth, d, rules, p, l, s, i);
      FuelPredicate(rules, p, s, i);
    case Behind(n, p) => BehindTerminates(depth, d, rules, n, p, l, s, i);
    case Grammar(rs) => GrammarTerminates(depth, d, rules, rs, s, i);
    case Call(n) =>
      assert n in Calls(t) && RuleAccepted(true, d, rules, n);
      RuleWithin(rules, n, l - 1);
      LeftTerminates(depth, d, rules, rules[n], l - 1, 0, false, s, i);
      FuelCall(rules, n, s, i);
    case _ => assert Match(rules, t, s, i, 0).Some?;
  }

  lemma {:induction false} BehindTerminates(depth: nat, d: nat, rules: seq<Tree>, n: nat, p: Tree, l: nat, s: seq<Byte>, i: nat)
    requires i <= |s| && GoodGrammar(depth, d, rules) && Built(true, depth, d, rules, p) && !CheckLoops(d, rules, p)
    requires forall n :: n in Calls(p) ==> Level(rules, n) < l
    ensures Terminates(rules, Behind(n, p), s, i)
    decreases depth, l, 0, p, |s| + 1
  {
    if n <= i {
      LowTerminates(depth, d, rules, p, l, s, i - n);
      var f: nat :| Match(rules, p, s, i - n, f).Some?;
      assert Match(rules, Behind(n, p), s, i, f).Some?;
    } else {
      assert Match(rules, Behind(n, p), s, i, 0).Some?;
    }
  }

  lemma {:induction false} GrammarTerminates(depth: nat, d: nat, rules: seq<Tree>, rs: seq<Tree>, s: seq<Byte>, i: nat)
    requires i <= |s| && Built(true, depth, d, rules, Grammar(rs))
    ensures Terminates(rules, Grammar(rs), s, i)
    decreases depth, 0, 0, rs
  {
    RuleTerminates(depth - 1, d, rs, 0, s, i);
    FuelGrammar(rules, rs, s, i);
  }

  /** Every rule of a good grammar that is used terminates. */
  lemma {:induction false} RuleTerminates(depth: nat, d: nat, rules: seq<Tree>, n: nat, s: seq<Byte>, i: nat)
    requires i <= |s| && GoodGrammar(depth, d, rules) && n < |rules| && Used(rules, n)
    ensures Terminates(rules, rules[n], s, i)
    decreases depth, Level(rules, n) + 1
  {
    assert RuleAccepted(true, d, rules, n);
    RuleWithin(rules, n, Level(rules, n));
    LeftTerminates(depth, d, rules, rules[n], Level(rules, n), 0, false, s, i);
  }

  /** A pattern that passed the check for left recursion terminates: what it can run without consuming a character is
      bounded by the number of rules still to be entered, everything else starts further on, and what a look-behind calls,
      wherever it starts, is of a lower level. */
  lemma {:induction false} LeftTerminates(depth: nat, d: nat, rules: seq<Tree>, t: Tree, l: nat, npassed: nat, nb: bool, s: seq<Byte>, i: nat)
    requires i <= |s| && npassed <= MAXRULES && GoodGrammar(depth, d, rules)
    requires Built(true, depth, d, rules, t) && !CheckLoops(d, rules, t) && Within(rules, t, l)
    requires VerifyRule(true, d, rules, t, npassed, nb).Passed?
    ensures Terminates(rules, t, s, i)
    decreases depth, l, 1, |s| - i, 0, MAXRULES - npassed, t
  {
    hide Level;
    match t
    case Rep(p) =>
      LeftTerminates(depth, d, rules, p, l, npassed, true, s, i);
      var f1: nat :| Match(rules, p, s, i, f1).Some?;
      var r := Match(rules, p, s, i, f1).value;
      var f2: nat := 0;
      if r.Ok? {
        NullableSound(d, rules, p, s, i, f1);
        AnyTerminates(depth, d, rules, t, l, s, r.pos);
        f2 :| Match(rules, t, s, r.pos, f2).Some?;
      }
      FuelRep(rules, p, s, i, f1, f2);
    case Seq(p1, p2) =>
      LeftTerminates(depth, d, rules, p1, l, npassed, false, s, i);
      var f1: nat :| Match(rules, p1, s, i, f1).Some?;
      var r := Match(rules, p1, s, i, f1).value;
      var f2: nat := 0;
      if r.Ok? {
        if r.pos > i {
          AnyTerminates(depth, d, rules, p2, l, s, r.pos);
        } else {
          if VerifyRule(true, d, rules, p1, npassed, false) == Passed(false) {
            VerifyRuleNullable(d, rules, p1, npassed, false, s, i, f1);
          }
          LeftTerminates(depth, d, rules, p2, l, npassed, nb, s, i);
        }
        f2 :| Match(rules, p2, s, r.pos, f2).Some?;
      }
      FuelSeq(rules, p1, p2, s, i, f1, f2);
    case Choice(p1, p2) =>
      LeftTerminates(depth, d, rules, p1, l, npassed, nb, s, i);
      LeftTerminates(depth, d, rules, p2, l, npassed, VerifyRule(true, d, rules, p1, npassed, nb).nullable, s, i);
      var f1: nat :| Match(rules, p1, s, i, f1).Some?;
      var f2: nat :| Match(rules, p2, s, i, f2).Some?;
      FuelChoice(rules, p1, p2, s, i, f1, f2);
    case Not(p) =>
      LeftTerminates(depth, d, rules, p, l, npassed, true, s, i);
      FuelPredicate(rules, p, s, i);
    case And(p) =>
      LeftTerminates(depth, d, rules, p, l, npassed, true, s, i);
      FuelPredicate(rules, p, s, i);
    case Call(n) =>
      assert n in Calls(t) && RuleAccepted(true, d, rules, n);
      RuleWithin(rules, n, l);
      LeftTerminates(depth, d, rules, rules[n], l, npassed + 1, nb, s, i);
      FuelCall(rules, n, s, i);
    case Behind(n, p) => BehindTerminates(depth, d, rules, n, p, l, s, i);
    case Grammar(rs) => GrammarTerminates(depth, d, rules, rs, s, i);
    case _ => assert Match(rules, t, s, i, 0).Some?;
  }

  /** Any pattern over the rules of a good grammar terminates. */
  lemma {:induction false} AnyTerminates(depth: nat, d: nat, rules: seq<Tree>, t: Tree, l: nat, s: seq<Byte>, i: nat)
    requires i <= |s| && GoodGrammar(depth, d, rules)
    requires Built(true, depth, d, rules, t) && !CheckLoops(d, rules, t) && Within(rules, t, l)
    ensures Terminates(rules, t, s, i)
    decreases depth, l, 1, |s| - i, 1, 0, t
  {
    hide Level;
    match t
    case Rep(p) =>
      AnyTerminates(depth, d, rules, p, l, s, i);
      var f1: nat :| Match(rules, p, s, i, f1).Some?;
      var r := Match(rules, p, s, i, f1).value;
      var f2: nat := 0;
      if r.Ok? {
        NullableSound(d, rules, p, s, i, f1);
        AnyTerminates(depth, d, rules, t, l, s, r.pos);
        f2 :| Match(rules, t, s, r.pos, f2).Some?;
      }
      FuelRep(rules, p, s, i, f1, f2);
    case Seq(p1, p2) =>
      AnyTerminates(depth, d, rules, p1, l, s, i);
      var f1: nat :| Match(rules, p1, s, i, f1).Some?;
      var r := Match(rules, p1, s, i, f1).value;
      var f2: nat := 0;
      if r.Ok? {
        AnyTerminates(depth, d, rules, p2, l, s, r.pos);
        f2 :| Match(rules, p2, s, r.pos, f2).Some?;
      }
      FuelSeq(rules, p1, p2, s, i, f1, f2);
    case Choice(p1, p2) =>
      AnyTerminates(depth, d, rules, p1, l, s, i);
      AnyTerminates(depth, d, rules, p2, l, s, i);
      var f1: nat :| Match(rules, p1, s, i, f1).Some?;
      var f2: nat :| Match(rules, p2, s, i, f2).Some?;
      FuelChoice(rules, p1, p2, s, i, f1, f2);
    case Not(p) =>
      AnyTerminates(depth, d, rules, p, l, s, i);
      FuelPredicate(rules, p, s, i);
    case And(p) =>
      AnyTerminates(depth, d, rules, p, l, s, i);
      FuelPredicate(rules, p, s, i);
    case Call(n) =>
      assert n in Calls(t) && RuleAccepted(true, d, rules, n);
      RuleWithin(rules, n, l);
      LeftTerminates(depth, d, rules, rules[n], l, 0, false, s, i);
      FuelCall(rules, n, s, i);
    case Behind(n, p) => BehindTerminates(depth, d, rules, n, p, l, s, i);
    case Grammar(rs) => GrammarTerminates(depth, d, rules, rs, s, i);
    case _ => assert Match(rules, t, s, i, 0).Some?;
  }

  lemma FuelCall(rules: seq<Tree>, n: nat, s: seq<Byte>, i: nat)
    requires i <= |s| && n < |rules| && Terminates(rules, rules[n], s, i)
    ensures Terminates(rules, Call(n), s, i)
  {
    var f: nat :| Match(rules, rules[n], s, i, f).Some?;
    assert Match(rules, Call(n), s, i, f + 1).Some?;
  }

  /** Matching any pattern whose grammars were accepted, with the accumulator honoured and no look-behind that calls back,
      terminates on every subject. */
  lemma AcceptedTerminates(depth: nat, d: nat, t: Tree, s: seq<Byte>, i: nat)
    requires i <= |s| && Built(true, depth, d, [], t) && !CheckLoops(d, [], t)
    ensures Terminates([], t, s, i)
  {
    CallsInRange(true, depth, d, [], t);
    LowTerminates(depth, d, [], t, 0, s, i);
  }

  lemma {:induction false} CallsInRange(fixed: bool, depth: nat, d: nat, rules: seq<Tree>, t: Tree)
    requires Built(fixed, depth, d, rules, t)
    ensures forall n :: n in Calls(t) ==> n < |rules|
    decreases t
  {
    match t
    case Rep(p) => CallsInRange(fixed, depth, d, rules, p);
    case Seq(p1, p2) => CallsInRange(fixed, depth, d, rules, p1); CallsInRange(fixed, depth, d, rules, p2);
    case Choice(p1, p2) => CallsInRange(fixed, depth, d, rules, p1); CallsInRange(fixed, depth, d, rules, p2);
    case Not(p) => CallsInRange(fixed, depth, d, rules, p);
    case And(p) => CallsInRange(fixed, depth, d, rules, p);
    case Behind(_, p) => CallsInRange(fixed, depth, d, rules, p);
    case _ =>
  }

  // ---- The check as it is ----------------------------------------------------------------------------------------

  /** The scan of `verifyrule` reaches a sub-grammar that is not nullable while the accumulator says that what comes
      first can match the empty string: its answer drops the accumulator. Or it passes over left calls in a look-behind. */
  predicate Drops(d: nat, rules: seq<Tree>, t: Tree, npassed: nat, nb: bool)
    requires npassed <= MAXRULES
    decreases MAXRULES - npassed, t
  {
    match t
    case Not(p) => Drops(d, rules, p, npassed, true)
    case And(p) => Drops(d, rules, p, npassed, true)
    case Rep(p) => Drops(d, rules, p, npassed, true)
    case Call(n) => npassed < MAXRULES && n < |rules| && Drops(d, rules, rules[n], npassed + 1, nb)
    case Seq(p1, p2) =>
      || Drops(d, rules, p1, npassed, false)
      || (VerifyRule(false, d, rules, p1, npassed, false) == Passed(true) && Drops(d, rules, p2, npassed, nb))
    case Choice(p1, p2) =>
      || Drops(d, rules, p1, npassed, nb)
      || var v := VerifyRule(false, d, rules, p1, npassed, nb); v.Passed? && Drops(d, rules, p2, npassed, v.nullable)
    case Behind(_, p) => VerifyRule(true, d, rules, p, npassed, true).LeftRecursive?
    case Grammar(_) => nb && !Nullable(d, rules, t)
    case _ => false
  }

  /** Where nothing is dropped, the check as it is gives the answer that honours the accumulator. */
  lemma {:induction false} NothingDropped(d: nat, rules: seq<Tree>, t: Tree, npassed: nat, nb: bool)
    requires npassed <= MAXRULES && !Drops(d, rules, t, npassed, nb)
    ensures VerifyRule(false, d, rules, t, npassed, nb) == VerifyRule(true, d, rules, t, npassed, nb)
    decreases MAXRULES - npassed, t
  {
    match t
    case Not(p) => NothingDropped(d, rules, p, npassed, true);
    case And(p) => NothingDropped(d, rules, p, npassed, true);
    case Rep(p) => NothingDropped(d, rules, p, npassed, true);
    case Call(n) =>
      if npassed < MAXRULES && n < |rules| {
        NothingDropped(d, rules, rules[n], npassed + 1, nb);
      }
    case Seq(p1, p2) =>
      NothingDropped(d, rules, p1, npassed, false);
      if VerifyRule(false, d, rules, p1, npassed, false) == Passed(true) {
        NothingDropped(d, rules, p2, npassed, nb);
      }
    case Choice(p1, p2) =>
      NothingDropped(d, rules, p1, npassed, nb);
      var v := VerifyRule(false, d, rules, p1, npassed, nb);
      if v.Passed? {
        NothingDropped(d, rules, p2, npassed, v.nullable);
      }
    case Behind(_, p) => NeverLost(d, rules, p, npassed);
    case _ =>
  }

  /** The check that keeps the accumulator accepts no more than the check as it is: whatever passes it passes the check as it
      is, and is found nullable there only if it is nullable. */
  lemma {:induction false} KeepingIsStricter(d: nat, rules: seq<Tree>, t: Tree, npassed: nat, nb: bool, kept: bool)
    requires npassed <= MAXRULES && (nb ==> kept) && VerifyRule(true, d, rules, t, npassed, kept).Passed?
    ensures var v := VerifyRule(false, d, rules, t, npassed, nb);
            v.Passed? && (v.nullable ==> VerifyRule(true, d, rules, t, npassed, kept).nullable)
    decreases MAXRULES - npassed, t
  {
    match t
    case Not(p) => KeepingIsStricter(d, rules, p, npassed, true, true);
    case And(p) => KeepingIsStricter(d, rules, p, npassed, true, true);
    case Rep(p) => KeepingIsStricter(d, rules, p, npassed, true, true);
    case Behind(_, p) => NeverLost(d, rules, p, npassed);
    case Call(n) => KeepingIsStricter(d, rules, rules[n], npassed + 1, nb, kept);
    case Seq(p1, p2) =>
      KeepingIsStricter(d, rules, p1, npassed, false, false);
      if VerifyRule(true, d, rules, p1, npassed, false) == Passed(true) {
        KeepingIsStricter(d, rules, p2, npassed, nb, kept);
        if nb {
          NeverLost(d, rules, p2, npassed);
        }
      }
    case Choice(p1, p2) =>
      KeepingIsStricter(d, rules, p1, npassed, nb, kept);
      KeepingIsStricter(d, rules, p2, npassed, VerifyRule(false, d, rules, p1, npassed, nb).nullable,
                        VerifyRule(true, d, rules, p1, npassed, kept).nullable);
    case _ =>
  }

  /** The accumulator, once set, stays set. */
  lemma NeverLost(d: nat, rules: seq<Tree>, t: Tree, npassed: nat)
    requires npassed <= MAXRULES && VerifyRule(true, d, rules, t, npassed, true).Passed?
    ensures VerifyRule(true, d, rules, t, npassed, true).nullable
  {
    if VerifyRule(true, d, rules, t, npassed, true) == Passed(false) {
      VerifyRuleNullable(d, rules, t, npassed, true, [], 0, 0);
    }
  }

  lemma KeptAccepted(d: nat, rules: seq<Tree>)
    requires Accepts(true, d, rules)
    ensures Accepts(false, d, rules)
  {
    forall k | 0 <= k < |rules| && Used(rules, k) ensures RuleAccepted(false, d, rules, k) {
      assert RuleAccepted(true, d, rules, k);
      KeepingIsStricter(d, rules, rules[k], 0, false, false);
    }
  }

  /** The pattern may succeed without consuming anything, as far as `fuel` nested calls show. */
  predicate Empties(fuel: nat, d: nat, rules: seq<Tree>, t: Tree)
    decreases fuel, t
  {
    match t
    case True | Behind(_, _) | Not(_) | And(_) | Rep(_) => true
    case Call(n) => fuel > 0 && n < |rules| && Empties(fuel - 1, d, rules, rules[n])
    case Seq(p1, p2) => Empties(fuel, d, rules, p1) && Empties(fuel, d, rules, p2)
    case Choice(p1, p2) => Empties(fuel, d, rules, p1) || Empties(fuel, d, rules, p2)
    case Grammar(_) => Nullable(d, rules, t)
    case _ => false
  }

  /** The pattern may run into more than `fuel` nested calls before anything is consumed: what comes before each of the
      calls in a sequence may be empty. */
  predicate CallsLeft(fuel: nat, d: nat, rules: seq<Tree>, t: Tree)
    decreases fuel, t
  {
    match t
    case Not(p) => CallsLeft(fuel, d, rules, p)
    case And(p) => CallsLeft(fuel, d, rules, p)
    case Rep(p) => CallsLeft(fuel, d, rules, p)
    case Behind(_, p) => CallsLeft(fuel, d, rules, p)
    case Call(n) => fuel == 0 || n >= |rules| || CallsLeft(fuel - 1, d, rules, rules[n])
    case Seq(p1, p2) => CallsLeft(fuel, d, rules, p1) || (Empties(fuel, d, rules, p1) && CallsLeft(fuel, d, rules, p2))
    case Choice(p1, p2) => CallsLeft(fuel, d, rules, p1) || CallsLeft(fuel, d, rules, p2)
    case _ => false
  }

  /** With the accumulator kept, the check finds exactly the left calls nested deeper than there may be rules, and answers
      nullable exactly when the accumulator says so or the pattern may be empty. */
  lemma {:induction false} VerifyRuleExactly(d: nat, rules: seq<Tree>, t: Tree, npassed: nat, nb: bool)
    requires npassed <= MAXRULES
    ensures VerifyRule(true, d, rules, t, npassed, nb)
            == if CallsLeft(MAXRULES - npassed, d, rules, t) then LeftRecursive
               else Passed(nb || Empties(MAXRULES - npassed, d, rules, t))
    decreases MAXRULES - npassed, t
  {
    hide Nullable;
    match t
    case Not(p) => VerifyRuleExactly(d, rules, p, npassed, true);
    case And(p) => VerifyRuleExactly(d, rules, p, npassed, true);
    case Rep(p) => VerifyRuleExactly(d, rules, p, npassed, true);
    case Behind(_, p) => VerifyRuleExactly(d, rules, p, npassed, true);
    case Call(n) =>
      if npassed < MAXRULES && n < |rules| {
        VerifyRuleExactly(d, rules, rules[n], npassed + 1, nb);
      }
    case Seq(p1, p2) =>
      VerifyRuleExactly(d, rules, p1, npassed, false);
      VerifyRuleExactly(d, rules, p2, npassed, nb);
    case Choice(p1, p2) =>
      VerifyRuleExactly(d, rules, p1, npassed, nb);
      if VerifyRule(true, d, rules, p1, npassed, nb).Passed? {
        VerifyRuleExactly(d, rules, p2, npassed, VerifyRule(true, d, rules, p1, npassed, nb).nullable);
      }
    case _ =>
  }

  /** A grammar is wrongly accepted if and only if it is accepted although a rule that is used can nest more calls than there
      may be rules before anything is consumed, or has a look-behind that calls back; in the first case the check drops or
      passes over something in that rule. */
  lemma WronglyAccepted(d: nat, rules: seq<Tree>)
    ensures Accepts(false, d, rules) && !Accepts(true, d, rules) <==>
            && Accepts(false, d, rules)
            && exists k :: 0 <= k < |rules| && Used(rules, k) && (CallsLeft(MAXRULES, d, rules, rules[k]) || CallsBack(rules, k))
    ensures forall k :: 0 <= k < |rules| && Used(rules, k) && Accepts(false, d, rules) && CallsLeft(MAXRULES, d, rules, rules[k])
              ==> Drops(d, rules, rules[k], 0, false)
  {
    hide VerifyRule, CallsLeft, Drops, CheckLoops, CallsBack;
    forall k | 0 <= k < |rules|
      ensures VerifyRule(true, d, rules, rules[k], 0, false).LeftRecursive? <==> CallsLeft(MAXRULES, d, rules, rules[k])
      ensures !Drops(d, rules, rules[k], 0, false) ==>
                VerifyRule(false, d, rules, rules[k], 0, false) == VerifyRule(true, d, rules, rules[k], 0, false)
    {
      VerifyRuleExactly(d, rules, rules[k], 0, false);
      if !Drops(d, rules, rules[k], 0, false) {
        NothingDropped(d, rules, rules[k], 0, false);
      }
    }
    if Accepts(false, d, rules) {
      forall k | 0 <= k < |rules| && Used(rules, k)
        ensures RuleAccepted(true, d, rules, k) <==> !CallsLeft(MAXRULES, d, rules, rules[k]) && !CallsBack(rules, k)
        ensures CallsLeft(MAXRULES, d, rules, rules[k]) ==> Drops(d, rules, rules[k], 0, false)
      {
        assert RuleAccepted(false, d, rules, k);
      }
    }
  }

  /** No grammar inside `t` drops anything while its rules are verified, and none has a look-behind that calls back. */
  ghost predicate NeverDrops(depth: nat, d: nat, t: Tree)
    decreases depth, t
  {
    match t
    case Rep(p) => NeverDrops(depth, d, p)
    case Seq(p1, p2) => NeverDrops(depth, d, p1) && NeverDrops(depth, d, p2)
    case Choice(p1, p2) => NeverDrops(depth, d, p1) && NeverDrops(depth, d, p2)
    case Not(p) => NeverDrops(depth, d, p)
    case And(p) => NeverDrops(depth, d, p)
    case Behind(_, p) => NeverDrops(depth, d, p)
    case Grammar(rs) =>
      depth > 0 && forall k :: 0 <= k < |rs| ==> !Drops(d, rs, rs[k], 0, false) && !CallsBack(rs, k) && NeverDrops(depth - 1, d, rs[k])
    case _ => true
  }

  lemma {:induction false} BuiltEither(depth: nat, d: nat, rules: seq<Tree>, t: Tree)
    requires NeverDrops(depth, d, t)
    ensures Built(false, depth, d, rules, t) <==> Built(true, depth, d, rules, t)
    decreases depth, t
  {
    match t
    case Rep(p) => BuiltEither(depth, d, rules, p);
    case Seq(p1, p2) => BuiltEither(depth, d, rules, p1); BuiltEither(depth, d, rules, p2);
    case Choice(p1, p2) => BuiltEither(depth, d, rules, p1); BuiltEither(depth, d, rules, p2);
    case Not(p) => BuiltEither(depth, d, rules, p);
    case And(p) => BuiltEither(depth, d, rules, p);
    case Behind(_, p) => BuiltEither(depth, d, rules, p);
    case Grammar(rs) =>
      forall k | 0 <= k < |rs|
        ensures RuleAccepted(false, d, rs, k) <==> RuleAccepted(true, d, rs, k)
        ensures Built(false, depth - 1, d, rs, rs[k]) <==> Built(true, depth - 1, d, rs, rs[k])
      {
        NothingDropped(d, rs, rs[k], 0, false);
        BuiltEither(depth - 1, d, rs, rs[k]);
      }
    case _ =>
  }

  /** Termination with the check as it is: it holds for every pattern whose grammars were accepted and in which the check
      drops nothing. */
  lemma VerifiedTerminates(depth: nat, d: nat, t: Tree, s: seq<Byte>, i: nat)
    requires i <= |s| && Built(false, depth, d, [], t) && !CheckLoops(d, [], t)
    requires NeverDrops(depth, d, t)
    ensures Terminates([], t, s, i)
  {
    BuiltEither(depth, d, [], t);
    AcceptedTerminates(depth, d, t, s, i);
  }

  /** S <- !{ 'a' } S, where { 'a' } is a grammar of its own */
  const SUB := Grammar([Char(97)])
  const BLIND := [Seq(Not(SUB), Call(0))]

  /** The check as it is accepts a grammar that calls itself without consuming anything: matching it on the empty
      subject does not terminate. It is a left recursion that honouring the accumulator finds. */
  lemma AcceptedLeftRecursion(d: nat)
    ensures Accepts(false, d, BLIND) && Built(false, 2, d, [], Grammar(BLIND))
    ensures !Terminates([], Grammar(BLIND), [], 0)
    ensures Drops(d, BLIND, BLIND[0], 0, false) && !Accepts(true, d, BLIND)
  {
    var body := BLIND[0];
    assert Calls(body) == Calls(Not(SUB)) + Calls(Call(0));
    assert !Nullable(d, [Char(97)], [Char(97)][0]);
    assert VerifyRule(false, d, BLIND, SUB, 0, true) == Passed(false);
    assert VerifyRule(false, d, BLIND, Not(SUB), 0, false) == Passed(false);
    assert !CheckLoops(d, BLIND, Not(SUB)) && !CheckLoops(d, BLIND, body);
    assert RuleAccepted(false, d, BLIND, 0);
    assert Accepts(false, d, [Char(97)]) by {
      assert RuleAccepted(false, d, [Char(97)], 0);
    }
    assert Built(false, 1, d, BLIND, SUB);
    forall fuel: nat ensures Match([], Grammar(BLIND), [], 0, fuel).None? {
      BlindDiverges(fuel);
    }
    BlindRejected(d, 0, false);
    assert !RuleAccepted(true, d, BLIND, 0) && Used(BLIND, 0);
  }

  lemma {:induction false} BlindDiverges(fuel: nat)
    ensures Match(BLIND, BLIND[0], [], 0, fuel).None?
  {
    assert Match([Char(97)], Char(97), [], 0, fuel) == Some(Fail);
    assert Match(BLIND, SUB, [], 0, fuel) == Some(Fail);
    assert Match(BLIND, Not(SUB), [], 0, fuel) == Some(Ok(0));
    if fuel > 0 {
      BlindDiverges(fuel - 1);
    }
    assert Match(BLIND, Call(0), [], 0, fuel).None?;
  }

  lemma {:induction false} BlindRejected(d: nat, npassed: nat, nb: bool)
    requires npassed <= MAXRULES
    ensures VerifyRule(true, d, BLIND, BLIND[0], npassed, nb) == LeftRecursive
    decreases MAXRULES - npassed
  {
    assert VerifyRule(true, d, BLIND, SUB, npassed, true) == Passed(true);
    assert VerifyRule(true, d, BLIND, Not(SUB), npassed, false) == Passed(true);
    if npassed < MAXRULES {
      BlindRejected(d, npassed + 1, nb);
    }
    assert VerifyRule(true, d, BLIND, Call(0), npassed, nb) == LeftRecursive;
  }

  /** S <- B(#S) 'a': a look-behind whose body has a fixed length, since a predicate has, and calls its own rule */
  const BACK := [Seq(Behind(0, And(Call(0))), Char(97))]

  /** S <- 'a' B(#S 'a'): the look-behind goes back over the character that was consumed */
  const AGAIN := [Seq(Char(97), Behind(1, Seq(And(Call(0)), Char(97))))]

  /** The check as it is accepts a left recursion through a look-behind; matching ends on no subject. */
  lemma AcceptedLookBehind(d: nat, s: seq<Byte>, i: nat)
    requires i <= |s|
    ensures FixedLen(d, [], And(Call(0))) == 0
    ensures Accepts(false, d, BACK) && Built(false, 1, d, [], Grammar(BACK))
    ensures !Terminates([], Grammar(BACK), s, i)
    ensures CallsLeft(MAXRULES, d, BACK, BACK[0]) && CallsBack(BACK, 0) && !Accepts(true, d, BACK)
  {
    assert Calls(BACK[0]) == {0};
    assert RuleAccepted(false, d, BACK, 0);
    assert Built(false, 0, d, BACK, And(Call(0)));
    forall fuel: nat ensures Match([], Grammar(BACK), s, i, fuel).None? {
      BackDiverges(s, i, fuel);
    }
    BackLeft(d, MAXRULES);
    assert 0 in BehindCalls(BACK[0]) && ReachesIn(BACK, 0, 0, 0);
    assert !RuleAccepted(true, d, BACK, 0) && Used(BACK, 0);
  }

  lemma {:induction false} BackDiverges(s: seq<Byte>, i: nat, fuel: nat)
    requires i <= |s|
    ensures Match(BACK, BACK[0], s, i, fuel).None?
  {
    if fuel > 0 {
      BackDiverges(s, i, fuel - 1);
    }
    assert Match(BACK, Call(0), s, i, fuel).None?;
    assert Match(BACK, And(Call(0)), s, i, fuel).None?;
    assert Match(BACK, Behind(0, And(Call(0))), s, i, fuel).None?;
  }

  lemma {:induction false} BackLeft(d: nat, fuel: nat)
    ensures CallsLeft(fuel, d, BACK, BACK[0])
  {
    if fuel > 0 {
      BackLeft(d, fuel - 1);
    }
    assert CallsLeft(fuel, d, BACK, Call(0));
    assert CallsLeft(fuel, d, BACK, Behind(0, And(Call(0))));
  }

  /** A look-behind that calls back is endless even where no call is left recursive. */
  lemma AcceptedGoingBack(d: nat)
    ensures FixedLen(d, [], Seq(And(Call(0)), Char(97))) == 1
    ensures Accepts(false, d, AGAIN) && Built(false, 1, d, [], Grammar(AGAIN))
    ensures !Terminates([], Grammar(AGAIN), [97], 0)
    ensures !CallsLeft(MAXRULES, d, AGAIN, AGAIN[0]) && CallsBack(AGAIN, 0) && !Accepts(true, d, AGAIN)
  {
    var body := Seq(And(Call(0)), Char(97));
    assert FixedLen(d, [], And(Call(0))) == 0 && FixedLen(d, [], Char(97)) == 1;
    assert Calls(body) == {0} && Calls(AGAIN[0]) == Calls(Char(97)) + Calls(Behind(1, body)) == {0};
    assert !Empties(MAXRULES, d, AGAIN, Char(97)) && !CallsLeft(MAXRULES, d, AGAIN, Char(97));
    assert VerifyRule(false, d, AGAIN, Char(97), 0, false) == Passed(false);
    assert !CheckLoops(d, AGAIN, body) && !CheckLoops(d, AGAIN, AGAIN[0]);
    assert RuleAccepted(false, d, AGAIN, 0);
    assert Built(false, 0, d, AGAIN, body);
    forall fuel: nat ensures Match([], Grammar(AGAIN), [97], 0, fuel).None? {
      AgainDiverges(fuel);
    }
    assert BehindCalls(AGAIN[0]) == BehindCalls(Char(97)) + BehindCalls(Behind(1, body)) == {0};
    assert ReachesIn(AGAIN, 0, 0, 0);
    assert !RuleAccepted(true, d, AGAIN, 0) && Used(AGAIN, 0);
  }

  lemma {:induction false} AgainDiverges(fuel: nat)
    ensures Match(AGAIN, AGAIN[0], [97], 0, fuel).None?
  {
    var body := Seq(And(Call(0)), Char(97));
    if fuel > 0 {
      AgainDiverges(fuel - 1);
    }
    assert Match(AGAIN, Call(0), [97], 0, fuel).None?;
    assert Match(AGAIN, And(Call(0)), [97], 0, fuel).None?;
    assert Match(AGAIN, body, [97], 0, fuel).None?;
    assert Match(AGAIN, Char(97), [97], 0, fuel) == Some(Ok(1));
    assert Match(AGAIN, Behind(1, body), [97], 1, fuel).None?;
  }
}
