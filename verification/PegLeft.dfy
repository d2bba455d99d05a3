/** What `verifygrammar` rules out, the analyses do not run into: where the left calls of all rules are bounded, every
    analysis of every pattern over these rules comes to an end. */
module PegLeft {
  import opened Peg
  import opened PegAnalysis
  import opened PegAnswers
  import opened PegGen
  import opened PegGrammar
  import opened PegSettled

  /** The grammars inside answer everything but the question for a length, which none need have. */
  ghost predicate InsideAnswers(d: nat, t: Tree) {
    match t
    case Rep(p) => InsideAnswers(d, p)
    case Seq(p1, p2) => InsideAnswers(d, p1) && InsideAnswers(d, p2)
    case Choice(p1, p2) => InsideAnswers(d, p1) && InsideAnswers(d, p2)
    case Not(p) => InsideAnswers(d, p)
    case And(p) => InsideAnswers(d, p)
    case Behind(_, p) => InsideAnswers(d, p)
    case Grammar(_) => forall q: Question :: !q.FixedLength? ==> Answers(q, d, [], t)
    case _ => true
  }

  /** These are rules, and their left calls are bounded. */
  ghost predicate Bounded(d: nat, rules: seq<Tree>, calls: set<nat>) {
    forall n :: n in calls ==> n < |rules| && !CallsLeft(MAXRULES, d, rules, rules[n])
  }

  ghost predicate Fine(d: nat, rules: seq<Tree>, t: Tree) {
    InsideAnswers(d, t) && Bounded(d, rules, Calls(t))
  }

  ghost predicate RulesFine(d: nat, rules: seq<Tree>) {
    forall k :: 0 <= k < |rules| ==> Fine(d, rules, rules[k])
  }

  lemma {:induction false} NoFailNullable(d: nat, rules: seq<Tree>, t: Tree)
    requires NoFail(d, rules, t)
    ensures Nullable(d, rules, t)
    decreases d, t
  {
    match t
    case Seq(p1, p2) => NoFailNullable(d, rules, p1); NoFailNullable(d, rules, p2);
    case Choice(p1, p2) =>
      if NoFail(d, rules, p2) {
        NoFailNullable(d, rules, p2);
      } else {
        NoFailNullable(d, rules, p1);
      }
    case Call(n) => NoFailNullable(d - 1, rules, rules[n]);
    case Grammar(rs) => NoFailNullable(d, rs, rs[0]);
    case _ =>
  }

  /** With `fuel` left calls at most, `checkaux` and `getfirst` follow no more than these, and then what grammars inside need. */
  lemma {:induction false} LeftAnswers(q: Question, fuel: nat, d: nat, rules: seq<Tree>, t: Tree)
    requires (q.Nullability? || q.NoFailure? || q.FirstSet?) && !CallsLeft(fuel, d, rules, t)
    requires InsideAnswers(d, t) && RulesFine(d, rules)
    ensures Answers(q, d + fuel, rules, t)
    ensures Nullable(d + fuel, rules, t) <==> Empties(fuel, d, rules, t)
    decreases fuel, t
  {
    hide GetFirst;
    match t
    case Call(n) => LeftAnswers(q, fuel - 1, d, rules, rules[n]);
    case Grammar(rs) =>
      assert Answers(q, d, [], t) && Answers(Nullability, d, [], t);
      AnswersMore(q, d, d + fuel, rules, t);
      AnswersMore(Nullability, d, d + fuel, rules, t);
    case Rep(p) => LeftAnswers(q, fuel, d, rules, p);
    case Not(p) => LeftAnswers(q, fuel, d, rules, p);
    case Behind(_, p) => LeftAnswers(q, fuel, d, rules, p);
    case And(p) => LeftAnswers(q, fuel, d, rules, p);
    case Seq(p1, p2) =>
      LeftAnswers(q, fuel, d, rules, p1);
      LeftAnswers(Nullability, fuel, d, rules, p1);
      if NoFail(d + fuel, rules, p1) {
        NoFailNullable(d + fuel, rules, p1);
      }
      if Empties(fuel, d, rules, p1) {
        LeftAnswers(q, fuel, d, rules, p2);
      }
    case Choice(p1, p2) =>
      LeftAnswers(q, fuel, d, rules, p1);
      LeftAnswers(q, fuel, d, rules, p2);
    case _ =>
  }

  lemma {:induction false} AnyLeft(d: nat, rules: seq<Tree>, t: Tree, calls: set<nat>)
    requires Calls(t) <= calls && Bounded(d, rules, calls)
    ensures !CallsLeft(MAXRULES + 1, d, rules, t)
    decreases t
  {
    hide Empties;
    match t
    case Rep(p) => AnyLeft(d, rules, p, calls);
    case Not(p) => AnyLeft(d, rules, p, calls);
    case And(p) => AnyLeft(d, rules, p, calls);
    case Behind(_, p) => AnyLeft(d, rules, p, calls);
    case Seq(p1, p2) => AnyLeft(d, rules, p1, calls); AnyLeft(d, rules, p2, calls);
    case Choice(p1, p2) => AnyLeft(d, rules, p1, calls); AnyLeft(d, rules, p2, calls);
    case _ =>
  }

  /** `headfail` follows left calls, and asks besides whether what comes later is nofail. */
  lemma {:induction false} HeadAnswers(fuel: nat, d: nat, rules: seq<Tree>, t: Tree, calls: set<nat>)
    requires !CallsLeft(fuel, d, rules, t) && InsideAnswers(d, t) && RulesFine(d, rules)
    requires Calls(t) <= calls && Bounded(d, rules, calls)
    ensures Answers(HeadFailure, d + fuel + MAXRULES + 1, rules, t)
    decreases fuel, t
  {
    hide Nullable, NoFail, HeadFail, Empties, Bounded;
    var e := d + fuel + MAXRULES + 1;
    match t
    case Call(n) => HeadAnswers(fuel - 1, d, rules, rules[n], Calls(rules[n]));
    case Grammar(rs) =>
      assert Answers(HeadFailure, d, [], t);
      AnswersMore(HeadFailure, d, e, rules, t);
    case And(p) => HeadAnswers(fuel, d, rules, p, calls);
    case Seq(p1, p2) =>
      AnyLeft(d, rules, p2, calls);
      LeftAnswers(NoFailure, MAXRULES + 1, d, rules, p2);
      AnswersMore(NoFailure, d + MAXRULES + 1, e, rules, p2);
      HeadAnswers(fuel, d, rules, p1, calls);
    case Choice(p1, p2) =>
      HeadAnswers(fuel, d, rules, p1, calls);
      HeadAnswers(fuel, d, rules, p2, calls);
    case _ =>
  }

  /** Every question but that for a length is answered of every pattern over such rules. */
  lemma AllAnswer(q: Question, d: nat, rules: seq<Tree>, t: Tree)
    requires !q.FixedLength? && Ample(d, rules, t) && Fine(d, rules, t) && RulesFine(d, rules)
    ensures Answers(q, d, rules, t)
  {
    hide Answers, CallsLeft, InsideAnswers, Empties;
    AnyLeft(d, rules, t, Calls(t));
    var e := d + MAXRULES + 1;
    if q.HeadFailure? {
      HeadAnswers(MAXRULES + 1, d, rules, t, Calls(t));
      AnswersSettled(q, d, e + MAXRULES + 1, rules, t);
    } else {
      LeftAnswers(q, MAXRULES + 1, d, rules, t);
      AnswersSettled(q, d, e, rules, t);
    }
  }

  // ---- Patterns whose grammars were accepted ----------------------------------------------------------------------

  lemma AcceptedLeft(d: nat, rules: seq<Tree>, k: nat)
    requires k < |rules| && Used(rules, k) && Accepts(true, d, rules)
    ensures !CallsLeft(MAXRULES, d, rules, rules[k])
  {
    assert RuleAccepted(true, d, rules, k);
    VerifyRuleExactly(d, rules, rules[k], 0, false);
  }

  lemma {:induction false} CallsFormed(d: nat, rules: seq<Tree>, t: Tree)
    requires WellFormed(d, rules, t)
    ensures forall n :: n in Calls(t) ==> n < |rules|
    decreases t
  {
    match t
    case Rep(p) => CallsFormed(d, rules, p);
    case Seq(p1, p2) => CallsFormed(d, rules, p1); CallsFormed(d, rules, p2);
    case Choice(p1, p2) => CallsFormed(d, rules, p1); CallsFormed(d, rules, p2);
    case Not(p) => CallsFormed(d, rules, p);
    case And(p) => CallsFormed(d, rules, p);
    case Behind(_, p) => CallsFormed(d, rules, p);
    case _ =>
  }

  lemma RulesAreFine(d: nat, rs: seq<Tree>)
    requires forall k :: 0 <= k < |rs| ==> WellFormed(d, rs, rs[k]) && InsideAnswers(d, rs[k])
    requires forall k :: 0 <= k < |rs| && Used(rs, k) ==> !CallsLeft(MAXRULES, d, rs, rs[k])
    ensures RulesFine(d, rs)
  {
    hide WellFormed, InsideAnswers, CallsLeft;
    forall k | 0 <= k < |rs| ensures Fine(d, rs, rs[k]) {
      CallsFormed(d, rs, rs[k]);
    }
  }

  /** In a pattern whose grammars were accepted with the accumulator kept, they answer. */
  lemma {:induction false} AcceptedInside(depth: nat, d: nat, rules: seq<Tree>, t: Tree)
    requires WellFormed(d, rules, t) && BuiltInside(true, depth, d, t) && d >= Bound(t)
    ensures InsideAnswers(d, t)
    decreases t, 0
  {
    match t
    case Rep(p) => AcceptedInside(depth, d, rules, p);
    case Seq(p1, p2) => AcceptedInside(depth, d, rules, p1); AcceptedInside(depth, d, rules, p2);
    case Choice(p1, p2) => AcceptedInside(depth, d, rules, p1); AcceptedInside(depth, d, rules, p2);
    case Not(p) => AcceptedInside(depth, d, rules, p);
    case And(p) => AcceptedInside(depth, d, rules, p);
    case Behind(_, p) => AcceptedInside(depth, d, rules, p);
    case Grammar(rs) =>
      GrammarFine(depth, d, rs);
      forall q: Question | !q.FixedLength? ensures Answers(q, d, [], t) {
        AllAnswer(q, d, rs, rs[0]);
      }
    case _ =>
  }

  lemma {:induction false} GrammarFine(depth: nat, d: nat, rs: seq<Tree>)
    requires WellFormed(d, [], Grammar(rs)) && BuiltInside(true, depth, d, Grammar(rs)) && d >= Bound(Grammar(rs))
    ensures RulesFine(d, rs)
    decreases rs, 1
  {
    forall k | 0 <= k < |rs| ensures WellFormed(d, rs, rs[k]) && InsideAnswers(d, rs[k]) {
      AcceptedInside(depth, d, rs, rs[k]);
    }
    forall k | 0 <= k < |rs| && Used(rs, k) ensures !CallsLeft(MAXRULES, d, rs, rs[k]) {
      AcceptedLeft(d, rs, k);
    }
    RulesAreFine(d, rs);
  }

  /** The analyses of code generation end for every pattern whose grammars were accepted. */
  lemma AcceptedAnswers(depth: nat, d: nat, t: Tree)
    requires WellFormed(d, [], t) && BuiltInside(true, depth, d, t) && Ample(d, [], t)
    ensures GenAnswers(d, [], t)
  {
    AcceptedInside(depth, d, [], t);
    CallsFormed(d, [], t);
    FineGenAnswers(depth, d, [], t);
  }

  lemma {:induction false} FineGenAnswers(depth: nat, d: nat, rules: seq<Tree>, t: Tree)
    requires WellFormed(d, rules, t) && BuiltInside(true, depth, d, t) && Ample(d, rules, t)
    requires Fine(d, rules, t) && RulesFine(d, rules)
    ensures GenAnswers(d, rules, t)
    decreases t
  {
    hide Answers, CallsLeft, HeadFail, GetFirst, Accepts, Built;
    match t
    case Choice(p1, p2) =>
      AllAnswer(FirstSet, d, rules, p1);
      AllAnswer(HeadFailure, d, rules, p1);
      AllAnswer(FirstSet, d, rules, p2);
      FineGenAnswers(depth, d, rules, p1);
      FineGenAnswers(depth, d, rules, p2);
    case Rep(p) =>
      AllAnswer(FirstSet, d, rules, p);
      AllAnswer(HeadFailure, d, rules, p);
      FineGenAnswers(depth, d, rules, p);
    case Not(p) =>
      AllAnswer(FirstSet, d, rules, p);
      AllAnswer(HeadFailure, d, rules, p);
      FineGenAnswers(depth, d, rules, p);
    case And(p) => FineGenAnswers(depth, d, rules, p);
    case Behind(_, p) => FineGenAnswers(depth, d, rules, p);
    case Seq(p1, p2) =>
      AllAnswer(FirstSet, d, rules, p2);
      FineGenAnswers(depth, d, rules, p1);
      FineGenAnswers(depth, d, rules, p2);
    case Grammar(rs) =>
      GrammarFine(depth, d, rs);
      forall k | 0 <= k < |rs| ensures GenAnswers(d, rs, rs[k]) {
        FineGenAnswers(depth, d, rs, rs[k]);
      }
    case _ =>
  }

  // ---- Verifying a grammar ----------------------------------------------------------------------------------------

  lemma {:induction false} InsideRule(d: nat, rules: seq<Tree>, t: Tree, npassed: nat, nb: bool)
    requires npassed <= MAXRULES && InsideAnswers(d, t) && forall k :: 0 <= k < |rules| ==> InsideAnswers(d, rules[k])
    ensures RuleAnswers(d, rules, t, npassed, nb)
    decreases MAXRULES - npassed, t
  {
    hide Answers, VerifyRule;
    match t
    case Not(p) => InsideRule(d, rules, p, npassed, true);
    case And(p) => InsideRule(d, rules, p, npassed, true);
    case Rep(p) => InsideRule(d, rules, p, npassed, true);
    case Call(n) =>
      if npassed < MAXRULES && n < |rules| {
        InsideRule(d, rules, rules[n], npassed + 1, nb);
      }
    case Seq(p1, p2) =>
      InsideRule(d, rules, p1, npassed, false);
      InsideRule(d, rules, p2, npassed, nb);
    case Choice(p1, p2) =>
      InsideRule(d, rules, p1, npassed, nb);
      var v := VerifyRule(false, d, rules, p1, npassed, nb);
      if v.Passed? {
        InsideRule(d, rules, p2, npassed, v.nullable);
      }
    case Grammar(rs) => GrammarAnswer(d, rules, rs);
    case _ =>
  }

  lemma GrammarAnswer(d: nat, rules: seq<Tree>, rs: seq<Tree>)
    requires InsideAnswers(d, Grammar(rs))
    ensures Answers(Nullability, d, rules, Grammar(rs))
  {
    assert Answers(Nullability, d, [], Grammar(rs));
  }

  lemma {:induction false} FineLoops(d: nat, rules: seq<Tree>, t: Tree)
    requires Ample(d, rules, t) && Fine(d, rules, t) && RulesFine(d, rules)
    ensures LoopsAnswer(d, rules, t)
    decreases t
  {
    hide Answers, CallsLeft, CheckLoops;
    match t
    case Rep(p) =>
      AllAnswer(Nullability, d, rules, p);
      FineLoops(d, rules, p);
    case Seq(p1, p2) => FineLoops(d, rules, p1); FineLoops(d, rules, p2);
    case Choice(p1, p2) => FineLoops(d, rules, p1); FineLoops(d, rules, p2);
    case Not(p) => FineLoops(d, rules, p);
    case And(p) => FineLoops(d, rules, p);
    case Behind(_, p) => FineLoops(d, rules, p);
    case _ =>
  }

  /** Verifying a grammar ends when the grammars inside it were accepted with the accumulator kept and, if no left recursion is
      found, none was passed over. */
  lemma VerifyingEnds(depth: nat, d: nat, rules: seq<Tree>)
    requires WellFormed(d, [], Grammar(rules)) && Ample(d, [], Grammar(rules))
    requires forall k :: 0 <= k < |rules| ==> BuiltInside(true, depth, d, rules[k])
    requires NoneLeft(d, rules, |rules|) ==>
               forall k :: 0 <= k < |rules| && Used(rules, k) ==> !CallsLeft(MAXRULES, d, rules, rules[k])
    ensures VerifyEnds(d, rules)
  {
    forall k | 0 <= k < |rules| ensures InsideAnswers(d, rules[k]) {
      AcceptedInside(depth, d, rules, rules[k]);
    }
    forall k | 0 <= k < |rules| ensures RuleAnswers(d, rules, rules[k], 0, false) {
      InsideRule(d, rules, rules[k], 0, false);
    }
    if NoneLeft(d, rules, |rules|) {
      RulesAreFine(d, rules);
      forall k | 0 <= k < |rules| ensures LoopsAnswer(d, rules, rules[k]) {
        FineLoops(d, rules, rules[k]);
      }
    }
  }
}
