/** When the analyses that code generation asks for come to an end, and that the code is then the same for all bounds that
    are large enough. */
module PegSettled {
  import opened Peg
  import opened PegAnalysis
  import opened PegAnswers
  import opened PegMachine
  import opened PegGen

  /** The analyses that `codegen` asks for come to an end. */
  predicate GenAnswers(d: nat, rules: seq<Tree>, t: Tree)
    decreases t
  {
    match t
    case Choice(p1, p2) =>
      && Answers(FirstSet, d, rules, p1) && Answers(HeadFailure, d, rules, p1)
      && (HeadFail(d, rules, p1) || GetFirst(d, rules, p1, FULL).empty || Answers(FirstSet, d, rules, p2))
      && GenAnswers(d, rules, p1) && GenAnswers(d, rules, p2)
    case Rep(p) =>
      ToCharset(p).None? ==> Answers(FirstSet, d, rules, p) && Answers(HeadFailure, d, rules, p) && GenAnswers(d, rules, p)
    case Not(p) =>
      && Answers(FirstSet, d, rules, p) && Answers(HeadFailure, d, rules, p)
      && (HeadFail(d, rules, p) || GenAnswers(d, rules, p))
    case And(p) => GenAnswers(d, rules, p)
    case Behind(_, p) => GenAnswers(d, rules, p)
    case Seq(p1, p2) =>
      && (NeedFollow(p1) ==> Answers(FirstSet, d, rules, p2))
      && GenAnswers(d, rules, p1) && GenAnswers(d, rules, p2)
    case Grammar(rs) => forall k :: 0 <= k < |rs| ==> GenAnswers(d, rs, rs[k])
    case _ => true
  }

  /** If they end within any bound, they do within an ample one. */
  lemma {:induction false} GenAnswersSettled(d: nat, more: nat, rules: seq<Tree>, t: Tree)
    requires Ample(d, rules, t) && GenAnswers(more, rules, t)
    ensures GenAnswers(d, rules, t)
    decreases t
  {
    hide Answers, HeadFail, GetFirst, Nullable, NoFail, FixedLen;
    match t
    case Choice(p1, p2) =>
      AnswersSettled(FirstSet, d, more, rules, p1);
      AnswersSettled(HeadFailure, d, more, rules, p1);
      if Answers(FirstSet, more, rules, p2) {
        AnswersSettled(FirstSet, d, more, rules, p2);
      }
      GenAnswersSettled(d, more, rules, p1);
      GenAnswersSettled(d, more, rules, p2);
    case Rep(p) =>
      if ToCharset(p).None? {
        AnswersSettled(FirstSet, d, more, rules, p);
        AnswersSettled(HeadFailure, d, more, rules, p);
        GenAnswersSettled(d, more, rules, p);
      }
    case Not(p) =>
      AnswersSettled(FirstSet, d, more, rules, p);
      AnswersSettled(HeadFailure, d, more, rules, p);
      if !HeadFail(d, rules, p) {
        GenAnswersSettled(d, more, rules, p);
      }
    case And(p) => GenAnswersSettled(d, more, rules, p);
    case Behind(_, p) => GenAnswersSettled(d, more, rules, p);
    case Seq(p1, p2) =>
      if NeedFollow(p1) {
        AnswersSettled(FirstSet, d, more, rules, p2);
      }
      GenAnswersSettled(d, more, rules, p1);
      GenAnswersSettled(d, more, rules, p2);
    case Grammar(rs) =>
      forall k | 0 <= k < |rs| ensures GenAnswers(d, rs, rs[k]) {
        GenAnswersSettled(d, more, rs, rs[k]);
      }
    case _ =>
  }

  /** Code generated with one ample bound is generated with every other. */
  lemma {:induction false} GenSettled(d: nat, more: nat, rules: seq<Tree>, t: Tree, opt: bool, tt: Test, fl: set<Byte>)
    requires Ample(d, rules, t) && Ample(more, rules, t) && GenAnswers(d, rules, t)
    ensures Gen(d, rules, t, opt, tt, fl) == Gen(more, rules, t, opt, tt, fl)
    decreases t, 0
  {
    hide Answers, HeadFail, GetFirst, Nullable, NoFail, FixedLen, Classify, OptTest, GenTest, AsmAnd, AsmRep, AsmTestedRep, AsmNot;
    match t
    case Choice(p1, p2) => ChoiceSettled(d, more, rules, p1, p2, opt, fl);
    case Rep(p) =>
      if ToCharset(p).None? {
        AmpleAlike(FirstSet, d, more, rules, p);
        AmpleAlike(HeadFailure, d, more, rules, p);
        var f := GetFirst(d, rules, p, FULL);
        GenSettled(d, more, rules, p, false, TestOf(f.cs), FULL);
        GenSettled(d, more, rules, p, false, NoTest, FULL);
      }
    case Not(p) =>
      AmpleAlike(FirstSet, d, more, rules, p);
      AmpleAlike(HeadFailure, d, more, rules, p);
      if !HeadFail(d, rules, p) {
        GenSettled(d, more, rules, p, false, NoTest, FULL);
      }
    case And(p) =>
      AmpleAlike(FixedLength, d, more, rules, p);
      GenSettled(d, more, rules, p, false, tt, FULL);
    case Behind(_, p) => GenSettled(d, more, rules, p, false, NoTest, FULL);
    case Seq(p1, p2) =>
      AmpleAlike(FirstSet, d, more, rules, p2);
      AmpleAlike(FixedLength, d, more, rules, p1);
      GenSettled(d, more, rules, p1, false, tt, SeqFollow(d, rules, p1, p2, fl));
      GenSettled(d, more, rules, p2, opt, if FixedLen(d, rules, p1) != 0 then NoTest else tt, fl);
    case Grammar(rs) => BodySettled(d, more, rs);
    case _ =>
  }

  lemma {:induction false} ChoiceSettled(d: nat, more: nat, rules: seq<Tree>, p1: Tree, p2: Tree, opt: bool, fl: set<Byte>)
    requires Ample(d, rules, Choice(p1, p2)) && Ample(more, rules, Choice(p1, p2)) && GenAnswers(d, rules, Choice(p1, p2))
    ensures forall tt :: Gen(d, rules, Choice(p1, p2), opt, tt, fl) == Gen(more, rules, Choice(p1, p2), opt, tt, fl)
    decreases Choice(p1, p2), -1
  {
    hide Answers, HeadFail, GetFirst, Nullable, NoFail, FixedLen, Classify, OptTest, GenTest, AsmTestedChoice, AsmChoice;
    AmpleAlike(FirstSet, d, more, rules, p1);
    AmpleAlike(HeadFailure, d, more, rules, p1);
    AmpleAlike(FirstSet, d, more, rules, p2);
    assert ChoiceTested(d, rules, p1, p2, fl) <==> ChoiceTested(more, rules, p1, p2, fl);
    var f1 := GetFirst(d, rules, p1, FULL);
    GenSettled(d, more, rules, p1, false, TestOf(f1.cs), fl);
    GenSettled(d, more, rules, p1, true, NoTest, FULL);
    GenSettled(d, more, rules, p1, p2.True?, OptTestOf(f1), FULL);
    GenSettled(d, more, rules, p2, opt, NoTest, fl);
  }

  lemma {:induction false} BodySettled(d: nat, more: nat, rs: seq<Tree>)
    requires Ample(d, [], Grammar(rs)) && Ample(more, [], Grammar(rs))
    requires forall k :: 0 <= k < |rs| ==> GenAnswers(d, rs, rs[k])
    ensures RulesCode(d, rs, |rs|) == RulesCode(more, rs, |rs|) && Positions(d, rs) == Positions(more, rs)
    decreases rs, |rs| + 1
  {
    hide Gen;
    forall n | 0 <= n <= |rs| ensures RulesCode(d, rs, n) == RulesCode(more, rs, n) {
      RulesSettled(d, more, rs, n);
    }
  }

  lemma {:induction false} RulesSettled(d: nat, more: nat, rs: seq<Tree>, n: nat)
    requires n <= |rs| && Ample(d, [], Grammar(rs)) && Ample(more, [], Grammar(rs))
    requires forall k :: 0 <= k < |rs| ==> GenAnswers(d, rs, rs[k])
    ensures RulesCode(d, rs, n) == RulesCode(more, rs, n)
    decreases rs, n
  {
    hide Gen;
    if n > 0 {
      RulesSettled(d, more, rs, n - 1);
      GenSettled(d, more, rs, rs[n - 1], false, NoTest, FULL);
    }
  }

  lemma {:induction false} WellFormedSettled(d: nat, more: nat, rules: seq<Tree>, t: Tree)
    requires Ample(d, rules, t) && Ample(more, rules, t) && WellFormed(d, rules, t)
    ensures WellFormed(more, rules, t)
    decreases t
  {
    hide FixedLen, Answers;
    match t
    case Rep(p) => WellFormedSettled(d, more, rules, p);
    case Seq(p1, p2) => WellFormedSettled(d, more, rules, p1); WellFormedSettled(d, more, rules, p2);
    case Choice(p1, p2) => WellFormedSettled(d, more, rules, p1); WellFormedSettled(d, more, rules, p2);
    case Not(p) => WellFormedSettled(d, more, rules, p);
    case And(p) => WellFormedSettled(d, more, rules, p);
    case Behind(n, p) =>
      AmpleAlike(FixedLength, d, more, rules, p);
      WellFormedSettled(d, more, rules, p);
    case Grammar(rs) =>
      forall k | 0 <= k < |rs| ensures WellFormed(more, rs, rs[k]) {
        WellFormedSettled(d, more, rs, rs[k]);
      }
    case _ =>
  }
}
