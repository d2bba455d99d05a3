/** Compiling and matching what `verifygrammar` accepts: both end. A grammar whose rules end on the empty subject has no
    circle of jumps, since running through such a circle would never end. */
module PegAccepted {
  import opened Peg
  import opened PegAnalysis
  import opened PegAnswers
  import opened PegMachine
  import opened PegGen
  import opened PegLayout
  import opened PegJumps
  import opened PegGrammar
  import opened PegSettled
  import opened PegLeft
  import opened PegChase
  import opened PegCorrect
  import opened PegPeephole
  import opened PegCompiler

  // ---- A rule that ends has no circle at its start ------------------------------------------------------------------

  /** A machine that stops has not gone round in a circle. */
  lemma {:induction false} StopsEnds(m: Machine, a: int, i: nat, st: Stack, n: nat)
    requires !Run(m, Running(a, i, st), n).Running?
    ensures Ends(m.code, a)
    decreases n
  {
    if IsJump(m.code, a) {
      StopsEnds(m, Target(m.code, a), i, st, n - 1);
      Onward(m.code, a);
    } else {
      EndsHere(m.code, a);
    }
  }

  /** A rule started with this stack gives up when it is through. */
  function StartStack(): Stack { Push(Ret(GIVEUP), Push(Back(GIVEUP, 0), Nil)) }

  function ThroughState(res: Result): State {
    if res.Ok? then GaveUp(Push(Back(GIVEUP, 0), Nil)) else GaveUp(Nil)
  }

  lemma Through(m: Machine, res: Result)
    ensures var r := ThroughState(res);
            Halts(m, if res.Ok? then Running(GIVEUP, res.pos, Push(Back(GIVEUP, 0), Nil)) else FailState(StartStack()), r)
  {
    var r := ThroughState(res);
    assert Run(m, r, 0) == r;
    if res.Ok? {
      StepTo(m, Running(GIVEUP, res.pos, Push(Back(GIVEUP, 0), Nil)), r, r);
    } else {
      StepTo(m, Running(GIVEUP, 0, Nil), r, r);
    }
  }

  lemma RuleStartEnds(d: nat, rs: seq<Tree>, n: nat)
    requires (forall k :: 0 <= k < |rs| ==> WellFormed(d, rs, rs[k])) && n < |rs| && Terminates(rs, rs[n], [], 0)
    ensures Ends(Body(d, rs), Positions(d, rs)[n])
  {
    var code, pos := Body(d, rs), Positions(d, rs);
    GrammarRulesAt(d, rs, code, 0, pos);
    hide Body, Positions, Match, RulesAt;
    var fuel: nat :| Match(rs, rs[n], [], 0, fuel).Some?;
    var m := Machine(code, []);
    var res := Match(rs, rs[n], [], 0, fuel).value;
    Through(m, res);
    RuleCorrect(Env(m, d, rs, pos), n, 0, StartStack(), fuel, ThroughState(res));
    var steps: nat :| Run(m, Running(pos[n], 0, StartStack()), steps) == ThroughState(res);
    StopsEnds(m, pos[n], 0, StartStack(), steps);
  }

  /** The rules that the first `k` rules call */
  function CalledIn(rs: seq<Tree>, k: nat): set<nat>
    requires k <= |rs|
  {
    if k == 0 then {} else CalledIn(rs, k - 1) + Calls(rs[k - 1])
  }

  lemma {:induction false} CalledUsed(rs: seq<Tree>, k: nat, n: nat)
    requires k <= |rs| && n in CalledIn(rs, k)
    ensures Used(rs, n)
  {
    if n !in Calls(rs[k - 1]) {
      CalledUsed(rs, k - 1, n);
    }
  }

  lemma {:induction false} CalledAll(rs: seq<Tree>, k: nat, j: nat)
    requires j < k <= |rs|
    ensures Calls(rs[j]) <= CalledIn(rs, k)
  {
    if j < k - 1 {
      CalledAll(rs, k - 1, j);
    }
  }

  lemma {:induction false} RulesTidy(d: nat, rs: seq<Tree>, k: nat)
    requires k <= |rs| && forall j :: 0 <= j < |rs| ==> WellFormed(d, rs, rs[j]) && BodiesEnd(d, rs, rs[j])
    ensures Tidy(RulesCode(d, rs, k), CalledIn(rs, |rs|))
    decreases k
  {
    hide Tidy, Gen, BodiesEnd;
    var calls := CalledIn(rs, |rs|);
    if k == 0 {
      TidyOut([], calls);
    } else {
      RulesTidy(d, rs, k - 1);
      CalledAll(rs, |rs|, k - 1);
      GenTidy(d, rs, rs[k - 1], false, NoTest, FULL, calls);
      TidyIns(IRet, calls);
      TidyConcat(Gen(d, rs, rs[k - 1], false, NoTest, FULL), Ins(IRet), calls);
      TidyConcat(RulesCode(d, rs, k - 1), RuleCode(d, rs, k - 1), calls);
    }
  }

  /** All rules that are used end on the empty subject. */
  ghost predicate UsedEnd(rs: seq<Tree>) {
    forall n :: 0 <= n < |rs| && Used(rs, n) ==> Terminates(rs, rs[n], [], 0)
  }

  /** In the body of a grammar, a chase that leaves the jumps of its rules goes on at the start of a rule, and ends there. */
  lemma {:induction false} BodyEnds(d: nat, rs: seq<Tree>, a: int, n: nat)
    requires forall j :: 0 <= j < |rs| ==> WellFormed(d, rs, rs[j]) && BodiesEnd(d, rs, rs[j])
    requires UsedEnd(rs) && EndsIn(RulesCode(d, rs, |rs|), a, n)
    ensures Ends(Body(d, rs), a)
    decreases n
  {
    BodyClosed(d, rs);
    hide Parses, TailAt, Positions, RulesCode, Body, Gen, BodiesEnd, Ends;
    var (raw, body) := (RulesCode(d, rs, |rs|), Body(d, rs));
    if !IsJump(body, a) {
      EndsHere(body, a);
    } else {
      assert Closed(body, Positions(d, rs), raw, a) && Closed(body, Positions(d, rs), raw, a + 1);
      if raw[a].code == IOpenCall {
        var k := raw[a].key;
        assert CallAt(body, Positions(d, rs), a, k);
        RulesTidy(d, rs, |rs|);
        assert k in CalledIn(rs, |rs|) by { OpenCalls(raw, CalledIn(rs, |rs|), a); }
        CalledUsed(rs, |rs|, k);
        RuleStartEnds(d, rs, k);
      } else {
        ParsesInstr(raw, 0, a, |rs|);
        BodyEnds(d, rs, Target(raw, a), n - 1);
      }
      Onward(body, a);
    }
  }

  lemma OpenCalls(g: seq<Slot>, calls: set<nat>, k: int)
    requires Tidy(g, calls) && IsOp(g, k, IOpenCall)
    ensures g[k].key in calls
  {
  }

  lemma BodyAllEnd(d: nat, rs: seq<Tree>)
    requires forall j :: 0 <= j < |rs| ==> WellFormed(d, rs, rs[j]) && BodiesEnd(d, rs, rs[j])
    requires UsedEnd(rs)
    ensures AllEnd(Body(d, rs))
  {
    RulesTidy(d, rs, |rs|);
    var raw := RulesCode(d, rs, |rs|);
    assert AllEnd(raw);
    hide Tidy, RulesCode, Body, BodiesEnd, UsedEnd;
    forall a ensures Ends(Body(d, rs), a) {
      var n := Length(raw, a);
      BodyEnds(d, rs, a, n);
    }
  }

  /** In every grammar inside, in whatever rule, the rules that are used end on the empty subject. */
  ghost predicate RulesEnd(t: Tree) {
    match t
    case Rep(p) => RulesEnd(p)
    case Seq(p1, p2) => RulesEnd(p1) && RulesEnd(p2)
    case Choice(p1, p2) => RulesEnd(p1) && RulesEnd(p2)
    case Not(p) => RulesEnd(p)
    case And(p) => RulesEnd(p)
    case Behind(_, p) => RulesEnd(p)
    case Grammar(rs) => UsedEnd(rs) && forall k :: 0 <= k < |rs| ==> RulesEnd(rs[k])
    case _ => true
  }

  lemma {:induction false} RulesEndBodies(d: nat, rules: seq<Tree>, t: Tree)
    requires WellFormed(d, rules, t) && RulesEnd(t)
    ensures BodiesEnd(d, rules, t)
    decreases t
  {
    hide AllEnd, UsedEnd, Body, HeadFail;
    match t
    case Rep(p) => RulesEndBodies(d, rules, p);
    case Seq(p1, p2) => RulesEndBodies(d, rules, p1); RulesEndBodies(d, rules, p2);
    case Choice(p1, p2) => RulesEndBodies(d, rules, p1); RulesEndBodies(d, rules, p2);
    case Not(p) => RulesEndBodies(d, rules, p);
    case And(p) => RulesEndBodies(d, rules, p);
    case Behind(_, p) => RulesEndBodies(d, rules, p);
    case Grammar(rs) =>
      forall k | 0 <= k < |rs| ensures BodiesEnd(d, rs, rs[k]) {
        RulesEndBodies(d, rs, rs[k]);
      }
      BodyAllEnd(d, rs);
    case _ =>
  }

  /** The chases end in a pattern whose rules do: compiling it ends if and only if the analyses do. */
  lemma EndingCompiles(d: nat, t: Tree)
    requires WellFormed(d, [], t) && RulesEnd(t) && Ample(d, [], t)
    ensures ChasesEnd(d, t) && (CompileEnds(d, t) <==> GenAnswers(d, [], t))
  {
    RulesEndBodies(d, [], t);
    CirclesInBodies(d, t);
    ChasesEndExactly(d, t);
  }

  // ---- What has been accepted ---------------------------------------------------------------------------------------

  lemma {:induction false} BuiltRulesEnd(depth: nat, d: nat, t: Tree)
    requires BuiltInside(true, depth, d, t)
    ensures RulesEnd(t)
    decreases t
  {
    match t
    case Rep(p) => BuiltRulesEnd(depth, d, p);
    case Seq(p1, p2) => BuiltRulesEnd(depth, d, p1); BuiltRulesEnd(depth, d, p2);
    case Choice(p1, p2) => BuiltRulesEnd(depth, d, p1); BuiltRulesEnd(depth, d, p2);
    case Not(p) => BuiltRulesEnd(depth, d, p);
    case And(p) => BuiltRulesEnd(depth, d, p);
    case Behind(_, p) => BuiltRulesEnd(depth, d, p);
    case Grammar(rs) =>
      UsedRulesEnd(depth - 1, d, rs);
      forall k | 0 <= k < |rs| ensures RulesEnd(rs[k]) {
        BuiltRulesEnd(depth, d, rs[k]);
      }
    case _ =>
  }

  lemma UsedRulesEnd(depth: nat, d: nat, rs: seq<Tree>)
    requires GoodGrammar(depth, d, rs)
    ensures UsedEnd(rs)
  {
    hide GoodGrammar;
    forall n | 0 <= n < |rs| && Used(rs, n) ensures Terminates(rs, rs[n], [], 0) {
      RuleTerminates(depth, d, rs, n, [], 0);
    }
  }

  /** Compiling ends for every pattern whose grammars were accepted with the accumulator kept and no look-behind that calls
      back: the analyses as well as the chases. */
  lemma AcceptedCompiles(depth: nat, d: nat, t: Tree)
    requires WellFormed(d, [], t) && BuiltInside(true, depth, d, t) && Ample(d, [], t)
    ensures CompileEnds(d, t)
  {
    BuiltRulesEnd(depth, d, t);
    EndingCompiles(d, t);
    AcceptedAnswers(depth, d, t);
  }

  /** The same for the check as it is, where nothing passes it by */
  lemma VerifiedCompiles(depth: nat, d: nat, t: Tree)
    requires WellFormed(d, [], t) && BuiltInside(false, depth, d, t) && NeverDrops(depth, d, t) && Ample(d, [], t)
    ensures CompileEnds(d, t)
  {
    hide CompileEnds, NeverDrops;
    BuiltInsideEither(depth, depth, d, t);
    AcceptedCompiles(depth, d, t);
  }

  lemma {:induction false} BuiltInsideEither(level: nat, depth: nat, d: nat, t: Tree)
    requires level <= depth && NeverDrops(level, d, t)
    ensures BuiltInside(false, depth, d, t) <==> BuiltInside(true, depth, d, t)
    decreases t
  {
    match t
    case Rep(p) => BuiltInsideEither(level, depth, d, p);
    case Seq(p1, p2) => BuiltInsideEither(level, depth, d, p1); BuiltInsideEither(level, depth, d, p2);
    case Choice(p1, p2) => BuiltInsideEither(level, depth, d, p1); BuiltInsideEither(level, depth, d, p2);
    case Not(p) => BuiltInsideEither(level, depth, d, p);
    case And(p) => BuiltInsideEither(level, depth, d, p);
    case Behind(_, p) => BuiltInsideEither(level, depth, d, p);
    case Grammar(rs) =>
      NeverDropsDeeper(level, depth, d, t);
      BuiltEither(depth, d, [], t);
      forall k | 0 <= k < |rs| ensures BuiltInside(false, depth, d, rs[k]) <==> BuiltInside(true, depth, d, rs[k]) {
        BuiltInsideEither(level - 1, depth, d, rs[k]);
      }
    case _ =>
  }

  lemma {:induction false} NeverDropsDeeper(level: nat, depth: nat, d: nat, t: Tree)
    requires level <= depth && NeverDrops(level, d, t)
    ensures NeverDrops(depth, d, t)
    decreases t
  {
    match t
    case Rep(p) => NeverDropsDeeper(level, depth, d, p);
    case Seq(p1, p2) => NeverDropsDeeper(level, depth, d, p1); NeverDropsDeeper(level, depth, d, p2);
    case Choice(p1, p2) => NeverDropsDeeper(level, depth, d, p1); NeverDropsDeeper(level, depth, d, p2);
    case Not(p) => NeverDropsDeeper(level, depth, d, p);
    case And(p) => NeverDropsDeeper(level, depth, d, p);
    case Behind(_, p) => NeverDropsDeeper(level, depth, d, p);
    case Grammar(rs) =>
      forall k | 0 <= k < |rs| ensures NeverDrops(depth - 1, d, rs[k]) {
        NeverDropsDeeper(level - 1, depth - 1, d, rs[k]);
      }
    case _ =>
  }

  /** Compiling a pattern whose grammars were accepted, and matching with it, ends with the answer of recursive matching. */
  method MatchAccepted(depth: nat, d: nat, t: Tree, s: seq<Byte>, i: nat) returns (r: Result)
    requires WellFormed(d, [], t) && BuiltInside(true, depth, d, t) && Ample(d, [], t) && i <= |s|
    requires Built(true, depth, d, [], t) && !CheckLoops(d, [], t)
    ensures exists fuel: nat :: Match([], t, s, i, fuel) == Some(r)
  {
    AcceptedCompiles(depth, d, t);
    AcceptedTerminates(depth, d, t, s, i);
    hide CompileEnds, BuiltInside, Built, CheckLoops;
    ghost var fuel: nat :| Match([], t, s, i, fuel).Some?;
    r := MatchPattern(d, t, s, i, fuel);
    assert Match([], t, s, i, fuel) == Some(r);
  }

  // ---- A grammar that is accepted and never compiled ----------------------------------------------------------------

  /** S <- !{ fail } S, where { fail } is a grammar of its own */
  const LOOP := [Seq(Not(Grammar([False])), Call(0))]
  const CIRCLE := [Op(IJmp, 0, 0), Off(3), Op(IFail, 0, 0), Op(IJmp, 0, 0), Off(-3), Op(IRet, 0, 0)]

  lemma LoopBody(d: nat)
    ensures Body(d, LOOP) == CIRCLE
  {
    var g := Grammar([False]);
    LoopNot(d, SeqFollow(d, LOOP, Not(g), Call(0), FULL));
    var raw := [Op(IJmp, 0, 0), Off(3), Op(IFail, 0, 0), Op(IOpenCall, 0, 0), Hole, Op(IRet, 0, 0)];
    assert RulesCode(d, LOOP, 0) == [];
    assert RulesCode(d, LOOP, 1) == raw;
    assert Positions(d, LOOP) == [0];
    assert CorrectCalls(raw, [0], 0) == CIRCLE by { LoopCloses(raw); }
  }

  /** A negation of what always fails: a jump over a failure */
  lemma LoopNot(d: nat, fl: set<Byte>)
    ensures Gen(d, LOOP, Not(Grammar([False])), false, NoTest, fl) == InsTo(IJmp, 3) + Ins(IFail)
  {
    var none := [False];
    assert none[0] == False;
    assert GetFirst(d, none, False, FULL) == First(false, {});
    assert GetFirst(d, LOOP, Grammar(none), FULL) == First(false, {});
    assert HeadFail(d, none, False) && HeadFail(d, LOOP, Grammar(none));
    assert Classify({}) == Empty;
  }

  lemma LoopCloses(raw: seq<Slot>)
    requires raw == [Op(IJmp, 0, 0), Off(3), Op(IFail, 0, 0), Op(IOpenCall, 0, 0), Hole, Op(IRet, 0, 0)]
    ensures CorrectCalls(raw, [0], 0) == CIRCLE
  {
    assert FinalTarget(raw, 5, 6) == 5;
    assert CloseCall(raw, [0], 3) == CIRCLE;
    assert CorrectCalls(CIRCLE, [0], 6) == CIRCLE;
    assert CorrectCalls(CIRCLE, [0], 5) == CIRCLE;
    assert CorrectCalls(raw, [0], 3) == CIRCLE;
    assert CorrectCalls(raw, [0], 2) == CIRCLE;
  }

  lemma {:induction false} CircleTurns(n: nat)
    ensures !EndsIn(CIRCLE, 0, n)
  {
    assert IsJump(CIRCLE, 0) && Target(CIRCLE, 0) == 3 && IsJump(CIRCLE, 3) && Target(CIRCLE, 3) == 0;
    if n >= 2 {
      CircleTurns(n - 2);
    }
  }

  /** The check as it is accepts the grammar; a pattern with it, that matches by its first alternative, cannot be compiled. */
  lemma AcceptedNeverCompiled(d: nat)
    ensures var t := Choice(Char(97), Grammar(LOOP));
            && WellFormed(d, [], t) && BuiltInside(false, 2, d, t) && Built(false, 2, d, [], t) && !CheckLoops(d, [], t)
            && Match([], t, [97], 0, 0) == Some(Ok(1))
            && !CompileEnds(d, t)
  {
    LoopAccepted(d);
    LoopNeverEnds(d);
    hide *;
    FirstMatches(Grammar(LOOP));
    NeverCompiled(d, Char(97), LOOP);
  }

  lemma FirstMatches(p: Tree)
    ensures Match([], Choice(Char(97), p), [97], 0, 0) == Some(Ok(1))
  {
  }

  /** A pattern with a grammar that has a circle is not compiled. */
  lemma NeverCompiled(d: nat, p: Tree, rs: seq<Tree>)
    requires WellFormed(d, [], Choice(p, Grammar(rs))) && !AllEnd(Body(d, rs))
    ensures !CompileEnds(d, Choice(p, Grammar(rs)))
  {
    var t := Choice(p, Grammar(rs));
    hide ChasesEnd, GenAnswers, AllEnd, Body;
    assert !BodiesEnd(d, [], t);
    CirclesInBodies(d, t);
    ChasesEndExactly(d, t);
  }

  lemma LoopNeverEnds(d: nat)
    ensures !AllEnd(Body(d, LOOP))
  {
    LoopBody(d);
    hide Body;
    if Ends(CIRCLE, 0) {
      var n := Length(CIRCLE, 0);
      CircleTurns(n);
    }
  }

  lemma LoopAccepted(d: nat)
    ensures var t := Choice(Char(97), Grammar(LOOP));
            WellFormed(d, [], t) && BuiltInside(false, 2, d, t) && Built(false, 2, d, [], t) && !CheckLoops(d, [], t)
  {
    LoopBuilt(d);
    LoopInside(d);
    FirstBuilt(d, Grammar(LOOP));
  }

  lemma LoopInside(d: nat)
    requires Built(false, 2, d, [], Grammar(LOOP))
    ensures WellFormed(d, [], Grammar(LOOP)) && BuiltInside(false, 2, d, Grammar(LOOP))
  {
    NoneBuilt(d, 2, []);
    hide Built, FixedLen;
    assert BuiltInside(false, 2, d, Grammar([False]));
    assert BuiltInside(false, 2, d, LOOP[0]);
  }

  lemma FirstBuilt(d: nat, g: Tree)
    requires Built(false, 2, d, [], g) && g.Grammar? && WellFormed(d, [], g) && BuiltInside(false, 2, d, g)
    ensures var t := Choice(Char(97), g);
            WellFormed(d, [], t) && BuiltInside(false, 2, d, t) && Built(false, 2, d, [], t) && !CheckLoops(d, [], t)
  {
  }

  lemma LoopBuilt(d: nat)
    ensures Built(false, 2, d, [], Grammar(LOOP))
  {
    NoneBuilt(d, 1, LOOP);
    LoopVerified(d);
    assert Calls(LOOP[0]) == {0};
    hide Accepts;
    assert Built(false, 1, d, LOOP, LOOP[0]);
  }

  lemma NoneBuilt(d: nat, depth: nat, rules: seq<Tree>)
    requires depth > 0
    ensures Built(false, depth, d, rules, Grammar([False]))
  {
    assert RuleAccepted(false, d, [False], 0);
  }

  lemma LoopVerified(d: nat)
    ensures Accepts(false, d, LOOP)
  {
    var g := Grammar([False]);
    assert !Nullable(d, [False], False);
    assert VerifyRule(false, d, LOOP, g, 0, true) == Passed(false);
    assert VerifyRule(false, d, LOOP, Not(g), 0, false) == Passed(false);
    assert RuleAccepted(false, d, LOOP, 0);
  }

  // ---- More that is accepted and never compiled ---------------------------------------------------------------------

  /** Neither `checkaux` nor `getfirst` comes back from the left recursion BLIND. */
  lemma {:induction false} BlindAnswers(q: Question, e: nat)
    requires q.Nullability? || q.FirstSet?
    ensures !Answers(q, e, BLIND, BLIND[0])
    decreases e
  {
    assert Nullable(e, BLIND, Not(SUB));
    if e > 0 {
      BlindAnswers(q, e - 1);
    }
    assert !Answers(q, e, BLIND, Call(0));
  }

  lemma NeverAnalysed(d: nat, g: Tree)
    requires !Answers(FirstSet, d, [], g)
    ensures !GenAnswers(d, [], Choice(Seq(Char(97), Char(98)), g))
  {
    var ab := Seq(Char(97), Char(98));
    hide Answers;
    assert !NoFail(d, [], Char(98)) && !HeadFail(d, [], ab);
    assert !Nullable(d, [], Char(97)) && !GetFirst(d, [], Char(97), FULL).empty;
    assert !GetFirst(d, [], ab, FULL).empty;
  }

  /** "ab" or BLIND: the pattern is accepted, and matches by its first alternative; but compiling asks for the first set of
      the second one. */
  lemma AcceptedNeverAnalysed(d: nat)
    ensures var t := Choice(Seq(Char(97), Char(98)), Grammar(BLIND));
            && WellFormed(d, [], t) && BuiltInside(false, 2, d, t) && Built(false, 2, d, [], t) && !CheckLoops(d, [], t)
            && Match([], t, [97, 98], 0, 0) == Some(Ok(2))
            && !CompileEnds(d, t)
  {
    var ab := Seq(Char(97), Char(98));
    AcceptedLeftRecursion(d);
    BlindInside(d);
    BlindAnswers(FirstSet, d);
    assert !Answers(FirstSet, d, [], Grammar(BLIND));
    NeverAnalysed(d, Grammar(BLIND));
    EitherMatches(Grammar(BLIND));
    hide Answers, Ample, ChasesEnd, GenAnswers, Match, VerifyRule, Drops, Accepts;
    assert BuiltInside(false, 2, d, ab) && Built(false, 2, d, [], ab) && !CheckLoops(d, [], ab);
  }

  lemma BlindInside(d: nat)
    ensures WellFormed(d, [], Grammar(BLIND)) && BuiltInside(false, 2, d, Grammar(BLIND))
  {
    AcceptedLeftRecursion(d);
    hide VerifyRule, Drops, CheckLoops, Match;
    assert WellFormed(d, BLIND, Not(SUB)) && WellFormed(d, BLIND, Call(0));
    assert BuiltInside(false, 2, d, SUB) by { SubInside(d); }
    hide Built, Accepts;
    assert BuiltInside(false, 2, d, BLIND[0]);
  }

  lemma SubInside(d: nat)
    ensures BuiltInside(false, 2, d, SUB)
  {
    assert RuleAccepted(false, d, [Char(97)], 0);
  }

  lemma EitherMatches(p: Tree)
    ensures Match([], Choice(Seq(Char(97), Char(98)), p), [97, 98], 0, 0) == Some(Ok(2))
  {
    assert Match([], Char(98), [97, 98], 1, 0) == Some(Ok(2));
    assert Match([], Seq(Char(97), Char(98)), [97, 98], 0, 0) == Some(Ok(2));
  }

  /** S <- B(#S) */
  const LOOK := [Behind(0, And(Call(0)))]

  /** The only call of the rule is a tail call, and becomes a jump to itself. */
  lemma LookBody(d: nat)
    requires d > 0
    ensures Body(d, LOOK) == InsTo(IJmp, 0) + Ins(IRet)
  {
    assert FixedLen(d, LOOK, Call(0)) == 0;
    var raw := [Op(IOpenCall, 0, 0), Hole, Op(IRet, 0, 0)];
    assert Gen(d, LOOK, And(Call(0)), false, NoTest, FULL) == [Op(IOpenCall, 0, 0), Hole];
    assert RulesCode(d, LOOK, 0) == [];
    assert RulesCode(d, LOOK, 1) == raw;
    assert Positions(d, LOOK) == [0];
    assert FinalTarget(raw, 2, 3) == 2;
    var code := CloseCall(raw, [0], 0);
    assert code == InsTo(IJmp, 0) + Ins(IRet);
    assert CorrectCalls(code, [0], 3) == code;
    assert CorrectCalls(code, [0], 2) == code;
  }

  lemma {:induction false} LookTurns(n: nat)
    ensures !EndsIn(InsTo(IJmp, 0) + Ins(IRet), 0, n)
  {
    if n > 0 {
      LookTurns(n - 1);
    }
  }

  lemma LookBuilt(d: nat)
    ensures var t := Grammar(LOOK);
            WellFormed(d, [], t) && BuiltInside(false, 1, d, t) && Built(false, 1, d, [], t) && !CheckLoops(d, [], t)
  {
    assert Calls(LOOK[0]) == {0};
    assert RuleAccepted(false, d, LOOK, 0);
    assert FixedLen(d, LOOK, And(Call(0))) == 0 && WellFormed(d, LOOK, And(Call(0)));
    assert Built(false, 0, d, LOOK, LOOK[0]) && BuiltInside(false, 1, d, LOOK[0]);
  }

  lemma LookNeverEnds(d: nat)
    requires d > 0
    ensures !AllEnd(Body(d, LOOK))
  {
    LookBody(d);
    hide Body;
    var code := InsTo(IJmp, 0) + Ins(IRet);
    if Ends(code, 0) {
      var n := Length(code, 0);
      LookTurns(n);
    }
  }

  /** The check as it is accepts a rule that does nothing but look behind at itself; it cannot be compiled. */
  lemma AcceptedNeverChased(d: nat)
    ensures var t := Grammar(LOOK);
            && WellFormed(d, [], t) && BuiltInside(false, 1, d, t) && Built(false, 1, d, [], t) && !CheckLoops(d, [], t)
            && !CompileEnds(d, t)
  {
    var t := Grammar(LOOK);
    LookBuilt(d);
    if d > 0 {
      LookNeverEnds(d);
      hide Body, AllEnd, ChasesEnd, WellFormed, BuiltInside, Built, CheckLoops, GenAnswers;
      assert !BodiesEnd(d, [], t);
      CirclesInBodies(d, t);
      ChasesEndExactly(d, t);
    }
  }

  /** S <- (T 'x')*, T <- !{ 'a' } T */
  const STUCK := [Rep(Seq(Call(1), Char(120))), Seq(Not(SUB), Call(1))]

  lemma {:induction false} StuckAnswers(e: nat)
    ensures !Answers(Nullability, e, STUCK, STUCK[1])
    decreases e
  {
    assert Nullable(e, STUCK, Not(SUB));
    if e > 0 {
      StuckAnswers(e - 1);
    }
    assert !Answers(Nullability, e, STUCK, Call(1));
  }

  lemma StuckRules(d: nat)
    ensures VerifyRule(false, d, STUCK, STUCK[0], 0, false).Passed? && VerifyRule(false, d, STUCK, STUCK[1], 0, false).Passed?
  {
    hide CheckLoops;
    assert !Nullable(d, [Char(97)], [Char(97)][0]);
    assert VerifyRule(false, d, STUCK, SUB, 0, true) == VerifyRule(false, d, STUCK, SUB, 1, true) == Passed(false);
    assert VerifyRule(false, d, STUCK, Not(SUB), 0, false) == VerifyRule(false, d, STUCK, Not(SUB), 1, false) == Passed(false);
    assert VerifyRule(false, d, STUCK, Call(1), 0, false) == Passed(false);
    assert VerifyRule(false, d, STUCK, Seq(Call(1), Char(120)), 0, true) == Passed(true);
  }

  lemma StuckLoops(d: nat)
    ensures !CheckLoops(d, STUCK, STUCK[0]) && !CheckLoops(d, STUCK, STUCK[1]) && !LoopsAnswer(d, STUCK, STUCK[0])
  {
    hide VerifyRule;
    StuckAnswers(if d > 0 then d - 1 else 0);
    var body := Seq(Call(1), Char(120));
    assert !Answers(Nullability, d, STUCK, Call(1)) && !Answers(Nullability, d, STUCK, body);
    assert !Nullable(d, STUCK, Char(120)) && !Nullable(d, STUCK, body) && !CheckLoops(d, STUCK, body);
    assert !CheckLoops(d, STUCK, Not(SUB));
  }

  /** The left recursion is passed over, and the search for empty loops does not come back from it: within every bound the
      grammar would be accepted, but without one it is neither accepted nor rejected. */
  lemma NeverVerified(d: nat)
    ensures WellFormed(d, [], Grammar(STUCK)) && Accepts(false, d, STUCK) && !VerifyEnds(d, STUCK)
  {
    StuckRules(d);
    StuckLoops(d);
    assert WellFormed(d, STUCK, Not(SUB)) && WellFormed(d, STUCK, Seq(Call(1), Char(120)));
    hide VerifyRule, CheckLoops, LoopsAnswer, Nullable, Answers, RuleAnswers;
    assert NoneLeft(d, STUCK, 2) && NoneLoops(d, STUCK, 2) && NoneLoops(d, STUCK, 0) && Used(STUCK, 0);
    AcceptedNone(d, STUCK);
  }
}
