/** Generated code, run by the machine, gives exactly the result of recursive matching. */
module PegCorrect {
  import opened Peg
  import opened PegAnalysis
  import opened PegMachine
  import opened PegGen
  import opened PegLayout

  /** A program, and the rules of the grammar whose code is being run: rule `n` is placed at `pos[n]`. */
  datatype Env = Env(m: Machine, d: nat, rules: seq<Tree>, pos: seq<int>)

  ghost predicate ValidEnv(e: Env) {
    RulesAt(e.m.code, e.d, e.rules, e.pos)
  }

  ghost predicate TestHolds(tt: Test, s: seq<Byte>, i: nat) {
    match tt
    case NoTest => true
    case CharTest(c) => i < |s| && s[i] == c
    case SetTest(cs) => i < |s| && s[i] in cs
  }

  /** What must hold after a fragment for its success at `j` to end in `r`. Code inside an optional pattern (`opt`) may
      have moved the position saved in the youngest choice, and may also leave through that choice. */
  ghost predicate SuccessOk(m: Machine, opt: bool, end: int, j: nat, st: Stack, r: State) {
    if opt then
      && st.Push? && st.top.Back?
      && (forall k: nat :: Halts(m, Running(end, j, Push(Back(st.top.p, k), st.rest)), r))
      && Halts(m, Running(st.top.p, j, st.rest), r)
    else Halts(m, Running(end, j, st), r)
  }

  /** The rest of the program, after a fragment that ends at `end` with follow set `fl`, ends in `r` when the pattern
      has result `res`. If the next character is outside the follow set, then what follows fails, so failing at once
      must end in `r` as well. */
  ghost predicate RestEnds(m: Machine, opt: bool, fl: set<Byte>, end: int, st: Stack, res: Result, r: State) {
    match res
    case Fail => Halts(m, FailState(st), r)
    case Ok(j) =>
      && SuccessOk(m, opt, end, j, st, r)
      && (j < |m.subject| && m.subject[j] !in fl ==> Halts(m, FailState(st), r))
  }

  ghost predicate OptStack(opt: bool, st: Stack) {
    opt ==> st.Push? && st.top.Back?
  }

  lemma SuccessPlain(m: Machine, opt: bool, end: int, j: nat, st: Stack, r: State)
    requires SuccessOk(m, opt, end, j, st, r)
    ensures Halts(m, Running(end, j, st), r)
  {
    if opt {
      assert Push(Back(st.top.p, st.top.s), st.rest) == st;
    }
  }

  // ---- Single instructions --------------------------------------------------------------------------------

  lemma ClassifySound(cs: set<Byte>, c: Byte)
    ensures Classify(cs).Empty? ==> c !in cs
    ensures Classify(cs).Full? ==> c in cs
    ensures Classify(cs).Single? ==> (c in cs <==> c == Classify(cs).c)
  {
  }

  lemma TestStep(m: Machine, pos: seq<int>, pc: int, cs: set<Byte>, offset: int, i: nat, st: Stack)
    requires CodeAt(m.code, pos, pc, GenTest(cs, offset))
    ensures Step(m, Running(pc, i, st))
            == Running(if i < |m.subject| && m.subject[i] in cs then pc + TestLen(cs) else pc + offset, i, st)
  {
    CodeAtOp(m.code, pos, pc, GenTest(cs, offset));
    if i < |m.subject| {
      ClassifySound(cs, m.subject[i]);
      if Classify(cs).General? {
        CodeAtSplit(m.code, pos, pc, InsTo(ITestSet, offset), Words(cs));
        CodeAtWords(m.code, pos, pc + 2, cs);
        SetAtTest(m.code, pc + 2, cs, m.subject[i]);
      }
    }
  }

  lemma CharStep(m: Machine, pos: seq<int>, pc: int, c: Byte, tt: Test, i: nat, st: Stack)
    requires CodeAt(m.code, pos, pc, GenChar(c, tt)) && TestHolds(tt, m.subject, i)
    ensures Step(m, Running(pc, i, st))
            == if i < |m.subject| && m.subject[i] == c then Running(pc + 1, i + 1, st) else FailState(st)
  {
    CodeAtOp(m.code, pos, pc, GenChar(c, tt));
  }

  lemma SetStep(m: Machine, pos: seq<int>, pc: int, cs: set<Byte>, tt: Test, i: nat, st: Stack)
    requires CodeAt(m.code, pos, pc, GenSet(cs, tt)) && TestHolds(tt, m.subject, i)
    ensures Step(m, Running(pc, i, st))
            == if i < |m.subject| && m.subject[i] in cs then Running(pc + |GenSet(cs, tt)|, i + 1, st) else FailState(st)
  {
    var k := Classify(cs);
    if k.Single? {
      CharStep(m, pos, pc, k.c, tt, i, st);
    } else {
      CodeAtOp(m.code, pos, pc, GenSet(cs, tt));
    }
    if i < |m.subject| {
      ClassifySound(cs, m.subject[i]);
      if k.General? && tt != SetTest(cs) {
        CodeAtSplit(m.code, pos, pc, Ins(ISet), Words(cs));
        CodeAtWords(m.code, pos, pc + 1, cs);
        SetAtTest(m.code, pc + 1, cs, m.subject[i]);
      }
    }
  }

  /** A span takes as many characters as repeating the set does. */
  lemma {:induction false} SpanMatches(m: Machine, w: int, rules: seq<Tree>, p: Tree, cs: set<Byte>, i: nat, fuel: nat)
    requires SetAt(m.code, w, cs) && ToCharset(p) == Some(cs) && i <= |m.subject|
    ensures Match(rules, Rep(p), m.subject, i, fuel) == Some(Ok(SpanEnd(m, w, i)))
    decreases |m.subject| - i
  {
    if i < |m.subject| {
      SetAtTest(m.code, w, cs, m.subject[i]);
      if m.subject[i] in cs {
        SpanMatches(m, w, rules, p, cs, i + 1, fuel);
      }
    }
  }

  lemma BehindStep(m: Machine, pos: seq<int>, pc: int, n: nat, i: nat, st: Stack, r: State)
    requires CodeAt(m.code, pos, pc, GenBehind(n))
    requires Halts(m, if n > i then FailState(st) else Running(pc + |GenBehind(n)|, i - n, st), r)
    ensures Halts(m, Running(pc, i, st), r)
  {
    if n > 0 {
      CodeAtOp(m.code, pos, pc, GenBehind(n));
      StepBack(m, Running(pc, i, st), r);
    }
  }

  // ---- Where the parts of assembled code are -----------------------------------------------------------------

  lemma TestedChoiceAt(code: seq<Slot>, pos: seq<int>, pc: int, cs: set<Byte>, c1: seq<Slot>, emptyp2: bool, c2: seq<Slot>)
    requires CodeAt(code, pos, pc, AsmTestedChoice(cs, c1, emptyp2, c2))
    ensures var pc1 := pc + TestLen(cs);
            var pc2 := pc1 + |c1| + if emptyp2 then 0 else 2;
            && CodeAt(code, pos, pc, GenTest(cs, pc2 - pc)) && CodeAt(code, pos, pc1, c1) && CodeAt(code, pos, pc2, c2)
            && (!emptyp2 ==> CodeAt(code, pos, pc1 + |c1|, InsTo(IJmp, 2 + |c2|)) && IsInsTo(code, pc1 + |c1|, IJmp, 2 + |c2|))
  {
    hide CodeAt;
    if emptyp2 {
      var g0 := GenTest(cs, TestLen(cs) + |c1|);
      CodeAtSplit(code, pos, pc, g0 + c1, c2);
      CodeAtSplit(code, pos, pc, g0, c1);
    } else {
      var (g0, g1) := (GenTest(cs, TestLen(cs) + |c1| + 2), InsTo(IJmp, 2 + |c2|));
      CodeAtSplit(code, pos, pc, g0 + c1 + g1, c2);
      CodeAtSplit(code, pos, pc, g0 + c1, g1);
      CodeAtSplit(code, pos, pc, g0, c1);
      CodeAtOp(code, pos, pc + TestLen(cs) + |c1|, g1);
    }
  }

  ghost predicate IsInsTo(code: seq<Slot>, a: int, op: Opcode, offset: int) {
    0 <= a && a + 1 < |code| && code[a] == Op(op, 0, 0) && code[a + 1] == Off(offset)
  }

  lemma ChoiceAt(code: seq<Slot>, pos: seq<int>, pc: int, f: First, c1: seq<Slot>, c2: seq<Slot>)
    requires CodeAt(code, pos, pc, AsmChoice(f, c1, c2))
    ensures var g0 := OptTest(f, 2 + |c1| + 2);
            var pc0 := pc + OptTestLen(f);
            && CodeAt(code, pos, pc, g0)
            && IsInsTo(code, pc0, IChoice, 2 + |c1| + 2)
            && CodeAt(code, pos, pc0 + 2, c1)
            && IsInsTo(code, pc0 + 2 + |c1|, ICommit, 2 + |c2|)
            && CodeAt(code, pos, pc0 + 2 + |c1| + 2, c2)
  {
    hide CodeAt;
    var (g0, g1, g2) := (OptTest(f, 2 + |c1| + 2), InsTo(IChoice, 2 + |c1| + 2), InsTo(ICommit, 2 + |c2|));
    CodeAtSplit(code, pos, pc, g0 + g1 + c1 + g2, c2);
    CodeAtSplit(code, pos, pc, g0 + g1 + c1, g2);
    CodeAtSplit(code, pos, pc, g0 + g1, c1);
    CodeAtSplit(code, pos, pc, g0, g1);
    CodeAtOp(code, pos, pc + |g0|, g1);
    CodeAtOp(code, pos, pc + |g0| + 2 + |c1|, g2);
  }

  lemma TestedRepAt(code: seq<Slot>, pos: seq<int>, pc: int, cs: set<Byte>, c: seq<Slot>)
    requires CodeAt(code, pos, pc, AsmTestedRep(cs, c))
    ensures CodeAt(code, pos, pc, GenTest(cs, TestLen(cs) + |c| + 2))
    ensures CodeAt(code, pos, pc + TestLen(cs), c)
    ensures IsInsTo(code, pc + TestLen(cs) + |c|, IJmp, -(TestLen(cs) + |c|))
  {
    hide CodeAt;
    var (g0, g1) := (GenTest(cs, TestLen(cs) + |c| + 2), InsTo(IJmp, -(TestLen(cs) + |c|)));
    CodeAtSplit(code, pos, pc, g0 + c, g1);
    CodeAtSplit(code, pos, pc, g0, c);
    CodeAtOp(code, pos, pc + TestLen(cs) + |c|, g1);
  }

  lemma RepAt(code: seq<Slot>, pos: seq<int>, pc: int, f: First, opt: bool, c: seq<Slot>)
    requires CodeAt(code, pos, pc, AsmRep(f, opt, c))
    ensures var g0 := OptTest(f, 2 + |c| + 2);
            var pc0 := pc + OptTestLen(f);
            && CodeAt(code, pos, pc, g0)
            && (if opt then IsInsTo(code, pc0, IPartialCommit, 2) else IsInsTo(code, pc0, IChoice, 2 + |c| + 2))
            && CodeAt(code, pos, pc0 + 2, c)
            && IsInsTo(code, pc0 + 2 + |c|, IPartialCommit, -|c|)
  {
    hide CodeAt;
    var g0 := OptTest(f, 2 + |c| + 2);
    var g1 := if opt then InsTo(IPartialCommit, 2) else InsTo(IChoice, 2 + |c| + 2);
    var g2 := InsTo(IPartialCommit, -|c|);
    CodeAtSplit(code, pos, pc, g0 + g1 + c, g2);
    CodeAtSplit(code, pos, pc, g0 + g1, c);
    CodeAtSplit(code, pos, pc, g0, g1);
    CodeAtOp(code, pos, pc + |g0|, g1);
    CodeAtOp(code, pos, pc + |g0| + 2 + |c|, g2);
  }

  lemma NotAt(code: seq<Slot>, pos: seq<int>, pc: int, f: First, c: seq<Slot>)
    requires CodeAt(code, pos, pc, AsmNot(f, c))
    ensures var g0 := OptTest(f, 2 + |c| + 1);
            var pc0 := pc + OptTestLen(f);
            && CodeAt(code, pos, pc, g0)
            && IsInsTo(code, pc0, IChoice, 2 + |c| + 1)
            && CodeAt(code, pos, pc0 + 2, c)
            && IsOp(code, pc0 + 2 + |c|, IFailTwice)
  {
    hide CodeAt;
    var (g0, g1) := (OptTest(f, 2 + |c| + 1), InsTo(IChoice, 2 + |c| + 1));
    CodeAtSplit(code, pos, pc, g0 + g1 + c, Ins(IFailTwice));
    CodeAtSplit(code, pos, pc, g0 + g1, c);
    CodeAtSplit(code, pos, pc, g0, g1);
    CodeAtOp(code, pos, pc + |g0|, g1);
    CodeAtOp(code, pos, pc + |g0| + 2 + |c|, Ins(IFailTwice));
  }

  lemma AndAt(code: seq<Slot>, pos: seq<int>, pc: int, c: seq<Slot>)
    requires CodeAt(code, pos, pc, AsmAnd(c))
    ensures IsInsTo(code, pc, IChoice, 2 + |c| + 2)
    ensures CodeAt(code, pos, pc + 2, c)
    ensures IsInsTo(code, pc + 2 + |c|, IBackCommit, 3)
    ensures IsOp(code, pc + 2 + |c| + 2, IFail)
  {
    hide CodeAt;
    var (g0, g1) := (InsTo(IChoice, 2 + |c| + 2), InsTo(IBackCommit, 3));
    CodeAtSplit(code, pos, pc, g0 + c + g1, Ins(IFail));
    CodeAtSplit(code, pos, pc, g0 + c, g1);
    CodeAtSplit(code, pos, pc, g0, c);
    CodeAtOp(code, pos, pc, g0);
    CodeAtOp(code, pos, pc + 2 + |c|, g1);
    CodeAtOp(code, pos, pc + 2 + |c| + 2, Ins(IFail));
  }

  lemma GrammarAt(d: nat, rs: seq<Tree>, code: seq<Slot>, pos: seq<int>, pc: int)
    requires forall k :: 0 <= k < |rs| ==> WellFormed(d, rs, rs[k])
    requires var body := CorrectCalls(RulesCode(d, rs, |rs|), Positions(d, rs), 0);
             CodeAt(code, pos, pc, InsTo(ICall, 4) + InsTo(IJmp, 2 + |body|) + body)
    ensures var body := CorrectCalls(RulesCode(d, rs, |rs|), Positions(d, rs), 0);
            && IsInsTo(code, pc, ICall, 4)
            && IsInsTo(code, pc + 2, IJmp, 2 + |body|)
            && pc + 4 + |body| <= |code|
            && forall k :: 0 <= k < |body| ==> code[pc + 4 + k] == body[k]
  {
    hide CorrectCalls;
    var raw := RulesCode(d, rs, |rs|);
    var rel := Positions(d, rs);
    var body := CorrectCalls(raw, rel, 0);
    var (g0, g1) := (InsTo(ICall, 4), InsTo(IJmp, 2 + |body|));
    CodeAtSplit(code, pos, pc, g0 + g1, body);
    CodeAtSplit(code, pos, pc, g0, g1);
    CodeAtOp(code, pos, pc, g0);
    CodeAtOp(code, pos, pc + 2, g1);
    RulesParse(d, rs, |rs|);
    CorrectCallsOk(raw, raw, rel, 0);
    forall k | 0 <= k < |body| ensures code[pc + 4 + k] == body[k] {
      assert Closed(body, rel, raw, k);
      assert SlotOk(code, pos, pc + 4 + k, body[k]);
    }
  }

  // ---- What a failed test says ---------------------------------------------------------------------------------

  /** Outside the first set of a pattern that does not accept the empty subject, or at the end, it fails. */
  lemma FirstFails(e: Env, p: Tree, i: nat, fuel: nat)
    requires i <= |e.m.subject| && Match(e.rules, p, e.m.subject, i, fuel).Some?
    requires HeadFail(e.d, e.rules, p) || !GetFirst(e.d, e.rules, p, FULL).empty
    requires !Taken(e.m.subject, i, GetFirst(e.d, e.rules, p, FULL).cs)
    ensures Match(e.rules, p, e.m.subject, i, fuel) == Some(Fail)
  {
    if HeadFail(e.d, e.rules, p) {
      HeadFailNotEmpty(e.d, e.rules, p, FULL);
    }
    if i < |e.m.subject| {
      FirstSound(e.d, e.rules, p, FULL, e.m.subject, i, fuel);
      assert e.m.subject[i] in FULL;
    } else {
      FirstEmptySound(e.d, e.rules, p, FULL, e.m.subject, fuel);
    }
  }

  lemma ChoiceTestedSkips(e: Env, p1: Tree, p2: Tree, fl: set<Byte>, i: nat, fuel: nat)
    requires ChoiceTested(e.d, e.rules, p1, p2, fl)
    requires i <= |e.m.subject| && Match(e.rules, p1, e.m.subject, i, fuel).Some?
    requires !Taken(e.m.subject, i, GetFirst(e.d, e.rules, p1, FULL).cs)
    ensures Match(e.rules, p1, e.m.subject, i, fuel) == Some(Fail)
  {
    FirstFails(e, p1, i, fuel);
  }

  /** When the test sends a subject to the first alternative and that one fails, so does the second with all that
      follows it. */
  lemma ChoiceTestedFails(e: Env, p1: Tree, p2: Tree, fl: set<Byte>, i: nat, fuel: nat)
    requires ChoiceTested(e.d, e.rules, p1, p2, fl)
    requires i <= |e.m.subject| && Taken(e.m.subject, i, GetFirst(e.d, e.rules, p1, FULL).cs)
    requires Match(e.rules, p1, e.m.subject, i, fuel) == Some(Fail)
    ensures var r2 := Match(e.rules, p2, e.m.subject, i, fuel);
            r2.Some? && r2.value.Ok? ==> r2.value.pos == i && e.m.subject[i] !in fl
  {
    if HeadFail(e.d, e.rules, p1) {
      HeadFailSound(e.d, e.rules, p1, e.m.subject, i, fuel);
    }
    FirstSound(e.d, e.rules, p2, fl, e.m.subject, i, fuel);
  }

  lemma RepTestedSkips(e: Env, p: Tree, fl: set<Byte>, i: nat, fuel: nat)
    requires RepTested(e.d, e.rules, p, fl)
    requires i <= |e.m.subject| && Match(e.rules, p, e.m.subject, i, fuel).Some?
    requires !Taken(e.m.subject, i, GetFirst(e.d, e.rules, p, FULL).cs)
    ensures Match(e.rules, p, e.m.subject, i, fuel) == Some(Fail)
  {
    FirstFails(e, p, i, fuel);
  }

  lemma RepTestedFails(e: Env, p: Tree, fl: set<Byte>, i: nat, fuel: nat)
    requires RepTested(e.d, e.rules, p, fl)
    requires i <= |e.m.subject| && Taken(e.m.subject, i, GetFirst(e.d, e.rules, p, FULL).cs)
    requires Match(e.rules, p, e.m.subject, i, fuel) == Some(Fail)
    ensures e.m.subject[i] !in fl
  {
    if HeadFail(e.d, e.rules, p) {
      HeadFailSound(e.d, e.rules, p, e.m.subject, i, fuel);
    }
  }

  /** Giving up is right when the other way out would only match the empty string outside the follow set. */
  lemma FailEnds(m: Machine, opt: bool, fl: set<Byte>, end: int, i: nat, st: Stack, res: Result, r: State)
    requires RestEnds(m, opt, fl, end, st, res, r)
    requires res.Ok? ==> res.pos == i && i < |m.subject| && m.subject[i] !in fl
    ensures Halts(m, FailState(st), r)
  {
  }

  // ---- One instruction and what follows it ---------------------------------------------------------------------

  ghost predicate Taken(s: seq<Byte>, i: nat, cs: set<Byte>) {
    i < |s| && s[i] in cs
  }

  lemma TestEnds(m: Machine, pos: seq<int>, pc: int, cs: set<Byte>, offset: int, i: nat, st: Stack, r: State)
    requires CodeAt(m.code, pos, pc, GenTest(cs, offset))
    requires Halts(m, Running(if Taken(m.subject, i, cs) then pc + TestLen(cs) else pc + offset, i, st), r)
    ensures Halts(m, Running(pc, i, st), r)
  {
    TestStep(m, pos, pc, cs, offset, i, st);
    StepBack(m, Running(pc, i, st), r);
  }

  lemma OptTestEnds(m: Machine, pos: seq<int>, pc: int, f: First, rest: nat, i: nat, st: Stack, r: State)
    requires CodeAt(m.code, pos, pc, OptTest(f, rest))
    requires var n := OptTestLen(f);
             Halts(m, Running(if f.empty || Taken(m.subject, i, f.cs) then pc + n else pc + n + rest, i, st), r)
    ensures Halts(m, Running(pc, i, st), r)
  {
    if !f.empty {
      TestEnds(m, pos, pc, f.cs, TestLen(f.cs) + rest, i, st, r);
    }
  }

  lemma TestTakenHolds(s: seq<Byte>, cs: set<Byte>, i: nat)
    requires Taken(s, i, cs)
    ensures TestHolds(TestOf(cs), s, i)
  {
    ClassifySound(cs, s[i]);
  }

  lemma OptTestHolds(s: seq<Byte>, f: First, i: nat)
    requires f.empty || Taken(s, i, f.cs)
    ensures TestHolds(OptTestOf(f), s, i)
  {
    if !f.empty {
      ClassifySound(f.cs, s[i]);
    }
  }

  lemma JmpEnds(m: Machine, p: int, offset: int, i: nat, st: Stack, r: State)
    requires IsInsTo(m.code, p, IJmp, offset) && Halts(m, Running(p + offset, i, st), r)
    ensures Halts(m, Running(p, i, st), r)
  {
    StepBack(m, Running(p, i, st), r);
  }

  lemma CallEnds(m: Machine, p: int, offset: int, i: nat, st: Stack, r: State)
    requires IsInsTo(m.code, p, ICall, offset) && Halts(m, Running(p + offset, i, Push(Ret(p + 2), st)), r)
    ensures Halts(m, Running(p, i, st), r)
  {
    StepBack(m, Running(p, i, st), r);
  }

  lemma ChoiceEnds(m: Machine, p: int, offset: int, i: nat, st: Stack, r: State)
    requires IsInsTo(m.code, p, IChoice, offset) && Halts(m, Running(p + 2, i, Push(Back(p + offset, i), st)), r)
    ensures Halts(m, Running(p, i, st), r)
  {
    StepBack(m, Running(p, i, st), r);
  }

  lemma CommitEnds(m: Machine, p: int, offset: int, i: nat, a: int, k: nat, st: Stack, r: State)
    requires IsInsTo(m.code, p, ICommit, offset) && Halts(m, Running(p + offset, i, st), r)
    ensures Halts(m, Running(p, i, Push(Back(a, k), st)), r)
  {
    StepBack(m, Running(p, i, Push(Back(a, k), st)), r);
  }

  lemma PartialCommitEnds(m: Machine, p: int, offset: int, i: nat, a: int, k: nat, st: Stack, r: State)
    requires IsInsTo(m.code, p, IPartialCommit, offset) && Halts(m, Running(p + offset, i, Push(Back(a, i), st)), r)
    ensures Halts(m, Running(p, i, Push(Back(a, k), st)), r)
  {
    StepBack(m, Running(p, i, Push(Back(a, k), st)), r);
  }

  lemma BackCommitEnds(m: Machine, p: int, offset: int, i: nat, a: int, k: nat, st: Stack, r: State)
    requires IsInsTo(m.code, p, IBackCommit, offset) && Halts(m, Running(p + offset, k, st), r)
    ensures Halts(m, Running(p, i, Push(Back(a, k), st)), r)
  {
    StepBack(m, Running(p, i, Push(Back(a, k), st)), r);
  }

  lemma FailEndsAt(m: Machine, p: int, i: nat, st: Stack, r: State)
    requires IsOp(m.code, p, IFail) && Halts(m, FailState(st), r)
    ensures Halts(m, Running(p, i, st), r)
  {
    StepBack(m, Running(p, i, st), r);
  }

  lemma FailTwiceEnds(m: Machine, p: int, i: nat, en: Entry, st: Stack, r: State)
    requires IsOp(m.code, p, IFailTwice) && Halts(m, FailState(st), r)
    ensures Halts(m, Running(p, i, Push(en, st)), r)
  {
    StepBack(m, Running(p, i, Push(en, st)), r);
  }

  lemma RetEnds(m: Machine, p: int, i: nat, a: int, st: Stack, r: State)
    requires IsOp(m.code, p, IRet) && Halts(m, Running(a, i, st), r)
    ensures Halts(m, Running(p, i, Push(Ret(a), st)), r)
  {
    StepBack(m, Running(p, i, Push(Ret(a), st)), r);
  }

  /** A pattern that repeats does not fail. */
  lemma RepOk(rules: seq<Tree>, p: Tree, s: seq<Byte>, i: nat, fuel: nat)
    requires i <= |s| && Match(rules, Rep(p), s, i, fuel).Some?
    ensures Match(rules, Rep(p), s, i, fuel).value.Ok?
  {
    NoFailSound(0, rules, Rep(p), s, i, fuel);
  }

  lemma EmptyCode(d: nat, rules: seq<Tree>, p: Tree, opt: bool, fl: set<Byte>)
    ensures p.True? ==> Gen(d, rules, p, opt, NoTest, fl) == []
  {
  }

  // ---- Compilation is correct -----------------------------------------------------------------------------

  /** The code of `t` at `pc`, started at position `i`, ends as the rest of the program does from the result of `t`. */
  lemma {:induction false} GenCorrect(e: Env, t: Tree, opt: bool, tt: Test, fl: set<Byte>, pc: int, i: nat, st: Stack, fuel: nat, r: State)
    requires ValidEnv(e) && WellFormed(e.d, e.rules, t)
    requires CodeAt(e.m.code, e.pos, pc, Gen(e.d, e.rules, t, opt, tt, fl))
    requires i <= |e.m.subject| && TestHolds(tt, e.m.subject, i) && OptStack(opt, st)
    requires var res := Match(e.rules, t, e.m.subject, i, fuel);
             res.Some? && RestEnds(e.m, opt, fl, pc + |Gen(e.d, e.rules, t, opt, tt, fl)|, st, res.value, r)
    ensures Halts(e.m, Running(pc, i, st), r)
    decreases fuel, t, |e.m.subject| - i, 3
  {
    hide *;
    match t
    case Choice(p1, p2) => ChoiceCorrect(e, p1, p2, opt, tt, fl, pc, i, st, fuel, r);
    case Rep(p) => RepCorrect(e, p, opt, tt, fl, pc, i, st, fuel, r);
    case Not(p) => NotCorrect(e, p, opt, tt, fl, pc, i, st, fuel, r);
    case And(p) => AndCorrect(e, p, opt, tt, fl, pc, i, st, fuel, r);
    case Behind(n, p) => BehindCorrect(e, n, p, opt, tt, fl, pc, i, st, fuel, r);
    case Seq(p1, p2) => SeqCorrect(e, p1, p2, opt, tt, fl, pc, i, st, fuel, r);
    case Call(n) => CallCorrect(e, n, opt, tt, fl, pc, i, st, fuel, r);
    case Grammar(rs) => GrammarCorrect(e, rs, opt, tt, fl, pc, i, st, fuel, r);
    case _ => LeafCorrect(e, t, opt, tt, fl, pc, i, st, fuel, r);
  }

  lemma {:induction false} LeafCorrect(e: Env, t: Tree, opt: bool, tt: Test, fl: set<Byte>, pc: int, i: nat, st: Stack, fuel: nat, r: State)
    requires t.Char? || t.CSet? || t.Any? || t.True? || t.False?
    requires ValidEnv(e) && WellFormed(e.d, e.rules, t)
    requires CodeAt(e.m.code, e.pos, pc, Gen(e.d, e.rules, t, opt, tt, fl))
    requires i <= |e.m.subject| && TestHolds(tt, e.m.subject, i) && OptStack(opt, st)
    requires var res := Match(e.rules, t, e.m.subject, i, fuel);
             res.Some? && RestEnds(e.m, opt, fl, pc + |Gen(e.d, e.rules, t, opt, tt, fl)|, st, res.value, r)
    ensures Halts(e.m, Running(pc, i, st), r)
    decreases fuel, t, |e.m.subject| - i, 0
  {
    var m := e.m;
    var res := Match(e.rules, t, m.subject, i, fuel).value;
    if res.Ok? {
      SuccessPlain(m, opt, pc + |Gen(e.d, e.rules, t, opt, tt, fl)|, res.pos, st, r);
    }
    if !t.True? {
      if t.Char? {
        CharStep(m, e.pos, pc, t.c, tt, i, st);
      } else if t.CSet? {
        SetStep(m, e.pos, pc, t.cs, tt, i, st);
      } else {
        CodeAtOp(m.code, e.pos, pc, Gen(e.d, e.rules, t, opt, tt, fl));
      }
      StepBack(m, Running(pc, i, st), r);
    }
  }

  lemma {:induction false} BehindCorrect(e: Env, n: nat, p: Tree, opt: bool, tt: Test, fl: set<Byte>, pc: int, i: nat, st: Stack, fuel: nat, r: State)
    requires ValidEnv(e) && WellFormed(e.d, e.rules, Behind(n, p))
    requires CodeAt(e.m.code, e.pos, pc, Gen(e.d, e.rules, Behind(n, p), opt, tt, fl))
    requires i <= |e.m.subject| && TestHolds(tt, e.m.subject, i) && OptStack(opt, st)
    requires var res := Match(e.rules, Behind(n, p), e.m.subject, i, fuel);
             res.Some? && RestEnds(e.m, opt, fl, pc + |Gen(e.d, e.rules, Behind(n, p), opt, tt, fl)|, st, res.value, r)
    ensures Halts(e.m, Running(pc, i, st), r)
    decreases fuel, Behind(n, p), |e.m.subject| - i, 0
  {
    hide ValidEnv, CodeAt, Halts, GetFirst, HeadFail, FixedLen, Nullable, NoFail, Classify, ChoiceTested, RepTested, TestOf, OptTest, OptTestOf, TestLen,
         AsmTestedChoice, AsmChoice, AsmTestedRep, AsmRep, AsmNot, AsmAnd;
    var (m, s) := (e.m, e.m.subject);
    var c := Gen(e.d, e.rules, p, false, NoTest, FULL);
    CodeAtSplit(m.code, e.pos, pc, GenBehind(n), c);
    if n <= i {
      FixedLenSound(e.d, e.rules, p, s, i - n, fuel);
      if Match(e.rules, p, s, i - n, fuel).value.Ok? {
        SuccessPlain(m, opt, pc + |GenBehind(n)| + |c|, i, st, r);
      }
      assert forall b: Byte :: b in FULL;
      GenCorrect(e, p, false, NoTest, FULL, pc + |GenBehind(n)|, i - n, st, fuel, r);
    }
    BehindStep(m, e.pos, pc, n, i, st, r);
  }

  lemma {:induction false} SeqCorrect(e: Env, p1: Tree, p2: Tree, opt: bool, tt: Test, fl: set<Byte>, pc: int, i: nat, st: Stack, fuel: nat, r: State)
    requires ValidEnv(e) && WellFormed(e.d, e.rules, Seq(p1, p2))
    requires CodeAt(e.m.code, e.pos, pc, Gen(e.d, e.rules, Seq(p1, p2), opt, tt, fl))
    requires i <= |e.m.subject| && TestHolds(tt, e.m.subject, i) && OptStack(opt, st)
    requires var res := Match(e.rules, Seq(p1, p2), e.m.subject, i, fuel);
             res.Some? && RestEnds(e.m, opt, fl, pc + |Gen(e.d, e.rules, Seq(p1, p2), opt, tt, fl)|, st, res.value, r)
    ensures Halts(e.m, Running(pc, i, st), r)
    decreases fuel, Seq(p1, p2), |e.m.subject| - i, 0
  {
    hide ValidEnv, CodeAt, Halts, GetFirst, HeadFail, FixedLen, Nullable, NoFail, Classify, ChoiceTested, RepTested, TestOf, OptTest, OptTestOf, TestLen,
         AsmTestedChoice, AsmChoice, AsmTestedRep, AsmRep, AsmNot, AsmAnd;
    var (m, s) := (e.m, e.m.subject);
    var fl1 := SeqFollow(e.d, e.rules, p1, p2, fl);
    var tt2 := if FixedLen(e.d, e.rules, p1) != 0 then NoTest else tt;
    var c1 := Gen(e.d, e.rules, p1, false, tt, fl1);
    var c2 := Gen(e.d, e.rules, p2, opt, tt2, fl);
    CodeAtSplit(m.code, e.pos, pc, c1, c2);
    var r1 := Match(e.rules, p1, s, i, fuel).value;
    if r1.Ok? {
      var j := r1.pos;
      if FixedLen(e.d, e.rules, p1) == 0 {
        FixedLenSound(e.d, e.rules, p1, s, i, fuel);
      }
      GenCorrect(e, p2, opt, tt2, fl, pc + |c1|, j, st, fuel, r);
      if j < |s| && s[j] !in fl1 {
        assert s[j] in FULL;
        FirstSound(e.d, e.rules, p2, fl, s, j, fuel);
      }
    }
    GenCorrect(e, p1, false, tt, fl1, pc, i, st, fuel, r);
  }

  lemma {:induction false} ChoiceCorrect(e: Env, p1: Tree, p2: Tree, opt: bool, tt: Test, fl: set<Byte>, pc: int, i: nat, st: Stack, fuel: nat, r: State)
    requires ValidEnv(e) && WellFormed(e.d, e.rules, Choice(p1, p2))
    requires CodeAt(e.m.code, e.pos, pc, Gen(e.d, e.rules, Choice(p1, p2), opt, tt, fl))
    requires i <= |e.m.subject| && TestHolds(tt, e.m.subject, i) && OptStack(opt, st)
    requires var res := Match(e.rules, Choice(p1, p2), e.m.subject, i, fuel);
             res.Some? && RestEnds(e.m, opt, fl, pc + |Gen(e.d, e.rules, Choice(p1, p2), opt, tt, fl)|, st, res.value, r)
    ensures Halts(e.m, Running(pc, i, st), r)
    decreases fuel, Choice(p1, p2), |e.m.subject| - i, 2
  {
    hide ValidEnv, CodeAt, Halts, ChoiceTested, AsmTestedChoice, AsmChoice, RestEnds, Match, GetFirst, HeadFail;
    if ChoiceTested(e.d, e.rules, p1, p2, fl) {
      TestedChoiceCorrect(e, p1, p2, opt, fl, pc, i, st, fuel, r);
    } else if opt && p2.True? {
      ReusedChoiceCorrect(e, p1, p2, opt, tt, fl, pc, i, st, fuel, r);
    } else {
      PlainChoiceCorrect(e, p1, p2, opt, fl, pc, i, st, fuel, r);
    }
  }

  lemma {:induction false} TestedChoiceCorrect(e: Env, p1: Tree, p2: Tree, opt: bool, fl: set<Byte>, pc: int, i: nat, st: Stack, fuel: nat, r: State)
    requires ValidEnv(e) && WellFormed(e.d, e.rules, p1) && WellFormed(e.d, e.rules, p2)
    requires ChoiceTested(e.d, e.rules, p1, p2, fl)
    requires CodeAt(e.m.code, e.pos, pc, AsmTestedChoice(GetFirst(e.d, e.rules, p1, FULL).cs,
               Gen(e.d, e.rules, p1, false, TestOf(GetFirst(e.d, e.rules, p1, FULL).cs), fl), p2.True?,
               Gen(e.d, e.rules, p2, opt, NoTest, fl)))
    requires i <= |e.m.subject| && OptStack(opt, st)
    requires var end := pc + |AsmTestedChoice(GetFirst(e.d, e.rules, p1, FULL).cs,
               Gen(e.d, e.rules, p1, false, TestOf(GetFirst(e.d, e.rules, p1, FULL).cs), fl), p2.True?,
               Gen(e.d, e.rules, p2, opt, NoTest, fl))|;
             var res := Match(e.rules, Choice(p1, p2), e.m.subject, i, fuel);
             res.Some? && RestEnds(e.m, opt, fl, end, st, res.value, r)
    ensures Halts(e.m, Running(pc, i, st), r)
    decreases fuel, Choice(p1, p2), |e.m.subject| - i, 0
  {
    hide Gen, ValidEnv, CodeAt, Halts, GetFirst, HeadFail, FixedLen, Nullable, NoFail, Classify, ChoiceTested, RepTested, TestOf, OptTest, OptTestOf, TestLen,
         AsmTestedChoice, AsmChoice, AsmTestedRep, AsmRep, AsmNot, AsmAnd;
    var (m, s) := (e.m, e.m.subject);
    var cs := GetFirst(e.d, e.rules, p1, FULL).cs;
    var c1 := Gen(e.d, e.rules, p1, false, TestOf(cs), fl);
    var c2 := Gen(e.d, e.rules, p2, opt, NoTest, fl);
    var (pc1, end) := (pc + TestLen(cs), pc + |AsmTestedChoice(cs, c1, p2.True?, c2)|);
    var pc2 := end - |c2|;
    EmptyCode(e.d, e.rules, p2, opt, fl);
    TestedChoiceAt(m.code, e.pos, pc, cs, c1, p2.True?, c2);
    if Taken(s, i, cs) {
      TestTakenHolds(s, cs, i);
      var r1 := Match(e.rules, p1, s, i, fuel).value;
      match r1 {
        case Ok(j) =>
          SuccessPlain(m, opt, end, j, st, r);
          if !p2.True? {
            JmpEnds(m, pc1 + |c1|, 2 + |c2|, j, st, r);
          }
        case Fail =>
          ChoiceTestedFails(e, p1, p2, fl, i, fuel);
          FailEnds(m, opt, fl, end, i, st, Match(e.rules, p2, s, i, fuel).value, r);
      }
      GenCorrect(e, p1, false, TestOf(cs), fl, pc1, i, st, fuel, r);
    } else {
      ChoiceTestedSkips(e, p1, p2, fl, i, fuel);
      GenCorrect(e, p2, opt, NoTest, fl, pc2, i, st, fuel, r);
    }
    TestEnds(m, e.pos, pc, cs, pc2 - pc, i, st, r);
  }

  lemma {:induction false} ReusedChoiceCorrect(e: Env, p1: Tree, p2: Tree, opt: bool, tt: Test, fl: set<Byte>, pc: int, i: nat, st: Stack, fuel: nat, r: State)
    requires opt && p2.True? && !ChoiceTested(e.d, e.rules, p1, p2, fl)
    requires ValidEnv(e) && WellFormed(e.d, e.rules, Choice(p1, p2))
    requires CodeAt(e.m.code, e.pos, pc, Gen(e.d, e.rules, Choice(p1, p2), opt, tt, fl))
    requires i <= |e.m.subject| && TestHolds(tt, e.m.subject, i) && OptStack(opt, st)
    requires var res := Match(e.rules, Choice(p1, p2), e.m.subject, i, fuel);
             res.Some? && RestEnds(e.m, opt, fl, pc + |Gen(e.d, e.rules, Choice(p1, p2), opt, tt, fl)|, st, res.value, r)
    ensures Halts(e.m, Running(pc, i, st), r)
    decreases fuel, Choice(p1, p2), |e.m.subject| - i, 0
  {
    hide ValidEnv, CodeAt, Halts, GetFirst, HeadFail, FixedLen, Nullable, NoFail, Classify, ChoiceTested, RepTested, TestOf, OptTest, OptTestOf, TestLen,
         AsmTestedChoice, AsmChoice, AsmTestedRep, AsmRep, AsmNot, AsmAnd;
    var m := e.m;
    var c1 := Gen(e.d, e.rules, p1, true, NoTest, FULL);
    var st1 := Push(Back(st.top.p, i), st.rest);
    CodeAtSplit(m.code, e.pos, pc, InsTo(IPartialCommit, 2), c1);
    CodeAtOp(m.code, e.pos, pc, InsTo(IPartialCommit, 2));
    assert forall b: Byte :: b in FULL;
    GenCorrect(e, p1, true, NoTest, FULL, pc + 2, i, st1, fuel, r);
    PartialCommitEnds(m, pc, 2, i, st.top.p, st.top.s, st.rest, r);
  }

  lemma {:induction false} PlainChoiceCorrect(e: Env, p1: Tree, p2: Tree, opt: bool, fl: set<Byte>, pc: int, i: nat, st: Stack, fuel: nat, r: State)
    requires ValidEnv(e) && WellFormed(e.d, e.rules, p1) && WellFormed(e.d, e.rules, p2)
    requires CodeAt(e.m.code, e.pos, pc, AsmChoice(GetFirst(e.d, e.rules, p1, FULL),
               Gen(e.d, e.rules, p1, p2.True?, OptTestOf(GetFirst(e.d, e.rules, p1, FULL)), FULL),
               Gen(e.d, e.rules, p2, opt, NoTest, fl)))
    requires i <= |e.m.subject| && OptStack(opt, st)
    requires var end := pc + |AsmChoice(GetFirst(e.d, e.rules, p1, FULL),
               Gen(e.d, e.rules, p1, p2.True?, OptTestOf(GetFirst(e.d, e.rules, p1, FULL)), FULL),
               Gen(e.d, e.rules, p2, opt, NoTest, fl))|;
             var res := Match(e.rules, Choice(p1, p2), e.m.subject, i, fuel);
             res.Some? && RestEnds(e.m, opt, fl, end, st, res.value, r)
    ensures Halts(e.m, Running(pc, i, st), r)
    decreases fuel, Choice(p1, p2), |e.m.subject| - i, 0
  {
    hide Gen, ValidEnv, CodeAt, Halts, GetFirst, HeadFail, FixedLen, Nullable, NoFail, Classify, ChoiceTested, RepTested, TestOf, OptTest, OptTestOf, TestLen,
         AsmTestedChoice, AsmChoice, AsmTestedRep, AsmRep, AsmNot, AsmAnd;
    var (m, s) := (e.m, e.m.subject);
    var f := GetFirst(e.d, e.rules, p1, FULL);
    var c1 := Gen(e.d, e.rules, p1, p2.True?, OptTestOf(f), FULL);
    var c2 := Gen(e.d, e.rules, p2, opt, NoTest, fl);
    var t0 := OptTestLen(f);
    var (pc0, pc1) := (pc + t0, pc + t0 + 2);
    var pc2 := pc1 + |c1| + 2;
    var end := pc2 + |c2|;
    ChoiceAt(m.code, e.pos, pc, f, c1, c2);
    EmptyCode(e.d, e.rules, p2, opt, fl);
    var r1 := Match(e.rules, p1, s, i, fuel).value;
    if r1.Fail? {
      GenCorrect(e, p2, opt, NoTest, fl, pc2, i, st, fuel, r);
    }
    if !f.empty && !Taken(s, i, f.cs) {
      FirstFails(e, p1, i, fuel);
    } else {
      var st1 := Push(Back(pc2, i), st);
      if r1.Ok? {
        SuccessPlain(m, opt, end, r1.pos, st, r);
        forall k: nat ensures Halts(m, Running(pc1 + |c1|, r1.pos, Push(Back(pc2, k), st)), r) {
          CommitEnds(m, pc1 + |c1|, 2 + |c2|, r1.pos, pc2, k, st, r);
        }
      }
      assert forall b: Byte :: b in FULL;
      OptTestHolds(s, f, i);
      GenCorrect(e, p1, p2.True?, OptTestOf(f), FULL, pc1, i, st1, fuel, r);
      ChoiceEnds(m, pc0, 2 + |c1| + 2, i, st, r);
    }
    OptTestEnds(m, e.pos, pc, f, 2 + |c1| + 2, i, st, r);
  }

  lemma {:induction false} RepCorrect(e: Env, p: Tree, opt: bool, tt: Test, fl: set<Byte>, pc: int, i: nat, st: Stack, fuel: nat, r: State)
    requires ValidEnv(e) && WellFormed(e.d, e.rules, Rep(p))
    requires CodeAt(e.m.code, e.pos, pc, Gen(e.d, e.rules, Rep(p), opt, tt, fl))
    requires i <= |e.m.subject| && TestHolds(tt, e.m.subject, i) && OptStack(opt, st)
    requires var res := Match(e.rules, Rep(p), e.m.subject, i, fuel);
             res.Some? && RestEnds(e.m, opt, fl, pc + |Gen(e.d, e.rules, Rep(p), opt, tt, fl)|, st, res.value, r)
    ensures Halts(e.m, Running(pc, i, st), r)
    decreases fuel, Rep(p), |e.m.subject| - i, 2
  {
    hide ValidEnv, CodeAt, Halts, GetFirst, HeadFail, FixedLen, Nullable, NoFail, Classify, ChoiceTested, RepTested, TestOf, OptTest, OptTestOf, TestLen,
         AsmTestedChoice, AsmChoice, AsmTestedRep, AsmRep, AsmNot, AsmAnd;
    RepOk(e.rules, p, e.m.subject, i, fuel);
    SuccessPlain(e.m, opt, pc + |Gen(e.d, e.rules, Rep(p), opt, tt, fl)|, Match(e.rules, Rep(p), e.m.subject, i, fuel).value.pos, st, r);
    if ToCharset(p).Some? {
      SpanCorrect(e, p, pc, i, st, fuel, r);
    } else if RepTested(e.d, e.rules, p, fl) {
      TestedRepCorrect(e, p, fl, pc, i, st, fuel, r);
    } else {
      PlainRepCorrect(e, p, opt, fl, pc, i, st, fuel, r);
    }
  }

  lemma SpanCorrect(e: Env, p: Tree, pc: int, i: nat, st: Stack, fuel: nat, r: State)
    requires ToCharset(p).Some? && CodeAt(e.m.code, e.pos, pc, Ins(ISpan) + Words(ToCharset(p).value))
    requires i <= |e.m.subject|
    requires var res := Match(e.rules, Rep(p), e.m.subject, i, fuel);
             res.Some? && res.value.Ok? && Halts(e.m, Running(pc + CHARSETINSTSIZE, res.value.pos, st), r)
    ensures Halts(e.m, Running(pc, i, st), r)
  {
    hide CodeAt, Halts;
    var cs := ToCharset(p).value;
    CodeAtSplit(e.m.code, e.pos, pc, Ins(ISpan), Words(cs));
    CodeAtOp(e.m.code, e.pos, pc, Ins(ISpan));
    CodeAtWords(e.m.code, e.pos, pc + 1, cs);
    SpanMatches(e.m, pc + 1, e.rules, p, cs, i, fuel);
    StepBack(e.m, Running(pc, i, st), r);
  }

  /** Each round of a tested repetition either goes on or stops as matching does. */
  lemma {:induction false} TestedRepCorrect(e: Env, p: Tree, fl: set<Byte>, pc: int, i: nat, st: Stack, fuel: nat, r: State)
    requires ValidEnv(e) && WellFormed(e.d, e.rules, p)
    requires RepTested(e.d, e.rules, p, fl)
    requires var f := GetFirst(e.d, e.rules, p, FULL);
             CodeAt(e.m.code, e.pos, pc, AsmTestedRep(f.cs, Gen(e.d, e.rules, p, false, TestOf(f.cs), FULL)))
    requires i <= |e.m.subject|
    requires var f := GetFirst(e.d, e.rules, p, FULL);
             var end := pc + |AsmTestedRep(f.cs, Gen(e.d, e.rules, p, false, TestOf(f.cs), FULL))|;
             var res := Match(e.rules, Rep(p), e.m.subject, i, fuel);
             res.Some? && RestEnds(e.m, false, fl, end, st, res.value, r)
    ensures Halts(e.m, Running(pc, i, st), r)
    decreases fuel, Rep(p), |e.m.subject| - i, 0
  {
    hide Gen, ValidEnv, CodeAt, Halts, GetFirst, HeadFail, FixedLen, Nullable, NoFail, Classify, ChoiceTested, RepTested, TestOf, OptTest, OptTestOf, TestLen,
         AsmTestedChoice, AsmChoice, AsmTestedRep, AsmRep, AsmNot, AsmAnd;
    var (m, s) := (e.m, e.m.subject);
    var cs := GetFirst(e.d, e.rules, p, FULL).cs;
    var c := Gen(e.d, e.rules, p, false, TestOf(cs), FULL);
    var (pc1, end) := (pc + TestLen(cs), pc + TestLen(cs) + |c| + 2);
    TestedRepAt(m.code, e.pos, pc, cs, c);
    if Taken(s, i, cs) {
      TestTakenHolds(s, cs, i);
      var r1 := Match(e.rules, p, s, i, fuel).value;
      match r1 {
        case Ok(j) =>
          TestedRepCorrect(e, p, fl, pc, j, st, fuel, r);
          JmpEnds(m, pc1 + |c|, -(TestLen(cs) + |c|), j, st, r);
        case Fail => RepTestedFails(e, p, fl, i, fuel);
      }
      assert forall b: Byte :: b in FULL;
      GenCorrect(e, p, false, TestOf(cs), FULL, pc1, i, st, fuel, r);
    } else {
      RepTestedSkips(e, p, fl, i, fuel);
    }
    TestEnds(m, e.pos, pc, cs, TestLen(cs) + |c| + 2, i, st, r);
  }

  lemma {:induction false} PlainRepCorrect(e: Env, p: Tree, opt: bool, fl: set<Byte>, pc: int, i: nat, st: Stack, fuel: nat, r: State)
    requires ValidEnv(e) && WellFormed(e.d, e.rules, p)
    requires CodeAt(e.m.code, e.pos, pc, AsmRep(GetFirst(e.d, e.rules, p, FULL), opt, Gen(e.d, e.rules, p, false, NoTest, FULL)))
    requires i <= |e.m.subject| && OptStack(opt, st)
    requires var end := pc + |AsmRep(GetFirst(e.d, e.rules, p, FULL), opt, Gen(e.d, e.rules, p, false, NoTest, FULL))|;
             var res := Match(e.rules, Rep(p), e.m.subject, i, fuel);
             res.Some? && RestEnds(e.m, opt, fl, end, st, res.value, r)
    ensures Halts(e.m, Running(pc, i, st), r)
    decreases fuel, Rep(p), |e.m.subject| - i, 1
  {
    hide Gen, ValidEnv, CodeAt, Halts, GetFirst, HeadFail, FixedLen, Nullable, NoFail, Classify, ChoiceTested, RepTested, TestOf, OptTest, OptTestOf, TestLen,
         AsmTestedChoice, AsmChoice, AsmTestedRep, AsmRep, AsmNot, AsmAnd;
    var (m, s) := (e.m, e.m.subject);
    var f := GetFirst(e.d, e.rules, p, FULL);
    var c := Gen(e.d, e.rules, p, false, NoTest, FULL);
    var pc0 := pc + OptTestLen(f);
    var end := pc0 + 2 + |c| + 2;
    RepAt(m.code, e.pos, pc, f, opt, c);
    RepOk(e.rules, p, s, i, fuel);
    SuccessPlain(m, opt, end, Match(e.rules, Rep(p), s, i, fuel).value.pos, st, r);
    if !f.empty && !Taken(s, i, f.cs) {
      FirstFails(e, p, i, fuel);
    } else if opt {
      LoopCorrect(e, p, pc0 + 2, i, st.top.p, st.rest, fuel, r);
      PartialCommitEnds(m, pc0, 2, i, st.top.p, st.top.s, st.rest, r);
    } else {
      LoopCorrect(e, p, pc0 + 2, i, end, st, fuel, r);
      ChoiceEnds(m, pc0, 2 + |c| + 2, i, st, r);
    }
    OptTestEnds(m, e.pos, pc, f, 2 + |c| + 2, i, st, r);
  }

  /** The loop of a repetition that keeps a choice, with `out` as the way out of it */
  lemma {:induction false} LoopCorrect(e: Env, p: Tree, pc: int, i: nat, out: int, st: Stack, fuel: nat, r: State)
    requires ValidEnv(e) && WellFormed(e.d, e.rules, p)
    requires CodeAt(e.m.code, e.pos, pc, Gen(e.d, e.rules, p, false, NoTest, FULL))
    requires var c := Gen(e.d, e.rules, p, false, NoTest, FULL); IsInsTo(e.m.code, pc + |c|, IPartialCommit, -|c|)
    requires i <= |e.m.subject|
    requires var res := Match(e.rules, Rep(p), e.m.subject, i, fuel);
             res.Some? && res.value.Ok? && Halts(e.m, Running(out, res.value.pos, st), r)
    ensures Halts(e.m, Running(pc, i, Push(Back(out, i), st)), r)
    decreases fuel, Rep(p), |e.m.subject| - i, 0
  {
    hide Gen, ValidEnv, CodeAt, Halts, GetFirst, HeadFail, FixedLen, Nullable, NoFail, Classify, ChoiceTested, RepTested, TestOf, OptTest, OptTestOf, TestLen,
         AsmTestedChoice, AsmChoice, AsmTestedRep, AsmRep, AsmNot, AsmAnd;
    var (m, s) := (e.m, e.m.subject);
    var c := Gen(e.d, e.rules, p, false, NoTest, FULL);
    var st1 := Push(Back(out, i), st);
    var r1 := Match(e.rules, p, s, i, fuel).value;
    if r1.Ok? {
      LoopCorrect(e, p, pc, r1.pos, out, st, fuel, r);
      PartialCommitEnds(m, pc + |c|, -|c|, r1.pos, out, i, st, r);
    }
    assert forall b: Byte :: b in FULL;
    GenCorrect(e, p, false, NoTest, FULL, pc, i, st1, fuel, r);
  }

  lemma {:induction false} NotCorrect(e: Env, p: Tree, opt: bool, tt: Test, fl: set<Byte>, pc: int, i: nat, st: Stack, fuel: nat, r: State)
    requires ValidEnv(e) && WellFormed(e.d, e.rules, Not(p))
    requires CodeAt(e.m.code, e.pos, pc, Gen(e.d, e.rules, Not(p), opt, tt, fl))
    requires i <= |e.m.subject| && TestHolds(tt, e.m.subject, i) && OptStack(opt, st)
    requires var res := Match(e.rules, Not(p), e.m.subject, i, fuel);
             res.Some? && RestEnds(e.m, opt, fl, pc + |Gen(e.d, e.rules, Not(p), opt, tt, fl)|, st, res.value, r)
    ensures Halts(e.m, Running(pc, i, st), r)
    decreases fuel, Not(p), |e.m.subject| - i, 2
  {
    hide ValidEnv, CodeAt, Halts, GetFirst, HeadFail, FixedLen, Nullable, NoFail, Classify, ChoiceTested, RepTested, TestOf, OptTest, OptTestOf, TestLen,
         AsmTestedChoice, AsmChoice, AsmTestedRep, AsmRep, AsmNot, AsmAnd;
    var (m, s) := (e.m, e.m.subject);
    var f := GetFirst(e.d, e.rules, p, FULL);
    var r1 := Match(e.rules, p, s, i, fuel).value;
    var end := pc + |Gen(e.d, e.rules, Not(p), opt, tt, fl)|;
    if r1.Fail? {
      SuccessPlain(m, opt, end, i, st, r);
    }
    if HeadFail(e.d, e.rules, p) {
      HeadFailNotEmpty(e.d, e.rules, p, FULL);
      CodeAtSplit(m.code, e.pos, pc, OptTest(f, 1), Ins(IFail));
      CodeAtOp(m.code, e.pos, pc + TestLen(f.cs), Ins(IFail));
      if Taken(s, i, f.cs) {
        HeadFailSound(e.d, e.rules, p, s, i, fuel);
        FailEndsAt(m, pc + TestLen(f.cs), i, st, r);
      } else {
        FirstFails(e, p, i, fuel);
      }
      OptTestEnds(m, e.pos, pc, f, 1, i, st, r);
    } else {
      PlainNotCorrect(e, p, opt, tt, fl, pc, i, st, fuel, r);
    }
  }

  lemma {:induction false} PlainNotCorrect(e: Env, p: Tree, opt: bool, tt: Test, fl: set<Byte>, pc: int, i: nat, st: Stack, fuel: nat, r: State)
    requires !HeadFail(e.d, e.rules, p)
    requires ValidEnv(e) && WellFormed(e.d, e.rules, Not(p))
    requires CodeAt(e.m.code, e.pos, pc, Gen(e.d, e.rules, Not(p), opt, tt, fl))
    requires i <= |e.m.subject| && TestHolds(tt, e.m.subject, i) && OptStack(opt, st)
    requires var res := Match(e.rules, Not(p), e.m.subject, i, fuel);
             res.Some? && RestEnds(e.m, opt, fl, pc + |Gen(e.d, e.rules, Not(p), opt, tt, fl)|, st, res.value, r)
    ensures Halts(e.m, Running(pc, i, st), r)
    decreases fuel, Not(p), |e.m.subject| - i, 0
  {
    hide ValidEnv, CodeAt, Halts, GetFirst, HeadFail, FixedLen, Nullable, NoFail, Classify, ChoiceTested, RepTested, TestOf, OptTest, OptTestOf, TestLen,
         AsmTestedChoice, AsmChoice, AsmTestedRep, AsmRep, AsmNot, AsmAnd;
    var (m, s) := (e.m, e.m.subject);
    var f := GetFirst(e.d, e.rules, p, FULL);
    var c := Gen(e.d, e.rules, p, false, NoTest, FULL);
    var t0 := OptTestLen(f);
    var (pc0, pc1) := (pc + t0, pc + t0 + 2);
    var end := pc1 + |c| + 1;
    var r1 := Match(e.rules, p, s, i, fuel).value;
    NotAt(m.code, e.pos, pc, f, c);
    if r1.Fail? {
      SuccessPlain(m, opt, end, i, st, r);
    }
    if !f.empty && !Taken(s, i, f.cs) {
      FirstFails(e, p, i, fuel);
    } else {
      var st1 := Push(Back(end, i), st);
      if r1.Ok? {
        FailTwiceEnds(m, pc1 + |c|, r1.pos, Back(end, i), st, r);
      }
      assert forall b: Byte :: b in FULL;
      GenCorrect(e, p, false, NoTest, FULL, pc1, i, st1, fuel, r);
      ChoiceEnds(m, pc0, 2 + |c| + 1, i, st, r);
    }
    OptTestEnds(m, e.pos, pc, f, 2 + |c| + 1, i, st, r);
  }

  lemma {:induction false} AndCorrect(e: Env, p: Tree, opt: bool, tt: Test, fl: set<Byte>, pc: int, i: nat, st: Stack, fuel: nat, r: State)
    requires ValidEnv(e) && WellFormed(e.d, e.rules, And(p))
    requires CodeAt(e.m.code, e.pos, pc, Gen(e.d, e.rules, And(p), opt, tt, fl))
    requires i <= |e.m.subject| && TestHolds(tt, e.m.subject, i) && OptStack(opt, st)
    requires var res := Match(e.rules, And(p), e.m.subject, i, fuel);
             res.Some? && RestEnds(e.m, opt, fl, pc + |Gen(e.d, e.rules, And(p), opt, tt, fl)|, st, res.value, r)
    ensures Halts(e.m, Running(pc, i, st), r)
    decreases fuel, And(p), |e.m.subject| - i, 2
  {
    hide ValidEnv, CodeAt, Halts, GetFirst, HeadFail, FixedLen, Nullable, NoFail, Classify, ChoiceTested, RepTested, TestOf, OptTest, OptTestOf, TestLen,
         AsmTestedChoice, AsmChoice, AsmTestedRep, AsmRep, AsmNot, AsmAnd;
    var (m, s) := (e.m, e.m.subject);
    var n := FixedLen(e.d, e.rules, p);
    var c := Gen(e.d, e.rules, p, false, tt, FULL);
    var r1 := Match(e.rules, p, s, i, fuel).value;
    if 0 <= n <= MAXBEHIND {
      if r1.Ok? {
        SuccessPlain(m, opt, pc + |c| + |GenBehind(n)|, i, st, r);
      }
      FixedAndCorrect(e, p, tt, pc, i, st, fuel, r);
    } else {
      if r1.Ok? {
        SuccessPlain(m, opt, pc + |AsmAnd(c)|, i, st, r);
      }
      PlainAndCorrect(e, p, tt, pc, i, st, fuel, r);
    }
  }

  lemma {:induction false} FixedAndCorrect(e: Env, p: Tree, tt: Test, pc: int, i: nat, st: Stack, fuel: nat, r: State)
    requires ValidEnv(e) && WellFormed(e.d, e.rules, p) && FixedLen(e.d, e.rules, p) >= 0
    requires CodeAt(e.m.code, e.pos, pc, Gen(e.d, e.rules, p, false, tt, FULL) + GenBehind(FixedLen(e.d, e.rules, p)))
    requires i <= |e.m.subject| && TestHolds(tt, e.m.subject, i)
    requires var res := Match(e.rules, p, e.m.subject, i, fuel);
             && res.Some?
             && Halts(e.m, if res.value.Ok? then Running(pc + |Gen(e.d, e.rules, p, false, tt, FULL) + GenBehind(FixedLen(e.d, e.rules, p))|, i, st) else FailState(st), r)
    ensures Halts(e.m, Running(pc, i, st), r)
    decreases fuel, And(p), |e.m.subject| - i, 0
  {
    hide Gen, ValidEnv, CodeAt, Halts, GetFirst, HeadFail, FixedLen, Nullable, NoFail, Classify, ChoiceTested, RepTested, TestOf, OptTest, OptTestOf, TestLen,
         AsmTestedChoice, AsmChoice, AsmTestedRep, AsmRep, AsmNot, AsmAnd;
    var (m, s) := (e.m, e.m.subject);
    var c := Gen(e.d, e.rules, p, false, tt, FULL);
    var r1 := Match(e.rules, p, s, i, fuel).value;
    assert forall b: Byte :: b in FULL;
    var n := FixedLen(e.d, e.rules, p);
    CodeAtSplit(m.code, e.pos, pc, c, GenBehind(n));
    FixedLenSound(e.d, e.rules, p, s, i, fuel);
    if r1.Ok? {
      BehindStep(m, e.pos, pc + |c|, n, r1.pos, st, r);
    }
    GenCorrect(e, p, false, tt, FULL, pc, i, st, fuel, r);
  }

  lemma {:induction false} PlainAndCorrect(e: Env, p: Tree, tt: Test, pc: int, i: nat, st: Stack, fuel: nat, r: State)
    requires ValidEnv(e) && WellFormed(e.d, e.rules, p)
    requires CodeAt(e.m.code, e.pos, pc, AsmAnd(Gen(e.d, e.rules, p, false, tt, FULL)))
    requires i <= |e.m.subject| && TestHolds(tt, e.m.subject, i)
    requires var res := Match(e.rules, p, e.m.subject, i, fuel);
             && res.Some?
             && Halts(e.m, if res.value.Ok? then Running(pc + |AsmAnd(Gen(e.d, e.rules, p, false, tt, FULL))|, i, st) else FailState(st), r)
    ensures Halts(e.m, Running(pc, i, st), r)
    decreases fuel, And(p), |e.m.subject| - i, 0
  {
    hide Gen, ValidEnv, CodeAt, Halts, GetFirst, HeadFail, FixedLen, Nullable, NoFail, Classify, ChoiceTested, RepTested, TestOf, OptTest, OptTestOf, TestLen,
         AsmTestedChoice, AsmChoice, AsmTestedRep, AsmRep, AsmNot, AsmAnd;
    var (m, s) := (e.m, e.m.subject);
    var c := Gen(e.d, e.rules, p, false, tt, FULL);
    var r1 := Match(e.rules, p, s, i, fuel).value;
    assert forall b: Byte :: b in FULL;
    var l1 := pc + 2 + |c| + 2;
    AndAt(m.code, e.pos, pc, c);
    if r1.Ok? {
      BackCommitEnds(m, pc + 2 + |c|, 3, r1.pos, l1, i, st, r);
    } else {
      FailEndsAt(m, l1, i, st, r);
    }
    GenCorrect(e, p, false, tt, FULL, pc + 2, i, Push(Back(l1, i), st), fuel, r);
    ChoiceEnds(m, pc, 2 + |c| + 2, i, st, r);
  }

  /** Running from `a` passes through every address that jumps lead to from `a`. */
  lemma {:induction false} TailReturns(m: Machine, a: int, n: nat, j: nat, st: Stack, r: State)
    requires TailPath(m.code, a, n) && Halts(m, Running(a, j, st), r)
    ensures st.Push? && st.top.Ret? && Halts(m, Running(st.top.p, j, st.rest), r)
    decreases n
  {
    StepForward(m, Running(a, j, st), r);
    if n > 0 {
      TailReturns(m, a + m.code[a + 1].offset, n - 1, j, st, r);
    } else if !(st.Push? && st.top.Ret?) {
      var k: nat :| Run(m, Stuck, k) == r;
      RunStopped(m, Stuck, k);
    }
  }

  /** The code of a rule, entered with stack `st`, ends as its return does. */
  lemma {:induction false} RuleCorrect(e: Env, n: nat, i: nat, st: Stack, fuel: nat, r: State)
    requires ValidEnv(e) && n < |e.rules| && i <= |e.m.subject|
    requires var res := Match(e.rules, e.rules[n], e.m.subject, i, fuel);
             && res.Some?
             && (res.value.Fail? ==> Halts(e.m, FailState(st), r))
             && (res.value.Ok? ==> st.Push? && st.top.Ret? && Halts(e.m, Running(st.top.p, res.value.pos, st.rest), r))
    ensures Halts(e.m, Running(e.pos[n], i, st), r)
    decreases fuel, e.rules[n], |e.m.subject| - i, 4
  {
    var m := e.m;
    var c := Gen(e.d, e.rules, e.rules[n], false, NoTest, FULL);
    assert CodeAt(m.code, e.pos, e.pos[n], RuleCode(e.d, e.rules, n));
    CodeAtSplit(m.code, e.pos, e.pos[n], c, Ins(IRet));
    CodeAtOp(m.code, e.pos, e.pos[n] + |c|, Ins(IRet));
    var res := Match(e.rules, e.rules[n], m.subject, i, fuel).value;
    if res.Ok? {
      RetEnds(m, e.pos[n] + |c|, res.pos, st.top.p, st.rest, r);
    }
    assert forall b: Byte :: b in FULL;
    GenCorrect(e, e.rules[n], false, NoTest, FULL, e.pos[n], i, st, fuel, r);
  }

  lemma {:induction false} CallCorrect(e: Env, n: nat, opt: bool, tt: Test, fl: set<Byte>, pc: int, i: nat, st: Stack, fuel: nat, r: State)
    requires ValidEnv(e) && WellFormed(e.d, e.rules, Call(n))
    requires CodeAt(e.m.code, e.pos, pc, Gen(e.d, e.rules, Call(n), opt, tt, fl))
    requires i <= |e.m.subject| && TestHolds(tt, e.m.subject, i) && OptStack(opt, st)
    requires var res := Match(e.rules, Call(n), e.m.subject, i, fuel);
             res.Some? && RestEnds(e.m, opt, fl, pc + |Gen(e.d, e.rules, Call(n), opt, tt, fl)|, st, res.value, r)
    ensures Halts(e.m, Running(pc, i, st), r)
    decreases fuel, Call(n), |e.m.subject| - i, 0
  {
    var m := e.m;
    var g := [Op(IOpenCall, 0, n), Hole];
    assert SlotOk(m.code, e.pos, pc + 0, g[0]);
    assert CallAt(m.code, e.pos, pc, n);
    var res := Match(e.rules, e.rules[n], m.subject, i, fuel - 1).value;
    if res.Ok? {
      SuccessPlain(m, opt, pc + 2, res.pos, st, r);
    }
    if m.code[pc].code == ICall {
      RuleCorrect(e, n, i, Push(Ret(pc + 2), st), fuel - 1, r);
    } else {
      if res.Ok? {
        var k: nat :| TailPath(m.code, pc + 2, k);
        TailReturns(m, pc + 2, k, res.pos, st, r);
      }
      RuleCorrect(e, n, i, st, fuel - 1, r);
    }
    StepBack(m, Running(pc, i, st), r);
  }

  lemma {:induction false} GrammarCorrect(e: Env, rs: seq<Tree>, opt: bool, tt: Test, fl: set<Byte>, pc: int, i: nat, st: Stack, fuel: nat, r: State)
    requires ValidEnv(e) && WellFormed(e.d, e.rules, Grammar(rs))
    requires CodeAt(e.m.code, e.pos, pc, Gen(e.d, e.rules, Grammar(rs), opt, tt, fl))
    requires i <= |e.m.subject| && TestHolds(tt, e.m.subject, i) && OptStack(opt, st)
    requires var res := Match(e.rules, Grammar(rs), e.m.subject, i, fuel);
             res.Some? && RestEnds(e.m, opt, fl, pc + |Gen(e.d, e.rules, Grammar(rs), opt, tt, fl)|, st, res.value, r)
    ensures Halts(e.m, Running(pc, i, st), r)
    decreases fuel, Grammar(rs), |e.m.subject| - i, 0
  {
    var (m, s) := (e.m, e.m.subject);
    var raw := RulesCode(e.d, rs, |rs|);
    var rel := Positions(e.d, rs);
    var body := CorrectCalls(raw, rel, 0);
    var pos := seq(|rs|, k requires 0 <= k < |rs| => pc + 4 + rel[k]);
    GrammarAt(e.d, rs, m.code, e.pos, pc);
    GrammarRulesAt(e.d, rs, m.code, pc + 4, pos);
    assert rel[0] == 0;
    var res := Match(rs, rs[0], s, i, fuel).value;
    if res.Ok? {
      SuccessPlain(m, opt, pc + 4 + |body|, res.pos, st, r);
      JmpEnds(m, pc + 2, 2 + |body|, res.pos, st, r);
    }
    RuleCorrect(Env(m, e.d, rs, pos), 0, i, Push(Ret(pc + 2), st), fuel, r);
    CallEnds(m, pc, 4, i, st, r);
  }

  // ---- Whole programs ------------------------------------------------------------------------------------------

  /** Compiled code gives the result of matching: it reaches the end of the program exactly when the pattern matches,
      at the position where the match ends and with nothing but the bottom entry left on the stack. */
  lemma CompileCorrect(d: nat, t: Tree, s: seq<Byte>, i: nat, fuel: nat, r: State)
    requires WellFormed(d, [], t) && i <= |s|
    requires Match([], t, s, i, fuel).Some?
    ensures var start := Running(0, i, Push(Back(GIVEUP, i), Nil));
            Halts(Machine(Compile(d, t), s), start, r)
            <==> r == match Match([], t, s, i, fuel).value
                      case Fail => GaveUp(Nil)
                      case Ok(j) => Matched(j, Push(Back(GIVEUP, i), Nil))
  {
    hide Gen, Match, Parses, WellFormed;
    var m := Machine(Compile(d, t), s);
    var c := Gen(d, [], t, false, NoTest, FULL);
    var st := Push(Back(GIVEUP, i), Nil);
    var res := Match([], t, s, i, fuel).value;
    var end := match res case Fail => GaveUp(Nil) case Ok(j) => Matched(j, st);
    var e := Env(m, d, [], []);
    GenParses(d, [], t, false, NoTest, FULL);
    assert CodeAt(m.code, [], 0, c) by {
      forall k | 0 <= k < |c| ensures SlotOk(m.code, [], 0 + k, c[k]) {
        NoOpenCalls(c, 0, k);
      }
    }
    assert Run(m, end, 0) == end;
    match res {
      case Fail => StepTo(m, Running(GIVEUP, i, Nil), end, end);
      case Ok(j) => StepTo(m, Running(|c|, j, st), end, end);
    }
    assert forall b: Byte :: b in FULL;
    GenCorrect(e, t, false, NoTest, FULL, 0, i, st, fuel, end);
    if Halts(m, Running(0, i, st), r) {
      HaltsUnique(m, Running(0, i, st), r, end);
    }
  }

  /** Outside a grammar there are no open calls. */
  lemma {:induction false} NoOpenCalls(g: seq<Slot>, i: nat, k: nat)
    requires Parses(g, i, 0) && i <= k < |g|
    ensures !g[k].Hole? && (g[k].Op? ==> g[k].code != IOpenCall)
    decreases |g| - i
  {
    var z := Size(g[i].code);
    if k >= i + z {
      NoOpenCalls(g, i + z, k);
    }
  }
}
