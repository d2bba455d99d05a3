/** Where generated code lies in a program: fragments, calls that have been closed, and the rules of a grammar. */
module PegLayout {
  import opened Peg
  import opened PegAnalysis
  import opened PegMachine
  import opened PegGen

  /** From `a`, `n` jumps lead to a return. */
  ghost predicate TailPath(code: seq<Slot>, a: int, n: nat)
    decreases n
  {
    if n == 0 then IsOp(code, a, IRet)
    else IsJump(code, a) && TailPath(code, a + code[a + 1].offset, n - 1)
  }

  ghost predicate TailAt(code: seq<Slot>, a: int) {
    exists n: nat :: TailPath(code, a, n)
  }

  /** At `a` there is a closed call to rule `n`: a call, or a jump when nothing but a return would follow. */
  ghost predicate CallAt(code: seq<Slot>, pos: seq<int>, a: int, n: int) {
    && 0 <= n < |pos|
    && 0 <= a && a + 1 < |code|
    && code[a].Op?
    && code[a + 1] == Off(pos[n] - a)
    && (code[a].code == ICall || (code[a].code == IJmp && TailAt(code, a + 2)))
  }

  /** Slot `a` of the program is generated slot `g`, once calls have been closed towards the rules at `pos`. */
  ghost predicate SlotOk(code: seq<Slot>, pos: seq<int>, a: int, g: Slot) {
    && 0 <= a < |code|
    && match g
       case Op(IOpenCall, _, n) => CallAt(code, pos, a, n)
       case Hole => true
       case _ => code[a] == g
  }

  ghost predicate CodeAt(code: seq<Slot>, pos: seq<int>, pc: int, g: seq<Slot>) {
    && 0 <= pc && pc + |g| <= |code|
    && forall k :: 0 <= k < |g| ==> SlotOk(code, pos, pc + k, g[k])
  }

  ghost predicate RulesAt(code: seq<Slot>, d: nat, rules: seq<Tree>, pos: seq<int>) {
    && |pos| == |rules|
    && forall n :: 0 <= n < |rules| ==>
         WellFormed(d, rules, rules[n]) && CodeAt(code, pos, pos[n], RuleCode(d, rules, n))
  }

  lemma CodeAtSplit(code: seq<Slot>, pos: seq<int>, pc: int, g1: seq<Slot>, g2: seq<Slot>)
    requires CodeAt(code, pos, pc, g1 + g2)
    ensures CodeAt(code, pos, pc, g1)
    ensures CodeAt(code, pos, pc + |g1|, g2)
  {
    var g := g1 + g2;
    forall k | 0 <= k < |g1| ensures SlotOk(code, pos, pc + k, g1[k]) {
      assert g[k] == g1[k];
    }
    forall k | 0 <= k < |g2| ensures SlotOk(code, pos, pc + |g1| + k, g2[k]) {
      assert g[|g1| + k] == g2[k];
      assert SlotOk(code, pos, pc + (|g1| + k), g[|g1| + k]);
    }
  }

  lemma CodeAtOp(code: seq<Slot>, pos: seq<int>, pc: int, g: seq<Slot>)
    requires CodeAt(code, pos, pc, g) && |g| > 0 && g[0].Op? && g[0].code != IOpenCall
    ensures 0 <= pc < |code| && code[pc] == g[0]
    ensures |g| > 1 && g[1].Off? ==> pc + 1 < |code| && code[pc + 1] == g[1]
  {
    assert SlotOk(code, pos, pc + 0, g[0]);
    if |g| > 1 {
      assert SlotOk(code, pos, pc + 1, g[1]);
    }
  }

  lemma CodeAtWords(code: seq<Slot>, pos: seq<int>, pc: int, cs: set<Byte>)
    requires CodeAt(code, pos, pc, Words(cs))
    ensures SetAt(code, pc, cs)
  {
    forall k | 0 <= k < SETWORDS ensures code[pc..pc + SETWORDS][k] == Words(cs)[k] {
      assert SlotOk(code, pos, pc + k, Words(cs)[k]);
    }
  }

  // ---- Generated code is a sequence of whole instructions -------------------------------------------------

  /** Instructions with a label that is set */
  predicate HasLabel(op: Opcode) {
    match op
    case ITestAny | ITestChar | ITestSet | IChoice | IJmp | ICall | ICommit | IPartialCommit | IBackCommit => true
    case _ => false
  }

  /** An instruction starts at `i`; only an open call has an open offset, and its rule is below `n`. */
  ghost predicate InstrAt(g: seq<Slot>, i: nat, n: nat) {
    && i < |g| && g[i].Op?
    && i + Size(g[i].code) <= |g|
    && (forall k :: i < k < i + Size(g[i].code) ==> !g[k].Op?)
    && (forall k :: i < k < i + Size(g[i].code) ==> (g[k].Hole? <==> g[i].code == IOpenCall))
    && (g[i].code == IOpenCall ==> 0 <= g[i].key < n)
    && (HasLabel(g[i].code) ==> g[i + 1].Off?)
  }

  ghost predicate Parses(g: seq<Slot>, i: nat, n: nat)
    decreases |g| - i
  {
    i == |g| || (i < |g| && InstrAt(g, i, n) && Parses(g, i + Size(g[i].code), n))
  }

  lemma {:induction false} ParsesShift(g1: seq<Slot>, g2: seq<Slot>, i: nat, n: nat)
    requires Parses(g2, i, n)
    ensures Parses(g1 + g2, |g1| + i, n)
    decreases |g2| - i
  {
    if i < |g2| {
      ParsesShift(g1, g2, i + Size(g2[i].code), n);
      var g := g1 + g2;
      assert g[|g1| + i] == g2[i];
      forall k | |g1| + i < k < |g1| + i + Size(g2[i].code)
        ensures !g[k].Op? && (g[k].Hole? <==> g2[i].code == IOpenCall)
      {
        assert g[k] == g2[k - |g1|];
      }
    }
  }

  lemma {:induction false} ParsesConcatFrom(g1: seq<Slot>, g2: seq<Slot>, i: nat, n: nat)
    requires Parses(g1, i, n) && Parses(g2, 0, n)
    ensures Parses(g1 + g2, i, n)
    decreases |g1| - i
  {
    if i == |g1| {
      ParsesShift(g1, g2, 0, n);
    } else {
      ParsesConcatFrom(g1, g2, i + Size(g1[i].code), n);
      var g := g1 + g2;
      assert forall k :: i <= k < i + Size(g1[i].code) ==> g[k] == g1[k];
    }
  }

  lemma ParsesConcat(g1: seq<Slot>, g2: seq<Slot>, n: nat)
    requires Parses(g1, 0, n) && Parses(g2, 0, n)
    ensures Parses(g1 + g2, 0, n)
  {
    ParsesConcatFrom(g1, g2, 0, n);
  }

  lemma ParsesOne(g: seq<Slot>, n: nat)
    requires InstrAt(g, 0, n) && |g| == Size(g[0].code)
    ensures Parses(g, 0, n)
  {
    assert Parses(g, |g|, n);
  }

  lemma ParsesIns(op: Opcode, n: nat)
    requires Size(op) == 1
    ensures Parses(Ins(op), 0, n)
  {
    ParsesOne(Ins(op), n);
  }

  lemma ParsesInsTo(op: Opcode, offset: int, n: nat)
    requires Size(op) == 2 && op != IOpenCall
    ensures Parses(InsTo(op, offset), 0, n)
  {
    ParsesOne(InsTo(op, offset), n);
  }

  lemma ParsesTest(cs: set<Byte>, offset: int, n: nat)
    ensures Parses(GenTest(cs, offset), 0, n)
  {
    ParsesOne(GenTest(cs, offset), n);
  }

  lemma ParsesOptTest(f: First, rest: nat, n: nat)
    ensures Parses(OptTest(f, rest), 0, n)
  {
    if !f.empty {
      ParsesTest(f.cs, TestLen(f.cs) + rest, n);
    }
  }

  lemma ParsesBehind(k: nat, n: nat)
    ensures Parses(GenBehind(k), 0, n)
  {
    if k > 0 {
      ParsesOne(GenBehind(k), n);
    }
  }

  lemma ParsesTestedChoice(cs: set<Byte>, c1: seq<Slot>, emptyp2: bool, c2: seq<Slot>, n: nat)
    requires Parses(c1, 0, n) && Parses(c2, 0, n)
    ensures Parses(AsmTestedChoice(cs, c1, emptyp2, c2), 0, n)
  {
    hide Parses;
    var off := if emptyp2 then TestLen(cs) + |c1| else TestLen(cs) + |c1| + 2;
    ParsesTest(cs, off, n);
    ParsesConcat(GenTest(cs, off), c1, n);
    if emptyp2 {
      ParsesConcat(GenTest(cs, off) + c1, c2, n);
    } else {
      ParsesInsTo(IJmp, 2 + |c2|, n);
      ParsesConcat(GenTest(cs, off) + c1, InsTo(IJmp, 2 + |c2|), n);
      ParsesConcat(GenTest(cs, off) + c1 + InsTo(IJmp, 2 + |c2|), c2, n);
    }
  }

  lemma ParsesChoice(f: First, c1: seq<Slot>, c2: seq<Slot>, n: nat)
    requires Parses(c1, 0, n) && Parses(c2, 0, n)
    ensures Parses(AsmChoice(f, c1, c2), 0, n)
  {
    hide Parses;
    var g0 := OptTest(f, 2 + |c1| + 2);
    var g1 := InsTo(IChoice, 2 + |c1| + 2);
    var g2 := InsTo(ICommit, 2 + |c2|);
    ParsesOptTest(f, 2 + |c1| + 2, n);
    ParsesInsTo(IChoice, 2 + |c1| + 2, n);
    ParsesInsTo(ICommit, 2 + |c2|, n);
    ParsesConcat(g0, g1, n);
    ParsesConcat(g0 + g1, c1, n);
    ParsesConcat(g0 + g1 + c1, g2, n);
    ParsesConcat(g0 + g1 + c1 + g2, c2, n);
  }

  lemma ParsesTestedRep(cs: set<Byte>, c: seq<Slot>, n: nat)
    requires Parses(c, 0, n)
    ensures Parses(AsmTestedRep(cs, c), 0, n)
  {
    hide Parses;
    var g0 := GenTest(cs, TestLen(cs) + |c| + 2);
    var g1 := InsTo(IJmp, -(TestLen(cs) + |c|));
    ParsesTest(cs, TestLen(cs) + |c| + 2, n);
    ParsesInsTo(IJmp, -(TestLen(cs) + |c|), n);
    ParsesConcat(g0, c, n);
    ParsesConcat(g0 + c, g1, n);
  }

  lemma ParsesRep(f: First, opt: bool, c: seq<Slot>, n: nat)
    requires Parses(c, 0, n)
    ensures Parses(AsmRep(f, opt, c), 0, n)
  {
    hide Parses;
    var g0 := OptTest(f, 2 + |c| + 2);
    var g1 := if opt then InsTo(IPartialCommit, 2) else InsTo(IChoice, 2 + |c| + 2);
    var g2 := InsTo(IPartialCommit, -|c|);
    ParsesOptTest(f, 2 + |c| + 2, n);
    ParsesInsTo(IPartialCommit, 2, n);
    ParsesInsTo(IChoice, 2 + |c| + 2, n);
    ParsesInsTo(IPartialCommit, -|c|, n);
    ParsesConcat(g0, g1, n);
    ParsesConcat(g0 + g1, c, n);
    ParsesConcat(g0 + g1 + c, g2, n);
  }

  lemma ParsesNot(f: First, c: seq<Slot>, n: nat)
    requires Parses(c, 0, n)
    ensures Parses(AsmNot(f, c), 0, n)
  {
    hide Parses;
    var g0 := OptTest(f, 2 + |c| + 1);
    var g1 := InsTo(IChoice, 2 + |c| + 1);
    ParsesOptTest(f, 2 + |c| + 1, n);
    ParsesInsTo(IChoice, 2 + |c| + 1, n);
    ParsesIns(IFailTwice, n);
    ParsesConcat(g0, g1, n);
    ParsesConcat(g0 + g1, c, n);
    ParsesConcat(g0 + g1 + c, Ins(IFailTwice), n);
  }

  lemma ParsesAnd(c: seq<Slot>, n: nat)
    requires Parses(c, 0, n)
    ensures Parses(AsmAnd(c), 0, n)
  {
    hide Parses;
    var g0 := InsTo(IChoice, 2 + |c| + 2);
    ParsesInsTo(IChoice, 2 + |c| + 2, n);
    ParsesInsTo(IBackCommit, 3, n);
    ParsesIns(IFail, n);
    ParsesConcat(g0, c, n);
    ParsesConcat(g0 + c, InsTo(IBackCommit, 3), n);
    ParsesConcat(g0 + c + InsTo(IBackCommit, 3), Ins(IFail), n);
  }

  lemma {:induction false} ParsesMore(g: seq<Slot>, i: nat, n: nat, n': nat)
    requires Parses(g, i, n)
    requires n <= n' || forall k :: 0 <= k < |g| ==> !(g[k].Op? && g[k].code == IOpenCall)
    ensures Parses(g, i, n')
    decreases |g| - i
  {
    if i < |g| {
      ParsesMore(g, i + Size(g[i].code), n, n');
    }
  }

  lemma {:induction false} GenParses(d: nat, rules: seq<Tree>, t: Tree, opt: bool, tt: Test, fl: set<Byte>)
    requires WellFormed(d, rules, t)
    ensures Parses(Gen(d, rules, t, opt, tt, fl), 0, |rules|)
    decreases t, 1
  {
    var n := |rules|;
    match t
    case Char(c) => ParsesOne(GenChar(c, tt), n);
    case Any => ParsesIns(IAny, n);
    case CSet(cs) => ParsesOne(GenSet(cs, tt), n);
    case True =>
    case False => ParsesIns(IFail, n);
    case Choice(p1, p2) => ChoiceParses(d, rules, p1, p2, opt, tt, fl);
    case Rep(p) => RepParses(d, rules, p, opt, tt, fl);
    case Not(p) => NotParses(d, rules, p, opt, tt, fl);
    case And(p) => AndParses(d, rules, p, opt, tt, fl);
    case Behind(k, p) =>
      ParsesBehind(k, n);
      GenParses(d, rules, p, false, NoTest, FULL);
      ParsesConcat(GenBehind(k), Gen(d, rules, p, false, NoTest, FULL), n);
    case Seq(p1, p2) =>
      var fl1 := SeqFollow(d, rules, p1, p2, fl);
      var tt2 := if FixedLen(d, rules, p1) != 0 then NoTest else tt;
      GenParses(d, rules, p1, false, tt, fl1);
      GenParses(d, rules, p2, opt, tt2, fl);
      ParsesConcat(Gen(d, rules, p1, false, tt, fl1), Gen(d, rules, p2, opt, tt2, fl), n);
    case Call(k) => ParsesOne([Op(IOpenCall, 0, k), Hole], n);
    case Grammar(rs) => GrammarParses(d, rs, n);
  }

  lemma {:induction false} ChoiceParses(d: nat, rules: seq<Tree>, p1: Tree, p2: Tree, opt: bool, tt: Test, fl: set<Byte>)
    requires WellFormed(d, rules, p1) && WellFormed(d, rules, p2)
    ensures Parses(Gen(d, rules, Choice(p1, p2), opt, tt, fl), 0, |rules|)
    decreases Choice(p1, p2), 0
  {
    hide Parses, GetFirst, HeadFail, FixedLen, ChoiceTested, OptTest;
    var n := |rules|;
    var f1 := GetFirst(d, rules, p1, FULL);
    GenParses(d, rules, p2, opt, NoTest, fl);
    if ChoiceTested(d, rules, p1, p2, fl) {
      GenParses(d, rules, p1, false, TestOf(f1.cs), fl);
      ParsesTestedChoice(f1.cs, Gen(d, rules, p1, false, TestOf(f1.cs), fl), p2.True?, Gen(d, rules, p2, opt, NoTest, fl), n);
    } else if opt && p2.True? {
      GenParses(d, rules, p1, true, NoTest, FULL);
      ParsesInsTo(IPartialCommit, 2, n);
      ParsesConcat(InsTo(IPartialCommit, 2), Gen(d, rules, p1, true, NoTest, FULL), n);
    } else {
      GenParses(d, rules, p1, p2.True?, OptTestOf(f1), FULL);
      ParsesChoice(f1, Gen(d, rules, p1, p2.True?, OptTestOf(f1), FULL), Gen(d, rules, p2, opt, NoTest, fl), n);
    }
  }

  lemma {:induction false} RepParses(d: nat, rules: seq<Tree>, p: Tree, opt: bool, tt: Test, fl: set<Byte>)
    requires WellFormed(d, rules, p)
    ensures Parses(Gen(d, rules, Rep(p), opt, tt, fl), 0, |rules|)
    decreases Rep(p), 0
  {
    hide GetFirst, HeadFail, FixedLen, RepTested;
    var n := |rules|;
    match ToCharset(p)
    case Some(cs) => ParsesOne(Ins(ISpan) + Words(cs), n);
    case None =>
      var f := GetFirst(d, rules, p, FULL);
      if RepTested(d, rules, p, fl) {
        GenParses(d, rules, p, false, TestOf(f.cs), FULL);
        ParsesTestedRep(f.cs, Gen(d, rules, p, false, TestOf(f.cs), FULL), n);
      } else {
        GenParses(d, rules, p, false, NoTest, FULL);
        ParsesRep(f, opt, Gen(d, rules, p, false, NoTest, FULL), n);
      }
  }

  /** The two forms of the code for a negation */
  lemma NotCode(d: nat, rules: seq<Tree>, p: Tree, opt: bool, tt: Test, fl: set<Byte>)
    requires WellFormed(d, rules, p)
    ensures Gen(d, rules, Not(p), opt, tt, fl)
         == var f := GetFirst(d, rules, p, FULL);
            if HeadFail(d, rules, p) then OptTest(f, 1) + Ins(IFail) else AsmNot(f, Gen(d, rules, p, false, NoTest, FULL))
  {
    hide GetFirst, HeadFail, OptTest, AsmNot, Ins;
  }

  lemma {:induction false} NotParses(d: nat, rules: seq<Tree>, p: Tree, opt: bool, tt: Test, fl: set<Byte>)
    requires WellFormed(d, rules, p)
    ensures Parses(Gen(d, rules, Not(p), opt, tt, fl), 0, |rules|)
    decreases Not(p), 0
  {
    NotCode(d, rules, p, opt, tt, fl);
    hide Parses, GetFirst, HeadFail, OptTest, AsmNot, Gen, Ins;
    var n := |rules|;
    var f := GetFirst(d, rules, p, FULL);
    if HeadFail(d, rules, p) {
      ParsesOptTest(f, 1, n);
      ParsesIns(IFail, n);
      ParsesConcat(OptTest(f, 1), Ins(IFail), n);
    } else {
      GenParses(d, rules, p, false, NoTest, FULL);
      ParsesNot(f, Gen(d, rules, p, false, NoTest, FULL), n);
    }
  }

  lemma {:induction false} AndParses(d: nat, rules: seq<Tree>, p: Tree, opt: bool, tt: Test, fl: set<Byte>)
    requires WellFormed(d, rules, p)
    ensures Parses(Gen(d, rules, And(p), opt, tt, fl), 0, |rules|)
    decreases And(p), 0
  {
    hide Parses, GetFirst, HeadFail, FixedLen, ChoiceTested, OptTest;
    var n := |rules|;
    var k := FixedLen(d, rules, p);
    GenParses(d, rules, p, false, tt, FULL);
    if 0 <= k <= MAXBEHIND {
      ParsesBehind(k, n);
      ParsesConcat(Gen(d, rules, p, false, tt, FULL), GenBehind(k), n);
    } else {
      ParsesAnd(Gen(d, rules, p, false, tt, FULL), n);
    }
  }

  lemma {:induction false} GrammarParses(d: nat, rs: seq<Tree>, n: nat)
    requires forall j :: 0 <= j < |rs| ==> WellFormed(d, rs, rs[j])
    ensures var body := CorrectCalls(RulesCode(d, rs, |rs|), Positions(d, rs), 0);
            Parses(InsTo(ICall, 4) + InsTo(IJmp, 2 + |body|) + body, 0, n)
    decreases rs, |rs|, 1
  {
    hide Parses, CorrectCalls;
    var raw := RulesCode(d, rs, |rs|);
    var body := CorrectCalls(raw, Positions(d, rs), 0);
    RulesParse(d, rs, |rs|);
    CorrectCallsOk(raw, raw, Positions(d, rs), 0);
    ParsesClosed(raw, body, Positions(d, rs), 0, |rs|, n);
    ParsesInsTo(ICall, 4, n);
    ParsesInsTo(IJmp, 2 + |body|, n);
    ParsesConcat(InsTo(ICall, 4), InsTo(IJmp, 2 + |body|), n);
    ParsesConcat(InsTo(ICall, 4) + InsTo(IJmp, 2 + |body|), body, n);
  }

  lemma {:induction false} RulesParse(d: nat, rs: seq<Tree>, k: nat)
    requires k <= |rs| && forall j :: 0 <= j < |rs| ==> WellFormed(d, rs, rs[j])
    ensures Parses(RulesCode(d, rs, k), 0, |rs|)
    decreases rs, k, 0
  {
    hide Gen;
    if k > 0 {
      RulesParse(d, rs, k - 1);
      GenParses(d, rs, rs[k - 1], false, NoTest, FULL);
      ParsesOne(Ins(IRet), |rs|);
      ParsesConcat(Gen(d, rs, rs[k - 1], false, NoTest, FULL), Ins(IRet), |rs|);
      ParsesConcat(RulesCode(d, rs, k - 1), RuleCode(d, rs, k - 1), |rs|);
    }
  }

  // ---- correctcalls ---------------------------------------------------------------------------------------

  /** Slot `k` needs no more work. */
  ghost predicate Closed(code: seq<Slot>, pos: seq<int>, raw: seq<Slot>, k: int) {
    && 0 <= k < |code| == |raw|
    && SlotOk(code, pos, k, raw[k])
    && !code[k].Hole?
    && (code[k].Op? ==> code[k].code != IOpenCall && raw[k].Op? && (raw[k].code == code[k].code || raw[k].code == IOpenCall))
    && (raw[k].Op? ==> code[k].Op?)
  }

  lemma {:induction false} FinalTargetPath(code: seq<Slot>, a: int, fuel: nat)
    requires IsOp(code, FinalTarget(code, a, fuel), IRet)
    ensures TailAt(code, a)
    decreases fuel
  {
    if fuel > 0 && IsJump(code, a) {
      FinalTargetPath(code, a + code[a + 1].offset, fuel - 1);
      var n: nat :| TailPath(code, a + code[a + 1].offset, n);
      assert TailPath(code, a, n + 1);
    } else {
      assert TailPath(code, a, 0);
    }
  }

  lemma {:induction false} TailPathKept(code: seq<Slot>, code': seq<Slot>, a: int, n: nat)
    requires |code| == |code'| && TailPath(code, a, n)
    requires forall k :: 0 <= k < |code| && (code[k].Off? || IsOp(code, k, IJmp) || IsOp(code, k, IRet)) ==> code'[k] == code[k]
    ensures TailPath(code', a, n)
    decreases n
  {
    if n > 0 {
      TailPathKept(code, code', a + code[a + 1].offset, n - 1);
    }
  }

  lemma {:induction false} CorrectCallsOk(raw: seq<Slot>, code: seq<Slot>, pos: seq<int>, i: nat)
    requires |code| == |raw| && i <= |raw|
    requires Parses(raw, i, |pos|)
    requires forall k :: 0 <= k < i ==> Closed(code, pos, raw, k)
    requires forall k :: i <= k < |raw| ==> code[k] == raw[k]
    ensures forall k :: 0 <= k < |raw| ==> Closed(CorrectCalls(code, pos, i), pos, raw, k)
    decreases |raw| - i
  {
    if i < |raw| {
      assert code[i] == raw[i];
      var z := Size(raw[i].code);
      if raw[i].code == IOpenCall {
        var code' := CloseCall(code, pos, i);
        CloseCallOk(raw, code, pos, i);
        CorrectCallsOk(raw, code', pos, i + 2);
      } else {
        forall k | i <= k < i + z ensures Closed(code, pos, raw, k) {
          assert code[k] == raw[k];
        }
        CorrectCallsOk(raw, code, pos, i + z);
      }
    }
  }

  lemma CloseCallOk(raw: seq<Slot>, code: seq<Slot>, pos: seq<int>, i: nat)
    requires |code| == |raw| && i + 1 < |raw|
    requires InstrAt(raw, i, |pos|) && raw[i].code == IOpenCall
    requires forall k :: 0 <= k < i ==> Closed(code, pos, raw, k)
    requires forall k :: i <= k < |raw| ==> code[k] == raw[k]
    ensures forall k :: 0 <= k < i + 2 ==> Closed(CloseCall(code, pos, i), pos, raw, k)
  {
    var code' := CloseCall(code, pos, i);
    assert raw[i + 1].Hole?;
    forall k | 0 <= k < |code| && (code[k].Off? || IsOp(code, k, IJmp) || IsOp(code, k, IRet))
      ensures code'[k] == code[k]
    {
    }
    forall k | 0 <= k < i ensures Closed(code', pos, raw, k) {
      assert Closed(code, pos, raw, k);
      if raw[k].Op? && raw[k].code == IOpenCall {
        assert CallAt(code, pos, k, raw[k].key);
        assert code[k + 1].Off?;
        assert code[i].Op? && k + 1 != i;
        if code[k].code == IJmp {
          var n: nat :| TailPath(code, k + 2, n);
          TailPathKept(code, code', k + 2, n);
        }
      }
    }
    if IsOp(code, FinalTarget(code, i + 2, |code|), IRet) {
      FinalTargetPath(code, i + 2, |code|);
      var n: nat :| TailPath(code, i + 2, n);
      TailPathKept(code, code', i + 2, n);
    }
    assert CallAt(code', pos, i, raw[i].key);
  }

  lemma {:induction false} ParsesClosed(raw: seq<Slot>, code: seq<Slot>, pos: seq<int>, i: nat, n: nat, n': nat)
    requires Parses(raw, i, n) && |code| == |raw|
    requires forall k :: 0 <= k < |raw| ==> Closed(code, pos, raw, k)
    ensures Parses(code, i, n')
    decreases |raw| - i
  {
    if i < |raw| {
      var z := Size(raw[i].code);
      ParsesClosed(raw, code, pos, i + z, n, n');
      assert Closed(code, pos, raw, i);
      assert Size(code[i].code) == z by {
        if raw[i].code == IOpenCall {
          assert CallAt(code, pos, i, raw[i].key);
        }
      }
      if z > 1 {
        assert Closed(code, pos, raw, i + 1);
      }
      forall k | i < k < i + z ensures !code[k].Op? && !code[k].Hole? {
        assert Closed(code, pos, raw, k);
      }
    }
  }

  // ---- The rules of a grammar that has been placed --------------------------------------------------------

  lemma {:induction false} TailPathPlaced(body: seq<Slot>, code: seq<Slot>, base: nat, a: int, n: nat)
    requires base + |body| <= |code| && forall k :: 0 <= k < |body| ==> code[base + k] == body[k]
    requires TailPath(body, a, n)
    ensures TailPath(code, base + a, n)
    decreases n
  {
    if n > 0 {
      assert code[base + a] == body[a];
      assert code[base + (a + 1)] == body[a + 1];
      TailPathPlaced(body, code, base, a + body[a + 1].offset, n - 1);
    } else {
      assert code[base + a] == body[a];
    }
  }

  lemma {:induction false} RulesCodePrefix(d: nat, rs: seq<Tree>, k: nat, n: nat)
    requires k <= n <= |rs|
    ensures |RulesCode(d, rs, k)| <= |RulesCode(d, rs, n)|
    ensures RulesCode(d, rs, k) == RulesCode(d, rs, n)[..|RulesCode(d, rs, k)|]
    decreases n - k
  {
    if k < n {
      RulesCodePrefix(d, rs, k, n - 1);
    }
  }

  lemma BodyPlaced(raw: seq<Slot>, rel: seq<int>, body: seq<Slot>, code: seq<Slot>, base: nat, pos: seq<int>)
    requires |body| == |raw| && forall k :: 0 <= k < |raw| ==> Closed(body, rel, raw, k)
    requires base + |body| <= |code| && forall k :: 0 <= k < |body| ==> code[base + k] == body[k]
    requires |pos| == |rel| && forall n :: 0 <= n < |rel| ==> pos[n] == base + rel[n]
    ensures CodeAt(code, pos, base, raw)
  {
    forall k | 0 <= k < |raw| ensures SlotOk(code, pos, base + k, raw[k]) {
      assert Closed(body, rel, raw, k);
      assert code[base + k] == body[k];
      if raw[k].Op? && raw[k].code == IOpenCall {
        assert CallAt(body, rel, k, raw[k].key);
        assert code[base + (k + 1)] == body[k + 1];
        if body[k].code == IJmp {
          var n: nat :| TailPath(body, k + 2, n);
          TailPathPlaced(body, code, base, k + 2, n);
          assert TailPath(code, base + k + 2, n);
        }
      }
    }
  }

  lemma RulePlaced(d: nat, rs: seq<Tree>, code: seq<Slot>, base: nat, pos: seq<int>, n: nat)
    requires CodeAt(code, pos, base, RulesCode(d, rs, |rs|)) && n < |rs|
    ensures CodeAt(code, pos, base + Positions(d, rs)[n], RuleCode(d, rs, n))
  {
    var raw := RulesCode(d, rs, |rs|);
    RulesCodePrefix(d, rs, n + 1, |rs|);
    var (r0, r1) := (RulesCode(d, rs, n), RulesCode(d, rs, n + 1));
    assert raw == r0 + RuleCode(d, rs, n) + raw[|r1|..];
    CodeAtSplit(code, pos, base, r0 + RuleCode(d, rs, n), raw[|r1|..]);
    CodeAtSplit(code, pos, base, r0, RuleCode(d, rs, n));
  }

  /** The corrected body of a grammar, placed at `base`, is the code of its rules with every call closed. */
  lemma GrammarRulesAt(d: nat, rs: seq<Tree>, code: seq<Slot>, base: nat, pos: seq<int>)
    requires forall k :: 0 <= k < |rs| ==> WellFormed(d, rs, rs[k])
    requires var body := CorrectCalls(RulesCode(d, rs, |rs|), Positions(d, rs), 0);
             base + |body| <= |code| && forall k :: 0 <= k < |body| ==> code[base + k] == body[k]
    requires |pos| == |rs| && forall n :: 0 <= n < |rs| ==> pos[n] == base + Positions(d, rs)[n]
    ensures RulesAt(code, d, rs, pos)
  {
    var raw := RulesCode(d, rs, |rs|);
    var rel := Positions(d, rs);
    RulesParse(d, rs, |rs|);
    CorrectCallsOk(raw, raw, rel, 0);
    BodyPlaced(raw, rel, CorrectCalls(raw, rel, 0), code, base, pos);
    forall n | 0 <= n < |rs| ensures CodeAt(code, pos, pos[n], RuleCode(d, rs, n)) {
      RulePlaced(d, rs, code, base, pos, n);
    }
  }
}
