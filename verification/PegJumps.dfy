/** Where the jumps of generated code lead. */
module PegJumps {
  import opened Peg
  import opened PegAnalysis
  import opened PegMachine
  import opened PegGen
  import opened PegLayout

  function Target(g: seq<Slot>, k: int): int
    requires IsJump(g, k)
  {
    k + g[k + 1].offset
  }

  /** All jumps lead to addresses from `lo` to `hi`. */
  ghost predicate JumpsOk(g: seq<Slot>, lo: int, hi: int) {
    forall k :: IsJump(g, k) ==> lo <= Target(g, k) <= hi
  }

  ghost predicate StartsWithOp(g: seq<Slot>) {
    g == [] || g[0].Op?
  }

  lemma JumpsConcat(g1: seq<Slot>, g2: seq<Slot>, lo: int, hi: int)
    requires JumpsOk(g1, lo, hi) && JumpsOk(g2, lo - |g1|, hi - |g1|) && StartsWithOp(g2)
    ensures JumpsOk(g1 + g2, lo, hi)
  {
    var g := g1 + g2;
    forall k | IsJump(g, k)
      ensures lo <= Target(g, k) <= hi
    {
      if k < |g1| {
        assert k + 1 != |g1|;
        assert IsJump(g1, k);
      } else {
        assert IsJump(g2, k - |g1|);
      }
    }
  }

  lemma JumpsWiden(g: seq<Slot>, lo: int, hi: int, lo': int, hi': int)
    requires JumpsOk(g, lo, hi) && lo' <= lo && hi <= hi'
    ensures JumpsOk(g, lo', hi')
  {
  }

  lemma JumpsIns(op: Opcode, lo: int, hi: int)
    ensures JumpsOk(Ins(op), lo, hi) && StartsWithOp(Ins(op))
  {
  }

  lemma JumpsInsTo(op: Opcode, offset: int, lo: int, hi: int)
    requires op == IJmp ==> lo <= offset <= hi && offset > 0
    ensures JumpsOk(InsTo(op, offset), lo, hi) && StartsWithOp(InsTo(op, offset))
  {
  }

  lemma JumpsTest(cs: set<Byte>, offset: int, lo: int, hi: int)
    requires lo <= offset <= hi && offset > 0
    ensures JumpsOk(GenTest(cs, offset), lo, hi) && StartsWithOp(GenTest(cs, offset))
  {
  }

  lemma JumpsOptTest(f: First, rest: nat, lo: int, hi: int)
    requires lo <= OptTestLen(f) + rest <= hi
    ensures JumpsOk(OptTest(f, rest), lo, hi) && StartsWithOp(OptTest(f, rest))
  {
    if !f.empty {
      JumpsTest(f.cs, TestLen(f.cs) + rest, lo, hi);
    }
  }

  lemma JumpsTestedChoice(cs: set<Byte>, c1: seq<Slot>, emptyp2: bool, c2: seq<Slot>)
    requires JumpsOk(c1, 0, |c1|) && JumpsOk(c2, 0, |c2|) && StartsWithOp(c1) && StartsWithOp(c2)
    ensures var g := AsmTestedChoice(cs, c1, emptyp2, c2); JumpsOk(g, 0, |g|) && StartsWithOp(g)
  {
    hide JumpsOk;
    var n := |AsmTestedChoice(cs, c1, emptyp2, c2)|;
    var tl := TestLen(cs);
    var off := if emptyp2 then tl + |c1| else tl + |c1| + 2;
    var g0 := GenTest(cs, off);
    JumpsTest(cs, off, 0, n);
    JumpsWiden(c1, 0, |c1|, -tl, n - tl);
    JumpsConcat(g0, c1, 0, n);
    if emptyp2 {
      JumpsWiden(c2, 0, |c2|, -(tl + |c1|), n - (tl + |c1|));
      JumpsConcat(g0 + c1, c2, 0, n);
    } else {
      var g1 := InsTo(IJmp, 2 + |c2|);
      JumpsInsTo(IJmp, 2 + |c2|, -(tl + |c1|), n - (tl + |c1|));
      JumpsConcat(g0 + c1, g1, 0, n);
      JumpsWiden(c2, 0, |c2|, -(tl + |c1| + 2), n - (tl + |c1| + 2));
      JumpsConcat(g0 + c1 + g1, c2, 0, n);
    }
  }

  lemma JumpsChoice(f: First, c1: seq<Slot>, c2: seq<Slot>)
    requires JumpsOk(c1, 0, |c1|) && JumpsOk(c2, 0, |c2|) && StartsWithOp(c1) && StartsWithOp(c2)
    ensures var g := AsmChoice(f, c1, c2); JumpsOk(g, 0, |g|) && StartsWithOp(g)
  {
    hide JumpsOk;
    var n := |AsmChoice(f, c1, c2)|;
    var (g0, g1, g2) := (OptTest(f, 2 + |c1| + 2), InsTo(IChoice, 2 + |c1| + 2), InsTo(ICommit, 2 + |c2|));
    var l0: int := OptTestLen(f);
    JumpsOptTest(f, 2 + |c1| + 2, 0, n);
    JumpsInsTo(IChoice, 2 + |c1| + 2, -l0, n - l0);
    JumpsConcat(g0, g1, 0, n);
    var l1 := l0 + 2;
    JumpsWiden(c1, 0, |c1|, -l1, n - l1);
    JumpsConcat(g0 + g1, c1, 0, n);
    var l2 := l1 + |c1|;
    JumpsInsTo(ICommit, 2 + |c2|, -l2, n - l2);
    JumpsConcat(g0 + g1 + c1, g2, 0, n);
    var l3 := l2 + 2;
    JumpsWiden(c2, 0, |c2|, -l3, n - l3);
    JumpsConcat(g0 + g1 + c1 + g2, c2, 0, n);
  }

  lemma JumpsTestedRep(cs: set<Byte>, c: seq<Slot>)
    requires JumpsOk(c, 0, |c|) && StartsWithOp(c)
    ensures var g := AsmTestedRep(cs, c); JumpsOk(g, 0, |g|) && StartsWithOp(g)
  {
    var g := AsmTestedRep(cs, c);
    var n := |g|;
    var tl := TestLen(cs);
    var g0 := GenTest(cs, tl + |c| + 2);
    var g1 := InsTo(IJmp, -(tl + |c|));
    JumpsTest(cs, tl + |c| + 2, 0, n);
    JumpsConcat(g0, c, 0, n);
    forall k | IsJump(g, k) ensures 0 <= Target(g, k) <= n {
      if k < tl + |c| {
        assert g[k] == (g0 + c)[k] && k + 1 != tl + |c|;
        assert IsJump(g0 + c, k);
      } else {
        assert k == tl + |c| && Target(g, k) == 0;
        assert g[0] == g0[0] && g[1] == g0[1];
      }
    }
  }

  lemma JumpsRep(f: First, opt: bool, c: seq<Slot>)
    requires JumpsOk(c, 0, |c|) && StartsWithOp(c)
    ensures var g := AsmRep(f, opt, c); JumpsOk(g, 0, |g|) && StartsWithOp(g)
  {
    hide JumpsOk;
    var n := |AsmRep(f, opt, c)|;
    var g0 := OptTest(f, 2 + |c| + 2);
    var g1 := if opt then InsTo(IPartialCommit, 2) else InsTo(IChoice, 2 + |c| + 2);
    var g2 := InsTo(IPartialCommit, -|c|);
    var l0: int := OptTestLen(f);
    JumpsOptTest(f, 2 + |c| + 2, 0, n);
    JumpsInsTo(IPartialCommit, 2, -l0, n - l0);
    JumpsInsTo(IChoice, 2 + |c| + 2, -l0, n - l0);
    JumpsConcat(g0, g1, 0, n);
    var l1 := l0 + 2;
    JumpsWiden(c, 0, |c|, -l1, n - l1);
    JumpsConcat(g0 + g1, c, 0, n);
    var l2 := l1 + |c|;
    JumpsInsTo(IPartialCommit, -|c|, -l2, n - l2);
    JumpsConcat(g0 + g1 + c, g2, 0, n);
  }

  lemma JumpsNot(f: First, c: seq<Slot>)
    requires JumpsOk(c, 0, |c|) && StartsWithOp(c)
    ensures var g := AsmNot(f, c); JumpsOk(g, 0, |g|) && StartsWithOp(g)
  {
    hide JumpsOk;
    var n := |AsmNot(f, c)|;
    var (g0, g1) := (OptTest(f, 2 + |c| + 1), InsTo(IChoice, 2 + |c| + 1));
    var l0: int := OptTestLen(f);
    JumpsOptTest(f, 2 + |c| + 1, 0, n);
    JumpsInsTo(IChoice, 2 + |c| + 1, -l0, n - l0);
    JumpsConcat(g0, g1, 0, n);
    var l1 := l0 + 2;
    JumpsWiden(c, 0, |c|, -l1, n - l1);
    JumpsConcat(g0 + g1, c, 0, n);
    var l2 := l1 + |c|;
    JumpsIns(IFailTwice, -l2, n - l2);
    JumpsConcat(g0 + g1 + c, Ins(IFailTwice), 0, n);
  }

  lemma JumpsAnd(c: seq<Slot>)
    requires JumpsOk(c, 0, |c|) && StartsWithOp(c)
    ensures var g := AsmAnd(c); JumpsOk(g, 0, |g|) && StartsWithOp(g)
  {
    hide JumpsOk;
    var n := |AsmAnd(c)|;
    var (g0, g1) := (InsTo(IChoice, 2 + |c| + 2), InsTo(IBackCommit, 3));
    JumpsInsTo(IChoice, 2 + |c| + 2, 0, n);
    JumpsWiden(c, 0, |c|, -2, n - 2);
    JumpsConcat(g0, c, 0, n);
    var l1 := 2 + |c|;
    JumpsInsTo(IBackCommit, 3, -l1, n - l1);
    JumpsConcat(g0 + c, g1, 0, n);
    var l2 := l1 + 2;
    JumpsIns(IFail, -l2, n - l2);
    JumpsConcat(g0 + c + g1, Ins(IFail), 0, n);
  }

  lemma JumpsPair(c1: seq<Slot>, c2: seq<Slot>)
    requires JumpsOk(c1, 0, |c1|) && JumpsOk(c2, 0, |c2|) && StartsWithOp(c1) && StartsWithOp(c2)
    ensures JumpsOk(c1 + c2, 0, |c1 + c2|) && StartsWithOp(c1 + c2)
  {
    JumpsConcat(c1, c2, 0, |c1 + c2|);
  }

  /** Generated code jumps inside itself or to its end. */
  lemma {:induction false} GenJumps(d: nat, rules: seq<Tree>, t: Tree, opt: bool, tt: Test, fl: set<Byte>)
    requires WellFormed(d, rules, t)
    ensures var g := Gen(d, rules, t, opt, tt, fl); JumpsOk(g, 0, |g|) && StartsWithOp(g)
    decreases t, 1
  {
    hide GetFirst, HeadFail, FixedLen, ChoiceTested, RepTested, Classify;
    match t
    case Choice(p1, p2) => ChoiceJumps(d, rules, p1, p2, opt, tt, fl);
    case Rep(p) => RepJumps(d, rules, p, opt, tt, fl);
    case Not(p) => NotJumps(d, rules, p, opt, tt, fl);
    case And(p) => AndJumps(d, rules, p, opt, tt, fl);
    case Behind(k, p) =>
      GenJumps(d, rules, p, false, NoTest, FULL);
      JumpsPair(GenBehind(k), Gen(d, rules, p, false, NoTest, FULL));
    case Seq(p1, p2) =>
      var fl1 := SeqFollow(d, rules, p1, p2, fl);
      var tt2 := if FixedLen(d, rules, p1) != 0 then NoTest else tt;
      GenJumps(d, rules, p1, false, tt, fl1);
      GenJumps(d, rules, p2, opt, tt2, fl);
      JumpsPair(Gen(d, rules, p1, false, tt, fl1), Gen(d, rules, p2, opt, tt2, fl));
    case Grammar(rs) => GrammarJumps(d, rs);
    case _ =>
  }

  lemma {:induction false} ChoiceJumps(d: nat, rules: seq<Tree>, p1: Tree, p2: Tree, opt: bool, tt: Test, fl: set<Byte>)
    requires WellFormed(d, rules, Choice(p1, p2))
    ensures var g := Gen(d, rules, Choice(p1, p2), opt, tt, fl); JumpsOk(g, 0, |g|) && StartsWithOp(g)
    decreases Choice(p1, p2), 0
  {
    hide GetFirst, HeadFail, ChoiceTested, Classify, JumpsOk;
    var f1 := GetFirst(d, rules, p1, FULL);
    GenJumps(d, rules, p2, opt, NoTest, fl);
    if ChoiceTested(d, rules, p1, p2, fl) {
      GenJumps(d, rules, p1, false, TestOf(f1.cs), fl);
      JumpsTestedChoice(f1.cs, Gen(d, rules, p1, false, TestOf(f1.cs), fl), p2.True?, Gen(d, rules, p2, opt, NoTest, fl));
    } else if opt && p2.True? {
      GenJumps(d, rules, p1, true, NoTest, FULL);
      JumpsInsTo(IPartialCommit, 2, 0, 2);
      JumpsPair(InsTo(IPartialCommit, 2), Gen(d, rules, p1, true, NoTest, FULL));
    } else {
      GenJumps(d, rules, p1, p2.True?, OptTestOf(f1), FULL);
      JumpsChoice(f1, Gen(d, rules, p1, p2.True?, OptTestOf(f1), FULL), Gen(d, rules, p2, opt, NoTest, fl));
    }
  }

  lemma {:induction false} RepJumps(d: nat, rules: seq<Tree>, p: Tree, opt: bool, tt: Test, fl: set<Byte>)
    requires WellFormed(d, rules, Rep(p))
    ensures var g := Gen(d, rules, Rep(p), opt, tt, fl); JumpsOk(g, 0, |g|) && StartsWithOp(g)
    decreases Rep(p), 0
  {
    hide GetFirst, HeadFail, RepTested, Classify;
    if ToCharset(p).None? {
      var f := GetFirst(d, rules, p, FULL);
      if RepTested(d, rules, p, fl) {
        GenJumps(d, rules, p, false, TestOf(f.cs), FULL);
        JumpsTestedRep(f.cs, Gen(d, rules, p, false, TestOf(f.cs), FULL));
      } else {
        GenJumps(d, rules, p, false, NoTest, FULL);
        JumpsRep(f, opt, Gen(d, rules, p, false, NoTest, FULL));
      }
    }
  }

  lemma {:induction false} NotJumps(d: nat, rules: seq<Tree>, p: Tree, opt: bool, tt: Test, fl: set<Byte>)
    requires WellFormed(d, rules, Not(p))
    ensures var g := Gen(d, rules, Not(p), opt, tt, fl); JumpsOk(g, 0, |g|) && StartsWithOp(g)
    decreases Not(p), 0
  {
    hide GetFirst, HeadFail, Classify, JumpsOk;
    var f := GetFirst(d, rules, p, FULL);
    if HeadFail(d, rules, p) {
      var n := OptTestLen(f) + 1;
      JumpsOptTest(f, 1, 0, n);
      JumpsIns(IFail, -(OptTestLen(f) as int), 1);
      JumpsConcat(OptTest(f, 1), Ins(IFail), 0, n);
    } else {
      GenJumps(d, rules, p, false, NoTest, FULL);
      JumpsNot(f, Gen(d, rules, p, false, NoTest, FULL));
    }
  }

  lemma {:induction false} AndJumps(d: nat, rules: seq<Tree>, p: Tree, opt: bool, tt: Test, fl: set<Byte>)
    requires WellFormed(d, rules, And(p))
    ensures var g := Gen(d, rules, And(p), opt, tt, fl); JumpsOk(g, 0, |g|) && StartsWithOp(g)
    decreases And(p), 0
  {
    hide GetFirst, HeadFail, Classify;
    var c := Gen(d, rules, p, false, tt, FULL);
    GenJumps(d, rules, p, false, tt, FULL);
    if 0 <= FixedLen(d, rules, p) <= MAXBEHIND {
      JumpsPair(c, GenBehind(FixedLen(d, rules, p)));
    } else {
      JumpsAnd(c);
    }
  }

  lemma {:induction false} RulesJumps(d: nat, rs: seq<Tree>, k: nat)
    requires k <= |rs| && forall j :: 0 <= j < |rs| ==> WellFormed(d, rs, rs[j])
    ensures var g := RulesCode(d, rs, k); JumpsOk(g, 0, |g|) && StartsWithOp(g)
    decreases rs, k, 0
  {
    if k > 0 {
      RulesJumps(d, rs, k - 1);
      GenJumps(d, rs, rs[k - 1], false, NoTest, FULL);
      JumpsPair(Gen(d, rs, rs[k - 1], false, NoTest, FULL), Ins(IRet));
      JumpsPair(RulesCode(d, rs, k - 1), RuleCode(d, rs, k - 1));
    }
  }

  lemma {:induction false} ParsesInstr(g: seq<Slot>, i: nat, k: nat, n: nat)
    requires Parses(g, i, n) && i <= k < |g| && g[k].Op?
    ensures InstrAt(g, k, n) && Parses(g, k, n)
    decreases |g| - i
  {
    if k != i {
      ParsesInstr(g, i + Size(g[i].code), k, n);
    }
  }

  /** Closing a call adds at most a jump to a rule. */
  lemma CloseCallJumps(code: seq<Slot>, pos: seq<int>, i: nat)
    requires IsOp(code, i, IOpenCall) && i + 1 < |code| && 0 <= code[i].key < |pos| && code[i + 1].Hole?
    requires JumpsOk(code, 0, |code|) && forall n :: 0 <= n < |pos| ==> 0 <= pos[n] <= |code|
    ensures JumpsOk(CloseCall(code, pos, i), 0, |code|)
  {
    var code' := CloseCall(code, pos, i);
    forall k | IsJump(code', k) ensures 0 <= Target(code', k) <= |code'| {
      if k != i {
        assert IsJump(code, k);
      }
    }
  }

  lemma {:induction false} CorrectCallsJumps(raw: seq<Slot>, code: seq<Slot>, pos: seq<int>, i: nat)
    requires Parses(raw, i, |pos|) && |code| == |raw| && forall k :: i <= k < |raw| ==> code[k] == raw[k]
    requires JumpsOk(code, 0, |code|) && forall n :: 0 <= n < |pos| ==> 0 <= pos[n] <= |code|
    ensures JumpsOk(CorrectCalls(code, pos, i), 0, |code|)
    decreases |raw| - i
  {
    if i < |raw| {
      assert code[i] == raw[i];
      if raw[i].code == IOpenCall {
        assert code[i + 1] == raw[i + 1];
        CloseCallJumps(code, pos, i);
        CorrectCallsJumps(raw, CloseCall(code, pos, i), pos, i + 2);
      } else {
        CorrectCallsJumps(raw, code, pos, i + Size(raw[i].code));
      }
    }
  }

  lemma PositionsInside(d: nat, rs: seq<Tree>)
    ensures forall n :: 0 <= n < |rs| ==> 0 <= Positions(d, rs)[n] <= |RulesCode(d, rs, |rs|)|
  {
    forall n | 0 <= n < |rs| ensures 0 <= Positions(d, rs)[n] <= |RulesCode(d, rs, |rs|)| {
      RulesCodePrefix(d, rs, n, |rs|);
    }
  }

  /** The rules of a grammar with their calls closed */
  ghost function Body(d: nat, rs: seq<Tree>): seq<Slot> {
    CorrectCalls(RulesCode(d, rs, |rs|), Positions(d, rs), 0)
  }

  lemma {:induction false} BodyJumps(d: nat, rs: seq<Tree>)
    requires forall j :: 0 <= j < |rs| ==> WellFormed(d, rs, rs[j])
    ensures JumpsOk(Body(d, rs), 0, |Body(d, rs)|) && StartsWithOp(Body(d, rs))
    decreases rs, |rs|, 1
  {
    hide CorrectCalls, RulesCode, Positions;
    var raw := RulesCode(d, rs, |rs|);
    var rel := Positions(d, rs);
    RulesJumps(d, rs, |rs|);
    RulesParse(d, rs, |rs|);
    PositionsInside(d, rs);
    CorrectCallsJumps(raw, raw, rel, 0);
    CorrectCallsOk(raw, raw, rel, 0);
    if raw != [] {
      assert Closed(Body(d, rs), rel, raw, 0);
      assert InstrAt(raw, 0, |rs|);
    }
  }

  lemma {:induction false} GrammarJumps(d: nat, rs: seq<Tree>)
    requires |rs| > 0 && forall j :: 0 <= j < |rs| ==> WellFormed(d, rs, rs[j])
    ensures var body := Body(d, rs);
            var g := InsTo(ICall, 4) + InsTo(IJmp, 2 + |body|) + body;
            JumpsOk(g, 0, |g|) && StartsWithOp(g)
    decreases rs, |rs|, 2
  {
    BodyJumps(d, rs);
    hide Body;
    var body := Body(d, rs);
    var n := 4 + |body|;
    JumpsInsTo(ICall, 4, 0, n);
    JumpsInsTo(IJmp, 2 + |body|, -2, n - 2);
    JumpsConcat(InsTo(ICall, 4), InsTo(IJmp, 2 + |body|), 0, n);
    JumpsConcat(InsTo(ICall, 4) + InsTo(IJmp, 2 + |body|), body, 0, n);
  }

  /** Following jumps does not depend on where the code is placed. */
  lemma {:induction false} FinalTargetPlaced(pre: seq<Slot>, body: seq<Slot>, a: nat, fuel: nat)
    requires JumpsOk(body, 0, |body|) && a <= |body|
    ensures 0 <= FinalTarget(body, a, fuel)
    ensures FinalTarget(pre + body, |pre| + a, fuel) == |pre| + FinalTarget(body, a, fuel)
    decreases fuel
  {
    assert IsJump(pre + body, |pre| + a) <==> IsJump(body, a);
    if fuel > 0 && IsJump(body, a) {
      FinalTargetPlaced(pre, body, Target(body, a), fuel - 1);
    }
  }
}
