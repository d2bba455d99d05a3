/** The compiler of lpcode.c: it appends instructions to a code array, and patches the offsets of earlier ones once it
    knows where they lead. Every method is proved to add exactly the code that PegGen specifies. */
module PegCompiler {
  import opened Peg
  import opened PegAnalysis
  import opened PegAnswers
  import opened PegMachine
  import opened PegGen
  import opened PegSettled
  import opened PegLayout
  import opened PegJumps
  import opened PegChase
  import opened PegCharset
  import opened PegPeephole

  const NOINST := -1

  /** The instruction at `tt`, if any, is the test that `test` describes. */
  ghost predicate TestAt(code: seq<Slot>, tt: int, test: Test) {
    match test
    case NoTest => tt < 0 || (tt < |code| && !IsOp(code, tt, ITestChar) && !IsOp(code, tt, ITestSet))
    case CharTest(c) => 0 <= tt < |code| && code[tt] == Op(ITestChar, c, 0)
    case SetTest(cs) => IsOp(code, tt, ITestSet) && SetAt(code, tt + 2, cs)
  }

  // ---- What is asked while code is generated ----------------------------------------------------------------------

  /** Compiling `t` ends: the analyses that are asked for do, and the jumps in the bodies of grammars. */
  ghost predicate Compilable(d: nat, rules: seq<Tree>, t: Tree) {
    BodiesEnd(d, rules, t) && GenAnswers(d, rules, t)
  }

  /** `getfirst`, asked only where it ends */
  function AskFirst(d: nat, rules: seq<Tree>, t: Tree, follow: set<Byte>): First
    requires Answers(FirstSet, d, rules, t)
  {
    GetFirst(d, rules, t, follow)
  }

  /** `headfail`, asked only where it ends */
  predicate AskHeadFail(d: nat, rules: seq<Tree>, t: Tree)
    requires Answers(HeadFailure, d, rules, t)
  {
    HeadFail(d, rules, t)
  }

  lemma ChoiceCompilable(d: nat, rules: seq<Tree>, p1: Tree, p2: Tree)
    requires Compilable(d, rules, Choice(p1, p2))
    ensures Compilable(d, rules, p1) && Compilable(d, rules, p2)
    ensures Answers(FirstSet, d, rules, p1) && Answers(HeadFailure, d, rules, p1)
    ensures HeadFail(d, rules, p1) || GetFirst(d, rules, p1, FULL).empty || Answers(FirstSet, d, rules, p2)
  {
    hide Answers, HeadFail, GetFirst;
  }

  lemma TestedIs(d: nat, rules: seq<Tree>, p1: Tree, p2: Tree, fl: set<Byte>)
    ensures var f1 := GetFirst(d, rules, p1, FULL);
            ChoiceTested(d, rules, p1, p2, fl)
            <==> HeadFail(d, rules, p1) || (!f1.empty && f1.cs !! GetFirst(d, rules, p2, fl).cs)
  {
    hide HeadFail, GetFirst;
  }

  lemma RepCompilable(d: nat, rules: seq<Tree>, p: Tree)
    requires Compilable(d, rules, Rep(p)) && ToCharset(p).None?
    ensures Compilable(d, rules, p) && Answers(FirstSet, d, rules, p) && Answers(HeadFailure, d, rules, p)
  {
    hide Answers, HeadFail, GetFirst;
  }

  lemma RepTestedIs(d: nat, rules: seq<Tree>, p: Tree, fl: set<Byte>)
    ensures var f := GetFirst(d, rules, p, FULL);
            RepTested(d, rules, p, fl) <==> HeadFail(d, rules, p) || (!f.empty && f.cs !! fl)
  {
    hide HeadFail, GetFirst;
  }

  lemma NotCompilable(d: nat, rules: seq<Tree>, p: Tree)
    requires Compilable(d, rules, Not(p))
    ensures Answers(FirstSet, d, rules, p) && Answers(HeadFailure, d, rules, p)
    ensures HeadFail(d, rules, p) || Compilable(d, rules, p)
  {
    hide Answers, HeadFail, GetFirst;
  }

  lemma SeqCompilable(d: nat, rules: seq<Tree>, p1: Tree, p2: Tree)
    requires Compilable(d, rules, Seq(p1, p2))
    ensures Compilable(d, rules, p1) && Compilable(d, rules, p2)
    ensures NeedFollow(p1) ==> Answers(FirstSet, d, rules, p2)
  {
    hide Answers, HeadFail, GetFirst;
  }

  lemma FollowIs(d: nat, rules: seq<Tree>, p1: Tree, p2: Tree, fl: set<Byte>)
    ensures SeqFollow(d, rules, p1, p2, fl) == if NeedFollow(p1) then GetFirst(d, rules, p2, fl).cs else FULL
  {
    hide GetFirst;
  }

  lemma TestAtGrows(code: seq<Slot>, more: seq<Slot>, tt: int, test: Test)
    requires TestAt(code, tt, test)
    ensures TestAt(code + more, tt, test)
  {
    if test.SetTest? {
      assert (code + more)[tt + 2..tt + 2 + SETWORDS] == code[tt + 2..tt + 2 + SETWORDS];
    }
  }

  lemma WordsInjective(a: set<Byte>, b: set<Byte>)
    requires Words(a) == Words(b)
    ensures a == b
  {
    forall c: Byte ensures c in a <==> c in b {
      assert Words(a)[c / 32] == Words(b)[c / 32];
      assert c in a <==> c in Words(a)[c / 32].chars;
      assert c in b <==> c in Words(b)[c / 32].chars;
    }
  }

  /** A test whose label is still open */
  ghost function HoleTest(cs: set<Byte>): (c: seq<Slot>)
    ensures |c| == TestLen(cs)
    ensures forall offset :: c[1 := Off(offset)] == GenTest(cs, offset)
  {
    match Classify(cs)
    case Empty => [Op(IJmp, 0, 0), Hole]
    case Full => [Op(ITestAny, 0, 0), Hole]
    case Single(c) => [Op(ITestChar, c, 0), Hole]
    case General => [Op(ITestSet, 0, 0), Hole] + Words(cs)
  }

  ghost function OptHoleTest(f: First): (c: seq<Slot>)
    ensures |c| == OptTestLen(f)
  {
    if f.empty then [] else HoleTest(f.cs)
  }

  lemma HoleTestAt(pre: seq<Slot>, f: First)
    ensures TestAt(pre + OptHoleTest(f), if f.empty then NOINST else |pre|, OptTestOf(f))
  {
    if !f.empty && Classify(f.cs).General? {
      var code := pre + HoleTest(f.cs);
      assert code[|pre| + 2..|pre| + 2 + SETWORDS] == Words(f.cs);
    }
  }

  // ---- Assembling a fragment `x` that starts after `pre` -------------------------------------------------------

  function Cat(a: seq<Slot>, b: seq<Slot>): (c: seq<Slot>)
    ensures |c| == |a| + |b|
  {
    a + b
  }

  function Upd(x: seq<Slot>, k: nat, v: Slot): (y: seq<Slot>)
    requires k < |x|
    ensures |y| == |x|
  {
    x[k := v]
  }

  lemma Append(pre: seq<Slot>, x: seq<Slot>, y: seq<Slot>)
    ensures Cat(pre, x) + y == Cat(pre, Cat(x, y))
  {
  }

  lemma PatchIn(pre: seq<Slot>, x: seq<Slot>, k: nat, v: Slot)
    requires k < |x|
    ensures Cat(pre, x)[|pre| + k := v] == Cat(pre, Upd(x, k, v))
  {
  }

  lemma CatIs(a: seq<Slot>, b: seq<Slot>)
    ensures Cat(a, b) == a + b
  {
  }

  lemma Assoc(a: seq<Slot>, b: seq<Slot>, c: seq<Slot>)
    ensures a + b + c == a + (b + c)
  {
  }

  lemma Patch(a: seq<Slot>, b: seq<Slot>, c: seq<Slot>, k: nat, v: Slot)
    requires k < |b|
    ensures (a + b + c)[|a| + k := v] == a + b[k := v] + c
  {
  }

  function Open(op: Opcode): (x: seq<Slot>)
    ensures |x| == 2
  {
    [Op(op, 0, 0), Hole]
  }

  lemma OpenPatched(op: Opcode, offset: int)
    ensures Open(op)[1 := Off(offset)] == InsTo(op, offset)
  {
  }

  /** Patch the label of the instruction that starts after `a` */
  lemma PatchOpen(a: seq<Slot>, op: Opcode, c: seq<Slot>, offset: int)
    ensures (a + Open(op) + c)[|a| + 1 := Off(offset)] == a + InsTo(op, offset) + c
  {
    OpenPatched(op, offset);
    Patch(a, Open(op), c, 1, Off(offset));
  }

  ghost function PatchTest(x: seq<Slot>, f: First, rest: nat): (y: seq<Slot>)
    requires f.empty || |x| > 1
    ensures |y| == |x|
  {
    if f.empty then x else x[1 := Off(TestLen(f.cs) + rest)]
  }

  lemma PatchTestAt(f: First, c: seq<Slot>, rest: nat)
    ensures PatchTest(OptHoleTest(f) + c, f, rest) == OptTest(f, rest) + c
  {
    if !f.empty {
      Patch([], HoleTest(f.cs), c, 1, Off(TestLen(f.cs) + rest));
      assert [] + HoleTest(f.cs) + c == OptHoleTest(f) + c;
    }
  }

  lemma TestedChoiceAssembled(cs: set<Byte>, c1: seq<Slot>, c2: seq<Slot>)
    ensures var x := Cat(Upd(Cat(Cat(HoleTest(cs), c1), Open(IJmp)), 1, Off(TestLen(cs) + |c1| + 2)), c2);
            Upd(x, TestLen(cs) + |c1| + 1, Off(2 + |c2|)) == AsmTestedChoice(cs, c1, false, c2)
  {
    hide GenTest, HoleTest, Open, InsTo;
    var f := First(false, cs);
    var g0 := GenTest(cs, TestLen(cs) + |c1| + 2);
    Assoc(HoleTest(cs), c1, Open(IJmp));
    PatchTestAt(f, c1 + Open(IJmp), |c1| + 2);
    Assoc(g0, c1, Open(IJmp));
    PatchOpen(g0 + c1, IJmp, c2, 2 + |c2|);
  }

  lemma TestedChoiceAssembledEmpty(cs: set<Byte>, c1: seq<Slot>, c2: seq<Slot>)
    ensures Cat(Upd(Cat(HoleTest(cs), c1), 1, Off(TestLen(cs) + |c1|)), c2) == AsmTestedChoice(cs, c1, true, c2)
  {
    PatchTestAt(First(false, cs), c1, |c1|);
  }

  lemma ChoiceAssembled(f: First, c1: seq<Slot>, c2: seq<Slot>)
    ensures var l0 := OptTestLen(f);
            var x0 := Cat(Cat(Cat(OptHoleTest(f), Open(IChoice)), c1), Open(ICommit));
            var x1 := Upd(x0, l0 + 1, Off(2 + |c1| + 2));
            var x2 := Cat(PatchTest(x1, f, 2 + |c1| + 2), c2);
            Upd(x2, l0 + 2 + |c1| + 1, Off(2 + |c2|)) == AsmChoice(f, c1, c2)
  {
    hide OptTest, OptHoleTest, Open, InsTo, PatchTest;
    var (h0, h1, h2) := (OptHoleTest(f), Open(IChoice), Open(ICommit));
    var (g0, g1) := (OptTest(f, 2 + |c1| + 2), InsTo(IChoice, 2 + |c1| + 2));
    Assoc(h0 + h1, c1, h2);
    PatchOpen(h0, IChoice, c1 + h2, 2 + |c1| + 2);
    Assoc(h0, g1, c1 + h2);
    PatchTestAt(f, g1 + (c1 + h2), 2 + |c1| + 2);
    Assoc(g0, g1, c1 + h2);
    Assoc(g0 + g1, c1, h2);
    PatchOpen(g0 + g1 + c1, ICommit, c2, 2 + |c2|);
  }

  lemma TestedRepAssembled(cs: set<Byte>, c: seq<Slot>)
    ensures var x := Upd(Cat(Cat(HoleTest(cs), c), Open(IJmp)), 1, Off(TestLen(cs) + |c| + 2));
            Upd(x, TestLen(cs) + |c| + 1, Off(-(TestLen(cs) + |c|))) == AsmTestedRep(cs, c)
  {
    hide GenTest, HoleTest, Open, InsTo;
    var f := First(false, cs);
    var g0 := GenTest(cs, TestLen(cs) + |c| + 2);
    Assoc(HoleTest(cs), c, Open(IJmp));
    PatchTestAt(f, c + Open(IJmp), |c| + 2);
    Assoc(g0, c, Open(IJmp));
    PatchLast(g0 + c, IJmp, -(TestLen(cs) + |c|));
  }

  lemma PatchLast(a: seq<Slot>, op: Opcode, offset: int)
    ensures (a + Open(op))[|a| + 1 := Off(offset)] == a + InsTo(op, offset)
  {
  }

  lemma RepAssembled(f: First, c: seq<Slot>)
    ensures var l0 := OptTestLen(f);
            var x0 := Cat(Cat(Cat(OptHoleTest(f), Open(IChoice)), c), Open(IPartialCommit));
            var x1 := Upd(Upd(x0, l0 + 2 + |c| + 1, Off(-|c|)), l0 + 1, Off(2 + |c| + 2));
            PatchTest(x1, f, 2 + |c| + 2) == AsmRep(f, false, c)
  {
    hide OptTest, OptHoleTest, Open, InsTo, PatchTest;
    var (h0, h1) := (OptHoleTest(f), Open(IChoice));
    var (g1, g2) := (InsTo(IChoice, 2 + |c| + 2), InsTo(IPartialCommit, -|c|));
    PatchLast(h0 + h1 + c, IPartialCommit, -|c|);
    Assoc(h0 + h1, c, g2);
    PatchOpen(h0, IChoice, c + g2, 2 + |c| + 2);
    RepEnd(f, h0, g1, c, g2);
  }

  lemma RepEnd(f: First, h0: seq<Slot>, g1: seq<Slot>, c: seq<Slot>, g2: seq<Slot>)
    requires h0 == OptHoleTest(f) && |g1| == |g2| == 2
    ensures PatchTest(h0 + g1 + (c + g2), f, 2 + |c| + 2) == OptTest(f, 2 + |c| + 2) + g1 + c + g2
  {
    hide OptTest, OptHoleTest, PatchTest;
    var g0 := OptTest(f, 2 + |c| + 2);
    Assoc(h0, g1, c + g2);
    PatchTestAt(f, g1 + (c + g2), 2 + |c| + 2);
    Assoc(g0, g1, c + g2);
    Assoc(g0 + g1, c, g2);
  }

  lemma OptRepAssembled(f: First, c: seq<Slot>)
    ensures var l0 := OptTestLen(f);
            var x0 := Cat(Cat(Upd(Cat(OptHoleTest(f), Open(IPartialCommit)), l0 + 1, Off(2)), c), Open(IPartialCommit));
            PatchTest(Upd(x0, l0 + 2 + |c| + 1, Off(-|c|)), f, 2 + |c| + 2) == AsmRep(f, true, c)
  {
    hide OptTest, OptHoleTest, Open, InsTo, PatchTest;
    var h0 := OptHoleTest(f);
    var (g1, g2) := (InsTo(IPartialCommit, 2), InsTo(IPartialCommit, -|c|));
    PatchLast(h0, IPartialCommit, 2);
    PatchLast(h0 + g1 + c, IPartialCommit, -|c|);
    Assoc(h0 + g1, c, g2);
    RepEnd(f, h0, g1, c, g2);
  }

  lemma NotAssembled(f: First, c: seq<Slot>)
    ensures var l0 := OptTestLen(f);
            var x0 := Cat(Cat(Cat(OptHoleTest(f), Open(IChoice)), c), Ins(IFailTwice));
            PatchTest(Upd(x0, l0 + 1, Off(2 + |c| + 1)), f, 2 + |c| + 1) == AsmNot(f, c)
  {
    hide OptTest, OptHoleTest, Open, InsTo, PatchTest;
    var (h0, g1, g2) := (OptHoleTest(f), InsTo(IChoice, 2 + |c| + 1), Ins(IFailTwice));
    Assoc(h0 + Open(IChoice), c, g2);
    PatchOpen(h0, IChoice, c + g2, 2 + |c| + 1);
    Assoc(h0, g1, c + g2);
    PatchTestAt(f, g1 + (c + g2), 2 + |c| + 1);
    Assoc(OptTest(f, 2 + |c| + 1), g1, c + g2);
    Assoc(OptTest(f, 2 + |c| + 1) + g1, c, g2);
  }

  lemma AndAssembled(c: seq<Slot>)
    ensures var x0 := Cat(Upd(Cat(Cat(Open(IChoice), c), Open(IBackCommit)), 1, Off(2 + |c| + 2)), Ins(IFail));
            Upd(x0, 2 + |c| + 1, Off(3)) == AsmAnd(c)
  {
    var (h0, h1, g0) := (Open(IChoice), Open(IBackCommit), InsTo(IChoice, 2 + |c| + 2));
    assert h0 + c + h1 == [] + h0 + (c + h1);
    PatchOpen([], IChoice, c + h1, 2 + |c| + 2);
    assert [] + g0 + (c + h1) + Ins(IFail) == (g0 + c) + h1 + Ins(IFail);
    PatchOpen(g0 + c, IBackCommit, Ins(IFail), 3);
  }

  class CompileState {
    const d: nat             // how many nested calls the analyses follow
    var code: seq<Slot>      // the instructions generated so far

    constructor (d: nat)
      ensures code == [] && this.d == d
    {
      this.d := d;
      code := [];
    }

    method AddInstruction(op: Opcode, aux: int) returns (i: nat)
      modifies this
      ensures code == old(code) + [Op(op, aux, 0)] && i == |old(code)|
    {
      i := |code|;
      code := code + [Op(op, aux, 0)];
    }

    /** Add an instruction followed by space for an offset (to be set later) */
    method AddOffsetInst(op: Opcode) returns (i: nat)
      modifies this
      ensures code == old(code) + Open(op) && i == |old(code)|
    {
      i := AddInstruction(op, 0);
      code := code + [Hole];
      assert code == old(code) + Open(op);
    }

    /** Patch an instruction to jump to `target` */
    method JumpToThere(instruction: int, target: int)
      requires instruction + 1 < |code|
      modifies this
      ensures code == if instruction < 0 then old(code) else old(code)[instruction + 1 := Off(target - instruction)]
    {
      if instruction >= 0 {
        code := code[instruction + 1 := Off(target - instruction)];
      }
    }

    method JumpToHere(instruction: int)
      requires instruction + 1 < |code| || instruction < 0
      modifies this
      ensures code == if instruction < 0 then old(code) else old(code)[instruction + 1 := Off(|old(code)| - instruction)]
    {
      if instruction >= 0 {
        JumpToThere(instruction, |code|);
      }
    }

    /** An IChar instruction, or IAny if an equivalent test dominates it */
    method CodeChar(c: Byte, tt: int, ghost test: Test)
      requires TestAt(code, tt, test)
      modifies this
      ensures code == old(code) + GenChar(c, test)
    {
      if tt >= 0 && code[tt].Op? && code[tt].code == ITestChar && code[tt].aux == c {
        var _ := AddInstruction(IAny, 0);
      } else {
        var _ := AddInstruction(IChar, c);
      }
    }

    method AddCharset(cs: set<Byte>)
      modifies this
      ensures code == old(code) + Words(cs)
    {
      code := code + Words(cs);
    }

    method Kind(cs: set<Byte>) returns (k: Kind)
      ensures k == Classify(cs)
    {
      ToBytesMembers(cs);
      k := CharsetType(ToBytes(cs));
    }

    method CodeCharset(cs: set<Byte>, tt: int, ghost test: Test)
      requires TestAt(code, tt, test)
      modifies this
      ensures code == old(code) + GenSet(cs, test)
    {
      var kind := Kind(cs);
      match kind {
        case Single(c) => CodeChar(c, tt, test);
        case Full => var _ := AddInstruction(IAny, 0);
        case Empty => var _ := AddInstruction(IFail, 0);
        case General =>
          if tt >= 0 && code[tt].Op? && code[tt].code == ITestSet && SetAt(code, tt + 2, cs) {
            if test.SetTest? {
              WordsInjective(test.cs, cs);
            }
            var _ := AddInstruction(IAny, 0);
          } else {
            var _ := AddInstruction(ISet, 0);
            AddCharset(cs);
          }
      }
    }

    /** A test with an open label; none when the empty subject may be accepted */
    method CodeTestSet(f: First) returns (i: int)
      modifies this
      ensures code == old(code) + OptHoleTest(f)
      ensures i == if f.empty then NOINST else |old(code)|
    {
      if f.empty {
        return NOINST;
      }
      var kind := Kind(f.cs);
      match kind {
        case Empty => i := AddOffsetInst(IJmp);
        case Full => i := AddOffsetInst(ITestAny);
        case Single(c) =>
          i := AddOffsetInst(ITestChar);
          code := code[i := Op(ITestChar, c, 0)];
          assert code == old(code) + [Op(ITestChar, c, 0), Hole];
        case General =>
          i := AddOffsetInst(ITestSet);
          AddCharset(f.cs);
          assert code == old(code) + ([Op(ITestSet, 0, 0), Hole] + Words(f.cs));
      }
    }

    method CodeBehind(rules: seq<Tree>, n: nat, p: Tree)
      requires WellFormed(d, rules, Behind(n, p)) && Compilable(d, rules, p)
      modifies this
      ensures code == old(code) + Gen(d, rules, Behind(n, p), false, NoTest, FULL)
      decreases Behind(n, p), 0
    {
      ghost var pre := code;
      if n > 0 {
        var _ := AddInstruction(IBehind, n);
      }
      assert code == pre + GenBehind(n);
      ghost var c := Gen(d, rules, p, false, NoTest, FULL);
      assert Gen(d, rules, Behind(n, p), false, NoTest, FULL) == GenBehind(n) + c;
      hide Gen, GenBehind;
      CodeGen(rules, p, false, NOINST, NoTest, FULL);
      Regrouped(pre, GenBehind(n), c, []);
    }

    method CodeChoice(rules: seq<Tree>, p1: Tree, p2: Tree, opt: bool, fl: set<Byte>)
      requires WellFormed(d, rules, p1) && WellFormed(d, rules, p2) && Compilable(d, rules, Choice(p1, p2))
      modifies this
      ensures code == old(code) + Gen(d, rules, Choice(p1, p2), opt, NoTest, fl)
      decreases Choice(p1, p2), 1
    {
      hide GetFirst, HeadFail, FixedLen, Answers, Classify, TestAt, WellFormed, Compilable, ChoiceTested, RepTested, TestOf, OptTestOf, TestLen,
           HoleTest, OptHoleTest, GenTest, OptTest, Open, Upd, PatchTest, InsTo;
      ChoiceCompilable(d, rules, p1, p2);
      var f1 := AskFirst(d, rules, p1, FULL);
      var tested := AskHeadFail(d, rules, p1) || (!f1.empty && f1.cs !! AskFirst(d, rules, p2, fl).cs);
      TestedIs(d, rules, p1, p2, fl);
      if tested {
        CodeTestedChoice(rules, p1, p2, opt, f1.cs, fl);
      } else if opt && p2.True? {
        var pc := AddOffsetInst(IPartialCommit);
        PatchOpen(old(code), IPartialCommit, [], 2);
        assert old(code) + Open(IPartialCommit) == old(code) + Open(IPartialCommit) + [];
        JumpToHere(pc);
        assert code == old(code) + InsTo(IPartialCommit, 2);
        NoTestAt(code);
        CodeGen(rules, p1, true, NOINST, NoTest, FULL);
        Append(old(code), InsTo(IPartialCommit, 2), Gen(d, rules, p1, true, NoTest, FULL));
      } else {
        CodePlainChoice(rules, p1, p2, opt, f1, fl);
      }
    }

    method CodeTestedChoice(rules: seq<Tree>, p1: Tree, p2: Tree, opt: bool, cs: set<Byte>, fl: set<Byte>)
      requires WellFormed(d, rules, p1) && WellFormed(d, rules, p2) && Compilable(d, rules, p1) && Compilable(d, rules, p2)
      modifies this
      ensures code == old(code) + AsmTestedChoice(cs, Gen(d, rules, p1, false, TestOf(cs), fl), p2.True?, Gen(d, rules, p2, opt, NoTest, fl))
      decreases Choice(p1, p2), 0
    {
      hide Gen, GetFirst, HeadFail, FixedLen, Classify, TestAt, WellFormed, Compilable, ChoiceTested, RepTested, TestOf, OptTestOf, TestLen,
           HoleTest, OptHoleTest, GenTest, OptTest, Open, Upd, PatchTest, InsTo, AsmTestedChoice;
      ghost var pre := code;
      ghost var c1 := Gen(d, rules, p1, false, TestOf(cs), fl);
      ghost var c2 := Gen(d, rules, p2, opt, NoTest, fl);
      OptOf(cs);
      var test := CodeTestSet(First(false, cs));
      HoleTestAt(pre, First(false, cs));
      CodeGen(rules, p1, false, test, TestOf(cs), fl);
      ghost var x := Cat(HoleTest(cs), c1);
      Append(pre, HoleTest(cs), c1);
      if p2.True? {
        PatchIn(pre, x, 1, Off(TestLen(cs) + |c1|));
        JumpToHere(test);
        x := Upd(x, 1, Off(TestLen(cs) + |c1|));
        NoTestAt(code);
        CodeGen(rules, p2, opt, NOINST, NoTest, fl);
        Append(pre, x, c2);
        TestedChoiceAssembledEmpty(cs, c1, c2);
      } else {
        var jmp := AddOffsetInst(IJmp);
        Append(pre, x, Open(IJmp));
        x := Cat(x, Open(IJmp));
        PatchIn(pre, x, 1, Off(TestLen(cs) + |c1| + 2));
        JumpToHere(test);
        x := Upd(x, 1, Off(TestLen(cs) + |c1| + 2));
        NoTestAt(code);
        CodeGen(rules, p2, opt, NOINST, NoTest, fl);
        Append(pre, x, c2);
        PatchIn(pre, Cat(x, c2), TestLen(cs) + |c1| + 1, Off(2 + |c2|));
        JumpToHere(jmp);
        TestedChoiceAssembled(cs, c1, c2);
      }
    }

    method CodePlainChoice(rules: seq<Tree>, p1: Tree, p2: Tree, opt: bool, f1: First, fl: set<Byte>)
      requires WellFormed(d, rules, p1) && WellFormed(d, rules, p2) && Compilable(d, rules, p1) && Compilable(d, rules, p2)
      modifies this
      ensures code == old(code) + AsmChoice(f1, Gen(d, rules, p1, p2.True?, OptTestOf(f1), FULL), Gen(d, rules, p2, opt, NoTest, fl))
      decreases Choice(p1, p2), 0
    {
      hide Cat, Gen, GetFirst, HeadFail, FixedLen, Classify, TestAt, WellFormed, Compilable, ChoiceTested, RepTested, TestOf, OptTestOf, TestLen,
           HoleTest, OptHoleTest, GenTest, OptTest, Open, Upd, PatchTest, InsTo, AsmChoice;
      ghost var pre := code;
      ghost var c1 := Gen(d, rules, p1, p2.True?, OptTestOf(f1), FULL);
      ghost var c2 := Gen(d, rules, p2, opt, NoTest, fl);
      ghost var l0 := OptTestLen(f1);
      var test, pchoice, pcommit := CodeAlternative(rules, p1, p2.True?, f1);
      ghost var x := Cat(Cat(Cat(OptHoleTest(f1), Open(IChoice)), c1), Open(ICommit));
      PatchIn(pre, x, l0 + 1, Off(2 + |c1| + 2));
      JumpToHere(pchoice);
      x := Upd(x, l0 + 1, Off(2 + |c1| + 2));
      PatchTestIn(pre, x, f1, 2 + |c1| + 2);
      JumpToHere(test);
      x := PatchTest(x, f1, 2 + |c1| + 2);
      CodeSecond(rules, p2, opt, fl, pcommit, pre, x);
      CatIs(pre, AsmChoice(f1, c1, c2));
      ChoiceAssembled(f1, c1, c2);
    }

    /** The second alternative, with the label of the commit before it */
    method CodeSecond(rules: seq<Tree>, p2: Tree, opt: bool, fl: set<Byte>, pcommit: nat, ghost pre: seq<Slot>, ghost x: seq<Slot>)
      requires WellFormed(d, rules, p2) && Compilable(d, rules, p2) && code == Cat(pre, x) && |x| >= 2 && pcommit == |pre| + |x| - 2
      modifies this
      ensures var c2 := Gen(d, rules, p2, opt, NoTest, fl); code == Cat(pre, Upd(Cat(x, c2), |x| - 1, Off(2 + |c2|)))
      decreases p2, 3
    {
      hide Cat, Gen, TestAt, WellFormed, Compilable, Upd;
      ghost var c2 := Gen(d, rules, p2, opt, NoTest, fl);
      NoTestAt(code);
      CodeGen(rules, p2, opt, NOINST, NoTest, fl);
      Append(pre, x, c2);
      PatchIn(pre, Cat(x, c2), |x| - 1, Off(2 + |c2|));
      JumpToHere(pcommit);
    }

    /** The protected first alternative: test; choice; p1; commit, with the three labels open */
    method CodeAlternative(rules: seq<Tree>, p1: Tree, emptyp2: bool, f1: First) returns (test: int, pchoice: nat, pcommit: nat)
      requires WellFormed(d, rules, p1) && Compilable(d, rules, p1)
      modifies this
      ensures var c1 := Gen(d, rules, p1, emptyp2, OptTestOf(f1), FULL);
              && code == Cat(old(code), Cat(Cat(Cat(OptHoleTest(f1), Open(IChoice)), c1), Open(ICommit)))
              && test == (if f1.empty then NOINST else |old(code)|)
              && pchoice == |old(code)| + OptTestLen(f1)
              && pcommit == pchoice + 2 + |c1|
      decreases p1, 3
    {
      hide Cat, Gen, GetFirst, HeadFail, FixedLen, Classify, TestAt, WellFormed, Compilable, ChoiceTested, RepTested, TestOf, OptTestOf, TestLen,
           HoleTest, OptHoleTest, GenTest, OptTest, Open, Upd, PatchTest, InsTo, AsmChoice;
      ghost var pre := code;
      ghost var c1 := Gen(d, rules, p1, emptyp2, OptTestOf(f1), FULL);
      test := CodeTestSet(f1);
      ghost var x := OptHoleTest(f1);
      CatIs(pre, x);
      HoleTestAt(pre, f1);
      pchoice := AddOffsetInst(IChoice);
      TestAtGrows(Cat(pre, x), Open(IChoice), test, OptTestOf(f1));
      Append(pre, x, Open(IChoice));
      x := Cat(x, Open(IChoice));
      CodeGen(rules, p1, emptyp2, test, OptTestOf(f1), FULL);
      Append(pre, x, c1);
      x := Cat(x, c1);
      pcommit := AddOffsetInst(ICommit);
      Append(pre, x, Open(ICommit));
    }

    lemma OptOf(cs: set<Byte>)
      ensures var f := First(false, cs);
              OptHoleTest(f) == HoleTest(cs) && OptTestLen(f) == TestLen(cs) >= 2 && OptTestOf(f) == TestOf(cs)
    {
    }

    /** Patch the label of the test that starts the fragment `x` */
    lemma PatchTestIn(pre: seq<Slot>, x: seq<Slot>, f: First, rest: nat)
      requires f.empty || |x| == OptTestLen(f) + rest
      ensures f.empty || |x| > 1
      ensures Cat(pre, PatchTest(x, f, rest)) == if f.empty then Cat(pre, x) else Cat(pre, x)[|pre| + 1 := Off(|x|)]
    {
      if !f.empty {
        PatchIn(pre, x, 1, Off(|x|));
      }
    }

    method CodeAnd(rules: seq<Tree>, p: Tree, tt: int, ghost test: Test)
      requires WellFormed(d, rules, p) && Compilable(d, rules, p) && TestAt(code, tt, test)
      modifies this
      ensures code == old(code) + Gen(d, rules, And(p), false, test, FULL)
      decreases And(p), 1
    {
      hide GetFirst, HeadFail, FixedLen, Answers, Classify, TestAt, WellFormed, Compilable, ChoiceTested, RepTested, TestOf, OptTestOf, TestLen,
           HoleTest, OptHoleTest, GenTest, OptTest, Open, Upd, PatchTest, InsTo;
      var n := FixedLen(d, rules, p);
      if 0 <= n <= MAXBEHIND {
        CodeGen(rules, p, false, tt, test, FULL);
        if n > 0 {
          var _ := AddInstruction(IBehind, n);
        }
        Append(old(code), Gen(d, rules, p, false, test, FULL), GenBehind(n));
      } else {
        CodePlainAnd(rules, p, tt, test);
      }
    }

    method CodePlainAnd(rules: seq<Tree>, p: Tree, tt: int, ghost test: Test)
      requires WellFormed(d, rules, p) && Compilable(d, rules, p) && TestAt(code, tt, test)
      modifies this
      ensures code == old(code) + AsmAnd(Gen(d, rules, p, false, test, FULL))
      decreases And(p), 0
    {
      hide Gen, GetFirst, HeadFail, FixedLen, Classify, TestAt, WellFormed, Compilable, ChoiceTested, RepTested, TestOf, OptTestOf, TestLen,
           HoleTest, OptHoleTest, GenTest, OptTest, Open, Upd, PatchTest, InsTo, AsmAnd;
      ghost var pre := code;
      ghost var c := Gen(d, rules, p, false, test, FULL);
      var pchoice := AddOffsetInst(IChoice);
      TestAtGrows(pre, Open(IChoice), tt, test);
      CodeGen(rules, p, false, tt, test, FULL);
      Append(pre, Open(IChoice), c);
      var pcommit := AddOffsetInst(IBackCommit);
      Append(pre, Cat(Open(IChoice), c), Open(IBackCommit));
      ghost var x := Cat(Cat(Open(IChoice), c), Open(IBackCommit));
      PatchIn(pre, x, 1, Off(2 + |c| + 2));
      JumpToHere(pchoice);
      x := Upd(x, 1, Off(2 + |c| + 2));
      var _ := AddInstruction(IFail, 0);
      Append(pre, x, Ins(IFail));
      PatchIn(pre, Cat(x, Ins(IFail)), 2 + |c| + 1, Off(3));
      JumpToHere(pcommit);
      AndAssembled(c);
    }

    method CodeRep(rules: seq<Tree>, p: Tree, opt: bool, fl: set<Byte>)
      requires WellFormed(d, rules, p) && Compilable(d, rules, Rep(p))
      modifies this
      ensures code == old(code) + Gen(d, rules, Rep(p), opt, NoTest, fl)
      decreases Rep(p), 1
    {
      hide GetFirst, HeadFail, FixedLen, Answers, Classify, TestAt, WellFormed, Compilable, ChoiceTested, RepTested, TestOf, OptTestOf, TestLen,
           HoleTest, OptHoleTest, GenTest, OptTest, Open, Upd, PatchTest, InsTo;
      match ToCharset(p) {
        case Some(cs) =>
          var _ := AddInstruction(ISpan, 0);
          AddCharset(cs);
          Append(old(code), Ins(ISpan), Words(cs));
        case None =>
          RepCompilable(d, rules, p);
          var f := AskFirst(d, rules, p, FULL);
          var tested := AskHeadFail(d, rules, p) || (!f.empty && f.cs !! fl);
          RepTestedIs(d, rules, p, fl);
          if tested {
            CodeTestedRep(rules, p, f.cs);
          } else {
            CodePlainRep(rules, p, opt, f);
          }
      }
    }

    method CodeTestedRep(rules: seq<Tree>, p: Tree, cs: set<Byte>)
      requires WellFormed(d, rules, p) && Compilable(d, rules, p)
      modifies this
      ensures code == old(code) + AsmTestedRep(cs, Gen(d, rules, p, false, TestOf(cs), FULL))
      decreases Rep(p), 0
    {
      hide Gen, GetFirst, HeadFail, FixedLen, Classify, TestAt, WellFormed, Compilable, ChoiceTested, RepTested, TestOf, OptTestOf, TestLen,
           HoleTest, OptHoleTest, GenTest, OptTest, Open, Upd, PatchTest, InsTo, AsmTestedRep;
      ghost var pre := code;
      ghost var c := Gen(d, rules, p, false, TestOf(cs), FULL);
      OptOf(cs);
      var test := CodeTestSet(First(false, cs));
      HoleTestAt(pre, First(false, cs));
      CodeGen(rules, p, false, test, TestOf(cs), FULL);
      Append(pre, HoleTest(cs), c);
      var jmp := AddOffsetInst(IJmp);
      Append(pre, Cat(HoleTest(cs), c), Open(IJmp));
      ghost var x := Cat(Cat(HoleTest(cs), c), Open(IJmp));
      PatchIn(pre, x, 1, Off(TestLen(cs) + |c| + 2));
      JumpToHere(test);
      x := Upd(x, 1, Off(TestLen(cs) + |c| + 2));
      PatchIn(pre, x, TestLen(cs) + |c| + 1, Off(-(TestLen(cs) + |c|)));
      JumpToThere(jmp, test);
      TestedRepAssembled(cs, c);
    }

    method CodePlainRep(rules: seq<Tree>, p: Tree, opt: bool, f: First)
      requires WellFormed(d, rules, p) && Compilable(d, rules, p)
      modifies this
      ensures code == old(code) + AsmRep(f, opt, Gen(d, rules, p, false, NoTest, FULL))
      decreases Rep(p), 0
    {
      hide Cat, Gen, GetFirst, HeadFail, FixedLen, Classify, TestAt, WellFormed, Compilable, ChoiceTested, RepTested, TestOf, OptTestOf, TestLen,
           HoleTest, OptHoleTest, GenTest, OptTest, Open, Upd, PatchTest, InsTo, AsmRep;
      ghost var pre := code;
      ghost var c := Gen(d, rules, p, false, NoTest, FULL);
      ghost var l0 := OptTestLen(f);
      var test, pchoice := CodeLoopHead(opt, f);
      var l2 := |code|;
      ghost var x := LoopHead(opt, f);
      NoTestAt(code);
      CodeGen(rules, p, false, NOINST, NoTest, FULL);
      Append(pre, x, c);
      x := Cat(x, c);
      var commit := AddOffsetInst(IPartialCommit);
      Append(pre, x, Open(IPartialCommit));
      x := Cat(x, Open(IPartialCommit));
      PatchIn(pre, x, l0 + 2 + |c| + 1, Off(-|c|));
      JumpToThere(commit, l2);
      x := Upd(x, l0 + 2 + |c| + 1, Off(-|c|));
      PatchIn(pre, x, l0 + 1, Off(2 + |c| + 2));
      JumpToHere(pchoice);
      x := if opt then x else Upd(x, l0 + 1, Off(2 + |c| + 2));
      PatchTestIn(pre, x, f, 2 + |c| + 2);
      JumpToHere(test);
      CatIs(pre, AsmRep(f, opt, c));
      if opt { OptRepAssembled(f, c); } else { RepAssembled(f, c); }
    }

    ghost function LoopHead(opt: bool, f: First): (x: seq<Slot>)
      ensures |x| == OptTestLen(f) + 2
    {
      if opt then Upd(Cat(OptHoleTest(f), Open(IPartialCommit)), OptTestLen(f) + 1, Off(2))
      else Cat(OptHoleTest(f), Open(IChoice))
    }

    /** The start of a loop: a test, then a choice with an open label, or a partial commit inside an optional pattern */
    method CodeLoopHead(opt: bool, f: First) returns (test: int, pchoice: int)
      modifies this
      ensures code == Cat(old(code), LoopHead(opt, f))
      ensures test == if f.empty then NOINST else |old(code)|
      ensures pchoice == if opt then NOINST else |old(code)| + OptTestLen(f)
    {
      hide Cat, OptHoleTest, Open, Upd, Classify;
      ghost var (pre, x) := (code, OptHoleTest(f));
      test := CodeTestSet(f);
      CatIs(pre, x);
      pchoice := NOINST;
      if opt {
        var partial := AddOffsetInst(IPartialCommit);
        Append(pre, x, Open(IPartialCommit));
        PatchIn(pre, Cat(x, Open(IPartialCommit)), OptTestLen(f) + 1, Off(2));
        JumpToHere(partial);
      } else {
        pchoice := AddOffsetInst(IChoice);
        Append(pre, x, Open(IChoice));
      }
    }

    lemma NoTestAt(g: seq<Slot>)
      ensures TestAt(g, NOINST, NoTest)
    {
    }

    method CodeNot(rules: seq<Tree>, p: Tree)
      requires WellFormed(d, rules, p) && Compilable(d, rules, Not(p))
      modifies this
      ensures code == old(code) + Gen(d, rules, Not(p), false, NoTest, FULL)
      decreases Not(p), 0
    {
      hide GetFirst, HeadFail, FixedLen, Answers, Classify, TestAt, WellFormed, Compilable, ChoiceTested, RepTested, TestOf, OptTestOf, TestLen,
           HoleTest, OptHoleTest, GenTest, OptTest, Open, Upd, PatchTest, InsTo, AsmNot;
      ghost var pre := code;
      NotCompilable(d, rules, p);
      var f := AskFirst(d, rules, p, FULL);
      ghost var l0 := OptTestLen(f);
      var test := CodeTestSet(f);
      ghost var x := OptHoleTest(f);
      if AskHeadFail(d, rules, p) {
        var _ := AddInstruction(IFail, 0);
        Append(pre, x, Ins(IFail));
        PatchTestIn(pre, Cat(x, Ins(IFail)), f, 1);
        JumpToHere(test);
        PatchTestAt(f, Ins(IFail), 1);
      } else {
        ghost var c := Gen(d, rules, p, false, NoTest, FULL);
        var pchoice := AddOffsetInst(IChoice);
        Append(pre, x, Open(IChoice));
        x := Cat(x, Open(IChoice));
        NoTestAt(code);
        CodeGen(rules, p, false, NOINST, NoTest, FULL);
        Append(pre, x, c);
        x := Cat(x, c);
        var _ := AddInstruction(IFailTwice, 0);
        Append(pre, x, Ins(IFailTwice));
        x := Cat(x, Ins(IFailTwice));
        PatchIn(pre, x, l0 + 1, Off(2 + |c| + 1));
        JumpToHere(pchoice);
        x := Upd(x, l0 + 1, Off(2 + |c| + 1));
        PatchTestIn(pre, x, f, 2 + |c| + 1);
        JumpToHere(test);
        NotAssembled(f, c);
      }
    }

    /** Follow jumps to something else than a jump */
    method FinalTargetFrom(i: int) returns (t: int)
      requires Ends(code, i)
      ensures t == FinalTarget(code, i, |code|) && !IsJump(code, t)
    {
      t := i;
      ghost var left := Length(code, i);
      EndsShort(code, i, left);
      EndsAt(code, i, left, |code|);
      while IsJump(code, t)
        invariant EndsIn(code, t, left) && FinalTarget(code, t, left) == FinalTarget(code, i, |code|)
        decreases left
      {
        t := t + code[t + 1].offset;
        left := left - 1;
      }
    }

    /** Close the open call at `i`, which is slot `k` of `cur` */
    method CloseCallAt(positions: seq<int>, i: nat, ghost pre: seq<Slot>, ghost cur: seq<Slot>, ghost rel: seq<int>, ghost k: nat)
      requires code == pre + cur && i == |pre| + k
      requires IsOp(cur, k, IOpenCall) && k + 1 < |cur| && 0 <= cur[k].key < |rel| && cur[k + 1].Hole?
      requires |rel| == |positions| && forall n :: 0 <= n < |rel| ==> positions[n] == |pre| + rel[n]
      requires JumpsOk(cur, 0, |cur|) && Ends(cur, k + 2)
      modifies this
      ensures code == pre + CloseCall(cur, rel, k)
    {
      hide JumpsOk;
      assert code[i] == cur[k];
      var rule := positions[code[i].key];
      ChasePlaced(pre, cur, k + 2);
      var t := FinalTargetFrom(i + 2);
      var tail := IsOp(code, t, IRet);
      var target := FinalTarget(cur, k + 2, |cur|);
      IsOpPlaced(pre, cur, target, IRet);
      PatchIn(pre, cur, k, cur[k].(code := if tail then IJmp else ICall));
      code := code[i := code[i].(code := if tail then IJmp else ICall)];
      PatchIn(pre, cur[k := cur[k].(code := if tail then IJmp else ICall)], k + 1, Off(rel[cur[k].key] - k));
      JumpToThere(i, rule);
    }

    /** A chase inside the code of a grammar, in the whole code */
    lemma ChasePlaced(pre: seq<Slot>, cur: seq<Slot>, a: nat)
      requires JumpsOk(cur, 0, |cur|) && a <= |cur| && Ends(cur, a)
      ensures Ends(pre + cur, |pre| + a) && 0 <= FinalTarget(cur, a, |cur|)
      ensures FinalTarget(pre + cur, |pre| + a, |pre + cur|) == |pre| + FinalTarget(cur, a, |cur|)
    {
      var n := Length(cur, a);
      LaterEnds(pre, cur, a, n);
      EndsExactly(cur, a);
      FinalTargetPlaced(pre, cur, a, |pre + cur|);
      FinalTargetPlaced(pre, cur, a, |cur|);
    }

    lemma IsOpPlaced(pre: seq<Slot>, cur: seq<Slot>, a: int, op: Opcode)
      requires a >= 0
      ensures IsOp(pre + cur, |pre| + a, op) == IsOp(cur, a, op)
    {
    }

    /** What the scan for open calls keeps: the code from slot `k` on is still as generated, and finishing it from here
        gives what was to be computed. */
    ghost predicate Scanning(cur: seq<Slot>, raw: seq<Slot>, rel: seq<int>, k: nat) {
      && k <= |cur| == |raw| && cur[k..] == raw[k..]
      && CorrectCalls(cur, rel, k) == CorrectCalls(raw, rel, 0)
      && Parses(raw, k, |rel|) && JumpsOk(cur, 0, |cur|) && ClosingEnds(cur, rel, k)
      && forall n :: 0 <= n < |rel| ==> 0 <= rel[n] <= |raw|
    }

    lemma ScanInstr(cur: seq<Slot>, raw: seq<Slot>, rel: seq<int>, k: nat)
      requires Scanning(cur, raw, rel, k) && k < |cur|
      ensures cur[k].Op? && k + Size(cur[k].code) <= |cur|
      ensures cur[k].code == IOpenCall ==> k + 1 < |cur| && cur[k + 1].Hole? && 0 <= cur[k].key < |rel| && Ends(cur, k + 2)
    {
      assert cur[k] == cur[k..][0] && raw[k] == raw[k..][0];
      assert InstrAt(raw, k, |rel|);
      if cur[k].code == IOpenCall {
        assert cur[k + 1] == cur[k..][1] && raw[k + 1] == raw[k..][1];
      }
    }

    lemma ScanSkip(cur: seq<Slot>, raw: seq<Slot>, rel: seq<int>, k: nat)
      requires Scanning(cur, raw, rel, k) && k < |cur| && !IsOp(cur, k, IOpenCall)
      ensures cur[k].Op? && Scanning(cur, raw, rel, k + Size(cur[k].code))
    {
      hide JumpsOk;
      ScanInstr(cur, raw, rel, k);
      assert cur[k] == cur[k..][0] && raw[k] == raw[k..][0];
      var z := Size(cur[k].code);
      assert cur[k + z..] == cur[k..][z..] && raw[k + z..] == raw[k..][z..];
    }

    lemma ScanClose(cur: seq<Slot>, raw: seq<Slot>, rel: seq<int>, k: nat)
      requires Scanning(cur, raw, rel, k) && IsOp(cur, k, IOpenCall)
      requires k + 1 < |cur| && cur[k + 1].Hole? && 0 <= cur[k].key < |rel|
      ensures Scanning(CloseCall(cur, rel, k), raw, rel, k + 2)
    {
      hide JumpsOk;
      CloseCallJumps(cur, rel, k);
      var next := CloseCall(cur, rel, k);
      assert raw[k] == raw[k..][0] == cur[k..][0] == cur[k];
      assert next[k + 2..] == cur[k..][2..] && raw[k + 2..] == raw[k..][2..];
    }

    /** Change open calls to calls, using the positions of the rules; also optimize tail calls */
    method CorrectCallsIn(positions: seq<int>, from: nat, to: nat, ghost pre: seq<Slot>, ghost raw: seq<Slot>, ghost rel: seq<int>)
      requires from == |pre| && to == |code| && code == pre + raw
      requires |rel| == |positions|
      requires forall n :: 0 <= n < |rel| ==> positions[n] == from + rel[n] && 0 <= rel[n] <= |raw|
      requires Parses(raw, 0, |rel|) && JumpsOk(raw, 0, |raw|) && ClosingEnds(raw, rel, 0)
      modifies this
      ensures code == pre + CorrectCalls(raw, rel, 0)
    {
      ghost var cur := raw;
      var i := from;
      while i < to
        invariant from <= i <= to && |cur| == |raw| && code == pre + cur
        invariant Scanning(cur, raw, rel, i - from)
      {
        hide JumpsOk, CloseCall, CorrectCalls, Parses, ClosingEnds;
        ghost var k := i - from;
        assert code[i] == cur[k];
        ScanInstr(cur, raw, rel, k);
        if code[i].code == IOpenCall {
          ScanClose(cur, raw, rel, k);
          CloseCallAt(positions, i, pre, cur, rel, k);
          cur := CloseCall(cur, rel, k);
          i := i + 2;
        } else {
          ScanSkip(cur, raw, rel, k);
          i := i + Size(code[i].code);
        }
      }
    }

    /** call L1; jmp L2; L1: rule 1; ret; rule 2; ret; ...; L2: */
    method CodeGrammar(rs: seq<Tree>)
      requires |rs| > 0 && forall k :: 0 <= k < |rs| ==> WellFormed(d, rs, rs[k]) && Compilable(d, rs, rs[k])
      requires AllEnd(Body(d, rs))
      modifies this
      ensures var body := CorrectCalls(RulesCode(d, rs, |rs|), Positions(d, rs), 0);
              code == old(code) + (InsTo(ICall, 4) + InsTo(IJmp, 2 + |body|) + body)
      decreases rs, 1
    {
      hide Gen, CorrectCalls, Parses, JumpsOk, RulesCode, AllEnd, ClosingEnds, Compilable;
      ghost var pre := code;
      var firstcall := AddOffsetInst(ICall);
      var jumptoend := AddOffsetInst(IJmp);
      var start := |code|;
      PatchOpen(pre, ICall, Open(IJmp), 4);
      JumpToHere(firstcall);
      ghost var head := pre + InsTo(ICall, 4);
      var positions := CodeRules(rs);
      ghost var raw := RulesCode(d, rs, |rs|);
      PatchOpen(head, IJmp, raw, 2 + |raw|);
      JumpToHere(jumptoend);
      RulesParse(d, rs, |rs|);
      RulesJumps(d, rs, |rs|);
      PositionsInside(d, rs);
      NoCircleCloses(raw, raw, Positions(d, rs), 0);
      CorrectCallsIn(positions, start, |code|, head + InsTo(IJmp, 2 + |raw|), raw, Positions(d, rs));
      ghost var body := CorrectCalls(raw, Positions(d, rs), 0);
      Regrouped(pre, InsTo(ICall, 4), InsTo(IJmp, 2 + |raw|), body);
    }

    lemma Regrouped(pre: seq<Slot>, a: seq<Slot>, b: seq<Slot>, c: seq<Slot>)
      ensures pre + a + b + c == pre + (a + b + c) && pre + a + b == pre + (a + b)
    {
    }

    /** The rules of a grammar, one after the other, each with a return */
    method CodeRules(rs: seq<Tree>) returns (positions: seq<int>)
      requires forall k :: 0 <= k < |rs| ==> WellFormed(d, rs, rs[k]) && Compilable(d, rs, rs[k])
      modifies this
      ensures code == old(code) + RulesCode(d, rs, |rs|)
      ensures |positions| == |rs| && forall n :: 0 <= n < |rs| ==> positions[n] == |old(code)| + Positions(d, rs)[n]
      decreases rs, 0
    {
      hide Gen, TestAt, WellFormed, Compilable, RulesCode, RuleCode, Cat;
      ghost var start := code;
      positions := [];
      RulesStart(start, rs);
      for k := 0 to |rs|
        invariant code == start + RulesCode(d, rs, k)
        invariant |positions| == k && forall n :: 0 <= n < k ==> positions[n] == |old(code)| + |RulesCode(d, rs, n)|
      {
        positions := positions + [|code|];
        NoTestAt(code);
        CodeGen(rs, rs[k], false, NOINST, NoTest, FULL);
        var _ := AddInstruction(IRet, 0);
        RulesNext(start, rs, k);
      }
    }

    lemma RulesStart(pre: seq<Slot>, rs: seq<Tree>)
      ensures pre + RulesCode(d, rs, 0) == pre
    {
    }

    lemma RulesNext(pre: seq<Slot>, rs: seq<Tree>, k: nat)
      requires k < |rs|
      ensures pre + RulesCode(d, rs, k) + Gen(d, rs, rs[k], false, NoTest, FULL) + [Op(IRet, 0, 0)] == pre + RulesCode(d, rs, k + 1)
    {
      hide Gen;
    }

    method CodeCall(n: nat)
      modifies this
      ensures code == old(code) + [Op(IOpenCall, 0, n), Hole]
    {
      var c := AddOffsetInst(IOpenCall);
      code := code[c := code[c].(key := n)];
    }

    method CodeSeq(rules: seq<Tree>, p1: Tree, p2: Tree, opt: bool, tt: int, ghost test: Test, fl: set<Byte>)
      requires WellFormed(d, rules, p1) && WellFormed(d, rules, p2) && Compilable(d, rules, Seq(p1, p2)) && TestAt(code, tt, test)
      modifies this
      ensures code == old(code) + Gen(d, rules, Seq(p1, p2), opt, test, fl)
      decreases Seq(p1, p2), 0
    {
      hide GetFirst, HeadFail, FixedLen, Answers, Classify, TestAt, WellFormed, Compilable, SeqFollow;
      SeqCompilable(d, rules, p1, p2);
      var fl1 := if NeedFollow(p1) then AskFirst(d, rules, p2, fl).cs else FULL;
      FollowIs(d, rules, p1, p2, fl);
      ghost var c1 := Gen(d, rules, p1, false, test, fl1);
      CodeGen(rules, p1, false, tt, test, fl1);
      if FixedLen(d, rules, p1) != 0 {
        NoTestAt(code);
        CodeGen(rules, p2, opt, NOINST, NoTest, fl);
        Append(old(code), c1, Gen(d, rules, p2, opt, NoTest, fl));
      } else {
        TestAtGrows(old(code), c1, tt, test);
        CodeGen(rules, p2, opt, tt, test, fl);
        Append(old(code), c1, Gen(d, rules, p2, opt, test, fl));
      }
    }

    /** `codegen`: dispatch on the kind of tree; the test `tt` protects the code about to be generated. */
    method CodeGen(rules: seq<Tree>, t: Tree, opt: bool, tt: int, ghost test: Test, fl: set<Byte>)
      requires WellFormed(d, rules, t) && Compilable(d, rules, t) && TestAt(code, tt, test)
      modifies this
      ensures code == old(code) + Gen(d, rules, t, opt, test, fl)
      decreases t, 2
    {
      hide GetFirst, HeadFail, FixedLen, Classify, TestAt, GenChar, GenSet, ChoiceTested, RepTested, SeqFollow,
           AsmTestedChoice, AsmChoice, AsmTestedRep, AsmRep, AsmNot, AsmAnd, OptTest, CorrectCalls;
      match t {
        case Char(c) => CodeChar(c, tt, test);
        case Any => var _ := AddInstruction(IAny, 0);
        case CSet(cs) => CodeCharset(cs, tt, test);
        case True =>
        case False => var _ := AddInstruction(IFail, 0);
        case Choice(p1, p2) => CodeChoice(rules, p1, p2, opt, fl);
        case Rep(p) => CodeRep(rules, p, opt, fl);
        case Behind(n, p) => CodeBehind(rules, n, p);
        case Not(p) => CodeNot(rules, p);
        case And(p) => CodeAnd(rules, p, tt, test);
        case Grammar(rs) => CodeGrammar(rs);
        case Call(n) => CodeCall(n);
        case Seq(p1, p2) => CodeSeq(rules, p1, p2, opt, tt, test, fl);
      }
    }

    /** Optimize the instruction at `i` */
    method PeepholeAt(i: nat)
      requires i < |code| && code[i].Op? && (HasLabel(code[i].code) ==> i + 1 < |code| && code[i + 1].Off?)
      requires InstrEnds(code, i)
      modifies this
      ensures code == PeepInstr(old(code), i)
    {
      hide FinalTarget, Ends;
      if HasLabel(code[i].code) {
        if code[i].code != IJmp {
          var fl := FinalTargetFrom(i + code[i + 1].offset);
          JumpToThere(i, fl);
        } else {
          var ft := FinalTargetFrom(i);
          if 0 <= ft < |code| && code[ft].Op? && Leaves(code[ft].code) {
            code := code[i := code[ft]];            // jump becomes that instruction
            code := code[i + 1 := Op(IAny, 0, 0)];  // 'no-op' for target position
          } else if 0 <= ft && ft + 1 < |code| && code[ft].Op? && Commits(code[ft].code) && code[ft + 1].Off? {
            var fft := FinalTargetFrom(ft + code[ft + 1].offset);
            code := code[i := code[ft]];            // jump becomes that instruction...
            JumpToThere(i, fft);                    // but must correct its offset
            var fl := FinalTargetFrom(i + code[i + 1].offset);
            JumpToThere(i, fl);                     // reoptimize its label
          } else {
            JumpToThere(i, ft);
          }
        }
      }
    }

    /** Optimize jumps and other jump-like instructions, in one pass over the code */
    method Peephole()
      requires Parses(code, 0, 0) && |code| > 0 && AllEnd(code)
      modifies this
      ensures Parses(old(code), 0, 0) && old(code)[0].Op? && code == Peep(old(code), 0)
    {
      hide PeepInstr, Parses, AllEnd, InstrEnds;
      ghost var before := code;
      FirstOp(code);
      var i: nat := 0;
      while i < |code|
        invariant Parses(code, 0, 0) && (i < |code| ==> code[i].Op?) && AllEnd(code)
        invariant Peep(code, i) == Peep(before, 0)
        decreases |code| - i
      {
        PeepInstrParses(code, i);
        NoCircleStep(code, i);
        PeepholeAt(i);
        i := i + Size(code[i].code);
      }
    }

    lemma FirstOp(g: seq<Slot>)
      requires Parses(g, 0, 0) && |g| > 0
      ensures g[0].Op?
    {
    }
  }

  /** `compile` */
  method CompilePattern(d: nat, t: Tree) returns (code: seq<Slot>)
    requires WellFormed(d, [], t) && CompileEnds(d, t)
    ensures code == Optimized(d, t)
  {
    ChasesEndExactly(d, t);
    CirclesInBodies(d, t);
    CompileParses(d, t);
    CompileIs(d, t);
    hide *;
    var compst := new CompileState(d);
    compst.NoTestAt([]);
    compst.CodeGen([], t, false, NOINST, NoTest, FULL);
    var _ := compst.AddInstruction(IEnd, 0);
    compst.Peephole();
    code := compst.code;
  }

  lemma CompileIs(d: nat, t: Tree)
    requires WellFormed(d, [], t) && ChasesEnd(d, t)
    ensures Compile(d, t) == [] + Gen(d, [], t, false, NoTest, FULL) + [Op(IEnd, 0, 0)]
    ensures Parses(Compile(d, t), 0, 0) && Compile(d, t)[0].Op? && Optimized(d, t) == Peep(Compile(d, t), 0)
  {
    CompileParses(d, t);
    hide Gen, Parses, Peep, WellFormed, ChasesEnd;
  }

  /** `lp_match`, from compilation to result: whenever recursive matching has a result, running the compiled pattern
      returns it. */
  method MatchPattern(d: nat, t: Tree, s: seq<Byte>, i: nat, ghost fuel: nat) returns (r: Result)
    requires WellFormed(d, [], t) && CompileEnds(d, t) && i <= |s|
    requires Match([], t, s, i, fuel).Some?
    ensures r == Match([], t, s, i, fuel).value
  {
    hide Match, Optimized, Run, ChasesEnd;
    var code := CompilePattern(d, t);
    ghost var end := Outcome(Match([], t, s, i, fuel).value, i);
    OptimizedCorrect(d, t, s, i, fuel, end);
    ghost var n: nat :| Run(Machine(code, s), Start(i), n) == end;
    r := Exec(Machine(code, s), i, n);
  }
}
