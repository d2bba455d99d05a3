/** The code that lpcode.c generates for a pattern tree, as a function of the tree: the specification that the
    compiler of PegCompiler meets. All labels are relative, so the code of a fragment does not depend on where it
    is placed; a call to a rule stays open until the code of its grammar is complete. */
module PegGen {
  import opened Peg
  import opened PegAnalysis
  import opened PegMachine

  const MAXBEHIND := 255

  /** The test instruction that dominates a fragment (`tt`), as far as code generation looks at it. */
  datatype Test = NoTest | CharTest(c: int) | SetTest(cs: set<Byte>)

  /** `charsettype` */
  datatype Kind = Empty | Single(c: Byte) | Full | General

  ghost function Classify(cs: set<Byte>): Kind {
    if cs == {} then Empty
    else if cs == FULL then Full
    else if exists c: Byte :: cs == {c} then
      var c: Byte :| cs == {c}; Single(c)
    else General
  }

  function Ins(op: Opcode): seq<Slot> { [Op(op, 0, 0)] }

  function InsTo(op: Opcode, offset: int): seq<Slot> { [Op(op, 0, 0), Off(offset)] }

  function GenChar(c: Byte, tt: Test): seq<Slot> {
    if tt == CharTest(c) then Ins(IAny) else [Op(IChar, c, 0)]
  }

  ghost function GenSet(cs: set<Byte>, tt: Test): seq<Slot> {
    match Classify(cs)
    case Empty => Ins(IFail)
    case Full => Ins(IAny)
    case Single(c) => GenChar(c, tt)
    case General => if tt == SetTest(cs) then Ins(IAny) else Ins(ISet) + Words(cs)
  }

  /** `codetestset` for a test that must reject the empty subject */
  ghost function GenTest(cs: set<Byte>, offset: int): (c: seq<Slot>)
    ensures |c| == TestLen(cs)
  {
    match Classify(cs)
    case Empty => InsTo(IJmp, offset)
    case Full => InsTo(ITestAny, offset)
    case Single(c) => [Op(ITestChar, c, 0), Off(offset)]
    case General => InsTo(ITestSet, offset) + Words(cs)
  }

  ghost function TestLen(cs: set<Byte>): nat {
    if Classify(cs).General? then 2 + SETWORDS else 2
  }

  ghost function TestOf(cs: set<Byte>): Test {
    match Classify(cs)
    case Single(c) => CharTest(c)
    case General => SetTest(cs)
    case _ => NoTest
  }

  /** `codetestset`: nothing is emitted when the empty subject may be accepted; `rest` is the distance from the end of
      the test to its label. */
  ghost function OptTest(f: First, rest: nat): (c: seq<Slot>)
    ensures |c| == OptTestLen(f)
  {
    if f.empty then [] else GenTest(f.cs, TestLen(f.cs) + rest)
  }

  ghost function OptTestLen(f: First): nat {
    if f.empty then 0 else TestLen(f.cs)
  }

  ghost function OptTestOf(f: First): Test {
    if f.empty then NoTest else TestOf(f.cs)
  }

  /** `codechoice` when one test decides between the alternatives: test L1; c1; jmp L2; L1: c2; L2:
      (without the jump when there is nothing at L1) */
  ghost function AsmTestedChoice(cs: set<Byte>, c1: seq<Slot>, emptyp2: bool, c2: seq<Slot>): (c: seq<Slot>)
    ensures |c| == TestLen(cs) + |c1| + (if emptyp2 then 0 else 2) + |c2|
  {
    if emptyp2 then GenTest(cs, TestLen(cs) + |c1|) + c1 + c2
    else GenTest(cs, TestLen(cs) + |c1| + 2) + c1 + InsTo(IJmp, 2 + |c2|) + c2
  }

  /** `codechoice`, general form: test L1; choice L1; c1; commit L2; L1: c2; L2: */
  ghost function AsmChoice(f: First, c1: seq<Slot>, c2: seq<Slot>): (c: seq<Slot>)
    ensures |c| == OptTestLen(f) + 2 + |c1| + 2 + |c2|
  {
    OptTest(f, 2 + |c1| + 2) + InsTo(IChoice, 2 + |c1| + 2) + c1 + InsTo(ICommit, 2 + |c2|) + c2
  }

  /** `coderep` when a test decides whether to go on: L1: test L2; c; jmp L1; L2: */
  ghost function AsmTestedRep(cs: set<Byte>, c: seq<Slot>): (g: seq<Slot>)
    ensures |g| == TestLen(cs) + |c| + 2
  {
    GenTest(cs, TestLen(cs) + |c| + 2) + c + InsTo(IJmp, -(TestLen(cs) + |c|))
  }

  /** `coderep`, general form: test L2; choice L2; L1: c; partialcommit L1; L2:
      (with a partial commit instead of the choice inside an optional pattern) */
  ghost function AsmRep(f: First, opt: bool, c: seq<Slot>): (g: seq<Slot>)
    ensures |g| == OptTestLen(f) + 2 + |c| + 2
  {
    OptTest(f, 2 + |c| + 2)
    + (if opt then InsTo(IPartialCommit, 2) else InsTo(IChoice, 2 + |c| + 2))
    + c + InsTo(IPartialCommit, -|c|)
  }

  /** `codenot`, general form: test L1; choice L1; c; failtwice; L1: */
  ghost function AsmNot(f: First, c: seq<Slot>): (g: seq<Slot>)
    ensures |g| == OptTestLen(f) + 2 + |c| + 1
  {
    OptTest(f, 2 + |c| + 1) + InsTo(IChoice, 2 + |c| + 1) + c + Ins(IFailTwice)
  }

  /** `codeand`, general form: choice L1; c; backcommit L2; L1: fail; L2: */
  ghost function AsmAnd(c: seq<Slot>): (g: seq<Slot>)
    ensures |g| == 2 + |c| + 3
  {
    InsTo(IChoice, 2 + |c| + 2) + c + InsTo(IBackCommit, 3) + Ins(IFail)
  }

  /** `codegen` */
  ghost function Gen(d: nat, rules: seq<Tree>, t: Tree, opt: bool, tt: Test, fl: set<Byte>): seq<Slot>
    decreases t, 0
  {
    match t
    case Char(c) => GenChar(c, tt)
    case Any => Ins(IAny)
    case CSet(cs) => GenSet(cs, tt)
    case True => []
    case False => Ins(IFail)
    case Choice(p1, p2) =>
      var f1 := GetFirst(d, rules, p1, FULL);
      if ChoiceTested(d, rules, p1, p2, fl) then
        AsmTestedChoice(f1.cs, Gen(d, rules, p1, false, TestOf(f1.cs), fl), p2.True?, Gen(d, rules, p2, opt, NoTest, fl))
      else if opt && p2.True? then
        InsTo(IPartialCommit, 2) + Gen(d, rules, p1, true, NoTest, FULL)
      else
        AsmChoice(f1, Gen(d, rules, p1, p2.True?, OptTestOf(f1), FULL), Gen(d, rules, p2, opt, NoTest, fl))
    case Rep(p) =>
      (match ToCharset(p)
       case Some(cs) => Ins(ISpan) + Words(cs)
       case None =>
         var f := GetFirst(d, rules, p, FULL);
         if RepTested(d, rules, p, fl) then
           AsmTestedRep(f.cs, Gen(d, rules, p, false, TestOf(f.cs), FULL))
         else
           AsmRep(f, opt, Gen(d, rules, p, false, NoTest, FULL)))
    case Not(p) =>
      var f := GetFirst(d, rules, p, FULL);
      if HeadFail(d, rules, p) then OptTest(f, 1) + Ins(IFail)
      else AsmNot(f, Gen(d, rules, p, false, NoTest, FULL))
    case And(p) =>
      var n := FixedLen(d, rules, p);
      var c := Gen(d, rules, p, false, tt, FULL);
      if 0 <= n <= MAXBEHIND then c + GenBehind(n) else AsmAnd(c)
    case Behind(n, p) => GenBehind(n) + Gen(d, rules, p, false, NoTest, FULL)
    case Seq(p1, p2) =>
      Gen(d, rules, p1, false, tt, SeqFollow(d, rules, p1, p2, fl))
      + Gen(d, rules, p2, opt, if FixedLen(d, rules, p1) != 0 then NoTest else tt, fl)
    case Call(n) => [Op(IOpenCall, 0, n), Hole]
    case Grammar(rs) =>
      var body := CorrectCalls(RulesCode(d, rs, |rs|), Positions(d, rs), 0);
      InsTo(ICall, 4) + InsTo(IJmp, 2 + |body|) + body
  }

  /** `codechoice`: one test is enough when the first alternative is head-fail or the first sets are disjoint. */
  predicate ChoiceTested(d: nat, rules: seq<Tree>, p1: Tree, p2: Tree, fl: set<Byte>) {
    || HeadFail(d, rules, p1)
    || var f1 := GetFirst(d, rules, p1, FULL); !f1.empty && f1.cs !! GetFirst(d, rules, p2, fl).cs
  }

  /** `coderep`: one test is enough when the body is head-fail or its first set is disjoint from what follows. */
  predicate RepTested(d: nat, rules: seq<Tree>, p: Tree, fl: set<Byte>) {
    || HeadFail(d, rules, p)
    || var f := GetFirst(d, rules, p, FULL); !f.empty && f.cs !! fl
  }

  function SeqFollow(d: nat, rules: seq<Tree>, p1: Tree, p2: Tree, fl: set<Byte>): set<Byte> {
    if NeedFollow(p1) then GetFirst(d, rules, p2, fl).cs else FULL
  }

  function GenBehind(n: nat): seq<Slot> {
    if n > 0 then [Op(IBehind, n, 0)] else []
  }

  ghost function RuleCode(d: nat, rs: seq<Tree>, n: nat): seq<Slot>
    requires n < |rs|
    decreases rs, n, 1
  {
    Gen(d, rs, rs[n], false, NoTest, FULL) + Ins(IRet)
  }

  /** The first `n` rules of a grammar, one after the other */
  ghost function RulesCode(d: nat, rs: seq<Tree>, n: nat): seq<Slot>
    requires n <= |rs|
    decreases rs, n, 0
  {
    if n == 0 then [] else RulesCode(d, rs, n - 1) + RuleCode(d, rs, n - 1)
  }

  /** Where each rule starts, from the start of the first one */
  ghost function Positions(d: nat, rs: seq<Tree>): (pos: seq<int>)
    ensures |pos| == |rs|
    decreases rs, |rs|, 2
  {
    seq(|rs|, n requires 0 <= n < |rs| => |RulesCode(d, rs, n)|)
  }

  /** `finaltarget`: follow jumps from `a`. The original has no bound; PegChase says when `fuel` is never used up. */
  function FinalTarget(code: seq<Slot>, a: int, fuel: nat): int
    decreases fuel
  {
    if fuel > 0 && IsJump(code, a) then FinalTarget(code, a + code[a + 1].offset, fuel - 1) else a
  }

  predicate IsJump(code: seq<Slot>, a: int) {
    IsOp(code, a, IJmp) && a + 1 < |code| && code[a + 1].Off?
  }

  predicate IsOp(code: seq<Slot>, a: int, op: Opcode) {
    0 <= a < |code| && code[a].Op? && code[a].code == op
  }

  /** `correctcalls`: turn the open calls from slot `i` on into calls to the rules at `pos`; a call followed by a
      return becomes a jump. */
  function CorrectCalls(code: seq<Slot>, pos: seq<int>, i: nat): (r: seq<Slot>)
    ensures |r| == |code|
    decreases |code| - i
  {
    if i >= |code| || !code[i].Op? then code
    else if code[i].code == IOpenCall && i + 1 < |code| && 0 <= code[i].key < |pos| then
      CorrectCalls(CloseCall(code, pos, i), pos, i + 2)
    else CorrectCalls(code, pos, i + Size(code[i].code))
  }

  /** The code after one open call, at `i`, has been closed */
  function CloseCall(code: seq<Slot>, pos: seq<int>, i: nat): (r: seq<Slot>)
    requires IsOp(code, i, IOpenCall) && i + 1 < |code| && 0 <= code[i].key < |pos|
    ensures |r| == |code|
  {
    var tail := IsOp(code, FinalTarget(code, i + 2, |code|), IRet);
    code[i := code[i].(code := if tail then IJmp else ICall)][i + 1 := Off(pos[code[i].key] - i)]
  }

  /** `compile`, before its peephole pass */
  ghost function Compile(d: nat, t: Tree): seq<Slot> {
    Gen(d, [], t, false, NoTest, FULL) + Ins(IEnd)
  }

  /** What the constructors of patterns guarantee of a tree: calls go to rules of their grammar, a grammar has an
      initial rule, and a look-behind goes back by the fixed length of its body. */
  ghost predicate WellFormed(d: nat, rules: seq<Tree>, t: Tree)
    decreases t
  {
    match t
    case Rep(p) => WellFormed(d, rules, p)
    case Seq(p1, p2) => WellFormed(d, rules, p1) && WellFormed(d, rules, p2)
    case Choice(p1, p2) => WellFormed(d, rules, p1) && WellFormed(d, rules, p2)
    case Not(p) => WellFormed(d, rules, p)
    case And(p) => WellFormed(d, rules, p)
    case Behind(n, p) => WellFormed(d, rules, p) && FixedLen(d, rules, p) == n && n <= MAXBEHIND
    case Call(n) => n < |rules|
    case Grammar(rs) => |rs| > 0 && forall k :: 0 <= k < |rs| ==> WellFormed(d, rs, rs[k])
    case _ => true
  }
}
