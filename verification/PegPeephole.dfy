/** The peephole pass of lpcode.c: labels are redirected to where jumps lead in the end, and a jump to an instruction that
    jumps by itself becomes that instruction. */
module PegPeephole {
  import opened Peg
  import opened PegAnalysis
  import opened PegGrammar
  import opened PegMachine
  import opened PegAnswers
  import opened PegGen
  import opened PegSettled
  import opened PegLayout
  import opened PegJumps
  import opened PegChase
  import opened PegCorrect

  /** `finallabel` */
  function FinalLabel(code: seq<Slot>, i: nat): int
    requires i + 1 < |code| && code[i + 1].Off?
  {
    FinalTarget(code, i + code[i + 1].offset, |code|)
  }

  /** Redirect the label of the instruction at `i` */
  function Relabel(code: seq<Slot>, i: nat, target: int): seq<Slot>
    requires i + 1 < |code|
  {
    code[i + 1 := Off(target - i)]
  }

  /** Instructions that leave unconditionally without a label, and those with one */
  predicate Leaves(op: Opcode) { op == IRet || op == IFail || op == IFailTwice || op == IEnd }
  predicate Commits(op: Opcode) { op == ICommit || op == IPartialCommit || op == IBackCommit }

  /** What the pass does with the instruction at `i` */
  function PeepInstr(code: seq<Slot>, i: nat): (r: seq<Slot>)
    requires i < |code| && code[i].Op? && (HasLabel(code[i].code) ==> i + 1 < |code| && code[i + 1].Off?)
    ensures |r| == |code| && r[i].Op?
  {
    if !HasLabel(code[i].code) then code
    else if code[i].code != IJmp then Relabel(code, i, FinalLabel(code, i))
    else
      var ft := FinalTarget(code, i, |code|);
      if 0 <= ft < |code| && code[ft].Op? && Leaves(code[ft].code) then
        code[i := code[ft]][i + 1 := Op(IAny, 0, 0)]
      else if 0 <= ft && ft + 1 < |code| && code[ft].Op? && Commits(code[ft].code) && code[ft + 1].Off? then
        var moved := Relabel(code[i := code[ft]], i, FinalLabel(code, ft));
        Relabel(moved, i, FinalLabel(moved, i))
      else Relabel(code, i, ft)
  }

  /** The pass from slot `i` on */
  function Peep(code: seq<Slot>, i: nat): (r: seq<Slot>)
    requires Parses(code, 0, 0) && (i < |code| ==> code[i].Op?)
    ensures |r| == |code|
    decreases |code| - i
  {
    if i >= |code| then code
    else
      PeepInstrParses(code, i);
      var c := PeepInstr(code, i);
      Peep(c, i + Size(c[i].code))
  }

  // ---- One change: how a machine on the new code follows a machine on the old one ------------------------------

  /** From `a`, `n` jumps lead to `b`. */
  ghost predicate JumpPath(code: seq<Slot>, a: int, b: int, n: nat)
    decreases n
  {
    if n == 0 then a == b else IsJump(code, a) && JumpPath(code, a + code[a + 1].offset, b, n - 1)
  }

  ghost predicate Leads(code: seq<Slot>, a: int, b: int) {
    exists n: nat :: JumpPath(code, a, b, n)
  }

  ghost predicate StackLeads(code: seq<Slot>, st: Stack, st': Stack) {
    match (st, st')
    case (Nil, Nil) => true
    case (Push(Back(p, s), r), Push(Back(p', s'), r')) => s == s' && Leads(code, p, p') && StackLeads(code, r, r')
    case (Push(Ret(p), r), Push(Ret(p'), r')) => Leads(code, p, p') && StackLeads(code, r, r')
    case _ => false
  }

  /** The second state is the first one, except that some addresses have already followed jumps of `code`. */
  ghost predicate Follows(code: seq<Slot>, x: State, x': State) {
    match (x, x')
    case (Running(p, i, st), Running(p', i', st')) => Leads(code, p, p') && i == i' && StackLeads(code, st, st')
    case (Matched(i, st), Matched(i', st')) => i == i' && StackLeads(code, st, st')
    case (GaveUp(st), GaveUp(st')) => StackLeads(code, st, st')
    case _ => false
  }

  lemma LeadsSelf(code: seq<Slot>, a: int)
    ensures Leads(code, a, a)
  {
    assert JumpPath(code, a, a, 0);
  }

  lemma {:induction false} JumpPathTrans(code: seq<Slot>, a: int, b: int, c: int, n1: nat, n2: nat)
    requires JumpPath(code, a, b, n1) && JumpPath(code, b, c, n2)
    ensures JumpPath(code, a, c, n1 + n2)
    decreases n1
  {
    if n1 > 0 {
      JumpPathTrans(code, a + code[a + 1].offset, b, c, n1 - 1, n2);
    }
  }

  lemma {:induction false} FinalTargetLeads(code: seq<Slot>, a: int, fuel: nat)
    ensures Leads(code, a, FinalTarget(code, a, fuel))
    decreases fuel
  {
    if fuel > 0 && IsJump(code, a) {
      var t := a + code[a + 1].offset;
      FinalTargetLeads(code, t, fuel - 1);
      var n: nat :| JumpPath(code, t, FinalTarget(code, t, fuel - 1), n);
      assert JumpPath(code, a, FinalTarget(code, a, fuel), n + 1);
    } else {
      LeadsSelf(code, a);
    }
  }

  lemma {:induction false} StackLeadsSelf(code: seq<Slot>, st: Stack)
    ensures StackLeads(code, st, st)
    decreases st
  {
    match st
    case Nil =>
    case Push(e, rest) =>
      LeadsSelf(code, e.p);
      StackLeadsSelf(code, rest);
  }

  lemma {:induction false} FailFollows(code: seq<Slot>, st: Stack, st': Stack)
    requires StackLeads(code, st, st') && FailState(st).Running?
    ensures Follows(code, FailState(st), FailState(st'))
    decreases st
  {
    match st
    case Push(Ret(_), rest) => FailFollows(code, rest, st'.rest);
    case Push(Back(_, _), rest) =>
  }

  /** The instruction at `a'` of the new code does what the one at `a` of the old code does: it is the same, it is at
      the same place unless it leaves unconditionally, and its label leads to where the old one leads. */
  ghost predicate SameInstr(code: seq<Slot>, a: int, code': seq<Slot>, a': int) {
    && 0 <= a < |code| && 0 <= a' < |code'|
    && code[a].Op? && code'[a'] == code[a] && code[a].code != IOpenCall
    && (HasLabel(code[a].code) ==>
          && a + 1 < |code| && code[a + 1].Off?
          && a' + 1 < |code'| && code'[a' + 1].Off?
          && Leads(code, a + code[a + 1].offset, a' + code'[a' + 1].offset))
    && (!(Leaves(code[a].code) || Commits(code[a].code)) ==>
          a == a' && |code| == |code'|
          && (code[a].code in {ISet, ISpan, ITestSet} ==> forall k :: a + 2 <= k < a + Size(code[a].code) && k < |code| ==> code'[k] == code[k])
          && (code[a].code in {ISet, ISpan} ==> a + 1 < |code| ==> code'[a + 1] == code[a + 1])
          && (code[a].code in {ISet, ISpan, ITestSet} ==> a + Size(code[a].code) <= |code|))
  }

  lemma {:induction false} SameSpan(m: Machine, m': Machine, w: int, i: nat)
    requires m.subject == m'.subject && forall c: Byte :: TestChar(m.code, w, c) == TestChar(m'.code, w, c)
    ensures SpanEnd(m, w, i) == SpanEnd(m', w, i)
    decreases |m.subject| - i
  {
    if i < |m.subject| && TestChar(m.code, w, m.subject[i]) {
      SameSpan(m, m', w, i + 1);
    }
  }

  lemma OneFollows(m: Machine, m': Machine, a: int, a': int, i: nat, st: Stack, st': Stack)
    requires m.subject == m'.subject && SameInstr(m.code, a, m'.code, a') && StackLeads(m.code, st, st')
    requires !Step(m, Running(a, i, st)).Stuck?
    requires m.code[a].code in {IAny, IChar}
    ensures Follows(m.code, Step(m, Running(a, i, st)), Step(m', Running(a', i, st')))
  {
    hide TestChar, SpanEnd, FailState, Leads, JumpPath, StackLeads;
    if FailState(st).Running? {
      FailFollows(m.code, st, st');
    }
    LeadsSelf(m.code, a + 1);
  }

  lemma SetFollows(m: Machine, m': Machine, a: int, a': int, i: nat, st: Stack, st': Stack)
    requires m.subject == m'.subject && SameInstr(m.code, a, m'.code, a') && StackLeads(m.code, st, st')
    requires !Step(m, Running(a, i, st)).Stuck?
    requires m.code[a].code == ISet
    ensures Follows(m.code, Step(m, Running(a, i, st)), Step(m', Running(a', i, st')))
  {
    hide TestChar, SpanEnd, FailState, Leads, JumpPath, StackLeads;
    if FailState(st).Running? {
      FailFollows(m.code, st, st');
    }
    LeadsSelf(m.code, a + CHARSETINSTSIZE);
    SameWords(m, m', a, a + 1, i);
  }

  lemma SpanFollows(m: Machine, m': Machine, a: int, a': int, i: nat, st: Stack, st': Stack)
    requires m.subject == m'.subject && SameInstr(m.code, a, m'.code, a') && StackLeads(m.code, st, st')
    requires !Step(m, Running(a, i, st)).Stuck?
    requires m.code[a].code == ISpan
    ensures Follows(m.code, Step(m, Running(a, i, st)), Step(m', Running(a', i, st')))
  {
    hide TestChar, SpanEnd, FailState, Leads, JumpPath, StackLeads;
    LeadsSelf(m.code, a + CHARSETINSTSIZE);
    SameWords(m, m', a, a + 1, i);
  }

  lemma BehindFollows(m: Machine, m': Machine, a: int, a': int, i: nat, st: Stack, st': Stack)
    requires m.subject == m'.subject && SameInstr(m.code, a, m'.code, a') && StackLeads(m.code, st, st')
    requires !Step(m, Running(a, i, st)).Stuck?
    requires m.code[a].code == IBehind
    ensures Follows(m.code, Step(m, Running(a, i, st)), Step(m', Running(a', i, st')))
  {
    hide TestChar, SpanEnd, FailState, Leads, JumpPath, StackLeads;
    if FailState(st).Running? {
      FailFollows(m.code, st, st');
    }
    LeadsSelf(m.code, a + 1);
  }

  /** A jump from a label that leads to where the other one leads */
  lemma JumpsFollow(m: Machine, m': Machine, a: int, a': int, i: nat, st: Stack, st': Stack)
    requires SameInstr(m.code, a, m'.code, a') && HasLabel(m.code[a].code) && StackLeads(m.code, st, st')
    ensures Follows(m.code, Jump(m, a, i, st), Jump(m', a', i, st')) && Jump(m, a, i, st).Running? && Jump(m', a', i, st').Running?
    ensures Leads(m.code, Label(m, a), Label(m', a'))
  {
    hide Leads, StackLeads;
  }

  lemma GoOn(code: seq<Slot>, a: int, i: nat, st: Stack, st': Stack)
    requires StackLeads(code, st, st')
    ensures Follows(code, Running(a, i, st), Running(a, i, st'))
  {
    LeadsSelf(code, a);
  }

  lemma PushesFollow(code: seq<Slot>, e: Entry, e': Entry, st: Stack, st': Stack)
    requires StackLeads(code, st, st') && Leads(code, e.p, e'.p)
    requires (e.Ret? && e'.Ret?) || (e.Back? && e'.Back? && e.s == e'.s)
    ensures StackLeads(code, Push(e, st), Push(e', st'))
  {
    hide Leads;
  }

  lemma TestOneFollows(m: Machine, m': Machine, a: int, a': int, i: nat, st: Stack, st': Stack)
    requires m.subject == m'.subject && SameInstr(m.code, a, m'.code, a') && StackLeads(m.code, st, st')
    requires !Step(m, Running(a, i, st)).Stuck?
    requires m.code[a].code in {ITestAny, ITestChar}
    ensures Follows(m.code, Step(m, Running(a, i, st)), Step(m', Running(a', i, st')))
  {
    hide TestChar, SpanEnd, FailState, Leads, JumpPath, StackLeads, Follows, Jump;
    JumpsFollow(m, m', a, a', i, st, st');
    GoOn(m.code, a + 2, i, st, st');
  }

  lemma TestSetFollows(m: Machine, m': Machine, a: int, a': int, i: nat, st: Stack, st': Stack)
    requires m.subject == m'.subject && SameInstr(m.code, a, m'.code, a') && StackLeads(m.code, st, st')
    requires !Step(m, Running(a, i, st)).Stuck?
    requires m.code[a].code == ITestSet
    ensures Follows(m.code, Step(m, Running(a, i, st)), Step(m', Running(a', i, st')))
  {
    hide TestChar, SpanEnd, FailState, Leads, JumpPath, StackLeads, Follows, Jump;
    JumpsFollow(m, m', a, a', i, st, st');
    GoOn(m.code, a + 1 + CHARSETINSTSIZE, i, st, st');
    SameWords(m, m', a, a + 2, i);
  }

  lemma JumpFollows(m: Machine, m': Machine, a: int, a': int, i: nat, st: Stack, st': Stack)
    requires m.subject == m'.subject && SameInstr(m.code, a, m'.code, a') && StackLeads(m.code, st, st')
    requires !Step(m, Running(a, i, st)).Stuck?
    requires m.code[a].code == IJmp
    ensures Follows(m.code, Step(m, Running(a, i, st)), Step(m', Running(a', i, st')))
  {
    hide TestChar, SpanEnd, FailState, Leads, JumpPath, StackLeads, Follows, Jump;
    JumpsFollow(m, m', a, a', i, st, st');
  }

  lemma ChoiceFollows(m: Machine, m': Machine, a: int, a': int, i: nat, st: Stack, st': Stack)
    requires m.subject == m'.subject && SameInstr(m.code, a, m'.code, a') && StackLeads(m.code, st, st')
    requires !Step(m, Running(a, i, st)).Stuck?
    requires m.code[a].code == IChoice
    ensures Follows(m.code, Step(m, Running(a, i, st)), Step(m', Running(a', i, st')))
  {
    hide TestChar, SpanEnd, FailState, Leads, JumpPath, StackLeads, Follows, Jump;
    JumpsFollow(m, m', a, a', i, st, st');
    PushesFollow(m.code, Back(Label(m, a), i), Back(Label(m', a'), i), st, st');
    GoOn(m.code, a + 2, i, Push(Back(Label(m, a), i), st), Push(Back(Label(m', a'), i), st'));
  }

  lemma CallFollows(m: Machine, m': Machine, a: int, a': int, i: nat, st: Stack, st': Stack)
    requires m.subject == m'.subject && SameInstr(m.code, a, m'.code, a') && StackLeads(m.code, st, st')
    requires !Step(m, Running(a, i, st)).Stuck?
    requires m.code[a].code == ICall
    ensures Follows(m.code, Step(m, Running(a, i, st)), Step(m', Running(a', i, st')))
  {
    hide TestChar, SpanEnd, FailState, Leads, JumpPath, StackLeads, Follows, Jump;
    LeadsSelf(m.code, a + 2);
    PushesFollow(m.code, Ret(a + 2), Ret(a + 2), st, st');
    JumpsFollow(m, m', a, a', i, Push(Ret(a + 2), st), Push(Ret(a + 2), st'));
  }

  lemma CommitFollows(m: Machine, m': Machine, a: int, a': int, i: nat, st: Stack, st': Stack)
    requires m.subject == m'.subject && SameInstr(m.code, a, m'.code, a') && StackLeads(m.code, st, st')
    requires !Step(m, Running(a, i, st)).Stuck?
    requires Commits(m.code[a].code)
    ensures Follows(m.code, Step(m, Running(a, i, st)), Step(m', Running(a', i, st')))
  {
    match (st, st')
    case (Push(Back(p, k), rest), Push(Back(p', k'), rest')) =>
      assert k == k' && Leads(m.code, p, p') && StackLeads(m.code, rest, rest');
      hide TestChar, SpanEnd, FailState, Leads, JumpPath, StackLeads, Follows, Jump;
      JumpsFollow(m, m', a, a', i, rest, rest');
      JumpsFollow(m, m', a, a', k, rest, rest');
      PushesFollow(m.code, Back(p, i), Back(p', i), rest, rest');
      JumpsFollow(m, m', a, a', i, Push(Back(p, i), rest), Push(Back(p', i), rest'));
    case _ =>
  }

  lemma LeaveFollows(m: Machine, m': Machine, a: int, a': int, i: nat, st: Stack, st': Stack)
    requires m.subject == m'.subject && SameInstr(m.code, a, m'.code, a') && StackLeads(m.code, st, st')
    requires !Step(m, Running(a, i, st)).Stuck?
    requires Leaves(m.code[a].code)
    ensures Follows(m.code, Step(m, Running(a, i, st)), Step(m', Running(a', i, st')))
  {
    hide TestChar, SpanEnd, FailState, Leads, JumpPath;
    if FailState(st).Running? {
      FailFollows(m.code, st, st');
    }
    if st.Push? && FailState(st.rest).Running? {
      FailFollows(m.code, st.rest, st'.rest);
    }
  }

  lemma StepFollows(m: Machine, m': Machine, a: int, a': int, i: nat, st: Stack, st': Stack)
    requires m.subject == m'.subject && SameInstr(m.code, a, m'.code, a') && StackLeads(m.code, st, st')
    requires !Step(m, Running(a, i, st)).Stuck?
    ensures Follows(m.code, Step(m, Running(a, i, st)), Step(m', Running(a', i, st')))
  {
    hide Step, Follows, StackLeads;
    match m.code[a].code
    case IAny | IChar => OneFollows(m, m', a, a', i, st, st');
    case ISet => SetFollows(m, m', a, a', i, st, st');
    case IBehind => BehindFollows(m, m', a, a', i, st, st');
    case ISpan => SpanFollows(m, m', a, a', i, st, st');
    case ITestAny | ITestChar => TestOneFollows(m, m', a, a', i, st, st');
    case ITestSet => TestSetFollows(m, m', a, a', i, st, st');
    case IJmp => JumpFollows(m, m', a, a', i, st, st');
    case IChoice => ChoiceFollows(m, m', a, a', i, st, st');
    case ICall => CallFollows(m, m', a, a', i, st, st');
    case ICommit | IPartialCommit | IBackCommit => CommitFollows(m, m', a, a', i, st, st');
    case _ => LeaveFollows(m, m', a, a', i, st, st');
  }

  lemma SameWords(m: Machine, m': Machine, a: int, w: int, i: nat)
    requires m.subject == m'.subject && SameInstr(m.code, a, m'.code, a)
    requires m.code[a].code in {ISet, ISpan, ITestSet} && w == if m.code[a].code == ITestSet then a + 2 else a + 1
    ensures forall c: Byte :: TestChar(m.code, w, c) == TestChar(m'.code, w, c)
    ensures SpanEnd(m, w, i) == SpanEnd(m', w, i)
  {
    forall c: Byte ensures TestChar(m.code, w, c) == TestChar(m'.code, w, c) {
      assert 0 <= c / 32 < 8;
    }
    SameSpan(m, m', w, i);
  }

  /** A change at `i` that the pass may make: every other instruction stays, and the one at `i` does the same, or does at
      once what jumps from `i` lead to. */
  ghost predicate GoodChange(code: seq<Slot>, code': seq<Slot>, i: nat) {
    && |code'| == |code|
    && (forall a :: 0 <= a < |code| && a != i && code[a].Op? && code[a].code != IOpenCall ==> SameInstr(code, a, code', a))
    && exists ft :: Leads(code, i, ft) && SameInstr(code, ft, code', i)
  }

  lemma {:induction false} RunJumps(m: Machine, a: int, b: int, k: nat, i: nat, st: Stack, n: nat)
    requires JumpPath(m.code, a, b, k) && !Run(m, Running(a, i, st), n).Running?
    ensures k <= n && Run(m, Running(b, i, st), n - k) == Run(m, Running(a, i, st), n)
    decreases k
  {
    if k > 0 {
      RunJumps(m, a + m.code[a + 1].offset, b, k - 1, i, st, n - 1);
    }
  }

  /** The next state of the new machine, and the later state of the old one that it follows */
  lemma NextFollows(m: Machine, m': Machine, c: nat, x: State, x': State, n: nat) returns (y: State, n': nat)
    requires m.subject == m'.subject && GoodChange(m.code, m'.code, c)
    requires x.Running? && Follows(m.code, x, x') && (Run(m, x, n).Matched? || Run(m, x, n).GaveUp?)
    ensures n' < n && Run(m, y, n') == Run(m, x, n)
    ensures Follows(m.code, y, Step(m', x'))
  {
    hide SameInstr;
    var (i, st, st') := (x.i, x.stack, x'.stack);
    var k: nat :| JumpPath(m.code, x.p, x'.p, k);
    RunJumps(m, x.p, x'.p, k, i, st, n);
    var p := x'.p;
    var (a, left) := (p, n - k);
    if p == c {
      var ft :| Leads(m.code, c, ft) && SameInstr(m.code, ft, m'.code, c);
      var k1: nat :| JumpPath(m.code, c, ft, k1);
      RunJumps(m, c, ft, k1, i, st, left);
      a, left := ft, left - k1;
    }
    StopsLater(m, a, i, st, left);
    y, n' := Step(m, Running(a, i, st)), left - 1;
    if p != GIVEUP {
      StepFollows(m, m', a, p, i, st, st');
    }
  }

  /** A running machine that stops without getting stuck has a next instruction to execute. */
  lemma StopsLater(m: Machine, a: int, i: nat, st: Stack, n: nat)
    requires var r := Run(m, Running(a, i, st), n); r.Matched? || r.GaveUp?
    ensures n > 0 && !Step(m, Running(a, i, st)).Stuck?
    ensures a == GIVEUP || (0 <= a < |m.code| && m.code[a].Op? && m.code[a].code != IOpenCall)
  {
    if n > 0 {
      RunStopped(m, Stuck, n - 1);
    }
  }

  /** If the old machine stops, the new one stops likewise. */
  lemma {:induction false} ChangeFollows(m: Machine, m': Machine, c: nat, x: State, x': State, n: nat) returns (r': State)
    requires m.subject == m'.subject && GoodChange(m.code, m'.code, c)
    requires Follows(m.code, x, x') && (Run(m, x, n).Matched? || Run(m, x, n).GaveUp?)
    ensures Follows(m.code, Run(m, x, n), r') && Halts(m', x', r')
    decreases n
  {
    hide GoodChange, Step;
    if !x.Running? {
      RunStopped(m, x, n);
      r' := x';
      assert Run(m', x', 0) == x';
    } else {
      var y, n' := NextFollows(m, m', c, x, x', n);
      r' := ChangeFollows(m, m', c, y, Step(m', x'), n');
      StepBack(m', x', r');
    }
  }

  function Start(i: nat): State { Running(0, i, Push(Back(GIVEUP, i), Nil)) }

  /** `r` is how a whole program stops: with nothing left on the stack but its bottom. */
  predicate Clean(r: State, i: nat) {
    match r
    case Matched(_, st) => st == Push(Back(GIVEUP, i), Nil)
    case GaveUp(st) => st == Nil
    case _ => false
  }

  /** Every result of a match with the old code is its result with the new code. */
  ghost predicate Preserves(code: seq<Slot>, code': seq<Slot>) {
    forall s: seq<Byte>, i: nat, r: State ::
      Clean(r, i) && Halts(Machine(code, s), Start(i), r) ==> Halts(Machine(code', s), Start(i), r)
  }

  lemma ChangePreserves(code: seq<Slot>, code': seq<Slot>, c: nat)
    requires GoodChange(code, code', c)
    ensures Preserves(code, code')
  {
    forall s: seq<Byte>, i: nat, r: State | Clean(r, i) && Halts(Machine(code, s), Start(i), r)
      ensures Halts(Machine(code', s), Start(i), r)
    {
      var (m, m') := (Machine(code, s), Machine(code', s));
      var n: nat :| Run(m, Start(i), n) == r;
      LeadsSelf(code, 0);
      StackLeadsSelf(code, Push(Back(GIVEUP, i), Nil));
      var r' := ChangeFollows(m, m', c, Start(i), Start(i), n);
      assert StackLeads(code, r.stack, r'.stack);
      if r.Matched? {
        assert StackLeads(code, Nil, r'.stack.rest);
        var k: nat :| JumpPath(code, GIVEUP, r'.stack.top.p, k);
        assert k == 0;
      }
      assert r' == r;
    }
  }

  // ---- The changes of the pass are good ------------------------------------------------------------------------

  lemma SelfInstr(code: seq<Slot>, code': seq<Slot>, i: nat, a: int)
    requires Parses(code, 0, 0) && |code| == |code'| && 0 <= a < |code| && a != i && i < |code| && code[i].Op?
    requires forall k :: 0 <= k < |code| && k != i && k != i + 1 ==> code'[k] == code[k]
    requires code[a].Op? && code[a].code != IOpenCall
    requires a != i + 1
    ensures SameInstr(code, a, code', a)
  {
    ParsesAt(code, 0, a);
    if HasLabel(code[a].code) {
      LeadsSelf(code, a + code[a + 1].offset);
    }
  }

  lemma {:induction false} ParsesAt(g: seq<Slot>, i: nat, k: nat)
    requires Parses(g, i, 0) && i <= k < |g| && g[k].Op?
    ensures InstrAt(g, k, 0)
    decreases |g| - i
  {
    if k != i {
      ParsesAt(g, i + Size(g[i].code), k);
    }
  }

  lemma RelabelGood(code: seq<Slot>, i: nat, target: int)
    requires Parses(code, 0, 0) && i < |code| && code[i].Op? && HasLabel(code[i].code)
    requires i + 1 < |code| && code[i + 1].Off? && Leads(code, i + code[i + 1].offset, target)
    ensures GoodChange(code, Relabel(code, i, target), i)
  {
    var code' := Relabel(code, i, target);
    ParsesAt(code, 0, i);
    forall a | 0 <= a < |code| && a != i && code[a].Op? && code[a].code != IOpenCall ensures SameInstr(code, a, code', a) {
      SelfInstr(code, code', i, a);
    }
    LeadsSelf(code, i);
    assert SameInstr(code, i, code', i);
  }

  lemma LeaveGood(code: seq<Slot>, i: nat, ft: int)
    requires Parses(code, 0, 0) && i < |code| && IsJump(code, i) && Leads(code, i, ft)
    requires 0 <= ft < |code| && code[ft].Op? && Leaves(code[ft].code)
    ensures GoodChange(code, code[i := code[ft]][i + 1 := Op(IAny, 0, 0)], i)
  {
    var code' := code[i := code[ft]][i + 1 := Op(IAny, 0, 0)];
    ParsesAt(code, 0, i);
    forall a | 0 <= a < |code| && a != i && code[a].Op? && code[a].code != IOpenCall ensures SameInstr(code, a, code', a) {
      SelfInstr(code, code', i, a);
    }
    assert SameInstr(code, ft, code', i);
  }

  lemma CommitGood(code: seq<Slot>, i: nat, ft: int, target: int)
    requires Parses(code, 0, 0) && i < |code| && IsJump(code, i) && Leads(code, i, ft)
    requires 0 <= ft && ft + 1 < |code| && code[ft].Op? && Commits(code[ft].code) && code[ft + 1].Off?
    requires Leads(code, ft + code[ft + 1].offset, target)
    ensures GoodChange(code, Relabel(code[i := code[ft]], i, target), i)
  {
    var code' := Relabel(code[i := code[ft]], i, target);
    ParsesAt(code, 0, i);
    forall a | 0 <= a < |code| && a != i && code[a].Op? && code[a].code != IOpenCall ensures SameInstr(code, a, code', a) {
      SelfInstr(code, code', i, a);
    }
    assert SameInstr(code, ft, code', i);
  }

  lemma InstrKept(code: seq<Slot>, code': seq<Slot>, c: nat, i: nat)
    requires InstrAt(code, i, 0) && |code'| == |code| && c + 1 < |code| && code[c].Op? && code[c + 1].Off? && i != c
    requires forall k :: 0 <= k < |code| && k != c && k != c + 1 ==> code'[k] == code[k]
    ensures InstrAt(code', i, 0)
  {
    var z := Size(code[i].code);
    assert !(i < c < i + z) && !(i < c + 1 < i + z) && c + 1 != i;
    forall k | i < k < i + z ensures code'[k] == code[k] {
    }
  }

  /** Changing an instruction of two slots keeps the others whole. */
  lemma {:induction false} ChangeParses(code: seq<Slot>, code': seq<Slot>, c: nat, i: nat)
    requires Parses(code, i, 0) && |code'| == |code| && c + 1 < |code| && code[c].Op?
    requires forall k :: 0 <= k < |code| && k != c && k != c + 1 ==> code'[k] == code[k]
    requires code[c + 1].Off? && (Size(code[c].code) == 2 || code'[c] == code[c])
    requires code'[c].Op? && HasLabel(code[c].code)
    requires (HasLabel(code'[c].code) && code'[c + 1].Off? && Size(code'[c].code) == Size(code[c].code))
          || (Leaves(code'[c].code) && Size(code[c].code) == 2 && code'[c + 1] == Op(IAny, 0, 0))
    ensures Parses(code', i, 0)
    decreases |code| - i
  {
    if i < |code| {
      var z := Size(code[i].code);
      ChangeParses(code, code', c, i + z);
      if i == c {
        if Leaves(code'[c].code) {
          assert InstrAt(code', c + 1, 0);
          assert Parses(code', c + 1, 0);
        }
        assert InstrAt(code', c, 0);
      } else {
        InstrKept(code, code', c, i);
      }
    }
  }

  lemma PeepInstrParses(code: seq<Slot>, i: nat)
    requires Parses(code, 0, 0) && i < |code| && code[i].Op?
    ensures HasLabel(code[i].code) ==> i + 1 < |code| && code[i + 1].Off?
    ensures var c := PeepInstr(code, i);
            Parses(c, 0, 0) && i + Size(c[i].code) <= |c| && (i + Size(c[i].code) < |c| ==> c[i + Size(c[i].code)].Op?)
  {
    hide FinalTarget, Parses;
    ParsesAt(code, 0, i);
    var c := PeepInstr(code, i);
    if HasLabel(code[i].code) {
      ChangeParses(code, c, i, 0);
    }
    ParsesAt(c, 0, i);
    NextOp(c, 0, i);
  }

  lemma {:induction false} NextOp(g: seq<Slot>, i: nat, k: nat)
    requires Parses(g, i, 0) && i <= k < |g| && g[k].Op?
    ensures k + Size(g[k].code) <= |g| && (k + Size(g[k].code) < |g| ==> g[k + Size(g[k].code)].Op?)
    decreases |g| - i
  {
    if k != i {
      NextOp(g, i + Size(g[i].code), k);
    }
  }

  /** A jump to a commit becomes that commit, and then its own label is followed. */
  lemma MovedPreserves(code: seq<Slot>, i: nat, ft: int)
    requires Parses(code, 0, 0) && IsJump(code, i) && ft == FinalTarget(code, i, |code|)
    requires 0 <= ft && ft + 1 < |code| && code[ft].Op? && Commits(code[ft].code) && code[ft + 1].Off?
    ensures Preserves(code, PeepInstr(code, i))
  {
    hide FinalTarget, Preserves, GoodChange;
    FinalTargetLeads(code, i, |code|);
    FinalTargetLeads(code, ft + code[ft + 1].offset, |code|);
    CommitGood(code, i, ft, FinalLabel(code, ft));
    var moved := Relabel(code[i := code[ft]], i, FinalLabel(code, ft));
    ChangePreserves(code, moved, i);
    ParsesAt(code, 0, i);
    ChangeParses(code, moved, i, 0);
    MovedAgain(code, moved, i, ft);
  }

  lemma MovedAgain(code: seq<Slot>, moved: seq<Slot>, i: nat, ft: int)
    requires Parses(moved, 0, 0) && IsJump(code, i) && ft == FinalTarget(code, i, |code|)
    requires 0 <= ft && ft + 1 < |code| && code[ft].Op? && Commits(code[ft].code) && code[ft + 1].Off?
    requires moved == Relabel(code[i := code[ft]], i, FinalLabel(code, ft)) && Preserves(code, moved)
    ensures Preserves(code, PeepInstr(code, i))
  {
    hide FinalTarget, Preserves, GoodChange;
    FinalTargetLeads(moved, i + moved[i + 1].offset, |code|);
    RelabelGood(moved, i, FinalLabel(moved, i));
    ChangePreserves(moved, PeepInstr(code, i), i);
    PreservesTrans(code, moved, PeepInstr(code, i));
  }

  /** One instruction: the result of every match is kept. */
  lemma PeepInstrPreserves(code: seq<Slot>, i: nat)
    requires Parses(code, 0, 0) && i < |code| && code[i].Op?
    requires HasLabel(code[i].code) ==> i + 1 < |code| && code[i + 1].Off?
    ensures Preserves(code, PeepInstr(code, i))
  {
    hide FinalTarget, Preserves, GoodChange, Parses, Leads;
    if !HasLabel(code[i].code) {
      PreservesSelf(code);
    } else if code[i].code != IJmp {
      FinalTargetLeads(code, i + code[i + 1].offset, |code|);
      RelabelGood(code, i, FinalLabel(code, i));
      ChangePreserves(code, PeepInstr(code, i), i);
    } else {
      var ft := FinalTarget(code, i, |code|);
      FinalTargetLeads(code, i, |code|);
      if 0 <= ft < |code| && code[ft].Op? && Leaves(code[ft].code) {
        LeaveGood(code, i, ft);
        ChangePreserves(code, PeepInstr(code, i), i);
      } else if 0 <= ft && ft + 1 < |code| && code[ft].Op? && Commits(code[ft].code) && code[ft + 1].Off? {
        MovedPreserves(code, i, ft);
      } else {
        LeadsFromTarget(code, i, |code|);
        RelabelGood(code, i, ft);
        ChangePreserves(code, PeepInstr(code, i), i);
      }
    }
  }

  /** Where jumps from a jump lead is where jumps from its target lead. */
  lemma LeadsFromTarget(code: seq<Slot>, i: nat, fuel: nat)
    requires IsJump(code, i) && fuel > 0
    ensures Leads(code, i + code[i + 1].offset, FinalTarget(code, i, fuel))
  {
    FinalTargetLeads(code, i + code[i + 1].offset, fuel - 1);
  }

  lemma PreservesSelf(code: seq<Slot>)
    ensures Preserves(code, code)
  {
  }

  lemma PreservesTrans(a: seq<Slot>, b: seq<Slot>, c: seq<Slot>)
    requires Preserves(a, b) && Preserves(b, c)
    ensures Preserves(a, c)
  {
  }

  /** The whole pass keeps the result of every match. */
  lemma {:induction false} PeepPreserves(code: seq<Slot>, i: nat)
    requires Parses(code, 0, 0) && (i < |code| ==> code[i].Op?)
    ensures Preserves(code, Peep(code, i))
    decreases |code| - i
  {
    hide Preserves;
    if i >= |code| {
      PreservesSelf(code);
    } else {
      PeepInstrParses(code, i);
      PeepInstrPreserves(code, i);
      var c := PeepInstr(code, i);
      PeepPreserves(c, i + Size(c[i].code));
      PreservesTrans(code, c, Peep(code, i));
    }
  }

  // ---- The chases of the pass end -------------------------------------------------------------------------------

  /** Every chase that the pass makes for the instruction at `i` ends. */
  ghost predicate InstrEnds(code: seq<Slot>, i: nat)
    requires i < |code| && code[i].Op? && (HasLabel(code[i].code) ==> i + 1 < |code| && code[i + 1].Off?)
  {
    if !HasLabel(code[i].code) then true
    else if code[i].code != IJmp then Ends(code, i + code[i + 1].offset)
    else
      && Ends(code, i)
      && var ft := FinalTarget(code, i, |code|);
         (0 <= ft && ft + 1 < |code| && code[ft].Op? && Commits(code[ft].code) && code[ft + 1].Off? ==>
            && Ends(code, ft + code[ft + 1].offset)
            && var moved := Relabel(code[i := code[ft]], i, FinalLabel(code, ft));
               Ends(moved, i + moved[i + 1].offset))
  }

  /** Every chase of the pass from slot `i` on ends. */
  ghost predicate PeepEnds(code: seq<Slot>, i: nat)
    requires Parses(code, 0, 0) && (i < |code| ==> code[i].Op?)
    decreases |code| - i
  {
    if i >= |code| then true
    else
      PeepInstrParses(code, i);
      var c := PeepInstr(code, i);
      InstrEnds(code, i) && PeepEnds(c, i + Size(c[i].code))
  }

  /** The same jumps everywhere but at `i` */
  ghost predicate SameJumps(code: seq<Slot>, code': seq<Slot>, i: nat) {
    forall k :: k != i ==> IsJump(code, k) == IsJump(code', k) && (IsJump(code, k) ==> Target(code, k) == Target(code', k))
  }

  lemma {:induction false} SameEnds(code: seq<Slot>, code': seq<Slot>, i: nat, a: int, n: nat)
    requires SameJumps(code, code', i) && Ends(code', i) && EndsIn(code, a, n)
    ensures Ends(code', a)
    decreases n
  {
    if a != i {
      if IsJump(code, a) {
        SameEnds(code, code', i, Target(code, a), n - 1);
        Onward(code', a);
      } else {
        EndsHere(code', a);
      }
    }
  }

  lemma SameEndsBoth(code: seq<Slot>, code': seq<Slot>, i: nat, a: int)
    requires SameJumps(code, code', i) && Ends(code, i) && Ends(code', i)
    ensures Ends(code, a) <==> Ends(code', a)
  {
    if Ends(code, a) {
      var n := Length(code, a);
      SameEnds(code, code', i, a, n);
    }
    if Ends(code', a) {
      var n := Length(code', a);
      SameEnds(code', code, i, a, n);
    }
  }

  lemma ChangedJumps(code: seq<Slot>, code': seq<Slot>, i: nat)
    requires |code'| == |code| && i + 1 < |code| && code[i].Op? && code'[i].Op? && code[i + 1].Off?
    requires code'[i + 1].Off? || code'[i + 1] == Op(IAny, 0, 0)
    requires forall k :: 0 <= k < |code| && k != i && k != i + 1 ==> code'[k] == code[k]
    ensures SameJumps(code, code', i)
  {
    forall k | k != i
      ensures IsJump(code, k) == IsJump(code', k) && (IsJump(code, k) ==> Target(code, k) == Target(code', k))
    {
      if 0 <= k && k + 1 < |code| && k != i + 1 && k + 1 != i {
        assert code'[k] == code[k] && code'[k + 1] == code[k + 1];
      }
    }
  }

  /** The change made at an instruction whose chase ends adds no circle there, and changes no other jump. */
  lemma PeepInstrJumps(code: seq<Slot>, i: nat)
    requires Parses(code, 0, 0) && i < |code| && code[i].Op? && Ends(code, i)
    ensures HasLabel(code[i].code) ==> i + 1 < |code| && code[i + 1].Off?
    ensures SameJumps(code, PeepInstr(code, i), i) && Ends(PeepInstr(code, i), i)
  {
    hide Parses, FinalTarget, SameJumps, Ends;
    ParsesAt(code, 0, i);
    var code' := PeepInstr(code, i);
    if !HasLabel(code[i].code) {
      assert SameJumps(code, code, i) by { SameAsItself(code, i); }
    } else {
      ChangedJumps(code, code', i);
      if IsJump(code', i) {
        var ft := FinalTarget(code, i, |code|);
        EndsExactly(code, i);
        assert Target(code', i) == ft;
        assert !IsJump(code', ft) by { NotThere(code, code', i, ft); }
        EndsHere(code', ft);
        Onward(code', i);
      } else {
        EndsHere(code', i);
      }
    }
  }

  lemma SameAsItself(code: seq<Slot>, i: nat)
    ensures SameJumps(code, code, i)
  {
  }

  lemma NotThere(code: seq<Slot>, code': seq<Slot>, i: nat, ft: int)
    requires SameJumps(code, code', i) && IsJump(code, i) && !IsJump(code, ft)
    ensures !IsJump(code', ft)
  {
  }

  /** Without circles, every chase for an instruction ends, and the change makes no circle. */
  lemma NoCircleStep(code: seq<Slot>, i: nat)
    requires Parses(code, 0, 0) && i < |code| && code[i].Op? && AllEnd(code)
    ensures HasLabel(code[i].code) ==> i + 1 < |code| && code[i + 1].Off?
    ensures InstrEnds(code, i) && AllEnd(PeepInstr(code, i))
  {
    hide Parses, FinalTarget, SameJumps, Ends, PeepInstr;
    EndsOf(code, i);
    PeepInstrJumps(code, i);
    var code' := PeepInstr(code, i);
    forall a ensures Ends(code', a) {
      EndsOf(code, a);
      SameEndsBoth(code, code', i, a);
    }
    if HasLabel(code[i].code) {
      EndsOf(code, i + code[i + 1].offset);
      var ft := FinalTarget(code, i, |code|);
      if code[i].code == IJmp && 0 <= ft && ft + 1 < |code| && code[ft].Op? && Commits(code[ft].code) && code[ft + 1].Off? {
        EndsOf(code, ft + code[ft + 1].offset);
        var moved := Relabel(code[i := code[ft]], i, FinalLabel(code, ft));
        ChangedJumps(code, moved, i);
        EndsHere(moved, i);
        EndsOf(code, i + moved[i + 1].offset);
        SameEndsBoth(code, moved, i, i + moved[i + 1].offset);
      }
    }
  }

  lemma {:induction false} NoCirclePeeps(code: seq<Slot>, i: nat)
    requires Parses(code, 0, 0) && (i < |code| ==> code[i].Op?) && AllEnd(code)
    ensures PeepEnds(code, i)
    decreases |code| - i
  {
    hide Parses, AllEnd, PeepInstr, InstrEnds;
    if i < |code| {
      PeepInstrParses(code, i);
      NoCircleStep(code, i);
      var c := PeepInstr(code, i);
      NoCirclePeeps(c, i + Size(c[i].code));
    }
  }

  /** A pass whose chases all end finds every circle on its way: there is none. */
  lemma {:induction false} PeepsNoCircle(code: seq<Slot>, i: nat)
    requires Parses(code, 0, 0) && (i < |code| ==> code[i].Op?) && PeepEnds(code, i)
    requires forall k :: k < i ==> Ends(code, k)
    ensures AllEnd(code)
    decreases |code| - i
  {
    hide Parses, PeepInstr, Ends, SameJumps;
    if i >= |code| {
      forall a ensures Ends(code, a) {
        if a >= i {
          EndsHere(code, a);
        }
      }
    } else {
      PeepInstrParses(code, i);
      if !IsJump(code, i) {
        EndsHere(code, i);
      }
      PeepInstrJumps(code, i);
      var c := PeepInstr(code, i);
      var next := i + Size(c[i].code);
      ParsesAt(c, 0, i);
      forall k | k < next ensures Ends(c, k) {
        if k <= i {
          SameEndsBoth(code, c, i, k);
        } else {
          EndsHere(c, k);
        }
      }
      PeepsNoCircle(c, next);
      forall a ensures Ends(code, a) {
        EndsOf(c, a);
        SameEndsBoth(code, c, i, a);
      }
    }
  }

  // ---- Whole programs -------------------------------------------------------------------------------------------

  /** Every chase of `correctcalls`, in every grammar that is compiled for `t`, ends. */
  ghost predicate CallsEnd(d: nat, rules: seq<Tree>, t: Tree)
    decreases t
  {
    match t
    case Rep(p) => CallsEnd(d, rules, p)
    case Seq(p1, p2) => CallsEnd(d, rules, p1) && CallsEnd(d, rules, p2)
    case Choice(p1, p2) => CallsEnd(d, rules, p1) && CallsEnd(d, rules, p2)
    case Not(p) => HeadFail(d, rules, p) || CallsEnd(d, rules, p)
    case And(p) => CallsEnd(d, rules, p)
    case Behind(_, p) => CallsEnd(d, rules, p)
    case Grammar(rs) =>
      ClosingEnds(RulesCode(d, rs, |rs|), Positions(d, rs), 0) && forall k :: 0 <= k < |rs| ==> CallsEnd(d, rs, rs[k])
    case _ => true
  }

  /** Every chase that compiling `t` makes ends. */
  ghost predicate ChasesEnd(d: nat, t: Tree)
    requires WellFormed(d, [], t)
  {
    CompileParses(d, t);
    CallsEnd(d, [], t) && PeepEnds(Compile(d, t), 0)
  }

  lemma {:induction false} NoCircleCalls(d: nat, rules: seq<Tree>, t: Tree)
    requires WellFormed(d, rules, t) && BodiesEnd(d, rules, t)
    ensures CallsEnd(d, rules, t)
    decreases t
  {
    hide HeadFail, AllEnd, ClosingEnds, RulesCode, Positions, CorrectCalls;
    match t
    case Rep(p) => NoCircleCalls(d, rules, p);
    case Seq(p1, p2) => NoCircleCalls(d, rules, p1); NoCircleCalls(d, rules, p2);
    case Choice(p1, p2) => NoCircleCalls(d, rules, p1); NoCircleCalls(d, rules, p2);
    case Not(p) => if !HeadFail(d, rules, p) { NoCircleCalls(d, rules, p); }
    case And(p) => NoCircleCalls(d, rules, p);
    case Behind(_, p) => NoCircleCalls(d, rules, p);
    case Grammar(rs) =>
      var raw := RulesCode(d, rs, |rs|);
      RulesParse(d, rs, |rs|);
      NoCircleCloses(raw, raw, Positions(d, rs), 0);
      forall k | 0 <= k < |rs| ensures CallsEnd(d, rs, rs[k]) {
        NoCircleCalls(d, rs, rs[k]);
      }
    case _ =>
  }

  /** The chases end if and only if no jumps of the code before the pass go round in a circle. */
  lemma ChasesEndExactly(d: nat, t: Tree)
    requires WellFormed(d, [], t)
    ensures ChasesEnd(d, t) <==> AllEnd(Compile(d, t))
  {
    CompileParses(d, t);
    hide Parses, Gen, AllEnd, PeepEnds, CallsEnd, BodiesEnd;
    var code := Compile(d, t);
    if AllEnd(code) {
      CirclesInBodies(d, t);
      NoCircleCalls(d, [], t);
      NoCirclePeeps(code, 0);
    } else if ChasesEnd(d, t) {
      forall k | k < 0 ensures Ends(code, k) {
        EndsHere(code, k);
      }
      PeepsNoCircle(code, 0);
    }
  }

  /** Circles can only be in the bodies of grammars. */
  lemma CirclesInBodies(d: nat, t: Tree)
    requires WellFormed(d, [], t)
    ensures AllEnd(Compile(d, t)) <==> BodiesEnd(d, [], t)
  {
    var c := Gen(d, [], t, false, NoTest, FULL);
    hide Gen, AllEnd, BodiesEnd;
    if AllEnd(Compile(d, t)) {
      PairParts(c, Ins(IEnd));
      PartsEnd(d, [], t, false, NoTest, FULL);
    }
    if BodiesEnd(d, [], t) {
      GenTidy(d, [], t, false, NoTest, FULL, Calls(t));
      TidyIns(IEnd, Calls(t));
      TidyConcat(c, Ins(IEnd), Calls(t));
    }
  }

  /** Compiling `t` ends: the analyses that it asks for do, without being stopped by the bound, and so do the chases. */
  ghost predicate CompileEnds(d: nat, t: Tree)
    requires WellFormed(d, [], t)
  {
    Ample(d, [], t) && GenAnswers(d, [], t) && ChasesEnd(d, t)
  }

  /** Compiling ends if and only if the analyses do, within an ample bound or within any, and no jumps go round in a circle. */
  lemma CompileEndsExactly(d: nat, t: Tree)
    requires WellFormed(d, [], t) && Ample(d, [], t)
    ensures CompileEnds(d, t) <==> GenAnswers(d, [], t) && AllEnd(Compile(d, t))
    ensures GenAnswers(d, [], t) <==> exists e: nat :: GenAnswers(e, [], t)
  {
    ChasesEndExactly(d, t);
    hide ChasesEnd, GenAnswers, AllEnd, Compile;
    if e: nat :| GenAnswers(e, [], t) {
      GenAnswersSettled(d, e, [], t);
    }
  }

  /** Whether compiling ends, and the code then, are the same for all ample bounds: they are what the analyses give without
      a bound. */
  lemma CompileSettled(d: nat, more: nat, t: Tree)
    requires WellFormed(d, [], t) && Ample(d, [], t) && Ample(more, [], t)
    ensures WellFormed(more, [], t) && (CompileEnds(d, t) <==> CompileEnds(more, t))
    ensures CompileEnds(d, t) ==> Optimized(more, t) == Optimized(d, t)
  {
    WellFormedSettled(d, more, [], t);
    ChasesEndExactly(d, t);
    ChasesEndExactly(more, t);
    CompileAlike(d, more, t);
    hide Ample, ChasesEnd, GenAnswers, AllEnd, Compile, WellFormed, Peep;
    CompileParses(d, t);
  }

  lemma CompileAlike(d: nat, more: nat, t: Tree)
    requires Ample(d, [], t) && Ample(more, [], t)
    ensures GenAnswers(d, [], t) <==> GenAnswers(more, [], t)
    ensures GenAnswers(d, [], t) ==> Compile(d, t) == Compile(more, t)
  {
    hide Ample, GenAnswers, Gen;
    if GenAnswers(d, [], t) {
      GenAnswersSettled(more, d, [], t);
      GenSettled(d, more, [], t, false, NoTest, FULL);
    } else if GenAnswers(more, [], t) {
      GenAnswersSettled(d, more, [], t);
    }
  }

  /** The code that a pattern is compiled to, after the peephole pass */
  ghost function Optimized(d: nat, t: Tree): seq<Slot>
    requires WellFormed(d, [], t) && ChasesEnd(d, t)
  {
    CompileParses(d, t);
    Peep(Compile(d, t), 0)
  }

  lemma CompileParses(d: nat, t: Tree)
    requires WellFormed(d, [], t)
    ensures Parses(Compile(d, t), 0, 0) && Compile(d, t)[0].Op?
  {
    hide Gen, WellFormed;
    var c := Gen(d, [], t, false, NoTest, FULL);
    GenParses(d, [], t, false, NoTest, FULL);
    ParsesIns(IEnd, 0);
    ParsesConcat(c, Ins(IEnd), 0);
    assert InstrAt(Compile(d, t), 0, 0);
  }

  /** How the machine stops when the pattern has this result */
  function Outcome(res: Result, i: nat): State {
    match res
    case Fail => GaveUp(Nil)
    case Ok(j) => Matched(j, Push(Back(GIVEUP, i), Nil))
  }

  /** The compiled and optimized code of any pattern that compiles, run on any subject from any position, stops exactly as
      recursive matching says: in failure, or at the position after the match with a balanced stack. */
  lemma OptimizedCorrect(d: nat, t: Tree, s: seq<Byte>, i: nat, fuel: nat, r: State)
    requires WellFormed(d, [], t) && ChasesEnd(d, t) && i <= |s|
    requires Match([], t, s, i, fuel).Some?
    ensures Halts(Machine(Optimized(d, t), s), Start(i), r) <==> r == Outcome(Match([], t, s, i, fuel).value, i)
  {
    hide Compile, Peep, Match, Run;
    var end := Outcome(Match([], t, s, i, fuel).value, i);
    CompileCorrect(d, t, s, i, fuel, end);
    CompileParses(d, t);
    PeepPreserves(Compile(d, t), 0);
    assert Clean(end, i) && Halts(Machine(Compile(d, t), s), Start(i), end);
    assert Halts(Machine(Optimized(d, t), s), Start(i), end);
    if Halts(Machine(Optimized(d, t), s), Start(i), r) {
      HaltsUnique(Machine(Optimized(d, t), s), Start(i), r, end);
    }
  }
}
