/** The instruction layout (lpvm.h) and the backtracking machine `match` of lpvm.c, without capture instructions.

    Code is a sequence of slots. An instruction is an opcode slot, followed by its offset slot when it has a label
    and by eight slots of character-set words when it has a set. Labels are relative to the opcode slot. */
module PegMachine {
  import opened Peg

  datatype Opcode =
    | IAny | IChar | ISet | ITestAny | ITestChar | ITestSet | ISpan | IBehind | IRet | IEnd | IChoice | IJmp | ICall
    | IOpenCall | ICommit | IPartialCommit | IBackCommit | IFailTwice | IFail

  datatype Slot =
    | Op(code: Opcode, aux: int, key: int)
    | Hole                       // space opened for an offset that is not set yet
    | Off(offset: int)
    | Word(chars: set<Byte>)     // the members of a character set that fall in one 32-bit word

  const SETWORDS := 8
  const CHARSETINSTSIZE := SETWORDS + 1
  const GIVEUP := -1             // the address of the instruction below every program

  /** `sizei` */
  function Size(op: Opcode): (n: nat)
    ensures n >= 1
  {
    match op
    case ISet | ISpan => CHARSETINSTSIZE
    case ITestSet => CHARSETINSTSIZE + 1
    case ITestChar | ITestAny | IChoice | IJmp | ICall | IOpenCall | ICommit | IPartialCommit | IBackCommit => 2
    case _ => 1
  }

  function Words(cs: set<Byte>): (w: seq<Slot>)
    ensures |w| == SETWORDS
  {
    seq(SETWORDS, k requires 0 <= k < SETWORDS => Word(set b: Byte | b in cs && b / 32 == k))
  }

  /** `testchar` on the eight words that start at `p` */
  predicate TestChar(code: seq<Slot>, p: int, c: Byte) {
    var a := p + c / 32;
    0 <= a < |code| && code[a].Word? && c in code[a].chars
  }

  predicate SetAt(code: seq<Slot>, p: int, cs: set<Byte>) {
    0 <= p && p + SETWORDS <= |code| && code[p..p + SETWORDS] == Words(cs)
  }

  lemma SetAtTest(code: seq<Slot>, p: int, cs: set<Byte>, c: Byte)
    requires SetAt(code, p, cs)
    ensures TestChar(code, p, c) <==> c in cs
  {
    assert 0 <= c / 32 < SETWORDS;
    assert code[p + c / 32] == code[p..p + SETWORDS][c / 32] == Words(cs)[c / 32];
  }

  /** What a stack entry restores: a position of the subject and an address, or only an address for a pending call. */
  datatype Entry = Back(p: int, s: nat) | Ret(p: int)
  datatype Stack = Nil | Push(top: Entry, rest: Stack)

  datatype State =
    | Running(p: int, i: nat, stack: Stack)
    | Matched(i: nat, stack: Stack)      // reached IEnd
    | GaveUp(stack: Stack)               // reached the instruction below the program
    | Stuck                              // no defined behaviour

  datatype Machine = Machine(code: seq<Slot>, subject: seq<Byte>)

  /** Backtrack: drop pending calls and resume the youngest choice. */
  function FailState(st: Stack): (x: State)
    ensures x.Running? || x.Stuck?
  {
    match st
    case Nil => Stuck
    case Push(Ret(_), rest) => FailState(rest)
    case Push(Back(p, s), rest) => Running(p, s, rest)
  }

  function SpanEnd(m: Machine, w: int, i: nat): (j: nat)
    ensures i <= j
    ensures i <= |m.subject| ==> j <= |m.subject|
    decreases |m.subject| - i
  {
    if i < |m.subject| && TestChar(m.code, w, m.subject[i]) then SpanEnd(m, w, i + 1) else i
  }

  function Jump(m: Machine, p: int, i: nat, st: Stack): State {
    if 0 <= p && p + 1 < |m.code| && m.code[p + 1].Off? then Running(p + m.code[p + 1].offset, i, st) else Stuck
  }

  function Label(m: Machine, p: int): int {
    if 0 <= p && p + 1 < |m.code| && m.code[p + 1].Off? then p + m.code[p + 1].offset else GIVEUP - 1
  }

  /** One iteration of the loop of `match`. */
  function Step(m: Machine, x: State): State {
    if !x.Running? then x
    else
      var (p, i, st, s) := (x.p, x.i, x.stack, m.subject);
      if p == GIVEUP then GaveUp(st)
      else if !(0 <= p < |m.code| && m.code[p].Op?) then Stuck
      else
        var op := m.code[p];
        match op.code
        case IEnd => Matched(i, st)
        case IRet => if st.Push? && st.top.Ret? then Running(st.top.p, i, st.rest) else Stuck
        case IAny => if i < |s| then Running(p + 1, i + 1, st) else FailState(st)
        case ITestAny => if i < |s| then Running(p + 2, i, st) else Jump(m, p, i, st)
        case IChar => if i < |s| && s[i] == op.aux then Running(p + 1, i + 1, st) else FailState(st)
        case ITestChar => if i < |s| && s[i] == op.aux then Running(p + 2, i, st) else Jump(m, p, i, st)
        case ISet =>
          if i < |s| && TestChar(m.code, p + 1, s[i]) then Running(p + CHARSETINSTSIZE, i + 1, st) else FailState(st)
        case ITestSet =>
          if i < |s| && TestChar(m.code, p + 2, s[i]) then Running(p + 1 + CHARSETINSTSIZE, i, st)
          else Jump(m, p, i, st)
        case IBehind => if op.aux < 0 then Stuck else if op.aux > i then FailState(st) else Running(p + 1, i - op.aux, st)
        case ISpan => Running(p + CHARSETINSTSIZE, SpanEnd(m, p + 1, i), st)
        case IJmp => Jump(m, p, i, st)
        case IChoice => if Jump(m, p, i, st).Running? then Running(p + 2, i, Push(Back(Label(m, p), i), st)) else Stuck
        case ICall => Jump(m, p, i, Push(Ret(p + 2), st))
        case ICommit => if st.Push? && st.top.Back? then Jump(m, p, i, st.rest) else Stuck
        case IPartialCommit =>
          if st.Push? && st.top.Back? then Jump(m, p, i, Push(Back(st.top.p, i), st.rest)) else Stuck
        case IBackCommit => if st.Push? && st.top.Back? then Jump(m, p, st.top.s, st.rest) else Stuck
        case IFailTwice => if st.Push? then FailState(st.rest) else Stuck
        case IFail => FailState(st)
        case IOpenCall => Stuck
  }

  function Run(m: Machine, x: State, n: nat): State
    decreases n
  {
    if n == 0 then x else Run(m, Step(m, x), n - 1)
  }

  /** The machine, started in `x`, stops in `r`. */
  ghost predicate Halts(m: Machine, x: State, r: State) {
    (r.Matched? || r.GaveUp?) && exists n: nat :: Run(m, x, n) == r
  }

  lemma StepBack(m: Machine, x: State, r: State)
    requires Halts(m, Step(m, x), r)
    ensures Halts(m, x, r)
  {
    var n: nat :| Run(m, Step(m, x), n) == r;
    assert Run(m, x, n + 1) == r;
  }

  lemma StepForward(m: Machine, x: State, r: State)
    requires Halts(m, x, r)
    ensures Halts(m, Step(m, x), r)
  {
    var n: nat :| Run(m, x, n) == r;
    if n == 0 {
      assert Run(m, Step(m, x), 0) == r;
    } else {
      assert Run(m, Step(m, x), n - 1) == r;
    }
  }

  /** From a state whose next state is known */
  lemma StepTo(m: Machine, x: State, y: State, r: State)
    requires Step(m, x) == y && Halts(m, y, r)
    ensures Halts(m, x, r)
  {
    StepBack(m, x, r);
  }

  lemma {:induction false} RunStopped(m: Machine, r: State, n: nat)
    requires !r.Running?
    ensures Run(m, r, n) == r
  {
    if n > 0 {
      RunStopped(m, r, n - 1);
    }
  }

  /** The machine is deterministic: it stops in at most one state. */
  lemma {:induction false} RunDeterministic(m: Machine, x: State, n1: nat, n2: nat)
    requires !Run(m, x, n1).Running? && !Run(m, x, n2).Running?
    ensures Run(m, x, n1) == Run(m, x, n2)
    decreases n1
  {
    if n1 == 0 {
      RunStopped(m, x, n2);
    } else if n2 == 0 {
      RunStopped(m, x, n1);
    } else {
      RunDeterministic(m, Step(m, x), n1 - 1, n2 - 1);
    }
  }

  lemma HaltsUnique(m: Machine, x: State, r1: State, r2: State)
    requires Halts(m, x, r1) && Halts(m, x, r2)
    ensures r1 == r2
  {
    var n1: nat :| Run(m, x, n1) == r1;
    var n2: nat :| Run(m, x, n2) == r2;
    RunDeterministic(m, x, n1, n2);
  }

  /** The stack that an array with its youngest entry last stands for */
  function StackOf(es: seq<Entry>): Stack {
    if |es| == 0 then Nil else Push(es[|es| - 1], StackOf(es[..|es| - 1]))
  }

  lemma StackPush(es: seq<Entry>, e: Entry)
    ensures StackOf(es + [e]) == Push(e, StackOf(es))
  {
    assert (es + [e])[..|es|] == es;
  }

  /** Pattern failed: drop pending calls and take the youngest choice */
  method Backtrack(es: seq<Entry>) returns (p: int, i: nat, rest: seq<Entry>)
    requires FailState(StackOf(es)).Running?
    ensures Running(p, i, StackOf(rest)) == FailState(StackOf(es))
  {
    rest := es;
    while rest[|rest| - 1].Ret?
      invariant FailState(StackOf(rest)) == FailState(StackOf(es)) && |rest| > 0
      decreases |rest|
    {
      rest := rest[..|rest| - 1];
      assert |rest| > 0;
    }
    p, i, rest := rest[|rest| - 1].p, rest[|rest| - 1].s, rest[..|rest| - 1];
  }

  method Span(m: Machine, w: int, i: nat) returns (j: nat)
    ensures j == SpanEnd(m, w, i)
  {
    j := i;
    while j < |m.subject| && TestChar(m.code, w, m.subject[j])
      invariant i <= j && SpanEnd(m, w, j) == SpanEnd(m, w, i)
    {
      j := j + 1;
    }
  }

  /** `match`: the loop over instructions, with the registers and the stack updated in place. On arbitrary code the
      original need not stop; `bound` is a number of steps after which it has. The result is the position after the
      match, or `Fail`. */
  method Exec(m: Machine, start: nat, ghost bound: nat) returns (r: Result)
    requires var last := Run(m, Running(0, start, Push(Back(GIVEUP, start), Nil)), bound); last.Matched? || last.GaveUp?
    ensures var last := Run(m, Running(0, start, Push(Back(GIVEUP, start), Nil)), bound);
            r == if last.Matched? then Ok(last.i) else Fail
  {
    hide TestChar, SpanEnd;
    var (code, s) := (m.code, m.subject);
    ghost var last := Run(m, Running(0, start, Push(Back(GIVEUP, start), Nil)), bound);
    var p: int, i: nat := 0, start;
    var stack := [Back(GIVEUP, start)];
    ghost var left := bound;
    assert StackOf(stack) == Push(Back(GIVEUP, start), Nil);
    while true
      invariant Run(m, Running(p, i, StackOf(stack)), left) == last
      decreases left
    {
      ghost var here := Running(p, i, StackOf(stack));
      assert left > 0;
      assert Run(m, Step(m, here), left - 1) == last;
      RunStopped(m, Stuck, left - 1);
      left := left - 1;
      var fail := false;
      if p == GIVEUP {
        RunStopped(m, GaveUp(StackOf(stack)), left);
        return Fail;
      }
      var op := code[p];
      match op.code {
        case IEnd =>
          RunStopped(m, Matched(i, StackOf(stack)), left);
          return Ok(i);
        case IRet =>
          p, stack := stack[|stack| - 1].p, stack[..|stack| - 1];
        case IAny =>
          if i < |s| { p, i := p + 1, i + 1; } else { fail := true; }
        case ITestAny =>
          if i < |s| { p := p + 2; } else { p := p + code[p + 1].offset; }
        case IChar =>
          if i < |s| && s[i] == op.aux { p, i := p + 1, i + 1; } else { fail := true; }
        case ITestChar =>
          if i < |s| && s[i] == op.aux { p := p + 2; } else { p := p + code[p + 1].offset; }
        case ISet =>
          if i < |s| && TestChar(code, p + 1, s[i]) { p, i := p + CHARSETINSTSIZE, i + 1; } else { fail := true; }
        case ITestSet =>
          if i < |s| && TestChar(code, p + 2, s[i]) { p := p + 1 + CHARSETINSTSIZE; }
          else { p := p + code[p + 1].offset; }
        case IBehind =>
          if op.aux > i { fail := true; } else { p, i := p + 1, i - op.aux; }
        case ISpan =>
          i := Span(m, p + 1, i);
          p := p + CHARSETINSTSIZE;
        case IJmp =>
          p := p + code[p + 1].offset;
        case IChoice =>
          StackPush(stack, Back(p + code[p + 1].offset, i));
          stack := stack + [Back(p + code[p + 1].offset, i)];
          p := p + 2;
        case ICall =>
          StackPush(stack, Ret(p + 2));
          stack := stack + [Ret(p + 2)];
          p := p + code[p + 1].offset;
        case ICommit =>
          p, stack := p + code[p + 1].offset, stack[..|stack| - 1];
        case IPartialCommit =>
          StackPush(stack[..|stack| - 1], Back(stack[|stack| - 1].p, i));
          p, stack := p + code[p + 1].offset, stack[..|stack| - 1] + [Back(stack[|stack| - 1].p, i)];
        case IBackCommit =>
          i := stack[|stack| - 1].s;
          p, stack := p + code[p + 1].offset, stack[..|stack| - 1];
        case IFailTwice =>
          stack := stack[..|stack| - 1];
          fail := true;
        case IFail =>
          fail := true;
        case IOpenCall =>
          assert false;
      }
      if fail {
        p, i, stack := Backtrack(stack);
      }
    }
  }
}
