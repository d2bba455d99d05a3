/** When following jumps ends. The chase of the original (`finaltarget`) has no bound; it ends from every address exactly
    when no jumps lead round in a circle, and then after fewer jumps than there are slots. */
module PegChase {
  import opened Peg
  import opened PegAnalysis
  import opened PegMachine
  import opened PegGen
  import opened PegLayout
  import opened PegJumps
  import opened PegGrammar

  /** From `a`, `n` jumps lead to something else than a jump. */
  ghost predicate EndsIn(code: seq<Slot>, a: int, n: nat)
    decreases n
  {
    if n == 0 then !IsJump(code, a) else IsJump(code, a) && EndsIn(code, Target(code, a), n - 1)
  }

  ghost predicate Ends(code: seq<Slot>, a: int) {
    exists n: nat :: EndsIn(code, a, n)
  }

  /** No jumps go round in a circle. */
  ghost predicate AllEnd(code: seq<Slot>) {
    forall a :: Ends(code, a)
  }

  lemma Length(code: seq<Slot>, a: int) returns (n: nat)
    requires Ends(code, a)
    ensures EndsIn(code, a, n)
  {
    n :| EndsIn(code, a, n);
  }

  // ---- A chase that ends is short ---------------------------------------------------------------------------------

  lemma {:induction false} OneLength(code: seq<Slot>, a: int, n: nat, m: nat)
    requires EndsIn(code, a, n) && EndsIn(code, a, m)
    ensures n == m
    decreases n
  {
    if n > 0 {
      OneLength(code, Target(code, a), n - 1, m - 1);
    }
  }

  /** The jumps on the way */
  ghost function Visited(code: seq<Slot>, a: int, n: nat): set<int>
    requires EndsIn(code, a, n)
    decreases n
  {
    if n == 0 then {} else Visited(code, Target(code, a), n - 1) + {a}
  }

  lemma {:induction false} VisitedJumps(code: seq<Slot>, a: int, n: nat, x: int) returns (m: nat)
    requires EndsIn(code, a, n) && x in Visited(code, a, n)
    ensures IsJump(code, x) && m <= n && EndsIn(code, x, m)
    decreases n
  {
    if x == a {
      m := n;
    } else {
      m := VisitedJumps(code, Target(code, a), n - 1, x);
    }
  }

  /** They are all different. */
  lemma {:induction false} VisitedSize(code: seq<Slot>, a: int, n: nat)
    requires EndsIn(code, a, n)
    ensures |Visited(code, a, n)| == n
    decreases n
  {
    if n > 0 {
      VisitedSize(code, Target(code, a), n - 1);
      if a in Visited(code, Target(code, a), n - 1) {
        var m := VisitedJumps(code, Target(code, a), n - 1, a);
        OneLength(code, a, n, m);
      }
    }
  }

  function Below(n: nat): set<int> {
    if n == 0 then {} else Below(n - 1) + {n - 1}
  }

  lemma {:induction false} InBelow(x: nat, n: nat)
    requires x < n
    ensures x in Below(n)
  {
    if x < n - 1 {
      InBelow(x, n - 1);
    }
  }

  lemma {:induction false} SubsetSize(v: set<int>, n: nat)
    requires v <= Below(n)
    ensures |v| <= n
  {
    if n > 0 {
      SubsetSize(v - {n - 1}, n - 1);
    }
  }

  /** There are no more jumps on the way than slots. */
  lemma EndsShort(code: seq<Slot>, a: int, n: nat)
    requires EndsIn(code, a, n)
    ensures n <= |code|
  {
    forall x | x in Visited(code, a, n) ensures x in Below(|code|) {
      var m := VisitedJumps(code, a, n, x);
      InBelow(x, |code|);
    }
    VisitedSize(code, a, n);
    SubsetSize(Visited(code, a, n), |code|);
  }

  lemma {:induction false} EndsAt(code: seq<Slot>, a: int, n: nat, fuel: nat)
    requires EndsIn(code, a, n) && n <= fuel
    ensures FinalTarget(code, a, fuel) == FinalTarget(code, a, n) && !IsJump(code, FinalTarget(code, a, n))
    decreases n
  {
    if n > 0 {
      EndsAt(code, Target(code, a), n - 1, fuel - 1);
    }
  }

  lemma {:induction false} EndsBack(code: seq<Slot>, a: int, fuel: nat)
    requires !IsJump(code, FinalTarget(code, a, fuel))
    ensures Ends(code, a)
    decreases fuel
  {
    if IsJump(code, a) {
      EndsBack(code, Target(code, a), fuel - 1);
      Onward(code, a);
    } else {
      assert EndsIn(code, a, 0);
    }
  }

  lemma Onward(code: seq<Slot>, a: int)
    requires IsJump(code, a)
    ensures Ends(code, a) <==> Ends(code, Target(code, a))
  {
    if Ends(code, a) {
      var n: nat :| EndsIn(code, a, n);
      assert EndsIn(code, Target(code, a), n - 1);
    }
    if Ends(code, Target(code, a)) {
      var n: nat :| EndsIn(code, Target(code, a), n);
      assert EndsIn(code, a, n + 1);
    }
  }

  lemma EndsHere(code: seq<Slot>, a: int)
    requires !IsJump(code, a)
    ensures Ends(code, a)
  {
    assert EndsIn(code, a, 0);
  }

  /** The chase ends if and only if cutting it after as many jumps as there are slots finds something else than a jump; more
      jumps find nothing else. */
  lemma EndsExactly(code: seq<Slot>, a: int)
    ensures Ends(code, a) <==> !IsJump(code, FinalTarget(code, a, |code|))
    ensures Ends(code, a) ==> forall fuel: nat :: fuel >= |code| ==> FinalTarget(code, a, fuel) == FinalTarget(code, a, |code|)
  {
    if Ends(code, a) {
      var n: nat :| EndsIn(code, a, n);
      EndsShort(code, a, n);
      forall fuel: nat | fuel >= |code| ensures FinalTarget(code, a, fuel) == FinalTarget(code, a, n) {
        EndsAt(code, a, n, fuel);
      }
      EndsAt(code, a, n, |code|);
    } else if !IsJump(code, FinalTarget(code, a, |code|)) {
      EndsBack(code, a, |code|);
    }
  }

  // ---- Code inside other code -------------------------------------------------------------------------------------

  /** Every jump of `g` is a jump of `code`, `base` slots further on. */
  ghost predicate Embedded(g: seq<Slot>, code: seq<Slot>, base: int) {
    forall k :: IsJump(g, k) ==> IsJump(code, base + k) && Target(code, base + k) == base + Target(g, k)
  }

  lemma {:induction false} EmbeddedEnds(g: seq<Slot>, code: seq<Slot>, base: int, a: int, n: nat)
    requires Embedded(g, code, base) && EndsIn(code, base + a, n)
    ensures Ends(g, a)
    decreases n
  {
    if IsJump(g, a) {
      EmbeddedEnds(g, code, base, Target(g, a), n - 1);
      Onward(g, a);
    } else {
      EndsHere(g, a);
    }
  }

  /** What is inside code without circles has none. */
  lemma EmbeddedAllEnd(g: seq<Slot>, code: seq<Slot>, base: int)
    requires Embedded(g, code, base) && AllEnd(code)
    ensures AllEnd(g)
  {
    forall a ensures Ends(g, a) {
      var n := Length(code, base + a);
      EmbeddedEnds(g, code, base, a, n);
    }
  }

  lemma PartEmbedded(g: seq<Slot>, code: seq<Slot>, base: nat)
    requires base + |g| <= |code| && code[base..base + |g|] == g
    ensures Embedded(g, code, base)
  {
    forall k | IsJump(g, k) ensures IsJump(code, base + k) && Target(code, base + k) == base + Target(g, k) {
      assert code[base + k] == code[base..base + |g|][k] && code[base + k + 1] == code[base..base + |g|][k + 1];
    }
  }

  // ---- Fragments --------------------------------------------------------------------------------------------------

  /** A fragment without circles, whose jumps stay behind its start and whose open calls go to rules of `calls` */
  ghost predicate Tidy(g: seq<Slot>, calls: set<nat>) {
    && AllEnd(g)
    && (forall k :: IsJump(g, k) ==> Target(g, k) >= 0)
    && StartsWithOp(g)
    && (forall k :: IsOp(g, k, IOpenCall) ==> g[k].key in calls)
  }

  lemma {:induction false} LaterEnds(g1: seq<Slot>, g2: seq<Slot>, a: nat, n: nat)
    requires EndsIn(g2, a, n) && forall k :: IsJump(g2, k) ==> Target(g2, k) >= 0
    ensures Ends(g1 + g2, |g1| + a)
    decreases n
  {
    var g := g1 + g2;
    assert IsJump(g, |g1| + a) <==> IsJump(g2, a);
    if IsJump(g2, a) {
      LaterEnds(g1, g2, Target(g2, a), n - 1);
      Onward(g, |g1| + a);
    } else {
      EndsHere(g, |g1| + a);
    }
  }

  lemma {:induction false} EarlierEnds(g1: seq<Slot>, g2: seq<Slot>, a: int, n: nat, calls: set<nat>)
    requires EndsIn(g1, a, n) && Tidy(g2, calls)
    ensures Ends(g1 + g2, a)
    decreases n
  {
    var g := g1 + g2;
    if a >= |g1| {
      var m := Length(g2, a - |g1|);
      LaterEnds(g1, g2, a - |g1|, m);
    } else {
      assert IsJump(g, a) <==> IsJump(g1, a);
      if IsJump(g1, a) {
        EarlierEnds(g1, g2, Target(g1, a), n - 1, calls);
        Onward(g, a);
      } else {
        EndsHere(g, a);
      }
    }
  }

  /** One fragment after the other */
  lemma TidyConcat(g1: seq<Slot>, g2: seq<Slot>, calls: set<nat>)
    requires Tidy(g1, calls) && Tidy(g2, calls)
    ensures Tidy(g1 + g2, calls)
  {
    var g := g1 + g2;
    forall a ensures Ends(g, a) {
      var n := Length(g1, a);
      EarlierEnds(g1, g2, a, n, calls);
    }
    forall k | IsJump(g, k) ensures Target(g, k) >= 0 {
      if k < |g1| {
        assert k + 1 != |g1|;
        assert IsJump(g1, k);
      } else {
        assert IsJump(g2, k - |g1|);
      }
    }
    forall k | IsOp(g, k, IOpenCall) ensures g[k].key in calls {
      assert if k < |g1| then IsOp(g1, k, IOpenCall) else IsOp(g2, k - |g1|, IOpenCall);
    }
  }

  /** Code in which every jump leads to its end or beyond */
  lemma TidyOut(g: seq<Slot>, calls: set<nat>)
    requires StartsWithOp(g) && forall k :: IsJump(g, k) ==> Target(g, k) >= |g|
    requires forall k :: IsOp(g, k, IOpenCall) ==> g[k].key in calls
    ensures Tidy(g, calls)
  {
    forall a ensures Ends(g, a) {
      if IsJump(g, a) {
        EndsHere(g, Target(g, a));
        Onward(g, a);
      } else {
        EndsHere(g, a);
      }
    }
  }

  lemma TidyIns(op: Opcode, calls: set<nat>)
    requires op != IOpenCall
    ensures Tidy(Ins(op), calls)
  {
    TidyOut(Ins(op), calls);
  }

  lemma TidyInsTo(op: Opcode, offset: int, calls: set<nat>)
    requires op != IOpenCall && (op == IJmp ==> offset >= 2)
    ensures Tidy(InsTo(op, offset), calls)
  {
    TidyOut(InsTo(op, offset), calls);
  }

  lemma TidyTest(cs: set<Byte>, offset: int, calls: set<nat>)
    requires offset >= TestLen(cs)
    ensures Tidy(GenTest(cs, offset), calls)
  {
    TidyOut(GenTest(cs, offset), calls);
  }

  lemma TidyOptTest(f: First, rest: nat, calls: set<nat>)
    ensures Tidy(OptTest(f, rest), calls)
  {
    if f.empty {
      TidyOut([], calls);
    } else {
      TidyTest(f.cs, TestLen(f.cs) + rest, calls);
    }
  }

  /** A jump back to the start, from the end, behind code that cannot reach its end by jumps from its start */
  lemma TidyLoop(h: seq<Slot>, calls: set<nat>)
    requires Tidy(h, calls) && h != []
    requires IsJump(h, 0) ==> Target(h, 0) >= |h| + 2
    ensures Tidy(h + InsTo(IJmp, -|h|), calls)
  {
    var g := h + InsTo(IJmp, -|h|);
    forall k | IsJump(g, k) ensures k == |h| || (IsJump(h, k) && Target(g, k) == Target(h, k)) {
      assert k + 1 != |h|;
    }
    assert Ends(g, 0) by {
      if IsJump(g, 0) {
        EndsHere(g, Target(g, 0));
        Onward(g, 0);
      } else {
        EndsHere(g, 0);
      }
    }
    assert IsJump(g, |h|) && Target(g, |h|) == 0;
    Onward(g, |h|);
    forall a ensures Ends(g, a) {
      var n := Length(h, a);
      LoopEnds(h, g, a, n);
    }
    forall k | IsOp(g, k, IOpenCall) ensures g[k].key in calls {
      assert k < |h| && IsOp(h, k, IOpenCall);
    }
  }

  lemma {:induction false} LoopEnds(h: seq<Slot>, g: seq<Slot>, a: int, n: nat)
    requires EndsIn(h, a, n) && Ends(g, |h|)
    requires forall k :: IsJump(g, k) ==> k == |h| || (IsJump(h, k) && Target(g, k) == Target(h, k))
    ensures Ends(g, a)
    decreases n
  {
    if a != |h| {
      if IsJump(g, a) {
        LoopEnds(h, g, Target(h, a), n - 1);
        Onward(g, a);
      } else {
        EndsHere(g, a);
      }
    }
  }

  // ---- The code of every pattern ----------------------------------------------------------------------------------

  lemma TidyTestedChoice(cs: set<Byte>, c1: seq<Slot>, emptyp2: bool, c2: seq<Slot>, calls: set<nat>)
    requires Tidy(c1, calls) && Tidy(c2, calls)
    ensures Tidy(AsmTestedChoice(cs, c1, emptyp2, c2), calls)
  {
    hide Tidy, GenTest, InsTo;
    var offset := TestLen(cs) + |c1| + (if emptyp2 then 0 else 2);
    TidyTest(cs, offset, calls);
    TidyConcat(GenTest(cs, offset), c1, calls);
    if emptyp2 {
      TidyConcat(GenTest(cs, offset) + c1, c2, calls);
    } else {
      TidyInsTo(IJmp, 2 + |c2|, calls);
      TidyConcat(GenTest(cs, offset) + c1, InsTo(IJmp, 2 + |c2|), calls);
      TidyConcat(GenTest(cs, offset) + c1 + InsTo(IJmp, 2 + |c2|), c2, calls);
    }
  }

  lemma TidyChoice(f: First, c1: seq<Slot>, c2: seq<Slot>, calls: set<nat>)
    requires Tidy(c1, calls) && Tidy(c2, calls)
    ensures Tidy(AsmChoice(f, c1, c2), calls)
  {
    hide Tidy, OptTest, InsTo;
    var (g0, g1, g2) := (OptTest(f, 2 + |c1| + 2), InsTo(IChoice, 2 + |c1| + 2), InsTo(ICommit, 2 + |c2|));
    TidyOptTest(f, 2 + |c1| + 2, calls);
    TidyInsTo(IChoice, 2 + |c1| + 2, calls);
    TidyInsTo(ICommit, 2 + |c2|, calls);
    TidyConcat(g0, g1, calls);
    TidyConcat(g0 + g1, c1, calls);
    TidyConcat(g0 + g1 + c1, g2, calls);
    TidyConcat(g0 + g1 + c1 + g2, c2, calls);
  }

  lemma TidyTestedRep(cs: set<Byte>, c: seq<Slot>, calls: set<nat>)
    requires Tidy(c, calls)
    ensures Tidy(AsmTestedRep(cs, c), calls)
  {
    var g0 := GenTest(cs, TestLen(cs) + |c| + 2);
    TidyTest(cs, TestLen(cs) + |c| + 2, calls);
    TidyConcat(g0, c, calls);
    assert IsJump(g0 + c, 0) ==> IsJump(g0, 0);
    hide Tidy;
    TidyLoop(g0 + c, calls);
  }

  lemma TidyRep(f: First, opt: bool, c: seq<Slot>, calls: set<nat>)
    requires Tidy(c, calls)
    ensures Tidy(AsmRep(f, opt, c), calls)
  {
    hide Tidy, OptTest, InsTo;
    var g0 := OptTest(f, 2 + |c| + 2);
    var g1 := if opt then InsTo(IPartialCommit, 2) else InsTo(IChoice, 2 + |c| + 2);
    TidyOptTest(f, 2 + |c| + 2, calls);
    TidyInsTo(IPartialCommit, 2, calls);
    TidyInsTo(IChoice, 2 + |c| + 2, calls);
    TidyInsTo(IPartialCommit, -|c|, calls);
    TidyConcat(g0, g1, calls);
    TidyConcat(g0 + g1, c, calls);
    TidyConcat(g0 + g1 + c, InsTo(IPartialCommit, -|c|), calls);
  }

  lemma TidyNot(f: First, c: seq<Slot>, calls: set<nat>)
    requires Tidy(c, calls)
    ensures Tidy(AsmNot(f, c), calls)
  {
    hide Tidy, OptTest, InsTo, Ins;
    var (g0, g1) := (OptTest(f, 2 + |c| + 1), InsTo(IChoice, 2 + |c| + 1));
    TidyOptTest(f, 2 + |c| + 1, calls);
    TidyInsTo(IChoice, 2 + |c| + 1, calls);
    TidyIns(IFailTwice, calls);
    TidyConcat(g0, g1, calls);
    TidyConcat(g0 + g1, c, calls);
    TidyConcat(g0 + g1 + c, Ins(IFailTwice), calls);
  }

  lemma TidyAnd(c: seq<Slot>, calls: set<nat>)
    requires Tidy(c, calls)
    ensures Tidy(AsmAnd(c), calls)
  {
    hide Tidy, InsTo, Ins;
    var (g0, g1) := (InsTo(IChoice, 2 + |c| + 2), InsTo(IBackCommit, 3));
    TidyInsTo(IChoice, 2 + |c| + 2, calls);
    TidyInsTo(IBackCommit, 3, calls);
    TidyIns(IFail, calls);
    TidyConcat(g0, c, calls);
    TidyConcat(g0 + c, g1, calls);
    TidyConcat(g0 + c + g1, Ins(IFail), calls);
  }

  /** In no grammar inside the pattern, in whatever rule, jumps go round in a circle. (The body of a negation that fails on
      its head is not compiled.) */
  ghost predicate BodiesEnd(d: nat, rules: seq<Tree>, t: Tree)
    decreases t
  {
    match t
    case Rep(p) => BodiesEnd(d, rules, p)
    case Seq(p1, p2) => BodiesEnd(d, rules, p1) && BodiesEnd(d, rules, p2)
    case Choice(p1, p2) => BodiesEnd(d, rules, p1) && BodiesEnd(d, rules, p2)
    case Not(p) => HeadFail(d, rules, p) || BodiesEnd(d, rules, p)
    case And(p) => BodiesEnd(d, rules, p)
    case Behind(_, p) => BodiesEnd(d, rules, p)
    case Grammar(rs) => AllEnd(Body(d, rs)) && forall k :: 0 <= k < |rs| ==> BodiesEnd(d, rs, rs[k])
    case _ => true
  }

  /** Outside the bodies of grammars jumps never go round in a circle. */
  lemma {:induction false} GenTidy(d: nat, rules: seq<Tree>, t: Tree, opt: bool, tt: Test, fl: set<Byte>, calls: set<nat>)
    requires WellFormed(d, rules, t) && BodiesEnd(d, rules, t) && Calls(t) <= calls
    ensures Tidy(Gen(d, rules, t, opt, tt, fl), calls)
    decreases t, 1
  {
    hide GetFirst, HeadFail, FixedLen, ChoiceTested, RepTested, Classify, Tidy;
    match t
    case Choice(p1, p2) => ChoiceTidy(d, rules, p1, p2, opt, tt, fl, calls);
    case Rep(p) => RepTidy(d, rules, p, opt, tt, fl, calls);
    case Not(p) => NotTidy(d, rules, p, opt, tt, fl, calls);
    case And(p) => AndTidy(d, rules, p, opt, tt, fl, calls);
    case Behind(k, p) =>
      GenTidy(d, rules, p, false, NoTest, FULL, calls);
      TidyOut(GenBehind(k), calls);
      TidyConcat(GenBehind(k), Gen(d, rules, p, false, NoTest, FULL), calls);
    case Seq(p1, p2) =>
      var fl1 := SeqFollow(d, rules, p1, p2, fl);
      var tt2 := if FixedLen(d, rules, p1) != 0 then NoTest else tt;
      GenTidy(d, rules, p1, false, tt, fl1, calls);
      GenTidy(d, rules, p2, opt, tt2, fl, calls);
      TidyConcat(Gen(d, rules, p1, false, tt, fl1), Gen(d, rules, p2, opt, tt2, fl), calls);
    case Grammar(rs) => GrammarTidy(d, rs, calls);
    case _ => TidyOut(Gen(d, rules, t, opt, tt, fl), calls);
  }

  lemma {:induction false} ChoiceTidy(d: nat, rules: seq<Tree>, p1: Tree, p2: Tree, opt: bool, tt: Test, fl: set<Byte>, calls: set<nat>)
    requires WellFormed(d, rules, Choice(p1, p2)) && BodiesEnd(d, rules, Choice(p1, p2)) && Calls(Choice(p1, p2)) <= calls
    ensures Tidy(Gen(d, rules, Choice(p1, p2), opt, tt, fl), calls)
    decreases Choice(p1, p2), 0
  {
    hide GetFirst, HeadFail, ChoiceTested, Classify, Tidy;
    var f1 := GetFirst(d, rules, p1, FULL);
    GenTidy(d, rules, p2, opt, NoTest, fl, calls);
    if ChoiceTested(d, rules, p1, p2, fl) {
      GenTidy(d, rules, p1, false, TestOf(f1.cs), fl, calls);
      TidyTestedChoice(f1.cs, Gen(d, rules, p1, false, TestOf(f1.cs), fl), p2.True?, Gen(d, rules, p2, opt, NoTest, fl), calls);
    } else if opt && p2.True? {
      GenTidy(d, rules, p1, true, NoTest, FULL, calls);
      TidyInsTo(IPartialCommit, 2, calls);
      TidyConcat(InsTo(IPartialCommit, 2), Gen(d, rules, p1, true, NoTest, FULL), calls);
    } else {
      GenTidy(d, rules, p1, p2.True?, OptTestOf(f1), FULL, calls);
      TidyChoice(f1, Gen(d, rules, p1, p2.True?, OptTestOf(f1), FULL), Gen(d, rules, p2, opt, NoTest, fl), calls);
    }
  }

  lemma {:induction false} RepTidy(d: nat, rules: seq<Tree>, p: Tree, opt: bool, tt: Test, fl: set<Byte>, calls: set<nat>)
    requires WellFormed(d, rules, Rep(p)) && BodiesEnd(d, rules, Rep(p)) && Calls(Rep(p)) <= calls
    ensures Tidy(Gen(d, rules, Rep(p), opt, tt, fl), calls)
    decreases Rep(p), 0
  {
    hide GetFirst, HeadFail, RepTested, Classify, Tidy;
    match ToCharset(p)
    case Some(cs) => TidyOut(Ins(ISpan) + Words(cs), calls);
    case None =>
      var f := GetFirst(d, rules, p, FULL);
      if RepTested(d, rules, p, fl) {
        GenTidy(d, rules, p, false, TestOf(f.cs), FULL, calls);
        TidyTestedRep(f.cs, Gen(d, rules, p, false, TestOf(f.cs), FULL), calls);
      } else {
        GenTidy(d, rules, p, false, NoTest, FULL, calls);
        TidyRep(f, opt, Gen(d, rules, p, false, NoTest, FULL), calls);
      }
  }

  lemma {:induction false} NotTidy(d: nat, rules: seq<Tree>, p: Tree, opt: bool, tt: Test, fl: set<Byte>, calls: set<nat>)
    requires WellFormed(d, rules, Not(p)) && BodiesEnd(d, rules, Not(p)) && Calls(Not(p)) <= calls
    ensures Tidy(Gen(d, rules, Not(p), opt, tt, fl), calls)
    decreases Not(p), 0
  {
    NotCode(d, rules, p, opt, tt, fl);
    hide GetFirst, HeadFail, Tidy, OptTest, AsmNot, Gen, Ins;
    var f := GetFirst(d, rules, p, FULL);
    if HeadFail(d, rules, p) {
      TidyOptTest(f, 1, calls);
      TidyIns(IFail, calls);
      TidyConcat(OptTest(f, 1), Ins(IFail), calls);
    } else {
      GenTidy(d, rules, p, false, NoTest, FULL, calls);
      TidyNot(f, Gen(d, rules, p, false, NoTest, FULL), calls);
    }
  }

  lemma {:induction false} AndTidy(d: nat, rules: seq<Tree>, p: Tree, opt: bool, tt: Test, fl: set<Byte>, calls: set<nat>)
    requires WellFormed(d, rules, And(p)) && BodiesEnd(d, rules, And(p)) && Calls(And(p)) <= calls
    ensures Tidy(Gen(d, rules, And(p), opt, tt, fl), calls)
    decreases And(p), 0
  {
    hide GetFirst, HeadFail, Classify, Tidy;
    var c := Gen(d, rules, p, false, tt, FULL);
    GenTidy(d, rules, p, false, tt, FULL, calls);
    if 0 <= FixedLen(d, rules, p) <= MAXBEHIND {
      TidyOut(GenBehind(FixedLen(d, rules, p)), calls);
      TidyConcat(c, GenBehind(FixedLen(d, rules, p)), calls);
    } else {
      TidyAnd(c, calls);
    }
  }

  lemma GrammarTidy(d: nat, rs: seq<Tree>, calls: set<nat>)
    requires |rs| > 0 && (forall j :: 0 <= j < |rs| ==> WellFormed(d, rs, rs[j])) && AllEnd(Body(d, rs))
    ensures var body := Body(d, rs);
            Tidy(InsTo(ICall, 4) + InsTo(IJmp, 2 + |body|) + body, calls)
  {
    BodyJumps(d, rs);
    NoneOpen(d, rs);
    hide Body, AllEnd;
    var body := Body(d, rs);
    assert Tidy(body, calls);
    hide Tidy;
    TidyInsTo(ICall, 4, calls);
    TidyInsTo(IJmp, 2 + |body|, calls);
    TidyConcat(InsTo(ICall, 4), InsTo(IJmp, 2 + |body|), calls);
    TidyConcat(InsTo(ICall, 4) + InsTo(IJmp, 2 + |body|), body, calls);
  }

  /** What closing the calls of a grammar does to each slot */
  lemma BodyClosed(d: nat, rs: seq<Tree>)
    requires forall j :: 0 <= j < |rs| ==> WellFormed(d, rs, rs[j])
    ensures var raw := RulesCode(d, rs, |rs|);
            Parses(raw, 0, |rs|) && forall k :: 0 <= k < |raw| ==> Closed(Body(d, rs), Positions(d, rs), raw, k)
  {
    hide CorrectCalls, RulesCode, Positions;
    var raw := RulesCode(d, rs, |rs|);
    RulesParse(d, rs, |rs|);
    CorrectCallsOk(raw, raw, Positions(d, rs), 0);
  }

  lemma NoneOpen(d: nat, rs: seq<Tree>)
    requires forall j :: 0 <= j < |rs| ==> WellFormed(d, rs, rs[j])
    ensures forall k :: !IsOp(Body(d, rs), k, IOpenCall)
  {
    BodyClosed(d, rs);
    hide Parses, SlotOk;
    forall k ensures !IsOp(Body(d, rs), k, IOpenCall) {
      if 0 <= k < |Body(d, rs)| {
        assert Closed(Body(d, rs), Positions(d, rs), RulesCode(d, rs, |rs|), k);
      }
    }
  }

  // ---- From the whole code back to its parts ----------------------------------------------------------------------

  lemma SliceAllEnd(code: seq<Slot>, base: nat, g: seq<Slot>)
    requires AllEnd(code) && base + |g| <= |code| && code[base..base + |g|] == g
    ensures AllEnd(g)
  {
    PartEmbedded(g, code, base);
    EmbeddedAllEnd(g, code, base);
  }

  lemma PairParts(c1: seq<Slot>, c2: seq<Slot>)
    requires AllEnd(c1 + c2)
    ensures AllEnd(c1) && AllEnd(c2)
  {
    hide AllEnd;
    SliceAllEnd(c1 + c2, 0, c1);
    SliceAllEnd(c1 + c2, |c1|, c2);
  }

  lemma AndParts(c: seq<Slot>)
    requires AllEnd(AsmAnd(c))
    ensures AllEnd(c)
  {
    hide AllEnd;
    SliceAllEnd(AsmAnd(c), 2, c);
  }

  lemma TestedChoiceParts(cs: set<Byte>, c1: seq<Slot>, emptyp2: bool, c2: seq<Slot>)
    requires AllEnd(AsmTestedChoice(cs, c1, emptyp2, c2))
    ensures AllEnd(c1) && AllEnd(c2)
  {
    hide AllEnd, GenTest, InsTo;
    var g := AsmTestedChoice(cs, c1, emptyp2, c2);
    if emptyp2 {
      var g0 := GenTest(cs, TestLen(cs) + |c1|);
      PairParts(g0 + c1, c2);
      PairParts(g0, c1);
    } else {
      var (g0, g1) := (GenTest(cs, TestLen(cs) + |c1| + 2), InsTo(IJmp, 2 + |c2|));
      PairParts(g0 + c1 + g1, c2);
      PairParts(g0 + c1, g1);
      PairParts(g0, c1);
    }
  }

  lemma ChoiceParts(f: First, c1: seq<Slot>, c2: seq<Slot>)
    requires AllEnd(AsmChoice(f, c1, c2))
    ensures AllEnd(c1) && AllEnd(c2)
  {
    hide AllEnd, OptTest, InsTo;
    var (g0, g1, g2) := (OptTest(f, 2 + |c1| + 2), InsTo(IChoice, 2 + |c1| + 2), InsTo(ICommit, 2 + |c2|));
    PairParts(g0 + g1 + c1 + g2, c2);
    PairParts(g0 + g1 + c1, g2);
    PairParts(g0 + g1, c1);
  }

  /** Code without circles has no grammar with one. */
  lemma {:induction false} PartsEnd(d: nat, rules: seq<Tree>, t: Tree, opt: bool, tt: Test, fl: set<Byte>)
    requires WellFormed(d, rules, t) && AllEnd(Gen(d, rules, t, opt, tt, fl))
    ensures BodiesEnd(d, rules, t)
    decreases t, 1
  {
    hide GetFirst, HeadFail, FixedLen, ChoiceTested, RepTested, Classify, AllEnd, CorrectCalls, Body, AsmAnd, AsmChoice, AsmRep, AsmNot, AsmTestedChoice, AsmTestedRep;
    match t
    case Choice(p1, p2) => ChoicePartsEnd(d, rules, p1, p2, opt, tt, fl);
    case Rep(p) =>
      if ToCharset(p).None? {
        RepPartsEnd(d, rules, p, opt, tt, fl);
      } else {
        assert BodiesEnd(d, rules, p);
      }
    case Not(p) => NotPartsEnd(d, rules, p, opt, tt, fl);
    case And(p) =>
      var c := Gen(d, rules, p, false, tt, FULL);
      if 0 <= FixedLen(d, rules, p) <= MAXBEHIND {
        PairParts(c, GenBehind(FixedLen(d, rules, p)));
      } else {
        AndParts(c);
      }
      PartsEnd(d, rules, p, false, tt, FULL);
    case Behind(k, p) =>
      PairParts(GenBehind(k), Gen(d, rules, p, false, NoTest, FULL));
      PartsEnd(d, rules, p, false, NoTest, FULL);
    case Seq(p1, p2) =>
      var fl1 := SeqFollow(d, rules, p1, p2, fl);
      var tt2 := if FixedLen(d, rules, p1) != 0 then NoTest else tt;
      var (c1, c2) := (Gen(d, rules, p1, false, tt, fl1), Gen(d, rules, p2, opt, tt2, fl));
      PairParts(c1, c2);
      PartsEnd(d, rules, p1, false, tt, fl1);
      PartsEnd(d, rules, p2, opt, tt2, fl);
    case Grammar(rs) => GrammarPartsEnd(d, rules, rs, opt, tt, fl);
    case _ =>
  }

  lemma {:induction false} ChoicePartsEnd(d: nat, rules: seq<Tree>, p1: Tree, p2: Tree, opt: bool, tt: Test, fl: set<Byte>)
    requires WellFormed(d, rules, Choice(p1, p2)) && AllEnd(Gen(d, rules, Choice(p1, p2), opt, tt, fl))
    ensures BodiesEnd(d, rules, Choice(p1, p2))
    decreases Choice(p1, p2), 0
  {
    hide GetFirst, HeadFail, ChoiceTested, Classify, AllEnd, OptTest, GenTest, AsmChoice, AsmTestedChoice;
    var f1 := GetFirst(d, rules, p1, FULL);
    var c2 := Gen(d, rules, p2, opt, NoTest, fl);
    if ChoiceTested(d, rules, p1, p2, fl) {
      var c1 := Gen(d, rules, p1, false, TestOf(f1.cs), fl);
      TestedChoiceParts(f1.cs, c1, p2.True?, c2);
      PartsEnd(d, rules, p1, false, TestOf(f1.cs), fl);
      PartsEnd(d, rules, p2, opt, NoTest, fl);
    } else if opt && p2.True? {
      PairParts(InsTo(IPartialCommit, 2), Gen(d, rules, p1, true, NoTest, FULL));
      PartsEnd(d, rules, p1, true, NoTest, FULL);
    } else {
      var c1 := Gen(d, rules, p1, p2.True?, OptTestOf(f1), FULL);
      ChoiceParts(f1, c1, c2);
      PartsEnd(d, rules, p1, p2.True?, OptTestOf(f1), FULL);
      PartsEnd(d, rules, p2, opt, NoTest, fl);
    }
  }

  lemma {:induction false} RepPartsEnd(d: nat, rules: seq<Tree>, p: Tree, opt: bool, tt: Test, fl: set<Byte>)
    requires WellFormed(d, rules, Rep(p)) && AllEnd(Gen(d, rules, Rep(p), opt, tt, fl)) && ToCharset(p).None?
    ensures BodiesEnd(d, rules, Rep(p))
    decreases Rep(p), 0
  {
    hide GetFirst, HeadFail, RepTested, Classify, AllEnd, OptTest, GenTest;
    var g := Gen(d, rules, Rep(p), opt, tt, fl);
    var f := GetFirst(d, rules, p, FULL);
    if RepTested(d, rules, p, fl) {
      SliceAllEnd(g, TestLen(f.cs), Gen(d, rules, p, false, TestOf(f.cs), FULL));
      PartsEnd(d, rules, p, false, TestOf(f.cs), FULL);
    } else {
      SliceAllEnd(g, OptTestLen(f) + 2, Gen(d, rules, p, false, NoTest, FULL));
      PartsEnd(d, rules, p, false, NoTest, FULL);
    }
  }

  lemma {:induction false} NotPartsEnd(d: nat, rules: seq<Tree>, p: Tree, opt: bool, tt: Test, fl: set<Byte>)
    requires WellFormed(d, rules, Not(p)) && AllEnd(Gen(d, rules, Not(p), opt, tt, fl))
    ensures BodiesEnd(d, rules, Not(p))
    decreases Not(p), 0
  {
    hide GetFirst, HeadFail, Classify, AllEnd, OptTest;
    var f := GetFirst(d, rules, p, FULL);
    if !HeadFail(d, rules, p) {
      SliceAllEnd(Gen(d, rules, Not(p), opt, tt, fl), OptTestLen(f) + 2, Gen(d, rules, p, false, NoTest, FULL));
      PartsEnd(d, rules, p, false, NoTest, FULL);
    }
  }

  /** The rules as generated, before their calls were closed, are inside the body. */
  lemma RawEmbedded(d: nat, rs: seq<Tree>)
    requires forall j :: 0 <= j < |rs| ==> WellFormed(d, rs, rs[j])
    ensures Embedded(RulesCode(d, rs, |rs|), Body(d, rs), 0)
  {
    BodyClosed(d, rs);
    hide Parses, Body, RulesCode;
    var (raw, body) := (RulesCode(d, rs, |rs|), Body(d, rs));
    forall k | IsJump(raw, k) ensures IsJump(body, 0 + k) && Target(body, 0 + k) == 0 + Target(raw, k) {
      assert Closed(body, Positions(d, rs), raw, k) && Closed(body, Positions(d, rs), raw, k + 1);
    }
  }

  lemma {:induction false} GrammarPartsEnd(d: nat, rules: seq<Tree>, rs: seq<Tree>, opt: bool, tt: Test, fl: set<Byte>)
    requires WellFormed(d, rules, Grammar(rs)) && AllEnd(Gen(d, rules, Grammar(rs), opt, tt, fl))
    ensures BodiesEnd(d, rules, Grammar(rs))
    decreases rs, 2
  {
    hide CorrectCalls, AllEnd, RulesCode, Embedded;
    var raw := RulesCode(d, rs, |rs|);
    SliceAllEnd(Gen(d, rules, Grammar(rs), opt, tt, fl), 4, Body(d, rs));
    RawEmbedded(d, rs);
    EmbeddedAllEnd(raw, Body(d, rs), 0);
    forall k | 0 <= k < |rs| ensures BodiesEnd(d, rs, rs[k]) {
      RuleInside(d, rs, k);
      SliceAllEnd(raw, |RulesCode(d, rs, k)|, Gen(d, rs, rs[k], false, NoTest, FULL));
      PartsEnd(d, rs, rs[k], false, NoTest, FULL);
    }
  }

  lemma RuleInside(d: nat, rs: seq<Tree>, k: nat)
    requires k < |rs|
    ensures var (raw, base, g) := (RulesCode(d, rs, |rs|), |RulesCode(d, rs, k)|, Gen(d, rs, rs[k], false, NoTest, FULL));
            base + |g| <= |raw| && raw[base..base + |g|] == g
  {
    hide Gen;
    RulesCodePrefix(d, rs, k + 1, |rs|);
  }

  // ---- Closing the calls ------------------------------------------------------------------------------------------

  /** Closing calls takes no jump away. */
  lemma {:induction false} ClosingEmbedded(raw: seq<Slot>, cur: seq<Slot>, pos: seq<int>, i: nat)
    requires Parses(raw, i, |pos|) && |cur| == |raw| && forall k :: i <= k < |raw| ==> cur[k] == raw[k]
    ensures Embedded(cur, CorrectCalls(cur, pos, i), 0)
    decreases |raw| - i
  {
    if i < |raw| {
      assert cur[i] == raw[i];
      if raw[i].code == IOpenCall {
        assert cur[i + 1] == raw[i + 1];
        var next := CloseCall(cur, pos, i);
        ClosingEmbedded(raw, next, pos, i + 2);
        forall k | IsJump(cur, k) ensures IsJump(next, k) && Target(next, k) == Target(cur, k) {
          assert k != i && k + 1 != i && k + 1 != i + 1;
        }
      } else {
        ClosingEmbedded(raw, cur, pos, i + Size(raw[i].code));
      }
    }
  }

  /** All chases that `correctcalls` makes from slot `i` on end. */
  ghost predicate ClosingEnds(code: seq<Slot>, pos: seq<int>, i: nat)
    decreases |code| - i
  {
    if i >= |code| || !code[i].Op? then true
    else if code[i].code == IOpenCall && i + 1 < |code| && 0 <= code[i].key < |pos| then
      Ends(code, i + 2) && ClosingEnds(CloseCall(code, pos, i), pos, i + 2)
    else ClosingEnds(code, pos, i + Size(code[i].code))
  }

  lemma {:induction false} NoCircleCloses(raw: seq<Slot>, cur: seq<Slot>, pos: seq<int>, i: nat)
    requires Parses(raw, i, |pos|) && |cur| == |raw| && forall k :: i <= k < |raw| ==> cur[k] == raw[k]
    requires AllEnd(CorrectCalls(cur, pos, i))
    ensures ClosingEnds(cur, pos, i) && AllEnd(cur)
    decreases |raw| - i
  {
    hide AllEnd, Ends, Embedded;
    ClosingEmbedded(raw, cur, pos, i);
    EmbeddedAllEnd(cur, CorrectCalls(cur, pos, i), 0);
    if i < |raw| {
      assert cur[i] == raw[i];
      if raw[i].code == IOpenCall {
        assert Ends(cur, i + 2) by { EndsOf(cur, i + 2); }
        NoCircleCloses(raw, CloseCall(cur, pos, i), pos, i + 2);
      } else {
        NoCircleCloses(raw, cur, pos, i + Size(raw[i].code));
      }
    }
  }

  lemma EndsOf(code: seq<Slot>, a: int)
    requires AllEnd(code)
    ensures Ends(code, a)
  {
  }
}