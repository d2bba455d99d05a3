# Models of skynet

Models of the parts of the skynet actor runtime, and of the libraries that it carries, whose correctness is hard to see, with proofs of what those parts are for. Code that changes things in place is modelled in place, by classes, arrays and loops, and is proved against functions; the theorems are then about those functions, over all inputs and all runs.

| part | files | main results |
|---|---|---|
| LPeg: analyses, compiler, matcher, grammar check (`lpcode.c`, `lpvm.c`, `lptree.c`) | `Peg*.dfy` | the compiled and optimised code computes the PEG (`PegPeephole.OptimizedCorrect`, `PegCompiler.MatchPattern`); every analysis is sound; compiling and matching end for grammars that a stricter check accepts, and exactly which others are accepted (`PegAccepted.MatchAccepted`) |
| Timing wheel (`skynet_timer.c`) | `Timer.dfy` | each timer fires exactly at its own tick (`Timer.FiresOnTime`) |
| Message queues and dispatch (`skynet_mq.c`, `skynet_server.c`) | `MessageQueue.dfy`, `Scheduler.dfy` | one place for each queue, no lost wakeup, no concurrent dispatch, messages conserved, and exactly when no memory is touched that is not there |
| Big integers and digits (`dtoa.c`) | `Bigint.dfy`, `Dtoa.dfy` | exact arithmetic, one correction in `quorem`, correctly rounded decimals (`Dtoa.Convert`) |
| Socket write path (`socket_server.c`) | `Socket.dfy`, `SocketRuns.dfy`, `SocketThread.dfy` | whole packages on the wire, in order, none lost; one close report |
| Package filter (`lua-netpack.c`) | `Netpack.dfy` | the packages do not depend on how streams are cut and mixed |
| Serializer (`lua-seri.c`) | `Seri.dfy`, `SeriBlocks.dfy` | what is packed is unpacked, through blocks of 128 bytes |
| Frozen tables (`lua-sharedata.c`) | `Sharedata.dfy` | lookup and traversal agree with the source table |
| DES and key exchange (`lua-crypt.c`) | `Des.dfy`, `DiffieHellman.dfy` | decoding is the exact inverse of encoding; both parties get the same secret |
| SHA-1 and HMAC (`lsha1.c`) | `Sha1.dfy` | the digest does not depend on how a message is cut; the in-place schedule is that of FIPS 180-4 |
| BSON (`lua-bson.c`) | `Bson.dfy`, `BsonReader.dfy` | a value replaced through the index changes the decoded table in that name |

`dafny verify dfyconfig.toml` checks everything.

## How the models are made

- Concurrency is interleaving: each section under a lock, and each atomic operation elsewhere, is one step; any number of threads takes steps in any order. `write` and `read` answer with any prefix length or error that the system may give; these answers, the clock and the decisions of callers are parameters.
- The analyses of LPeg follow `d` nested calls at most. `PegAnswers` says which of their answers do not depend on the bound, and computes from a pattern a bound that is as good as none (`PegAnswers.AnswersSettled`): what it stops would not end. The marks of `fixedlen` give the same lengths (`PegAnswers.FixedLenMarked`).
- Words that wrap are written out (`Timer.Wrap`, `DiffieHellman.Wrap`, `Sha1.Counted`) or are bit vectors (`Des`, `Sha1`).
- A PEG result is a function of the recursion allowed, `None` when that is not enough; `Peg.MatchMonotone` makes the answer one answer, and the theorems hold for every allowance that gives one.

## Where the code does not do what it is for

Each of these is kept in the model as the code has it, with a concrete input, and the property is proved under the exact condition.

- `verifyrule` answers `nullable` for a nested grammar and forgets that something nullable came before it (`lptree.c:1038-1039`). A left recursive rule behind a predicate over a nested grammar is then accepted, and matching it does not end: `PegGrammar.AcceptedLeftRecursion`.
- `verifyrule` takes it that look-behinds have no calls (`lptree.c:1009-1011`). `lp_behind` asks only for a fixed length and no captures (`lptree.c:680-690`), and a predicate has both, whatever it calls. Left recursion through a look-behind is accepted, and so is a look-behind that calls its own rule after going back: `PegGrammar.AcceptedLookBehind` and `PegGrammar.AcceptedGoingBack`, on which matching does not end.
- `PegGrammar.WronglyAccepted` says exactly which grammars are accepted although the check, with the accumulator kept, look-behinds followed and none of them calling back, would reject them. `PegGrammar.AcceptedTerminates` proves termination for what it would not reject, calls from look-behinds to rules that do not call back included; `PegGrammar.VerifiedTerminates` for the check as it is where nothing passes it by.
- What is accepted wrongly need not be compiled either. `checkaux`, `getfirst` and `headfail` follow calls without a bound (`lpcode.c:196-402`), and `finaltarget` follows jumps (`lpcode.c:641-645`): `PegAccepted.AcceptedNeverAnalysed`, `PegAccepted.AcceptedNeverCompiled` and `PegAccepted.AcceptedNeverChased`. `PegPeephole.CompileEndsExactly` says exactly when compiling ends, and `PegAccepted.AcceptedCompiles` that it does for every grammar that should have been accepted. `verifygrammar` itself need not end: `PegAccepted.NeverVerified`; `PegLeft.VerifyingEnds` says when it does.
- `skynet_context_new` gives up its reference before it sets `init` and writes its log line (`skynet_server.c:164-171`). A service that is retired in between is freed under its creator: `Scheduler.RaceStrays`. It also registers the handle before it makes the queue (`skynet_server.c:155-156`), and a message sent in between is pushed through a pointer that has not been set: `Scheduler.PushedEarly`. `Scheduler.MemorySafe` has the exact condition for a run without either.
- `force_close` frees the lists before it takes the lock (`socket_server.c:489-493`). A direct write in between goes to the wire after part of another package: `SocketRuns.GapRun`. `SocketRuns.GapTears` says exactly which writes do, and `SocketRuns.WireIsWhole` holds for all runs without one.
- `close_socket` with a send in flight and nothing waiting leaves the socket half closed, and the send is dropped without anything that would finish the close (`socket_server.c:1127-1154`): `SocketRuns.CloseStrands` has the exact condition, `SocketRuns.StrandedRun` a run.
- `sat_SHA1_Update` compares 32 bits of the counter with all of `len << 3` (`lsha1.c:199`), and so counts a carry too many for a part of 2^29 bytes or more unless there was one: `Sha1.CountedRight`, and `Sha1.CountedTwice` for 2^29 bytes.
- `powmodp` reduces its base only above P (`lua-crypt.c:833`): the base P with exponent 1 gives P, not 0. `DiffieHellman.PowerModP` states this case and shows it to be the only one.
- The BSON index keeps the last field of a name whose type has a fixed size, decoding the last field of a name. With a repeated name they can differ, and the replacement then does not show: `BsonReader.ReplaceAndDecode`, and `BsonReader.ReplaceUnseen` for a document of 20 bytes. The place of a field survives in the index only below 2^26 (`Bson.IdBack`, `Bson.PlaceLost`), and an integer in a field of 32 bits only when it fits (`Bson.ShownExactly`, `Bson.ShownWrapped`).

## Model

| member | source | states |
|---|---|---|
| Peg.MatchMonotone | skynet-master/3rd/lpeg/lpvm.c:149-303 | The PEG result of a pattern does not depend on how much recursion is allowed, once it is enough: the meaning of a pattern is one answer |
| PegAnalysis.NullableSound | skynet-master/3rd/lpeg/lpcode.c:196-227 | A pattern that is not nullable never succeeds without consuming, for any rules and any bound on the calls followed |
| PegAnalysis.NoFailSound | skynet-master/3rd/lpeg/lpcode.c:196-227 | A `nofail` pattern never fails |
| PegAnalysis.FixedLenSound | skynet-master/3rd/lpeg/lpcode.c:236-280 | When the length is fixed at n, every success consumes exactly n |
| PegAnalysis.FirstSound | skynet-master/3rd/lpeg/lpcode.c:294-370 | On a byte outside the first set the pattern fails, or consumes nothing and the byte is outside the follow set too |
| PegAnalysis.FirstEmptySound | skynet-master/3rd/lpeg/lpcode.c:294-370 | When `getfirst` returns 0 the pattern fails at the end of the subject |
| PegAnalysis.NoFailFirstFull | skynet-master/3rd/lpeg/lpcode.c:294-370 | A `nofail` pattern has the full first set before a full follow set |
| PegAnalysis.HeadFailNotEmpty | skynet-master/3rd/lpeg/lpcode.c:377-402 | A `headfail` pattern has no empty match at the end of the subject |
| PegAnalysis.HeadFailSound | skynet-master/3rd/lpeg/lpcode.c:377-402 | A `headfail` pattern does not fail on a byte of its first set |
| PegAnalysis.HeadFailExact | skynet-master/3rd/lpeg/lpcode.c:377-402 | Whether a `headfail` pattern succeeds is decided by the next byte alone: if and only if there is one and it is in the first set |
| PegAnswers.AnswersMore | skynet-master/3rd/lpeg/lpcode.c:196-402 | What `checkaux`, `getfirst` or `headfail` answers without being stopped by the bound on nested calls, it answers in the same way with every larger bound |
| PegAnswers.Growing | skynet-master/3rd/lpeg/lpcode.c:196-402 | With five calls for each rule, beyond what the grammars inside need, one call more brings no more answers: until then each brings one |
| PegAnswers.AnswersSettled | skynet-master/3rd/lpeg/lpcode.c:196-402 | A question that any bound answers is answered, in the same way, by every ample bound, computed from the sizes of the grammars: what such a bound stops would not end without one |
| PegAnswers.FixedLenMarked | skynet-master/3rd/lpeg/lpcode.c:133-146 | With an ample bound, `fixedlen` is what its marks make of it: a call to a rule that is being measured has no length |
| PegSettled.GenAnswersSettled | skynet-master/3rd/lpeg/lpcode.c:677-944 | If the analyses of code generation end within any bound, they end within an ample one |
| PegSettled.GenSettled | skynet-master/3rd/lpeg/lpcode.c:677-944 | Where the analyses end, the generated code is the same for all ample bounds |
| PegCharset.CharsetType | skynet-master/3rd/lpeg/lpcode.c:41-84 | The scan over the 32 bytes of the bit set, with its early exits, finds whether the set is empty, one byte (and which), full or none of these |
| PegCharset.Scattered | skynet-master/3rd/lpeg/lpcode.c:41-84 | A byte of the bit set that is neither 0, nor 255, nor a power of two decides the kind alone, so that the early return is right |
| PegMachine.Exec | skynet-master/3rd/lpeg/lpvm.c:149-303 | The loop of the matcher, with its stack in place, ends with the answer of the step machine |
| PegMachine.Backtrack | skynet-master/3rd/lpeg/lpvm.c:280-292 | Failing pops return addresses until a choice, exactly as the machine says |
| PegMachine.Span | skynet-master/3rd/lpeg/lpvm.c:225-232 | The span loop stops at the first byte outside the set |
| PegMachine.HaltsUnique | skynet-master/3rd/lpeg/lpvm.c:149-303 | A start of the machine has one final state at most |
| PegLayout.GenParses | skynet-master/3rd/lpeg/lpcode.c:438-456 | Generated code divides into whole instructions with their labels in place |
| PegLayout.CorrectCallsOk | skynet-master/3rd/lpeg/lpcode.c:844-861 | After `correctcalls` every open call is a call of its rule, or a jump to it where the next operation reached by jumps is a return; nothing else has changed |
| PegJumps.GenJumps | skynet-master/3rd/lpeg/lpcode.c:919-944 | Every jump of generated code stays inside the code or leads to its end |
| PegChase.EndsExactly | skynet-master/3rd/lpeg/lpcode.c:641-648 | The chase over jumps ends if and only if it is over after as many jumps as there are slots; so a bounded chase finds the target of the unbounded one |
| PegChase.GenTidy | skynet-master/3rd/lpeg/lpcode.c:919-944 | In the code of a pattern jumps go round in a circle only inside the body of a grammar |
| PegChase.PartsEnd | skynet-master/3rd/lpeg/lpcode.c:919-944 | Code without circles has no grammar with one |
| PegChase.NoCircleCloses | skynet-master/3rd/lpeg/lpcode.c:844-861 | When the closed code of a grammar has no circle, every chase made while its calls are closed ends |
| PegCorrect.TestedChoiceCorrect | skynet-master/3rd/lpeg/lpcode.c:677-713 | A choice compiled to a test set (head-fail or disjoint first sets) computes the ordered choice, before a continuation that respects the follow set |
| PegCorrect.ReusedChoiceCorrect | skynet-master/3rd/lpeg/lpcode.c:677-713 | An optional choice that uses its caller's choice entry computes the ordered choice |
| PegCorrect.PlainChoiceCorrect | skynet-master/3rd/lpeg/lpcode.c:677-713 | A choice compiled to test, choice and commit computes the ordered choice |
| PegCorrect.SpanCorrect | skynet-master/3rd/lpeg/lpcode.c:777-786 | The span instruction computes the repetition of a set |
| PegCorrect.TestedRepCorrect | skynet-master/3rd/lpeg/lpcode.c:777-816 | A repetition without a choice entry (head-fail or disjoint first set) computes the greedy repetition |
| PegCorrect.PlainRepCorrect | skynet-master/3rd/lpeg/lpcode.c:777-816 | A repetition with choice or partial commit computes the greedy repetition |
| PegCorrect.NotCorrect | skynet-master/3rd/lpeg/lpcode.c:823-836 | The code of the not-predicate, head-fail or with fail-twice, computes it and restores the position |
| PegCorrect.AndCorrect | skynet-master/3rd/lpeg/lpcode.c:720-738 | The code of the and-predicate, by a step back or with back-commit, computes it and restores the position |
| PegCorrect.BehindCorrect | skynet-master/3rd/lpeg/lpcode.c:659-668 | The code of the look-behind computes it |
| PegCorrect.CallCorrect | skynet-master/3rd/lpeg/lpcode.c:844-893 | A call, or the tail call that replaced it, computes the rule |
| PegCorrect.GrammarCorrect | skynet-master/3rd/lpeg/lpcode.c:868-884 | The code of a grammar computes its first rule and leaves the stack as it was |
| PegCorrect.GenCorrect | skynet-master/3rd/lpeg/lpcode.c:919-944 | For every pattern: started in its code, with any follow set, active test and optional-choice flag, the machine ends as it does from the end of that code, with the result of the PEG; the stack is balanced |
| PegCorrect.CompileCorrect | skynet-master/3rd/lpeg/lpcode.c:1001-1012 | For every pattern, with grammars, and every subject: the machine halts on the code before peephole exactly in the state that the PEG result says, with nothing on the stack but the first entry |
| PegPeephole.FinalTargetLeads | skynet-master/3rd/lpeg/lpcode.c:641-648 | The target found by the chase is reached from its start by jumps alone |
| PegPeephole.StepFollows | skynet-master/3rd/lpeg/lpvm.c:149-303 | One step from states that differ only by jumps gives states that differ only by jumps |
| PegPeephole.PeepInstrPreserves | skynet-master/3rd/lpeg/lpcode.c:956-995 | One round of peephole (a label redirected, or a jump replaced by the instruction that it reaches) keeps every outcome for every subject |
| PegPeephole.ChangeParses | skynet-master/3rd/lpeg/lpcode.c:956-995 | The changed code still divides into whole instructions |
| PegPeephole.PeepPreserves | skynet-master/3rd/lpeg/lpcode.c:956-995 | The whole pass of peephole keeps every outcome for every subject |
| PegPeephole.NoCircleStep | skynet-master/3rd/lpeg/lpcode.c:956-995 | Without circles, every chase that peephole makes for an instruction ends, and the change makes no circle |
| PegPeephole.PeepsNoCircle | skynet-master/3rd/lpeg/lpcode.c:956-995 | A pass whose chases all end has met every circle: there is none |
| PegPeephole.CirclesInBodies | skynet-master/3rd/lpeg/lpcode.c:868-884 | The whole code has a circle of jumps if and only if the body of a grammar that is compiled has one |
| PegPeephole.ChasesEndExactly | skynet-master/3rd/lpeg/lpcode.c:1001-1012 | The chases of `correctcalls` and of `peephole`, each on the code as it is then, all end if and only if the code before peephole has no circle of jumps |
| PegPeephole.CompileEndsExactly | skynet-master/3rd/lpeg/lpcode.c:1001-1012 | Compiling ends, the analyses and the chases, if and only if the analyses that `codegen` asks for end, within an ample bound or any other, and the code before peephole has no circle of jumps |
| PegPeephole.CompileSettled | skynet-master/3rd/lpeg/lpcode.c:1001-1012 | Whether compiling ends, and the optimised code, are the same for all ample bounds: they do not depend on there being a bound |
| PegPeephole.OptimizedCorrect | skynet-master/3rd/lpeg/lpcode.c:1001-1012 | For every pattern whose chases end, with grammars: the optimised code halts exactly with the outcome of the PEG |
| PegCompiler.CompileState.CodeCharset | skynet-master/3rd/lpeg/lpcode.c:588-607 | What is appended for a set is the generated code, whatever test dominates it |
| PegCompiler.CompileState.CodeTestSet | skynet-master/3rd/lpeg/lpcode.c:614-635 | A test with an open label is appended, none when the pattern can match the empty subject, and its place is returned |
| PegCompiler.CompileState.CodeChoice | skynet-master/3rd/lpeg/lpcode.c:677-713 | Appending and patching labels in place builds the generated code of a choice |
| PegCompiler.CompileState.CodeAnd | skynet-master/3rd/lpeg/lpcode.c:720-738 | The same for the and-predicate |
| PegCompiler.CompileState.CodeRep | skynet-master/3rd/lpeg/lpcode.c:777-816 | The same for repetition |
| PegCompiler.CompileState.CodeNot | skynet-master/3rd/lpeg/lpcode.c:823-836 | The same for the not-predicate |
| PegCompiler.CompileState.CodeBehind | skynet-master/3rd/lpeg/lpcode.c:659-668 | The same for the look-behind |
| PegCompiler.CompileState.CodeSeq | skynet-master/3rd/lpeg/lpcode.c:899-916 | The same for a sequence, with the follow set of the second part where it is needed and the test kept over a first part of length zero |
| PegCompiler.CompileState.CodeGrammar | skynet-master/3rd/lpeg/lpcode.c:868-884 | The same for a grammar, with its calls closed |
| PegCompiler.CompileState.FinalTargetFrom | skynet-master/3rd/lpeg/lpcode.c:641-648 | The loop, which has no bound, ends where the chase ends, at something else than a jump |
| PegCompiler.CompileState.CorrectCallsIn | skynet-master/3rd/lpeg/lpcode.c:844-861 | Closing calls in place changes the code of the grammar as specified, and the code before it not at all |
| PegCompiler.CompileState.CodeGen | skynet-master/3rd/lpeg/lpcode.c:919-944 | For every pattern the code array grows by exactly the generated code |
| PegCompiler.CompileState.PeepholeAt | skynet-master/3rd/lpeg/lpcode.c:959-993 | One instruction is rewritten in place as specified |
| PegCompiler.CompileState.Peephole | skynet-master/3rd/lpeg/lpcode.c:956-995 | The pass in place gives the specified code |
| PegCompiler.CompilePattern | skynet-master/3rd/lpeg/lpcode.c:1001-1012 | For every pattern whose compilation ends, analyses and chases, the compiler as a whole produces the optimised code that is proved correct; it asks only for analyses that end |
| PegCompiler.MatchPattern | skynet-master/3rd/lpeg/lpvm.c:149-303 | Compiling a pattern whose compilation ends, and running the matcher, gives the result of the PEG |
| PegAccepted.RuleStartEnds | skynet-master/3rd/lpeg/lpcode.c:868-884 | A rule that ends on the empty subject has no circle of jumps at its start |
| PegAccepted.BodyAllEnd | skynet-master/3rd/lpeg/lpcode.c:868-884 | When the rules that are used end on the empty subject, the body of the grammar has no circle |
| PegAccepted.EndingCompiles | skynet-master/3rd/lpeg/lpcode.c:1001-1012 | When the rules that are used end on the empty subject, all chases end, and compiling ends if and only if the analyses do |
| PegLeft.LeftAnswers | skynet-master/3rd/lpeg/lpcode.c:196-370 | Where left calls are nested at most so deep, `checkaux` and `getfirst` follow no more calls than that |
| PegLeft.HeadAnswers | skynet-master/3rd/lpeg/lpcode.c:377-402 | So does `headfail`, which asks besides whether later parts are nofail |
| PegLeft.AcceptedAnswers | skynet-master/3rd/lpeg/lpcode.c:677-944 | All analyses of code generation end for patterns whose grammars were accepted with the accumulator kept and no look-behind that calls back |
| PegLeft.VerifyingEnds | skynet-master/3rd/lpeg/lptree.c:1045-1063 | `verifygrammar` ends when the grammars inside were accepted so and no left recursion is passed over |
| PegAccepted.AcceptedCompiles | skynet-master/3rd/lpeg/lpcode.c:1001-1012 | Compiling ends, analyses and chases, for every pattern whose grammars were accepted with the accumulator kept and no look-behind that calls back |
| PegAccepted.VerifiedCompiles | skynet-master/3rd/lpeg/lpcode.c:1001-1012 | Compiling ends for every pattern whose grammars were accepted by the check as written, where it drops and passes over nothing and no look-behind calls back |
| PegAccepted.MatchAccepted | skynet-master/3rd/lpeg/lptree.c:1156-1184 | For a pattern whose grammars were accepted with the accumulator kept and no look-behind that calls back, compiling and matching end with the result of the PEG |
| PegAccepted.AcceptedNeverCompiled | skynet-master/3rd/lpeg/lptree.c:1038-1039 | A pattern with the grammar `S <- !{fail} S` is accepted as written and matches by its first alternative, but a chase of its compilation never ends |
| PegAccepted.AcceptedNeverAnalysed | skynet-master/3rd/lpeg/lpcode.c:294-370 | "ab" or the grammar `S <- !{a} S` is accepted as written and matches by its first alternative, but `getfirst` never comes back from the second one |
| PegAccepted.AcceptedNeverChased | skynet-master/3rd/lpeg/lptree.c:680-690 | `S <- B(#S)` is accepted as written; its code is a jump to itself, and its compilation never ends |
| PegAccepted.NeverVerified | skynet-master/3rd/lpeg/lptree.c:1045-1063 | `S <- (T "x")*, T <- !{a} T`: the left recursion is passed over, and `checkloops` never comes back from it; every bound would accept the grammar |
| PegGrammar.VerifyGrammar | skynet-master/3rd/lpeg/lptree.c:1045-1063 | Where the analyses that the two loops ask for end, they accept a grammar exactly when no used rule is left recursive, as far as the check sees, or loops over an empty body |
| PegGrammar.VerifySettled | skynet-master/3rd/lpeg/lptree.c:952-1063 | Whether verifying ends, and whether it accepts, are the same for all ample bounds |
| PegGrammar.VerifyRuleNullable | skynet-master/3rd/lpeg/lptree.c:1002-1040 | With the accumulator kept in every case, an answer 0 means that the pattern never succeeds without consuming |
| PegGrammar.CallGoesDown | skynet-master/3rd/lpeg/lptree.c:680-690 | The number of rules that a rule leads to goes down along calls, strictly where a call does not lead back |
| PegGrammar.LeftTerminates | skynet-master/3rd/lpeg/lptree.c:1002-1040 | A pattern that passes the check with the accumulator kept ends at every position, with look-behinds that call rules which do not call back |
| PegGrammar.AcceptedTerminates | skynet-master/3rd/lpeg/lptree.c:952-1063 | With the accumulator kept and no look-behind that calls back, matching an accepted pattern ends on every subject |
| PegGrammar.NothingDropped | skynet-master/3rd/lpeg/lptree.c:1002-1040 | The check as written agrees with the one that keeps the accumulator and follows look-behinds, wherever it drops and passes over nothing |
| PegGrammar.KeptAccepted | skynet-master/3rd/lpeg/lptree.c:1002-1040 | What the check accepts with the accumulator kept, look-behinds followed and none calling back, the check as written accepts |
| PegGrammar.VerifyRuleExactly | skynet-master/3rd/lpeg/lptree.c:1002-1040 | With the accumulator kept and look-behinds followed, the check reports left recursion if and only if a rule can nest more calls, look-behinds included, than there may be rules before anything is consumed; and it answers nullable if and only if the accumulator says so or the pattern may be empty |
| PegGrammar.WronglyAccepted | skynet-master/3rd/lpeg/lptree.c:1045-1063 | A grammar is accepted as written and not by the stricter check if and only if it is accepted as written and a rule that is used nests calls so deep without consuming, or has a look-behind that calls back; in the first case the check drops or passes over something in that rule |
| PegGrammar.BuiltEither | skynet-master/3rd/lpeg/lptree.c:1045-1063 | Where nothing is dropped or passed over and no look-behind calls back, a pattern is accepted by the one check if and only if it is by the other |
| PegGrammar.VerifiedTerminates | skynet-master/3rd/lpeg/lptree.c:952-1063 | Matching what `verifygrammar` accepts ends on every subject, where it drops and passes over nothing and no look-behind calls back |
| PegGrammar.AcceptedLeftRecursion | skynet-master/3rd/lpeg/lptree.c:1038-1039 | The rule `S <- !{a} S` with a nested grammar is accepted as written although matching it never ends; with the accumulator kept it is rejected |
| PegGrammar.AcceptedLookBehind | skynet-master/3rd/lpeg/lptree.c:1009-1011 | `S <- B(#S) "a"` is accepted as written although matching it ends on no subject; the stricter check rejects it |
| PegGrammar.AcceptedGoingBack | skynet-master/3rd/lpeg/lptree.c:680-690 | `S <- "a" B(#S "a")` has no left call and is accepted as written, but its look-behind calls back, and matching it on "a" never ends |
| Timer.PlaceWraps | skynet-master/skynet-src/skynet_timer.c:67-86 | The list for a node is the same whether computed from the 32-bit times, across the wrap, or from unbounded ones |
| Timer.CascadeMoves | skynet-master/skynet-src/skynet_timer.c:111-132 | From one tick to the next, the list for a node changes only when the node is in the list cascaded at that tick; it then goes to a lower level |
| Timer.PlainTick | skynet-master/skynet-src/skynet_timer.c:111-132 | Without a carry no list changes |
| Timer.CascadeLists | skynet-master/skynet-src/skynet_timer.c:101-132 | With a carry each list becomes itself followed by what the cascaded list gives it, in the old order, and the lists below were empty |
| Timer.CascadeWraps | skynet-master/skynet-src/skynet_timer.c:111-132 | The list cascaded at a tick is the same for the wrapped and the unbounded time |
| Timer.CarryStep | skynet-master/skynet-src/skynet_timer.c:118-131 | The loop over the levels finds the list to cascade, or goes on to the next level with the time shifted |
| Timer.NearIsDue | skynet-master/skynet-src/skynet_timer.c:152-163 | The near list of the present tick holds exactly the timers that are due, in the order in which they were added |
| Timer.Wheel.constructor | skynet-master/skynet-src/skynet_timer.c:180-202 | A new wheel is empty and keeps the invariant |
| Timer.Wheel.AddNode | skynet-master/skynet-src/skynet_timer.c:67-86 | A node is appended to its list, and no other list changes |
| Timer.Wheel.TimerAdd | skynet-master/skynet-src/skynet_timer.c:88-99 | Adding a timer keeps every list a function of the pending timers and the time |
| Timer.Wheel.MoveList | skynet-master/skynet-src/skynet_timer.c:101-108 | Emptying a list and adding its nodes again gives each list what belongs there |
| Timer.Wheel.TimerShift | skynet-master/skynet-src/skynet_timer.c:111-132 | A tick with its cascade keeps the invariant |
| Timer.Wheel.TimerExecute | skynet-master/skynet-src/skynet_timer.c:152-163 | All that is due is sent, with timers that other threads add between the locked sections, until nothing is due |
| Timer.Wheel.DispatchList | skynet-master/skynet-src/skynet_timer.c:134-149 | The events of a list are sent in the order of the list |
| Timer.Wheel.TimerUpdate | skynet-master/skynet-src/skynet_timer.c:165-178 | An update is the specified change of the pending and fired timers |
| Timer.UpdateOnTime | skynet-master/skynet-src/skynet_timer.c:165-178 | After an update every added timer is fired at its own tick or pending for a later one |
| Timer.RunOnTime | skynet-master/skynet-src/skynet_timer.c:67-178 | After any run, what has fired is the timers added, tick by tick, each tick in the order of addition |
| Timer.HistoryAt | skynet-master/skynet-src/skynet_timer.c:67-178 | What that history fires at tick n is exactly the added timers due at n |
| Timer.FiresOnTime | skynet-master/skynet-src/skynet_timer.c:67-178 | A timer added with timeout d fires exactly at the d-th update after it, and never at another, for any run before and after, across cascades and the wrap of the tick |
| Timer.Drive | skynet-master/skynet-src/skynet_timer.c:67-178 | Driving the wheel itself through any run sends exactly the events of the specification |
| MessageQueue.RingFirst | skynet-master/skynet-src/skynet_mq.c:137-158 | The head of a ring that is not empty is its first message, also across the end of the array |
| MessageQueue.TurnedAt | skynet-master/skynet-src/skynet_mq.c:174-187 | Message k of a full ring is at (head + k) modulo the capacity |
| MessageQueue.MQ.Length | skynet-master/skynet-src/skynet_mq.c:111-125 | The length from the two indices is the number of messages |
| MessageQueue.MQ.Overload | skynet-master/skynet-src/skynet_mq.c:127-135 | The recorded overload is reported once |
| MessageQueue.MQ.Pop | skynet-master/skynet-src/skynet_mq.c:137-172 | The first message leaves the queue; an empty queue leaves the global list and resets its threshold; the overload is recorded when the length passes a doubling threshold |
| MessageQueue.MQ.ExpandQueue | skynet-master/skynet-src/skynet_mq.c:174-187 | Doubling a full ring keeps its messages in order |
| MessageQueue.MQ.Append | skynet-master/skynet-src/skynet_mq.c:189-202 | A message goes to the end, the ring grows when it is full, and the queue asks to be listed exactly when it was not |
| MessageQueue.MQ.Push | skynet-master/skynet-src/skynet_mq.c:189-209 | A queue that was not in the global list is put there once by a push |
| MessageQueue.MQ.MarkRelease | skynet-master/skynet-src/skynet_mq.c:219-228 | Marking publishes a queue that is not in the list |
| MessageQueue.MQ.Release | skynet-master/skynet-src/skynet_mq.c:239-249 | A marked queue hands out all of its messages and is freed; one that is not marked goes back to the list |
| MessageQueue.MQ.DropQueue | skynet-master/skynet-src/skynet_mq.c:230-237 | Every message of the queue is handed to the drop function, in order |
| MessageQueue.GlobalQueue.Push | skynet-master/skynet-src/skynet_mq.c:43-55 | The linked list grows by one queue at its end |
| MessageQueue.GlobalQueue.Pop | skynet-master/skynet-src/skynet_mq.c:58-75 | The first queue is unlinked |
| Scheduler.StepKeeps | skynet-master/skynet-src/skynet_server.c:125-240 | Every atomic step of any thread keeps the invariant, the registration of a handle before its queue is made among them |
| Scheduler.RunKeeps | skynet-master/skynet-src/skynet_server.c:299-353 | It holds after every interleaving of any number of threads |
| Scheduler.OnePlace | skynet-master/skynet-src/skynet_mq.c:43-75 | A queue not yet freed is in exactly one of four places: unpublished, once in the global list, held by one thread, or at rest with `in_global` clear; at rest it is empty, so no wakeup is lost |
| Scheduler.NoConcurrentDispatch | skynet-master/skynet-src/skynet_server.c:299-353 | Two threads never hold the queue of one service |
| Scheduler.HoldersSafe | skynet-master/skynet-src/skynet_server.c:196-228 | Who holds a reference, or a queue, finds it made and not freed; both are freed at most once, and messages are dispatched only after init |
| Scheduler.ThereExactly | skynet-master/skynet-src/skynet_server.c:222-228 | A context is still there if and only if somebody has a reference or is deleting it; a queue has been made if and only if no creator is still about to |
| Scheduler.MemorySafe | skynet-master/skynet-src/skynet_server.c:155-172 | No step of a run touches a context that was freed, or pushes through a queue that is not there yet, if and only if at each write of `init` and each log line by a creator that gave up its reference somebody else has a reference or is still deleting the context, and at each push the creator has made the queue |
| Scheduler.RaceStrays | skynet-master/skynet-src/skynet_server.c:163-172 | A run in which a service is retired between the release and the write: its creator writes to, and then reads, a context that was freed |
| Scheduler.PushedEarly | skynet-master/skynet-src/skynet_server.c:155-156 | A run in which a message is sent to a handle that is registered before its queue is made: it is pushed through a pointer that was not set, and is in no queue |
| Scheduler.MessagesConserved | skynet-master/skynet-src/skynet_server.c:231-240 | What was pushed into a queue is, in order, what was dispatched, then dropped, then still waits; messages are dropped only once the last reference is gone |
| Scheduler.NothingLeftBehind | skynet-master/skynet-src/skynet_server.c:209-219 | When all threads rest and the list is empty no message waits anywhere, and exactly the retired services are freed |
| Scheduler.PushKeeps | skynet-master/skynet-src/skynet_mq.c:189-209 | A push keeps the invariant, listing the queue where it was not; also one that finds no queue |
| Scheduler.ReleaseKeeps | skynet-master/skynet-src/skynet_server.c:222-228 | Giving back a reference keeps it, and deletes at zero |
| Bigint.MultAdd | skynet-master/3rd/cjson/dtoa.c:612-667 | b * m + a exactly, with the carry through all limbs and a larger number when it overflows |
| Bigint.AddRow | skynet-master/3rd/cjson/dtoa.c:845-859 | One row of the product adds y times the first factor at its place, limb by limb |
| Bigint.AddRows | skynet-master/3rd/cjson/dtoa.c:845-859 | All rows add up to the product, skipping zero limbs |
| Bigint.Mult | skynet-master/3rd/cjson/dtoa.c:805-914 | The product exactly, without leading zero limbs |
| Bigint.Cmp | skynet-master/3rd/cjson/dtoa.c:1034-1066 | The sign of the difference |
| Bigint.ShiftInto | skynet-master/3rd/cjson/dtoa.c:1001-1013 | The limbs shifted by less than a word, with what runs over |
| Bigint.LShift | skynet-master/3rd/cjson/dtoa.c:974-1031 | b * 2^k exactly, for whole and part limbs |
| Bigint.Diff | skynet-master/3rd/cjson/dtoa.c:1068-1148 | The absolute difference and its sign, with borrows through all limbs |
| Bigint.SubtractMultiple | skynet-master/3rd/cjson/dtoa.c:2160-2197 | The difference of b and q * S, with carry and borrow in one pass |
| Bigint.QuoremLength | skynet-master/3rd/cjson/dtoa.c:2138-2144 | A number below 10 * S has no more limbs than S, and is below S when it has fewer |
| Bigint.Estimate | skynet-master/3rd/cjson/dtoa.c:2145-2149 | The estimate from the top limbs is at most the quotient, and what it leaves is below 2 * S |
| Bigint.EstimateLimbs | skynet-master/3rd/cjson/dtoa.c:2145-2149 | The same of limbs whose top one has exactly four leading zero bits: one correction is enough |
| Bigint.Quorem | skynet-master/3rd/cjson/dtoa.c:2119-2241 | The quotient and the remainder of b and S, for b < 10 * S |
| Bigint.Hi0Bits | skynet-master/3rd/cjson/dtoa.c:707-738 | The number of leading zero bits |
| Bigint.DShift | skynet-master/3rd/cjson/dtoa.c:2107-2116 | After the shift that it asks for the top limb has exactly four leading zero bits |
| Dtoa.Powers.Extend | skynet-master/3rd/cjson/dtoa.c:940-960 | The list of 5^(4 * 2^i) grows by squaring its last element, and keeps what it had |
| Dtoa.Powers.Pow5Mult | skynet-master/3rd/cjson/dtoa.c:917-972 | b * 5^k for every k |
| Dtoa.RoundsToNearest | skynet-master/3rd/cjson/dtoa.c:4298-4313 | The rounding of the specification is to the nearest, ties to even |
| Dtoa.ExpansionStep | skynet-master/3rd/cjson/dtoa.c:4284-4297 | One quotient and a multiplication by ten give the next digit of the expansion |
| Dtoa.ExpansionRounds | skynet-master/3rd/cjson/dtoa.c:4298-4313 | Comparing twice the remainder with S, and the last digit on a tie, decides the rounding of the expansion |
| Dtoa.ExpansionExact | skynet-master/3rd/cjson/dtoa.c:4287-4292 | A remainder of zero ends the expansion exactly |
| Dtoa.RoundOff | skynet-master/3rd/cjson/dtoa.c:4314-4322 | Rounding up carries over nines, and over all of them to one more digit |
| Dtoa.TrimZeros | skynet-master/3rd/cjson/dtoa.c:4323-4329 | Trailing zeros are dropped and the value stays |
| Dtoa.RoundLast | skynet-master/3rd/cjson/dtoa.c:4298-4329 | The digits so far become the expansion rounded half-even |
| Dtoa.FixedDigits | skynet-master/3rd/cjson/dtoa.c:4284-4329 | The digit loop gives the decimal expansion of b / S rounded half-even to `ilim` digits |
| Dtoa.RoundsScaled | skynet-master/3rd/cjson/dtoa.c:4149-4157 | A common factor of number and divisor changes no digit |
| Dtoa.Prepare | skynet-master/3rd/cjson/dtoa.c:4101-4157 | Powers of five, common powers of two and the shifts keep the ratio, and leave a divisor that `quorem` accepts |
| Dtoa.Convert | skynet-master/3rd/cjson/dtoa.c:4101-4329 | The digits of mant * 2^b2 * 5^b5 / (2^s2 * 5^s5), rounded half-even, with the decimal exponent corrected when the estimate was one too large |
| Socket.WireShape | skynet-master/skynet-src/socket_server.c:712-742 | Whatever is written to a descriptor is whole packages and then at most a part of one, or it is torn |
| Socket.SendListKeeps | skynet-master/skynet-src/socket_server.c:712-742 | Any sequence of partial writes, errors and would-block answers keeps the partly sent head, the sizes and the lists |
| Socket.CloseWriteKeeps | skynet-master/skynet-src/socket_server.c:689-710 | A failed write closes a socket whose read side had ended, with everything freed, and otherwise only ends its write side; the invariant is kept |
| Socket.SendBufferKeeps | skynet-master/skynet-src/socket_server.c:858-946 | The whole send keeps the invariant, moves bytes only from the lists to the wire, and reports nothing but a failure |
| Socket.SendSocketKeeps | skynet-master/skynet-src/socket_server.c:1006-1076 | A send command appends to one list, or drops, arms the write event when the lists were empty, and takes back one sending count |
| Socket.SendSocketHeld | skynet-master/skynet-src/socket_server.c:1006-1076 | Each package of a command is queued or dropped once |
| Socket.SendSocketOutgoing | skynet-master/skynet-src/socket_server.c:1006-1076 | The packages of a worker wait in the order of its commands |
| Socket.SendBufferKind | skynet-master/skynet-src/socket_server.c:858-946 | Sending never raises a close, and changes the state of a socket only forward |
| Socket.NothingToSend | skynet-master/skynet-src/socket_server.c:858-946 | A send with nothing waiting leaves nothing waiting |
| SocketRuns.StepKeeps | skynet-master/skynet-src/socket_server.c:1797-1873 | Every step of the socket thread or of a worker keeps the write-path invariant, except a direct write that begins in the gap of `force_close` |
| SocketRuns.RunSafe | skynet-master/skynet-src/socket_server.c:712-742 | All invariants hold after every run without such a write, with any number of workers |
| SocketRuns.WireIsWhole | skynet-master/skynet-src/socket_server.c:828-985 | On every such run the wire is the finished packages, followed by the sent part of the one under way, which is in `dw_buffer` or at the head of the high list; `wb_size` is the unsent bytes of both lists |
| SocketRuns.IssueOrder | skynet-master/skynet-src/socket_server.c:1306-1336 | On every such run the high-priority packages of each worker reach the wire in the order in which it sent them |
| SocketRuns.NothingLost | skynet-master/skynet-src/socket_server.c:1006-1076 | On every such run each package is in as many places as it was sent: finished, waiting, in hand or dropped; and what waits has its write event |
| SocketRuns.StepConserved | skynet-master/skynet-src/socket_server.c:828-985 | Each step keeps the count of every package |
| SocketRuns.StepOrdered | skynet-master/skynet-src/socket_server.c:1797-1873 | Each step keeps the order of every worker |
| SocketRuns.StepArmed | skynet-master/skynet-src/socket_server.c:919-946 | Each step keeps a write event for what waits |
| SocketRuns.StepClosedOnce | skynet-master/skynet-src/socket_server.c:479-510 | Each step keeps that a close was reported exactly when reading has ended |
| SocketRuns.ReportedOnce | skynet-master/skynet-src/socket_server.c:1736-1744 | On every run a close is reported at most once |
| SocketRuns.ReportLeaves | skynet-master/skynet-src/socket_server.c:1105-1154 | A close is reported only on leaving a state other than HALFCLOSE_READ, for that state or INVALID, and HALFCLOSE_READ only becomes INVALID |
| SocketRuns.GapTears | skynet-master/skynet-src/socket_server.c:489-504 | A direct write that begins in the gap tears the wire exactly when it writes anything or its package is empty; outside the gap none does |
| SocketRuns.GapRun | skynet-master/skynet-src/socket_server.c:489-504 | A run in which the gap lets a whole package follow half of another |
| SocketRuns.CloseStrands | skynet-master/skynet-src/socket_server.c:1127-1154 | A close without force leaves a socket closing with nothing to write exactly when nothing waits, a send is in flight and its write side is open |
| SocketRuns.StrandedStays | skynet-master/skynet-src/socket_server.c:1006-1040 | On such a socket the send in flight is dropped, and nothing else is changed |
| SocketRuns.StrandedRun | skynet-master/skynet-src/socket_server.c:1127-1154 | A run after which the socket stays half closed, with nothing in flight, nothing to write and no write event |
| SocketThread.Slot.ForceClose | skynet-master/skynet-src/socket_server.c:479-510 | The fields change in place as specified |
| SocketThread.Slot.CloseWrite | skynet-master/skynet-src/socket_server.c:689-710 | The fields change in place as specified, and the status says what became of the socket |
| SocketThread.Slot.SendListTcp | skynet-master/skynet-src/socket_server.c:712-742 | The loop over the head of a list, with every answer of `write`, is the specified send |
| SocketThread.Slot.RaiseUncomplete | skynet-master/skynet-src/socket_server.c:828-843 | The partly sent buffer of the low list becomes the high list |
| SocketThread.Slot.SendLists | skynet-master/skynet-src/socket_server.c:858-917 | High list, low list and the end of the send are as specified |
| SocketThread.Slot.SendBuffer | skynet-master/skynet-src/socket_server.c:919-946 | The direct-write buffer goes in front, and the whole send is as specified |
| SocketThread.Slot.SendSocket | skynet-master/skynet-src/socket_server.c:1006-1076 | The command queues or drops as specified |
| SocketThread.Slot.CloseSocket | skynet-master/skynet-src/socket_server.c:1127-1154 | Closing and shutting down are as specified |
| SocketThread.Slot.ForwardMessage | skynet-master/skynet-src/socket_server.c:1400-1437 | Reading data, an error or the end of the stream is as specified |
| Netpack.ParseExact | skynet-master/lualib-src/lua-netpack.c:182-307 | Every stream is its packages, each behind its length, and an incomplete rest |
| Netpack.ParseStream | skynet-master/lualib-src/lua-netpack.c:182-307 | Packages behind their lengths, and an incomplete rest, parse to themselves |
| Netpack.ParseCut | skynet-master/lualib-src/lua-netpack.c:188-307 | Parsing a stream cut anywhere, the rest in front of what follows, is parsing it whole |
| Netpack.Queue.FindUncomplete | skynet-master/lualib-src/lua-netpack.c:92-114 | The partial package of a stream is unlinked from its chain, and those of other streams stay |
| Netpack.Queue.SaveUncomplete | skynet-master/lualib-src/lua-netpack.c:169-180 | A partial package is linked into its chain |
| Netpack.Queue.PushData | skynet-master/lualib-src/lua-netpack.c:150-167 | A package goes to the end of the ring, which grows when it is full |
| Netpack.Queue.ExpandQueue | skynet-master/lualib-src/lua-netpack.c:133-148 | Growing the ring keeps its packages in order |
| Netpack.Queue.PushMore | skynet-master/lualib-src/lua-netpack.c:188-215 | A buffer becomes its packages, and its rest a partial package |
| Netpack.Queue.FillUncomplete | skynet-master/lualib-src/lua-netpack.c:228-279 | A partial package, even one byte of a length, is completed by the next chunk, and what is left is handled as a buffer |
| Netpack.Queue.FilterData | skynet-master/lualib-src/lua-netpack.c:227-307 | A chunk is added to what its stream had, and the packages completed are the answer or in the queue |
| Netpack.Queue.Pop | skynet-master/lualib-src/lua-netpack.c:396-416 | The first package leaves the queue |
| Netpack.Queue.CloseUncomplete | skynet-master/lualib-src/lua-netpack.c:217-225 | A closed stream loses its partial package |
| Netpack.ChunksDoNotMatter | skynet-master/lualib-src/lua-netpack.c:188-410 | For any interleaving of streams, cut into any chunks and closed at any time: what each stream was given is what the reference parser finds in its bytes, and what is kept is its rest |
| Netpack.Delivered | skynet-master/lualib-src/lua-netpack.c:188-410 | A stream of whole packages, however it arrives, is delivered as those packages, and nothing is kept |
| Netpack.Serve | skynet-master/lualib-src/lua-netpack.c:227-416 | Serving any events with the queue itself gives what the specification gives |
| Seri.PackSucceeds | skynet-master/lualib-src/lua-seri.c:296-340 | Packing succeeds exactly on supported values nested no deeper than the limit |
| Seri.IntegerBack | skynet-master/lualib-src/lua-seri.c:142-175 | An integer of any width is read back, from 1, 2, 4 or 8 bytes |
| Seri.StringBack | skynet-master/lualib-src/lua-seri.c:190-215 | A string of any length is read back, in each of its three forms |
| Seri.SizeBack | skynet-master/lualib-src/lua-seri.c:217-238 | The size of an array is read back, from the tag or from the number behind it |
| Seri.PackBack | skynet-master/lualib-src/lua-seri.c:523-531 | A packed value at any depth, before anything else, is read back and the rest is left |
| Seri.RoundTrip | skynet-master/lualib-src/lua-seri.c:555-612 | Unpacking a packed sequence of values returns it |
| SeriBlocks.WriteBlock.Push | skynet-master/lualib-src/lua-seri.c:65-85 | Bytes of any number go to the list of blocks of 128 bytes, and the list spells what was written |
| SeriBlocks.WriteBlock.PushInteger | skynet-master/lualib-src/lua-seri.c:142-175 | An integer is written as specified |
| SeriBlocks.WriteBlock.PushString | skynet-master/lualib-src/lua-seri.c:190-215 | A string is written as specified |
| SeriBlocks.WriteBlock.PackTable | skynet-master/lualib-src/lua-seri.c:282-294 | The array part and the other pairs are written as specified |
| SeriBlocks.WriteBlock.PackOne | skynet-master/lualib-src/lua-seri.c:296-340 | A value is written as specified, or refused exactly when it should be |
| SeriBlocks.WriteBlock.Flatten | skynet-master/lualib-src/lua-seri.c:534-553 | The copy out of the blocks is the bytes written |
| SeriBlocks.ReadBlock.GetInteger | skynet-master/lualib-src/lua-seri.c:359-400 | An integer is read as specified |
| SeriBlocks.ReadBlock.UnpackArray | skynet-master/lualib-src/lua-seri.c:435-453 | The elements are read as specified |
| SeriBlocks.ReadBlock.UnpackHash | skynet-master/lualib-src/lua-seri.c:454-463 | The pairs up to the nil are read as specified |
| SeriBlocks.ReadBlock.UnpackOne | skynet-master/lualib-src/lua-seri.c:467-531 | A value is read as specified, and refused exactly when the specification refuses it |
| SeriBlocks.PackAndUnpack | skynet-master/lualib-src/lua-seri.c:555-612 | Writing blocks, copying them out and reading them back returns the values, or refuses them as a whole |
| Sharedata.Frozen.CountSize | skynet-master/lualib-src/lua-sharedata.c:67-89 | The size counted is the number of keys outside the array |
| Sharedata.PlaceMain | skynet-master/lualib-src/lua-sharedata.c:212-235 | A key put into its free main slot keeps every chain |
| Sharedata.PlaceColliding | skynet-master/lualib-src/lua-sharedata.c:237-273 | A key put into a free slot behind its main slot keeps every chain |
| Sharedata.FreeSlot | skynet-master/lualib-src/lua-sharedata.c:252-259 | While a key is still to be placed there is a free slot |
| Sharedata.Frozen.FillNoColliding | skynet-master/lualib-src/lua-sharedata.c:212-235 | After the first pass the array part and one key of each main slot are stored |
| Sharedata.Frozen.FindEmpty | skynet-master/lualib-src/lua-sharedata.c:252-259 | The search for a free slot stays in the table |
| Sharedata.Frozen.FillColliding | skynet-master/lualib-src/lua-sharedata.c:237-273 | After the second pass every key outside the array is stored |
| Sharedata.Frozen.constructor | skynet-master/lualib-src/lua-sharedata.c:277-326 | A frozen table holds its source |
| Sharedata.Frozen.LookupKey | skynet-master/lualib-src/lua-sharedata.c:502-531 | The search along a chain ends, and finds a key exactly when it is stored |
| Sharedata.Frozen.Index | skynet-master/lualib-src/lua-sharedata.c:533-567 | A lookup gives what the source has |
| Sharedata.Frozen.NextKey | skynet-master/lualib-src/lua-sharedata.c:580-647 | The next key is the one after it in the order of the table, array first |
| Sharedata.Frozen.AllKeys | skynet-master/lualib-src/lua-sharedata.c:580-647 | Going from key to key visits every key of the source, once |
| Sharedata.OrderDistinct | skynet-master/lualib-src/lua-sharedata.c:590-647 | No key comes twice in the order of the table |
| Sharedata.OrderComplete | skynet-master/lualib-src/lua-sharedata.c:590-647 | The order of the table has exactly the keys of the source |
| Sharedata.AllThere | skynet-master/lualib-src/lua-sharedata.c:212-273 | A table with as many slots as keys is full when all keys are stored |
| Des.FinalAfterInitial | skynet-master/lualib-src/lua-crypt.c:206-231 | The final permutation undoes the initial one |
| Des.InitialAfterFinal | skynet-master/lualib-src/lua-crypt.c:206-231 | The initial permutation undoes the final one |
| Des.RoundsBack | skynet-master/lualib-src/lua-crypt.c:233-247 | n rounds with the pairs of subkeys backwards bring the halves back to those before the last n rounds, whatever the S-boxes and the subkeys are |
| Des.CryptBack | skynet-master/lualib-src/lua-crypt.c:320-342 | A block enciphered is recovered with the schedule backwards, for any 32 words |
| Des.CryptBlock | skynet-master/lualib-src/lua-crypt.c:320-342 | The rounds with the halves in place compute the cipher, and write nothing but the eight bytes of the output |
| Des.BlocksBack | skynet-master/lualib-src/lua-crypt.c:461-485 | The same for every text of whole blocks |
| Des.AddPadding | skynet-master/lualib-src/lua-crypt.c:379-407 | The bytes from the offset on become the padding of the mode |
| Des.RemoveIso7816 | skynet-master/lualib-src/lua-crypt.c:385-400 | The length found is that of a padding at the end, and none is found exactly when there is none |
| Des.RemovePkcs7 | skynet-master/lualib-src/lua-crypt.c:408-418 | The same; a last byte over 8 is refused whatever lies in front |
| Des.OnePadding | skynet-master/lualib-src/lua-crypt.c:379-418 | Bytes end in one padding of a mode at most |
| Des.PaddedEnds | skynet-master/lualib-src/lua-crypt.c:445-449 | What is padded to a given plain text is what is left when its padding is removed, and nothing else |
| Des.Encode | skynet-master/lualib-src/lua-crypt.c:461-485 | The cipher text of the padded text, or the error for an unknown mode |
| Des.Decode | skynet-master/lualib-src/lua-crypt.c:487-517 | A text comes out if and only if the input is its cipher text; each error if and only if its condition holds; the bytes before the buffer do not matter |
| Des.RoundTrip | skynet-master/lualib-src/lua-crypt.c:461-517 | Decoding what was encoded returns the text |
| DiffieHellman.DigitStep | skynet-master/lualib-src/lua-crypt.c:795-815 | One binary digit of the multiplier keeps the sum of product and remainder modulo P |
| DiffieHellman.DoubleStep | skynet-master/lualib-src/lua-crypt.c:807-811 | Doubling within 64 bits, with the overflow wrapped, is doubling modulo P |
| DiffieHellman.MulModP | skynet-master/lualib-src/lua-crypt.c:795-815 | The product modulo P, although twice a factor need not fit 64 bits |
| DiffieHellman.PowModP | skynet-master/lualib-src/lua-crypt.c:817-829 | The power modulo P by squaring; for exponent 1 the number itself |
| DiffieHellman.PowerModP | skynet-master/lualib-src/lua-crypt.c:831-836 | The power modulo P if and only if the base is not P itself with exponent 1, which gives P |
| DiffieHellman.NeverZero | skynet-master/lualib-src/lua-crypt.c:870-886 | No power of the generator is 0 modulo P |
| DiffieHellman.Agree | skynet-master/lualib-src/lua-crypt.c:853-886 | Both parties compute the same secret, without error, whatever numbers other than 0 they chose |
| Sha1.ReversedLittle | skynet-master/lualib-src/lsha1.c:105-111 | The word swapped on a machine with the low byte first is the word of the standard |
| Sha1.MixedIsF | skynet-master/lualib-src/lsha1.c:115-120 | The shorter bit forms are the functions Ch and Maj of FIPS 180-4 |
| Sha1.KeptWord | skynet-master/lualib-src/lsha1.c:112-113 | The word 3, 8, 14 or 16 back is found at its place modulo 16 |
| Sha1.KeptNext | skynet-master/lualib-src/lsha1.c:112-113 | Storing a new word over the oldest keeps the last sixteen words |
| Sha1.NextWord | skynet-master/lualib-src/lsha1.c:106-113 | The in-place schedule of 16 words yields the words of the schedule of 80 |
| Sha1.Transform | skynet-master/lualib-src/lsha1.c:123-173 | Rounds whose variables change roles, over the 16 words, compress a block as section 6.1.2 of FIPS 180-4 does |
| Sha1.CountedRight | skynet-master/lualib-src/lsha1.c:198-200 | The bit counter is right after an update if and only if it is shorter than 2^29 bytes or the low words carry |
| Sha1.CountedValue | skynet-master/lualib-src/lsha1.c:198-200 | Otherwise it is too large by 2^32 |
| Sha1.CountedFromZero | skynet-master/lualib-src/lsha1.c:249-261 | For a whole message in one update the counter is right exactly below 2^29 bytes |
| Sha1.CountedTwice | skynet-master/lualib-src/lsha1.c:198-200 | For 2^29 bytes the counter says twice as many bits as there are |
| Sha1.Context.Update | skynet-master/lualib-src/lsha1.c:189-215 | After an update the state is that of the whole blocks of the message so far, and the buffer begins with the rest |
| Sha1.Context.Final | skynet-master/lualib-src/lsha1.c:218-245 | The digest is that of the message with the byte 0x80, the fewest zeros and the counter behind it |
| Sha1.Hash | skynet-master/lualib-src/lsha1.c:249-261 | The digest of a message shorter than 2^29 bytes is its SHA-1; of a longer one, that of the stream with the counter as counted |
| Sha1.HashParts | skynet-master/lualib-src/lsha1.c:189-245 | However a message is cut into parts shorter than 2^29 bytes, the digest is the SHA-1 of the message |
| Sha1.XorKey | skynet-master/lualib-src/lsha1.c:265-272 | Combining words of four equal bytes combines every byte |
| Sha1.XoredTwice | skynet-master/lualib-src/lsha1.c:296-300 | Going from the outer to the inner pad in place gives the inner pad |
| Sha1.HmacSha1 | skynet-master/lualib-src/lsha1.c:274-313 | The keyed hash of section 2 of RFC 2104, for keys and texts shorter than 2^29 bytes |
| Bson.RawSizeLocal | skynet-master/lualib-src/lua-bson.c:740-823 | How far a value goes depends on its own bytes only |
| Bson.DecodeIsFold | skynet-master/lualib-src/lua-bson.c:598-738 | Decoding is one pass that puts the fields into a table, a later one over an earlier one of its name |
| Bson.FieldsPatched | skynet-master/lualib-src/lua-bson.c:861-909 | Overwriting the value of an indexed field in place changes that value in the list of fields, and nothing else |
| Bson.FoldReplaced | skynet-master/lualib-src/lua-bson.c:598-738 | A value replaced in the list of fields shows in the table if its field is the last of the name, and else not at all |
| Bson.DocumentPatched | skynet-master/lualib-src/lua-bson.c:861-909 | The patched document decodes to the table with the one name changed, or unchanged |
| Bson.IdBack | skynet-master/lualib-src/lua-bson.c:812 | The type comes back from an entry of the index always, the place if and only if it is below 2^26 |
| Bson.PlaceLost | skynet-master/lualib-src/lua-bson.c:812 | The place 2^26 comes back as its negative |
| Bson.IndexIs | skynet-master/lualib-src/lua-bson.c:740-823 | The index has of each name the last field whose type has a fixed size |
| Bson.WrittenShown | skynet-master/lualib-src/lua-bson.c:825-909 | A value that is accepted reads back as shown: dates through milliseconds, timestamps, booleans and numbers |
| Bson.ShownExactly | skynet-master/lualib-src/lua-bson.c:888-895 | An integer in a field of 32 bits reads back as itself if and only if it fits |
| Bson.ShownWrapped | skynet-master/lualib-src/lua-bson.c:888-895 | The integer 2^31 reads back as its negative |
| BsonReader.Reader.ReadCstring | skynet-master/lualib-src/lua-bson.c:160-177 | A name up to its zero, or the error when there is none |
| BsonReader.Skip | skynet-master/lualib-src/lua-bson.c:745-811 | The cursor goes over the value by the size of its type, or by its strings or its length, when that is not negative |
| BsonReader.MakeIndex | skynet-master/lualib-src/lua-bson.c:740-823 | One pass builds the index, or fails exactly when the fields do not parse; a negative length does not |
| BsonReader.WriteLittle | skynet-master/lualib-src/lua-bson.c:184-193 | The bytes of a number take the place of as many bytes, low byte first |
| BsonReader.Replace | skynet-master/lualib-src/lua-bson.c:861-909 | An accepted value overwrites the bytes of its field, and nothing changes otherwise |
| BsonReader.UnpackValue | skynet-master/lualib-src/lua-bson.c:632-734 | A value of each type is decoded from exactly its bytes; a negative length is refused |
| BsonReader.UnpackDict | skynet-master/lualib-src/lua-bson.c:598-738 | A document with all that is nested in it is decoded as specified, and the cursor is behind it; a length below five is refused |
| BsonReader.ReplaceAndDecode | skynet-master/lualib-src/lua-bson.c:740-909 | Decode, index, replace and decode again: the table changes in the one name, to the new value, when the indexed field is the last of the name, and is the same otherwise; for every document, whatever its length, whose indexed field begins below 2^26 |
| BsonReader.ReplaceUnseen | skynet-master/lualib-src/lua-bson.c:740-909 | The document with a number and then a string of one name: the replacement of the number is accepted, and decoding shows the string as before |

## Left out

- PegGrammar.VerifiedTerminates: termination is proved where the check drops and passes over nothing and no look-behind calls back. `WronglyAccepted` is exact for what is accepted, not for what terminates: a grammar can be accepted wrongly and still end on every subject, which no program can decide for all grammars.
- PegGrammar.AcceptedTerminates: is about the stricter check, which the code is not; it is what the check is meant to be.
- PegAccepted.AcceptedCompiles: a grammar inside a rule that is not used is also taken to have been accepted when it was built, since it is compiled too.
- PegCorrect.CompileCorrect: says nothing of subjects on which the PEG itself does not end; what ends is the subject of `PegGrammar`.
- PegGrammar.VerifyGrammar: rules are numbered, not named, and the error messages are not modelled.
- LPeg captures, runtime captures, the limits of the backtrack stack and of memory, and the rewriting of trees when patterns are combined (`correctassociativity`, `correctkeys`).
- PegAnswers.FixedLenMarked: marks rules, where the original marks the calls to them; either way the answer is -1 where the measuring would not end.
- `lp_choice` and `lp_star` ask `nofail` and `nullable` while patterns are combined (`lptree.c:559`, `lptree.c:578`), and need not come back from a grammar that was accepted wrongly either; trees are given as they are built.
- Timer.FiresOnTime: timeouts of zero or less are sent directly by `skynet_timeout` and never reach the wheel; the clock that decides how many updates happen is a parameter.
- Scheduler.OnePlace: handles are never used again in the model; the counter of handles wrapping around is not part of it.
- Scheduler.RunKeeps: what a service does while it handles a message is left to the other threads, who may do all of it; sessions, profiling, the monitor and the text of log lines are not modelled. After a touch of memory that is not there the model goes on as if nothing had been there. A handle is registered and written to its context in one step.
- Scheduler.MemorySafe: what the callers of `skynet_context_new` do with the pointer that it returns is theirs to answer for, and no part of it.
- MessageQueue.MQ.Pop: the recorded overload is part of the queue, not of the machine of `Scheduler`.
- Dtoa.Convert: modes that give the shortest digits (`leftright`), the floating-point shortcut, limits below one digit and the other rounding modes; `ilim` is at least one.
- Dtoa.Powers.Pow5Mult: the list of powers under its lock is one thread's; numbers given back to `Balloc` for reuse are not modelled.
- SocketRuns.WireIsWhole: UDP, user objects as buffers, failing event registration, pausing, warnings about large buffers and the reuse of a slot for another socket; sends begin after the socket is open, and `can_direct_write` with the write behind it is one step under the lock.
- SocketRuns.IssueOrder: is about high-priority packages; low-priority ones wait for these by design.
- Netpack.Queue.FilterData: only data messages; the messages for opening, errors and warnings pass through unchanged, and `lclear` is not modelled.
- Seri.RoundTrip: doubles and pointers are eight bytes; tables with `__pairs` are given as the pairs that they yield, and the host stores the low byte first.
- SeriBlocks.PackAndUnpack: the total length in `wb.len` is an int in the original; more than 2^31 - 1 bytes in all are not modelled.
- SeriBlocks.ReadBlock.UnpackOne: a string length of 2^31 or more in four bytes, which becomes negative in the original and is not refused there, is refused here when the bytes are not there.
- Sharedata.Frozen.Index: strings stand for their places in the string table, with any hash; nested tables are values of their own, and integer keys have 32 bits.
- Des.Encode: the contents of the S-boxes and the making of the 32 words from the key are parameters; an input of 2^31 bytes or more is not modelled.
- Des.RemovePkcs7: the bytes in front of the buffer that a bad length makes the loop look at are any bytes, and must exist.
- DiffieHellman.PowModP: the exponent 0, for which the original would not return, is excluded by its callers.
- Sha1.Hash: that the wrong counter of a message of 2^29 bytes or more changes the digest cannot be proved; the stream that is digested is stated instead.
- BsonReader.Skip: a negative length, which the original accepts and with which its cursor goes back (so that a pass need not end), is refused here.
- BsonReader.MakeIndex: the same.
- BsonReader.UnpackValue: the same.
- BsonReader.UnpackDict: the same for a length below five; how a name is read as a number in an array (`strtol`) is any function.
- BsonReader.Replace: a string that Lua would convert to a number is refused for a double, and the conversion of an integer to a double is any function.
- Encoding of BSON, with lengths patched behind and UTF-8 checked: easier than what is proved of reading.
- Base64, hexadecimal, MD5 and the small hashes of `lua-crypt.c`; JSON; the read buffers of `lua-socket.c` and `databuffer.h`; harbor frames; handles and names: they repeat, in simpler form, what is proved of rings, chunks, chains and round trips.
