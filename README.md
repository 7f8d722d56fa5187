# Countdown generator and closable grep coroutines, modelled in Dafny

This project models two small Python teaching scripts. Each one is a suspendable routine, and here each becomes an explicit stepper object.

- `countdown(n)` (`countdown.py`) is a generator. Its first resume prints `Counting down from n`. Each resume then hands back the counter n, n-1, …, 1. When the guard `n > 0` fails it prints `Done counting down` and is exhausted for good.
- `grep`, `grep2` and `grep3` (`grepclose.py`) are coroutines. Each is primed at creation, which prints `Looking for <pattern>`. Each then prints every line sent to it that contains the pattern. They differ only in how they react to `close()`:
  - `grep` prints a goodbye and stops.
  - `grep2` yields from its `GeneratorExit` handler, so `close()` raises `RuntimeError("generator ignored GeneratorExit")`.
  - `grep3` prints `clean up!` from a `finally` clause.

Module layout:

- `wrappers.dfy`, module `Wrappers`: `Option`, the result of one resume.
- `countdown.dfy`, module `CountdownGenerator`:
  - the pure specification `Values(n)` = [n, n-1, …, 1] and the lemmas about it;
  - the class `Countdown`, with fields `n`, `started`, `finished`, a ghost output `log` and a ghost `yielded` history;
  - the consumer loop `Run` and the demo driver.
- `grepclose.dfy`, module `GrepClose`:
  - the substring predicate `Contains` (Python's `pattern in line`) and its occurrence-index characterisation;
  - the printed-lines function `Matching`;
  - one class `Grep`, parameterised by a `ClosePolicy` (`ExceptGoodbye` = grep, `ExceptYield` = grep2, `FinallyCleanUp` = grep3), with a `Phase`, a constant `pattern` and a ghost output `log`;
  - the example drivers.

Console output (`print`) is modelled by appending to a ghost `log: seq<string>`. `print(line)` is logged as the line itself. `print("Counting down from", n)` is logged as `"Counting down from " + str(n)`, with `str` written out as `DecimalString`.

Design decisions that follow the code:

- **Countdown position.** The resume position is given by `started` and `finished`. After one resume hands back v, the generator is parked at `yield n` with `n == v`. The decrement `n -= 1` (countdown.py:11) runs at the start of the following resume. The values handed back are the same as with decrement-on-yield. So the property "each yield is one below the one before it" is stated on consecutive yields (`Next`, `ValuesShape`).
- **Lingering grep2.** After `close()` fails with RuntimeError, CPython leaves the generator suspended at `yield "???"`. The model calls this phase `Lingering`. A later `send` from there finishes the handler, the body returns, and `send` raises StopIteration. A later `close()` throws GeneratorExit at that `yield`, which sits inside the `except GeneratorExit:` clause; the `try`'s own handlers do not cover that clause, so the exception propagates and `close()` returns normally.
- **send and close on a finished routine.** `send` on a finished routine raises StopIteration in Python. `Send` therefore has no precondition on the phase: it returns `Stopped` and changes nothing. `close()` on a finished routine is a no-op that returns normally.
- **grep2's close is an error, not a value.** Yielding from a `GeneratorExit` handler makes `close()` raise RuntimeError, so grep2's `close()` never hands back `"???"`; the model follows the code.
- **The example script stops early.** The RuntimeError from `g.close()` at grepclose.py:50 is not caught, so the example script ends there, and its grep3 part (lines 52-54) never runs. `DemoGrep3` models those lines as if they ran on their own.
- **The start announcement's text.** `Countdown` holds it in a constant field `banner`, which the constructor sets to `StartBanner(n)`. The source formats it at the first resume. The counter still equals the argument at that point, so the text is the same.
- **The pattern cannot change.** `pattern` is a `const` field, so nothing after construction can modify it.

## Model

| member | source | states |
|---|---|---|
| `CountdownGenerator.ValuesLength` | countdown.py:9-11 | a full run yields max(n, 0) values; nothing at all when n <= 0 |
| `CountdownGenerator.ValuesAt` | countdown.py:9-11 | the i-th value of a full run is n - i |
| `CountdownGenerator.ValuesShape` | countdown.py:9-11 | every yielded value lies in 1..n, and each one is exactly one less than the one before it |
| `CountdownGenerator.ValuesStrictlyDecreasing` | countdown.py:9-11 | the yielded sequence is strictly decreasing |
| `CountdownGenerator.DigitChar` | countdown.py:8 | each decimal digit is spelt by the character that denotes it |
| `CountdownGenerator.NaturalString` | countdown.py:8 | the spelling of a natural number is non-empty, all decimal digits, without a leading zero, and denotes that number |
| `CountdownGenerator.DecimalString` | countdown.py:8 | the number printed in the start announcement is spelt so that reading it back gives n, with a leading '-' exactly when n is negative, and the text after the sign is non-empty decimal digits without a leading zero |
| `CountdownGenerator.Countdown.constructor` | countdown.py:7 | creating the generator runs none of its body: nothing is printed or yielded, and the whole of Values(n) is pending |
| `CountdownGenerator.Countdown.Next` | countdown.py:7-12 | one resume hands back the next pending value of the full run, or nothing exactly when none is pending; while parked the counter equals the value just yielded, within 1..n, one below the previous yield; the start announcement is logged on the first resume only, and the done announcement only on the resume that ends the loop, after the last value; an exhausted generator stays exhausted with counter, log and history unchanged; the invariant ties history plus pending values to Values(n) |
| `CountdownGenerator.Run` | countdown.py:17-18 | consuming the generator to exhaustion yields exactly [n, n-1, …, 1] and prints the start announcement then the done announcement, each once |
| `CountdownGenerator.TwoResumes` | countdown.py:20-25 | two resumes of countdown(5) hand back 5 then 4, and only the start announcement has been printed |
| `GrepClose.Contains` | grepclose.py:13 | the empty pattern is in every line; a contained pattern is no longer than the line |
| `GrepClose.OccurrenceContained` | grepclose.py:13 | an occurrence of the pattern at any index makes it contained |
| `GrepClose.ContainedOccurs` | grepclose.py:13 | a contained pattern occurs at some index, which the lemma returns |
| `GrepClose.ContainsIff` | grepclose.py:13 | containment holds if and only if the pattern occurs as a contiguous slice of the line |
| `GrepClose.Embedded` | grepclose.py:13 | any line of the form before + pattern + after contains the pattern |
| `GrepClose.MissingFirstChar` | grepclose.py:13 | a non-empty pattern whose first character is absent from the line is not contained in it |
| `GrepClose.MatchingAppend` | grepclose.py:11-14 | receiving one more line appends exactly that line's echo (the line if it matches, else nothing) to the printed lines |
| `GrepClose.MatchingMembers` | grepclose.py:11-14 | a line is printed if and only if it was received and contains the pattern |
| `GrepClose.MatchingLength` | grepclose.py:11-14 | no more lines are printed than received, and with an empty pattern every received line is printed |
| `GrepClose.Grep.constructor` | grepclose.py:7-12 | priming logs exactly "Looking for <pattern>" before any line is received and leaves the routine active with the given policy and pattern |
| `GrepClose.Grep.Send` | grepclose.py:11-14 | an active routine receives the line, stays active and logs the line if and only if the pattern is in it; a non-matching line leaves log and phase unchanged; a lingering or closed routine reports StopIteration, ends up closed and logs nothing; the invariant keeps the log equal to greeting, matching received lines, then the policy's farewell |
| `GrepClose.Grep.Close` | grepclose.py:10-38 | active grep logs "Going away. Goodbye" once and closes; active grep2 logs nothing, fails with "generator ignored GeneratorExit" and lingers; active grep3 logs "clean up!" once and closes; closing a lingering or closed routine returns normally, logs nothing and leaves it closed |
| `GrepClose.MatchingThree` | grepclose.py:11-14 | three received lines print exactly their echoes, in the order received |
| `GrepClose.FirstLineMisses` | grepclose.py:43 | "python" is not in the first example line |
| `GrepClose.SecondLineMisses` | grepclose.py:44 | "python" is not in the second example line |
| `GrepClose.ExampleHit` | grepclose.py:45 | "python" is in the third example line |
| `GrepClose.ExampleLines` | grepclose.py:42-46 | of the three example lines only "python generators rock!\n" is printed |
| `GrepClose.SendExampleLines` | grepclose.py:43-45 | sending the three example lines to an active "python" routine appends only the third line to its log |
| `GrepClose.DemoGrep` | grepclose.py:42-46 | the grep example prints the greeting, the third line and the goodbye, and its close returns normally |
| `GrepClose.DemoGrep2` | grepclose.py:48-50 | the grep2 example prints the greeting and the line, and its close fails with "generator ignored GeneratorExit" |
| `GrepClose.DemoGrep3` | grepclose.py:52-54 | the grep3 example prints the greeting, the line and "clean up!", and its close returns normally |

## Left out

- Console I/O is not modelled as I/O. `print` becomes an append to a ghost log. The trailing newline that `print` adds is not represented.
- The `coroutine` decorator module is imported at grepclose.py:5 but its source is not part of this model. Only its priming effect is modelled: one advance to the first `yield`, done in the constructor.
- Python's generator runtime is replaced by explicit stepper methods. This covers `__next__`/`send`/`close`, `throw`, StopIteration as an exception, and the close triggered by garbage collection.
- Cleanup when a routine is abandoned without `close()` is not modelled. This includes grep3's `finally` run at finalisation and the second close that a lingering grep2 receives at finalisation. Both depend on the host's garbage collector.
- Exceptions raised inside the body are not modelled. An example is the TypeError from `pattern in line` when a non-string is sent. Lines and patterns are strings by type.
- `countdown` accepts only integers here. Python would also accept other numbers, such as floats.
- Printing the generator object (countdown.py:21) is not modelled. Its output is an address.
- The print loop of countdown.py:17-18 is not modelled. `Run` collects the values instead of printing them.
