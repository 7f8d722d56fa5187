/**
  The line-filter coroutines `grep`, `grep2` and `grep3`: a routine primed at
  creation, which then parks at `line = (yield)` and, for every line sent to
  it, prints the line when the pattern occurs in it. The three differ only in
  what happens when `close()` throws GeneratorExit in at the parked `yield`;
  that difference is the `ClosePolicy` of one class `Grep`.
*/
module GrepClose {

  // ---------------------------------------------------------------------
  // Substring containment: Python's `pattern in line` on strings
  // ---------------------------------------------------------------------

  /** `pattern` occurs in `line` starting at index i. */
  ghost predicate OccursAt(line: string, pattern: string, i: int) {
    0 <= i && i + |pattern| <= |line| && line[i..i + |pattern|] == pattern
  }

  /**
    `pattern in line`: the pattern is a prefix of the line or of one of its
    suffixes. Exact and case-sensitive; the empty pattern is in every line.
  */
  predicate Contains(line: string, pattern: string): (r: bool)
    ensures pattern == [] ==> r
    ensures r ==> |pattern| <= |line|
    decreases |line|
  {
    pattern <= line || (line != [] && Contains(line[1..], pattern))
  }

  /** An occurrence at any index makes the pattern contained in the line. */
  lemma {:induction false} OccurrenceContained(line: string, pattern: string, i: int)
    requires OccursAt(line, pattern, i)
    ensures Contains(line, pattern)
    decreases i
  {
    if i > 0 {
      assert line[1..][i - 1..i - 1 + |pattern|] == line[i..i + |pattern|];
      OccurrenceContained(line[1..], pattern, i - 1);
    }
  }

  /** A contained pattern occurs at some index of the line. */
  lemma {:induction false} ContainedOccurs(line: string, pattern: string) returns (i: int)
    requires Contains(line, pattern)
    ensures OccursAt(line, pattern, i)
    decreases |line|
  {
    if pattern <= line {
      i := 0;
    } else {
      var j := ContainedOccurs(line[1..], pattern);
      assert line[j + 1..j + 1 + |pattern|] == line[1..][j..j + |pattern|];
      i := j + 1;
    }
  }

  /** Containment holds exactly when the pattern occurs at some index of the line. */
  lemma ContainsIff(line: string, pattern: string)
    ensures Contains(line, pattern) <==> exists i :: OccursAt(line, pattern, i)
  {
    if Contains(line, pattern) {
      var i := ContainedOccurs(line, pattern);
    }
    forall i | OccursAt(line, pattern, i)
      ensures Contains(line, pattern)
    {
      OccurrenceContained(line, pattern, i);
    }
  }

  /** A line that embeds the pattern between any two pieces contains it. */
  lemma Embedded(before: string, pattern: string, after: string)
    ensures Contains(before + pattern + after, pattern)
  {
    var line := before + pattern + after;
    assert line[|before|..|before| + |pattern|] == pattern;
    OccurrenceContained(line, pattern, |before|);
  }

  /** A line lacking the pattern's first character does not contain a non-empty pattern. */
  lemma {:induction false} MissingFirstChar(line: string, pattern: string)
    requires pattern != [] && pattern[0] !in line
    ensures !Contains(line, pattern)
    decreases |line|
  {
    if line != [] {
      assert line[0] != pattern[0];
      MissingFirstChar(line[1..], pattern);
    }
  }

  // ---------------------------------------------------------------------
  // What the routine prints
  // ---------------------------------------------------------------------

  /** What one received line prints: the line itself if the pattern is in it, else nothing. */
  function Echo(line: string, pattern: string): seq<string> {
    if Contains(line, pattern) then [line] else []
  }

  /** What a series of received lines prints, in order. */
  function Matching(lines: seq<string>, pattern: string): seq<string>
    decreases |lines|
  {
    if lines == [] then [] else Echo(lines[0], pattern) + Matching(lines[1..], pattern)
  }

  /** Receiving one more line extends the printed lines by that line's echo. */
  lemma {:induction false} MatchingAppend(lines: seq<string>, line: string, pattern: string)
    ensures Matching(lines + [line], pattern) == Matching(lines, pattern) + Echo(line, pattern)
    decreases |lines|
  {
    if lines == [] {
      assert [line][1..] == [];
    } else {
      assert (lines + [line])[1..] == lines[1..] + [line];
      MatchingAppend(lines[1..], line, pattern);
    }
  }

  /** The printed lines are exactly the received lines that contain the pattern. */
  lemma {:induction false} MatchingMembers(lines: seq<string>, pattern: string, x: string)
    ensures x in Matching(lines, pattern) <==> x in lines && Contains(x, pattern)
    decreases |lines|
  {
    if lines != [] {
      MatchingMembers(lines[1..], pattern, x);
      assert lines == [lines[0]] + lines[1..];
    }
  }

  /** Never more lines are printed than were received; all of them when the pattern is empty. */
  lemma {:induction false} MatchingLength(lines: seq<string>, pattern: string)
    ensures |Matching(lines, pattern)| <= |lines|
    ensures pattern == [] ==> Matching(lines, pattern) == lines
    decreases |lines|
  {
    if lines != [] {
      MatchingLength(lines[1..], pattern);
    }
  }

  /** The priming announcement, the pattern formatted into a fixed text. */
  function Greeting(pattern: string): string {
    "Looking for " + pattern
  }

  const GOODBYE: string := "Going away. Goodbye"
  const CLEAN_UP: string := "clean up!"
  /** The message of the RuntimeError that `close()` raises when the routine yields instead of stopping. */
  const IGNORED_EXIT: string := "generator ignored GeneratorExit"

  // ---------------------------------------------------------------------
  // The coroutine
  // ---------------------------------------------------------------------

  /** What the body does with the GeneratorExit that `close()` throws in. */
  datatype ClosePolicy =
    | ExceptGoodbye   // grep: its GeneratorExit handler prints a goodbye
    | ExceptYield     // grep2: its GeneratorExit handler yields another value
    | FinallyCleanUp  // grep3: a finally clause prints a clean-up notice

  /** Where the routine is parked. */
  datatype Phase =
    | Active     // at `line = (yield)` inside the loop
    | Lingering  // grep2 only: at `yield "???"` inside its GeneratorExit handler
    | Closed     // the body has returned or raised out

  /** The outcome of `send(line)`: the line was received, or StopIteration (the body ended). */
  datatype SendResult = Received | Stopped

  /** The outcome of `close()`: it returned, or it raised RuntimeError with the given message. */
  datatype CloseResult = Ok | Error(message: string)

  /** What the body prints on its way out once it reaches Closed. */
  function Farewell(policy: ClosePolicy, phase: Phase): seq<string> {
    if phase != Closed then []
    else match policy
      case ExceptGoodbye => [GOODBYE]
      case ExceptYield => []
      case FinallyCleanUp => [CLEAN_UP]
  }

  class Grep {
    const policy: ClosePolicy
    /** The pattern the routine was created with; a constant, so no operation changes it. */
    const pattern: string
    var phase: Phase
    /** Console output so far. */
    ghost var log: seq<string>
    /** The lines received while active, in order. */
    ghost var received: seq<string>

    /**
      Only grep2 can linger; the output is the greeting, then the matching
      received lines, then the farewell of the policy once closed.
    */
    ghost predicate Valid()
      reads this
    {
      (phase == Lingering ==> policy == ExceptYield) &&
      log == [Greeting(pattern)] + Matching(received, pattern) + Farewell(policy, phase)
    }

    /**
      `grep(pattern)`, `grep2(pattern)` or `grep3(pattern)` under the
      `@coroutine` decorator: the generator is created and advanced once, which
      prints the greeting and parks it at its first `yield`.
    */
    constructor (policy: ClosePolicy, pattern: string)
      ensures Valid()
      ensures this.policy == policy && this.pattern == pattern
      ensures phase == Active && received == [] && log == [Greeting(pattern)]
    {
      this.policy := policy;
      this.pattern := pattern;
      phase := Active;
      received := [];
      log := [Greeting(pattern)];
    }

    /**
      `send(line)`. Active: the line is received and printed if and only if the
      pattern is in it, and the routine parks again. Lingering (grep2 after a
      failed close): the handler runs to its end, so the body returns and send
      raises StopIteration. Closed: StopIteration, nothing happens.
    */
    method Send(line: string) returns (r: SendResult)
      requires Valid()
      modifies this
      ensures Valid()
      ensures r == Received <==> old(phase) == Active
      ensures old(phase) == Active ==>
                phase == Active && received == old(received) + [line] &&
                log == old(log) + Echo(line, pattern)
      ensures old(phase) == Active && !Contains(line, pattern) ==> log == old(log) && phase == old(phase)
      ensures old(phase) != Active ==> phase == Closed && log == old(log) && received == old(received)
    {
      if phase == Active {
        MatchingAppend(received, line, pattern);
        received := received + [line];
        if Contains(line, pattern) {
          log := log + [line];
        }
        r := Received;
      } else {
        phase := Closed;
        r := Stopped;
      }
    }

    /**
      `close()`. On an active routine GeneratorExit is thrown in at the parked
      `yield`: grep prints its goodbye and returns; grep3 runs its `finally`
      clause and the exception propagates out, which close() accepts; grep2
      yields from its handler, so close() raises RuntimeError and the routine
      stays parked at that `yield`. On a lingering grep2 the exception is
      thrown at the `yield` inside the `except` clause, which the `try`'s own
      handlers do not cover, so it propagates and close() returns. On a
      closed routine close() does nothing.
    */
    method Close() returns (r: CloseResult)
      requires Valid()
      modifies this
      ensures Valid()
      ensures received == old(received)
      ensures r == (if old(phase) == Active && policy == ExceptYield then Error(IGNORED_EXIT) else Ok)
      ensures phase == (if old(phase) == Active && policy == ExceptYield then Lingering else Closed)
      ensures old(phase) == Active && policy == ExceptGoodbye ==> log == old(log) + [GOODBYE]
      ensures old(phase) == Active && policy == FinallyCleanUp ==> log == old(log) + [CLEAN_UP]
      ensures old(phase) != Active || policy == ExceptYield ==> log == old(log)
    {
      if phase == Active {
        match policy
        case ExceptGoodbye =>
          log := log + [GOODBYE];
          phase := Closed;
          r := Ok;
        case ExceptYield =>
          phase := Lingering;
          r := Error(IGNORED_EXIT);
        case FinallyCleanUp =>
          log := log + [CLEAN_UP];
          phase := Closed;
          r := Ok;
      } else {
        phase := Closed;
        r := Ok;
      }
    }
  }

  // ---------------------------------------------------------------------
  // The example use at the end of grepclose.py
  // ---------------------------------------------------------------------

  const LINE_1: string := "Yeah, but no, but yeah, but no\n"
  const LINE_2: string := "A series of tubes\n"
  const LINE_3: string := "python generators rock!\n"

  /** The first example line has no 'p', so "python" is not in it. */
  lemma FirstLineMisses()
    ensures !Contains(LINE_1, "python")
  {
    assert 'p' !in LINE_1;
    MissingFirstChar(LINE_1, "python");
  }

  /** The second example line has no 'p', so "python" is not in it. */
  lemma SecondLineMisses()
    ensures !Contains(LINE_2, "python")
  {
    assert 'p' !in LINE_2;
    MissingFirstChar(LINE_2, "python");
  }

  /** The third example line starts with "python". */
  lemma ExampleHit()
    ensures Contains(LINE_3, "python")
  {
    assert "python" <= LINE_3;
  }

  /** The lines printed for three received lines are their echoes, in order. */
  lemma MatchingThree(a: string, b: string, c: string, pattern: string)
    ensures Matching([a, b, c], pattern) == Echo(a, pattern) + Echo(b, pattern) + Echo(c, pattern)
  {
    assert [a, b, c][1..] == [b, c];
    assert [b, c][1..] == [c];
    assert Matching([c], pattern) == Echo(c, pattern) + Matching([], pattern);
    assert Matching([b, c], pattern) == Echo(b, pattern) + Matching([c], pattern);
  }

  /** Of the three example lines, only the last contains "python". */
  lemma ExampleLines()
    ensures Matching([LINE_1, LINE_2, LINE_3], "python") == [LINE_3]
  {
    FirstLineMisses();
    SecondLineMisses();
    ExampleHit();
    MatchingThree(LINE_1, LINE_2, LINE_3, "python");
  }

  /** Lines 43-45 of the example: the three lines sent to an active routine looking for "python". */
  method SendExampleLines(g: Grep)
    requires g.Valid() && g.phase == Active && g.pattern == "python"
    modifies g
    ensures g.Valid() && g.phase == Active
    ensures g.log == old(g.log) + [LINE_3]
  {
    FirstLineMisses();
    SecondLineMisses();
    ExampleHit();
    var _ := g.Send(LINE_1);
    var _ := g.Send(LINE_2);
    var _ := g.Send(LINE_3);
  }

  /** grep("python") fed the three lines and closed: only the last line is printed, then the goodbye. */
  method DemoGrep() returns (result: CloseResult, ghost output: seq<string>)
    ensures result == Ok
    ensures output == [Greeting("python"), LINE_3, GOODBYE]
  {
    var g := new Grep(ExceptGoodbye, "python");
    SendExampleLines(g);
    result := g.Close();
    output := g.log;
  }

  /**
    grep2("python") fed one line and closed: close() raises RuntimeError. The
    script does not catch it, so the grep3 part of the example never runs.
  */
  method DemoGrep2() returns (result: CloseResult, ghost output: seq<string>)
    ensures result == Error(IGNORED_EXIT)
    ensures output == [Greeting("python"), LINE_3]
  {
    var g := new Grep(ExceptYield, "python");
    ExampleHit();
    var _ := g.Send(LINE_3);
    result := g.Close();
    output := g.log;
  }

  /** grep3("python") fed one line and closed: the line, then the clean-up from `finally`. */
  method DemoGrep3() returns (result: CloseResult, ghost output: seq<string>)
    ensures result == Ok
    ensures output == [Greeting("python"), LINE_3, CLEAN_UP]
  {
    var g := new Grep(FinallyCleanUp, "python");
    ExampleHit();
    var _ := g.Send(LINE_3);
    result := g.Close();
    output := g.log;
  }
}
