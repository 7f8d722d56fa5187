/**
  The `countdown(n)` generator: a suspendable routine that announces its start,
  hands back n, n-1, ..., 1 one value per resume, announces that it is done and
  stays exhausted from then on.

  The generator's activation record becomes the class `Countdown`: the local
  counter `n`, and the resume position given by `started` (the body has begun)
  and `finished` (the body has returned). Console output is appended to the
  ghost `log`.
*/
module CountdownGenerator {
  import opened Wrappers

  /** The values a full run yields, in order: n, n-1, ..., 1 (empty when n <= 0). */
  function Values(n: int): seq<int>
    decreases if n > 0 then n else 0
  {
    if n > 0 then [n] + Values(n - 1) else []
  }

  /** The number of values a full run yields is max(n, 0). */
  lemma {:induction false} ValuesLength(n: int)
    ensures |Values(n)| == if n > 0 then n else 0
    decreases if n > 0 then n else 0
  {
    if n > 0 {
      ValuesLength(n - 1);
    }
  }

  /** The i-th value yielded is n - i. */
  lemma {:induction false} ValuesAt(n: int, i: int)
    requires 0 <= i < |Values(n)|
    ensures Values(n)[i] == n - i
    decreases if n > 0 then n else 0
  {
    if i > 0 {
      ValuesAt(n - 1, i - 1);
    }
  }

  /** Every yielded value lies in 1..n, and each one is one less than the one before it. */
  lemma {:induction false} ValuesShape(n: int)
    ensures forall i :: 0 <= i < |Values(n)| ==> 1 <= Values(n)[i] <= n
    ensures forall i :: 0 < i < |Values(n)| ==> Values(n)[i] == Values(n)[i - 1] - 1
  {
    ValuesLength(n);
    forall i | 0 <= i < |Values(n)|
      ensures Values(n)[i] == n - i
    {
      ValuesAt(n, i);
    }
  }

  /** The yielded sequence is strictly decreasing. */
  lemma ValuesStrictlyDecreasing(n: int, i: int, j: int)
    requires 0 <= i < j < |Values(n)|
    ensures Values(n)[i] > Values(n)[j]
  {
    ValuesAt(n, i);
    ValuesAt(n, j);
  }

  /** The decimal digit d as a character; a helper of NaturalString. */
  function DigitChar(d: int): (c: char)
    requires 0 <= d < 10
    ensures '0' <= c <= '9' && c as int - '0' as int == d
  {
    "0123456789"[d]
  }

  /** The number a string of decimal digits denotes, most significant digit first. */
  function DigitsValue(s: string): int
    decreases |s|
  {
    if s == [] then 0 else DigitsValue(s[..|s| - 1]) * 10 + (s[|s| - 1] as int - '0' as int)
  }

  /** The number a decimal spelling denotes, with an optional leading '-'. */
  function SignedValue(s: string): int {
    if s != [] && s[0] == '-' then -DigitsValue(s[1..]) else DigitsValue(s)
  }

  /** A non-empty string of decimal digits without a leading zero. */
  predicate Canonical(t: string) {
    t != [] && (|t| > 1 ==> t[0] != '0') && forall c :: c in t ==> '0' <= c <= '9'
  }

  /** The decimal spelling of a natural number: digits only, no leading zero, denoting k. */
  function NaturalString(k: nat): (s: string)
    ensures |s| > 0 && (|s| > 1 ==> s[0] != '0')
    ensures forall i :: 0 <= i < |s| ==> '0' <= s[i] <= '9'
    ensures DigitsValue(s) == k
    decreases k
  {
    if k < 10 then [DigitChar(k)] else NaturalString(k / 10) + [DigitChar(k % 10)]
  }

  /** How Python's `str` spells an integer: decimal, with a leading '-' when negative; reading it back gives k. */
  function DecimalString(k: int): (s: string)
    ensures SignedValue(s) == k
    ensures |s| > 0 && ((s[0] == '-') <==> k < 0)
    ensures Canonical(if k < 0 then s[1..] else s)
  {
    if k < 0 then "-" + NaturalString(-k) else NaturalString(k)
  }

  /** The start announcement: the text and the number, joined by one space as Python's print joins its arguments. */
  function StartBanner(n: int): string {
    "Counting down from " + DecimalString(n)
  }

  /** The completion announcement. */
  const DONE_BANNER: string := "Done counting down"

  class Countdown {
    /** The argument the generator was created with. */
    const initial: int
    /** The start announcement for that argument, StartBanner(initial). */
    const banner: string
    /** The generator's local counter. */
    var n: int
    /** The body has been entered, so the start announcement has been printed. */
    var started: bool
    /** The body has returned: the generator is exhausted for good. */
    var finished: bool
    /** Console output so far. */
    ghost var log: seq<string>
    /** The values handed back so far, in order. */
    ghost var yielded: seq<int>

    /**
      The resume positions: not yet entered; parked at the `yield n` with n the
      value last yielded; returned. In each, the values yielded so far followed
      by the values still to come form the full run.
    */
    ghost predicate Valid()
      reads this
    {
      (!started ==> !finished && n == initial && log == [] && yielded == []) &&
      (started && !finished ==> 0 < n <= initial && log == [banner] &&
                                yielded != [] && yielded[|yielded| - 1] == n &&
                                yielded + Values(n - 1) == Values(initial)) &&
      (finished ==> started && n == (if initial > 0 then 0 else initial) &&
                    log == [banner, DONE_BANNER] && yielded == Values(initial))
    }

    /** The values later resumes will still hand back. */
    ghost function Pending(): seq<int>
      reads this
    {
      if !started then Values(n) else if finished then [] else Values(n - 1)
    }

    /** `countdown(n)`: creating the generator runs none of its body. */
    constructor (n: int)
      ensures Valid()
      ensures initial == n && banner == StartBanner(n) && this.n == n && !started && !finished
      ensures log == [] && yielded == [] && Pending() == Values(n)
    {
      initial := n;
      banner := StartBanner(n);
      this.n := n;
      started := false;
      finished := false;
      log := [];
      yielded := [];
    }

    /**
      One resume (`next(c)`): runs the body up to the next `yield n`, or to its
      end. The first resume prints the start announcement; a resume of a parked
      generator first decrements the counter; when the guard `n > 0` fails the
      done announcement is printed and the generator is exhausted.
    */
    method Next() returns (r: Option<int>)
      requires Valid()
      modifies this
      ensures Valid()
      // the value handed back is the next one of the full run, and it is consumed
      ensures r.None? <==> old(Pending()) == []
      ensures r.Some? ==> r.value == old(Pending())[0] && Pending() == old(Pending())[1..]
      ensures yielded == old(yielded) + (if r.Some? then [r.value] else [])
      // while parked, the counter holds the value just yielded, within 1..initial
      ensures r.Some? ==> n == r.value && 1 <= r.value <= initial && !finished
      ensures r.Some? && old(yielded) != [] ==> r.value == old(yielded)[|old(yielded)| - 1] - 1
      // the announcements: start on the first resume, done on the resume that ends the loop
      ensures started && (finished <==> r.None?)
      ensures log == old(log) + (if old(started) then [] else [banner])
                              + (if finished && !old(finished) then [DONE_BANNER] else [])
      // an exhausted generator stays exhausted and changes nothing
      ensures old(finished) ==> r.None? && n == old(n) && log == old(log) && yielded == old(yielded)
    {
      if finished {
        return None;
      }
      if !started {
        started := true;
        log := log + [banner];
      } else {
        n := n - 1;
      }
      if n > 0 {
        assert Values(n) == [n] + Values(n - 1);
        assert yielded + [n] + Values(n - 1) == yielded + Values(n);
        yielded := yielded + [n];
        r := Some(n);
      } else {
        assert Values(n) == [] && Values(n - 1) == [];
        finished := true;
        log := log + [DONE_BANNER];
        r := None;
      }
    }
  }

  /**
    The consumer `for i in countdown(n)`: resume until exhaustion and collect
    what is handed back. The full run yields exactly Values(n) and prints the
    two announcements, start first.
  */
  method Run(n: int) returns (values: seq<int>, ghost output: seq<string>)
    ensures values == Values(n)
    ensures output == [StartBanner(n), DONE_BANNER]
  {
    var c := new Countdown(n);
    values := [];
    var r := c.Next();
    while r.Some?
      invariant c.Valid() && c.initial == n && c.banner == StartBanner(n) && c.started
      invariant r.Some? ==> !c.finished && values + [r.value] == c.yielded
      invariant r.None? ==> c.finished && values == c.yielded
      decreases |c.Pending()| + (if c.finished then 0 else 1)
    {
      values := values + [r.value];
      r := c.Next();
    }
    output := c.log;
  }

  /** Lines 20-25 of the demo: two resumes of `countdown(5)` hand back 5 and then 4. */
  method TwoResumes() returns (first: Option<int>, second: Option<int>, ghost output: seq<string>)
    ensures first == Some(5) && second == Some(4)
    ensures output == [StartBanner(5)]
  {
    var c := new Countdown(5);
    first := c.Next();
    second := c.Next();
    output := c.log;
  }
}
