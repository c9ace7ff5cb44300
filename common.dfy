/** Shared vocabulary of the model: optional values, the outcome of an
    operation that may raise a Python exception, the message that travels on
    the agent queue from a training worker to the matchmaking coordinator,
    and the decimal rendering of integers used in file names. */
module Common {

  datatype Option<T> = None | Some(value: T)

  /** The Python exceptions the modelled code can raise. */
  datatype PythonError =
    | GenericException   // a bare `raise Exception()`
    | TypeError
    | IndexError
    | ValueError

  /** Either a value or the exception that was raised instead. */
  datatype Result<T> = Ok(value: T) | Raised(error: PythonError)

  /** The triple `[iteration, training_scheme, agent]` put on the agent queue
      by a training worker and taken off it by the matchmaking coordinator. */
  datatype AgentQueueItem<S, G> = AgentQueueItem(iteration: int, trainingScheme: S, agent: G)

  function Min(a: int, b: int): int { if a <= b then a else b }

  function Max(a: int, b: int): int { if a <= b then b else a }

  predicate IsDigit(ch: char) { '0' <= ch <= '9' }

  /** Decimal digits of a natural number, most significant first, without
      leading zeros (Python's `str` on a non-negative int). */
  function NatToString(n: nat): (s: string)
    ensures |s| >= 1
    ensures forall k :: 0 <= k < |s| ==> IsDigit(s[k])
    ensures n >= 10 <==> |s| >= 2
    decreases n
  {
    var digit := ['0' + (n % 10) as char];
    if n < 10 then digit else NatToString(n / 10) + digit
  }

  /** Python's `str` on an int: a '-' sign in front of a negative number. */
  function IntToString(i: int): (s: string)
    ensures |s| >= 1
    ensures (s[0] == '-') <==> i < 0
  {
    if i < 0 then "-" + NatToString(-i) else NatToString(i)
  }

  /** The value of a string of decimal digits (`int` on such a string). */
  function ParseNat(s: string): nat
    decreases |s|
  {
    if |s| == 0 then 0 else ParseNat(s[..|s| - 1]) * 10 + DigitValue(s[|s| - 1])
  }

  function DigitValue(ch: char): nat
  {
    if IsDigit(ch) then (ch - '0') as nat else 0
  }

  /** `int` on a rendering with an optional leading '-'. */
  function ParseInt(s: string): int
  {
    if |s| > 0 && s[0] == '-' then -(ParseNat(s[1..]) as int) else ParseNat(s)
  }

  /** Reading back the decimal rendering of a natural number gives it back. */
  lemma {:induction false} ParseNatToString(n: nat)
    ensures ParseNat(NatToString(n)) == n
    decreases n
  {
    var s := NatToString(n);
    if n >= 10 {
      ParseNatToString(n / 10);
      assert s[..|s| - 1] == NatToString(n / 10);
    }
  }

  /** Reading back the decimal rendering of an integer gives it back. */
  lemma ParseIntToString(i: int)
    ensures ParseInt(IntToString(i)) == i
  {
    if i < 0 {
      ParseNatToString(-i);
      assert IntToString(i)[1..] == NatToString(-i);
    } else {
      ParseNatToString(i);
    }
  }
}
