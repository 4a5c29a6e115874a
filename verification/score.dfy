/**
 * Scores: `ScoreMonoid` (neutral 0, the value with the larger absolute value
 * wins, ties going to the second argument) and the `RootScoreStorage` string
 * codec (decimal `Int`). Scores are JVM `Int`s.
 */
module Scores {
  import opened Wrappers
  import opened Decimal
  import opened Monoids

  /** `java.lang.Math.abs(int)`: |x|, except that `Int.MIN_VALUE` stays negative. */
  function JvmAbs(x: int): (r: int)
    requires IsInt(x)
    ensures x != INT_MIN ==> r == (if x < 0 then -x else x)
    ensures x == INT_MIN ==> r == INT_MIN
  {
    if x == INT_MIN then INT_MIN else if x < 0 then -x else x
  }

  function Abs(x: int): nat { if x < 0 then -x else x }

  /** `ScoreMonoid.combine` as written, with the JVM's `abs`. */
  function CombineAsWritten(a: int, b: int): int
    requires IsInt(a) && IsInt(b)
  {
    if JvmAbs(a) > JvmAbs(b) then a else b
  }

  /** `Int.MIN_VALUE` loses against 0 in either position, so 0 is not an identity for it. */
  lemma MinValueLosesToNeutral()
    ensures CombineAsWritten(INT_MIN, 0) == 0
    ensures CombineAsWritten(0, INT_MIN) == 0
  {
  }

  /** `ScoreMonoid.combine` with the mathematical absolute value: the larger magnitude wins, ties go to `b`. */
  function Combine(a: int, b: int): (r: int)
    ensures r == a || r == b
    ensures Abs(r) == (if Abs(a) > Abs(b) then Abs(a) else Abs(b))
    ensures Abs(a) == Abs(b) ==> r == b
  {
    if Abs(a) > Abs(b) then a else b
  }

  /** The two versions agree on every score other than `Int.MIN_VALUE`. */
  lemma CombineAgreesAwayFromMinValue(a: int, b: int)
    requires IsInt(a) && IsInt(b) && a != INT_MIN && b != INT_MIN
    ensures CombineAsWritten(a, b) == Combine(a, b)
  {
  }

  const ScoreMonoid: Monoid<int> := Monoid(0, Combine)

  /** 0 is a two-sided identity of the corrected combine, and the result is always an argument. */
  lemma ScoreNeutralIsIdentity(a: int, b: int)
    ensures ScoreMonoid.combine(0, b) == b
    ensures ScoreMonoid.combine(a, 0) == a
    ensures ScoreMonoid.combine(a, b) in {a, b}
  {
  }

  /** Equal magnitudes resolve to the second argument, so `combine` is not commutative. */
  lemma CombineTieGoesRight()
    ensures Combine(3, -3) == -3 && Combine(-3, 3) == 3
  {
  }

  /** `RootScoreStorage.valueToString`: the decimal rendering. */
  function ScoreToString(score: int): (s: string)
    ensures ':' !in s && ',' !in s
  {
    IntToStringLacks(score, ':');
    IntToStringLacks(score, ',');
    IntToString(score)
  }

  /** `RootScoreStorage.valueFromString`: `toInt()`, `None` where it throws. */
  function ScoreFromString(raw: string): (r: Option<int>)
    ensures r.Some? ==> IsInt(r.value)
  {
    ParseInt(raw)
  }

  /** Every `Int` score survives the string codec. */
  lemma ScoreCodecRoundTrip(score: int)
    requires IsInt(score)
    ensures ScoreFromString(ScoreToString(score)) == Some(score)
  {
    IntToStringRoundTrip(score, INT_MIN, INT_MAX);
  }

  /** Non-numeric text is rejected. */
  lemma ScoreFromStringRejects(raw: string)
    requires !IsNumeral(raw)
    ensures ScoreFromString(raw) == None
  {
  }

  const SCORES_LABEL: string := "scores"
}
