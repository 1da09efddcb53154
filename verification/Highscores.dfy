/**
 * `ElympicsHighscore`: a player name and an arbitrary-precision score, both
 * possibly null, ordered by `compareTo` with the highest score first.  A
 * null score ranks as a score of zero.
 */
module Highscores {
  import opened Wire

  datatype Highscore = Highscore(name: Option<string>, score: Option<int>)

  /** The protected no-argument constructor, used by the JSON mapper: both fields null. */
  const Empty: Highscore := Highscore(None, None)

  /** `ElympicsHighscore(String, long)`: the score through `BigInteger.valueOf`. */
  function OfLong(name: Option<string>, score: int64): Highscore {
    Highscore(name, Some(score))
  }

  /** `BigInteger.compareTo`: -1, 0 or 1. */
  function Compare(x: int, y: int): (r: int)
    ensures r == -1 || r == 0 || r == 1
    ensures r < 0 <==> x < y
    ensures r == 0 <==> x == y
  {
    if x < y then -1 else if x == y then 0 else 1
  }

  /** The score a highscore is ranked by: a null score ranks as zero. */
  function Rank(h: Highscore): int {
    if h.score.Some? then h.score.value else 0
  }

  /** `compareTo`, branch by branch: the other's score against this one's, zero standing in for null. */
  function CompareTo(self: Highscore, other: Highscore): (r: int)
    ensures r == Compare(Rank(other), Rank(self))
    ensures r < 0 <==> Rank(self) > Rank(other)
  {
    if other.score.None? then
      if self.score.None? then 0 else Compare(0, self.score.value)
    else if self.score.None? then Compare(other.score.value, 0)
    else Compare(other.score.value, self.score.value)
  }

  // ---------------------------------------------------------------------------
  // The ordering is a total preorder, descending by score

  lemma Antisymmetric(a: Highscore, b: Highscore)
    ensures CompareTo(a, b) == -CompareTo(b, a)
  {
  }

  lemma Transitive(a: Highscore, b: Highscore, c: Highscore)
    requires CompareTo(a, b) <= 0 && CompareTo(b, c) <= 0
    ensures CompareTo(a, c) <= 0
  {
  }

  lemma Reflexive(a: Highscore)
    ensures CompareTo(a, a) == 0
  {
  }

  /** Higher scores come first. */
  lemma HigherFirst(a: Highscore, b: Highscore)
    requires a.score.Some? && b.score.Some?
    ensures CompareTo(a, b) < 0 <==> a.score.value > b.score.value
    ensures CompareTo(a, b) == 0 <==> a.score.value == b.score.value
  {
  }

  /** A null score sorts after every positive score and before every negative one. */
  lemma NullRanksAsZero(a: Highscore, b: Highscore)
    requires a.score.None? && b.score.Some?
    ensures b.score.value > 0 ==> CompareTo(b, a) < 0
    ensures b.score.value < 0 ==> CompareTo(a, b) < 0
    ensures b.score.value == 0 ==> CompareTo(a, b) == 0
  {
  }

  /**
   * The ordering ignores names, so it is not consistent with equality:
   * different highscores with equal scores compare as 0.
   */
  lemma IgnoresNames(a: Highscore, b: Highscore)
    requires Rank(a) == Rank(b)
    ensures CompareTo(a, b) == 0
  {
  }

  /** A `long` score compares as the number it is. */
  lemma LongScores(n: Option<string>, m: Option<string>, x: int64, y: int64)
    ensures CompareTo(OfLong(n, x), OfLong(m, y)) == Compare(y, x)
  {
  }
}
