/**
 * A factor as the score payload lists it: the score engine's key, label and
 * points, plus the source the factor came from ("osm", "time", the importing
 * source of an event, or "community").
 */
module Factors {
  datatype ScoredFactor = ScoredFactor(key: string, name: string, points: real, source: string)

  /** The sum of the points of a list of factors. */
  function SumPoints(fs: seq<ScoredFactor>): real {
    if fs == [] then 0.0 else SumPoints(fs[..|fs| - 1]) + fs[|fs| - 1].points
  }

  /** Sums add up over concatenation. */
  lemma {:induction false} SumPointsAppend(a: seq<ScoredFactor>, b: seq<ScoredFactor>)
    ensures SumPoints(a + b) == SumPoints(a) + SumPoints(b)
    decreases |b|
  {
    if b != [] {
      var n := |b| - 1;
      assert (a + b)[..|a + b| - 1] == a + b[..n];
      SumPointsAppend(a, b[..n]);
    } else {
      assert a + b == a;
    }
  }
}
