/** The score weights and the two continuous similarity bonuses that the
    recommender adds to every candidate. */
module Similarity {
  import opened Catalog

  /** Base weight per occurrence in the same-category lookup. */
  const CATEGORY_WEIGHT: real := 0.4
  /** Base weight per occurrence in the dietary-tag lookup. */
  const DIETARY_WEIGHT: real := 0.3
  /** Base weight per occurrence in the price-window lookup. */
  const PRICE_WEIGHT: real := 0.2
  /** Weight of the spice similarity. */
  const SPICE_WEIGHT: real := 0.1
  /** Weight of the mood-tag similarity. */
  const MOOD_WEIGHT: real := 0.1

  function Abs(x: int): nat {
    if x < 0 then -x else x
  }

  function Max(a: real, b: real): real {
    if a < b then b else a
  }

  /** `max(0, (10 - |a - b|) / 10)`: one for equal spice levels, falling
      linearly to zero at a distance of ten levels. */
  function SpiceSimilarity(refSpice: int, candSpice: int): (r: real)
    ensures 0.0 <= r <= 1.0
    ensures r == 1.0 <==> refSpice == candSpice
    ensures r == 0.0 <==> Abs(refSpice - candSpice) >= 10
  {
    Max(0.0, (10 - Abs(refSpice - candSpice)) as real / 10.0)
  }

  /** The spice part of the bonus, `spice_similarity * 0.1`. */
  function SpiceBonus(refSpice: int, candSpice: int): (r: real)
    ensures 0.0 <= r <= SPICE_WEIGHT
    ensures r == SPICE_WEIGHT <==> refSpice == candSpice
    ensures r == 0.0 <==> Abs(refSpice - candSpice) >= 10
  {
    SpiceSimilarity(refSpice, candSpice) * SPICE_WEIGHT
  }

  /** Each level of spice difference below ten costs exactly 0.01 of bonus. */
  lemma SpiceBonusLinear(refSpice: int, candSpice: int)
    requires Abs(refSpice - candSpice) <= 10
    ensures SpiceBonus(refSpice, candSpice) == SPICE_WEIGHT - 0.01 * Abs(refSpice - candSpice) as real
  {
  }

  /** A candidate whose spice level is closer to the reference's never gets a smaller bonus. */
  lemma SpiceBonusMonotone(refSpice: int, near: int, far: int)
    requires Abs(refSpice - near) <= Abs(refSpice - far)
    ensures SpiceBonus(refSpice, near) >= SpiceBonus(refSpice, far)
  {
  }

  /** A subset is never larger than its superset. */
  lemma {:induction false} SubsetCard(a: set<string>, b: set<string>)
    requires a <= b
    ensures |a| <= |b|
    ensures |a| == |b| ==> a == b
    decreases |a|
  {
    if a != {} {
      var x :| x in a;
      assert x in b;
      assert |b - {x}| == |b| - 1;
      SubsetCard(a - {x}, b - {x});
      assert a == (a - {x}) + {x} && b == (b - {x}) + {x};
    } else if |b| == 0 {
      assert b == {};
    }
  }

  /** A ratio of two counts, the first no larger than the (positive) second,
      lies in [0, 1], is one exactly when they agree and zero exactly when the first is. */
  lemma RatioBounds(x: nat, y: nat)
    requires 0 < y && x <= y
    ensures 0.0 <= x as real / y as real <= 1.0
    ensures x as real / y as real == 1.0 <==> x == y
    ensures x as real / y as real == 0.0 <==> x == 0
  {
    var q := x as real / y as real;
    assert q * y as real == x as real;
  }

  /** The Jaccard index |a ∩ b| / |a ∪ b| of two sets that are not both empty;
      `max(1, ·)` in the divisor never takes effect because the union is not empty. */
  function Jaccard(a: set<string>, b: set<string>): (r: real)
    requires a + b != {}
    ensures 0.0 <= r <= 1.0
    ensures r == 1.0 <==> a == b
    ensures r == 0.0 <==> a * b == {}
  {
    SubsetCard(a * b, a + b);
    assert a == b <==> a * b == a + b;
    var overlap := |a * b|;
    var union := if |a + b| < 1 then 1 else |a + b|;
    assert union == |a + b| > 0;
    RatioBounds(overlap, union);
    overlap as real / union as real
  }

  /** The mood part of the bonus: nothing when both tag sets are empty (the
      `if ref_moods or prod_moods` guard), else `Jaccard * 0.1`. */
  function MoodBonus(refMoods: set<string>, candMoods: set<string>): (r: real)
    ensures 0.0 <= r <= MOOD_WEIGHT
    ensures refMoods == candMoods && refMoods != {} ==> r == MOOD_WEIGHT
    ensures r == 0.0 <==> refMoods * candMoods == {}
  {
    if refMoods != {} || candMoods != {} then Jaccard(refMoods, candMoods) * MOOD_WEIGHT else 0.0
  }

  /** Everything the refinement pass adds to one candidate's score. */
  function Bonus(reference: Product, candidate: Product): (r: real)
    ensures 0.0 <= r <= SPICE_WEIGHT + MOOD_WEIGHT
  {
    SpiceBonus(SpiceOf(reference), SpiceOf(candidate)) + MoodBonus(MoodsOf(reference), MoodsOf(candidate))
  }
}
