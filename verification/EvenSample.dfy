/** `_even_sample` of `scripts/select_imap_rag_candidates.py`, in exact arithmetic. */
module EvenSamples {

  /** `numerator / denominator` to the nearest integer, ties to the even one. */
  function RoundHalfEven(numerator: nat, denominator: nat): nat
    requires denominator > 0
  {
    var floor, twice := numerator / denominator, 2 * (numerator % denominator);
    if twice < denominator then floor
    else if twice > denominator then floor + 1
    else if floor % 2 == 0 then floor else floor + 1
  }

  /** Twice the distance of `r * denominator` from the numerator is at most the denominator. */
  predicate Near(numerator: int, r: int, denominator: int) {
    -denominator <= 2 * numerator - 2 * (r * denominator) <= denominator
  }

  /** In the middle between this integer and one of its neighbours. */
  predicate Halfway(numerator: int, r: int, denominator: int) {
    2 * numerator - 2 * (r * denominator) == denominator || 2 * (r * denominator) - 2 * numerator == denominator
  }

  lemma Scale(a: int, b: int, d: int)
    requires d >= 0
    ensures a <= b ==> a * d <= b * d
    ensures (a + 1) * d == a * d + d
  {
  }

  lemma RoundIsNear(numerator: nat, denominator: nat)
    requires denominator > 0
    ensures Near(numerator, RoundHalfEven(numerator, denominator), denominator)
  {
    var floor := numerator / denominator;
    assert numerator == floor * denominator + numerator % denominator;
    Scale(floor, floor, denominator);
  }

  /** Two integers near the same number are neighbours, halfway on both sides of it. */
  lemma NearTwice(numerator: int, r: int, s: int, denominator: int)
    requires denominator > 0 && Near(numerator, r, denominator) && Near(numerator, s, denominator) && r < s
    ensures s == r + 1 && Halfway(numerator, r, denominator) && Halfway(numerator, s, denominator)
  {
    Scale(r + 1, s, denominator);
    Scale(r, r, denominator);
    if s > r + 1 { Scale(r + 2, s, denominator); Scale(r + 1, r + 1, denominator); }
  }

  lemma TiesAreEven(numerator: nat, denominator: nat)
    requires denominator > 0
    ensures Halfway(numerator, RoundHalfEven(numerator, denominator), denominator) ==>
      RoundHalfEven(numerator, denominator) % 2 == 0
  {
    var floor := numerator / denominator;
    assert numerator == floor * denominator + numerator % denominator;
    Scale(floor, floor, denominator);
  }

  /** The nearest integer, and of two equally near the even one. */
  lemma RoundExactly(numerator: nat, denominator: nat, r: nat)
    requires denominator > 0
    ensures r == RoundHalfEven(numerator, denominator) <==>
      Near(numerator, r, denominator) && (Halfway(numerator, r, denominator) ==> r % 2 == 0)
  {
    var round := RoundHalfEven(numerator, denominator);
    RoundIsNear(numerator, denominator);
    TiesAreEven(numerator, denominator);
    if Near(numerator, r, denominator) {
      if r < round { NearTwice(numerator, r, round, denominator); }
      if r > round { NearTwice(numerator, round, r, denominator); }
    }
    hide RoundHalfEven, Near, Halfway;
  }

  /** Numerators more than a denominator apart round to different integers. */
  lemma Apart(x: int, y: int, r: int, s: int, d: int)
    requires d > 0 && Near(x, r, d) && Near(y, s, d) && y > x + d
    ensures r < s
  {
    if s <= r { Scale(s, r, d); }
  }

  function SampleIndex(i: nat, length: nat, limit: nat): nat
    requires 1 < limit < length
  {
    RoundHalfEven(i * (length - 1), limit - 1)
  }

  /** The positions are spread out by more than one, so no two round to the same index. */
  lemma SampleIndexRises(i: nat, length: nat, limit: nat)
    requires 1 < limit < length
    ensures SampleIndex(i, length, limit) < SampleIndex(i + 1, length, limit)
  {
    var d, step := limit - 1, length - 1;
    Scale(i, i, step);
    RoundIsNear(i * step, d);
    RoundIsNear((i + 1) * step, d);
    hide RoundHalfEven, Near;
    Apart(i * step, (i + 1) * step, SampleIndex(i, length, limit), SampleIndex(i + 1, length, limit), d);
  }

  lemma SampleIndexEnds(length: nat, limit: nat)
    requires 1 < limit < length
    ensures SampleIndex(0, length, limit) == 0 && SampleIndex(limit - 1, length, limit) == length - 1
  {
    var d, step := limit - 1, length - 1;
    RoundIsNear(0, d);
    assert (d * step) % d == 0 && (d * step) / d == step by { Exact(d, step); }
  }

  lemma Exact(d: nat, q: nat)
    requires d > 0
    ensures (d * q) % d == 0 && (d * q) / d == q
  {
    var n := d * q;
    assert n == (n / d) * d + n % d;
    if n / d < q { Scale(n / d + 1, q, d); Scale(n / d, q, d); }
    if n / d > q { Scale(q + 1, n / d, d); Scale(q, q, d); }
  }

  lemma {:induction false} SampleIndexesRise(i: nat, j: nat, length: nat, limit: nat)
    requires 1 < limit < length && i < j
    ensures SampleIndex(i, length, limit) < SampleIndex(j, length, limit)
    decreases j - i
  {
    SampleIndexRises(j - 1, length, limit);
    if i < j - 1 { SampleIndexesRise(i, j - 1, length, limit); }
  }

  /** Increasing positions in `0..length`, from the first to the last. */
  ghost predicate SpreadEvenly(indexes: seq<nat>, length: nat, limit: nat)
    requires 1 < limit < length
  {
    && |indexes| == limit && indexes[0] == 0 && indexes[limit - 1] == length - 1
    && (forall i, j :: 0 <= i < j < limit ==> indexes[i] < indexes[j])
    && (forall i :: 0 <= i < limit ==> indexes[i] < length && NearEven(i, indexes[i], length, limit))
  }

  /** The index is within half a place of an exactly even spread. */
  predicate NearEven(i: nat, index: nat, length: nat, limit: nat)
    requires 1 < limit < length
  {
    Near(i * (length - 1), index, limit - 1)
  }

  ghost predicate PickedAt<T>(values: seq<T>, indexes: seq<nat>, sample: seq<T>) {
    |sample| == |indexes| && forall i :: 0 <= i < |indexes| ==> indexes[i] < |values| && sample[i] == values[indexes[i]]
  }

  /** The set of rounded positions, then its members in order. */
  method EvenSample<T>(values: seq<T>, limit: int) returns (sample: seq<T>, ghost indexes: seq<nat>)
    ensures limit <= 0 || |values| <= limit ==> sample == values
    ensures limit == 1 < |values| ==> sample == [values[|values| - 1]]
    ensures 1 < limit < |values| ==> SpreadEvenly(indexes, |values|, limit) && PickedAt(values, indexes, sample)
  {
    indexes := [];
    if limit <= 0 || |values| <= limit {
      return values, [];
    }
    if limit == 1 {
      return [values[|values| - 1]], [];
    }
    var chosen: set<nat> := {};
    for index := 0 to limit
      invariant forall k :: k in chosen <==> exists i :: 0 <= i < index && SampleIndex(i, |values|, limit) == k
    {
      chosen := chosen + {SampleIndex(index, |values|, limit)};
    }
    sample := [];
    for k := 0 to |values|
      invariant |indexes| <= limit
      invariant PickedAt(values, indexes, sample)
      invariant forall i :: 0 <= i < |indexes| ==> indexes[i] == SampleIndex(i, |values|, limit) < k
      invariant |indexes| < limit ==> SampleIndex(|indexes|, |values|, limit) >= k
    {
      NextChosen(|indexes|, k, |values|, limit);
      if k in chosen {
        assert |indexes| < limit && SampleIndex(|indexes|, |values|, limit) == k;
        SampleIndexRises(|indexes|, |values|, limit);
        indexes := indexes + [k];
        sample := sample + [values[k]];
      }
    }
    SampleIsSpread(indexes, |values|, limit);
  }

  /** Among the positions not yet reached, only the next can be `k`. */
  lemma NextChosen(n: nat, k: nat, length: nat, limit: nat)
    requires 1 < limit < length && n <= limit && k < length
    requires forall i: nat :: i < n ==> SampleIndex(i, length, limit) < k
    requires n < limit ==> SampleIndex(n, length, limit) >= k
    ensures forall i: nat :: i < limit && SampleIndex(i, length, limit) == k ==> i == n
  {
    forall i: nat | i < limit && SampleIndex(i, length, limit) == k ensures i == n {
      if n < i { SampleIndexesRise(n, i, length, limit); }
    }
  }

  lemma SampleIsNear(i: nat, length: nat, limit: nat)
    requires 1 < limit < length
    ensures NearEven(i, SampleIndex(i, length, limit), length, limit)
  {
    RoundIsNear(i * (length - 1), limit - 1);
    hide RoundHalfEven, Near;
  }

  lemma SampleIsSpread(indexes: seq<nat>, length: nat, limit: nat)
    requires 1 < limit < length && |indexes| <= limit
    requires forall i :: 0 <= i < |indexes| ==> indexes[i] == SampleIndex(i, length, limit)
    requires |indexes| < limit ==> SampleIndex(|indexes|, length, limit) >= length
    ensures SpreadEvenly(indexes, length, limit)
  {
    hide SampleIndex, NearEven;
    SampleIndexEnds(length, limit);
    if |indexes| < limit - 1 { SampleIndexesRise(|indexes|, limit - 1, length, limit); }
    assert |indexes| == limit;
    forall i: nat, j: nat | i < j < limit ensures indexes[i] < indexes[j] {
      SampleIndexesRise(i, j, length, limit);
    }
    forall i: nat | i < limit ensures indexes[i] < length && NearEven(i, indexes[i], length, limit) {
      SampleIsNear(i, length, limit);
      if i < limit - 1 { SampleIndexesRise(i, limit - 1, length, limit); }
    }
  }
}
