/** Running rating averages, kept in hundredths of a star and rounded after every review. */
module Ratings {
  import opened Prelude

  /** `rounded` is `num / den` to the nearest integer. On an exact tie the source's `toFixed` follows
      the binary value of a float, so either neighbour is allowed. */
  predicate Nearest(rounded: int, num: int, den: int)
    requires den > 0
  {
    -den <= 2 * (den * rounded - num) <= den
  }

  /** `average` may follow `before`, the average of `count` ratings, when `rating` is added. */
  predicate Averaged(average: int, before: int, count: nat, rating: nat) {
    Nearest(average, before * count + 100 * rating, count + 1)
  }

  function SumOf(ratings: seq<nat>): nat {
    if ratings == [] then 0 else SumOf(ratings[..|ratings| - 1]) + ratings[|ratings| - 1]
  }

  /** Error of a stored average after n ratings, scaled by n, in hundredths. */
  function Drift(average: int, ratings: seq<nat>): int { |ratings| * average - 100 * SumOf(ratings) }

  predicate Stars(ratings: seq<nat>) { forall i :: 0 <= i < |ratings| ==> 1 <= ratings[i] <= 5 }

  /** A stored average is within its drift bound, in range, and exact for equal ratings. */
  ghost predicate Tracks(average: int, ratings: seq<nat>) {
    var n := |ratings|;
    && Stars(ratings)
    && (n == 0 ==> average == 0)
    && (n >= 1 ==>
          && -(n * (n + 1) - 2) <= 4 * Drift(average, ratings) <= n * (n + 1) - 2
          && 100 <= average <= 500
          && ((forall i :: 0 <= i < n ==> ratings[i] == ratings[0]) ==> average == 100 * ratings[0]))
  }

  lemma NearestInRange(rounded: int, num: int, den: nat, low: int, high: int)
    requires den > 0 && Nearest(rounded, num, den)
    requires low * den <= num <= high * den
    ensures low <= rounded <= high
  {
    assert 2 * (den * (rounded - high)) <= den && 2 * (den * (low - rounded)) <= den by {
      assert den * (rounded - high) == den * rounded - high * den;
      assert den * (low - rounded) == low * den - den * rounded;
    }
    HalfStepIsNone(den, rounded - high);
    HalfStepIsNone(den, low - rounded);
  }

  lemma HalfStepIsNone(den: nat, step: int)
    requires den > 0 && 2 * (den * step) <= den
    ensures step <= 0
  {
    assert step >= 1 ==> den * step >= den;
  }

  lemma DriftGrows(average: int, before: int, ratings: seq<nat>, rating: nat)
    requires Averaged(average, before, |ratings|, rating)
    ensures -(|ratings| + 1) <= 2 * (Drift(average, ratings + [rating]) - Drift(before, ratings)) <= |ratings| + 1
  {
    assert (ratings + [rating])[..|ratings|] == ratings;
  }

  lemma DriftBounded(average: int, before: int, ratings: seq<nat>, rating: nat)
    requires |ratings| >= 1 && Averaged(average, before, |ratings|, rating)
    requires var n := |ratings|; -(n * (n + 1) - 2) <= 4 * Drift(before, ratings) <= n * (n + 1) - 2
    ensures var m := |ratings| + 1; -(m * (m + 1) - 2) <= 4 * Drift(average, ratings + [rating]) <= m * (m + 1) - 2
  {
    var n := |ratings|;
    DriftGrows(average, before, ratings, rating);
    assert (n + 1) * (n + 2) == n * (n + 1) + 2 * (n + 1);
    hide Drift, Averaged;
  }

  lemma FirstReviewExact(average: int, rating: nat)
    requires Averaged(average, 0, 0, rating)
    ensures average == 100 * rating && Drift(average, [rating]) == 0
  {
    assert SumOf([rating]) == rating;
  }

  lemma EqualReviewExact(average: int, n: nat, rating: nat)
    requires Averaged(average, 100 * rating, n, rating)
    ensures average == 100 * rating
  {
    assert 100 * rating * n + 100 * rating == 100 * rating * (n + 1);
    NearestInRange(average, 100 * rating * n + 100 * rating, n + 1, 100 * rating, 100 * rating);
  }

  /** One more review keeps the average on track, whichever way a tie is rounded. */
  lemma ReviewKeepsTrack(average: int, before: int, ratings: seq<nat>, rating: nat)
    requires Tracks(before, ratings) && 1 <= rating <= 5 && Averaged(average, before, |ratings|, rating)
    ensures Tracks(average, ratings + [rating])
  {
    hide Drift, Averaged, Nearest;
    var n, all := |ratings|, ratings + [rating];
    if n == 0 {
      FirstReviewExact(average, rating);
      assert all == [rating];
    } else {
      DriftBounded(average, before, ratings, rating);
      ReviewInRange(average, before, n, rating);
      if forall i :: 0 <= i < n + 1 ==> all[i] == all[0] {
        assert forall i :: 0 <= i < n ==> all[i] == ratings[i];
        assert all[n] == rating;
        EqualReviewExact(average, n, rating);
      }
    }
  }

  lemma ReviewInRange(average: int, before: int, n: nat, rating: nat)
    requires 100 <= before <= 500 && 1 <= rating <= 5 && Averaged(average, before, n, rating)
    ensures 100 <= average <= 500
  {
    Between(before, n, rating);
    NearestInRange(average, before * n + 100 * rating, n + 1, 100, 500);
  }

  lemma Between(before: int, n: nat, rating: nat)
    requires 100 <= before <= 500 && 1 <= rating <= 5
    ensures 100 * (n + 1) <= before * n + 100 * rating <= 500 * (n + 1)
  {
    assert 100 * n <= before * n <= 500 * n;
  }

  /** An average the service can have stored after these ratings, each rounding on the one before. */
  ghost predicate Stored(average: int, ratings: seq<nat>)
    decreases |ratings|
  {
    if ratings == [] then average == 0
    else
      var n := |ratings| - 1;
      exists before :: Stored(before, ratings[..n]) && Averaged(average, before, n, ratings[n])
  }

  /** For up to six ratings the stored average is the rounded true average, and for one, two, four or
      five it is the true average itself. */
  lemma {:induction false} StoredIsTrueUpToSix(average: int, ratings: seq<nat>)
    requires Stored(average, ratings) && 1 <= |ratings| <= 6
    ensures Nearest(average, 100 * SumOf(ratings), |ratings|)
    ensures |ratings| != 3 && |ratings| != 6 ==> Drift(average, ratings) == 0
    decreases |ratings|
  {
    var n := |ratings| - 1;
    var before :| Stored(before, ratings[..n]) && Averaged(average, before, n, ratings[n]);
    hide Drift, Averaged, Nearest, SumOf;
    assert ratings == ratings[..n] + [ratings[n]];
    DriftGrows(average, before, ratings[..n], ratings[n]);
    if n > 0 {
      StoredIsTrueUpToSix(before, ratings[..n]);
      NearestByDrift(before, ratings[..n]);
    } else {
      NoDrift(before);
    }
    NearestByDrift(average, ratings);
    hide Stored;
    SmallDrift(Drift(average, ratings), Drift(before, ratings[..n]), average, SumOf(ratings), n + 1);
  }

  lemma NoDrift(average: int)
    ensures Drift(average, []) == 0
  {
  }

  lemma NearestByDrift(average: int, ratings: seq<nat>)
    requires ratings != []
    ensures Drift(average, ratings) == |ratings| * average - 100 * SumOf(ratings)
    ensures Nearest(average, 100 * SumOf(ratings), |ratings|) <==> 0 - |ratings| <= 2 * Drift(average, ratings) <= |ratings|
  {
  }

  lemma SmallDrift(drift: int, earlier: int, average: int, sum: nat, n: nat)
    requires 1 <= n <= 6 && drift == n * average - 100 * sum
    requires 0 - n <= 2 * (drift - earlier) <= n
    requires if n == 4 then -1 <= earlier <= 1 else earlier == 0
    ensures 0 - n <= 2 * drift <= n && (n != 3 && n != 6 ==> drift == 0)
  {
    match n
    case 1 => assert drift == average - 100 * sum;
    case 2 => assert drift == 2 * (average - 50 * sum);
    case 3 => assert drift == 3 * average - 100 * sum;
    case 4 => assert drift == 4 * (average - 25 * sum);
    case 5 => assert drift == 5 * (average - 20 * sum);
    case 6 => assert drift == 6 * average - 100 * sum;
  }

  /** With seven it may not be: after 1,1,1,1,1,2 it is 1.17 and one more 1 makes it 1.15, while the true
      average 8/7 rounds to 1.14. */
  lemma StoredMayDifferFromTrue()
    ensures Stored(115, [1, 1, 1, 1, 1, 2, 1]) && SumOf([1, 1, 1, 1, 1, 2, 1]) == 8
    ensures Nearest(114, 100 * 8, 7) && !Nearest(115, 100 * 8, 7)
  {
    hide Stored, SumOf;
    var r := FiveOnes();
    r := Onwards(117, 100, r, 2);
    r := Onwards(115, 117, r, 1);
    assert r == [1, 1, 1, 1, 1, 2, 1];
  }

  lemma FiveOnes() returns (ones: seq<nat>)
    ensures ones == [1, 1, 1, 1, 1] && Stored(100, ones) && SumOf(ones) == 5
  {
    hide Stored, SumOf;
    ones := NoRatings();
    ones := Onwards(100, 0, ones, 1);
    for n := 1 to 5
      invariant |ones| == n && (forall i :: 0 <= i < n ==> ones[i] == 1) && Stored(100, ones) && SumOf(ones) == n
    {
      ones := Onwards(100, 100, ones, 1);
    }
  }

  lemma NoRatings() returns (none: seq<nat>)
    ensures none == [] && Stored(0, none) && SumOf(none) == 0
  {
    none := [];
  }

  lemma Onwards(average: int, before: int, ratings: seq<nat>, rating: nat) returns (more: seq<nat>)
    requires Stored(before, ratings) && Averaged(average, before, |ratings|, rating)
    ensures more == ratings + [rating] && Stored(average, more) && SumOf(more) == SumOf(ratings) + rating
  {
    more := ratings + [rating];
    assert more[..|ratings|] == ratings;
  }
}
