/**
 * The per-place rating table `ratingPorLugar`: for every place id that some review
 * refers to, the number of those reviews and the average of their scores.
 */
module Ratings {
  import opened Wrappers
  import opened Entities
  import opened Collections

  /** The number of reviews filed under `id`. */
  function CountFor(rs: seq<Review>, id: string): nat {
    if rs == [] then 0
    else CountFor(rs[..|rs| - 1], id) + (if PlaceKey(rs[|rs| - 1]) == Some(id) then 1 else 0)
  }

  /** The sum of the scores of the reviews filed under `id`. */
  function SumFor(rs: seq<Review>, id: string): int {
    if rs == [] then 0
    else SumFor(rs[..|rs| - 1], id) + (if PlaceKey(rs[|rs| - 1]) == Some(id) then Score(rs[|rs| - 1]) else 0)
  }

  /** The count is zero exactly when no review is filed under `id`, and then so is the sum. */
  lemma {:induction false} CountZeroIffUnfiled(rs: seq<Review>, id: string)
    ensures CountFor(rs, id) <= |rs|
    ensures CountFor(rs, id) == 0 <==> forall i :: 0 <= i < |rs| ==> PlaceKey(rs[i]) != Some(id)
    ensures CountFor(rs, id) == 0 ==> SumFor(rs, id) == 0
  {
    if rs != [] {
      var init := rs[..|rs| - 1];
      CountZeroIffUnfiled(init, id);
      assert forall i :: 0 <= i < |init| ==> init[i] == rs[i];
    }
  }

  /** The running `{ sum, count }` kept per id while folding over the reviews. */
  datatype Acc = Acc(sum: int, count: nat)

  /**
   * `ratingPorLugar`: a first loop folds the reviews into a map of running sums and
   * counts; a second loop copies every entry into the result as `{ avg, count }`.
   * An id is in the table exactly when some review is filed under it.
   */
  method RatingPorLugar(resenas: seq<Review>) returns (result: map<string, Rating>)
    ensures forall id :: id in result <==> CountFor(resenas, id) > 0
    ensures forall id :: id in result ==>
      result[id].count == CountFor(resenas, id) &&
      result[id].avg == SumFor(resenas, id) as real / CountFor(resenas, id) as real
  {
    var acc: map<string, Acc> := map[];
    var i := 0;
    while i < |resenas|
      invariant 0 <= i <= |resenas|
      invariant forall id :: id in acc <==> CountFor(resenas[..i], id) > 0
      invariant forall id :: SumFor(resenas[..i], id) != 0 ==> CountFor(resenas[..i], id) > 0
      invariant forall id :: id in acc ==> acc[id] == Acc(SumFor(resenas[..i], id), CountFor(resenas[..i], id))
    {
      var r := resenas[i];
      assert resenas[..i + 1] == resenas[..i] + [r];
      Snoc(resenas[..i], r);
      match PlaceKey(r) {
        case None =>
        case Some(id) =>
          var prev := if id in acc then acc[id] else Acc(0, 0);
          acc := acc[id := Acc(prev.sum + Score(r), prev.count + 1)];
      }
      i := i + 1;
    }
    assert resenas[..i] == resenas;

    result := map[];
    var pending := acc.Keys;
    while pending != {}
      invariant pending <= acc.Keys
      invariant result.Keys == acc.Keys - pending
      invariant forall k :: k in result ==>
        result[k] == Rating(if acc[k].count != 0 then acc[k].sum as real / acc[k].count as real else 0.0, acc[k].count)
      decreases pending
    {
      var k :| k in pending;
      var v := acc[k];
      result := result[k := Rating(if v.count != 0 then v.sum as real / v.count as real else 0.0, v.count)];
      pending := pending - {k};
    }
  }

  /** How one more review changes the count and the sum of every id. */
  lemma Snoc(rs: seq<Review>, r: Review)
    ensures forall id :: CountFor(rs + [r], id) == CountFor(rs, id) + (if PlaceKey(r) == Some(id) then 1 else 0)
    ensures forall id :: SumFor(rs + [r], id) == SumFor(rs, id) + (if PlaceKey(r) == Some(id) then Score(r) else 0)
  {
    assert (rs + [r])[..|rs|] == rs;
  }

  /** `ratingPorLugar[id]?.avg || 0`: a place with no entry reads as average 0. */
  function AvgOf(table: map<string, Rating>, id: string): (a: real)
    ensures id in table ==> a == table[id].avg
    ensures id !in table ==> a == 0.0
  {
    if id in table then table[id].avg else 0.0
  }

  /** The reviews the detail view lists for `id`: those whose place reference is exactly `id`. */
  function ReviewsOf(rs: seq<Review>, id: string): (r: seq<Review>)
    ensures IsSubsequence(r, rs)
    ensures forall x :: x in r <==> x in rs && x.lugar == Some(id)
  {
    Filter(rs, (x: Review) => x.lugar == Some(id))
  }

  /** The aggregate count is the number of reviews the detail view shows for the place. */
  lemma {:induction false} CountIsReviewsOf(rs: seq<Review>, id: string)
    requires id != ""
    ensures CountFor(rs, id) == |ReviewsOf(rs, id)|
  {
    if rs != [] {
      var init, last := rs[..|rs| - 1], rs[|rs| - 1];
      assert rs == init + [last];
      CountIsReviewsOf(init, id);
      FilterAppend(init, [last], (x: Review) => x.lugar == Some(id));
    }
  }

  /** If every score filed under `id` is at least `lo`, the sum is at least `lo` per review. */
  lemma {:induction false} SumAtLeast(rs: seq<Review>, id: string, lo: int)
    requires forall r :: r in rs && PlaceKey(r) == Some(id) ==> lo <= Score(r)
    ensures lo * CountFor(rs, id) <= SumFor(rs, id)
  {
    if rs != [] {
      var init := rs[..|rs| - 1];
      assert forall r :: r in init ==> r in rs;
      SumAtLeast(init, id, lo);
    }
  }

  /** If every score filed under `id` is at most `hi`, the sum is at most `hi` per review. */
  lemma {:induction false} SumAtMost(rs: seq<Review>, id: string, hi: int)
    requires forall r :: r in rs && PlaceKey(r) == Some(id) ==> Score(r) <= hi
    ensures SumFor(rs, id) <= hi * CountFor(rs, id)
  {
    if rs != [] {
      var init := rs[..|rs| - 1];
      assert forall r :: r in init ==> r in rs;
      SumAtMost(init, id, hi);
    }
  }

  /** With scores between `lo` and `hi`, so is the average of a reviewed place. */
  lemma AverageBounds(rs: seq<Review>, id: string, lo: int, hi: int)
    requires forall r :: r in rs && PlaceKey(r) == Some(id) ==> lo <= Score(r) <= hi
    requires CountFor(rs, id) > 0
    ensures lo as real <= SumFor(rs, id) as real / CountFor(rs, id) as real <= hi as real
  {
    var n, sum := CountFor(rs, id), SumFor(rs, id);
    assert lo * n <= sum by {
      SumAtLeast(rs, id, lo);
    }
    assert sum <= hi * n by {
      SumAtMost(rs, id, hi);
    }
    CastProduct(lo, n);
    CastProduct(hi, n);
    DivideBounds(sum as real, n as real, lo as real, hi as real);
  }

  lemma DivideBounds(s: real, c: real, lo: real, hi: real)
    requires 0.0 < c && lo * c <= s <= hi * c
    ensures lo <= s / c <= hi
  {
    var a := s / c;
    assert a * c == s;
    if a < lo {
      ScaleStrict(a, lo, c);
    }
    if hi < a {
      ScaleStrict(hi, a, c);
    }
  }

  lemma CastProduct(a: int, b: int)
    ensures (a * b) as real == a as real * b as real
  {
  }

  lemma ScaleStrict(x: real, y: real, c: real)
    requires x < y && 0.0 < c
    ensures x * c < y * c
  {
  }

  /** Scores 5, 3 and 4 for a place give count 3 and average 4. */
  lemma ExampleFiveThreeFour(p: string, u: string)
    requires p != ""
    ensures var rs := [Review(Some(p), Some(u), Some(5), ""), Review(Some(p), Some(u), Some(3), ""),
                       Review(Some(p), Some(u), Some(4), "")];
      CountFor(rs, p) == 3 && SumFor(rs, p) as real / CountFor(rs, p) as real == 4.0
  {
    var rs := [Review(Some(p), Some(u), Some(5), ""), Review(Some(p), Some(u), Some(3), ""),
               Review(Some(p), Some(u), Some(4), "")];
    assert rs[..|rs| - 1] == rs[..2];
    assert rs[..2][..1] == rs[..1];
    assert rs[..1][..0] == [];
    assert CountFor(rs[..1], p) == 1 && SumFor(rs[..1], p) == 5;
    assert CountFor(rs[..2], p) == 2 && SumFor(rs[..2], p) == 8;
    assert CountFor(rs, p) == 3 && SumFor(rs, p) == 12;
  }

  /** Reviews without a place reference, or with an empty one, contribute to no id. */
  lemma {:induction false} UnfiledReviewsIgnored(rs: seq<Review>, r: Review, id: string)
    requires PlaceKey(r).None?
    ensures CountFor(rs + [r], id) == CountFor(rs, id) && SumFor(rs + [r], id) == SumFor(rs, id)
  {
    assert (rs + [r])[..|rs + [r]| - 1] == rs;
  }
}
