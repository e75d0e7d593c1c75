/** Python's `sorted(items, key=lambda x: -score(x))`: highest score first, and
    items of one score in the order they came. */
module Ranking {
  import opened Sums

  /** x goes behind every item that scores as much or more. */
  function Place<V>(ranked: seq<V>, x: V, score: V -> nat): (r: seq<V>)
    ensures |r| == |ranked| + 1
  {
    if ranked != [] && score(ranked[|ranked| - 1]) < score(x)
    then Place(ranked[..|ranked| - 1], x, score) + [ranked[|ranked| - 1]]
    else ranked + [x]
  }

  function Ranked<V>(items: seq<V>, score: V -> nat): (r: seq<V>)
    ensures |r| == |items|
  {
    if items == [] then [] else Place(Ranked(items[..|items| - 1], score), items[|items| - 1], score)
  }

  ghost predicate Descends<V>(items: seq<V>, score: V -> nat) {
    forall i, j :: 0 <= i < j < |items| ==> score(items[i]) >= score(items[j])
  }

  /** The items of one score, in order. */
  function OfScore<V>(items: seq<V>, score: V -> nat, n: nat): seq<V> {
    if items == [] then []
    else OfScore(items[..|items| - 1], score, n) + if score(items[|items| - 1]) == n then [items[|items| - 1]] else []
  }

  lemma OfScoreSnoc<V>(items: seq<V>, x: V, score: V -> nat, n: nat)
    ensures OfScore(items + [x], score, n) == OfScore(items, score, n) + if score(x) == n then [x] else []
  {
    assert (items + [x])[..|items|] == items;
  }

  lemma {:induction false} PlacePermutes<V>(ranked: seq<V>, x: V, score: V -> nat)
    ensures multiset(Place(ranked, x, score)) == multiset(ranked) + multiset{x}
    decreases |ranked|
  {
    if ranked != [] && score(ranked[|ranked| - 1]) < score(x) {
      PlacePermutes(ranked[..|ranked| - 1], x, score);
      assert ranked == ranked[..|ranked| - 1] + [ranked[|ranked| - 1]];
    }
  }

  /** Placing an item leaves every score at or above a bound that held before. */
  lemma PlaceBound<V>(ranked: seq<V>, x: V, score: V -> nat, least: nat, i: nat)
    requires forall j :: 0 <= j < |ranked| ==> score(ranked[j]) >= least
    requires score(x) >= least && i <= |ranked|
    ensures score(Place(ranked, x, score)[i]) >= least
  {
    hide Place;
    PlacePermutes(ranked, x, score);
    assert Place(ranked, x, score)[i] in multiset(Place(ranked, x, score));
  }

  lemma {:induction false} PlaceDescends<V>(ranked: seq<V>, x: V, score: V -> nat)
    requires Descends(ranked, score)
    ensures Descends(Place(ranked, x, score), score)
    decreases |ranked|
  {
    if ranked != [] && score(ranked[|ranked| - 1]) < score(x) {
      var init, last := ranked[..|ranked| - 1], ranked[|ranked| - 1];
      PlaceDescends(init, x, score);
      forall i | 0 <= i <= |init| ensures score(Place(init, x, score)[i]) >= score(last) {
        PlaceBound(init, x, score, score(last), i);
      }
    }
  }

  lemma {:induction false} PlaceOfScore<V>(ranked: seq<V>, x: V, score: V -> nat, n: nat)
    ensures OfScore(Place(ranked, x, score), score, n) == OfScore(ranked, score, n) + if score(x) == n then [x] else []
    decreases |ranked|
  {
    if ranked != [] && score(ranked[|ranked| - 1]) < score(x) {
      var init, last := ranked[..|ranked| - 1], ranked[|ranked| - 1];
      assert Place(ranked, x, score) == Place(init, x, score) + [last];
      PlaceOfScore(init, x, score, n);
      OfScoreSnoc(Place(init, x, score), last, score, n);
      hide Place;
      assert ranked == init + [last];
      OfScoreSnoc(init, last, score, n);
      hide OfScore;
      var before := OfScore(init, score, n);
      assert before + [] == before;
    } else {
      OfScoreSnoc(ranked, x, score, n);
    }
  }

  /** The ranking is a permutation, descends in score, and is stable. */
  lemma {:induction false} RankedIsStable<V>(items: seq<V>, score: V -> nat, n: nat)
    ensures Descends(Ranked(items, score), score)
    ensures multiset(Ranked(items, score)) == multiset(items)
    ensures OfScore(Ranked(items, score), score, n) == OfScore(items, score, n)
    decreases |items|
  {
    if items != [] {
      var init, x := items[..|items| - 1], items[|items| - 1];
      assert items == init + [x];
      RankedIsStable(init, score, n);
      PlacePermutes(Ranked(init, score), x, score);
      PlaceDescends(Ranked(init, score), x, score);
      PlaceOfScore(Ranked(init, score), x, score, n);
    }
  }

  lemma {:induction false} PlaceSum<V>(ranked: seq<V>, x: V, score: V -> nat, f: V -> nat)
    ensures Sum(Place(ranked, x, score), f) == Sum(ranked, f) + f(x)
    decreases |ranked|
  {
    if ranked != [] && score(ranked[|ranked| - 1]) < score(x) {
      var init, last := ranked[..|ranked| - 1], ranked[|ranked| - 1];
      PlaceSum(init, x, score, f);
      SumSnoc(Place(init, x, score), last, f);
    } else {
      SumSnoc(ranked, x, f);
    }
  }

  /** Ranking does not change a sum. */
  lemma {:induction false} RankedSum<V>(items: seq<V>, score: V -> nat, f: V -> nat)
    ensures Sum(Ranked(items, score), f) == Sum(items, f)
    decreases |items|
  {
    if items != [] {
      var init, x := items[..|items| - 1], items[|items| - 1];
      RankedSum(init, score, f);
      PlaceSum(Ranked(init, score), x, score, f);
    }
  }
}
