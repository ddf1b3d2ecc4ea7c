/**
 * The ranked score store behind `Trends::Base`, kept abstract: a view is a
 * map from status id to score, and a rank query returns the ids in
 * descending score order. The store's tie-breaking among equal scores is
 * not fixed: every statement below holds for any order of tied ids.
 */
module Ranking {
  import opened Sequences

  /** A ranked view (`all` or `allowed`): status id to score. */
  type View = map<int, real>

  /** How many ids a rank query with `limit` returns from `size` ids; -1 means no limit. */
  function Bound(limit: int, size: nat): nat
    requires limit >= -1
  {
    if limit == -1 || limit > size then size else limit
  }

  /** `ids` are distinct members of `view`, in descending score order. */
  ghost predicate Descending(view: View, ids: seq<int>) {
    (forall i :: 0 <= i < |ids| ==> ids[i] in view) &&
    Distinct(ids) &&
    (forall i, j :: 0 <= i < j < |ids| ==> view[ids[i]] >= view[ids[j]])
  }

  /**
   * `ids` is an answer of `currently_trending_ids` with `limit`: the highest
   * scoring members of `view`, in descending score order, as many as the
   * limit allows, and no member left out scores above one taken.
   */
  ghost predicate IsTop(view: View, limit: int, ids: seq<int>)
    requires limit >= -1
  {
    Descending(view, ids) &&
    |ids| == Bound(limit, |view.Keys|) &&
    (forall id, i :: id in view && id !in ids && 0 <= i < |ids| ==> view[id] <= view[ids[i]])
  }

  /** Some member of a non-empty set. */
  ghost function Pick(s: set<int>): (x: int)
    requires |s| > 0
    ensures x in s
  {
    assert (forall y :: y !in s) ==> s == {};
    var x :| x in s; x
  }

  /** A non-empty view has a member of maximal score. */
  lemma {:induction false} MaxExists(view: View)
    requires |view.Keys| > 0
    ensures exists top :: top in view && forall id :: id in view ==> view[id] <= view[top]
    decreases |view.Keys|
  {
    var x := Pick(view.Keys);
    var rest := view - {x};
    assert rest.Keys == view.Keys - {x};
    if |rest.Keys| == 0 {
      forall id | id in view ensures view[id] <= view[x] {
        assert id !in rest.Keys;
      }
    } else {
      MaxExists(rest);
      var top :| top in rest && forall id :: id in rest ==> rest[id] <= rest[top];
      var best := if view[top] < view[x] then x else top;
      forall id | id in view ensures view[id] <= view[best] {
        if id != x {
          assert id in rest;
        }
      }
    }
  }

  /**
   * The state of a rank query part way through: `ids` taken so far in
   * descending order, `rest` the members not yet taken, none of which
   * outscores a member taken.
   */
  ghost predicate Selecting(view: View, rest: View, ids: seq<int>) {
    rest.Keys == view.Keys - Elems(ids) &&
    (forall id :: id in rest ==> rest[id] == view[id]) &&
    Descending(view, ids) &&
    |rest.Keys| + |ids| == |view.Keys| &&
    (forall id, i :: id in rest && 0 <= i < |ids| ==> view[id] <= view[ids[i]])
  }

  /** Taking a member of maximal score among the rest keeps the query consistent. */
  lemma TakeTop(view: View, rest: View, ids: seq<int>, top: int)
    requires Selecting(view, rest, ids)
    requires top in rest && forall id :: id in rest ==> rest[id] <= rest[top]
    ensures Selecting(view, rest - {top}, ids + [top])
  {
    TakeTopKeys(view, rest, ids, top);
    TakeTopOrder(view, rest, ids, top);
  }

  lemma TakeTopKeys(view: View, rest: View, ids: seq<int>, top: int)
    requires rest.Keys == view.Keys - Elems(ids)
    requires |rest.Keys| + |ids| == |view.Keys|
    requires top in rest
    ensures (rest - {top}).Keys == view.Keys - Elems(ids + [top])
    ensures |(rest - {top}).Keys| + |ids + [top]| == |view.Keys|
  {
    var rest' := rest - {top};
    assert rest'.Keys + {top} == rest.Keys;
    assert Elems(ids + [top]) == Elems(ids) + {top};
  }

  lemma TakeTopOrder(view: View, rest: View, ids: seq<int>, top: int)
    requires Descending(view, ids)
    requires rest.Keys == view.Keys - Elems(ids)
    requires forall id :: id in rest ==> rest[id] == view[id]
    requires forall id, i :: id in rest && 0 <= i < |ids| ==> view[id] <= view[ids[i]]
    requires top in rest && forall id :: id in rest ==> rest[id] <= rest[top]
    ensures Descending(view, ids + [top])
    ensures forall id, i :: id in rest - {top} && 0 <= i < |ids + [top]| ==> view[id] <= view[(ids + [top])[i]]
  {
    var ids' := ids + [top];
    forall i | 0 <= i < |ids| ensures ids'[i] == ids[i] && ids[i] != top {
      assert ids[i] in Elems(ids);
    }
    assert Distinct(ids');
    forall i, j | 0 <= i < j < |ids'| ensures view[ids'[i]] >= view[ids'[j]] {
      if j == |ids| {
        assert view[top] <= view[ids[i]];
      }
    }
  }

  /** Once the query stops, the ids taken are an answer for the limit. */
  lemma Stopped(view: View, limit: int, rest: View, ids: seq<int>)
    requires limit >= -1
    requires Selecting(view, rest, ids)
    requires limit != -1 ==> |ids| <= limit
    requires |rest.Keys| == 0 || (limit != -1 && |ids| == limit)
    ensures IsTop(view, limit, ids)
  {
    forall id, i | id in view && id !in ids && 0 <= i < |ids| ensures view[id] <= view[ids[i]] {
      assert id in rest.Keys;
    }
  }

  /**
   * The rank query (`zrevrange`): repeatedly takes a member of maximal
   * score among those not yet taken, until the limit or the view runs out.
   */
  method TopIds(view: View, limit: int) returns (ids: seq<int>)
    requires limit >= -1
    ensures IsTop(view, limit, ids)
  {
    var rest := view;
    ids := [];
    while |rest.Keys| > 0 && (limit == -1 || |ids| < limit)
      invariant Selecting(view, rest, ids)
      invariant limit != -1 ==> |ids| <= limit
      decreases |rest.Keys|
    {
      MaxExists(rest);
      var top :| top in rest && forall id :: id in rest ==> rest[id] <= rest[top];
      TakeTop(view, rest, ids, top);
      ids := ids + [top];
      rest := rest - {top};
    }
    Stopped(view, limit, rest, ids);
  }

  /** An unlimited rank query lists every member of the view. */
  lemma FullRanking(view: View, ids: seq<int>)
    requires IsTop(view, -1, ids)
    ensures Elems(ids) == view.Keys
  {
    DistinctCard(ids);
    assert Elems(ids) <= view.Keys;
    forall x | x in view.Keys ensures x in Elems(ids) {
      if x !in Elems(ids) {
        SubsetCard(Elems(ids) + {x}, view.Keys);
      }
    }
  }

  /**
   * `score_at_rank(k)`: the score of the member at position `k` of a full
   * ranking, and 0 when the view has no member there.
   */
  ghost function ScoreAtRank(view: View, ranking: seq<int>, k: nat): (r: real)
    requires IsTop(view, -1, ranking)
    ensures k < |ranking| ==> r in view.Values && |AboveScore(view, r)| <= k < |AtLeastScore(view, r)|
    ensures k >= |ranking| ==> r == 0.0
  {
    if k < |ranking| then
      FewAbove(view, ranking, k);
      ManyAtLeast(view, ranking, k);
      view[ranking[k]]
    else 0.0
  }

  /** The ids of a view scoring strictly above `score`. */
  ghost function AboveScore(view: View, score: real): set<int> {
    set id | id in view.Keys && view[id] > score
  }

  /** At most `k` ids score above the member at position `k` of a full ranking. */
  lemma FewAbove(view: View, ranking: seq<int>, k: nat)
    requires IsTop(view, -1, ranking)
    requires k < |ranking|
    ensures |AboveScore(view, view[ranking[k]])| <= k
  {
    FullRanking(view, ranking);
    var top := ranking[..k];
    forall id | id in AboveScore(view, view[ranking[k]]) ensures id in Elems(top) {
      assert id in Elems(ranking);
      var j :| 0 <= j < |ranking| && ranking[j] == id;
      assert j < k;
      assert top[j] == id;
    }
    assert Distinct(top);
    DistinctCard(top);
    SubsetCard(AboveScore(view, view[ranking[k]]), Elems(top));
  }

  /** The ids of a view scoring `score` or more. */
  ghost function AtLeastScore(view: View, score: real): set<int> {
    set id | id in view.Keys && view[id] >= score
  }

  /** More than `k` ids score at least as much as the member at position `k` of a ranking. */
  lemma ManyAtLeast(view: View, ranking: seq<int>, k: nat)
    requires IsTop(view, -1, ranking)
    requires k < |ranking|
    ensures |AtLeastScore(view, view[ranking[k]])| > k
  {
    var top := ranking[..k + 1];
    forall id | id in Elems(top) ensures id in AtLeastScore(view, view[ranking[k]]) {
      var j :| 0 <= j < |top| && top[j] == id;
      assert ranking[j] == id;
    }
    assert Distinct(top);
    DistinctCard(top);
    SubsetCard(Elems(top), AtLeastScore(view, view[ranking[k]]));
  }

  /**
   * The cutoff does not depend on how the store orders tied members: any two
   * full rankings of a view carry the same score at every position.
   */
  lemma {:induction false} ScoreAtRankTieFree(view: View, r1: seq<int>, r2: seq<int>, k: nat)
    requires IsTop(view, -1, r1) && IsTop(view, -1, r2)
    ensures ScoreAtRank(view, r1, k) == ScoreAtRank(view, r2, k)
  {
    if k < |r1| {
      if view[r1[k]] > view[r2[k]] {
        Outscored(view, r1, r2, k);
      } else if view[r2[k]] > view[r1[k]] {
        Outscored(view, r2, r1, k);
      }
    }
  }

  /** Helper: a ranking cannot score higher than another at the same position. */
  lemma {:induction false} Outscored(view: View, r1: seq<int>, r2: seq<int>, k: nat)
    requires IsTop(view, -1, r1) && IsTop(view, -1, r2)
    requires k < |r1|
    ensures view[r1[k]] <= view[r2[k]]
  {
    if view[r1[k]] > view[r2[k]] {
      FullRanking(view, r2);
      var top := r1[..k + 1];
      var above := r2[..k];
      // Every member of `top` outscores r2[k], so it sits before position k in r2.
      forall x | x in Elems(top) ensures x in Elems(above) {
        var i :| 0 <= i < |top| && top[i] == x;
        assert view[x] >= view[r1[k]];
        var j :| 0 <= j < |r2| && r2[j] == x;
        assert j < k;
        assert above[j] == x;
      }
      assert Distinct(top);
      assert Distinct(above);
      DistinctCard(top);
      DistinctCard(above);
      SubsetCard(Elems(top), Elems(above));
    }
  }

  /**
   * A member scoring above the score at position `k` is ranked before
   * position `k` in every full ranking.
   */
  lemma AboveCutoffRanksHigher(view: View, ranking: seq<int>, k: nat, id: int)
    requires IsTop(view, -1, ranking)
    requires k < |ranking|
    requires id in view && view[id] > ScoreAtRank(view, ranking, k)
    ensures id in ranking[..k]
  {
    FullRanking(view, ranking);
    assert id in Elems(ranking);
    var j :| 0 <= j < |ranking| && ranking[j] == id;
    assert j < k;
    assert ranking[..k][j] == id;
  }
}
