/**
 * `zrevrange("terms", 0, n)` and `zrange("terms", 0, n)`: the leading part of
 * the ranking of terms by score, best first or worst first.
 */
module Ranking {
  /** Score `a` may be listed ahead of score `b`: higher first for the best list, lower first for the worst. */
  predicate RanksBefore(best: bool, a: int, b: int) {
    if best then a >= b else a <= b
  }

  /** The names in a listing. */
  function Names(r: seq<(string, int)>): set<string> {
    set i | 0 <= i < |r| :: r[i].0
  }

  /**
   * How many entries a range query `0..stop` returns from a ranked set of `len`
   * members: a negative stop counts from the end, a stop past the end is the
   * last member, and an empty range gives nothing.
   */
  function RangeCount(len: nat, stop: int): (k: nat)
    ensures k <= len
  {
    var last := if stop < 0 then len + stop else if stop >= len then len - 1 else stop;
    if last < 0 then 0 else last + 1
  }

  /** A range `0..stop` with `stop >= 0` asks for `stop + 1` entries, or all of them if there are fewer. */
  lemma RangeCountFromStart(len: nat, stop: int)
    requires stop >= 0
    ensures RangeCount(len, stop) == if stop + 1 <= len then stop + 1 else len
  {
  }

  /** A range `0..stop` with `stop < 0` drops the last `-stop - 1` entries. */
  lemma RangeCountFromEnd(len: nat, stop: int)
    requires stop < 0
    ensures RangeCount(len, stop) == if len + stop + 1 >= 0 then len + stop + 1 else 0
  {
  }

  /** Some term ranks at least as well as every other. */
  lemma {:induction false} ExtremeExists(terms: map<string, int>, best: bool)
    requires terms != map[]
    ensures exists t :: t in terms && forall u | u in terms :: RanksBefore(best, terms[t], terms[u])
    decreases |terms|
  {
    var t0 :| t0 in terms;
    if forall u | u in terms :: u == t0 {
      assert forall u | u in terms :: RanksBefore(best, terms[t0], terms[u]);
    } else {
      var rest := terms - {t0};
      var u0 :| u0 in terms && u0 != t0;
      assert u0 in rest;
      assert |rest| < |terms| by {
        assert rest.Keys == terms.Keys - {t0};
      }
      ExtremeExists(rest, best);
      var t1 :| t1 in rest && forall u | u in rest :: RanksBefore(best, rest[t1], rest[u]);
      var m := if RanksBefore(best, terms[t1], terms[t0]) then t1 else t0;
      forall u | u in terms ensures RanksBefore(best, terms[m], terms[u]) {
        if u != t0 {
          assert u in rest;
        }
      }
    }
  }

  /** The names in `r` are drawn from `terms` with their scores, and `rest` holds exactly the others. */
  ghost predicate Splits(terms: map<string, int>, r: seq<(string, int)>, rest: map<string, int>) {
    && rest.Keys == terms.Keys - Names(r)
    && |rest| == |terms| - |r|
    && (forall t | t in rest :: rest[t] == terms[t])
    && (forall i | 0 <= i < |r| :: r[i].0 in terms && terms[r[i].0] == r[i].1)
  }

  /** `r` lists distinct names in ranking order, each ranking ahead of everything in `rest`. */
  ghost predicate Ordered(best: bool, r: seq<(string, int)>, rest: map<string, int>) {
    && (forall i, j | 0 <= i < j < |r| :: r[i].0 != r[j].0 && RanksBefore(best, r[i].1, r[j].1))
    && (forall t, i | t in rest && 0 <= i < |r| :: RanksBefore(best, r[i].1, rest[t]))
  }

  lemma NamesSnoc(r: seq<(string, int)>, x: (string, int))
    ensures Names(r + [x]) == Names(r) + {x.0}
  {
    var r' := r + [x];
    assert forall i | 0 <= i < |r| :: r'[i] == r[i];
    assert r'[|r|] == x;
  }

  /** Listing a term of `rest` keeps the split. */
  lemma SplitsStep(terms: map<string, int>, r: seq<(string, int)>, rest: map<string, int>, t: string)
    requires Splits(terms, r, rest) && t in rest
    ensures Splits(terms, r + [(t, rest[t])], rest - {t})
  {
    NamesSnoc(r, (t, rest[t]));
    var rest' := rest - {t};
    assert rest'.Keys == rest.Keys - {t};
    assert |rest'| == |rest| - 1 by {
      assert |rest'.Keys| == |rest.Keys| - 1;
    }
  }

  /** Listing a best term of `rest` keeps the order. */
  lemma OrderedStep(terms: map<string, int>, best: bool, r: seq<(string, int)>, rest: map<string, int>, t: string)
    requires Splits(terms, r, rest) && Ordered(best, r, rest)
    requires t in rest && forall u | u in rest :: RanksBefore(best, rest[t], rest[u])
    ensures Ordered(best, r + [(t, rest[t])], rest - {t})
  {
    var r' := r + [(t, rest[t])];
    forall i, j | 0 <= i < j < |r'| ensures r'[i].0 != r'[j].0 && RanksBefore(best, r'[i].1, r'[j].1) {
      if j == |r| {
        assert r[i].0 in Names(r);
      }
    }
  }

  /**
   * The first `k` entries of the ranking: `k` distinct terms with their
   * scores, in ranking order, and no term left out ranks ahead of any term
   * listed. Terms with equal scores may come in either order.
   */
  method TopRanked(terms: map<string, int>, k: nat, best: bool) returns (r: seq<(string, int)>)
    requires k <= |terms|
    ensures |r| == k
    ensures forall i | 0 <= i < |r| :: r[i].0 in terms && terms[r[i].0] == r[i].1
    ensures forall i, j | 0 <= i < j < |r| :: r[i].0 != r[j].0 && RanksBefore(best, r[i].1, r[j].1)
    ensures forall t, i | t in terms && t !in Names(r) && 0 <= i < |r| :: RanksBefore(best, r[i].1, terms[t])
    ensures k == |terms| ==> Names(r) == terms.Keys
  {
    var rest := terms;
    r := [];
    while |r| < k
      invariant |r| <= k
      invariant Splits(terms, r, rest) && Ordered(best, r, rest)
      decreases k - |r|
    {
      ExtremeExists(rest, best);
      var t :| t in rest && forall u | u in rest :: RanksBefore(best, rest[t], rest[u]);
      SplitsStep(terms, r, rest, t);
      OrderedStep(terms, best, r, rest, t);
      r := r + [(t, rest[t])];
      rest := rest - {t};
    }
    assert k == |terms| ==> rest == map[];
  }
}
