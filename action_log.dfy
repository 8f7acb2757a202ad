/**
 * The `actions` ranked set: serialized actions ranked by their timestamp.
 * It is modelled as a sequence kept in timestamp order, with the range
 * operations the decay engine and the backfill use, and the sums over it that
 * the score and modifier invariants are stated with.
 */
module ActionLog {
  import opened Base
  import opened Actions

  /** Entries are ranked by timestamp. */
  predicate Sorted(s: seq<Action>) {
    forall i, j :: 0 <= i < j < |s| ==> s[i].at <= s[j].at
  }

  /** `zadd(:actions, at, action)`: the new entry goes after every entry not later than it. */
  function Insert(s: seq<Action>, a: Action): (r: seq<Action>)
    ensures |r| == |s| + 1
    ensures multiset(r) == multiset(s) + multiset{a}
  {
    if s == [] || a.at < s[0].at then [a] + s
    else
      assert s == [s[0]] + s[1..];
      [s[0]] + Insert(s[1..], a)
  }

  /** Inserting keeps the log ranked. */
  lemma {:induction false} InsertSorted(s: seq<Action>, a: Action)
    requires Sorted(s)
    ensures Sorted(Insert(s, a))
  {
    if s != [] && a.at >= s[0].at {
      var rest := Insert(s[1..], a);
      InsertSorted(s[1..], a);
      forall k | 0 <= k < |rest| ensures s[0].at <= rest[k].at {
        assert rest[k] in multiset(rest);
        if rest[k] != a {
          assert rest[k] in multiset(s[1..]);
          var j :| 0 <= j < |s[1..]| && s[1..][j] == rest[k];
          assert s[j + 1] == rest[k];
        }
      }
    }
  }

  /** Inserting a sequence of entries one after the other. */
  function InsertAll(s: seq<Action>, xs: seq<Action>): (r: seq<Action>)
    ensures multiset(r) == multiset(s) + multiset(xs)
    decreases xs
  {
    if xs == [] then s
    else
      assert xs == [xs[0]] + xs[1..];
      InsertAll(Insert(s, xs[0]), xs[1..])
  }

  /** Inserting `xs + ys` is inserting `xs`, then `ys`. */
  lemma {:induction false} InsertAllAppend(s: seq<Action>, xs: seq<Action>, ys: seq<Action>)
    ensures InsertAll(s, xs + ys) == InsertAll(InsertAll(s, xs), ys)
    decreases xs
  {
    if xs == [] {
      assert xs + ys == ys;
    } else {
      assert (xs + ys)[0] == xs[0] && (xs + ys)[1..] == xs[1..] + ys;
      InsertAllAppend(Insert(s, xs[0]), xs[1..], ys);
    }
  }

  /** `zrangebyscore(:actions, '-inf', cutoff)`: the entries at or before the cutoff. */
  function Expired(s: seq<Action>, cutoff: real): (r: seq<Action>)
    ensures forall a | a in r :: a in s && a.at <= cutoff
  {
    if s == [] then []
    else if s[0].at <= cutoff then [s[0]] + Expired(s[1..], cutoff)
    else Expired(s[1..], cutoff)
  }

  /** What `zremrangebyscore(:actions, '-inf', cutoff)` leaves: the entries after the cutoff. */
  function Live(s: seq<Action>, cutoff: real): (r: seq<Action>)
    ensures forall a | a in r :: a in s && a.at > cutoff
  {
    if s == [] then []
    else if s[0].at <= cutoff then Live(s[1..], cutoff)
    else [s[0]] + Live(s[1..], cutoff)
  }

  /** On a ranked log the expired entries are a prefix and the live ones the rest. */
  lemma {:induction false} ExpiredIsPrefix(s: seq<Action>, cutoff: real)
    requires Sorted(s)
    ensures s == Expired(s, cutoff) + Live(s, cutoff)
  {
    if s != [] {
      ExpiredIsPrefix(s[1..], cutoff);
      if s[0].at > cutoff {
        NothingExpiredAfter(s, cutoff);
      }
    }
  }

  lemma {:induction false} NothingExpiredAfter(s: seq<Action>, cutoff: real)
    requires Sorted(s) && s != [] && s[0].at > cutoff
    ensures Expired(s, cutoff) == [] && Live(s, cutoff) == s
  {
    if |s| > 1 {
      NothingExpiredAfter(s[1..], cutoff);
    }
  }

  /** After a range delete nothing at or before the cutoff is left, and a second delete is a no-op. */
  lemma {:induction false} LiveIsFinal(s: seq<Action>, cutoff: real)
    ensures Expired(Live(s, cutoff), cutoff) == []
    ensures Live(Live(s, cutoff), cutoff) == Live(s, cutoff)
  {
    if s != [] {
      LiveIsFinal(s[1..], cutoff);
    }
  }

  lemma {:induction false} InsertAllSorted(s: seq<Action>, xs: seq<Action>)
    requires Sorted(s)
    ensures Sorted(InsertAll(s, xs))
    decreases xs
  {
    if xs != [] {
      InsertSorted(s, xs[0]);
      InsertAllSorted(Insert(s, xs[0]), xs[1..]);
    }
  }

  /** Keeping only the later entries keeps the log ranked. */
  lemma {:induction false} LiveSorted(s: seq<Action>, cutoff: real)
    requires Sorted(s)
    ensures Sorted(Live(s, cutoff))
  {
    if s != [] {
      LiveSorted(s[1..], cutoff);
      var rest := Live(s[1..], cutoff);
      if s[0].at > cutoff {
        forall k | 0 <= k < |rest| ensures s[0].at <= rest[k].at {
          assert rest[k] in s[1..];
          var j :| 0 <= j < |s[1..]| && s[1..][j] == rest[k];
          assert s[j + 1] == rest[k];
        }
      }
    }
  }

  // ---------------------------------------------------------------------------
  // Sums over the log

  /** What a sum over the log adds up. */
  datatype Measure =
    | DeltaOf(term: string)                        // the deltas of the term's actions
    | ActionsBy(term: string, user: Option<UserId>) // the term's actions of one user (or anonymous)
    | ActionsFor(term: string)                     // all of the term's actions

  function Weight(m: Measure, a: Action): int {
    match m
    case DeltaOf(t) => if a.term == t then a.delta else 0
    case ActionsBy(t, u) => if a.term == t && a.userId == u then 1 else 0
    case ActionsFor(t) => if a.term == t then 1 else 0
  }

  /** The sum of `Weight(m, _)` over the entries; a count is never negative and never exceeds the length. */
  function Sum(s: seq<Action>, m: Measure): (r: int)
    ensures !m.DeltaOf? ==> 0 <= r <= |s|
  {
    if s == [] then 0 else Weight(m, s[0]) + Sum(s[1..], m)
  }

  lemma {:induction false} SumAppend(a: seq<Action>, b: seq<Action>, m: Measure)
    ensures Sum(a + b, m) == Sum(a, m) + Sum(b, m)
  {
    if a == [] {
      assert a + b == b;
    } else {
      assert (a + b)[1..] == a[1..] + b;
      SumAppend(a[1..], b, m);
    }
  }

  /** A new entry adds its own weight to every sum. */
  lemma {:induction false} SumInsert(s: seq<Action>, a: Action, m: Measure)
    ensures Sum(Insert(s, a), m) == Sum(s, m) + Weight(m, a)
  {
    if s != [] && a.at >= s[0].at {
      SumInsert(s[1..], a, m);
    }
  }

  lemma {:induction false} SumInsertAll(s: seq<Action>, xs: seq<Action>, m: Measure)
    ensures Sum(InsertAll(s, xs), m) == Sum(s, m) + Sum(xs, m)
    decreases xs
  {
    if xs != [] {
      SumInsert(s, xs[0], m);
      SumInsertAll(Insert(s, xs[0]), xs[1..], m);
    }
  }

  /** A sum over entries that all weigh nothing is 0. */
  lemma {:induction false} SumZero(s: seq<Action>, m: Measure)
    requires forall a | a in s :: Weight(m, a) == 0
    ensures Sum(s, m) == 0
  {
    if s != [] {
      assert s[0] in s;
      SumZero(s[1..], m);
    }
  }

  /** A count over entries that all count is the length. */
  lemma {:induction false} SumAllOne(s: seq<Action>, m: Measure)
    requires forall a | a in s :: Weight(m, a) == 1
    ensures Sum(s, m) == |s|
  {
    if s != [] {
      assert s[0] in s;
      SumAllOne(s[1..], m);
    }
  }

  /** Every sum splits into the expired part and the live part. */
  lemma {:induction false} SumSplit(s: seq<Action>, cutoff: real, m: Measure)
    ensures Sum(s, m) == Sum(Expired(s, cutoff), m) + Sum(Live(s, cutoff), m)
  {
    if s != [] {
      SumSplit(s[1..], cutoff, m);
    }
  }

}
