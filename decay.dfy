/**
 * The decay engine (lib/lita/handlers/karma/decay.rb; the same pass is inlined
 * as `process_decay` in chat.rb): every action at or before the cutoff is
 * reversed on the term's score and, when attributed, on the user's modifier
 * count; the expired actions are deleted; and the touched terms' modifier
 * entries that fell to zero or below are pruned.
 */
module Decay {
  import opened Base
  import opened Actions
  import opened ActionLog
  import opened KarmaStore
  import opened Config

  // ---------------------------------------------------------------------------
  // Specification

  /** `zincrby(:terms, -delta, term)` for each expired action, in order. */
  function DecayScores(terms: map<string, int>, e: seq<Action>): map<string, int>
    decreases |e|
  {
    if e == [] then terms
    else ZIncrBy(DecayScores(terms, e[..|e| - 1]), e[|e| - 1].term, -e[|e| - 1].delta)
  }

  /** `zincrby("modified:<term>", -1, user_id) if user_id` for one action. */
  function CountStep(modified: map<string, Counts>, a: Action): map<string, Counts> {
    if a.userId.Some? then ZIncrByCount(modified, a.term, a.userId.value, -1) else modified
  }

  /** `CountStep` for each expired action, in order. */
  function DecayCounts(modified: map<string, Counts>, e: seq<Action>): map<string, Counts>
    decreases |e|
  {
    if e == [] then modified else CountStep(DecayCounts(modified, e[..|e| - 1]), e[|e| - 1])
  }

  /** The entries of a modifier map with a positive count. */
  function Positive(c: Counts): (p: Counts)
    ensures p.Keys <= c.Keys
    ensures forall u | u in p :: p[u] == c[u] && p[u] > 0
    ensures forall u | u in c && c[u] > 0 :: u in p
  {
    map u | u in c && c[u] > 0 :: c[u]
  }

  /** `zremrangebyscore("modified:<t>", '-inf', 0)`; a ranked set emptied by it no longer exists. */
  function DropNonPositive(modified: map<string, Counts>, t: string): map<string, Counts> {
    if t !in modified then modified
    else if Positive(modified[t]) == map[] then modified - {t}
    else modified[t := Positive(modified[t])]
  }

  /** `delete_zero_modifiers_for(terms)`. */
  function DropAll(modified: map<string, Counts>, ts: seq<string>): map<string, Counts>
    decreases |ts|
  {
    if ts == [] then modified else DropNonPositive(DropAll(modified, ts[..|ts| - 1]), ts[|ts| - 1])
  }

  /** The terms of the expired actions, one per action, as `call` collects them. */
  function TermsOf(e: seq<Action>): (ts: seq<string>)
    ensures |ts| == |e| && forall i :: 0 <= i < |e| ==> ts[i] == e[i].term
  {
    seq(|e|, i requires 0 <= i < |e| => e[i].term)
  }

  /** The keyspace after one decay pass with the given cutoff. */
  function DecayDb(db: Db, cutoff: real): Db {
    var e := Expired(db.actions, cutoff);
    db.(terms := DecayScores(db.terms, e),
        modified := DropAll(DecayCounts(db.modified, e), TermsOf(e)),
        actions := Live(db.actions, cutoff))
  }

  /** No expired action belongs to a term whose `modified:` key is still a plain set (that would be a Redis type error). */
  predicate NoPlainSetsExpired(db: Db, cutoff: real) {
    forall a | a in Expired(db.actions, cutoff) :: a.term !in db.modifiedSets
  }

  /** No logged action belongs to a term whose `modified:` key is a plain set, so no decay pass can meet one. */
  predicate LogAvoidsPlainSets(db: Db) {
    forall a | a in db.actions :: a.term !in db.modifiedSets
  }

  /** Every term's score is the sum of its logged deltas (the invariant decay relies on). */
  ghost predicate ScoresMatchLog(db: Db) {
    forall t :: Score(db.terms, t) == Sum(db.actions, DeltaOf(t))
  }

  /** Every user's modifier count is the number of that user's logged actions for the term. */
  ghost predicate CountsMatchLog(db: Db) {
    forall t, u :: Count(db.modified, t, u) == Sum(db.actions, ActionsBy(t, Some(u)))
  }

  // ---------------------------------------------------------------------------
  // What the pieces do

  /** Decay lowers a term's score by the deltas of its expired actions. */
  lemma {:induction false} DecayScoreOf(terms: map<string, int>, e: seq<Action>, t: string)
    ensures Score(DecayScores(terms, e), t) == Score(terms, t) - Sum(e, DeltaOf(t))
    decreases |e|
  {
    if e != [] {
      var init, last := e[..|e| - 1], e[|e| - 1];
      assert e == init + [last];
      DecayScoreOf(terms, init, t);
      SumAppend(init, [last], DeltaOf(t));
    }
  }

  /** Decay creates a term key only for an expired action and deletes none. */
  lemma {:induction false} DecayScoresKeys(terms: map<string, int>, e: seq<Action>)
    ensures DecayScores(terms, e).Keys == terms.Keys + (set a | a in e :: a.term)
    decreases |e|
  {
    if e != [] {
      var init, last := e[..|e| - 1], e[|e| - 1];
      assert e == init + [last];
      DecayScoresKeys(terms, init);
      assert (set a | a in e :: a.term) == (set a | a in init :: a.term) + {last.term};
    }
  }

  /** One user's count after decay. */
  lemma {:induction false} DecayCountOf(modified: map<string, Counts>, e: seq<Action>, t: string, u: UserId)
    ensures Count(DecayCounts(modified, e), t, u) == Count(modified, t, u) - Sum(e, ActionsBy(t, Some(u)))
    decreases |e|
  {
    if e != [] {
      var init, last := e[..|e| - 1], e[|e| - 1];
      assert e == init + [last];
      DecayCountOf(modified, init, t, u);
      SumAppend(init, [last], ActionsBy(t, Some(u)));
    }
  }

  /** Whether a user has an entry after decay. */
  lemma {:induction false} DecayEntryOf(modified: map<string, Counts>, e: seq<Action>, t: string, u: UserId)
    ensures u in Mods(DecayCounts(modified, e), t) <==> u in Mods(modified, t) || Sum(e, ActionsBy(t, Some(u))) > 0
    decreases |e|
  {
    if e != [] {
      var init, last := e[..|e| - 1], e[|e| - 1];
      assert e == init + [last];
      DecayEntryOf(modified, init, t, u);
      SumAppend(init, [last], ActionsBy(t, Some(u)));
      assert Sum(init, ActionsBy(t, Some(u))) >= 0;
    }
  }

  /** Decay creates a term key only for an expired action and removes none. */
  lemma {:induction false} DecayCountsKeys(modified: map<string, Counts>, e: seq<Action>)
    ensures DecayCounts(modified, e).Keys <= modified.Keys + (set a | a in e :: a.term)
    ensures modified.Keys <= DecayCounts(modified, e).Keys
    decreases |e|
  {
    if e != [] {
      var init, last := e[..|e| - 1], e[|e| - 1];
      assert e == init + [last];
      DecayCountsKeys(modified, init);
      assert (set a | a in e :: a.term) == (set a | a in init :: a.term) + {last.term};
    }
  }

  lemma PositiveIdempotent(c: Counts)
    ensures Positive(Positive(c)) == Positive(c)
  {
  }

  /** Pruning touches only the listed terms: their maps keep the positive entries (and vanish if none is left). */
  lemma {:induction false} DropAllAt(modified: map<string, Counts>, ts: seq<string>, t: string)
    ensures t in ts ==> (t in DropAll(modified, ts) <==> t in modified && Positive(modified[t]) != map[])
    ensures t in ts && t in DropAll(modified, ts) ==> DropAll(modified, ts)[t] == Positive(modified[t])
    ensures t !in ts ==> (t in DropAll(modified, ts) <==> t in modified)
    ensures t !in ts && t in modified ==> DropAll(modified, ts)[t] == modified[t]
    decreases |ts|
  {
    if ts != [] {
      var init := ts[..|ts| - 1];
      assert ts == init + [ts[|ts| - 1]];
      DropAllAt(modified, init, t);
      if t in init && t in modified {
        PositiveIdempotent(modified[t]);
      }
    }
  }

  // ---------------------------------------------------------------------------
  // Properties of a decay pass

  /** Afterwards no action at or before the cutoff remains; the later ones are all kept. */
  lemma DecayRemovesExactlyExpired(db: Db, cutoff: real)
    requires Sorted(db.actions)
    ensures Expired(DecayDb(db, cutoff).actions, cutoff) == []
    ensures db.actions == Expired(db.actions, cutoff) + DecayDb(db, cutoff).actions
    ensures Sorted(DecayDb(db, cutoff).actions)
  {
    LiveIsFinal(db.actions, cutoff);
    ExpiredIsPrefix(db.actions, cutoff);
    LiveSorted(db.actions, cutoff);
  }

  /** Each expired action lowers its term's score by its delta; no term key is deleted, even at score 0. */
  lemma DecayLowersScores(db: Db, cutoff: real, t: string)
    ensures Score(DecayDb(db, cutoff).terms, t) == Score(db.terms, t) - Sum(Expired(db.actions, cutoff), DeltaOf(t))
    ensures db.terms.Keys <= DecayDb(db, cutoff).terms.Keys
  {
    DecayScoreOf(db.terms, Expired(db.actions, cutoff), t);
    DecayScoresKeys(db.terms, Expired(db.actions, cutoff));
  }

  /**
   * For a term with an expired action, each user keeps `count - expired
   * attributed actions` if that is positive and is dropped otherwise; every
   * other term's modifier map is unchanged.
   */
  lemma DecayPrunesModifiers(db: Db, cutoff: real, t: string, u: UserId)
    ensures var e := Expired(db.actions, cutoff);
      var after := DecayDb(db, cutoff).modified;
      if t in TermsOf(e) then
        && (u in Mods(after, t) <==> u in Mods(db.modified, t) && Count(db.modified, t, u) - Sum(e, ActionsBy(t, Some(u))) > 0)
        && (u in Mods(after, t) ==> Mods(after, t)[u] == Count(db.modified, t, u) - Sum(e, ActionsBy(t, Some(u))))
      else
        (t in after <==> t in db.modified) && Mods(after, t) == Mods(db.modified, t)
  {
    var e := Expired(db.actions, cutoff);
    var dec := DecayCounts(db.modified, e);
    if t in TermsOf(e) {
      PrunedTouched(dec, TermsOf(e), t, u);
      DecayCountOf(db.modified, e, t, u);
      var n := Sum(e, ActionsBy(t, Some(u)));
      assert n >= 0;
      assert Count(dec, t, u) == Count(db.modified, t, u) - n;
    } else {
      assert forall a | a in e :: a.term != t by {
        forall a | a in e ensures a.term != t {
          var i :| 0 <= i < |e| && e[i] == a;
          assert TermsOf(e)[i] == a.term;
        }
      }
      UntouchedCounts(db.modified, e, t);
      PrunedUntouched(dec, TermsOf(e), t);
    }
  }

  /** On a pruned term a user is kept exactly when the count is positive, with that count. */
  lemma PrunedTouched(modified: map<string, Counts>, ts: seq<string>, t: string, u: UserId)
    requires t in ts
    ensures u in Mods(DropAll(modified, ts), t) <==> Count(modified, t, u) > 0
    ensures u in Mods(DropAll(modified, ts), t) ==> Mods(DropAll(modified, ts), t)[u] == Count(modified, t, u)
  {
    DropAllAt(modified, ts, t);
    if t in modified && u in modified[t] && modified[t][u] > 0 {
      assert u in Positive(modified[t]);
    }
  }

  /** Pruning leaves a term it is not asked about alone. */
  lemma PrunedUntouched(modified: map<string, Counts>, ts: seq<string>, t: string)
    requires t !in ts
    ensures t in DropAll(modified, ts) <==> t in modified
    ensures Mods(DropAll(modified, ts), t) == Mods(modified, t)
  {
    DropAllAt(modified, ts, t);
  }

  /** Reversing actions of other terms leaves a term's modifier map alone. */
  lemma {:induction false} UntouchedCounts(modified: map<string, Counts>, e: seq<Action>, t: string)
    requires forall a | a in e :: a.term != t
    ensures t in DecayCounts(modified, e) <==> t in modified
    ensures Mods(DecayCounts(modified, e), t) == Mods(modified, t)
    decreases |e|
  {
    if e != [] {
      var init, last := e[..|e| - 1], e[|e| - 1];
      assert last in e;
      assert forall a | a in init :: a in e;
      UntouchedCounts(modified, init, t);
    }
  }

  lemma {:induction false} NoExpiredNoCount(e: seq<Action>, t: string, u: UserId)
    requires forall a | a in e :: a.term != t
    ensures Sum(e, ActionsBy(t, Some(u))) == 0
  {
    if e != [] {
      assert e[0] in e;
      NoExpiredNoCount(e[1..], t, u);
    }
  }

  /** For every term, the score minus the deltas of its logged actions is the same before and after. */
  lemma DecayKeepsScoreOffset(db: Db, cutoff: real, t: string)
    ensures Score(DecayDb(db, cutoff).terms, t) - Sum(DecayDb(db, cutoff).actions, DeltaOf(t))
         == Score(db.terms, t) - Sum(db.actions, DeltaOf(t))
  {
    DecayLowersScores(db, cutoff, t);
    SumSplit(db.actions, cutoff, DeltaOf(t));
  }

  /** So a score that equals the sum of its actions' deltas still does after decay. */
  lemma DecayPreservesScoresMatchLog(db: Db, cutoff: real)
    requires ScoresMatchLog(db)
    ensures ScoresMatchLog(DecayDb(db, cutoff))
  {
    forall t ensures Score(DecayDb(db, cutoff).terms, t) == Sum(DecayDb(db, cutoff).actions, DeltaOf(t)) {
      DecayKeepsScoreOffset(db, cutoff, t);
    }
  }

  /** And counts that match the users' logged actions still do: pruning drops exactly the users with none left. */
  lemma DecayPreservesCountsMatchLog(db: Db, cutoff: real)
    requires CountsMatchLog(db)
    ensures CountsMatchLog(DecayDb(db, cutoff))
  {
    var e := Expired(db.actions, cutoff);
    var after := DecayDb(db, cutoff);
    forall t, u ensures Count(after.modified, t, u) == Sum(after.actions, ActionsBy(t, Some(u))) {
      DecayPrunesModifiers(db, cutoff, t, u);
      SumSplit(db.actions, cutoff, ActionsBy(t, Some(u)));
      if t !in TermsOf(e) {
        assert forall a | a in e :: a.term != t by {
          forall a | a in e ensures a.term != t {
            var i :| 0 <= i < |e| && e[i] == a;
            assert TermsOf(e)[i] == a.term;
          }
        }
        NoExpiredNoCount(e, t, u);
      }
    }
  }

  /** A second pass with the same cutoff changes nothing. */
  lemma DecayIdempotent(db: Db, cutoff: real)
    ensures DecayDb(DecayDb(db, cutoff), cutoff) == DecayDb(db, cutoff)
  {
    LiveIsFinal(db.actions, cutoff);
  }

  /** Decay only touches scores, modifier counts and the log: links, cooldowns, sentinels and plain sets stay. */
  lemma DecayKeepsOtherKeys(db: Db, cutoff: real)
    ensures var d := DecayDb(db, cutoff);
      d.links == db.links && d.linkedTo == db.linkedTo && d.cooldown == db.cooldown
      && d.sentinels == db.sentinels && d.modifiedSets == db.modifiedSets && d.modifiedFlat == db.modifiedFlat
  {
  }

  /** A pass keeps the keyspace well formed when no expired action hits a plain modifier set. */
  lemma DecayWellFormed(db: Db, cutoff: real)
    requires WellFormed(db) && NoPlainSetsExpired(db, cutoff)
    ensures WellFormed(DecayDb(db, cutoff))
  {
    var e := Expired(db.actions, cutoff);
    DecayCountsKeys(db.modified, e);
    forall t | t in DropAll(DecayCounts(db.modified, e), TermsOf(e)) ensures t !in db.modifiedSets {
      DropAllAt(DecayCounts(db.modified, e), TermsOf(e), t);
    }
    LiveSorted(db.actions, cutoff);
  }

  /** A log that avoids plain sets has no such expired action, and still avoids them after the pass. */
  lemma DecayKeepsLogAvoidingPlainSets(db: Db, cutoff: real)
    requires LogAvoidsPlainSets(db)
    ensures NoPlainSetsExpired(db, cutoff)
    ensures LogAvoidsPlainSets(DecayDb(db, cutoff))
  {
  }

  // ---------------------------------------------------------------------------
  // The engine

  /** `decay_from_action`: reverse one action on the score and on the user's count; answer its term. */
  method DecayFromAction(store: Store, a: Action) returns (t: string)
    modifies store
    ensures t == a.term
    ensures store.Snap() == old(store.Snap()).(terms := ZIncrBy(old(store.terms), a.term, -a.delta),
                                               modified := CountStep(old(store.modified), a))
  {
    store.terms := ZIncrBy(store.terms, a.term, -a.delta);
    if a.userId.Some? {
      store.modified := ZIncrByCount(store.modified, a.term, a.userId.value, -1);
    }
    t := a.term;
  }

  /** `delete_zero_modifiers_for(terms)`. */
  method DeleteZeroModifiersFor(store: Store, ts: seq<string>)
    modifies store
    ensures store.Snap() == old(store.Snap()).(modified := DropAll(old(store.modified), ts))
  {
    var i := 0;
    while i < |ts|
      invariant 0 <= i <= |ts|
      invariant store.Snap() == old(store.Snap()).(modified := DropAll(old(store.modified), ts[..i]))
    {
      assert ts[..i + 1][..i] == ts[..i];
      store.modified := DropNonPositive(store.modified, ts[i]);
      i := i + 1;
    }
    assert ts[..i] == ts;
  }

  /** `delete_old_actions_for(terms, cutoff)`: the range delete, then the pruning. */
  method DeleteOldActionsFor(store: Store, ts: seq<string>, cutoff: real)
    modifies store
    ensures store.Snap() == old(store.Snap()).(actions := Live(old(store.actions), cutoff),
                                               modified := DropAll(old(store.modified), ts))
  {
    store.actions := Live(store.actions, cutoff);
    DeleteZeroModifiersFor(store, ts);
  }

  /** The loop of `call`: `decay_from_action` for each expired action, collecting the terms. */
  method DecayEach(store: Store, expired: seq<Action>) returns (touched: seq<string>)
    modifies store
    ensures touched == TermsOf(expired)
    ensures store.Snap() == old(store.Snap()).(terms := DecayScores(old(store.terms), expired),
                                               modified := DecayCounts(old(store.modified), expired))
  {
    touched := [];
    var i := 0;
    while i < |expired|
      invariant 0 <= i <= |expired|
      invariant touched == TermsOf(expired[..i])
      invariant store.Snap() == old(store.Snap()).(terms := store.terms, modified := store.modified)
      invariant store.terms == DecayScores(old(store.terms), expired[..i])
      invariant store.modified == DecayCounts(old(store.modified), expired[..i])
    {
      assert expired[..i + 1][..i] == expired[..i];
      var t := DecayFromAction(store, expired[i]);
      touched := touched + [t];
      i := i + 1;
    }
    assert expired[..i] == expired;
  }

  /** One decay pass with the given cutoff, shared by `Decay#call` and `Chat#process_decay`. */
  method ExpireUpTo(store: Store, cutoff: real)
    requires store.Valid() && NoPlainSetsExpired(store.Snap(), cutoff)
    modifies store
    ensures store.Valid()
    ensures store.Snap() == DecayDb(old(store.Snap()), cutoff)
  {
    ghost var before := store.Snap();
    var expired := Expired(store.actions, cutoff);
    var touched := DecayEach(store, expired);
    DeleteOldActionsFor(store, touched, cutoff);
    DecayWellFormed(before, cutoff);
  }

  /** `Lita::Handlers::Karma::Decay`: the stand-alone decay handler. */
  class DecayHandler {
    const store: Store
    const cfg: Config

    constructor (store: Store, cfg: Config)
      ensures this.store == store && this.cfg == cfg
    {
      this.store := store;
      this.cfg := cfg;
    }

    /** The cutoff of `call`: the clock truncated to whole seconds, minus the interval. */
    static function CallCutoff(cfg: Config, now: real): real {
      (now.Floor - cfg.decayInterval) as real
    }

    /** `call`: a no-op unless decay is enabled; otherwise one pass at `now.to_i - decay_interval`. */
    method Call(now: real)
      requires store.Valid()
      requires DecayEnabled(cfg) ==> NoPlainSetsExpired(store.Snap(), CallCutoff(cfg, now))
      modifies store
      ensures store.Valid()
      ensures store.Snap() == if DecayEnabled(cfg) then DecayDb(old(store.Snap()), CallCutoff(cfg, now)) else old(store.Snap())
    {
      if !DecayEnabled(cfg) {
        return;
      }
      ExpireUpTo(store, CallCutoff(cfg, now));
    }
  }
}
