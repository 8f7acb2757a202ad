/**
 * `Upgrade::ModifiedCounts` (upgrade/modified_counts.rb): a one-shot
 * migration that turns each term's plain `modified:<term>` set of user ids
 * into the counted form, with counts chosen by the configured upgrader, and
 * drops the leftover `modified_flat:<term>` key.
 */
module ModifiedCountsUpgrade {
  import opened Base
  import opened Config
  import opened KarmaStore

  /** `zadd(key, pairs)` on a fresh key: each `(count, user)` pair sets that user's count, a later pair overriding an earlier one. */
  function CountsOf(pairs: seq<(int, UserId)>): (r: Counts)
    ensures r.Keys == set p | p in pairs :: p.1
  {
    if pairs == [] then map[]
    else
      var last := pairs[|pairs| - 1];
      assert pairs == pairs[..|pairs| - 1] + [last];
      CountsOf(pairs[..|pairs| - 1])[last.1 := last.0]
  }

  /** A user's count is the one of the last pair naming that user. */
  lemma {:induction false} CountsOfLastWins(pairs: seq<(int, UserId)>, i: int)
    requires 0 <= i < |pairs|
    requires forall j | i < j < |pairs| :: pairs[j].1 != pairs[i].1
    ensures CountsOf(pairs)[pairs[i].1] == pairs[i].0
    decreases |pairs|
  {
    if i < |pairs| - 1 {
      var init := pairs[..|pairs| - 1];
      assert init[i] == pairs[i];
      CountsOfLastWins(init, i);
    }
  }

  /** The user ids passed to the upgrader for `t` (none if it was not upgraded). */
  function IdsOf(ids: map<string, seq<UserId>>, t: string): seq<UserId> {
    if t in ids then ids[t] else []
  }

  /** The counted form `upgrade_term` writes for `t`. */
  function Fresh(db: Db, upgrader: Upgrader, ids: map<string, seq<UserId>>, t: string): Counts {
    CountsOf(upgrader(Score(db.terms, t), IdsOf(ids, t)))
  }

  /** The terms among `done` whose `modified:` key is a plain set. */
  function Plain(db: Db, done: set<string>): (r: set<string>)
    ensures forall t :: t in r <==> t in done && t in db.modifiedSets
  {
    set t | t in done && t in db.modifiedSets
  }

  /** The counted sets once the terms in `up` are upgraded. */
  function UpgradedCounts(db: Db, upgrader: Upgrader, ids: map<string, seq<UserId>>, up: set<string>): (r: map<string, Counts>)
    ensures forall t :: t in r <==> if t in up then Fresh(db, upgrader, ids, t) != map[] else t in db.modified
    ensures forall t :: Mods(r, t) == if t in up then Fresh(db, upgrader, ids, t) else Mods(db.modified, t)
  {
    map t | t in db.modified.Keys + up && (t in up ==> Fresh(db, upgrader, ids, t) != map[]) ::
      if t in up then Fresh(db, upgrader, ids, t) else db.modified[t]
  }

  /**
   * The keyspace once the terms in `done` are visited: each term with a plain
   * set has it (and its `modified_flat:` key) deleted and, when the upgrader
   * gave any pairs, the counted set written in its place.
   */
  function Upgraded(db: Db, upgrader: Upgrader, ids: map<string, seq<UserId>>, done: set<string>): Db {
    var up := Plain(db, done);
    db.(modified := UpgradedCounts(db, upgrader, ids, up),
        modifiedSets := db.modifiedSets - up,
        modifiedFlat := db.modifiedFlat - up)
  }

  /** Two counted keyspaces with the same keys and the same counts are equal. */
  lemma SameCounts(a: map<string, Counts>, b: map<string, Counts>)
    requires forall t :: t in a <==> t in b
    requires forall t :: Mods(a, t) == Mods(b, t)
    ensures a == b
  {
    forall t | t in a ensures a[t] == b[t] {
      assert Mods(a, t) == Mods(b, t);
    }
  }

  /** `upgrade_term(term, score, upgrade)`: a no-op unless `modified:<term>` is a plain set. */
  function UpgradeTerm(db: Db, upgrader: Upgrader, t: string, ids: seq<UserId>): Db {
    if t !in db.modifiedSets then db
    else
      var c := CountsOf(upgrader(Score(db.terms, t), ids));
      db.(modified := if c == map[] then db.modified - {t} else db.modified[t := c],
          modifiedSets := db.modifiedSets - {t},
          modifiedFlat := db.modifiedFlat - {t})
  }

  /** The migration: a no-op once the sentinel exists; otherwise every scored term is visited and the sentinel set. */
  function UpgradeCountsDb(db: Db, upgrader: Upgrader, ids: map<string, seq<UserId>>): Db {
    if ModifiedCountsSentinel in db.sentinels then db
    else Upgraded(db, upgrader, ids, db.terms.Keys).(sentinels := db.sentinels + {ModifiedCountsSentinel})
  }

  // ---------------------------------------------------------------------------
  // Properties

  /** With the default upgrader every user in the old set gets the count 1, and no one else is counted. */
  lemma DefaultCountsOne(score: int, q: seq<UserId>, s: set<UserId>)
    requires Enumerates(q, s)
    ensures CountsOf(DefaultUpgrader(score, q)) == map u | u in s :: 1
  {
    var c := CountsOf(DefaultUpgrader(score, q));
    DefaultPairsName(score, q);
    assert c.Keys == s;
    forall u | u in c ensures c[u] == 1 {
      DefaultCountIsOne(score, q, u);
    }
    AllOnes(c, s);
  }

  lemma AllOnes(c: Counts, s: set<UserId>)
    requires c.Keys == s && forall u | u in c :: c[u] == 1
    ensures c == map u | u in s :: 1
  {
  }

  /** The default upgrader names exactly the listed users. */
  lemma DefaultPairsName(score: int, q: seq<UserId>)
    ensures (set p | p in DefaultUpgrader(score, q) :: p.1) == set u | u in q
  {
    var pairs := DefaultUpgrader(score, q);
    forall u | u in q ensures u in (set p | p in pairs :: p.1) {
      var i :| 0 <= i < |q| && q[i] == u;
      assert pairs[i] in pairs;
    }
    forall p | p in pairs ensures p.1 in q {
      var i :| 0 <= i < |pairs| && pairs[i] == p;
    }
  }

  /** A listed user, listed once, gets count 1. */
  lemma DefaultCountIsOne(score: int, q: seq<UserId>, u: UserId)
    requires forall i, j | 0 <= i < j < |q| :: q[i] != q[j]
    requires u in q
    ensures u in CountsOf(DefaultUpgrader(score, q)) && CountsOf(DefaultUpgrader(score, q))[u] == 1
  {
    var pairs := DefaultUpgrader(score, q);
    var i :| 0 <= i < |q| && q[i] == u;
    assert pairs[i] in pairs;
    CountsOfLastWins(pairs, i);
  }


  /**
   * After the migration no scored term keeps a plain set or a flat key,
   * every upgraded term holds exactly its upgrader's counts, and nothing
   * else in the keyspace changes.
   */
  lemma UpgradeCountsConverts(db: Db, upgrader: Upgrader, ids: map<string, seq<UserId>>)
    requires ModifiedCountsSentinel !in db.sentinels
    ensures var d := UpgradeCountsDb(db, upgrader, ids);
      && (forall t | t in db.terms :: t !in d.modifiedSets)
      && (forall t | t in db.terms && t in db.modifiedSets :: t !in d.modifiedFlat)
      && (forall t | t !in db.terms || t !in db.modifiedSets :: t in d.modifiedFlat <==> t in db.modifiedFlat)
      && (forall t | t in db.terms && t in db.modifiedSets :: Mods(d.modified, t) == Fresh(db, upgrader, ids, t))
      && (forall t | t !in db.terms || t !in db.modifiedSets :: Mods(d.modified, t) == Mods(db.modified, t))
      && (forall t | t !in db.terms :: Members(d.modifiedSets, t) == Members(db.modifiedSets, t))
      && d.terms == db.terms && d.links == db.links && d.linkedTo == db.linkedTo
      && d.cooldown == db.cooldown && d.actions == db.actions
      && ModifiedCountsSentinel in d.sentinels
  {
  }

  /** With the default upgrader a plain set of users becomes the same users counted once each. */
  lemma DefaultUpgradeCountsOnce(db: Db, ids: map<string, seq<UserId>>, t: string)
    requires ModifiedCountsSentinel !in db.sentinels
    requires t in db.terms && t in db.modifiedSets && t in ids && Enumerates(ids[t], db.modifiedSets[t])
    requires db.modifiedSets[t] != {}
    ensures Mods(UpgradeCountsDb(db, DefaultUpgrader, ids).modified, t) == map u | u in db.modifiedSets[t] :: 1
  {
    DefaultCountsOne(Score(db.terms, t), ids[t], db.modifiedSets[t]);
    var u :| u in db.modifiedSets[t];
    assert u in Fresh(db, DefaultUpgrader, ids, t);
  }

  /** The keyspace stays well formed: a term's key is never both counted and plain. */
  lemma UpgradeCountsWellFormed(db: Db, upgrader: Upgrader, ids: map<string, seq<UserId>>)
    requires WellFormed(db)
    ensures WellFormed(UpgradeCountsDb(db, upgrader, ids))
  {
  }

  /** The migration runs once: a second run, guarded by the sentinel, changes nothing. */
  lemma UpgradeCountsOnce(db: Db, upgrader: Upgrader, ids: map<string, seq<UserId>>, ids2: map<string, seq<UserId>>)
    ensures UpgradeCountsDb(UpgradeCountsDb(db, upgrader, ids), upgrader, ids2) == UpgradeCountsDb(db, upgrader, ids)
  {
  }

  lemma NothingUpgraded(db: Db, upgrader: Upgrader, ids: map<string, seq<UserId>>)
    ensures Upgraded(db, upgrader, ids, {}) == db
  {
    var d := Upgraded(db, upgrader, ids, {});
    assert Plain(db, {}) == {};
    assert d.modified == db.modified;
    assert d.modifiedSets == db.modifiedSets;
  }

  /** Visiting one more term is `upgrade_term` on it. */
  lemma UpgradedStep(db: Db, upgrader: Upgrader, ids: map<string, seq<UserId>>, done: set<string>, t: string, q: seq<UserId>)
    requires t !in done && t !in ids
    ensures UpgradeTerm(Upgraded(db, upgrader, ids, done), upgrader, t, q)
         == Upgraded(db, upgrader, if t in db.modifiedSets then ids[t := q] else ids, done + {t})
  {
    if t in db.modifiedSets {
      UpgradedStepPlain(db, upgrader, ids, done, t, q);
    } else {
      assert Plain(db, done + {t}) == Plain(db, done);
    }
  }

  lemma UpgradedStepPlain(db: Db, upgrader: Upgrader, ids: map<string, seq<UserId>>, done: set<string>, t: string, q: seq<UserId>)
    requires t !in done && t !in ids && t in db.modifiedSets
    ensures UpgradeTerm(Upgraded(db, upgrader, ids, done), upgrader, t, q) == Upgraded(db, upgrader, ids[t := q], done + {t})
  {
    var up := Plain(db, done);
    assert Plain(db, done + {t}) == up + {t};
    var before := Upgraded(db, upgrader, ids, done);
    assert t in before.modifiedSets;
    CountsStep(db, upgrader, ids, up, t, q);
    assert before.modifiedSets - {t} == db.modifiedSets - (up + {t});
    assert before.modifiedFlat - {t} == db.modifiedFlat - (up + {t});
  }

  lemma CountsStep(db: Db, upgrader: Upgrader, ids: map<string, seq<UserId>>, up: set<string>, t: string, q: seq<UserId>)
    requires t !in up && t !in ids
    ensures var c := CountsOf(upgrader(Score(db.terms, t), q));
      var m := UpgradedCounts(db, upgrader, ids, up);
      (if c == map[] then m - {t} else m[t := c]) == UpgradedCounts(db, upgrader, ids[t := q], up + {t})
  {
    CountsFrame(db, upgrader, ids, up, t, q);
    assert Fresh(db, upgrader, ids[t := q], t) == CountsOf(upgrader(Score(db.terms, t), q));
    CountsAdd(db, upgrader, ids[t := q], up, t);
  }

  /** The ids recorded for a term not yet upgraded do not matter. */
  lemma CountsFrame(db: Db, upgrader: Upgrader, ids: map<string, seq<UserId>>, up: set<string>, t: string, q: seq<UserId>)
    requires t !in up
    ensures UpgradedCounts(db, upgrader, ids[t := q], up) == UpgradedCounts(db, upgrader, ids, up)
  {
    forall s | s in up ensures Fresh(db, upgrader, ids[t := q], s) == Fresh(db, upgrader, ids, s) {
      assert IdsOf(ids[t := q], s) == IdsOf(ids, s);
    }
    SameCounts(UpgradedCounts(db, upgrader, ids[t := q], up), UpgradedCounts(db, upgrader, ids, up));
  }

  /** Upgrading one more term writes its counted set, or removes its key when the set is empty. */
  lemma CountsAdd(db: Db, upgrader: Upgrader, ids: map<string, seq<UserId>>, up: set<string>, t: string)
    requires t !in up
    ensures var c := Fresh(db, upgrader, ids, t);
      var m := UpgradedCounts(db, upgrader, ids, up);
      (if c == map[] then m - {t} else m[t := c]) == UpgradedCounts(db, upgrader, ids, up + {t})
  {
    var c := Fresh(db, upgrader, ids, t);
    var m := UpgradedCounts(db, upgrader, ids, up);
    SameCounts(if c == map[] then m - {t} else m[t := c], UpgradedCounts(db, upgrader, ids, up + {t}));
  }

  // ---------------------------------------------------------------------------
  // The migration

  /** `upgrade_term`: returns the user ids it passed to the upgrader, if it upgraded the term. */
  method UpgradeOne(store: Store, cfg: Config, t: string) returns (q: Option<seq<UserId>>)
    modifies store
    ensures q.Some? <==> t in old(store.modifiedSets)
    ensures q.Some? ==> Enumerates(q.value, old(store.modifiedSets)[t])
    ensures store.Snap() == UpgradeTerm(old(store.Snap()), cfg.upgrader, t, q.GetOr([]))
  {
    if t !in store.modifiedSets {
      return None;
    }
    var ids := Enumerate(store.modifiedSets[t]);
    var c := CountsOf(cfg.upgrader(Score(store.terms, t), ids));
    // `delete_keys([key, tmp_key])`, then `zadd(key, result)`, which creates no key for an empty result
    store.modifiedSets, store.modifiedFlat := store.modifiedSets - {t}, store.modifiedFlat - {t};
    store.modified := if c == map[] then store.modified - {t} else store.modified[t := c];
    q := Some(ids);
  }

  /**
   * `modified_counts`: visits every scored term. Returns the order `smembers`
   * gave for each upgraded term, which the upgrader may depend on.
   */
  method ModifiedCounts(store: Store, cfg: Config) returns (ids: map<string, seq<UserId>>)
    modifies store
    ensures ModifiedCountsSentinel !in old(store.sentinels) ==>
      forall t :: t in ids <==> t in old(store.terms) && t in old(store.modifiedSets)
    ensures forall t | t in ids :: t in old(store.modifiedSets) && Enumerates(ids[t], old(store.modifiedSets)[t])
    ensures store.Snap() == UpgradeCountsDb(old(store.Snap()), cfg.upgrader, ids)
  {
    ids := map[];
    if ModifiedCountsSentinel in store.sentinels {
      return;
    }
    ghost var db := store.Snap();
    var rest := store.terms.Keys;
    ghost var done: set<string> := {};
    NothingUpgraded(db, cfg.upgrader, ids);
    while rest != {}
      invariant rest + done == db.terms.Keys && rest !! done
      invariant forall t :: t in ids <==> t in done && t in db.modifiedSets
      invariant forall t | t in ids :: Enumerates(ids[t], db.modifiedSets[t])
      invariant store.Snap() == Upgraded(db, cfg.upgrader, ids, done)
      decreases rest
    {
      var t :| t in rest;
      ghost var before := store.Snap();
      var q := UpgradeOne(store, cfg, t);
      UpgradedStep(db, cfg.upgrader, ids, done, t, q.GetOr([]));
      if q.Some? {
        ids := ids[t := q.value];
      }
      rest, done := rest - {t}, done + {t};
    }
    store.sentinels := store.sentinels + {ModifiedCountsSentinel};
  }
}
