/**
 * `Upgrade::Decay` (upgrade/decay.rb): a one-shot migration run when decay
 * is switched on. Data written before decay existed has scores and modifier
 * counts but few or no actions; the migration synthesises the missing
 * actions, per modifier and for the anonymous remainder of the score, spread
 * over the decay interval by the configured distributor.
 *
 * `Time.now` is read afresh for every synthesised action in the source; the
 * model takes one `now` for the whole run.
 */
module DecayBackfill {
  import opened Base
  import opened Actions
  import opened ActionLog
  import opened Config
  import opened KarmaStore

  /** A key of the `current` tally: a term and a user id, `None` for anonymous actions. */
  type Pair = (string, Option<UserId>)

  /** `current[term][user_id]`: a missing entry reads as the hash's default, 0. */
  function Tally(current: map<Pair, int>, t: string, u: Option<UserId>): int {
    if (t, u) in current then current[(t, u)] else 0
  }

  /** The existing actions of `u` on `t`. */
  function Existing(db: Db, t: string, u: Option<UserId>): nat {
    Sum(db.actions, ActionsBy(t, u))
  }

  /** The tally counts the actions of every (term, user) pair. */
  ghost predicate Tallies(current: map<Pair, int>, actions: seq<Action>) {
    forall t, u :: Tally(current, t, u) == Sum(actions, ActionsBy(t, u))
  }

  /** The `zrange(mod_key)` of the backfill raises WRONGTYPE on a plain set, so no scored term may still have one. */
  predicate ScoredTermsCounted(db: Db) {
    forall t | t in db.terms :: t !in db.modifiedSets
  }

  /** Whether the migration runs: `decay_enabled? && !redis.exists('support:decay')`. */
  predicate Runs(db: Db, cfg: Config) {
    DecayEnabled(cfg) && DecaySentinel !in db.sentinels
  }

  // ---------------------------------------------------------------------------
  // The synthesised actions

  /**
   * `k.times { |i| add_action(t, user, 1, now - distributor(interval, i, n)) }`:
   * nothing when `k` is not positive, otherwise `k` actions of `user` on `t`,
   * each worth +1.
   */
  function Synth(cfg: Config, now: real, t: string, user: Option<UserId>, k: int, n: int): (r: seq<Action>)
    ensures |r| == if k > 0 then k else 0
    ensures forall a | a in r :: a.term == t && a.userId == user && a.delta == 1
  {
    var r := seq(if k > 0 then k else 0, i => New(t, user, now - cfg.distributor(cfg.decayInterval, i, n)));
    assert forall a | a in r :: a.term == t && a.userId == user && a.delta == 1 by {
      forall a | a in r ensures a.term == t && a.userId == user && a.delta == 1 {
        var i :| 0 <= i < |r| && r[i] == a;
        assert r[i] == New(t, user, now - cfg.distributor(cfg.decayInterval, i, n));
      }
    }
    r
  }

  /** The i-th action of a group. */
  lemma SynthAt(cfg: Config, now: real, t: string, user: Option<UserId>, k: int, n: int, i: int)
    requires 0 <= i < |Synth(cfg, now, t, user, k, n)|
    ensures Synth(cfg, now, t, user, k, n)[i] == New(t, user, now - cfg.distributor(cfg.decayInterval, i, n))
  {
  }

  /** The `total` of the modifier loop: the counts of the listed users. */
  function ModTotal(db: Db, t: string, users: seq<UserId>): int {
    if users == [] then 0
    else ModTotal(db, t, users[..|users| - 1]) + Count(db.modified, t, users[|users| - 1])
  }

  /** The existing actions of the listed users on `t`. */
  function ExistingTotal(db: Db, t: string, users: seq<UserId>): int {
    if users == [] then 0
    else ExistingTotal(db, t, users[..|users| - 1]) + Existing(db, t, Some(users[|users| - 1]))
  }

  /** The modifier loop: for each listed user with count `m` and `c` existing actions, `m - c` new ones. */
  function UsersSynth(db: Db, cfg: Config, now: real, t: string, users: seq<UserId>): (r: seq<Action>)
    ensures forall a | a in r :: a.term == t && a.userId.Some? && a.userId.value in users && a.delta == 1
  {
    if users == [] then []
    else
      var u := users[|users| - 1];
      var m := Count(db.modified, t, u);
      UsersSynth(db, cfg, now, t, users[..|users| - 1]) + Synth(cfg, now, t, Some(u), m - Existing(db, t, Some(u)), m)
  }

  /** `remainder = term_score.to_i - total - current[term][nil]`. */
  function Remainder(db: Db, t: string, users: seq<UserId>): int {
    Score(db.terms, t) - ModTotal(db, t, users) - Existing(db, t, None)
  }

  /** Everything synthesised for one term: the modifier groups, then the anonymous remainder. */
  function TermSynth(db: Db, cfg: Config, now: real, t: string, users: seq<UserId>): (r: seq<Action>)
    ensures forall a | a in r :: a.term == t && a.delta == 1
  {
    var rem := Remainder(db, t, users);
    UsersSynth(db, cfg, now, t, users) + Synth(cfg, now, t, None, rem, rem)
  }

  /** The modifier order used for `t`. */
  function UsersOf(users: map<string, seq<UserId>>, t: string): seq<UserId> {
    if t in users then users[t] else []
  }

  /** Everything synthesised, term after term. */
  function AllSynth(db: Db, cfg: Config, now: real, terms: seq<string>, users: map<string, seq<UserId>>): (r: seq<Action>)
    ensures forall a | a in r :: a.term in terms && a.delta == 1
  {
    if terms == [] then []
    else
      var t := terms[|terms| - 1];
      AllSynth(db, cfg, now, terms[..|terms| - 1], users) + TermSynth(db, cfg, now, t, UsersOf(users, t))
  }

  /**
   * The migration, given the order in which the terms and each term's
   * modifiers were listed: the synthesised actions are added to the log and
   * the sentinel set; nothing else changes.
   */
  function BackfillDb(db: Db, cfg: Config, now: real, terms: seq<string>, users: map<string, seq<UserId>>): Db {
    if !Runs(db, cfg) then db
    else db.(actions := InsertAll(db.actions, AllSynth(db, cfg, now, terms, users)),
             sentinels := db.sentinels + {DecaySentinel})
  }

  // ---------------------------------------------------------------------------
  // How many actions are synthesised

  /** A group holds `max(0, k)` actions, all of one term and one user. */
  lemma SynthCount(cfg: Config, now: real, t: string, user: Option<UserId>, k: int, n: int, m: Measure)
    ensures Sum(Synth(cfg, now, t, user, k, n), m) == if Weight(m, Action(t, user, 1, now)) == 0 then 0 else |Synth(cfg, now, t, user, k, n)|
  {
    var r := Synth(cfg, now, t, user, k, n);
    if Weight(m, Action(t, user, 1, now)) == 0 {
      SumZero(r, m);
    } else {
      SumAllOne(r, m);
    }
  }

  /** How many actions modifier `u` of `t` lacks: `max(0, m - c)`. */
  function Missing(db: Db, t: string, u: UserId): nat {
    var m := Count(db.modified, t, u);
    var c := Existing(db, t, Some(u));
    if m - c > 0 then m - c else 0
  }

  /** Each listed modifier `u` gets `max(0, m - c)` new actions; unlisted users and anonymous get none. */
  lemma {:induction false} UsersSynthCount(db: Db, cfg: Config, now: real, t: string, users: seq<UserId>, u: Option<UserId>)
    requires forall i, j | 0 <= i < j < |users| :: users[i] != users[j]
    ensures Sum(UsersSynth(db, cfg, now, t, users), ActionsBy(t, u)) == if u.Some? && u.value in users then Missing(db, t, u.value) else 0
  {
    if users != [] {
      var init := users[..|users| - 1];
      var last := users[|users| - 1];
      var m := Count(db.modified, t, last);
      var group := Synth(cfg, now, t, Some(last), m - Existing(db, t, Some(last)), m);
      var M := ActionsBy(t, u);
      UsersSynthCount(db, cfg, now, t, init, u);
      assert UsersSynth(db, cfg, now, t, users) == UsersSynth(db, cfg, now, t, init) + group;
      SumAppend(UsersSynth(db, cfg, now, t, init), group, M);
      SynthCount(cfg, now, t, Some(last), m - Existing(db, t, Some(last)), m, M);
      assert |group| == Missing(db, t, last);
      if u == Some(last) {
        assert last !in init;
        assert Sum(group, M) == Missing(db, t, last);
      } else {
        assert Sum(group, M) == 0;
        assert u.Some? && u.value in users ==> u.value in init by {
          if u.Some? && u.value in users {
            var i :| 0 <= i < |users| && users[i] == u.value;
            assert init[i] == u.value;
          }
        }
      }
    }
  }

  /** Per modifier `max(0, m - c)` new actions, and `max(0, remainder)` anonymous ones. */
  lemma TermSynthCount(db: Db, cfg: Config, now: real, t: string, users: seq<UserId>, u: Option<UserId>)
    requires forall i, j | 0 <= i < j < |users| :: users[i] != users[j]
    ensures Sum(TermSynth(db, cfg, now, t, users), ActionsBy(t, u)) ==
      if u.Some? then
        if u.value in users then Missing(db, t, u.value) else 0
      else
        var rem := Remainder(db, t, users);
        if rem > 0 then rem else 0
  {
    var rem := Remainder(db, t, users);
    UsersSynthCount(db, cfg, now, t, users, u);
    SumAppend(UsersSynth(db, cfg, now, t, users), Synth(cfg, now, t, None, rem, rem), ActionsBy(t, u));
    SynthCount(cfg, now, t, None, rem, rem, ActionsBy(t, u));
  }

  /** Only the term's own entry in the term order contributes to a sum about that term. */
  lemma {:induction false} AllSynthSum(db: Db, cfg: Config, now: real, terms: seq<string>, users: map<string, seq<UserId>>, m: Measure)
    requires forall i, j | 0 <= i < j < |terms| :: terms[i] != terms[j]
    ensures Sum(AllSynth(db, cfg, now, terms, users), m) ==
      if m.term in terms then Sum(TermSynth(db, cfg, now, m.term, UsersOf(users, m.term)), m) else 0
  {
    if terms != [] {
      var init := terms[..|terms| - 1];
      var t := terms[|terms| - 1];
      var rest := AllSynth(db, cfg, now, init, users);
      var mine := TermSynth(db, cfg, now, t, UsersOf(users, t));
      AllSynthSum(db, cfg, now, init, users, m);
      SumAppend(rest, mine, m);
      assert t !in init;
      if m.term != t {
        SumZero(mine, m);
      } else {
        assert forall a | a in rest :: a.term != t;
        SumZero(rest, m);
      }
    }
  }

  /**
   * After the migration, each modifier `u` of a scored term `t` has
   * `c + max(0, m - c)` actions and there are `c_nil + max(0, remainder)`
   * anonymous ones, where `c` counts the actions before.
   */
  lemma BackfillCounts(db: Db, cfg: Config, now: real, terms: seq<string>, users: map<string, seq<UserId>>, t: string, u: Option<UserId>)
    requires Runs(db, cfg)
    requires forall i, j | 0 <= i < j < |terms| :: terms[i] != terms[j]
    requires t in terms && t in users && Enumerates(users[t], Mods(db.modified, t).Keys)
    ensures Sum(BackfillDb(db, cfg, now, terms, users).actions, ActionsBy(t, u)) == Existing(db, t, u) +
      if u.Some? then
        if u.value in Mods(db.modified, t) then Missing(db, t, u.value) else 0
      else
        var rem := Remainder(db, t, users[t]);
        if rem > 0 then rem else 0
  {
    SumInsertAll(db.actions, AllSynth(db, cfg, now, terms, users), ActionsBy(t, u));
    AllSynthSum(db, cfg, now, terms, users, ActionsBy(t, u));
    TermSynthCount(db, cfg, now, t, users[t], u);
  }

  // ---------------------------------------------------------------------------
  // The score is reached

  /** One action's weight across the listed users' counts: 1 if its user is listed, else 0. */
  function UsersWeight(t: string, users: seq<UserId>, a: Action): int {
    if users == [] then 0
    else UsersWeight(t, users[..|users| - 1], a) + Weight(ActionsBy(t, Some(users[|users| - 1])), a)
  }

  lemma {:induction false} UsersWeightIsMembership(t: string, users: seq<UserId>, a: Action)
    requires forall i, j | 0 <= i < j < |users| :: users[i] != users[j]
    ensures UsersWeight(t, users, a) == if a.term == t && a.userId.Some? && a.userId.value in users then 1 else 0
  {
    if users != [] {
      var init := users[..|users| - 1];
      UsersWeightIsMembership(t, init, a);
      assert users[|users| - 1] !in init;
      assert forall v :: v in users <==> v in init || v == users[|users| - 1];
    }
  }

  /** The existing-action totals of the listed users, one action at a time. */
  lemma {:induction false} ExistingTotalCons(db: Db, t: string, users: seq<UserId>)
    requires db.actions != []
    ensures ExistingTotal(db, t, users) == UsersWeight(t, users, db.actions[0]) + ExistingTotal(db.(actions := db.actions[1..]), t, users)
  {
    if users != [] {
      ExistingTotalCons(db, t, users[..|users| - 1]);
    }
  }

  /** When every action of `t` is by a listed user or anonymous, its actions split into those groups. */
  lemma {:induction false} ActionsSplitByUser(db: Db, t: string, users: seq<UserId>)
    requires forall i, j | 0 <= i < j < |users| :: users[i] != users[j]
    requires forall a | a in db.actions && a.term == t :: a.userId.None? || a.userId.value in users
    ensures Sum(db.actions, ActionsFor(t)) == Existing(db, t, None) + ExistingTotal(db, t, users)
    decreases |db.actions|
  {
    if db.actions == [] {
      EmptyExistingTotal(db, t, users);
    } else {
      var a := db.actions[0];
      var rest := db.(actions := db.actions[1..]);
      assert forall b | b in rest.actions :: b in db.actions;
      ActionsSplitByUser(rest, t, users);
      ExistingTotalCons(db, t, users);
      UsersWeightIsMembership(t, users, a);
    }
  }

  lemma {:induction false} EmptyExistingTotal(db: Db, t: string, users: seq<UserId>)
    requires db.actions == []
    ensures ExistingTotal(db, t, users) == 0
  {
    if users != [] {
      EmptyExistingTotal(db, t, users[..|users| - 1]);
    }
  }

  /** With no modifier behind on actions, the modifier groups make up the difference between counts and actions. */
  lemma {:induction false} UsersSynthLength(db: Db, cfg: Config, now: real, t: string, users: seq<UserId>)
    requires forall u | u in users :: Existing(db, t, Some(u)) <= Count(db.modified, t, u)
    ensures |UsersSynth(db, cfg, now, t, users)| == ModTotal(db, t, users) - ExistingTotal(db, t, users)
  {
    if users != [] {
      UsersSynthLength(db, cfg, now, t, users[..|users| - 1]);
    }
  }

  /**
   * Suppose every existing action of a scored term is by one of its modifiers
   * or anonymous, no modifier has more actions than its count, and the score
   * covers the counts and the anonymous actions. Then after the migration the
   * term has exactly as many actions as its score.
   */
  lemma BackfillReachesScore(db: Db, cfg: Config, now: real, terms: seq<string>, users: map<string, seq<UserId>>, t: string)
    requires Runs(db, cfg)
    requires forall i, j | 0 <= i < j < |terms| :: terms[i] != terms[j]
    requires t in terms && t in users && Enumerates(users[t], Mods(db.modified, t).Keys)
    requires forall a | a in db.actions && a.term == t :: a.userId.None? || a.userId.value in Mods(db.modified, t)
    requires forall u | u in Mods(db.modified, t) :: Existing(db, t, Some(u)) <= Count(db.modified, t, u)
    requires Score(db.terms, t) >= ModTotal(db, t, users[t]) + Existing(db, t, None)
    ensures Sum(BackfillDb(db, cfg, now, terms, users).actions, ActionsFor(t)) == Score(db.terms, t)
  {
    var us := users[t];
    var mine := TermSynth(db, cfg, now, t, us);
    SumInsertAll(db.actions, AllSynth(db, cfg, now, terms, users), ActionsFor(t));
    AllSynthSum(db, cfg, now, terms, users, ActionsFor(t));
    SumAllOne(mine, ActionsFor(t));
    ActionsSplitByUser(db, t, us);
    UsersSynthLength(db, cfg, now, t, us);
  }

  // ---------------------------------------------------------------------------
  // Timestamps

  /** The synthesised actions lie strictly inside the decay window `(now - interval, now)`. */
  ghost predicate InWindow(s: seq<Action>, cfg: Config, now: real) {
    forall a | a in s :: now - cfg.decayInterval as real < a.at < now
  }

  /**
   * With the default distributor a group lies inside the window, and its
   * i-th action is older than the one before it.
   */
  lemma SynthTimestamps(cfg: Config, now: real, t: string, user: Option<UserId>, k: int, n: int)
    requires DecayEnabled(cfg) && cfg.distributor == DefaultDistributor && k <= n
    ensures InWindow(Synth(cfg, now, t, user, k, n), cfg, now)
    ensures var r := Synth(cfg, now, t, user, k, n);
      forall i, j | 0 <= i < j < |r| :: r[j].at < r[i].at
  {
    var r := Synth(cfg, now, t, user, k, n);
    forall a | a in r ensures now - cfg.decayInterval as real < a.at < now {
      var i :| 0 <= i < |r| && r[i] == a;
      SynthAt(cfg, now, t, user, k, n, i);
      DistributorWithinInterval(cfg.decayInterval, i, n);
    }
    forall i, j | 0 <= i < j < |r| ensures r[j].at < r[i].at {
      SynthAt(cfg, now, t, user, k, n, i);
      SynthAt(cfg, now, t, user, k, n, j);
      DistributorIncreasing(cfg.decayInterval, i, j, n);
    }
  }

  lemma {:induction false} UsersSynthInWindow(db: Db, cfg: Config, now: real, t: string, users: seq<UserId>)
    requires DecayEnabled(cfg) && cfg.distributor == DefaultDistributor
    ensures InWindow(UsersSynth(db, cfg, now, t, users), cfg, now)
  {
    if users != [] {
      var u := users[|users| - 1];
      var m := Count(db.modified, t, u);
      UsersSynthInWindow(db, cfg, now, t, users[..|users| - 1]);
      SynthTimestamps(cfg, now, t, Some(u), m - Existing(db, t, Some(u)), m);
    }
  }

  /** With the default distributor every synthesised action falls inside the decay window, so decay keeps it until it ages out. */
  lemma {:induction false} AllSynthInWindow(db: Db, cfg: Config, now: real, terms: seq<string>, users: map<string, seq<UserId>>)
    requires DecayEnabled(cfg) && cfg.distributor == DefaultDistributor
    ensures InWindow(AllSynth(db, cfg, now, terms, users), cfg, now)
  {
    if terms != [] {
      var t := terms[|terms| - 1];
      var us := UsersOf(users, t);
      var rem := Remainder(db, t, us);
      AllSynthInWindow(db, cfg, now, terms[..|terms| - 1], users);
      UsersSynthInWindow(db, cfg, now, t, us);
      SynthTimestamps(cfg, now, t, None, rem, rem);
    }
  }

  // ---------------------------------------------------------------------------
  // Everything else is kept

  /** Existing actions, the scores and the modifier counts are untouched; the log stays ranked and only gains +1 actions. */
  lemma BackfillKeeps(db: Db, cfg: Config, now: real, terms: seq<string>, users: map<string, seq<UserId>>)
    requires WellFormed(db)
    ensures var d := BackfillDb(db, cfg, now, terms, users);
      && WellFormed(d)
      && d.terms == db.terms && d.modified == db.modified && d.links == db.links && d.cooldown == db.cooldown
      && multiset(db.actions) <= multiset(d.actions)
      && (forall a | a in multiset(d.actions) - multiset(db.actions) :: a.delta == 1)
      && (Runs(db, cfg) <==> DecaySentinel in d.sentinels - db.sentinels)
  {
    var d := BackfillDb(db, cfg, now, terms, users);
    if Runs(db, cfg) {
      var xs := AllSynth(db, cfg, now, terms, users);
      InsertAllSorted(db.actions, xs);
      assert multiset(d.actions) - multiset(db.actions) == multiset(xs);
    }
  }

  /** The migration runs once: a second run, guarded by the sentinel, changes nothing. */
  lemma BackfillOnce(db: Db, cfg: Config, now: real, now2: real, terms: seq<string>, users: map<string, seq<UserId>>,
                     terms2: seq<string>, users2: map<string, seq<UserId>>)
    ensures var d := BackfillDb(db, cfg, now, terms, users);
      BackfillDb(d, cfg, now2, terms2, users2) == d
  {
  }

  // ---------------------------------------------------------------------------
  // The migration

  /** The tally loop: one increment of `current[term][user_id]` per existing action. */
  method TallyActions(actions: seq<Action>) returns (current: map<Pair, int>)
    ensures Tallies(current, actions)
  {
    current := map[];
    for i := 0 to |actions|
      invariant Tallies(current, actions[..i])
    {
      var a := actions[i];
      ghost var prev := current;
      current := current[(a.term, a.userId) := Tally(current, a.term, a.userId) + 1];
      assert actions[..i + 1] == actions[..i] + [a];
      forall t, u ensures Tally(current, t, u) == Sum(actions[..i + 1], ActionsBy(t, u)) {
        SumAppend(actions[..i], [a], ActionsBy(t, u));
      }
    }
    assert actions[..|actions|] == actions;
  }

  /** `add_action`: inserts the action unless decay is off. */
  method AddAction(store: Store, cfg: Config, t: string, user: Option<UserId>, delta: int, at: real)
    modifies store
    ensures store.Snap() == old(store.Snap()).(actions := if DecayEnabled(cfg) then Insert(old(store.actions), New(t, user, at, delta)) else old(store.actions))
  {
    if !DecayEnabled(cfg) {
      return;
    }
    store.actions := Insert(store.actions, New(t, user, at, delta));
  }

  /** One more entry of a sequence being inserted. */
  lemma InsertNext(actions: seq<Action>, xs: seq<Action>, i: nat)
    requires i < |xs|
    ensures InsertAll(actions, xs[..i + 1]) == Insert(InsertAll(actions, xs[..i]), xs[i])
  {
    assert xs[..i + 1] == xs[..i] + [xs[i]];
    InsertAllAppend(actions, xs[..i], [xs[i]]);
  }

  /** One `k.times` loop. */
  method AddGroup(store: Store, cfg: Config, now: real, t: string, user: Option<UserId>, k: int, n: int)
    requires DecayEnabled(cfg)
    modifies store
    ensures store.Snap() == old(store.Snap()).(actions := InsertAll(old(store.actions), Synth(cfg, now, t, user, k, n)))
  {
    ghost var group := Synth(cfg, now, t, user, k, n);
    var i := 0;
    assert group[..i] == [];
    assert store.actions == InsertAll(old(store.actions), group[..i]);
    while i < k
      invariant 0 <= i <= |group|
      invariant store.Snap() == old(store.Snap()).(actions := store.actions)
      invariant store.actions == InsertAll(old(store.actions), group[..i])
    {
      var at := now - cfg.distributor(cfg.decayInterval, i, n);
      ghost var prev := store.actions;
      SynthAt(cfg, now, t, user, k, n, i);
      assert group[i] == New(t, user, at);
      InsertNext(old(store.actions), group, i);
      AddAction(store, cfg, t, user, 1, at);
      assert store.actions == Insert(prev, group[i]);
      i := i + 1;
    }
    assert group[..i] == group;
  }

  /** One more modifier group. */
  lemma UsersStep(actions: seq<Action>, prev: seq<Action>, db: Db, cfg: Config, now: real, t: string, users: seq<UserId>, j: nat, m: int)
    requires j < |users| && m == Count(db.modified, t, users[j])
    requires prev == InsertAll(actions, UsersSynth(db, cfg, now, t, users[..j]))
    ensures InsertAll(actions, UsersSynth(db, cfg, now, t, users[..j + 1]))
         == InsertAll(prev, Synth(cfg, now, t, Some(users[j]), m - Existing(db, t, Some(users[j])), m))
    ensures ModTotal(db, t, users[..j + 1]) == ModTotal(db, t, users[..j]) + m
  {
    var group := Synth(cfg, now, t, Some(users[j]), m - Existing(db, t, Some(users[j])), m);
    var p := users[..j + 1];
    assert p[..|p| - 1] == users[..j] && p[|p| - 1] == users[j];
    assert UsersSynth(db, cfg, now, t, p) == UsersSynth(db, cfg, now, t, users[..j]) + group;
    InsertAllAppend(actions, UsersSynth(db, cfg, now, t, users[..j]), group);
  }

  /** One pass of the modifier loop: `(count - existing).times` actions for `users[j]`; answers the count. */
  method AddModifierGroup(store: Store, cfg: Config, now: real, t: string, counts: Counts, users: seq<UserId>, j: nat,
                          current: map<Pair, int>, ghost db: Db)
    returns (m: int)
    requires DecayEnabled(cfg) && Tallies(current, db.actions)
    requires counts == Mods(db.modified, t) && j < |users| && users[j] in counts
    modifies store
    ensures m == Count(db.modified, t, users[j])
    ensures store.Snap() == old(store.Snap()).(actions := InsertAll(old(store.actions),
              Synth(cfg, now, t, Some(users[j]), m - Existing(db, t, Some(users[j])), m)))
  {
    var u := users[j];
    m := counts[u];
    var c := Tally(current, t, Some(u));
    assert c == Existing(db, t, Some(u));
    AddGroup(store, cfg, now, t, Some(u), m - c, m);
  }

  /** The modifier loop of one term, in the order `users`; returns the running `total`. */
  method AddModifierGroups(store: Store, cfg: Config, now: real, t: string, counts: Counts, users: seq<UserId>, current: map<Pair, int>, ghost db: Db)
    returns (total: int)
    requires DecayEnabled(cfg) && Tallies(current, db.actions)
    requires counts == Mods(db.modified, t) && forall u | u in users :: u in counts
    modifies store
    ensures total == ModTotal(db, t, users)
    ensures store.Snap() == old(store.Snap()).(actions := InsertAll(old(store.actions), UsersSynth(db, cfg, now, t, users)))
  {
    total := 0;
    assert users[..0] == [];
    for j := 0 to |users|
      invariant total == ModTotal(db, t, users[..j])
      invariant store.Snap() == old(store.Snap()).(actions := store.actions)
      invariant store.actions == InsertAll(old(store.actions), UsersSynth(db, cfg, now, t, users[..j]))
    {
      ghost var prev := store.actions;
      var m := AddModifierGroup(store, cfg, now, t, counts, users, j, current, db);
      UsersStep(old(store.actions), prev, db, cfg, now, t, users, j, m);
      total := total + m;
    }
    assert users[..|users|] == users;
  }

  /** The body of the term loop: the modifier groups, then the anonymous remainder. Returns the modifier order. */
  method BackfillTerm(store: Store, cfg: Config, now: real, t: string, current: map<Pair, int>, ghost db: Db) returns (users: seq<UserId>)
    requires DecayEnabled(cfg) && Tallies(current, db.actions)
    requires store.terms == db.terms && store.modified == db.modified && t !in store.modifiedSets
    modifies store
    ensures Enumerates(users, Mods(db.modified, t).Keys)
    ensures store.Snap() == old(store.Snap()).(actions := InsertAll(old(store.actions), TermSynth(db, cfg, now, t, users)))
  {
    var counts := Mods(store.modified, t);
    users := Enumerate(counts.Keys);
    var total := AddModifierGroups(store, cfg, now, t, counts, users, current, db);
    var remainder := Score(store.terms, t) - total - Tally(current, t, None);
    assert remainder == Remainder(db, t, users);
    ghost var anonymous := Synth(cfg, now, t, None, remainder, remainder);
    assert TermSynth(db, cfg, now, t, users) == UsersSynth(db, cfg, now, t, users) + anonymous;
    InsertAllAppend(old(store.actions), UsersSynth(db, cfg, now, t, users), anonymous);
    AddGroup(store, cfg, now, t, None, remainder, remainder);
  }

  lemma {:induction false} AllSynthFrame(db: Db, cfg: Config, now: real, terms: seq<string>, users: map<string, seq<UserId>>, t: string, us: seq<UserId>)
    requires t !in terms
    ensures AllSynth(db, cfg, now, terms, users[t := us]) == AllSynth(db, cfg, now, terms, users)
  {
    if terms != [] {
      AllSynthFrame(db, cfg, now, terms[..|terms| - 1], users, t, us);
      assert UsersOf(users[t := us], terms[|terms| - 1]) == UsersOf(users, terms[|terms| - 1]);
    }
  }

  /** One more term. */
  lemma TermsStep(actions: seq<Action>, db: Db, cfg: Config, now: real, terms: seq<string>, users: map<string, seq<UserId>>, i: nat, us: seq<UserId>)
    requires i < |terms| && terms[i] !in terms[..i]
    ensures InsertAll(actions, AllSynth(db, cfg, now, terms[..i + 1], users[terms[i] := us]))
         == InsertAll(InsertAll(actions, AllSynth(db, cfg, now, terms[..i], users)), TermSynth(db, cfg, now, terms[i], us))
  {
    var t, p := terms[i], terms[..i + 1];
    AllSynthFrame(db, cfg, now, terms[..i], users, t, us);
    assert p[..|p| - 1] == terms[..i] && p[|p| - 1] == t;
    assert UsersOf(users[t := us], t) == us;
    assert AllSynth(db, cfg, now, p, users[t := us]) == AllSynth(db, cfg, now, terms[..i], users) + TermSynth(db, cfg, now, t, us);
    InsertAllAppend(actions, AllSynth(db, cfg, now, terms[..i], users), TermSynth(db, cfg, now, t, us));
  }

  /** One pass of the term loop: backfills `terms[i]` and records its modifier order. */
  method BackfillNext(store: Store, cfg: Config, now: real, terms: seq<string>, i: nat, current: map<Pair, int>, ghost db: Db,
                      users: map<string, seq<UserId>>)
    returns (next: map<string, seq<UserId>>)
    requires DecayEnabled(cfg) && Tallies(current, db.actions)
    requires i < |terms| && terms[i] !in terms[..i] && terms[i] !in db.modifiedSets
    requires store.Snap() == db.(actions := store.actions)
    requires store.actions == InsertAll(db.actions, AllSynth(db, cfg, now, terms[..i], users))
    modifies store
    ensures terms[i] in next && next == users[terms[i] := next[terms[i]]]
    ensures Enumerates(next[terms[i]], Mods(db.modified, terms[i]).Keys)
    ensures store.Snap() == db.(actions := store.actions)
    ensures store.actions == InsertAll(db.actions, AllSynth(db, cfg, now, terms[..i + 1], next))
  {
    var t := terms[i];
    ghost var prev := store.actions;
    var us := BackfillTerm(store, cfg, now, t, current, db);
    TermsStep(db.actions, db, cfg, now, terms, users, i, us);
    assert store.actions == InsertAll(prev, TermSynth(db, cfg, now, t, us));
    next := users[t := us];
  }

  lemma PrefixNext(s: seq<string>, i: nat)
    requires i < |s|
    ensures forall x :: x in s[..i + 1] <==> x in s[..i] || x == s[i]
  {
    assert s[..i + 1] == s[..i] + [s[i]];
  }

  /** The term loop, in the order `terms`; returns each term's modifier order. */
  method BackfillTerms(store: Store, cfg: Config, now: real, terms: seq<string>, current: map<Pair, int>, ghost db: Db)
    returns (users: map<string, seq<UserId>>)
    requires DecayEnabled(cfg) && Tallies(current, db.actions)
    requires forall i, j | 0 <= i < j < |terms| :: terms[i] != terms[j]
    requires forall t | t in terms :: t !in db.modifiedSets
    requires store.Snap() == db
    modifies store
    ensures forall t :: t in users <==> t in terms
    ensures forall t | t in users :: Enumerates(users[t], Mods(db.modified, t).Keys)
    ensures store.Snap() == db.(actions := InsertAll(db.actions, AllSynth(db, cfg, now, terms, users)))
  {
    users := map[];
    assert terms[..0] == [];
    for i := 0 to |terms|
      invariant forall t :: t in users <==> t in terms[..i]
      invariant forall t | t in users :: Enumerates(users[t], Mods(db.modified, t).Keys)
      invariant store.Snap() == db.(actions := store.actions)
      invariant store.actions == InsertAll(db.actions, AllSynth(db, cfg, now, terms[..i], users))
    {
      PrefixNext(terms, i);
      assert terms[i] !in terms[..i];
      users := BackfillNext(store, cfg, now, terms, i, current, db, users);
    }
    assert terms[..|terms|] == terms;
  }

  /**
   * `decay`: when it runs, tallies the existing actions, then visits every
   * scored term. Returns the term order and each term's modifier order, which
   * decide where equal timestamps fall in the log.
   */
  method Backfill(store: Store, cfg: Config, now: real) returns (terms: seq<string>, users: map<string, seq<UserId>>)
    requires Runs(store.Snap(), cfg) ==> ScoredTermsCounted(store.Snap())
    modifies store
    ensures Runs(old(store.Snap()), cfg) ==> Enumerates(terms, old(store.terms).Keys)
    ensures forall t :: t in users <==> t in terms
    ensures forall t | t in users :: Enumerates(users[t], Mods(old(store.modified), t).Keys)
    ensures store.Snap() == BackfillDb(old(store.Snap()), cfg, now, terms, users)
  {
    terms, users := [], map[];
    if !DecayEnabled(cfg) || DecaySentinel in store.sentinels {
      return;
    }
    var current := TallyActions(store.actions);
    terms := Enumerate(store.terms.Keys);
    users := BackfillTerms(store, cfg, now, terms, current, store.Snap());
    store.sentinels := store.sentinels + {DecaySentinel};
  }
}
