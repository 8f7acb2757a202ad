/**
 * `Lita::Handlers::Karma::Chat` (chat.rb): the chat commands that change and
 * read karma. Each command handles every match of its pattern in turn; a
 * match's term is normalised first (except for `delete`, which uses the
 * name verbatim). Changes count each user's contributions in the counted
 * form of `modified:<term>`, arm a cooldown, and log an action when decay is
 * on; reads first run a decay pass.
 */
module Chats {
  import opened Base
  import opened Actions
  import opened ActionLog
  import opened Config
  import opened KarmaStore
  import opened Decay
  import opened TermOps
  import opened Ranking
  import Terms

  /** Why `modify` stopped before the check. */
  datatype Stop = Cooling(term: string, ttl: int) | Failed(term: string, error: RedisError)

  datatype ModifyReply = Stopped(stop: Stop) | Reported(reports: seq<(string, Report)>)

  datatype LinkReply = LinkSuccess | AlreadyLinked | ThresholdNotSatisfied(threshold: nat)

  function Abs(x: int): nat {
    if x < 0 then -x else x
  }

  // ---------------------------------------------------------------------------
  // Specification

  /** What every chat command keeps: a well-formed keyspace whose log avoids legacy modifier sets. */
  predicate Ready(db: Db) {
    WellFormed(db) && LogAvoidsPlainSets(db)
  }

  /** The cutoff of `process_decay`: the clock minus the interval, both as floats. */
  function Cutoff(cfg: Config, now: real): real {
    now - cfg.decayInterval as real
  }

  /** `process_decay`: one decay pass when decay is enabled. */
  function Decayed(db: Db, cfg: Config, now: real): Db {
    if DecayEnabled(cfg) then DecayDb(db, Cutoff(cfg, now)) else db
  }

  /** `cooling_down?`: any TTL that is not negative, i.e. any cooldown key that exists. */
  predicate CoolingDown(db: Db, user: UserId, t: string) {
    Ttl(db.cooldown, user, t) >= 0
  }

  /** `add_action`: logs the action only when decay is enabled. */
  function Recorded(actions: seq<Action>, cfg: Config, t: string, userId: Option<UserId>, delta: int, now: real): seq<Action> {
    if DecayEnabled(cfg) then Insert(actions, New(t, userId, now, delta)) else actions
  }

  /**
   * One match of `modify` that is not cooling down: `zincrby` on the score and
   * on the user's count, `set_cooldown`, `add_action`; a Redis error ends it.
   */
  function ModifyStep(db: Db, cfg: Config, t: string, user: UserId, delta: int, now: real): (Db, Option<RedisError>) {
    var scored := db.(terms := ZIncrBy(db.terms, t, delta));
    if t in db.modifiedSets then (scored, Some(WrongType))
    else
      var counted := scored.(modified := ZIncrByCount(db.modified, t, user, 1));
      var armed := if cfg.cooldown.Some? then SetEx(db.cooldown, user, t, cfg.cooldown.value) else Some(db.cooldown);
      if armed.None? then (counted, Some(InvalidExpireTime))
      else (counted.(cooldown := armed.value, actions := Recorded(db.actions, cfg, t, Some(user), delta, now)), None)
  }

  /** The match loop of `modify`: the first term cooling down, or the first error, ends the command. */
  function ModifyAll(db: Db, cfg: Config, matches: seq<string>, user: UserId, delta: int, now: real): (Db, Option<Stop>)
    decreases |matches|
  {
    if matches == [] then (db, None)
    else
      var t := cfg.normalizer(matches[0]);
      if CoolingDown(db, user, t) then (db, Some(Cooling(t, Ttl(db.cooldown, user, t))))
      else
        var (d, err) := ModifyStep(db, cfg, t, user, delta, now);
        if err.Some? then (d, Some(Failed(t, err.value)))
        else ModifyAll(d, cfg, matches[1..], user, delta, now)
  }

  /** One match of `link`, with the terms already normalised. */
  function LinkOne(db: Db, cfg: Config, now: real, t1: string, t2: string): (Db, LinkReply) {
    if cfg.linkThreshold.Some? then
      var threshold := Abs(cfg.linkThreshold.value);
      var d := Decayed(db, cfg, now);
      if Abs(Score(d.terms, t1)) < threshold || Abs(Score(d.terms, t2)) < threshold then (d, ThresholdNotSatisfied(threshold))
      else if t2 in Members(d.links, t1) then (d, AlreadyLinked)
      else (LinkDb(d, t1, t2), LinkSuccess)
    else if t2 in Members(db.links, t1) then (db, AlreadyLinked)
    else (LinkDb(db, t1, t2), LinkSuccess)
  }

  /** The match loop of `link`: a refusal by the threshold ends the command. */
  function LinkAll(db: Db, cfg: Config, now: real, matches: seq<(string, string)>): (Db, seq<LinkReply>)
    decreases |matches|
  {
    if matches == [] then (db, [])
    else
      var (d, reply) := LinkOne(db, cfg, now, cfg.normalizer(matches[0].0), cfg.normalizer(matches[0].1));
      if reply.ThresholdNotSatisfied? then (d, [reply])
      else
        var (d', replies) := LinkAll(d, cfg, now, matches[1..]);
        (d', [reply] + replies)
  }

  /** The match loop of `unlink`; each reply says whether the forward link existed. */
  function UnlinkAll(db: Db, cfg: Config, matches: seq<(string, string)>): (Db, seq<bool>)
    decreases |matches|
  {
    if matches == [] then (db, [])
    else
      var t1, t2 := cfg.normalizer(matches[0].0), cfg.normalizer(matches[0].1);
      var (d, replies) := UnlinkAll(UnlinkDb(db, t1, t2), cfg, matches[1..]);
      (d, [t2 in Members(db.links, t1)] + replies)
  }

  /** `reports` answer the matches in order, each for the normalised term in `db`. */
  ghost predicate ReportsFor(db: Db, cfg: Config, matches: seq<string>, reports: seq<(string, Report)>) {
    && |reports| == |matches|
    && forall i | 0 <= i < |matches| :: reports[i].0 == cfg.normalizer(matches[i]) && Describes(db, reports[i].0, reports[i].1)
  }

  /** The stop index of `list`: the argument (5 when absent) minus one, at most 25. */
  function ListStop(arg: Option<int>): int {
    var n := arg.GetOr(5) - 1;
    if n > 25 then 25 else n
  }

  // ---------------------------------------------------------------------------
  // Decay as the chat commands run it

  /** A second pass at the same clock changes nothing. */
  lemma DecayedIdempotent(db: Db, cfg: Config, now: real)
    ensures Decayed(Decayed(db, cfg, now), cfg, now) == Decayed(db, cfg, now)
  {
    if DecayEnabled(cfg) {
      DecayIdempotent(db, Cutoff(cfg, now));
    }
  }

  /** A pass keeps the keyspace ready and touches no link. */
  lemma DecayedReady(db: Db, cfg: Config, now: real)
    requires Ready(db)
    ensures Ready(Decayed(db, cfg, now))
    ensures Decayed(db, cfg, now).links == db.links && Decayed(db, cfg, now).linkedTo == db.linkedTo
  {
    if DecayEnabled(cfg) {
      DecayKeepsLogAvoidingPlainSets(db, Cutoff(cfg, now));
      DecayWellFormed(db, Cutoff(cfg, now));
    }
  }

  /** The chat command treats a TTL of 0 as cooling down; `Term#modify` does not. */
  lemma CooldownGates(db: Db, user: UserId, t: string)
    ensures CoolingDown(db, user, t) <==> Terms.InCooldown(db, user, t) || Ttl(db.cooldown, user, t) == 0
  {
  }

  // ---------------------------------------------------------------------------
  // Modify

  /**
   * One match adds `delta` to the term's score and to no other score; it
   * fails on a legacy plain modifier set or a non-positive cooldown; on success it arms the user's cooldown for the
   * term, leaves every other cooldown alone and logs exactly one new action
   * when decay is enabled.
   */
  lemma ModifyStepEffect(db: Db, cfg: Config, t: string, user: UserId, delta: int, now: real)
    ensures var (d, err) := ModifyStep(db, cfg, t, user, delta, now);
      && (forall x :: Score(d.terms, x) == Score(db.terms, x) + (if x == t then delta else 0))
      && (err == Some(WrongType) <==> t in db.modifiedSets)
      && (err == Some(InvalidExpireTime) <==> t !in db.modifiedSets && cfg.cooldown.Some? && cfg.cooldown.value <= 0)
      && (err.None? && cfg.cooldown.Some? ==> Ttl(d.cooldown, user, t) == cfg.cooldown.value && CoolingDown(d, user, t))
      && (forall u, x | (u, x) != (user, t) :: Ttl(d.cooldown, u, x) == Ttl(db.cooldown, u, x))
      && (err.None? && DecayEnabled(cfg) ==> multiset(d.actions) == multiset(db.actions) + multiset{Action(t, Some(user), delta, now)})
      && (!(err.None? && DecayEnabled(cfg)) ==> d.actions == db.actions)
      && d.links == db.links && d.linkedTo == db.linkedTo
  {
  }

  /** A successful match adds 1 to the user's count for the term and to no other count. */
  lemma ModifyStepCounts(db: Db, cfg: Config, t: string, user: UserId, delta: int, now: real)
    requires ModifyStep(db, cfg, t, user, delta, now).1.None?
    ensures forall x, u :: Count(ModifyStep(db, cfg, t, user, delta, now).0.modified, x, u)
                        == Count(db.modified, x, u) + (if x == t && u == user then 1 else 0)
  {
  }

  /** One match keeps the keyspace ready. */
  lemma ModifyStepReady(db: Db, cfg: Config, t: string, user: UserId, delta: int, now: real)
    requires Ready(db)
    ensures Ready(ModifyStep(db, cfg, t, user, delta, now).0)
  {
    var (d, err) := ModifyStep(db, cfg, t, user, delta, now);
    if err.None? && DecayEnabled(cfg) {
      InsertSorted(db.actions, New(t, Some(user), now, delta));
      forall a | a in d.actions ensures a.term !in d.modifiedSets {
        assert a in multiset(d.actions);
      }
    }
  }

  /** With decay on, a successful match keeps scores and counts equal to what the log accounts for. */
  lemma ModifyStepKeepsLogMatch(db: Db, cfg: Config, t: string, user: UserId, delta: int, now: real)
    requires DecayEnabled(cfg) && ModifyStep(db, cfg, t, user, delta, now).1.None?
    requires ScoresMatchLog(db) && CountsMatchLog(db)
    ensures ScoresMatchLog(ModifyStep(db, cfg, t, user, delta, now).0)
    ensures CountsMatchLog(ModifyStep(db, cfg, t, user, delta, now).0)
  {
    var d := ModifyStep(db, cfg, t, user, delta, now).0;
    var a := New(t, Some(user), now, delta);
    assert d.actions == Insert(db.actions, a);
    ModifyStepKeepsScoresMatch(db, cfg, t, user, delta, now, d, a);
    ModifyStepCounts(db, cfg, t, user, delta, now);
    forall x, u ensures Count(d.modified, x, u) == Sum(d.actions, ActionsBy(x, Some(u))) {
      SumInsert(db.actions, a, ActionsBy(x, Some(u)));
    }
  }

  lemma ModifyStepKeepsScoresMatch(db: Db, cfg: Config, t: string, user: UserId, delta: int, now: real, d: Db, a: Action)
    requires d == ModifyStep(db, cfg, t, user, delta, now).0 && a == New(t, Some(user), now, delta)
    requires d.actions == Insert(db.actions, a) && ScoresMatchLog(db)
    ensures ScoresMatchLog(d)
  {
    forall x ensures Score(d.terms, x) == Sum(d.actions, DeltaOf(x)) {
      ModifyStepScore(db, cfg, t, user, delta, now, x);
      SumInsert(db.actions, a, DeltaOf(x));
    }
  }

  /** The whole command keeps the keyspace ready, whether it finishes or stops. */
  lemma {:induction false} ModifyAllReady(db: Db, cfg: Config, matches: seq<string>, user: UserId, delta: int, now: real)
    requires Ready(db)
    ensures Ready(ModifyAll(db, cfg, matches, user, delta, now).0)
    decreases |matches|
  {
    if matches != [] {
      var t := cfg.normalizer(matches[0]);
      if !CoolingDown(db, user, t) {
        ModifyStepReady(db, cfg, t, user, delta, now);
        var (d, err) := ModifyStep(db, cfg, t, user, delta, now);
        if err.None? {
          ModifyAllReady(d, cfg, matches[1..], user, delta, now);
        }
      }
    }
  }

  /** A command that runs to the end keeps scores and counts equal to what the log accounts for. */
  lemma {:induction false} ModifyAllKeepsLogMatch(db: Db, cfg: Config, matches: seq<string>, user: UserId, delta: int, now: real)
    requires DecayEnabled(cfg) && ScoresMatchLog(db) && CountsMatchLog(db)
    requires ModifyAll(db, cfg, matches, user, delta, now).1.None?
    ensures ScoresMatchLog(ModifyAll(db, cfg, matches, user, delta, now).0)
    ensures CountsMatchLog(ModifyAll(db, cfg, matches, user, delta, now).0)
    decreases |matches|
  {
    if matches != [] {
      var t := cfg.normalizer(matches[0]);
      var (d, err) := ModifyStep(db, cfg, t, user, delta, now);
      ModifyStepKeepsLogMatch(db, cfg, t, user, delta, now);
      ModifyAllKeepsLogMatch(d, cfg, matches[1..], user, delta, now);
    }
  }

  /** The normalised terms of the matches. */
  function Named(cfg: Config, matches: seq<string>): set<string> {
    set i | 0 <= i < |matches| :: cfg.normalizer(matches[i])
  }

  lemma NamedCons(cfg: Config, matches: seq<string>)
    requires matches != []
    ensures Named(cfg, matches) == {cfg.normalizer(matches[0])} + Named(cfg, matches[1..])
  {
    forall x | x in Named(cfg, matches) ensures x in {cfg.normalizer(matches[0])} + Named(cfg, matches[1..]) {
      var i :| 0 <= i < |matches| && cfg.normalizer(matches[i]) == x;
      if i > 0 {
        assert matches[1..][i - 1] == matches[i];
      }
    }
    forall x | x in Named(cfg, matches[1..]) ensures x in Named(cfg, matches) {
      var i :| 0 <= i < |matches[1..]| && cfg.normalizer(matches[1..][i]) == x;
      assert matches[1..][i] == matches[i + 1];
    }
  }

  /** A match changes only its own term's score. */
  lemma ModifyStepScore(db: Db, cfg: Config, t: string, user: UserId, delta: int, now: real, x: string)
    ensures Score(ModifyStep(db, cfg, t, user, delta, now).0.terms, x) == Score(db.terms, x) + (if x == t then delta else 0)
  {
  }

  /** A match arms no cooldown but the user's own for its term. */
  lemma ModifyStepTtl(db: Db, cfg: Config, t: string, user: UserId, delta: int, now: real, u: UserId, x: string)
    requires (u, x) != (user, t)
    ensures Ttl(ModifyStep(db, cfg, t, user, delta, now).0.cooldown, u, x) == Ttl(db.cooldown, u, x)
  {
  }

  /** The score of a term that no match names never changes. */
  lemma {:induction false} ModifyAllOnlyNamed(db: Db, cfg: Config, matches: seq<string>, user: UserId, delta: int, now: real, x: string)
    requires x !in Named(cfg, matches)
    ensures Score(ModifyAll(db, cfg, matches, user, delta, now).0.terms, x) == Score(db.terms, x)
    decreases |matches|
  {
    if matches != [] {
      var t := cfg.normalizer(matches[0]);
      NamedCons(cfg, matches);
      if !CoolingDown(db, user, t) {
        ModifyStepScore(db, cfg, t, user, delta, now, x);
        var (d, err) := ModifyStep(db, cfg, t, user, delta, now);
        if err.None? {
          ModifyAllOnlyNamed(d, cfg, matches[1..], user, delta, now, x);
        }
      }
    }
  }

  /** Another user's cooldowns never change. */
  lemma {:induction false} ModifyAllOthersCooldowns(db: Db, cfg: Config, matches: seq<string>, user: UserId, delta: int, now: real, u: UserId, x: string)
    requires u != user
    ensures Ttl(ModifyAll(db, cfg, matches, user, delta, now).0.cooldown, u, x) == Ttl(db.cooldown, u, x)
    decreases |matches|
  {
    if matches != [] {
      var t := cfg.normalizer(matches[0]);
      if !CoolingDown(db, user, t) {
        ModifyStepTtl(db, cfg, t, user, delta, now, u, x);
        var (d, err) := ModifyStep(db, cfg, t, user, delta, now);
        if err.None? {
          ModifyAllOthersCooldowns(d, cfg, matches[1..], user, delta, now, u, x);
        }
      }
    }
  }

  /** A cooldown at its configured TTL stays armed through the command (later matches only re-arm). */
  lemma {:induction false} ModifyAllKeepsArmed(db: Db, cfg: Config, matches: seq<string>, user: UserId, delta: int, now: real, t: string)
    requires cfg.cooldown.Some? && Ttl(db.cooldown, user, t) == cfg.cooldown.value
    ensures Ttl(ModifyAll(db, cfg, matches, user, delta, now).0.cooldown, user, t) == cfg.cooldown.value
    decreases |matches|
  {
    if matches != [] {
      var t0 := cfg.normalizer(matches[0]);
      if !CoolingDown(db, user, t0) {
        ModifyStepEffect(db, cfg, t0, user, delta, now);
        var (d, err) := ModifyStep(db, cfg, t0, user, delta, now);
        if err.None? {
          ModifyAllKeepsArmed(d, cfg, matches[1..], user, delta, now, t);
        }
      }
    }
  }

  /**
   * With a cooldown configured, repeating a command that ran to the end stops
   * at its first term, cooling down at the configured TTL, and changes nothing.
   */
  lemma RepeatedModifyCoolsDown(db: Db, cfg: Config, matches: seq<string>, user: UserId, delta: int, now: real)
    requires cfg.cooldown.Some? && matches != [] && ModifyAll(db, cfg, matches, user, delta, now).1.None?
    ensures var d := ModifyAll(db, cfg, matches, user, delta, now).0;
      ModifyAll(d, cfg, matches, user, delta, now) == (d, Some(Cooling(cfg.normalizer(matches[0]), cfg.cooldown.value)))
  {
    var t := cfg.normalizer(matches[0]);
    ModifyStepEffect(db, cfg, t, user, delta, now);
    var d1 := ModifyStep(db, cfg, t, user, delta, now).0;
    ModifyAllKeepsArmed(d1, cfg, matches[1..], user, delta, now, t);
  }

  // ---------------------------------------------------------------------------
  // Link and unlink

  /**
   * With a threshold, a match is refused exactly when either decayed own score
   * is below it in magnitude, and then no link changes; otherwise an existing
   * link is reported and kept, and a new one is added in both directions.
   */
  lemma LinkOneEffect(db: Db, cfg: Config, now: real, t1: string, t2: string)
    ensures var (d, reply) := LinkOne(db, cfg, now, t1, t2);
      var e := if cfg.linkThreshold.Some? then Decayed(db, cfg, now) else db;
      && (reply.ThresholdNotSatisfied? <==>
            cfg.linkThreshold.Some? && (Abs(Score(e.terms, t1)) < Abs(cfg.linkThreshold.value) || Abs(Score(e.terms, t2)) < Abs(cfg.linkThreshold.value)))
      && (reply.ThresholdNotSatisfied? ==> d == e && reply.threshold == Abs(cfg.linkThreshold.value))
      && (reply == AlreadyLinked <==> !reply.ThresholdNotSatisfied? && t2 in Members(db.links, t1))
      && (reply != LinkSuccess ==> d.links == db.links && d.linkedTo == db.linkedTo)
      && (reply == LinkSuccess ==> d == LinkDb(e, t1, t2) && t2 in Members(d.links, t1) && t1 in Members(d.linkedTo, t2))
  {
    var e := if cfg.linkThreshold.Some? then Decayed(db, cfg, now) else db;
    if DecayEnabled(cfg) {
      DecayKeepsOtherKeys(db, Cutoff(cfg, now));
    }
    assert e.links == db.links && e.linkedTo == db.linkedTo;
  }

  /** One match keeps the keyspace ready. */
  lemma LinkOneReady(db: Db, cfg: Config, now: real, t1: string, t2: string)
    requires Ready(db)
    ensures Ready(LinkOne(db, cfg, now, t1, t2).0)
  {
    DecayedReady(db, cfg, now);
    var e := if cfg.linkThreshold.Some? then Decayed(db, cfg, now) else db;
    LinkDbReady(e, t1, t2);
  }

  lemma LinkDbReady(db: Db, t1: string, t2: string)
    requires Ready(db)
    ensures Ready(LinkDb(db, t1, t2))
  {
    var d := LinkDb(db, t1, t2);
    assert d.modified == db.modified && d.modifiedSets == db.modifiedSets && d.actions == db.actions;
  }

  /** Every link command keeps the reverse index exactly inverse to the links, and keeps the keyspace ready. */
  lemma {:induction false} LinkAllSymmetric(db: Db, cfg: Config, now: real, matches: seq<(string, string)>)
    requires Ready(db)
    ensures Ready(LinkAll(db, cfg, now, matches).0)
    ensures Symmetric(db.links, db.linkedTo) ==> Symmetric(LinkAll(db, cfg, now, matches).0.links, LinkAll(db, cfg, now, matches).0.linkedTo)
    decreases |matches|
  {
    if matches != [] {
      var t1, t2 := cfg.normalizer(matches[0].0), cfg.normalizer(matches[0].1);
      DecayedReady(db, cfg, now);
      LinkOneReady(db, cfg, now, t1, t2);
      var e := if cfg.linkThreshold.Some? then Decayed(db, cfg, now) else db;
      if Symmetric(db.links, db.linkedTo) {
        LinkPreservesSymmetric(e, t1, t2);
      }
      var (d, reply) := LinkOne(db, cfg, now, t1, t2);
      if !reply.ThresholdNotSatisfied? {
        LinkAllSymmetric(d, cfg, now, matches[1..]);
      }
    }
  }

  /** One reply per match handled; only a threshold refusal, always the last reply, ends the command early. */
  lemma {:induction false} LinkAllReplies(db: Db, cfg: Config, now: real, matches: seq<(string, string)>)
    ensures var replies := LinkAll(db, cfg, now, matches).1;
      && |replies| <= |matches|
      && (forall i | 0 <= i < |replies| - 1 :: !replies[i].ThresholdNotSatisfied?)
      && (|replies| < |matches| ==> replies != [] && replies[|replies| - 1].ThresholdNotSatisfied?)
    decreases |matches|
  {
    if matches != [] {
      var (d, reply) := LinkOne(db, cfg, now, cfg.normalizer(matches[0].0), cfg.normalizer(matches[0].1));
      if !reply.ThresholdNotSatisfied? {
        LinkAllReplies(d, cfg, now, matches[1..]);
        var rest := LinkAll(d, cfg, now, matches[1..]).1;
        assert LinkAll(db, cfg, now, matches).1 == [reply] + rest;
      }
    }
  }

  /** Every unlink command keeps the reverse index exactly inverse to the links, and answers every match. */
  lemma {:induction false} UnlinkAllSymmetric(db: Db, cfg: Config, matches: seq<(string, string)>)
    ensures |UnlinkAll(db, cfg, matches).1| == |matches|
    ensures Ready(db) ==> Ready(UnlinkAll(db, cfg, matches).0)
    ensures Symmetric(db.links, db.linkedTo) ==> Symmetric(UnlinkAll(db, cfg, matches).0.links, UnlinkAll(db, cfg, matches).0.linkedTo)
    decreases |matches|
  {
    if matches != [] {
      var t1, t2 := cfg.normalizer(matches[0].0), cfg.normalizer(matches[0].1);
      if Symmetric(db.links, db.linkedTo) {
        UnlinkPreservesSymmetric(db, t1, t2);
      }
      UnlinkAllSymmetric(UnlinkDb(db, t1, t2), cfg, matches[1..]);
    }
  }

  // ---------------------------------------------------------------------------
  // Delete and list

  /** Deleting keeps the keyspace ready. */
  lemma DeleteReady(db: Db, t: string)
    requires Ready(db)
    ensures Ready(DeleteDb(db, t))
  {
  }

  /**
   * `list` with argument `a` (5 when absent) lists `min(a, 26)` terms when
   * `a >= 1` (or all there are), all terms when `a == 0`, and all but the last
   * `-a` when `a < 0`.
   */
  lemma ListLength(len: nat, arg: Option<int>)
    ensures var a := arg.GetOr(5);
      && (a >= 1 ==> RangeCount(len, ListStop(arg)) == if a <= 26 && a <= len then a else if len <= 26 then len else 26)
      && (a == 0 ==> RangeCount(len, ListStop(arg)) == len)
      && (a < 0 ==> RangeCount(len, ListStop(arg)) == if len + a >= 0 then len + a else 0)
  {
    if arg.GetOr(5) >= 1 {
      RangeCountFromStart(len, ListStop(arg));
    } else {
      RangeCountFromEnd(len, ListStop(arg));
    }
  }

  // ---------------------------------------------------------------------------
  // The handler

  class Chat {
    const store: Store
    const cfg: Config

    constructor (store: Store, cfg: Config)
      ensures this.store == store && this.cfg == cfg
    {
      this.store := store;
      this.cfg := cfg;
    }

    /** `normalize_term`: the configured normaliser. */
    function NormalizeTerm(term: string): string {
      cfg.normalizer(term)
    }

    /** `process_decay`. */
    method ProcessDecay(now: real)
      requires Ready(store.Snap())
      modifies store
      ensures Ready(store.Snap())
      ensures store.Snap() == Decayed(old(store.Snap()), cfg, now)
    {
      if !DecayEnabled(cfg) {
        return;
      }
      DecayKeepsLogAvoidingPlainSets(store.Snap(), Cutoff(cfg, now));
      ExpireUpTo(store, Cutoff(cfg, now));
      DecayKeepsLogAvoidingPlainSets(old(store.Snap()), Cutoff(cfg, now));
    }

    /** `scores_for`: a decay pass, then the term's total, own score and linked scores. */
    method ScoresFor(t: string, now: real) returns (rep: Report)
      requires Ready(store.Snap())
      modifies store
      ensures Ready(store.Snap())
      ensures store.Snap() == Decayed(old(store.Snap()), cfg, now)
      ensures Describes(store.Snap(), t, rep)
    {
      ProcessDecay(now);
      rep := ReportFor(store, t);
    }

    /** `check`: a decay pass, then a report for each match's term. */
    method Check(matches: seq<string>, now: real) returns (reports: seq<(string, Report)>)
      requires Ready(store.Snap())
      modifies store
      ensures Ready(store.Snap())
      ensures store.Snap() == Decayed(old(store.Snap()), cfg, now)
      ensures ReportsFor(store.Snap(), cfg, matches, reports)
    {
      ProcessDecay(now);
      ghost var decayed := store.Snap();
      DecayedIdempotent(old(store.Snap()), cfg, now);
      reports := [];
      for i := 0 to |matches|
        invariant store.Snap() == decayed && Ready(decayed)
        invariant |reports| == i
        invariant forall j | 0 <= j < i :: reports[j].0 == cfg.normalizer(matches[j]) && Describes(decayed, reports[j].0, reports[j].1)
      {
        var t := NormalizeTerm(matches[i]);
        var rep := ScoresFor(t, now);
        reports := reports + [(t, rep)];
      }
    }

    /** `set_cooldown`: arms the cooldown when one is configured. */
    method SetCooldown(t: string, user: UserId) returns (err: Option<RedisError>)
      modifies store
      ensures cfg.cooldown.None? ==> err.None? && store.Snap() == old(store.Snap())
      ensures cfg.cooldown.Some? ==> var armed := SetEx(old(store.cooldown), user, t, cfg.cooldown.value);
        if armed.None? then err == Some(InvalidExpireTime) && store.Snap() == old(store.Snap())
        else err.None? && store.Snap() == old(store.Snap()).(cooldown := armed.value)
    {
      err := None;
      if cfg.cooldown.Some? {
        var armed := SetEx(store.cooldown, user, t, cfg.cooldown.value);
        if armed.None? {
          return Some(InvalidExpireTime);
        }
        store.cooldown := armed.value;
      }
    }

    /** `add_action`. */
    method AddAction(t: string, userId: Option<UserId>, delta: int, now: real)
      modifies store
      ensures store.Snap() == old(store.Snap()).(actions := Recorded(old(store.actions), cfg, t, userId, delta, now))
    {
      if !DecayEnabled(cfg) {
        return;
      }
      store.actions := Insert(store.actions, New(t, userId, now, delta));
    }

    /** The body of `modify` for one match that is not cooling down. */
    method ModifyMatch(t: string, user: UserId, delta: int, now: real) returns (err: Option<RedisError>)
      modifies store
      ensures (store.Snap(), err) == ModifyStep(old(store.Snap()), cfg, t, user, delta, now)
    {
      store.terms := ZIncrBy(store.terms, t, delta);
      if t in store.modifiedSets {
        return Some(WrongType);
      }
      store.modified := ZIncrByCount(store.modified, t, user, 1);
      err := SetCooldown(t, user);
      if err.Some? {
        return;
      }
      AddAction(t, Some(user), delta, now);
    }

    /** `modify`: every match in turn, then the check of all of them. */
    method Modify(matches: seq<string>, user: UserId, delta: int, now: real) returns (reply: ModifyReply)
      requires Ready(store.Snap())
      modifies store
      ensures Ready(store.Snap())
      ensures var (d, stop) := ModifyAll(old(store.Snap()), cfg, matches, user, delta, now);
        if stop.Some? then store.Snap() == d && reply == Stopped(stop.value)
        else store.Snap() == Decayed(d, cfg, now) && reply.Reported? && ReportsFor(store.Snap(), cfg, matches, reply.reports)
    {
      ghost var goal := ModifyAll(store.Snap(), cfg, matches, user, delta, now);
      var i := 0;
      while i < |matches|
        invariant 0 <= i <= |matches|
        invariant Ready(store.Snap())
        invariant ModifyAll(store.Snap(), cfg, matches[i..], user, delta, now) == goal
      {
        ghost var before := store.Snap();
        assert matches[i..][0] == matches[i] && matches[i..][1..] == matches[i + 1..];
        var t := NormalizeTerm(matches[i]);
        ModifyStepReady(before, cfg, t, user, delta, now);
        var ttl := Ttl(store.cooldown, user, t);
        if ttl >= 0 {
          return Stopped(Cooling(t, ttl));
        }
        var err := ModifyMatch(t, user, delta, now);
        if err.Some? {
          return Stopped(Failed(t, err.value));
        }
        i := i + 1;
      }
      var reports := Check(matches, now);
      reply := Reported(reports);
    }

    /** `increment`. */
    method Increment(matches: seq<string>, user: UserId, now: real) returns (reply: ModifyReply)
      requires Ready(store.Snap())
      modifies store
      ensures Ready(store.Snap())
      ensures var (d, stop) := ModifyAll(old(store.Snap()), cfg, matches, user, 1, now);
        if stop.Some? then store.Snap() == d && reply == Stopped(stop.value)
        else store.Snap() == Decayed(d, cfg, now) && reply.Reported? && ReportsFor(store.Snap(), cfg, matches, reply.reports)
    {
      reply := Modify(matches, user, 1, now);
    }

    /** `decrement`. */
    method Decrement(matches: seq<string>, user: UserId, now: real) returns (reply: ModifyReply)
      requires Ready(store.Snap())
      modifies store
      ensures Ready(store.Snap())
      ensures var (d, stop) := ModifyAll(old(store.Snap()), cfg, matches, user, -1, now);
        if stop.Some? then store.Snap() == d && reply == Stopped(stop.value)
        else store.Snap() == Decayed(d, cfg, now) && reply.Reported? && ReportsFor(store.Snap(), cfg, matches, reply.reports)
    {
      reply := Modify(matches, user, -1, now);
    }

    /** The body of `link` for one match. */
    method LinkMatch(t1: string, t2: string, now: real) returns (reply: LinkReply)
      requires Ready(store.Snap())
      modifies store
      ensures (store.Snap(), reply) == LinkOne(old(store.Snap()), cfg, now, t1, t2)
    {
      if cfg.linkThreshold.Some? {
        var threshold := Abs(cfg.linkThreshold.value);
        var scores2 := ScoresFor(t2, now);
        var scores1 := ScoresFor(t1, now);
        DecayedIdempotent(old(store.Snap()), cfg, now);
        if Abs(scores1.own) < threshold || Abs(scores2.own) < threshold {
          return ThresholdNotSatisfied(threshold);
        }
      }
      if t2 in Members(store.links, t1) {
        return AlreadyLinked;
      }
      store.links := SAdd(store.links, t1, t2);
      store.linkedTo := SAdd(store.linkedTo, t2, t1);
      reply := LinkSuccess;
    }

    /** `link`. */
    method Link(matches: seq<(string, string)>, now: real) returns (replies: seq<LinkReply>)
      requires Ready(store.Snap())
      modifies store
      ensures Ready(store.Snap())
      ensures (store.Snap(), replies) == LinkAll(old(store.Snap()), cfg, now, matches)
    {
      ghost var goal := LinkAll(store.Snap(), cfg, now, matches);
      replies := [];
      for i := 0 to |matches|
        invariant Ready(store.Snap())
        invariant LinkAll(store.Snap(), cfg, now, matches[i..]).0 == goal.0
        invariant replies + LinkAll(store.Snap(), cfg, now, matches[i..]).1 == goal.1
      {
        ghost var before := store.Snap();
        assert matches[i..][0] == matches[i] && matches[i..][1..] == matches[i + 1..];
        var t1, t2 := NormalizeTerm(matches[i].0), NormalizeTerm(matches[i].1);
        LinkOneReady(before, cfg, now, t1, t2);
        var reply := LinkMatch(t1, t2, now);
        ghost var rest := LinkAll(store.Snap(), cfg, now, matches[i + 1..]);
        assert LinkAll(before, cfg, now, matches[i..]) == if reply.ThresholdNotSatisfied? then (store.Snap(), [reply]) else (rest.0, [reply] + rest.1);
        replies := replies + [reply];
        if reply.ThresholdNotSatisfied? {
          return;
        }
      }
      assert matches[|matches|..] == [];
      assert LinkAll(store.Snap(), cfg, now, []) == (store.Snap(), []);
      assert store.Snap() == goal.0;
      assert replies == goal.1;
    }

    /** `unlink`. */
    method Unlink(matches: seq<(string, string)>) returns (replies: seq<bool>)
      requires Ready(store.Snap())
      modifies store
      ensures Ready(store.Snap())
      ensures (store.Snap(), replies) == UnlinkAll(old(store.Snap()), cfg, matches)
    {
      ghost var goal := UnlinkAll(store.Snap(), cfg, matches);
      replies := [];
      for i := 0 to |matches|
        invariant Ready(store.Snap())
        invariant UnlinkAll(store.Snap(), cfg, matches[i..]).0 == goal.0
        invariant replies + UnlinkAll(store.Snap(), cfg, matches[i..]).1 == goal.1
      {
        assert matches[i..][0] == matches[i] && matches[i..][1..] == matches[i + 1..];
        var t1, t2 := NormalizeTerm(matches[i].0), NormalizeTerm(matches[i].1);
        if t2 in Members(store.links, t1) {
          store.links := SRem(store.links, t1, t2);
          store.linkedTo := SRem(store.linkedTo, t2, t1);
          replies := replies + [true];
        } else {
          replies := replies + [false];
        }
      }
      assert matches[|matches|..] == [];
      assert UnlinkAll(store.Snap(), cfg, []) == (store.Snap(), []);
      assert store.Snap() == goal.0;
      assert replies == goal.1;
    }

    /** `delete`: the verbatim name, not normalised; the reply says whether it had a score. */
    method Delete(term: string) returns (existed: bool)
      requires Ready(store.Snap())
      modifies store
      ensures Ready(store.Snap())
      ensures store.Snap() == DeleteDb(old(store.Snap()), term)
      ensures existed <==> term in old(store.terms)
    {
      DeleteReady(store.Snap(), term);
      store.modified, store.modifiedSets := store.modified - {term}, store.modifiedSets - {term};
      store.links := store.links - {term};
      RemoveFromLinksOf(store, Members(store.linkedTo, term), term);
      store.linkedTo := store.linkedTo - {term};
      existed := term in store.terms;
      store.terms := store.terms - {term};
    }

    /**
     * `modified`: a decay pass, then every modifier of the normalised term with
     * its count, highest count first (`zrevrange ... with_scores`); an empty
     * result is the "never modified" reply. A legacy plain `modified:` set
     * makes `zrevrange` fail with WRONGTYPE.
     */
    method Modifiers(term: string, now: real) returns (err: Option<RedisError>, r: seq<(UserId, int)>)
      requires Ready(store.Snap())
      modifies store
      ensures Ready(store.Snap())
      ensures store.Snap() == Decayed(old(store.Snap()), cfg, now)
      ensures err.Some? <==> cfg.normalizer(term) in old(store.modifiedSets)
      ensures err.Some? ==> err.value == WrongType && r == []
      ensures err.None? ==> Names(r) == Mods(store.modified, cfg.normalizer(term)).Keys
      ensures forall i | 0 <= i < |r| :: Count(store.modified, cfg.normalizer(term), r[i].0) == r[i].1
      ensures forall i, j | 0 <= i < j < |r| :: r[i].0 != r[j].0 && r[i].1 >= r[j].1
    {
      var t := NormalizeTerm(term);
      ProcessDecay(now);
      if DecayEnabled(cfg) {
        DecayKeepsOtherKeys(old(store.Snap()), Cutoff(cfg, now));
      }
      if t in store.modifiedSets {
        return Some(WrongType), [];
      }
      var counts := Mods(store.modified, t);
      r := TopRanked(counts, |counts|, true);
      err := None;
    }

    /** `list_best` / `list_worst`: a decay pass, then ranks `0..ListStop(arg)` of the terms. */
    method List(arg: Option<int>, best: bool, now: real) returns (r: seq<(string, int)>)
      requires Ready(store.Snap())
      modifies store
      ensures Ready(store.Snap())
      ensures store.Snap() == Decayed(old(store.Snap()), cfg, now)
      ensures |r| == RangeCount(|store.terms|, ListStop(arg))
      ensures forall i | 0 <= i < |r| :: r[i].0 in store.terms && store.terms[r[i].0] == r[i].1
      ensures forall i, j | 0 <= i < j < |r| :: r[i].0 != r[j].0 && RanksBefore(best, r[i].1, r[j].1)
      ensures forall t, i | t in store.terms && t !in Names(r) && 0 <= i < |r| :: RanksBefore(best, r[i].1, store.terms[t])
    {
      ProcessDecay(now);
      r := TopRanked(store.terms, RangeCount(|store.terms|, ListStop(arg)), best);
    }
  }
}
