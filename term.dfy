/**
 * `Lita::Handlers::Karma::Term` (term.rb): one term of the karma store, with
 * reads of its score and links and the updates made through it. Unlike the
 * chat handler it records no action and runs no decay, and it marks the
 * modifier in the plain-set form of `modified:<term>`.
 */
module Terms {
  import opened Base
  import opened Config
  import opened KarmaStore
  import opened TermOps
  import opened Ranking

  datatype LinkReply = ThresholdNotMet(threshold: nat) | Linked(added: bool)

  datatype ModifyReply = CoolingDown(ttl: int) | Failed(failure: RedisError) | Reported(report: Report)

  function Abs(x: int): nat {
    if x < 0 then -x else x
  }

  // ---------------------------------------------------------------------------
  // Specification

  /** The stop index of `.list`: at most 24. */
  function ListStop(n: int): int {
    if n > 24 then 24 else n
  }

  /** `link`: refused while either own score is below the threshold in magnitude; the reply is whether both adds were new. */
  function LinkSpec(db: Db, cfg: Config, a: string, b: string): (Db, LinkReply) {
    if cfg.linkThreshold.Some? && (Abs(Score(db.terms, a)) < Abs(cfg.linkThreshold.value) || Abs(Score(db.terms, b)) < Abs(cfg.linkThreshold.value)) then
      (db, ThresholdNotMet(Abs(cfg.linkThreshold.value)))
    else
      (LinkDb(db, a, b), Linked(b !in Members(db.links, a) && a !in Members(db.linkedTo, b)))
  }

  /** `unlink`: the reply is whether both removals found something. */
  function UnlinkSpec(db: Db, a: string, b: string): (Db, bool) {
    (UnlinkDb(db, a, b), b in Members(db.links, a) && a in Members(db.linkedTo, b))
  }

  /** `modify!`: the score changes, the user joins the plain modifier set, the cooldown is armed; a Redis error stops it. */
  function ModifyBangDb(db: Db, cfg: Config, t: string, user: UserId, delta: int): (Db, Option<RedisError>) {
    var scored := db.(terms := ZIncrBy(db.terms, t, delta));
    if t in db.modified then (scored, Some(WrongType))
    else
      var marked := scored.(modifiedSets := SAdd(db.modifiedSets, t, user));
      if cfg.cooldown.None? then (marked, None)
      else
        var armed := SetEx(db.cooldown, user, t, cfg.cooldown.value);
        if armed.None? then (marked, Some(InvalidExpireTime)) else (marked.(cooldown := armed.value), None)
  }

  /** `modify` is gated on a positive cooldown TTL. */
  predicate InCooldown(db: Db, user: UserId, t: string) {
    Ttl(db.cooldown, user, t) > 0
  }

  /** The raw link names resolve in the link cache: each is the normalised form of some link name. */
  predicate LinksResolve(cfg: Config, links: set<string>) {
    links <= set m | m in links :: cfg.normalizer(m)
  }

  // ---------------------------------------------------------------------------
  // Properties

  /** With a threshold, a link is refused, changing nothing, exactly when either score is too small in magnitude. */
  lemma LinkThreshold(db: Db, cfg: Config, a: string, b: string)
    ensures var (d, reply) := LinkSpec(db, cfg, a, b);
      && (reply.ThresholdNotMet? <==>
            cfg.linkThreshold.Some? && (Abs(Score(db.terms, a)) < Abs(cfg.linkThreshold.value) || Abs(Score(db.terms, b)) < Abs(cfg.linkThreshold.value)))
      && (reply.ThresholdNotMet? ==> d == db && reply.threshold == Abs(cfg.linkThreshold.value))
  {
  }

  /** An accepted link adds it in both directions and keeps the index symmetric; an existing link changes nothing and replies false. */
  lemma LinkAccepted(db: Db, cfg: Config, a: string, b: string)
    requires LinkSpec(db, cfg, a, b).1.Linked?
    ensures var (d, reply) := LinkSpec(db, cfg, a, b);
      && b in Members(d.links, a)
      && (ForwardCovered(db.links, db.linkedTo) ==> a in Members(d.linkedTo, b))
      && (b in Members(db.links, a) ==> d == db && !reply.added)
      && (Symmetric(db.links, db.linkedTo) ==> Symmetric(d.links, d.linkedTo) && (reply.added <==> b !in Members(db.links, a)))
  {
    LinkEffect(db, a, b);
    if Symmetric(db.links, db.linkedTo) {
      LinkPreservesSymmetric(db, a, b);
    }
  }

  /** Unlinking replies true exactly when the link existed in both directions, and keeps the index symmetric. */
  lemma UnlinkReply(db: Db, a: string, b: string)
    ensures var (d, removed) := UnlinkSpec(db, a, b);
      && b !in Members(d.links, a)
      && (b !in Members(db.links, a) ==> d == db && !removed)
      && (Symmetric(db.links, db.linkedTo) ==> Symmetric(d.links, d.linkedTo) && (removed <==> b in Members(db.links, a)) && a !in Members(d.linkedTo, b))
  {
    UnlinkEffect(db, a, b);
    if Symmetric(db.links, db.linkedTo) {
      UnlinkPreservesSymmetric(db, a, b);
    }
  }

  /**
   * `modify!` adds `delta` to the term's score and to no other; it fails on a
   * counted modifier key or a non-positive cooldown; otherwise the user is in
   * the term's modifier set. It records no action and touches no link.
   */
  lemma ModifyBangEffect(db: Db, cfg: Config, t: string, user: UserId, delta: int)
    ensures var (d, failure) := ModifyBangDb(db, cfg, t, user, delta);
      && (forall x :: Score(d.terms, x) == Score(db.terms, x) + (if x == t then delta else 0))
      && (failure == Some(WrongType) <==> t in db.modified)
      && (failure == Some(InvalidExpireTime) <==> t !in db.modified && cfg.cooldown.Some? && cfg.cooldown.value <= 0)
      && (failure.None? ==> user in Members(d.modifiedSets, t))
      && (forall u, x | (u, x) != (user, t) :: Ttl(d.cooldown, u, x) == Ttl(db.cooldown, u, x))
      && d.modified == db.modified && d.actions == db.actions && d.links == db.links && d.linkedTo == db.linkedTo
  {
  }

  /** `modify!` keeps the keyspace well formed: it adds to a plain set only when no counted set has the term's key. */
  lemma ModifyBangWellFormed(db: Db, cfg: Config, t: string, user: UserId, delta: int)
    requires WellFormed(db)
    ensures WellFormed(ModifyBangDb(db, cfg, t, user, delta).0)
  {
  }

  /** Right after a successful `modify!` with a cooldown configured, the same user is cooling down on that term. */
  lemma ModifyBangArmsCooldown(db: Db, cfg: Config, t: string, user: UserId, delta: int)
    requires cfg.cooldown.Some? && ModifyBangDb(db, cfg, t, user, delta).1.None?
    ensures InCooldown(ModifyBangDb(db, cfg, t, user, delta).0, user, t)
    ensures Ttl(ModifyBangDb(db, cfg, t, user, delta).0.cooldown, user, t) == cfg.cooldown.value
  {
  }

  /** When every link name is already normalised, the link names resolve. */
  lemma NormalisedLinksResolve(cfg: Config, links: set<string>)
    requires forall l | l in links :: cfg.normalizer(l) == l
    ensures LinksResolve(cfg, links)
  {
    forall l | l in links ensures l in set m | m in links :: cfg.normalizer(m) {
      assert cfg.normalizer(l) == l;
    }
  }

  /** The `.list` stop gives `n + 1` entries (at most 25), or all there are. */
  lemma ListLength(len: nat, n: int)
    requires n >= 0
    ensures RangeCount(len, ListStop(n)) == if n + 1 <= 25 && n + 1 <= len then n + 1 else if len <= 25 then len else 25
  {
    RangeCountFromStart(len, ListStop(n));
  }

  // ---------------------------------------------------------------------------
  // The object

  class Term {
    const store: Store
    const cfg: Config
    const term: string

    /** Names the term, normalised unless asked not to. */
    constructor (store: Store, cfg: Config, name: string, normalize: bool := true)
      ensures this.store == store && this.cfg == cfg
      ensures term == if normalize then cfg.normalizer(name) else name
    {
      this.store := store;
      this.cfg := cfg;
      term := if normalize then cfg.normalizer(name) else name;
    }

    /** Terms are equal when their names are. */
    predicate Eql(other: Term) {
      term == other.term
    }

    /** The hash is the name's hash. */
    function Hash(hashString: string -> int): int {
      hashString(term)
    }

    /** Equal terms hash alike, and equality is an equivalence. */
    lemma EqlHash(other: Term, third: Term, hashString: string -> int)
      ensures Eql(this) && (Eql(other) <==> other.Eql(this))
      ensures Eql(other) && other.Eql(third) ==> Eql(third)
      ensures Eql(other) ==> Hash(hashString) == other.Hash(hashString)
    {
    }

    /** `own_score`: the stored score, 0 for an absent term. */
    function OwnScore(): (s: int)
      reads store
      ensures term in store.terms ==> s == store.terms[term]
      ensures term !in store.terms ==> s == 0
    {
      Score(store.terms, term)
    }

    /** `links`: the members of `links:<term>`. */
    function Links(): (ls: set<string>)
      reads store
      ensures forall l :: l in ls <==> term in store.links && l in store.links[term]
    {
      Members(store.links, term)
    }

    /**
     * `check`: `total_score` (own plus every linked term's own score),
     * `own_score` and `links_with_scores`.
     */
    method Check() returns (rep: Report)
      requires LinksResolve(cfg, Links())
      ensures rep.own == OwnScore()
      ensures rep.total == OwnScore() + SumScores(store.terms, Links())
      ensures rep.links.Keys == Links() && forall l | l in rep.links :: rep.links[l] == Score(store.terms, l)
    {
      rep := ReportFor(store, term);
    }

    /** `.list_best` / `.list_worst`: ranks `0..min(n, 24)` of the terms, best or worst first. */
    static method List(store: Store, n: int, best: bool) returns (r: seq<(string, int)>)
      ensures |r| == RangeCount(|store.terms|, ListStop(n))
      ensures forall i | 0 <= i < |r| :: r[i].0 in store.terms && store.terms[r[i].0] == r[i].1
      ensures forall i, j | 0 <= i < j < |r| :: r[i].0 != r[j].0 && RanksBefore(best, r[i].1, r[j].1)
      ensures forall t, i | t in store.terms && t !in Names(r) && 0 <= i < |r| :: RanksBefore(best, r[i].1, store.terms[t])
    {
      r := TopRanked(store.terms, RangeCount(|store.terms|, ListStop(n)), best);
    }

    /** `link(other)`. */
    method Link(other: Term) returns (reply: LinkReply)
      requires other.store == store
      modifies store
      ensures (store.Snap(), reply) == LinkSpec(old(store.Snap()), cfg, term, other.term)
    {
      if cfg.linkThreshold.Some? {
        var threshold := Abs(cfg.linkThreshold.value);
        if Abs(OwnScore()) < threshold || Abs(other.OwnScore()) < threshold {
          return ThresholdNotMet(threshold);
        }
      }
      // `sadd` answers whether the member was new; adding a present member changes nothing.
      if other.term in Members(store.links, term) {
        return Linked(false);
      }
      store.links := SAdd(store.links, term, other.term);
      var second := term !in Members(store.linkedTo, other.term);
      store.linkedTo := SAdd(store.linkedTo, other.term, term);
      reply := Linked(second);
    }

    /** `unlink(other)`. */
    method Unlink(other: Term) returns (removed: bool)
      modifies store
      ensures (store.Snap(), removed) == UnlinkSpec(old(store.Snap()), term, other.term)
    {
      // `srem` answers whether the member was there; removing an absent member changes nothing.
      if other.term !in Members(store.links, term) {
        return false;
      }
      store.links := SRem(store.links, term, other.term);
      var second := term in Members(store.linkedTo, other.term);
      store.linkedTo := SRem(store.linkedTo, other.term, term);
      removed := second;
    }

    /** `delete`. */
    method Delete()
      modifies store
      ensures store.Snap() == DeleteDb(old(store.Snap()), term)
    {
      store.terms := store.terms - {term};
      store.modified, store.modifiedSets := store.modified - {term}, store.modifiedSets - {term};
      store.links := store.links - {term};
      RemoveFromLinksOf(store, Members(store.linkedTo, term), term);
      store.linkedTo := store.linkedTo - {term};
    }

    /** `modify!`, then the check. */
    method ModifyBang(user: UserId, delta: int) returns (reply: ModifyReply)
      requires ModifyBangDb(store.Snap(), cfg, term, user, delta).1.None? ==> LinksResolve(cfg, Links())
      modifies store
      ensures store.Snap() == ModifyBangDb(old(store.Snap()), cfg, term, user, delta).0
      ensures var failure := ModifyBangDb(old(store.Snap()), cfg, term, user, delta).1;
        if failure.Some? then reply == Failed(failure.value)
        else reply.Reported? && Describes(store.Snap(), term, reply.report)
    {
      store.terms := ZIncrBy(store.terms, term, delta);
      if term in store.modified {
        return Failed(WrongType);
      }
      store.modifiedSets := SAdd(store.modifiedSets, term, user);
      if cfg.cooldown.Some? {
        var armed := SetEx(store.cooldown, user, term, cfg.cooldown.value);
        if armed.None? {
          return Failed(InvalidExpireTime);
        }
        store.cooldown := armed.value;
      }
      var rep := Check();
      reply := Reported(rep);
    }

    /** `modify`: nothing changes while the cooldown TTL is positive. */
    method Modify(user: UserId, delta: int) returns (reply: ModifyReply)
      requires !InCooldown(store.Snap(), user, term) && ModifyBangDb(store.Snap(), cfg, term, user, delta).1.None? ==> LinksResolve(cfg, Links())
      modifies store
      ensures InCooldown(old(store.Snap()), user, term) ==>
        store.Snap() == old(store.Snap()) && reply == CoolingDown(Ttl(old(store.cooldown), user, term))
      ensures !InCooldown(old(store.Snap()), user, term) ==>
        store.Snap() == ModifyBangDb(old(store.Snap()), cfg, term, user, delta).0 && !reply.CoolingDown?
      ensures !InCooldown(old(store.Snap()), user, term) ==>
        var failure := ModifyBangDb(old(store.Snap()), cfg, term, user, delta).1;
        if failure.Some? then reply == Failed(failure.value)
        else reply.Reported? && Describes(store.Snap(), term, reply.report)
    {
      var ttl := Ttl(store.cooldown, user, term);
      if ttl > 0 {
        return CoolingDown(ttl);
      }
      reply := ModifyBang(user, delta);
    }

    /** `increment`. */
    method Increment(user: UserId) returns (reply: ModifyReply)
      requires !InCooldown(store.Snap(), user, term) && ModifyBangDb(store.Snap(), cfg, term, user, 1).1.None? ==> LinksResolve(cfg, Links())
      modifies store
      ensures InCooldown(old(store.Snap()), user, term) ==>
        store.Snap() == old(store.Snap()) && reply == CoolingDown(Ttl(old(store.cooldown), user, term))
      ensures !InCooldown(old(store.Snap()), user, term) ==>
        store.Snap() == ModifyBangDb(old(store.Snap()), cfg, term, user, 1).0 && !reply.CoolingDown?
      ensures !InCooldown(old(store.Snap()), user, term) ==>
        var failure := ModifyBangDb(old(store.Snap()), cfg, term, user, 1).1;
        if failure.Some? then reply == Failed(failure.value)
        else reply.Reported? && Describes(store.Snap(), term, reply.report)
      ensures !InCooldown(old(store.Snap()), user, term) ==>
        forall x :: Score(store.terms, x) == Score(old(store.terms), x) + (if x == term then 1 else 0)
    {
      reply := Modify(user, 1);
      ModifyBangEffect(old(store.Snap()), cfg, term, user, 1);
    }

    /** `decrement`. */
    method Decrement(user: UserId) returns (reply: ModifyReply)
      requires !InCooldown(store.Snap(), user, term) && ModifyBangDb(store.Snap(), cfg, term, user, -1).1.None? ==> LinksResolve(cfg, Links())
      modifies store
      ensures InCooldown(old(store.Snap()), user, term) ==>
        store.Snap() == old(store.Snap()) && reply == CoolingDown(Ttl(old(store.cooldown), user, term))
      ensures !InCooldown(old(store.Snap()), user, term) ==>
        store.Snap() == ModifyBangDb(old(store.Snap()), cfg, term, user, -1).0 && !reply.CoolingDown?
      ensures !InCooldown(old(store.Snap()), user, term) ==>
        var failure := ModifyBangDb(old(store.Snap()), cfg, term, user, -1).1;
        if failure.Some? then reply == Failed(failure.value)
        else reply.Reported? && Describes(store.Snap(), term, reply.report)
      ensures !InCooldown(old(store.Snap()), user, term) ==>
        forall x :: Score(store.terms, x) == Score(old(store.terms), x) - (if x == term then 1 else 0)
    {
      reply := Modify(user, -1);
      ModifyBangEffect(old(store.Snap()), cfg, term, user, -1);
    }
  }
}
