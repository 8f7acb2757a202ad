/**
 * The Redis keyspace the handlers share, as one mutable object (`Store`) and
 * its abstract value (`Db`):
 *
 *   terms               ranked set   term -> score
 *   modified:<term>     ranked set   user id -> number of contributions
 *                       (or, in data older than the counted form, a plain set of user ids)
 *   modified_flat:<term>             leftover key that the counts upgrade deletes
 *   links:<term>        set          the terms this term aggregates
 *   linked_to:<term>    set          the terms that link to this term
 *   cooldown:<user>:<term>           expiring marker, modelled by its remaining TTL
 *   actions             ranked set   actions ranked by timestamp
 *   support:*           sentinels of the one-shot upgrades
 *
 * Each key family is a field (a map from the term, or from (user, term) for
 * cooldowns). Reading an absent key gives Redis' empty value: score 0, the
 * empty set, TTL -2.
 */
module KarmaStore {
  import opened Base
  import opened Actions
  import opened ActionLog

  /** The counted form of `modified:<term>`. */
  type Counts = map<UserId, int>

  datatype Db = Db(
    terms: map<string, int>,
    modified: map<string, Counts>,
    modifiedSets: map<string, set<UserId>>,
    modifiedFlat: set<string>,
    links: map<string, set<string>>,
    linkedTo: map<string, set<string>>,
    cooldown: map<(UserId, string), int>,
    actions: seq<Action>,
    sentinels: set<string>)

  /** An error Redis raises, which ends the command that met it. */
  datatype RedisError =
    | WrongType          // a command for one key type met a key of the other
    | InvalidExpireTime  // `setex` with an expiry that is not positive

  const EmptyDb: Db := Db(map[], map[], map[], {}, map[], map[], map[], [], {})

  /** A Redis key has one type, so a term's `modified:` key is counted or plain, never both; the log is ranked. */
  predicate WellFormed(db: Db) {
    db.modified.Keys !! db.modifiedSets.Keys && Sorted(db.actions)
  }

  const ReverseLinksSentinel := "support:reverse_links"
  const ModifiedCountsSentinel := "support:modified_counts"
  const DecaySentinel := "support:decay"

  // ---------------------------------------------------------------------------
  // Reads and single-command updates

  /** `zscore("terms", t).to_i`: an absent term scores 0. */
  function Score(terms: map<string, int>, t: string): int {
    if t in terms then terms[t] else 0
  }

  /** `smembers(key)`: an absent set is empty. */
  function Members(m: map<string, set<string>>, k: string): set<string> {
    if k in m then m[k] else {}
  }

  /** `zrange("modified:<t>", ...)` as a map: an absent key has no modifiers. */
  function Mods(modified: map<string, Counts>, t: string): Counts {
    if t in modified then modified[t] else map[]
  }

  /** `zscore("modified:<t>", u).to_i`. */
  function Count(modified: map<string, Counts>, t: string, u: UserId): int {
    if u in Mods(modified, t) then Mods(modified, t)[u] else 0
  }

  /** `ttl("cooldown:<user>:<t>")`: -2 when there is no marker. */
  function Ttl(cooldown: map<(UserId, string), int>, user: UserId, t: string): int {
    if (user, t) in cooldown then cooldown[(user, t)] else -2
  }

  /** `zincrby("terms", d, t)`: an absent term starts from 0. */
  function ZIncrBy(terms: map<string, int>, t: string, d: int): (r: map<string, int>)
    ensures r.Keys == terms.Keys + {t}
    ensures forall x :: Score(r, x) == Score(terms, x) + (if x == t then d else 0)
  {
    terms[t := Score(terms, t) + d]
  }

  /** `zincrby("modified:<t>", d, u)`. */
  function ZIncrByCount(modified: map<string, Counts>, t: string, u: UserId, d: int): (r: map<string, Counts>)
    ensures r.Keys == modified.Keys + {t}
    ensures forall x, v :: Count(r, x, v) == Count(modified, x, v) + (if x == t && v == u then d else 0)
    ensures forall x, v :: v in Mods(r, x) <==> v in Mods(modified, x) || (x == t && v == u)
  {
    modified[t := Mods(modified, t)[u := Count(modified, t, u) + d]]
  }

  /** `sadd(k, x)`. */
  function SAdd(m: map<string, set<string>>, k: string, x: string): (r: map<string, set<string>>)
    ensures forall j :: Members(r, j) == Members(m, j) + (if j == k then {x} else {})
  {
    m[k := Members(m, k) + {x}]
  }

  /** `setex("cooldown:<user>:<t>", secs, 1)`: Redis refuses an expiry that is not positive. */
  function SetEx(cooldown: map<(UserId, string), int>, user: UserId, t: string, secs: int): (r: Option<map<(UserId, string), int>>)
    ensures r.Some? <==> secs > 0
    ensures r.Some? ==> Ttl(r.value, user, t) == secs
    ensures r.Some? ==> forall u, x | (u, x) != (user, t) :: Ttl(r.value, u, x) == Ttl(cooldown, u, x)
  {
    if secs <= 0 then None else Some(cooldown[(user, t) := secs])
  }

  /** Two set-valued keyspaces with the same keys and the same members are equal. */
  lemma SameMembers(a: map<string, set<string>>, b: map<string, set<string>>)
    requires a.Keys == b.Keys
    requires forall k :: Members(a, k) == Members(b, k)
    ensures a == b
  {
    forall k | k in a ensures a[k] == b[k] {
      assert Members(a, k) == Members(b, k);
    }
  }

  /** `srem(k, x)`; removing from an absent set changes nothing. */
  function SRem(m: map<string, set<string>>, k: string, x: string): (r: map<string, set<string>>)
    ensures forall j :: Members(r, j) == Members(m, j) - (if j == k then {x} else {})
  {
    if k in m then m[k := m[k] - {x}] else m
  }

  /** A listing of a set (`smembers`, or the members of a ranked set) names each member exactly once, in an order Redis chooses. */
  ghost predicate Enumerates(q: seq<string>, s: set<string>) {
    && (forall i, j | 0 <= i < j < |q| :: q[i] != q[j])
    && (forall u :: u in q <==> u in s)
  }

  /** Lists the members of `s` in some order. */
  method Enumerate(s: set<string>) returns (q: seq<string>)
    ensures Enumerates(q, s)
  {
    q := [];
    var rest := s;
    while rest != {}
      invariant rest <= s
      invariant Enumerates(q, s - rest)
      decreases rest
    {
      var u :| u in rest;
      q := q + [u];
      rest := rest - {u};
    }
  }

  // ---------------------------------------------------------------------------
  // The link graph and its reverse index

  /** Every forward link `a -> b` (`b` in `links:a`) is recorded in the reverse index (`a` in `linked_to:b`). */
  ghost predicate ForwardCovered(links: map<string, set<string>>, linkedTo: map<string, set<string>>) {
    forall a, b :: b in Members(links, a) ==> a in Members(linkedTo, b)
  }

  /** Every reverse entry has its forward link. */
  ghost predicate ReverseCovered(links: map<string, set<string>>, linkedTo: map<string, set<string>>) {
    forall a, b :: a in Members(linkedTo, b) ==> b in Members(links, a)
  }

  /** `linked_to` is exactly the inverse of `links`. */
  ghost predicate Symmetric(links: map<string, set<string>>, linkedTo: map<string, set<string>>) {
    ForwardCovered(links, linkedTo) && ReverseCovered(links, linkedTo)
  }

  // ---------------------------------------------------------------------------
  // Total score

  /** The sum of the own scores of a set of terms. */
  ghost function SumScores(terms: map<string, int>, s: set<string>): int
    decreases s
  {
    if s == {} then 0
    else
      var l :| l in s;
      Score(terms, l) + SumScores(terms, s - {l})
  }

  /** The sum does not depend on which member is taken first. */
  lemma {:induction false} SumScoresRemove(terms: map<string, int>, s: set<string>, l: string)
    requires l in s
    ensures SumScores(terms, s) == Score(terms, l) + SumScores(terms, s - {l})
    decreases s
  {
    var x :| x in s && SumScores(terms, s) == Score(terms, x) + SumScores(terms, s - {x});
    if x != l {
      SumScoresRemove(terms, s - {x}, l);
      SumScoresRemove(terms, s - {l}, x);
      assert s - {x} - {l} == s - {l} - {x};
    }
  }

  /** `total_score`: the own score plus the own score of every linked term. */
  ghost function TotalScore(db: Db, t: string): int {
    Score(db.terms, t) + SumScores(db.terms, Members(db.links, t))
  }

  /** A term with no links has its own score as its total. */
  lemma TotalWithoutLinks(db: Db, t: string)
    requires Members(db.links, t) == {}
    ensures TotalScore(db, t) == Score(db.terms, t)
  {
  }

  /** Linking `a -> b` anew adds `b`'s own score to `a`'s total and leaves every other total unchanged. */
  lemma {:induction false} TotalAfterLink(db: Db, a: string, b: string, x: string)
    requires b !in Members(db.links, a)
    ensures var db' := db.(links := SAdd(db.links, a, b));
      TotalScore(db', x) == TotalScore(db, x) + (if x == a then Score(db.terms, b) else 0)
  {
    var db' := db.(links := SAdd(db.links, a, b));
    if x == a {
      SumScoresRemove(db.terms, Members(db'.links, a), b);
      assert Members(db'.links, a) - {b} == Members(db.links, a);
    } else {
      assert Members(db'.links, x) == Members(db.links, x);
    }
  }

  // ---------------------------------------------------------------------------
  // The store object

  class Store {
    var terms: map<string, int>
    var modified: map<string, Counts>
    var modifiedSets: map<string, set<UserId>>
    var modifiedFlat: set<string>
    var links: map<string, set<string>>
    var linkedTo: map<string, set<string>>
    var cooldown: map<(UserId, string), int>
    var actions: seq<Action>
    var sentinels: set<string>

    /** The abstract value of the keyspace. */
    function Snap(): Db
      reads this
    {
      Db(terms, modified, modifiedSets, modifiedFlat, links, linkedTo, cooldown, actions, sentinels)
    }

    ghost predicate Valid()
      reads this
    {
      WellFormed(Snap())
    }

    /** Sets every key family at once (a freshly loaded keyspace). */
    method Load(db: Db)
      modifies this
      ensures Snap() == db
    {
      terms, modified, modifiedSets, modifiedFlat := db.terms, db.modified, db.modifiedSets, db.modifiedFlat;
      links, linkedTo, cooldown, actions, sentinels := db.links, db.linkedTo, db.cooldown, db.actions, db.sentinels;
    }

    constructor ()
      ensures Snap() == EmptyDb && Valid()
    {
      terms, modified, modifiedSets, modifiedFlat := map[], map[], map[], {};
      links, linkedTo, cooldown, actions, sentinels := map[], map[], map[], [], {};
    }
  }

  /** What a score check reports: the total, the own score and each linked term's own score. */
  datatype Report = Report(total: int, own: int, links: map<string, int>)

  /** `rep` reports term `t` of keyspace `db`. */
  ghost predicate Describes(db: Db, t: string, rep: Report) {
    && rep.own == Score(db.terms, t)
    && rep.total == TotalScore(db, t)
    && rep.links.Keys == Members(db.links, t)
    && forall l | l in rep.links :: rep.links[l] == Score(db.terms, l)
  }

  /**
   * Reads `links:<t>` and the score of every member: the sum of the linked
   * scores and each linked term with its score.
   */
  method LinkedScores(store: Store, t: string) returns (sum: int, linked: map<string, int>)
    ensures sum == SumScores(store.terms, Members(store.links, t))
    ensures linked == map l | l in Members(store.links, t) :: Score(store.terms, l)
  {
    var rest := Members(store.links, t);
    ghost var done: set<string> := {};
    sum, linked := 0, map[];
    while rest != {}
      invariant rest + done == Members(store.links, t) && rest !! done
      invariant sum == SumScores(store.terms, done)
      invariant linked == map l | l in done :: Score(store.terms, l)
      decreases rest
    {
      var l :| l in rest;
      sum := sum + Score(store.terms, l);
      linked := linked[l := Score(store.terms, l)];
      SumScoresRemove(store.terms, done + {l}, l);
      assert done + {l} - {l} == done;
      rest, done := rest - {l}, done + {l};
    }
  }

  /** Reads the scores of a term and of its links: the total adds every linked term's own score to the term's. */
  method ReportFor(store: Store, t: string) returns (rep: Report)
    ensures Describes(store.Snap(), t, rep)
  {
    var own := Score(store.terms, t);
    var sum, linked := LinkedScores(store, t);
    rep := Report(own + sum, own, linked);
  }
}
