/**
 * `Upgrade::ReverseLinks` (upgrade/reverse_links.rb): a one-shot migration
 * that builds the `linked_to:` index from the `links:` sets of data written
 * before the index existed.
 */
module ReverseLinksUpgrade {
  import opened KarmaStore

  const LinksPrefix := "links:"

  /** The Redis key of a term's links. */
  function LinksKey(t: string): string {
    LinksPrefix + t
  }

  /** `key.sub(/^links:/, "")`: the key without a leading `links:`. */
  function TermOfKey(key: string): string {
    if |key| >= |LinksPrefix| && key[..|LinksPrefix|] == LinksPrefix then key[|LinksPrefix|..] else key
  }

  /** Stripping the prefix recovers the term from its key. */
  lemma TermOfLinksKey(t: string)
    ensures TermOfKey(LinksKey(t)) == t
  {
    assert LinksKey(t)[..|LinksPrefix|] == LinksPrefix;
    assert LinksKey(t)[|LinksPrefix|..] == t;
  }

  /** The terms among `from` that link to `k`. */
  function Linkers(links: map<string, set<string>>, from: set<string>, k: string): set<string> {
    set a | a in from && a in links && k in links[a]
  }

  /** `sadd("linked_to:<link>", t)` for every `link` in `members`. */
  function AddTo(linkedTo: map<string, set<string>>, members: set<string>, t: string): (r: map<string, set<string>>)
    ensures r.Keys == linkedTo.Keys + members
    ensures forall k :: Members(r, k) == Members(linkedTo, k) + (if k in members then {t} else {})
  {
    map k | k in linkedTo.Keys + members :: Members(linkedTo, k) + (if k in members then {t} else {})
  }

  /** The terms some term among `from` links to. */
  function Targets(links: map<string, set<string>>, from: set<string>): (r: set<string>)
    ensures forall k :: k in r <==> Linkers(links, from, k) != {}
  {
    var r := set a, b | a in from && a in links && b in links[a] :: b;
    assert forall k | Linkers(links, from, k) != {} :: k in r by {
      forall k | Linkers(links, from, k) != {} ensures k in r {
        var a :| a in Linkers(links, from, k);
      }
    }
    assert forall k | k in r :: Linkers(links, from, k) != {} by {
      forall k | k in r ensures Linkers(links, from, k) != {} {
        var a, b :| a in from && a in links && b in links[a] && b == k;
        assert a in Linkers(links, from, k);
      }
    }
    r
  }

  /** The reverse index after visiting the links of the terms in `from`: every visited link is added, nothing removed. */
  function Reversed(links: map<string, set<string>>, linkedTo: map<string, set<string>>, from: set<string>): (r: map<string, set<string>>)
    ensures r.Keys == linkedTo.Keys + Targets(links, from)
    ensures forall k :: Members(r, k) == Members(linkedTo, k) + Linkers(links, from, k)
  {
    map k | k in linkedTo.Keys + Targets(links, from) :: Members(linkedTo, k) + Linkers(links, from, k)
  }

  /** The migration: a no-op once the sentinel exists; otherwise every link is indexed and the sentinel set. */
  function ReverseLinksDb(db: Db): Db {
    if ReverseLinksSentinel in db.sentinels then db
    else db.(linkedTo := Reversed(db.links, db.linkedTo, db.links.Keys), sentinels := db.sentinels + {ReverseLinksSentinel})
  }

  // ---------------------------------------------------------------------------
  // Properties

  /** Afterwards every link `a -> b` has `a` in `linked_to:b`; links are untouched and no reverse entry is lost. */
  lemma ReverseLinksCovers(db: Db)
    requires ReverseLinksSentinel !in db.sentinels
    ensures var d := ReverseLinksDb(db);
      && ForwardCovered(d.links, d.linkedTo)
      && d.links == db.links
      && (forall k :: Members(db.linkedTo, k) <= Members(d.linkedTo, k))
      && ReverseLinksSentinel in d.sentinels
  {
    var d := ReverseLinksDb(db);
    forall a, b | b in Members(d.links, a) ensures a in Members(d.linkedTo, b) {
      assert a in Linkers(db.links, db.links.Keys, b);
    }
  }

  /** A reverse index with no stale entries becomes exactly the inverse of the links. */
  lemma ReverseLinksSymmetric(db: Db)
    requires ReverseLinksSentinel !in db.sentinels && ReverseCovered(db.links, db.linkedTo)
    ensures Symmetric(ReverseLinksDb(db).links, ReverseLinksDb(db).linkedTo)
  {
    ReverseLinksCovers(db);
  }

  /** The migration runs once: a second run, guarded by the sentinel, changes nothing. */
  lemma ReverseLinksOnce(db: Db)
    ensures ReverseLinksDb(ReverseLinksDb(db)) == ReverseLinksDb(db)
  {
  }

  /** Rebuilding the index over links already indexed adds nothing. */
  lemma ReversedIdempotent(links: map<string, set<string>>, linkedTo: map<string, set<string>>)
    ensures Reversed(links, Reversed(links, linkedTo, links.Keys), links.Keys) == Reversed(links, linkedTo, links.Keys)
  {
    var r := Reversed(links, linkedTo, links.Keys);
    var rr := Reversed(links, r, links.Keys);
    assert rr.Keys == r.Keys;
    forall k | k in rr ensures rr[k] == r[k] {
      assert Members(rr, k) == Members(r, k);
    }
  }

  /** Visiting one more term adds its links. */
  lemma ReversedStep(links: map<string, set<string>>, linkedTo: map<string, set<string>>, done: set<string>, t: string)
    requires t in links
    ensures Reversed(links, linkedTo, done + {t}) == AddTo(Reversed(links, linkedTo, done), links[t], t)
  {
    ReversedStepKeys(links, linkedTo, done, t);
    ReversedStepMembers(links, linkedTo, done, t);
    SameMembers(Reversed(links, linkedTo, done + {t}), AddTo(Reversed(links, linkedTo, done), links[t], t));
  }

  lemma ReversedStepKeys(links: map<string, set<string>>, linkedTo: map<string, set<string>>, done: set<string>, t: string)
    requires t in links
    ensures Reversed(links, linkedTo, done + {t}).Keys == AddTo(Reversed(links, linkedTo, done), links[t], t).Keys
  {
    TargetsStep(links, done, t);
  }

  lemma ReversedStepMembers(links: map<string, set<string>>, linkedTo: map<string, set<string>>, done: set<string>, t: string)
    requires t in links
    ensures forall k :: Members(Reversed(links, linkedTo, done + {t}), k) == Members(AddTo(Reversed(links, linkedTo, done), links[t], t), k)
  {
    forall k ensures Members(Reversed(links, linkedTo, done + {t}), k) == Members(AddTo(Reversed(links, linkedTo, done), links[t], t), k) {
      LinkersStep(links, done, t, k);
    }
  }

  lemma TargetsStep(links: map<string, set<string>>, done: set<string>, t: string)
    requires t in links
    ensures Targets(links, done + {t}) == Targets(links, done) + links[t]
  {
    forall k ensures k in Targets(links, done + {t}) <==> k in Targets(links, done) + links[t] {
      LinkersStep(links, done, t, k);
    }
  }

  lemma LinkersStep(links: map<string, set<string>>, done: set<string>, t: string, k: string)
    requires t in links
    ensures Linkers(links, done + {t}, k) == Linkers(links, done, k) + (if k in links[t] then {t} else {})
  {
  }

  /** Before anything is visited the index is as it was. */
  lemma NothingVisited(links: map<string, set<string>>, linkedTo: map<string, set<string>>, t: string)
    ensures AddTo(linkedTo, {}, t) == linkedTo
    ensures Reversed(links, linkedTo, {}) == linkedTo
  {
    assert Targets(links, {}) == {};
    SameMembers(AddTo(linkedTo, {}, t), linkedTo);
    SameMembers(Reversed(links, linkedTo, {}), linkedTo);
  }

  // ---------------------------------------------------------------------------
  // The migration

  /** The inner loop: `sadd("linked_to:<link>", t)` for each member of `links:t`. */
  method IndexLinksOf(store: Store, t: string, members: set<string>)
    modifies store
    ensures store.Snap() == old(store.Snap()).(linkedTo := AddTo(old(store.linkedTo), members, t))
  {
    var rest := members;
    ghost var done: set<string> := {};
    while rest != {}
      invariant rest + done == members && rest !! done
      invariant store.Snap() == old(store.Snap()).(linkedTo := store.linkedTo)
      invariant store.linkedTo.Keys == old(store.linkedTo).Keys + done
      invariant forall k :: Members(store.linkedTo, k) == Members(old(store.linkedTo), k) + (if k in done then {t} else {})
      decreases rest
    {
      var link :| link in rest;
      store.linkedTo := SAdd(store.linkedTo, link, t);
      rest, done := rest - {link}, done + {link};
    }
    SameMembers(store.linkedTo, AddTo(old(store.linkedTo), members, t));
  }

  /** The `links:*` keys still to visit are those of the terms not visited yet. */
  ghost predicate Pending(keys: set<string>, links: map<string, set<string>>, done: set<string>) {
    && done <= links.Keys
    && (forall key | key in keys :: TermOfKey(key) in links && TermOfKey(key) !in done && key == LinksKey(TermOfKey(key)))
    && (forall t | t in links && t !in done :: LinksKey(t) in keys)
  }

  lemma PendingStart(links: map<string, set<string>>)
    ensures Pending(set t | t in links :: LinksKey(t), links, {})
  {
    forall t ensures TermOfKey(LinksKey(t)) == t {
      TermOfLinksKey(t);
    }
  }

  lemma PendingStep(keys: set<string>, links: map<string, set<string>>, done: set<string>, key: string)
    requires Pending(keys, links, done) && key in keys
    ensures TermOfKey(key) in links
    ensures Pending(keys - {key}, links, done + {TermOfKey(key)})
  {
  }

  lemma PendingEnd(links: map<string, set<string>>, done: set<string>)
    requires Pending({}, links, done)
    ensures done == links.Keys
  {
  }

  /** `reverse_links`: the outer loop visits every `links:*` key. */
  method ReverseLinks(store: Store)
    modifies store
    ensures store.Snap() == ReverseLinksDb(old(store.Snap()))
  {
    if ReverseLinksSentinel in store.sentinels {
      return;
    }
    var keys := set t | t in store.links :: LinksKey(t);
    ghost var done: set<string> := {};
    PendingStart(store.links);
    NothingVisited(store.links, store.linkedTo, "");
    while keys != {}
      invariant Pending(keys, store.links, done)
      invariant store.Snap() == old(store.Snap()).(linkedTo := store.linkedTo)
      invariant store.linkedTo == Reversed(store.links, old(store.linkedTo), done)
      decreases keys
    {
      var key :| key in keys;
      var t := TermOfKey(key);
      PendingStep(keys, store.links, done, key);
      ReversedStep(store.links, old(store.linkedTo), done, t);
      IndexLinksOf(store, t, store.links[t]);
      keys, done := keys - {key}, done + {t};
    }
    PendingEnd(store.links, done);
    store.sentinels := store.sentinels + {ReverseLinksSentinel};
  }
}
