/**
 * The link, unlink and delete transitions that `Term` (term.rb) and `Chat`
 * (chat.rb) both perform on the keyspace, and what they do to the link graph
 * (`links:<t>`) and its reverse index (`linked_to:<t>`).
 */
module TermOps {
  import opened KarmaStore

  // ---------------------------------------------------------------------------
  // Specification

  /** `sadd("links:a", b)` and, only when that was new, `sadd("linked_to:b", a)`. */
  function LinkDb(db: Db, a: string, b: string): Db {
    if b in Members(db.links, a) then db
    else db.(links := SAdd(db.links, a, b), linkedTo := SAdd(db.linkedTo, b, a))
  }

  /** `srem("links:a", b)` and, only when that removed something, `srem("linked_to:b", a)`. */
  function UnlinkDb(db: Db, a: string, b: string): Db {
    if b !in Members(db.links, a) then db
    else db.(links := SRem(db.links, a, b), linkedTo := SRem(db.linkedTo, b, a))
  }

  /** `srem("links:k", t)` for every `k` in `from`; an absent `links:k` stays absent. */
  function PurgeLinksTo(links: map<string, set<string>>, from: set<string>, t: string): (r: map<string, set<string>>)
    ensures r.Keys == links.Keys
    ensures forall k :: Members(r, k) == Members(links, k) - (if k in from then {t} else {})
  {
    map k | k in links :: if k in from then links[k] - {t} else links[k]
  }

  /**
   * Deleting term `t`: its score, its `modified:` key (whatever its form), its
   * `links:` set, its name in the `links:` set of every term listed in its
   * `linked_to:` set, and that `linked_to:` set itself.
   */
  function DeleteDb(db: Db, t: string): Db {
    db.(terms := db.terms - {t},
        modified := db.modified - {t},
        modifiedSets := db.modifiedSets - {t},
        links := PurgeLinksTo(db.links - {t}, Members(db.linkedTo, t), t),
        linkedTo := db.linkedTo - {t})
  }

  // ---------------------------------------------------------------------------
  // Link

  /**
   * After linking, `b` is in `links:a`, and with a covered reverse index `a` is
   * in `linked_to:b`; only those two sets may change, no score changes, and
   * nothing changes at all when the link already existed.
   */
  lemma LinkEffect(db: Db, a: string, b: string)
    ensures var d := LinkDb(db, a, b);
      && b in Members(d.links, a)
      && (ForwardCovered(db.links, db.linkedTo) ==> a in Members(d.linkedTo, b))
      && (forall k | k != a :: Members(d.links, k) == Members(db.links, k))
      && (forall k | k != b :: Members(d.linkedTo, k) == Members(db.linkedTo, k))
      && d.terms == db.terms && d.modified == db.modified && d.actions == db.actions
      && (b in Members(db.links, a) <==> d == db)
  {
    if b !in Members(db.links, a) {
      assert b in Members(LinkDb(db, a, b).links, a);
    }
  }

  /** Linking keeps the reverse index exactly inverse to the links. */
  lemma LinkPreservesSymmetric(db: Db, a: string, b: string)
    requires Symmetric(db.links, db.linkedTo)
    ensures Symmetric(LinkDb(db, a, b).links, LinkDb(db, a, b).linkedTo)
  {
  }

  /** Linking keeps every forward link covered by the reverse index. */
  lemma LinkPreservesForwardCovered(db: Db, a: string, b: string)
    requires ForwardCovered(db.links, db.linkedTo)
    ensures ForwardCovered(LinkDb(db, a, b).links, LinkDb(db, a, b).linkedTo)
  {
  }

  // ---------------------------------------------------------------------------
  // Unlink

  /**
   * After unlinking, `b` is not in `links:a`, and with a symmetric index `a` is
   * not in `linked_to:b`; only those two sets may change, and nothing changes
   * when there was no link.
   */
  lemma UnlinkEffect(db: Db, a: string, b: string)
    ensures var d := UnlinkDb(db, a, b);
      && b !in Members(d.links, a)
      && (ReverseCovered(db.links, db.linkedTo) ==> a !in Members(d.linkedTo, b))
      && (forall k | k != a :: Members(d.links, k) == Members(db.links, k))
      && (forall k | k != b :: Members(d.linkedTo, k) == Members(db.linkedTo, k))
      && d.terms == db.terms && d.modified == db.modified && d.actions == db.actions
      && (b !in Members(db.links, a) ==> d == db)
  {
  }

  /** Unlinking keeps the reverse index exactly inverse to the links. */
  lemma UnlinkPreservesSymmetric(db: Db, a: string, b: string)
    requires Symmetric(db.links, db.linkedTo)
    ensures Symmetric(UnlinkDb(db, a, b).links, UnlinkDb(db, a, b).linkedTo)
  {
  }

  /** Unlinking a link just made gives back every set (an emptied set reads as the absent one). */
  lemma UnlinkUndoesLink(db: Db, a: string, b: string)
    requires Symmetric(db.links, db.linkedTo) && b !in Members(db.links, a)
    ensures var d := UnlinkDb(LinkDb(db, a, b), a, b);
      && (forall k :: Members(d.links, k) == Members(db.links, k))
      && (forall k :: Members(d.linkedTo, k) == Members(db.linkedTo, k))
  {
    assert a !in Members(db.linkedTo, b);
    LinkEffect(db, a, b);
  }

  // ---------------------------------------------------------------------------
  // Delete

  /**
   * After deleting `t`, it has no score, no modifiers, no links and no reverse
   * entries; every other score and modifier map is unchanged; and when the
   * reverse index covered every link, no term links to `t` any more.
   */
  lemma DeleteEffect(db: Db, t: string)
    ensures var d := DeleteDb(db, t);
      && t !in d.terms && t !in d.modified && t !in d.modifiedSets
      && Members(d.links, t) == {} && Members(d.linkedTo, t) == {}
      && (forall x | x != t :: Score(d.terms, x) == Score(db.terms, x) && Mods(d.modified, x) == Mods(db.modified, x))
      && (ForwardCovered(db.links, db.linkedTo) ==> forall k :: t !in Members(d.links, k))
      && d.actions == db.actions && d.cooldown == db.cooldown
  {
    var d := DeleteDb(db, t);
    if ForwardCovered(db.links, db.linkedTo) {
      forall k ensures t !in Members(d.links, k) {
        if k != t {
          assert Members(db.links - {t}, k) == Members(db.links, k);
          if t in Members(db.links, k) {
            assert k in Members(db.linkedTo, t);
          }
        }
      }
    }
  }

  /** Deleting keeps every remaining forward link covered by the reverse index. */
  lemma DeletePreservesForwardCovered(db: Db, t: string)
    requires ForwardCovered(db.links, db.linkedTo)
    ensures ForwardCovered(DeleteDb(db, t).links, DeleteDb(db, t).linkedTo)
  {
    var d := DeleteDb(db, t);
    forall a, b | b in Members(d.links, a) ensures a in Members(d.linkedTo, b) {
      assert a != t;
      assert Members(db.links - {t}, a) == Members(db.links, a);
      assert b in Members(db.links, a);
      assert b != t;
      assert Members(d.linkedTo, b) == Members(db.linkedTo, b);
    }
  }

  /**
   * Deleting does not keep the index symmetric: `t`'s own links are dropped
   * but `t` stays in the `linked_to:` set of each term it linked to.
   */
  lemma DeleteLeavesStaleReverseEntry()
    ensures var db := EmptyDb.(links := map["t" := {"u"}], linkedTo := map["u" := {"t"}]);
      && Symmetric(db.links, db.linkedTo)
      && "t" in Members(DeleteDb(db, "t").linkedTo, "u")
      && !ReverseCovered(DeleteDb(db, "t").links, DeleteDb(db, "t").linkedTo)
  {
    var db := EmptyDb.(links := map["t" := {"u"}], linkedTo := map["u" := {"t"}]);
    assert forall a, b :: b in Members(db.links, a) <==> a == "t" && b == "u";
    assert forall a, b :: a in Members(db.linkedTo, b) <==> a == "t" && b == "u";
    assert Members(DeleteDb(db, "t").links, "t") == {};
  }

  // ---------------------------------------------------------------------------
  // The shared loop of both deletes

  /** One more `srem` of the loop. */
  lemma PurgeStep(links: map<string, set<string>>, done: set<string>, k: string, t: string)
    requires k !in done
    ensures SRem(PurgeLinksTo(links, done, t), k, t) == PurgeLinksTo(links, done + {k}, t)
  {
    var a, b := SRem(PurgeLinksTo(links, done, t), k, t), PurgeLinksTo(links, done + {k}, t);
    assert a.Keys == b.Keys;
    SameMembers(a, b);
  }

  /** The `srem("links:k", t)` loop over the members of `linked_to:t`. */
  method RemoveFromLinksOf(store: Store, from: set<string>, t: string)
    modifies store
    ensures store.Snap() == old(store.Snap()).(links := PurgeLinksTo(old(store.links), from, t))
  {
    var rest := from;
    ghost var done: set<string> := {};
    while rest != {}
      invariant rest + done == from && rest !! done
      invariant store.Snap() == old(store.Snap()).(links := PurgeLinksTo(old(store.links), done, t))
      decreases rest
    {
      var k :| k in rest;
      PurgeStep(old(store.links), done, k, t);
      store.links := SRem(store.links, k, t);
      rest, done := rest - {k}, done + {k};
    }
  }
}
