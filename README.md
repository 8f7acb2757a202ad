# lita-karma, modelled in Dafny

lita-karma is a chat-bot handler that keeps karma scores for arbitrary terms
in Redis. This project models its core: the Redis keyspace, the `Term` object,
the chat commands, the decay engine, and the three data migrations that run
when the handler is loaded.

The keyspace is the datatype `KarmaStore.Db`, held by the class
`KarmaStore.Store`. Its fields are:

- `terms`: the ranked set of scores;
- `modified:<term>`: either the counted form (a user → count map) or the
  legacy plain set, never both for one term;
- `modified_flat:<term>`;
- `links:<term>` and the reverse index `linked_to:<term>`;
- the cooldown TTLs;
- the `actions` log, kept as a sequence ranked by timestamp;
- the `support:*` sentinel keys.

Every operation that changes Redis is a method that modifies the store. Each method's
contract ties the new keyspace to a specification function of the old one, and
the lemmas prove what the code promises about those functions.

The modules follow the source files:

| module | source |
|---|---|
| `Actions` | `action.rb` |
| `ActionLog` | the `actions` ranked set and sums over it |
| `KarmaStore` | the keyspace and single Redis commands |
| `Config` | `config.rb` |
| `Decay` | `decay.rb` |
| `TermOps` | the link, unlink and delete updates shared by `term.rb` and `chat.rb` |
| `Ranking` | `zrange` / `zrevrange` over a ranked set |
| `Terms` | `term.rb` |
| `Chats` | `chat.rb` |
| `ReverseLinksUpgrade` | `upgrade/reverse_links.rb` |
| `ModifiedCountsUpgrade` | `upgrade/modified_counts.rb` |
| `DecayBackfill` | `upgrade/decay.rb` |

Some behaviour is worth knowing before reading the contracts:

- Deleting a term does not remove it from the `linked_to:` sets of the terms
  it linked to. Delete therefore keeps every forward link indexed, but it does
  not keep the two indexes exactly inverse. `TermOps.DeleteLeavesStaleReverseEntry`
  exhibits a keyspace where this happens. This is the code's behaviour and is
  modelled as written.
- `Chat#list` clamps the stop index to 25, so it lists up to 26 terms.
  `Term.list` clamps to 24 and lists up to 25.
- The chat `modify` treats a TTL of 0 as cooling down (`ttl >= 0`).
  `Term#modify` does not (`ttl > 0`). `Chats.CooldownGates` states the difference.
- The `modified_counts` migration visits only the terms in `terms`, so a
  modifier set of an unscored term is not upgraded. Its `modified_flat:` key is
  deleted only together with an upgraded plain set. Both are modelled as the
  code does them.
- Zero scores are never removed by decay. The model keeps such terms, as the
  code does.

## Model

| member | source | states |
|---|---|---|
| Actions.New | lib/lita/handlers/karma/action.rb:5-7 | the action holds term, user id, delta and time in that order; delta defaults to 1 |
| Actions.Serialize | lib/lita/handlers/karma/action.rb:9-11 | the serialized form is a 4-element array `[term, user_id, delta, at]` |
| Actions.Deserialize | lib/lita/handlers/karma/action.rb:13-17 | a decoded action passes term, user (nil included) and delta through unchanged and takes its time from the 4th element, integer or float |
| Actions.DeserializeSerialize | lib/lita/handlers/karma/action.rb:9-17 | decoding an encoded action gives back the same action, an anonymous user included |
| Actions.SerializeDeserialize | lib/lita/handlers/karma/action.rb:13-17 | re-encoding a decoded tuple gives the tuple back, with only the timestamp rewritten as a float |
| Actions.SerializeInjective | lib/lita/handlers/karma/action.rb:9-11 | two actions with the same serialization are equal |
| ActionLog.Insert | lib/lita/handlers/karma/chat.rb:287 | `zadd` on the log adds exactly one entry and keeps every other |
| ActionLog.InsertSorted | lib/lita/handlers/karma/chat.rb:287 | the log stays ranked by timestamp after an insert |
| ActionLog.ExpiredIsPrefix | lib/lita/handlers/karma/decay.rb:10 | on a ranked log the entries at or before the cutoff are a prefix and the rest are after it |
| ActionLog.LiveIsFinal | lib/lita/handlers/karma/decay.rb:32 | after the range delete no entry at or before the cutoff is left, and a second delete changes nothing |
| ActionLog.LiveSorted | lib/lita/handlers/karma/decay.rb:32 | the range delete keeps the log ranked |
| ActionLog.SumInsert | lib/lita/handlers/karma/chat.rb:287 | a new entry adds its own weight to every sum over the log |
| ActionLog.SumSplit | lib/lita/handlers/karma/decay.rb:10-32 | every sum over the log is the sum over the expired part plus the sum over the live part |
| KarmaStore.ZIncrBy | lib/lita/handlers/karma/chat.rb:207 | `zincrby` adds the delta to that term's score (an absent term counts 0) and to no other |
| KarmaStore.ZIncrByCount | lib/lita/handlers/karma/chat.rb:208 | `zincrby` on `modified:<t>` adds the delta to one user's count and to no other; that user becomes a modifier |
| KarmaStore.SAdd | lib/lita/handlers/karma/term.rb:81 | `sadd` adds the member to that set only |
| KarmaStore.SRem | lib/lita/handlers/karma/term.rb:126 | `srem` removes the member from that set only |
| KarmaStore.SetEx | lib/lita/handlers/karma/chat.rb:259-261 | `setex` succeeds exactly for a positive expiry, sets that TTL and leaves every other TTL alone |
| KarmaStore.Enumerate | lib/lita/handlers/karma/upgrade/reverse_links.rb:15 | `smembers` lists each member of the set exactly once |
| KarmaStore.SumScoresRemove | lib/lita/handlers/karma/term.rb:117-123 | the sum of linked scores does not depend on the order the links are visited |
| KarmaStore.TotalWithoutLinks | lib/lita/handlers/karma/term.rb:117-123 | a term without links has its own score as its total |
| KarmaStore.TotalAfterLink | lib/lita/handlers/karma/term.rb:117-123 | a new link `a -> b` adds `b`'s own score to `a`'s total and changes no other total |
| KarmaStore.LinkedScores | lib/lita/handlers/karma/chat.rb:250-254 | the loop over `links:<t>` sums exactly the own scores of the linked terms and reports each one |
| KarmaStore.ReportFor | lib/lita/handlers/karma/chat.rb:245-257 | the report's total is the own score (0 when absent) plus the sum of the linked own scores |
| Config.DefaultSettings | lib/lita/handlers/karma/config.rb:23-36 | the defaults are cooldown 300, link threshold 10, decay off and an interval of 30 days (2592000 s) |
| Config.DistributorIsLinearShare | lib/lita/handlers/karma/config.rb:10-12 | the default distributor is `I * (i + 1) / (n + 1)` |
| Config.DistributorWithinInterval | lib/lita/handlers/karma/config.rb:10-12 | for `I > 0` and `0 <= i < n` the value lies strictly between 0 and `I` |
| Config.DistributorIncreasing | lib/lita/handlers/karma/config.rb:10-12 | for fixed `I > 0` and `n` the distributor is strictly increasing in the index |
| Config.DefaultUpgrader | lib/lita/handlers/karma/config.rb:14-16 | one `[1, id]` pair per user id, in input order, whatever the score |
| Config.Downcase | lib/lita/handlers/karma/config.rb:18-20 | lower-cases every character and keeps the length |
| Config.Strip | lib/lita/handlers/karma/config.rb:18-20 | the result is a contiguous slice of the input with only whitespace cut off before and after it, and it neither starts nor ends with whitespace |
| Config.DefaultNormalizer | lib/lita/handlers/karma/config.rb:18-20 | the normalised term is a slice of the down-cased term, and everything of the term outside that slice is whitespace |
| Config.StripStripped | lib/lita/handlers/karma/config.rb:18-20 | stripping a string without surrounding whitespace changes nothing |
| Config.NormalizerIdempotent | lib/lita/handlers/karma/config.rb:18-20 | a normalised term is lower-case and stripped, and normalising it again changes nothing |
| Decay.Positive | lib/lita/handlers/karma/decay.rb:36-38 | keeps exactly the modifier entries with a positive count, with their counts |
| Decay.TermsOf | lib/lita/handlers/karma/decay.rb:10-20 | the touched terms are the expired actions' terms, in order |
| Decay.DecayScoreOf | lib/lita/handlers/karma/decay.rb:18 | replaying the expired actions lowers each term's score by the sum of its expired deltas |
| Decay.DecayCountOf | lib/lita/handlers/karma/decay.rb:19 | each user's count drops by the number of that user's expired actions on the term; anonymous actions touch no count |
| Decay.DropAllAt | lib/lita/handlers/karma/decay.rb:36-38 | pruning keeps the positive entries of every touched term, drops a touched term left without one, and leaves untouched terms alone |
| Decay.DecayRemovesExactlyExpired | lib/lita/handlers/karma/decay.rb:9-32 | afterwards no action at or before the cutoff remains, every later action is kept in order, and the log stays ranked |
| Decay.DecayLowersScores | lib/lita/handlers/karma/decay.rb:10-18 | every expired action lowers its term's score by its delta, and no scored term is removed |
| Decay.DecayPrunesModifiers | lib/lita/handlers/karma/decay.rb:19-38 | a touched term keeps exactly its modifiers whose decayed count is positive; other terms' modifier maps are unchanged |
| Decay.DecayKeepsScoreOffset | lib/lita/handlers/karma/decay.rb:10-32 | each term's score minus the deltas of its live actions is preserved |
| Decay.DecayPreservesScoresMatchLog | lib/lita/handlers/karma/decay.rb:7-12 | if every score equals the sum of its logged deltas, this still holds afterwards |
| Decay.DecayPreservesCountsMatchLog | lib/lita/handlers/karma/decay.rb:7-38 | if every modifier count equals its number of logged actions, this still holds afterwards |
| Decay.DecayIdempotent | lib/lita/handlers/karma/decay.rb:7-12 | a second pass with the same cutoff changes nothing |
| Decay.DecayKeepsOtherKeys | lib/lita/handlers/karma/decay.rb:7-38 | links, reverse links, cooldowns, plain sets, flat keys and sentinels are untouched |
| Decay.DecayWellFormed | lib/lita/handlers/karma/decay.rb:7-38 | the keyspace stays well-formed when no expired action hits a legacy plain set |
| Decay.DecayKeepsLogAvoidingPlainSets | lib/lita/handlers/karma/decay.rb:7-38 | a log that avoids plain-set terms still does after the pass |
| Decay.DecayFromAction | lib/lita/handlers/karma/decay.rb:16-21 | lowers the score by the delta and, for an attributed action, the user's count by 1; returns the term |
| Decay.DeleteZeroModifiersFor | lib/lita/handlers/karma/decay.rb:36-38 | prunes non-positive counts of each listed term and changes nothing else |
| Decay.DeleteOldActionsFor | lib/lita/handlers/karma/decay.rb:31-34 | range-deletes the log up to the cutoff, then prunes the listed terms |
| Decay.DecayEach | lib/lita/handlers/karma/decay.rb:10 | replays every expired action on scores and counts and returns their terms |
| Decay.ExpireUpTo | lib/lita/handlers/karma/decay.rb:9-11 | the pass changes the keyspace exactly as the decay specification says and keeps it well-formed |
| Decay.DecayHandler.Call | lib/lita/handlers/karma/decay.rb:7-25 | a no-op unless decay is on with a positive interval; otherwise one pass with cutoff `floor(now) - interval` |
| TermOps.PurgeLinksTo | lib/lita/handlers/karma/term.rb:53-55 | removes the term from `links:` of exactly the listed terms |
| TermOps.LinkEffect | lib/lita/handlers/karma/term.rb:81 | a link adds `b` to `links:a` and `a` to `linked_to:b`, and changes no other set |
| TermOps.LinkPreservesSymmetric | lib/lita/handlers/karma/chat.rb:64-69 | linking keeps `linked_to` exactly inverse to `links` |
| TermOps.LinkPreservesForwardCovered | lib/lita/handlers/karma/term.rb:81 | linking keeps every forward link indexed in reverse |
| TermOps.UnlinkEffect | lib/lita/handlers/karma/term.rb:125-127 | an unlink removes only `b` from `links:a` and, if that existed, `a` from `linked_to:b` |
| TermOps.UnlinkPreservesSymmetric | lib/lita/handlers/karma/chat.rb:73-84 | unlinking keeps `linked_to` exactly inverse to `links` |
| TermOps.UnlinkUndoesLink | lib/lita/handlers/karma/term.rb:72-127 | on a symmetric index, unlinking a new link restores the link sets |
| TermOps.DeleteEffect | lib/lita/handlers/karma/term.rb:49-57 | delete drops the score, modifiers, links and reverse index of the term, removes it from every linker's links, and changes no other score |
| TermOps.DeletePreservesForwardCovered | lib/lita/handlers/karma/term.rb:49-57 | after delete every forward link is still indexed in reverse |
| TermOps.DeleteLeavesStaleReverseEntry | lib/lita/handlers/karma/term.rb:49-57 | deleting a linking term can leave it in another term's `linked_to`, so delete does not keep the index symmetric |
| TermOps.PurgeStep | lib/lita/handlers/karma/term.rb:53-55 | one more `srem` in the loop purges one more linker |
| TermOps.RemoveFromLinksOf | lib/lita/handlers/karma/term.rb:53-55 | the loop removes the term from `links:` of each listed term and changes nothing else |
| Ranking.RangeCount | lib/lita/handlers/karma/chat.rb:230-232 | a range query never returns more members than the set has |
| Ranking.RangeCountFromStart | lib/lita/handlers/karma/chat.rb:230-232 | for a stop `n >= 0`, the range returns `min(n + 1, len)` members |
| Ranking.RangeCountFromEnd | lib/lita/handlers/karma/chat.rb:225-232 | for a negative stop the range counts from the end |
| Ranking.ExtremeExists | lib/lita/handlers/karma/term.rb:24 | a non-empty ranked set has a best and a worst member |
| Ranking.TopRanked | lib/lita/handlers/karma/term.rb:24 | the first `k` ranks: distinct terms with their scores, in order, none ranked below an unlisted term; `k == len` lists every term |
| Terms.LinkThreshold | lib/lita/handlers/karma/term.rb:72-79 | with a threshold, a link is refused, changing nothing and returning `abs(threshold)`, exactly when either own score is too small in magnitude |
| Terms.LinkAccepted | lib/lita/handlers/karma/term.rb:81 | an accepted link exists afterwards in both directions; an existing link changes nothing and returns false |
| Terms.UnlinkReply | lib/lita/handlers/karma/term.rb:125-127 | afterwards the link is absent; it returns true exactly when it existed; it keeps the index symmetric |
| Terms.ModifyBangEffect | lib/lita/handlers/karma/term.rb:141-147 | adds the delta to this term's score only, adds the user to the plain modifier set, fails on a counted key or a non-positive cooldown, touches no link and logs nothing |
| Terms.ModifyBangWellFormed | lib/lita/handlers/karma/term.rb:141-147 | `modify!` keeps the keyspace well-formed |
| Terms.ModifyBangArmsCooldown | lib/lita/handlers/karma/term.rb:145 | a successful `modify!` with a cooldown sets the TTL to the configured cooldown |
| Terms.NormalisedLinksResolve | lib/lita/handlers/karma/term.rb:84-101 | link names that are already normalised all resolve in the link cache |
| Terms.ListLength | lib/lita/handlers/karma/term.rb:20-25 | `list(n)` returns `min(n + 1, 25, len)` terms |
| Terms.Term.constructor | lib/lita/handlers/karma/term.rb:28-32 | the name is normalised unless `normalize: false` |
| Terms.Term.EqlHash | lib/lita/handlers/karma/term.rb:59-66 | equality is an equivalence on the term name, and equal terms hash alike |
| Terms.Term.OwnScore | lib/lita/handlers/karma/term.rb:109-111 | the stored score, or 0 for an absent term |
| Terms.Term.Links | lib/lita/handlers/karma/term.rb:84-91 | exactly the members of `links:<term>` |
| Terms.Term.Check | lib/lita/handlers/karma/term.rb:93-123 | the total is the own score plus each linked term's own score, and each link is reported with its own score |
| Terms.Term.List | lib/lita/handlers/karma/term.rb:10-25 | ranks `0..min(n, 24)` of the terms, best or worst first |
| Terms.Term.Link | lib/lita/handlers/karma/term.rb:72-82 | the keyspace and reply are exactly the link specification's |
| Terms.Term.Unlink | lib/lita/handlers/karma/term.rb:125-127 | the keyspace and reply are exactly the unlink specification's |
| Terms.Term.Delete | lib/lita/handlers/karma/term.rb:49-57 | the keyspace becomes exactly the delete specification's |
| Terms.Term.ModifyBang | lib/lita/handlers/karma/term.rb:141-147 | the `modify!` update; a Redis error is the reply, otherwise the full check of the new keyspace: own score, total, and every link with its own score |
| Terms.Term.Modify | lib/lita/handlers/karma/term.rb:131-139 | nothing changes while the TTL is positive and the reply is the TTL; otherwise the keyspace is exactly `modify!`'s, and the reply is its Redis error or else the full check of the new keyspace |
| Terms.Term.Increment | lib/lita/handlers/karma/term.rb:68-70 | during a cooldown nothing changes and the reply is the TTL; otherwise the keyspace is exactly `modify!` at +1, so the term gains one point and no other score changes, and the reply is the Redis error or else the full check of the new keyspace |
| Terms.Term.Decrement | lib/lita/handlers/karma/term.rb:45-47 | during a cooldown nothing changes and the reply is the TTL; otherwise the keyspace is exactly `modify!` at -1, so the term loses one point and no other score changes, and the reply is the Redis error or else the full check of the new keyspace |
| Chats.DecayedIdempotent | lib/lita/handlers/karma/chat.rb:267-282 | a second decay pass at the same clock changes nothing |
| Chats.DecayedReady | lib/lita/handlers/karma/chat.rb:267-282 | a decay pass keeps the keyspace ready and touches no link |
| Chats.CooldownGates | lib/lita/handlers/karma/chat.rb:122-131 | the chat command is blocked exactly when `Term#modify` would be, or when the TTL is exactly 0 |
| Chats.ModifyStepEffect | lib/lita/handlers/karma/chat.rb:207-210 | one match adds the delta to that score only, fails exactly on a plain set or a non-positive cooldown, arms the cooldown, and logs one action only when decay is on |
| Chats.ModifyStepCounts | lib/lita/handlers/karma/chat.rb:208 | a successful match adds 1 to that user's count for the term and to no other count |
| Chats.ModifyStepReady | lib/lita/handlers/karma/chat.rb:207-210 | one match keeps the keyspace ready |
| Chats.ModifyStepKeepsLogMatch | lib/lita/handlers/karma/chat.rb:207-288 | with decay on, scores and counts stay equal to the sums over the log |
| Chats.ModifyAllReady | lib/lita/handlers/karma/chat.rb:200-211 | the match loop keeps the keyspace ready |
| Chats.ModifyAllKeepsLogMatch | lib/lita/handlers/karma/chat.rb:200-211 | a command that runs to the end keeps scores and counts equal to the sums over the log |
| Chats.ModifyAllOnlyNamed | lib/lita/handlers/karma/chat.rb:200-211 | no term outside the matches changes score |
| Chats.ModifyAllOthersCooldowns | lib/lita/handlers/karma/chat.rb:209-261 | no other user's cooldowns change |
| Chats.ModifyAllKeepsArmed | lib/lita/handlers/karma/chat.rb:205-209 | an armed cooldown stays armed at the configured TTL through the loop |
| Chats.RepeatedModifyCoolsDown | lib/lita/handlers/karma/chat.rb:205 | with a cooldown, repeating a finished command stops at its first term with the configured TTL and changes nothing |
| Chats.LinkOneEffect | lib/lita/handlers/karma/chat.rb:52-69 | a match is refused exactly when a decayed own score is below the threshold in magnitude, and then no link changes; an existing link is reported and kept; a new link is added in both directions |
| Chats.LinkOneReady | lib/lita/handlers/karma/chat.rb:48-71 | one link match keeps the keyspace ready |
| Chats.LinkAllSymmetric | lib/lita/handlers/karma/chat.rb:48-71 | the link command keeps the keyspace ready and `linked_to` exactly inverse to `links` |
| Chats.LinkAllReplies | lib/lita/handlers/karma/chat.rb:48-71 | one reply per handled match; only a threshold refusal, always last, ends the command early |
| Chats.UnlinkAllSymmetric | lib/lita/handlers/karma/chat.rb:73-84 | the unlink command answers every match and keeps `linked_to` exactly inverse to `links` |
| Chats.DeleteReady | lib/lita/handlers/karma/chat.rb:103-118 | delete keeps the keyspace ready |
| Chats.ListLength | lib/lita/handlers/karma/chat.rb:224-232 | `list a` returns `min(a, 26, len)` terms for `a >= 1` (5 by default), every term for 0, and all but the last `-a` for a negative `a` |
| Chats.Chat.ProcessDecay | lib/lita/handlers/karma/chat.rb:267-282 | one decay pass at `now - interval` when decay is on; nothing otherwise |
| Chats.Chat.ScoresFor | lib/lita/handlers/karma/chat.rb:245-257 | a decay pass, then the report of the term in the decayed keyspace |
| Chats.Chat.Check | lib/lita/handlers/karma/chat.rb:21-38 | a decay pass, then one report per match for its normalised term, in order |
| Chats.Chat.SetCooldown | lib/lita/handlers/karma/chat.rb:259-261 | arms the TTL with `setex` when a cooldown is configured; nothing otherwise |
| Chats.Chat.AddAction | lib/lita/handlers/karma/chat.rb:284-288 | logs the action only when decay is enabled |
| Chats.Chat.ModifyMatch | lib/lita/handlers/karma/chat.rb:207-210 | one match changes the keyspace exactly as the modify step says |
| Chats.Chat.Modify | lib/lita/handlers/karma/chat.rb:200-214 | the match loop runs as specified; a finished command then checks its matches after a decay pass |
| Chats.Chat.Increment | lib/lita/handlers/karma/chat.rb:13-15 | `modify` with delta 1: when a match is cooling down or fails, the keyspace is where the match loop stopped and the reply names that stop; otherwise a decay pass follows and the reply is the check report of every match |
| Chats.Chat.Decrement | lib/lita/handlers/karma/chat.rb:17-19 | `modify` with delta -1: when a match is cooling down or fails, the keyspace is where the match loop stopped and the reply names that stop; otherwise a decay pass follows and the reply is the check report of every match |
| Chats.Chat.LinkMatch | lib/lita/handlers/karma/chat.rb:50-69 | one match changes the keyspace and replies exactly as specified |
| Chats.Chat.Link | lib/lita/handlers/karma/chat.rb:48-71 | the command changes the keyspace and replies exactly as the link loop says, and keeps it ready |
| Chats.Chat.Unlink | lib/lita/handlers/karma/chat.rb:73-84 | the command changes the keyspace and replies exactly as the unlink loop says |
| Chats.Chat.Delete | lib/lita/handlers/karma/chat.rb:103-118 | deletes the verbatim name; the reply is true exactly when it had a score |
| Chats.Chat.Modifiers | lib/lita/handlers/karma/chat.rb:86-101 | a decay pass; then WRONGTYPE exactly when the normalised term still has a legacy plain modifier set, and otherwise every modifier of the term with its count, each once, highest count first |
| Chats.Chat.List | lib/lita/handlers/karma/chat.rb:224-243 | a decay pass, then ranks `0..min(arg - 1, 25)` of the terms, best or worst first |
| ReverseLinksUpgrade.TermOfLinksKey | lib/lita/handlers/karma/upgrade/reverse_links.rb:14 | stripping the `links:` prefix gives back the term |
| ReverseLinksUpgrade.AddTo | lib/lita/handlers/karma/upgrade/reverse_links.rb:15-17 | adds the term to `linked_to:` of exactly the listed links |
| ReverseLinksUpgrade.Reversed | lib/lita/handlers/karma/upgrade/reverse_links.rb:13-18 | every visited term is added to `linked_to:` of each of its links; existing entries are kept |
| ReverseLinksUpgrade.ReverseLinksCovers | lib/lita/handlers/karma/upgrade/reverse_links.rb:9-21 | afterwards every link `a -> b` has `a` in `linked_to:b`; links are unchanged, no reverse entry is lost, and the sentinel is set |
| ReverseLinksUpgrade.ReverseLinksSymmetric | lib/lita/handlers/karma/upgrade/reverse_links.rb:9-21 | a reverse index without stale entries becomes exactly the inverse of the links |
| ReverseLinksUpgrade.ReverseLinksOnce | lib/lita/handlers/karma/upgrade/reverse_links.rb:10 | a second run changes nothing |
| ReverseLinksUpgrade.ReversedIdempotent | lib/lita/handlers/karma/upgrade/reverse_links.rb:15-17 | re-adding every reverse entry changes nothing |
| ReverseLinksUpgrade.IndexLinksOf | lib/lita/handlers/karma/upgrade/reverse_links.rb:15-17 | the inner loop adds the term to `linked_to:` of each listed link and changes nothing else |
| ReverseLinksUpgrade.ReverseLinks | lib/lita/handlers/karma/upgrade/reverse_links.rb:9-21 | the migration changes the keyspace exactly as specified |
| ModifiedCountsUpgrade.CountsOf | lib/lita/handlers/karma/upgrade/modified_counts.rb:39 | `zadd` of the pairs has exactly the paired users as members |
| ModifiedCountsUpgrade.CountsOfLastWins | lib/lita/handlers/karma/upgrade/modified_counts.rb:39 | a user named more than once gets the weight of its last pair |
| ModifiedCountsUpgrade.UpgradedCounts | lib/lita/handlers/karma/upgrade/modified_counts.rb:35-40 | each upgraded term holds its upgrader's counts, and no key for an empty result; others keep theirs |
| ModifiedCountsUpgrade.DefaultCountsOne | lib/lita/handlers/karma/upgrade/modified_counts.rb:35-40 | with the default upgrader a listed set of users becomes those users counted once each |
| ModifiedCountsUpgrade.DefaultCountIsOne | lib/lita/handlers/karma/upgrade/modified_counts.rb:35-40 | with the default upgrader every listed user counts 1 |
| ModifiedCountsUpgrade.UpgradeCountsConverts | lib/lita/handlers/karma/upgrade/modified_counts.rb:9-47 | no scored term keeps a plain set; an upgraded term loses its flat key and holds exactly its upgrader's counts; every other key is unchanged; the sentinel is set |
| ModifiedCountsUpgrade.DefaultUpgradeCountsOnce | lib/lita/handlers/karma/upgrade/modified_counts.rb:9-19 | with the default upgrader a scored term's plain set becomes the same users counted once each |
| ModifiedCountsUpgrade.UpgradeCountsWellFormed | lib/lita/handlers/karma/upgrade/modified_counts.rb:9-19 | the migration keeps the keyspace well-formed |
| ModifiedCountsUpgrade.UpgradeCountsOnce | lib/lita/handlers/karma/upgrade/modified_counts.rb:10 | a second run changes nothing |
| ModifiedCountsUpgrade.UpgradeOne | lib/lita/handlers/karma/upgrade/modified_counts.rb:35-51 | only a plain set is upgraded, from its members as `smembers` lists them |
| ModifiedCountsUpgrade.ModifiedCounts | lib/lita/handlers/karma/upgrade/modified_counts.rb:9-25 | visits exactly the scored terms with a plain set, and changes the keyspace exactly as specified |
| DecayBackfill.Synth | lib/lita/handlers/karma/upgrade/decay.rb:28-38 | a group of `max(0, k)` actions of the term and user, each with delta +1 |
| DecayBackfill.SynthAt | lib/lita/handlers/karma/upgrade/decay.rb:29-36 | the i-th action of a group is timed `now - distributor(interval, i, n)` |
| DecayBackfill.SynthCount | lib/lita/handlers/karma/upgrade/decay.rb:28-38 | a group counts for its own term and user only |
| DecayBackfill.UsersSynthCount | lib/lita/handlers/karma/upgrade/decay.rb:24-32 | each modifier `u` with count `m` and `c` logged actions gets `max(0, m - c)` new actions |
| DecayBackfill.TermSynthCount | lib/lita/handlers/karma/upgrade/decay.rb:24-38 | the anonymous group has `max(0, score - total - c_nil)` actions |
| DecayBackfill.AllSynthSum | lib/lita/handlers/karma/upgrade/decay.rb:21-42 | every count over all new actions is the sum of the terms' counts |
| DecayBackfill.BackfillCounts | lib/lita/handlers/karma/upgrade/decay.rb:9-45 | afterwards a modifier has `c + max(0, m - c)` actions and the anonymous group `c_nil + max(0, remainder)` |
| DecayBackfill.ActionsSplitByUser | lib/lita/handlers/karma/upgrade/decay.rb:13-39 | a term's logged actions are the anonymous ones plus the modifiers' ones |
| DecayBackfill.UsersSynthLength | lib/lita/handlers/karma/upgrade/decay.rb:24-32 | when no modifier has more actions than its count, the new modifier actions number `total - known` |
| DecayBackfill.BackfillReachesScore | lib/lita/handlers/karma/upgrade/decay.rb:24-38 | when every logged action belongs to a modifier or is anonymous, `c <= m` for every modifier and `score >= total + c_nil`, the term's action count afterwards is its score |
| DecayBackfill.SynthTimestamps | lib/lita/handlers/karma/upgrade/decay.rb:28-31 | with the default distributor a group lies inside `(now - interval, now)`, each action older than the one before |
| DecayBackfill.AllSynthInWindow | lib/lita/handlers/karma/upgrade/decay.rb:21-42 | with the default distributor every new action lies inside the decay window |
| DecayBackfill.BackfillKeeps | lib/lita/handlers/karma/upgrade/decay.rb:9-57 | existing actions, scores and counts are untouched, the log stays ranked, only +1 actions are added, and the sentinel is set exactly when the migration runs |
| DecayBackfill.BackfillOnce | lib/lita/handlers/karma/upgrade/decay.rb:10-43 | a second run changes nothing |
| DecayBackfill.TallyActions | lib/lita/handlers/karma/upgrade/decay.rb:13-17 | the tally counts the logged actions of each term and user, nil counted as its own user |
| DecayBackfill.AddAction | lib/lita/handlers/karma/upgrade/decay.rb:53-57 | logs the action only when decay is enabled |
| DecayBackfill.AddGroup | lib/lita/handlers/karma/upgrade/decay.rb:28-38 | the `times` loop logs exactly the group's actions |
| DecayBackfill.AddModifierGroups | lib/lita/handlers/karma/upgrade/decay.rb:24-32 | the modifier loop logs every modifier's group and returns the sum of the counts |
| DecayBackfill.BackfillTerm | lib/lita/handlers/karma/upgrade/decay.rb:22-38 | one term logs its modifier groups and its anonymous remainder |
| DecayBackfill.BackfillTerms | lib/lita/handlers/karma/upgrade/decay.rb:21-42 | the term loop logs every term's actions and nothing else |
| DecayBackfill.Backfill | lib/lita/handlers/karma/upgrade/decay.rb:9-45 | the migration visits every scored term once and changes the keyspace exactly as specified |

## Left out

- Route definitions, the term pattern regular expression, reply texts and
  locales are Lita routing and formatting. Replies are modelled as values (reports, link
  replies, cooling-down TTLs), not strings.
- `Lita::User.find_by_id` is a call into Lita. `Chats.Chat.Modifiers` returns
  user ids with counts, not user names, and `Term#modified` is not part of this model.
- Redis itself is modelled as maps. Real TTL expiry is not modelled: a cooldown
  is a stored TTL value, with -2 for a missing key. The `keys("links:*")` glob is
  iteration over the `links` map.
- The clock is a parameter `now`, and timestamps are exact rationals
  (`real`) rather than floats. `decay.rb` truncates the clock to whole seconds
  (`Time.now.to_i`) and `chat.rb` does not; both are modelled as written.
- `DecayBackfill.Backfill` takes one `now` for the whole run. The source
  re-reads `Time.now` for every synthesised action, so there the actions of one
  run can be a few microseconds apart.
- Decay.DecayFromAction: decodes an action with `Action.deserialize`. `decay.rb` calls `Action.from_json`, which `action.rb` does not define, so the code as written raises NoMethodError once an action has expired. The model treats the two names as one decoder.
- Decay.DecayHandler.Call: decodes the expired actions with `Action.deserialize` in place of the undefined `Action.from_json`, as `Decay.DecayFromAction` does.
- DecayBackfill.TallyActions: decodes the log with `Action.deserialize` in place of the undefined `action_class.from_json` that `upgrade/decay.rb` calls, which would raise as soon as the log holds an action.
- DecayBackfill.Backfill: relies on that tally, so it also decodes with `Action.deserialize`.
- Chats.Chat.Check: runs every decay pass of the command at one clock `now`. The source re-reads `Time.now` in each `process_decay`, once for the command and again in `scores_for` for every match, so a later pass can expire actions that aged past the cutoff in between. In the model the later passes change nothing.
- Chats.Chat.Link: uses one clock for all of its decay passes. The source re-reads `Time.now` in the two `scores_for` calls of every match, so a later pass can expire more actions.
- Chats.Chat.LinkMatch: uses one clock for the passes inside `scores_for(term2)` and `scores_for(term1)`, where the source reads the clock in each.
- Chats.Chat.Modify: uses one clock for the actions it logs and for the decay passes of the closing `check`, where the source reads `Time.now` separately each time.
- The default distributor at `item_count == -1` divides by zero in Ruby.
  No caller passes it, and the model returns 0 there.
- Ranked-set semantics are partly modelled. Equal members in the `actions` log are
  kept as separate entries, and terms with equal scores may be listed in either
  order.
- `zadd` with an empty list is modelled as creating no key, as with an empty
  upgrade result.
- Memoisation in `Term` (`@own_score`, `@links`, `@link_cache`) is modelled by
  reading the store each time. `Terms.Term.Check`, `Terms.Term.Modify`,
  `Terms.Term.ModifyBang`, `Terms.Term.Increment` and `Terms.Term.Decrement`
  require that every link name is already normalised in the cache
  (`Terms.LinksResolve`); otherwise the source fails looking the name up. The
  modify methods demand this only on the path that reaches `check`, not during a
  cooldown or after a Redis error.
- The default normaliser down-cases ASCII letters only and strips ASCII
  whitespace and NUL. Unicode case folding is not modelled.
- `CALLABLE_VALIDATOR` is a runtime type check of the configuration and is not
  modelled. The configured normaliser, upgrader and distributor are function
  parameters.
- `log.debug` output is not modelled.
- lib/lita/handlers/karma.rb and lib/lita/handlers/karma/upgrade.rb are older
  monolithic copies of the same logic, and lib/lita-karma.rb only loads files.
  None of them is part of this model.
- Decay.ExpireUpTo: requires that no expired action belongs to a term whose `modified:` key is still a plain set (`NoPlainSetsExpired`). Redis would raise WRONGTYPE there; the migrations run on load before any pass.
- Decay.DecayHandler.Call: carries the same requirement when decay is enabled.
- Chats.Chat.ProcessDecay: this method and the other chat commands require a ready keyspace (well-formed, log avoiding plain sets) and keep it ready. A modify that meets a plain set is modelled as a WRONGTYPE failure, not a precondition.
- DecayBackfill.Backfill: requires that, when it runs, no scored term has a plain modifier set (`ScoredTermsCounted`). Otherwise `zrange ... with_scores` raises WRONGTYPE.
- ModifiedCountsUpgrade.UpgradeCountsConverts: drops the flat key only of upgraded plain-set terms, as the code does; other flat keys remain.
