/**
 * Handler configuration (lib/lita/handlers/karma/config.rb): the settings and
 * the three pluggable callables with their default implementations.
 */
module Config {
  import opened Base

  /** `decay_distributor.call(decay_interval, index, item_count)`: the age, in seconds, of a synthesised action. */
  type Distributor = (int, int, int) -> real
  /** `upgrade_modified.call(score, user_ids)`: `(weight, user_id)` pairs for the counted modifier set. */
  type Upgrader = (int, seq<UserId>) -> seq<(int, UserId)>
  /** `term_normalizer.call(term)`. */
  type Normalizer = string -> string

  /** The configuration value; `None` stands for a setting configured as `nil`. */
  datatype Config = Config(
    cooldown: Option<int>,
    linkThreshold: Option<int>,
    decay: bool,
    decayInterval: int,
    distributor: Distributor,
    upgrader: Upgrader,
    normalizer: Normalizer)

  const DefaultCooldown: int := 300
  const DefaultLinkThreshold: int := 10
  const DefaultDecayInterval: int := 30 * 24 * 60 * 60

  /** The configuration a fresh installation starts with. */
  const Defaults: Config := Config(
    Some(DefaultCooldown), Some(DefaultLinkThreshold), false, DefaultDecayInterval,
    DefaultDistributor, DefaultUpgrader, DefaultNormalizer)

  /** `decay_enabled?`: decay is on and the interval is a positive duration. */
  predicate DecayEnabled(cfg: Config) {
    cfg.decay && cfg.decayInterval > 0
  }

  /** Out of the box the cooldown is 300 s, the link threshold 10, decay off, and the interval 30 days. */
  lemma DefaultSettings()
    ensures Defaults.cooldown == Some(300) && Defaults.linkThreshold == Some(10)
    ensures !DecayEnabled(Defaults) && Defaults.decayInterval == 2592000
  {
  }

  // ---------------------------------------------------------------------------
  // default_decay_distributor

  /**
   * `decay_interval.to_f / (item_count + 1) * (index + 1)`: spreads `item_count`
   * ages evenly over the interval. For `item_count == -1` Ruby divides by zero
   * and yields a non-finite float; no caller passes that value, and the model
   * returns 0 there.
   */
  function DefaultDistributor(interval: int, index: int, count: int): real
  {
    if count + 1 == 0 then 0.0
    else (interval as real) / ((count + 1) as real) * ((index + 1) as real)
  }

  /** The default distributor is the linear share `I * (i + 1) / (n + 1)` of the interval. */
  lemma DistributorIsLinearShare(interval: int, index: int, count: int)
    requires count >= 0
    ensures DefaultDistributor(interval, index, count) * ((count + 1) as real)
         == (interval as real) * ((index + 1) as real)
  {
    var q := (interval as real) / ((count + 1) as real);
    assert q * ((count + 1) as real) == interval as real;
    calc {
      DefaultDistributor(interval, index, count) * ((count + 1) as real);
      q * ((index + 1) as real) * ((count + 1) as real);
      q * ((count + 1) as real) * ((index + 1) as real);
      (interval as real) * ((index + 1) as real);
    }
  }

  /** For a positive interval and an index in range, the age lies strictly inside `(0, interval)`. */
  lemma DistributorWithinInterval(interval: int, index: int, count: int)
    requires interval > 0 && 0 <= index < count
    ensures 0.0 < DefaultDistributor(interval, index, count) < interval as real
  {
    var q := (interval as real) / ((count + 1) as real);
    assert q > 0.0;
    assert q * ((count + 1) as real) == interval as real;
    assert ((index + 1) as real) < ((count + 1) as real);
    assert q * ((index + 1) as real) < q * ((count + 1) as real);
  }

  /** For a fixed positive interval and item count, later indexes get strictly larger ages. */
  lemma DistributorIncreasing(interval: int, i: int, j: int, count: int)
    requires interval > 0 && count >= 0 && i < j
    ensures DefaultDistributor(interval, i, count) < DefaultDistributor(interval, j, count)
  {
    var q := (interval as real) / ((count + 1) as real);
    assert q > 0.0;
    assert ((i + 1) as real) < ((j + 1) as real);
    assert q * ((i + 1) as real) < q * ((j + 1) as real);
  }

  // ---------------------------------------------------------------------------
  // default_modified_upgrader

  /** `user_ids.map { |t| [1, t] }`: every listed user gets weight 1; the score is ignored. */
  function DefaultUpgrader(score: int, userIds: seq<UserId>): (pairs: seq<(int, UserId)>)
    ensures |pairs| == |userIds|
    ensures forall k :: 0 <= k < |userIds| ==> pairs[k] == (1, userIds[k])
  {
    if userIds == [] then []
    else [(1, userIds[0])] + DefaultUpgrader(score, userIds[1..])
  }

  // ---------------------------------------------------------------------------
  // default_term_normalizer

  predicate IsUpper(c: char) {
    'A' <= c <= 'Z'
  }

  /** The characters `String#strip` removes: NUL, tab, line feed, vertical tab, form feed, carriage return, space. */
  predicate IsSpace(c: char) {
    c as int == 0 || 9 <= c as int <= 13 || c == ' '
  }

  function DowncaseChar(c: char): (d: char)
    ensures !IsUpper(d)
    ensures IsSpace(d) <==> IsSpace(c)
  {
    if IsUpper(c) then (c as int + 32) as char else c
  }

  /** `downcase` on ASCII letters. */
  function Downcase(s: string): (r: string)
    ensures |r| == |s|
    ensures forall k :: 0 <= k < |s| ==> r[k] == DowncaseChar(s[k])
  {
    if s == [] then [] else [DowncaseChar(s[0])] + Downcase(s[1..])
  }

  /** The number of whitespace characters `lstrip` removes. */
  function LeadingSpaces(s: string): (k: nat)
    ensures k <= |s| && (k == |s| || !IsSpace(s[k]))
    ensures forall i | 0 <= i < k :: IsSpace(s[i])
  {
    if s != [] && IsSpace(s[0]) then 1 + LeadingSpaces(s[1..]) else 0
  }

  /** Where the string ends once `rstrip` has removed its trailing whitespace. */
  function TrailingEnd(s: string): (k: nat)
    ensures k <= |s| && (k == 0 || !IsSpace(s[k - 1]))
    ensures forall i | k <= i < |s| :: IsSpace(s[i])
  {
    if s != [] && IsSpace(s[|s| - 1]) then TrailingEnd(s[..|s| - 1]) else |s|
  }

  /** `strip`: the string without its leading and trailing whitespace. */
  function Strip(s: string): (r: string)
    ensures r == [] || (!IsSpace(r[0]) && !IsSpace(r[|r| - 1]))
    ensures exists i, j | 0 <= i <= j <= |s| :: r == s[i..j] && Outside(s, i, j)
  {
    var i := LeadingSpaces(s);
    var a := s[i..];
    var j := i + TrailingEnd(a);
    assert a[..TrailingEnd(a)] == s[i..j];
    assert forall k | j <= k < |s| :: s[k] == a[k - i];
    assert Outside(s, i, j);
    a[..TrailingEnd(a)]
  }

  /** Everything of `s` before index `i` and from index `j` on is whitespace. */
  predicate Outside(s: string, i: int, j: int) {
    (forall k | 0 <= k < i && k < |s| :: IsSpace(s[k])) && (forall k | 0 <= j <= k < |s| :: IsSpace(s[k]))
  }

  /**
   * `term.to_s.downcase.strip`: the down-cased term with its surrounding
   * whitespace cut off, and nothing else removed.
   */
  function DefaultNormalizer(term: string): (n: string)
    ensures exists i, j | 0 <= i <= j <= |term| :: n == Downcase(term)[i..j] && Outside(term, i, j)
  {
    var d := Downcase(term);
    var n := Strip(d);
    var i, j :| 0 <= i <= j <= |d| && n == d[i..j] && Outside(d, i, j);
    assert Outside(term, i, j) by {
      assert forall k | 0 <= k < |term| :: IsSpace(term[k]) <==> IsSpace(d[k]);
    }
    n
  }

  /** A string with no surrounding whitespace is its own `strip`. */
  lemma StripStripped(s: string)
    requires s == [] || (!IsSpace(s[0]) && !IsSpace(s[|s| - 1]))
    ensures Strip(s) == s
  {
    assert LeadingSpaces(s) == 0;
    assert s[0..] == s;
    assert TrailingEnd(s) == |s|;
  }

  lemma DowncaseLower(s: string)
    requires forall k :: 0 <= k < |s| ==> !IsUpper(s[k])
    ensures Downcase(s) == s
  {
  }

  /**
   * A normalised term is lower-case and has no surrounding whitespace, and
   * normalising it again changes nothing.
   */
  lemma NormalizerIdempotent(term: string)
    ensures var n := DefaultNormalizer(term);
      && (forall k :: 0 <= k < |n| ==> !IsUpper(n[k]))
      && (n == [] || (!IsSpace(n[0]) && !IsSpace(n[|n| - 1])))
      && DefaultNormalizer(n) == n
  {
    var d := Downcase(term);
    var n := Strip(d);
    NormalizedIsLower(d);
    DowncaseLower(n);
    StripStripped(n);
  }

  lemma NormalizedIsLower(d: string)
    requires forall k :: 0 <= k < |d| ==> !IsUpper(d[k])
    ensures forall k :: 0 <= k < |Strip(d)| ==> !IsUpper(Strip(d)[k])
  {
    var a := d[LeadingSpaces(d)..];
    var n := a[..TrailingEnd(a)];
    forall k | 0 <= k < |n| ensures !IsUpper(n[k]) {
      assert n[k] == d[LeadingSpaces(d) + k];
    }
  }
}
