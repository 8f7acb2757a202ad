/**
 * The action record (lib/lita/handlers/karma/action.rb): one score change,
 * stored in the `actions` ranked set as the 4-tuple
 * `[term, user_id, delta, timestamp]`.
 */
module Actions {
  import opened Base

  /** `userId == None` is an anonymous action (only the decay backfill makes those). */
  datatype Action = Action(term: string, userId: Option<UserId>, delta: int, at: real)

  /** `Action.new(term, user_id, delta = 1, at)`: the fields in that order, `delta` defaulting to 1. */
  function New(term: string, userId: Option<UserId>, at: real, delta: int := 1): (a: Action)
    ensures a.term == term && a.userId == userId && a.delta == delta && a.at == at
  {
    Action(term, userId, delta, at)
  }

  /** The JSON values that can appear in a serialized action. */
  datatype Json = JNull | JString(s: string) | JInt(i: int) | JFloat(f: real)

  /** `serialize`: the JSON array `[term, user_id, delta, at.to_f]`. */
  function Serialize(a: Action): (tuple: seq<Json>)
    ensures |tuple| == 4
  {
    [ JString(a.term),
      match a.userId case None => JNull case Some(u) => JString(u),
      JInt(a.delta),
      JFloat(a.at) ]
  }

  /**
   * `deserialize`: the 4th element is turned back into a time (`Time.at`
   * accepts an integer or a float), the first three are passed through.
   * Anything that is not such a 4-tuple yields `None`.
   */
  function Deserialize(tuple: seq<Json>): (r: Option<Action>)
    ensures r.Some? ==> |tuple| == 4 && tuple[0] == JString(r.value.term) && tuple[2] == JInt(r.value.delta)
    ensures r.Some? ==> tuple[1] == (if r.value.userId.None? then JNull else JString(r.value.userId.value))
    ensures r.Some? ==> tuple[3] in {JInt(r.value.at.Floor), JFloat(r.value.at)}
  {
    if |tuple| != 4 || !tuple[0].JString? || !tuple[2].JInt? then None
    else
      var user: Option<Option<UserId>> :=
        match tuple[1]
        case JNull => Some(None)
        case JString(u) => Some(Some(u))
        case _ => None;
      var at: Option<real> :=
        match tuple[3]
        case JInt(i) => Some(i as real)
        case JFloat(f) => Some(f)
        case _ => None;
      if user.None? || at.None? then None
      else Some(Action(tuple[0].s, user.value, tuple[2].i, at.value))
  }

  /** Decoding an encoded action gives back the same term, user (including `nil`), delta and time. */
  lemma DeserializeSerialize(a: Action)
    ensures Deserialize(Serialize(a)) == Some(a)
  {
  }

  /** Conversely, a tuple that decodes re-encodes to itself, except that an integer time comes back as a float. */
  lemma SerializeDeserialize(tuple: seq<Json>)
    requires Deserialize(tuple).Some?
    ensures Serialize(Deserialize(tuple).value) == tuple[3 := JFloat(Deserialize(tuple).value.at)]
  {
  }

  /** Two actions with the same serialization are the same action. */
  lemma SerializeInjective(a: Action, b: Action)
    requires Serialize(a) == Serialize(b)
    ensures a == b
  {
    DeserializeSerialize(a);
    DeserializeSerialize(b);
  }
}
