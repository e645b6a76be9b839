/** The client's `User`: the id of an event's owner, decoded from JSON. */
module ClientUser {
  import opened Wrappers
  import opened Json
  import opened ClientSession

  datatype User = User(userID: int)

  /** `init?(JSON:)`: fails unless `id` is present and reads as an `Int`. */
  function Decode(json: Dictionary): (r: Option<User>)
    ensures r.Some? <==> "id" in json && json["id"].JNumber? && json["id"].n.asInt.Some?
    ensures r.Some? ==> r.value.userID == json["id"].n.asInt.value
  {
    match IntAt(json, "id")
    case None => None
    case Some(id) => Some(User(id))
  }

  /** Keys other than `id` play no part in decoding. */
  lemma OtherKeysIgnored(json: Dictionary, other: Dictionary)
    requires ("id" in json <==> "id" in other) && ("id" in json ==> json["id"] == other["id"])
    ensures Decode(json) == Decode(other)
  {
  }

  /**
   * `isCurrentUser()`: compares with the session's `userID` getter (which may
   * load the keychain first); false when the session has no id.
   */
  method IsCurrentUser(u: User, session: UserSession) returns (current: bool)
    modifies session
    ensures var (s, id) := GetUserID(old(session.State()));
      && session.State() == s
      && (current <==> id == Some(u.userID))
      && (id.None? ==> !current)
  {
    var id := session.UserID();
    current := id == Some(u.userID);
  }
}
