/**
 * The User model: an in-memory record whose `set_auth_token` callback runs
 * before validation, and the uniqueness rule on `auth_token` that the unique
 * index on `users.auth_token` backs.
 */
module UserModel {
  import opened Wrappers
  import opened Rows

  /** The fields of a user record, saved or not (`id` is nil until it is saved). */
  datatype UserFields = UserFields(id: Option<nat>, authToken: Option<string>, deviceToken: Option<string>)

  /**
   * `self.auth_token ||= SecureRandom.uuid`: a record without a token gets
   * `uuid` (the fresh value the generator returns); a record that has one,
   * even an empty one, keeps it. Nothing else is touched.
   */
  function WithAuthToken(f: UserFields, uuid: string): (r: UserFields)
    ensures r.authToken.Some?
    ensures f.authToken.Some? ==> r == f
    ensures f.authToken.None? ==> r.authToken == Some(uuid)
    ensures r.id == f.id && r.deviceToken == f.deviceToken
  {
    if f.authToken.Some? then f else f.(authToken := Some(uuid))
  }

  /** Running the callback a second time, whatever uuid it would draw, changes nothing. */
  lemma SetAuthTokenIdempotent(f: UserFields, uuid: string, later: string)
    ensures WithAuthToken(WithAuthToken(f, uuid), later) == WithAuthToken(f, uuid)
  {
  }

  /** A user record as ActiveRecord holds it in memory. */
  class UserRecord {
    var id: Option<nat>
    var authToken: Option<string>
    var deviceToken: Option<string>

    /** `User.new(device_token: deviceToken)`. */
    constructor (deviceToken: Option<string>)
      ensures Fields() == UserFields(None, None, deviceToken)
    {
      id := None;
      authToken := None;
      this.deviceToken := deviceToken;
    }

    function Fields(): UserFields
      reads this
    {
      UserFields(id, authToken, deviceToken)
    }

    /** The `before_validation :set_auth_token` callback. */
    method SetAuthToken(uuid: string)
      modifies this
      ensures Fields() == WithAuthToken(old(Fields()), uuid)
    {
      if authToken.None? {
        authToken := Some(uuid);
      }
    }
  }

  const AuthTokenTaken: string := "Auth token has already been taken"

  predicate TokenInUse(users: seq<UserRow>, token: string) {
    exists u :: u in users && u.authToken == token
  }

  /** The errors saving a user with `token` meets: its token must not be stored already. */
  function UserErrors(users: seq<UserRow>, token: string): (errors: seq<string>)
    ensures errors == [] <==> !TokenInUse(users, token)
    ensures errors != [] ==> errors == [AuthTokenTaken]
  {
    if UserByAuthToken(users, token).Some? then [AuthTokenTaken] else []
  }
}
