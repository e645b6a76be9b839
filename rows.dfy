/**
 * The backend's three tables as rows, and the lookups ActiveRecord performs on
 * them (`find`, `find_by`). Ids are assigned from 1 upwards and rows are never
 * deleted.
 */
module Rows {
  import opened Wrappers

  /** A float column (lat, lon): stored and returned, never computed with. */
  type Degrees = real

  /** A datetime column. */
  datatype Time = Time(instant: int)

  /** A row of `users`. Every stored user has an auth token (the callback sets one before saving). */
  datatype UserRow = UserRow(id: nat, authToken: string, deviceToken: Option<string>)

  /** The attributes `event_params` assigns: every one of them may be nil. */
  datatype EventAttrs = EventAttrs(
    address: Option<string>,
    endedAt: Option<Time>,
    lat: Option<Degrees>,
    lon: Option<Degrees>,
    name: Option<string>,
    startedAt: Option<Time>)

  /** A row of `events`; `userId` is the owner's id. */
  datatype EventRow = EventRow(id: nat, attrs: EventAttrs, userId: nat)

  /** A row of `attendances`, joining one user to one event. */
  datatype AttendanceRow = AttendanceRow(id: nat, eventId: nat, userId: nat)

  /** The whole store. */
  datatype Db = Db(users: seq<UserRow>, events: seq<EventRow>, attendances: seq<AttendanceRow>)

  /** `User.find_by(id: id)`. */
  function UserById(users: seq<UserRow>, id: nat): (r: Option<UserRow>)
    ensures r.Some? <==> exists u :: u in users && u.id == id
    ensures r.Some? ==> r.value in users && r.value.id == id
  {
    if users == [] then None
    else if users[0].id == id then Some(users[0])
    else UserById(users[1..], id)
  }

  /** `User.find_by(auth_token: token)`. */
  function UserByAuthToken(users: seq<UserRow>, token: string): (r: Option<UserRow>)
    ensures r.Some? <==> exists u :: u in users && u.authToken == token
    ensures r.Some? ==> r.value in users && r.value.authToken == token
  {
    if users == [] then None
    else if users[0].authToken == token then Some(users[0])
    else UserByAuthToken(users[1..], token)
  }

  /** `users[k]` is the first user whose device token equals the given one. */
  predicate FirstWithDeviceToken(users: seq<UserRow>, deviceToken: Option<string>, k: int) {
    && 0 <= k < |users|
    && users[k].deviceToken == deviceToken
    && forall j :: 0 <= j < k ==> users[j].deviceToken != deviceToken
  }

  /**
   * `User.find_by(device_token: deviceToken)`: the first user in id order
   * whose device token equals the given one; a nil token matches the users
   * that have none.
   */
  function UserByDeviceToken(users: seq<UserRow>, deviceToken: Option<string>): (r: Option<UserRow>)
    ensures r.None? <==> forall u :: u in users ==> u.deviceToken != deviceToken
    ensures r.Some? ==> r.value.deviceToken == deviceToken
    ensures r.Some? ==> exists k :: FirstWithDeviceToken(users, deviceToken, k) && users[k] == r.value
  {
    if users == [] then None
    else if users[0].deviceToken == deviceToken then Some(users[0])
    else
      var r := UserByDeviceToken(users[1..], deviceToken);
      assert r.Some? ==> FirstWithDeviceToken(users, deviceToken, 0) || exists k :: FirstWithDeviceToken(users, deviceToken, k) && users[k] == r.value by {
        if r.Some? {
          var k :| FirstWithDeviceToken(users[1..], deviceToken, k) && users[1..][k] == r.value;
          assert forall j :: 1 <= j < k + 1 ==> users[j] == users[1..][j - 1];
          assert FirstWithDeviceToken(users, deviceToken, k + 1);
        }
      }
      r
  }

  /** Appending a row does not change which user is found first when one already matches. */
  lemma {:induction false} UserByDeviceTokenAppend(users: seq<UserRow>, row: UserRow, deviceToken: Option<string>)
    ensures UserByDeviceToken(users + [row], deviceToken) ==
      if UserByDeviceToken(users, deviceToken).Some? then UserByDeviceToken(users, deviceToken)
      else if row.deviceToken == deviceToken then Some(row) else None
  {
    if users == [] {
      assert users + [row] == [row];
      assert [row][1..] == [];
    } else {
      assert (users + [row])[0] == users[0];
      assert (users + [row])[1..] == users[1..] + [row];
      UserByDeviceTokenAppend(users[1..], row, deviceToken);
    }
  }

  /** `Event.find(id)`, without the exception: None when no event has that id. */
  function EventById(events: seq<EventRow>, id: nat): (r: Option<EventRow>)
    ensures r.Some? <==> exists e :: e in events && e.id == id
    ensures r.Some? ==> r.value in events && r.value.id == id
  {
    if events == [] then None
    else if events[0].id == id then Some(events[0])
    else EventById(events[1..], id)
  }
}
