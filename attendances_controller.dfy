/**
 * `POST /v1/attendances`: behind the auth-token gate, records that the
 * acting user attends the event named by `params[:event][:id]`.
 */
module AttendancesController {
  import opened Wrappers
  import opened Rows
  import opened AttendanceModel
  import opened Store
  import opened ApiController

  /**
   * The whole request: 401 without a token; inside the block, `Event.find`
   * answers 404 for an unknown event; otherwise `Attendance.create` runs with
   * the resolved user (nil for a token nobody has) and its outcome is not
   * reported. `eventId` is `params[:event][:id]`.
   */
  function CreateAttendanceRequest(db: Db, headers: map<string, string>, eventId: nat): (r: (Db, Response))
    ensures r.1.status == 401 <==> AuthTokenHeader !in headers
    ensures r.1.status == 200 || r.1.status == 401 || r.1.status == 404
    ensures r.1.status != 200 ==> r.0 == db
    ensures r.0.users == db.users && r.0.events == db.events
  {
    match Authorized(db.users, Header(headers, AuthTokenHeader))
    case Halted(response) => (db, response)
    case Proceed(user) =>
      match EventById(db.events, eventId)
      case None => (db, Response(404, NoBody))
      case Some(event) => (Rsvp(db, Some(event), user).0, Response(200, NoBody))
  }

  /** `Api::V1::AttendancesController#create`. */
  method Create(request: Request, store: Tables, eventId: nat) returns (response: Response)
    requires request.Valid() && store.Valid()
    modifies request, store
    ensures request.Valid() && store.Valid()
    ensures (store.Contents(), response) == CreateAttendanceRequest(old(store.Contents()), request.headers, eventId)
  {
    var authorization := Authorize(request, store);
    if authorization.Halted? {
      response := authorization.response;
      return;
    }
    var found := EventById(store.events, eventId);
    if found.None? {
      response := Response(404, NoBody);
      return;
    }
    var errors := store.CreateAttendance(found.value, authorization.user);
    response := Response(200, NoBody);
  }

  /** Without a `tb-auth-token` header the answer is 401 and nothing is stored. */
  lemma NoTokenIsUnauthorized(db: Db, headers: map<string, string>, eventId: nat)
    requires AuthTokenHeader !in headers
    ensures CreateAttendanceRequest(db, headers, eventId) == (db, Response(401, NoBody))
  {
  }

  /** An unknown event is not found and nothing is stored. */
  lemma UnknownEventIsNotFound(db: Db, headers: map<string, string>, eventId: nat)
    requires AuthTokenHeader in headers
    requires forall e :: e in db.events ==> e.id != eventId
    ensures CreateAttendanceRequest(db, headers, eventId) == (db, Response(404, NoBody))
  {
  }

  /** A token that matches no user resolves to nil, so validation fails and nothing is stored. */
  lemma UnknownTokenStoresNothing(db: Db, headers: map<string, string>, eventId: nat)
    requires AuthTokenHeader in headers
    requires forall u :: u in db.users ==> u.authToken != headers[AuthTokenHeader]
    ensures CreateAttendanceRequest(db, headers, eventId).0 == db
  {
  }

  /** Whatever happens, only the attendances table can change. */
  lemma OnlyAttendancesChange(db: Db, headers: map<string, string>, eventId: nat)
    ensures var db' := CreateAttendanceRequest(db, headers, eventId).0;
      db'.users == db.users && db'.events == db.events
  {
    var a := Authorized(db.users, Header(headers, AuthTokenHeader));
    if a.Proceed? && EventById(db.events, eventId).Some? {
      RsvpOutcome(db, EventById(db.events, eventId), a.user);
    }
  }

  /**
   * A known event and a token that resolves to a stored user leave exactly
   * one attendance joining them, however many there were before.
   */
  lemma KnownPairLeavesOne(db: Db, headers: map<string, string>, eventId: nat, user: UserRow)
    requires Consistent(db)
    requires AuthTokenHeader in headers && user in db.users && user.authToken == headers[AuthTokenHeader]
    requires exists e :: e in db.events && e.id == eventId
    ensures var (db', response) := CreateAttendanceRequest(db, headers, eventId);
      && response == Response(200, NoBody)
      && PairCount(db'.attendances, eventId, user.id) == 1
  {
    var event := EventById(db.events, eventId).value;
    var found := UserByAuthToken(db.users, user.authToken).value;
    assert found == user by {
      var i :| 0 <= i < |db.users| && db.users[i] == found;
      var j :| 0 <= j < |db.users| && db.users[j] == user;
      assert i == j;
    }
    RsvpLeavesExactlyOne(db, event, user);
  }

  /** Posting the same RSVP twice leaves the store as posting it once; the repeat is a silent no-op. */
  lemma RepeatIsNoOp(db: Db, headers: map<string, string>, eventId: nat)
    ensures var (db1, response1) := CreateAttendanceRequest(db, headers, eventId);
      CreateAttendanceRequest(db1, headers, eventId) == (db1, response1)
  {
    var (db1, response1) := CreateAttendanceRequest(db, headers, eventId);
    OnlyAttendancesChange(db, headers, eventId);
    var a := Authorized(db.users, Header(headers, AuthTokenHeader));
    if a.Proceed? && EventById(db.events, eventId).Some? {
      RsvpIdempotent(db, EventById(db.events, eventId), a.user);
    }
  }
}
