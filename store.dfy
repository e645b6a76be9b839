/**
 * The backend's persistence: the three tables, the writes the request
 * handlers make to them (each one a validated `save`, `create` or
 * `update_attributes`), and the invariants every write keeps. The writes are
 * given as functions from one store to the next, and `Tables` is the store
 * the handlers update in place, each of its methods tied to one of those
 * functions.
 */
module Store {
  import opened Wrappers
  import opened Rows
  import opened UserModel
  import opened EventModel
  import opened AttendanceModel

  // ---------------------------------------------------------------------------
  // Invariants of the stored tables
  // ---------------------------------------------------------------------------

  /** Ids are assigned 1, 2, 3, ... in insertion order and rows are never deleted. */
  predicate SequentialIds(db: Db) {
    && (forall i :: 0 <= i < |db.users| ==> db.users[i].id == i + 1)
    && (forall i :: 0 <= i < |db.events| ==> db.events[i].id == i + 1)
    && (forall i :: 0 <= i < |db.attendances| ==> db.attendances[i].id == i + 1)
  }

  /** No two stored users share an auth token (the unique index on `users.auth_token`). */
  predicate UniqueAuthTokens(users: seq<UserRow>) {
    forall i, j :: 0 <= i < j < |users| ==> users[i].authToken != users[j].authToken
  }

  /** At most one attendance per (event, user) (the unique index on `[event_id, user_id]`). */
  predicate UniquePairs(attendances: seq<AttendanceRow>) {
    forall i, j :: 0 <= i < j < |attendances| ==>
      attendances[i].eventId != attendances[j].eventId || attendances[i].userId != attendances[j].userId
  }

  /** Every stored owner and attendance points at a stored row. */
  predicate References(db: Db) {
    && (forall e :: e in db.events ==> 1 <= e.userId <= |db.users|)
    && (forall a :: a in db.attendances ==> 1 <= a.eventId <= |db.events| && 1 <= a.userId <= |db.users|)
  }

  /** Only events that passed validation are stored. */
  predicate StoredEventsComplete(events: seq<EventRow>) {
    forall e :: e in events ==> Complete(e.attrs)
  }

  predicate Consistent(db: Db) {
    && SequentialIds(db)
    && UniqueAuthTokens(db.users)
    && UniquePairs(db.attendances)
    && References(db)
    && StoredEventsComplete(db.events)
  }

  /** `db'` keeps every user row of `db` as it was, at the same place: tokens are never rotated. */
  predicate UsersKept(db: Db, db': Db) {
    |db.users| <= |db'.users| && db'.users[..|db.users|] == db.users
  }

  // ---------------------------------------------------------------------------
  // The writes, as functions from store to store
  // ---------------------------------------------------------------------------

  /**
   * `record.save` for a user record that is not stored yet: the
   * before-validation callback gives it a token, then the token must be
   * unused; on success the row is inserted under the next id.
   */
  function SaveNewUser(db: Db, fields: UserFields, uuid: string): (r: (Db, seq<string>))
    ensures r.1 == [] <==> !TokenInUse(db.users, WithAuthToken(fields, uuid).authToken.value)
    ensures r.1 != [] ==> r.0 == db
    ensures r.1 == [] ==> UsersKept(db, r.0) && |r.0.users| == |db.users| + 1
    ensures r.0.events == db.events && r.0.attendances == db.attendances
  {
    var f := WithAuthToken(fields, uuid);
    var errors := UserErrors(db.users, f.authToken.value);
    if errors == [] then (db.(users := db.users + [UserRow(|db.users| + 1, f.authToken.value, f.deviceToken)]), [])
    else (db, errors)
  }

  /**
   * `User.find_or_create_by(device_token: deviceToken)`: the first user with
   * that device token, or a new user carrying it. `uuid` is the fresh token
   * the new user's callback draws.
   */
  function ResolveOwner(db: Db, deviceToken: Option<string>, uuid: string): (r: (Db, UserRow))
    requires !TokenInUse(db.users, uuid)
    ensures r.1 in r.0.users && r.1.deviceToken == deviceToken
    ensures UsersKept(db, r.0) && |r.0.users| <= |db.users| + 1
    ensures r.0.events == db.events && r.0.attendances == db.attendances
  {
    match UserByDeviceToken(db.users, deviceToken)
    case Some(u) => (db, u)
    case None =>
      var saved := SaveNewUser(db, UserFields(None, None, deviceToken), uuid).0;
      (saved, saved.users[|db.users|])
  }

  /** `Event.new(attributes).save` with `owner` assigned: the new event's id, or the validation errors. */
  function CreateEvent(db: Db, attrs: EventAttrs, owner: UserRow): (r: (Db, Result<nat, seq<string>>))
    ensures r.1.Success? <==> Complete(attrs)
    ensures r.1.Failure? ==> r.0 == db && r.1.error == EventErrors(attrs)
    ensures r.1.Success? ==> |r.0.events| == r.1.value == |db.events| + 1 && r.0.events[..|db.events|] == db.events
    ensures r.0.users == db.users && r.0.attendances == db.attendances
  {
    var errors := EventErrors(attrs);
    if errors == [] then
      (db.(events := db.events + [EventRow(|db.events| + 1, attrs, owner.id)]), Success(|db.events| + 1))
    else (db, Failure(errors))
  }

  /** `event.update_attributes(attributes)` with `owner` assigned, on the stored event `id`. */
  function ReplaceEvent(db: Db, id: nat, attrs: EventAttrs, owner: UserRow): (r: (Db, seq<string>))
    requires 1 <= id <= |db.events|
    ensures r.1 == [] <==> Complete(attrs)
    ensures r.1 != [] ==> r.0 == db
    ensures |r.0.events| == |db.events|
    ensures forall i :: 0 <= i < |db.events| && i != id - 1 ==> r.0.events[i] == db.events[i]
    ensures r.0.users == db.users && r.0.attendances == db.attendances
  {
    var errors := EventErrors(attrs);
    if errors == [] then (db.(events := db.events[id - 1 := EventRow(id, attrs, owner.id)]), [])
    else (db, errors)
  }

  /** `Attendance.create(event: event, user: user)`: inserted under the next id when valid. */
  function Rsvp(db: Db, event: Option<EventRow>, user: Option<UserRow>): (r: (Db, seq<string>))
    ensures r.1 == [] <==> event.Some? && user.Some? && !Taken(db.attendances, event.value.id, user.value.id)
    ensures r.1 != [] ==> r.0 == db
    ensures r.1 == [] ==> |r.0.attendances| == |db.attendances| + 1
    ensures r.0.users == db.users && r.0.events == db.events
  {
    var errors := AttendanceErrors(db.attendances, event, user);
    if errors == [] then
      (db.(attendances := db.attendances + [AttendanceRow(|db.attendances| + 1, event.value.id, user.value.id)]), [])
    else (db, errors)
  }

  // ---------------------------------------------------------------------------
  // Users
  // ---------------------------------------------------------------------------

  /**
   * Saving a new user fails exactly when its token is already stored, and
   * then stores nothing; otherwise it adds exactly one row, with that token
   * and the record's device token, and leaves the other tables alone.
   */
  lemma SaveNewUserOutcome(db: Db, fields: UserFields, uuid: string)
    ensures var token := WithAuthToken(fields, uuid).authToken.value;
      var (db', errors) := SaveNewUser(db, fields, uuid);
      && (errors == [] <==> !TokenInUse(db.users, token))
      && (errors != [] ==> db' == db && errors == [AuthTokenTaken])
      && (errors == [] ==>
            && |db'.users| == |db.users| + 1
            && db'.users[|db.users|].authToken == token
            && db'.users[|db.users|].deviceToken == fields.deviceToken
            && db'.events == db.events && db'.attendances == db.attendances)
      && UsersKept(db, db')
  {
    var f := WithAuthToken(fields, uuid);
    assert (db.users + [UserRow(|db.users| + 1, f.authToken.value, f.deviceToken)])[..|db.users|] == db.users;
  }

  /** A user record that already carries a token is saved under that token, not a fresh one. */
  lemma SaveKeepsGivenToken(db: Db, fields: UserFields, uuid: string)
    requires fields.authToken.Some?
    requires SaveNewUser(db, fields, uuid).1 == []
    ensures SaveNewUser(db, fields, uuid).0.users[|db.users|].authToken == fields.authToken.value
  {
  }

  lemma SaveNewUserConsistent(db: Db, fields: UserFields, uuid: string)
    requires Consistent(db)
    ensures Consistent(SaveNewUser(db, fields, uuid).0)
  {
    var (db', errors) := SaveNewUser(db, fields, uuid);
    if errors == [] {
      var token := WithAuthToken(fields, uuid).authToken.value;
      assert !TokenInUse(db.users, token);
      forall i, j | 0 <= i < j < |db'.users|
        ensures db'.users[i].authToken != db'.users[j].authToken
      {
        if j == |db.users| {
          assert db'.users[i] in db.users;
        }
      }
    }
  }

  /**
   * Creation is not idempotent: two successful saves in a row store two
   * different users, with different ids and different tokens.
   */
  lemma TwoSavesTwoUsers(db: Db, uuid1: string, uuid2: string)
    requires SaveNewUser(db, UserFields(None, None, None), uuid1).1 == []
    requires SaveNewUser(SaveNewUser(db, UserFields(None, None, None), uuid1).0, UserFields(None, None, None), uuid2).1 == []
    ensures var db1 := SaveNewUser(db, UserFields(None, None, None), uuid1).0;
      var db2 := SaveNewUser(db1, UserFields(None, None, None), uuid2).0;
      && |db2.users| == |db.users| + 2
      && db2.users[|db.users|].id != db2.users[|db.users| + 1].id
      && db2.users[|db.users|].authToken != db2.users[|db.users| + 1].authToken
  {
    var db1 := SaveNewUser(db, UserFields(None, None, None), uuid1).0;
    assert db1.users[|db.users|] in db1.users;
  }

  // ---------------------------------------------------------------------------
  // Owners
  // ---------------------------------------------------------------------------

  /**
   * The owner carries the requested device token. When a stored user has it,
   * the owner is the first such user and nothing is stored; otherwise exactly
   * one user is added, with that device token, and it is the owner.
   */
  lemma ResolveOwnerOutcome(db: Db, deviceToken: Option<string>, uuid: string)
    requires !TokenInUse(db.users, uuid)
    ensures var (db', owner) := ResolveOwner(db, deviceToken, uuid);
      && owner.deviceToken == deviceToken
      && owner in db'.users
      && UsersKept(db, db')
      && db'.events == db.events && db'.attendances == db.attendances
      && ((exists u :: u in db.users && u.deviceToken == deviceToken) ==>
            db' == db && exists k :: FirstWithDeviceToken(db.users, deviceToken, k) && db.users[k] == owner)
      && ((forall u :: u in db.users ==> u.deviceToken != deviceToken) ==>
            db'.users == db.users + [owner] && owner.authToken == uuid)
  {
    SaveNewUserOutcome(db, UserFields(None, None, deviceToken), uuid);
    var (db', owner) := ResolveOwner(db, deviceToken, uuid);
    if UserByDeviceToken(db.users, deviceToken).None? {
      assert db'.users == db.users + [owner];
      assert owner == db'.users[|db'.users| - 1];
    }
  }

  /** Resolving the same device token again finds the owner just resolved and stores nothing more. */
  lemma ResolveOwnerIdempotent(db: Db, deviceToken: Option<string>, uuid: string, uuid2: string)
    requires !TokenInUse(db.users, uuid)
    requires !TokenInUse(ResolveOwner(db, deviceToken, uuid).0.users, uuid2)
    ensures var (db1, owner) := ResolveOwner(db, deviceToken, uuid);
      ResolveOwner(db1, deviceToken, uuid2) == (db1, owner)
  {
    var (db1, owner) := ResolveOwner(db, deviceToken, uuid);
    ResolveOwnerOutcome(db, deviceToken, uuid);
    if UserByDeviceToken(db.users, deviceToken).None? {
      UserByDeviceTokenAppend(db.users, owner, deviceToken);
    }
  }

  lemma ResolveOwnerConsistent(db: Db, deviceToken: Option<string>, uuid: string)
    requires Consistent(db) && !TokenInUse(db.users, uuid)
    ensures Consistent(ResolveOwner(db, deviceToken, uuid).0)
  {
    SaveNewUserConsistent(db, UserFields(None, None, deviceToken), uuid);
  }

  // ---------------------------------------------------------------------------
  // Events
  // ---------------------------------------------------------------------------

  /**
   * An event is created exactly when lat, lon, name and started_at are all
   * present; then exactly one event is appended, carrying the given
   * attributes and owner, and its id is returned. A failed create stores
   * nothing and returns the messages.
   */
  lemma CreateEventOutcome(db: Db, attrs: EventAttrs, owner: UserRow)
    ensures var (db', r) := CreateEvent(db, attrs, owner);
      && (r.Success? <==> Complete(attrs))
      && (r.Failure? ==> db' == db && r.error == EventErrors(attrs) && r.error != [])
      && (r.Success? ==>
            && db'.events == db.events + [EventRow(r.value, attrs, owner.id)]
            && r.value == |db.events| + 1
            && db'.users == db.users && db'.attendances == db.attendances)
  {
  }

  lemma CreateEventConsistent(db: Db, attrs: EventAttrs, owner: UserRow)
    requires Consistent(db) && owner in db.users
    ensures Consistent(CreateEvent(db, attrs, owner).0)
  {
    var db' := CreateEvent(db, attrs, owner).0;
    var k :| 0 <= k < |db.users| && db.users[k] == owner;
    assert forall a :: a in db'.attendances ==> a in db.attendances;
  }

  /**
   * A valid update replaces every attribute of the targeted event (absent
   * params are stored as nil) and its owner, keeps its id, and touches no
   * other row; an invalid one stores nothing.
   */
  lemma ReplaceEventOutcome(db: Db, id: nat, attrs: EventAttrs, owner: UserRow)
    requires 1 <= id <= |db.events|
    ensures var (db', errors) := ReplaceEvent(db, id, attrs, owner);
      && (errors == [] <==> Complete(attrs))
      && (errors != [] ==> db' == db && errors == EventErrors(attrs))
      && (errors == [] ==>
            && db'.events[id - 1] == EventRow(id, attrs, owner.id)
            && |db'.events| == |db.events|
            && (forall k :: 0 <= k < |db.events| && k != id - 1 ==> db'.events[k] == db.events[k])
            && db'.users == db.users && db'.attendances == db.attendances)
  {
  }

  lemma ReplaceEventConsistent(db: Db, id: nat, attrs: EventAttrs, owner: UserRow)
    requires Consistent(db) && 1 <= id <= |db.events| && owner in db.users
    ensures Consistent(ReplaceEvent(db, id, attrs, owner).0)
  {
    var db' := ReplaceEvent(db, id, attrs, owner).0;
    var k :| 0 <= k < |db.users| && db.users[k] == owner;
    forall e | e in db'.events
      ensures 1 <= e.userId <= |db'.users| && Complete(e.attrs)
    {
      var i :| 0 <= i < |db'.events| && db'.events[i] == e;
      if i != id - 1 {
        assert db.events[i] in db.events;
      }
    }
  }

  // ---------------------------------------------------------------------------
  // Attendances
  // ---------------------------------------------------------------------------

  /** How many attendances join this event and this user. */
  function PairCount(attendances: seq<AttendanceRow>, eventId: nat, userId: nat): nat {
    if attendances == [] then 0
    else
      var last := attendances[|attendances| - 1];
      PairCount(attendances[..|attendances| - 1], eventId, userId) +
      (if last.eventId == eventId && last.userId == userId then 1 else 0)
  }

  /** With unique pairs, a pair is counted once when it is stored and not at all otherwise. */
  lemma {:induction false} PairCountUnique(attendances: seq<AttendanceRow>, eventId: nat, userId: nat)
    requires UniquePairs(attendances)
    ensures PairCount(attendances, eventId, userId) == if Taken(attendances, eventId, userId) then 1 else 0
  {
    if attendances != [] {
      var n := |attendances| - 1;
      var init := attendances[..n];
      var last := attendances[n];
      assert attendances == init + [last];
      UniquePairsInit(init, last);
      PairCountUnique(init, eventId, userId);
      TakenSnoc(init, last, eventId, userId);
    }
  }

  /** A pair is taken after appending `last` iff it was taken before or `last` joins it. */
  lemma TakenSnoc(init: seq<AttendanceRow>, last: AttendanceRow, eventId: nat, userId: nat)
    ensures Taken(init + [last], eventId, userId) <==>
      Taken(init, eventId, userId) || (last.eventId == eventId && last.userId == userId)
  {
    if Taken(init + [last], eventId, userId) {
      var a :| a in init + [last] && a.eventId == eventId && a.userId == userId;
      assert a in init || a == last;
    }
    if Taken(init, eventId, userId) {
      var a :| a in init && a.eventId == eventId && a.userId == userId;
      assert a in init + [last];
    }
    assert last in init + [last];
  }

  /** A prefix of unique pairs is unique, and does not take the pair of the row after it. */
  lemma UniquePairsInit(init: seq<AttendanceRow>, last: AttendanceRow)
    requires UniquePairs(init + [last])
    ensures UniquePairs(init)
    ensures !Taken(init, last.eventId, last.userId)
  {
    var all := init + [last];
    assert forall k :: 0 <= k < |init| ==> all[k] == init[k];
    assert all[|init|] == last;
    assert forall a :: a in init ==> a.eventId != last.eventId || a.userId != last.userId;
  }

  /**
   * An RSVP is stored exactly when there is an event, a user, and no
   * attendance for that pair yet; it only ever adds one attendance and
   * touches no other table.
   */
  lemma RsvpOutcome(db: Db, event: Option<EventRow>, user: Option<UserRow>)
    ensures var (db', errors) := Rsvp(db, event, user);
      && (errors == [] <==> event.Some? && user.Some? && !Taken(db.attendances, event.value.id, user.value.id))
      && (errors != [] ==> db' == db)
      && (errors == [] ==> db'.attendances == db.attendances + [AttendanceRow(|db.attendances| + 1, event.value.id, user.value.id)])
      && db'.users == db.users && db'.events == db.events
  {
  }

  lemma RsvpConsistent(db: Db, event: EventRow, user: UserRow)
    requires Consistent(db) && event in db.events && user in db.users
    ensures Consistent(Rsvp(db, Some(event), Some(user)).0)
  {
    if !Taken(db.attendances, event.id, user.id) {
      var i :| 0 <= i < |db.events| && db.events[i] == event;
      var j :| 0 <= j < |db.users| && db.users[j] == user;
      AppendAttendanceConsistent(db, AttendanceRow(|db.attendances| + 1, event.id, user.id));
    }
  }

  /** Appending an attendance for a new pair of stored rows, under the next id, keeps the invariant. */
  lemma AppendAttendanceConsistent(db: Db, row: AttendanceRow)
    requires Consistent(db) && row.id == |db.attendances| + 1
    requires 1 <= row.eventId <= |db.events| && 1 <= row.userId <= |db.users|
    requires !Taken(db.attendances, row.eventId, row.userId)
    ensures Consistent(db.(attendances := db.attendances + [row]))
  {
    UniquePairsSnoc(db.attendances, row);
    var db' := db.(attendances := db.attendances + [row]);
    assert forall a :: a in db'.attendances ==> a in db.attendances || a == row;
  }

  /** A row for a pair not yet taken keeps the pairs unique. */
  lemma UniquePairsSnoc(attendances: seq<AttendanceRow>, row: AttendanceRow)
    requires UniquePairs(attendances) && !Taken(attendances, row.eventId, row.userId)
    ensures UniquePairs(attendances + [row])
  {
    var longer := attendances + [row];
    forall p, q | 0 <= p < q < |longer|
      ensures longer[p].eventId != longer[q].eventId || longer[p].userId != longer[q].userId
    {
      assert longer[p] == attendances[p];
      if q == |attendances| {
        assert attendances[p] in attendances;
      } else {
        assert longer[q] == attendances[q];
      }
    }
  }

  /**
   * After an RSVP for a stored event and a stored user, exactly one
   * attendance joins them, whether or not one already did.
   */
  lemma RsvpLeavesExactlyOne(db: Db, event: EventRow, user: UserRow)
    requires Consistent(db) && event in db.events && user in db.users
    ensures PairCount(Rsvp(db, Some(event), Some(user)).0.attendances, event.id, user.id) == 1
  {
    var db' := Rsvp(db, Some(event), Some(user)).0;
    RsvpConsistent(db, event, user);
    PairCountUnique(db'.attendances, event.id, user.id);
    if !Taken(db.attendances, event.id, user.id) {
      assert db'.attendances[|db.attendances|] in db'.attendances;
    } else {
      assert db' == db;
    }
  }

  /** Posting the same RSVP twice is the same as posting it once. */
  lemma RsvpIdempotent(db: Db, event: Option<EventRow>, user: Option<UserRow>)
    ensures var db1 := Rsvp(db, event, user).0;
      Rsvp(db1, event, user).0 == db1
  {
    var (db1, errors) := Rsvp(db, event, user);
    if errors == [] {
      assert db1.attendances[|db.attendances|] in db1.attendances;
    }
  }

  /** Without a user (an auth token that matched nobody) nothing is stored. */
  lemma RsvpWithoutUserStoresNothing(db: Db, event: Option<EventRow>)
    ensures Rsvp(db, event, None) == (db, AttendanceErrors(db.attendances, event, None))
    ensures UserBlank in Rsvp(db, event, None).1
  {
  }

  // ---------------------------------------------------------------------------
  // The store the handlers update in place
  // ---------------------------------------------------------------------------

  class Tables {
    var users: seq<UserRow>
    var events: seq<EventRow>
    var attendances: seq<AttendanceRow>

    function Contents(): Db
      reads this
    {
      Db(users, events, attendances)
    }

    predicate Valid()
      reads this
    {
      Consistent(Contents())
    }

    /** An empty database. */
    constructor ()
      ensures Contents() == Db([], [], []) && Valid()
    {
      users := [];
      events := [];
      attendances := [];
    }

    /** `record.save` for a new user record: on success the record learns its id. */
    method Save(record: UserRecord, uuid: string) returns (errors: seq<string>)
      requires Valid() && record.id.None?
      modifies this, record
      ensures Valid()
      ensures (Contents(), errors) == SaveNewUser(old(Contents()), old(record.Fields()), uuid)
      ensures record.Fields() ==
        if errors == [] then WithAuthToken(old(record.Fields()), uuid).(id := Some(|old(users)| + 1))
        else WithAuthToken(old(record.Fields()), uuid)
    {
      SaveNewUserConsistent(Contents(), record.Fields(), uuid);
      record.SetAuthToken(uuid);
      var token := record.authToken.value;
      errors := UserErrors(users, token);
      if errors == [] {
        var id := |users| + 1;
        users := users + [UserRow(id, token, record.deviceToken)];
        record.id := Some(id);
      }
    }

    /** `User.find_or_create_by(device_token: deviceToken)`, with `uuid` the token a new user would draw. */
    method FindOrCreateByDeviceToken(deviceToken: Option<string>, uuid: string) returns (owner: UserRow)
      requires Valid() && !TokenInUse(users, uuid)
      modifies this
      ensures Valid()
      ensures (Contents(), owner) == ResolveOwner(old(Contents()), deviceToken, uuid)
      ensures owner in users
    {
      ResolveOwnerConsistent(Contents(), deviceToken, uuid);
      ResolveOwnerOutcome(Contents(), deviceToken, uuid);
      var found := UserByDeviceToken(users, deviceToken);
      if found.Some? {
        owner := found.value;
      } else {
        var record := new UserRecord(deviceToken);
        var errors := Save(record, uuid);
        owner := UserRow(record.id.value, record.authToken.value, record.deviceToken);
      }
    }

    /** `Event.new(attributes)` with `owner`, then `save`. */
    method SaveEvent(attrs: EventAttrs, owner: UserRow) returns (r: Result<nat, seq<string>>)
      requires Valid() && owner in users
      modifies this
      ensures Valid()
      ensures (Contents(), r) == CreateEvent(old(Contents()), attrs, owner)
    {
      CreateEventConsistent(Contents(), attrs, owner);
      var errors := EventErrors(attrs);
      if errors == [] {
        events := events + [EventRow(|events| + 1, attrs, owner.id)];
        r := Success(|events|);
      } else {
        r := Failure(errors);
      }
    }

    /** `event.update_attributes(attributes)` with `owner`, on the stored event `id`. */
    method UpdateAttributes(id: nat, attrs: EventAttrs, owner: UserRow) returns (errors: seq<string>)
      requires Valid() && 1 <= id <= |events| && owner in users
      modifies this
      ensures Valid()
      ensures (Contents(), errors) == ReplaceEvent(old(Contents()), id, attrs, owner)
    {
      ReplaceEventConsistent(Contents(), id, attrs, owner);
      errors := EventErrors(attrs);
      if errors == [] {
        events := events[id - 1 := EventRow(id, attrs, owner.id)];
      }
    }

    /** `Attendance.create(event: event, user: user)` for a stored event and a resolved (or nil) user. */
    method CreateAttendance(event: EventRow, user: Option<UserRow>) returns (errors: seq<string>)
      requires Valid() && event in events && (user.Some? ==> user.value in users)
      modifies this
      ensures Valid()
      ensures (Contents(), errors) == Rsvp(old(Contents()), Some(event), user)
    {
      if user.Some? {
        RsvpConsistent(Contents(), event, user.value);
      }
      errors := AttendanceErrors(attendances, Some(event), user);
      if errors == [] {
        attendances := attendances + [AttendanceRow(|attendances| + 1, event.id, user.value.id)];
      }
    }
  }
}
