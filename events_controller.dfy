/**
 * `POST /v1/events`, `GET /v1/events/:id` and `PATCH /v1/events/:id`. The
 * owner of a created or updated event is found, or created, by the device
 * token under `params[:owner]`; the request's auth token plays no part.
 */
module EventsController {
  import opened Wrappers
  import opened Rows
  import opened UserModel
  import opened EventModel
  import opened Store
  import opened ApiController

  /** `params[:owner]`, when the request has one. */
  datatype OwnerParams = OwnerParams(deviceToken: Option<string>)

  /** The request parameters the controller reads, each nil when absent. */
  datatype EventParams = EventParams(
    address: Option<string>,
    endedAt: Option<Time>,
    lat: Option<Degrees>,
    lon: Option<Degrees>,
    name: Option<string>,
    startedAt: Option<Time>,
    owner: Option<OwnerParams>)

  /** `device_token`: `params[:owner].try(:[], :device_token)`, nil without an owner hash. */
  function DeviceToken(p: EventParams): (r: Option<string>)
    ensures p.owner.None? ==> r.None?
    ensures p.owner.Some? ==> r == p.owner.value.deviceToken
  {
    match p.owner
    case None => None
    case Some(o) => o.deviceToken
  }

  /**
   * The attributes of `event_params`: every attribute is assigned, an absent
   * parameter as nil, so an update replaces the whole event rather than
   * merging into it.
   */
  function Attributes(p: EventParams): (a: EventAttrs)
    ensures a.address == p.address && a.endedAt == p.endedAt && a.name == p.name
    ensures a.lat == p.lat && a.lon == p.lon && a.startedAt == p.startedAt
  {
    EventAttrs(p.address, p.endedAt, p.lat, p.lon, p.name, p.startedAt)
  }

  /** The rendering of a save or update outcome: the event's id, or 422 with the messages. */
  function Rendered(id: nat, errors: seq<string>): Response {
    if errors == [] then Response(200, EventId(id))
    else Response(422, ValidationFailed(ValidationFailedMessage, errors))
  }

  /**
   * `create`: building `event_params` resolves the owner first (the
   * find-or-create can store a user even when the event is then invalid),
   * then the event is saved. `uuid` is the token a created owner draws.
   */
  function CreateEventRequest(db: Db, p: EventParams, uuid: string): (r: (Db, Response))
    requires !TokenInUse(db.users, uuid)
    ensures r.1.status == 200 <==> Complete(Attributes(p))
    ensures r.1.status == 200 || r.1.status == 422
    ensures r.1.status == 422 ==> r.0.events == db.events
    ensures UsersKept(db, r.0) && |r.0.users| <= |db.users| + 1
    ensures r.0.attendances == db.attendances
  {
    var (db1, owner) := ResolveOwner(db, DeviceToken(p), uuid);
    var (db2, r) := CreateEvent(db1, Attributes(p), owner);
    match r
    case Success(id) => (db2, Rendered(id, []))
    case Failure(errors) => (db2, Rendered(0, errors))
  }

  /** `show`: `Event.find` answers 404 for an unknown id; otherwise the event is rendered. */
  function ShowEventRequest(db: Db, id: nat): (response: Response)
    ensures response.status == 404 <==> forall e :: e in db.events ==> e.id != id
    ensures response.status != 404 ==>
      response.status == 200 && response.body.EventShown? &&
      response.body.event in db.events && response.body.event.id == id
  {
    match EventById(db.events, id)
    case None => Response(404, NoBody)
    case Some(e) => Response(200, EventShown(e))
  }

  /**
   * `update`: `Event.find` first (404 for an unknown id, before any owner is
   * resolved), then `update_attributes(event_params)`.
   */
  function UpdateEventRequest(db: Db, id: nat, p: EventParams, uuid: string): (r: (Db, Response))
    requires Consistent(db) && !TokenInUse(db.users, uuid)
    ensures r.1.status == 404 <==> forall e :: e in db.events ==> e.id != id
    ensures r.1.status == 200 || r.1.status == 404 || r.1.status == 422
    ensures r.1.status == 404 ==> r.0 == db
    ensures r.1.status != 200 ==> r.0.events == db.events
    ensures |r.0.events| == |db.events| && r.0.attendances == db.attendances
    ensures UsersKept(db, r.0) && |r.0.users| <= |db.users| + 1
  {
    if EventById(db.events, id).None? then (db, Response(404, NoBody))
    else
      var (db1, owner) := ResolveOwner(db, DeviceToken(p), uuid);
      var (db2, errors) := ReplaceEvent(db1, id, Attributes(p), owner);
      (db2, Rendered(id, errors))
  }

  /** `Api::V1::EventsController#create`. */
  method Create(store: Tables, p: EventParams, uuid: string) returns (response: Response)
    requires store.Valid() && !TokenInUse(store.users, uuid)
    modifies store
    ensures store.Valid()
    ensures (store.Contents(), response) == CreateEventRequest(old(store.Contents()), p, uuid)
  {
    var owner := store.FindOrCreateByDeviceToken(DeviceToken(p), uuid);
    var r := store.SaveEvent(Attributes(p), owner);
    match r
    case Success(id) =>
      response := Response(200, EventId(id));
    case Failure(errors) =>
      response := Response(422, ValidationFailed(ValidationFailedMessage, errors));
  }

  /** `Api::V1::EventsController#show`: reads the store and nothing else. */
  method Show(store: Tables, id: nat) returns (response: Response)
    ensures response == ShowEventRequest(store.Contents(), id)
  {
    var found := EventById(store.events, id);
    if found.None? {
      response := Response(404, NoBody);
    } else {
      response := Response(200, EventShown(found.value));
    }
  }

  /** `Api::V1::EventsController#update`. */
  method Update(store: Tables, id: nat, p: EventParams, uuid: string) returns (response: Response)
    requires store.Valid() && !TokenInUse(store.users, uuid)
    modifies store
    ensures store.Valid()
    ensures (store.Contents(), response) == UpdateEventRequest(old(store.Contents()), id, p, uuid)
  {
    var found := EventById(store.events, id);
    if found.None? {
      response := Response(404, NoBody);
      return;
    }
    var owner := store.FindOrCreateByDeviceToken(DeviceToken(p), uuid);
    var errors := store.UpdateAttributes(id, Attributes(p), owner);
    if errors == [] {
      response := Response(200, EventId(id));
    } else {
      response := Response(422, ValidationFailed(ValidationFailedMessage, errors));
    }
  }

  /**
   * A create with lat, lon, name or started_at blank answers 422 `Validation
   * Failed` with the messages in the order Lat, Lon, Name, Started at, and
   * stores no event; the owner lookup may still have stored one new user.
   */
  lemma CreateInvalidIsRejected(db: Db, p: EventParams, uuid: string)
    requires !TokenInUse(db.users, uuid) && !Complete(Attributes(p))
    ensures var (db', response) := CreateEventRequest(db, p, uuid);
      && response == Response(422, ValidationFailed(ValidationFailedMessage, EventErrors(Attributes(p))))
      && EventErrors(Attributes(p)) != []
      && db'.events == db.events && db'.attendances == db.attendances
      && UsersKept(db, db') && |db'.users| <= |db.users| + 1
  {
    ResolveOwnerOutcome(db, DeviceToken(p), uuid);
    var (db1, owner) := ResolveOwner(db, DeviceToken(p), uuid);
    CreateEventOutcome(db1, Attributes(p), owner);
  }

  /**
   * A valid create stores exactly one event, carrying the given attributes
   * and an owner with the request's device token, and answers with its id.
   */
  lemma CreateValidStoresOne(db: Db, p: EventParams, uuid: string)
    requires !TokenInUse(db.users, uuid) && Complete(Attributes(p))
    ensures var (db', response) := CreateEventRequest(db, p, uuid);
      && response.status == 200 && response.body == EventId(|db.events| + 1)
      && |db'.events| == |db.events| + 1
      && db'.events[..|db.events|] == db.events
      && var e := db'.events[|db.events|];
      && e == EventRow(|db.events| + 1, Attributes(p), e.userId)
      && (exists owner :: owner in db'.users && owner.id == e.userId && owner.deviceToken == DeviceToken(p))
  {
    ResolveOwnerOutcome(db, DeviceToken(p), uuid);
    var (db1, owner) := ResolveOwner(db, DeviceToken(p), uuid);
    CreateEventOutcome(db1, Attributes(p), owner);
    var db' := CreateEventRequest(db, p, uuid).0;
    assert db'.events == db.events + [EventRow(|db.events| + 1, Attributes(p), owner.id)];
    assert db'.users == db1.users;
  }

  /**
   * The owner a request names by device token: the first stored user with
   * that token, so no user is added; a request without an owner hash looks
   * for a user without a device token.
   */
  lemma CreateReusesStoredOwner(db: Db, p: EventParams, uuid: string, k: nat)
    requires !TokenInUse(db.users, uuid) && FirstWithDeviceToken(db.users, DeviceToken(p), k)
    ensures var (db', response) := CreateEventRequest(db, p, uuid);
      && db'.users == db.users
      && (response.status == 200 ==> db'.events[|db.events|].userId == db.users[k].id)
  {
    ResolveOwnerOutcome(db, DeviceToken(p), uuid);
    var (db1, owner) := ResolveOwner(db, DeviceToken(p), uuid);
    var j :| FirstWithDeviceToken(db.users, DeviceToken(p), j) && db.users[j] == owner;
    assert j == k;
    CreateEventOutcome(db1, Attributes(p), owner);
  }

  /** An empty create on an empty database: 422, no event, yet one new user. */
  lemma InvalidCreateStillAddsOwner(uuid: string)
    ensures var p := EventParams(None, None, None, None, None, None, None);
      var (db', response) := CreateEventRequest(Db([], [], []), p, uuid);
      && response.status == 422 && db'.events == [] && |db'.users| == 1
  {
    var p := EventParams(None, None, None, None, None, None, None);
    CreateInvalidIsRejected(Db([], [], []), p, uuid);
    ResolveOwnerOutcome(Db([], [], []), DeviceToken(p), uuid);
  }

  /** Update of an unknown id answers 404 and stores nothing, not even an owner. */
  lemma UpdateUnknownIsNotFound(db: Db, id: nat, p: EventParams, uuid: string)
    requires Consistent(db) && !TokenInUse(db.users, uuid)
    requires forall e :: e in db.events ==> e.id != id
    ensures UpdateEventRequest(db, id, p, uuid) == (db, Response(404, NoBody))
  {
  }

  /**
   * An invalid update answers 422 with the messages and leaves every stored
   * event as it was.
   */
  lemma UpdateInvalidKeepsEvent(db: Db, id: nat, p: EventParams, uuid: string)
    requires Consistent(db) && !TokenInUse(db.users, uuid)
    requires 1 <= id <= |db.events| && !Complete(Attributes(p))
    ensures var (db', response) := UpdateEventRequest(db, id, p, uuid);
      && response == Response(422, ValidationFailed(ValidationFailedMessage, EventErrors(Attributes(p))))
      && db'.events == db.events && db'.attendances == db.attendances
  {
    assert db.events[id - 1] in db.events;
    ResolveOwnerOutcome(db, DeviceToken(p), uuid);
    var (db1, owner) := ResolveOwner(db, DeviceToken(p), uuid);
    ReplaceEventOutcome(db1, id, Attributes(p), owner);
  }

  /**
   * A valid update replaces every attribute of the targeted event with the
   * params (nil where absent) and leaves every other event untouched.
   */
  lemma UpdateValidReplacesOnlyTarget(db: Db, id: nat, p: EventParams, uuid: string)
    requires Consistent(db) && !TokenInUse(db.users, uuid)
    requires 1 <= id <= |db.events| && Complete(Attributes(p))
    ensures var (db', response) := UpdateEventRequest(db, id, p, uuid);
      && response == Response(200, EventId(id))
      && |db'.events| == |db.events|
      && db'.events[id - 1].id == id && db'.events[id - 1].attrs == Attributes(p)
      && (forall k :: 0 <= k < |db.events| && k != id - 1 ==> db'.events[k] == db.events[k])
      && db'.attendances == db.attendances
      && exists owner :: owner in db'.users && owner.id == db'.events[id - 1].userId && owner.deviceToken == DeviceToken(p)
  {
    assert db.events[id - 1] in db.events;
    ResolveOwnerOutcome(db, DeviceToken(p), uuid);
    var (db1, owner) := ResolveOwner(db, DeviceToken(p), uuid);
    ReplaceEventOutcome(db1, id, Attributes(p), owner);
  }

  /**
   * A valid update whose params name no device token (`owner: {id: ...}`, as
   * the request spec sends) reassigns the event to the first stored user
   * without a device token when there is one, and adds no user.
   */
  lemma UpdateWithoutDeviceTokenTakesFirstSuchUser(db: Db, id: nat, p: EventParams, uuid: string)
    requires Consistent(db) && !TokenInUse(db.users, uuid)
    requires 1 <= id <= |db.events| && Complete(Attributes(p))
    requires DeviceToken(p).None? && UserByDeviceToken(db.users, None).Some?
    ensures var (db', response) := UpdateEventRequest(db, id, p, uuid);
      && response == Response(200, EventId(id))
      && db'.users == db.users
      && db'.events[id - 1].userId == UserByDeviceToken(db.users, None).value.id
  {
    assert db.events[id - 1] in db.events;
    ResolveOwnerOutcome(db, None, uuid);
    var (db1, owner) := ResolveOwner(db, None, uuid);
    ReplaceEventOutcome(db1, id, Attributes(p), owner);
  }
}
