# Humon: a verified model of the backend's request rules and the client's JSON and session code

Humon is a small events app. A Rails API stores users, events and attendances (RSVPs), and a Swift iOS client shows events on a map. This project models three parts of it in Dafny.

1. **The Rails backend as a sequential state machine over three tables.** `Rows` holds the tables and the lookups ActiveRecord makes on them. `UserModel`, `EventModel` and `AttendanceModel` hold the model classes' callbacks, validations and associations. `Store` gives every write as a function from one database value to the next, with the invariants each write keeps, and holds the class `Tables` that the handlers update in place. `ApiController`, `UsersController`, `EventsController` and `AttendancesController` hold the request handlers:
   - each handler is a method over the `Tables` (and, where the handler reads headers, a `Request`);
   - each is tied to a pure function giving the new database and the `Response` (status and rendered body);
   - the lemmas state what the handlers promise: 401, 404 and 422 behaviour, what is stored, and what is left alone.
2. **The `DatabaseValidations` concern** (`DatabaseValidations`). It is modelled as a derivation from column and index metadata to a list of validation rules. `Register` is the imperative walk over columns and indexes, proved equal to the pure derivation.
3. **The Swift client.** The modules are:
   - `Json`: the JSON values `JSONSerialization` produces and the `as?` casts applied to them;
   - `ClientUser`: `User(JSON:)` and `isCurrentUser()`;
   - `ClientEvent`: `Event.init`, `Event(JSON:)` and `JSONDictionary()`;
   - `ClientSession`: the Cocoapods `UserSession`. It is a two-field cache in front of one keychain entry, as spec functions `Load` and `Save` plus the class `UserSession`.

Abstractions:
- `SecureRandom.uuid` is a parameter `uuid`, the value the generator returns:
  - where the code has no path for a taken token (a user created by `find_or_create_by`), the model requires the value to be unused by any stored user;
  - `users#create` takes any value, so its 422 path (token already taken) is modelled.
- `DateFormatter` is a pair of uninterpreted functions, `parse(pattern, text)` and `format(pattern, date)`. The pattern is the constant the code sets before each use.
- The `TB_APP_SECRET` environment value is a parameter.
- Latitude and longitude are opaque reals that are never computed with.
- Ids are assigned 1, 2, 3, … and rows are never deleted, so row `k` of a table has id `k + 1` (part of `Store.Consistent`).

What the code does, which the model follows even where the request specs suggest otherwise:
- **Event owner.** The owner of a created or updated event is the first user whose device token equals `params[:owner][:device_token]`. When there is none, a new user is created, even if the event then fails validation. The owner is not the user of the auth-token header: `events_controller.rb` never calls `authorize`.
- **Update.** An update assigns every attribute from the params, and an absent param becomes nil. Params are not merged into the stored event. No ownership check is made.
- **`authorize`.** It rejects only a missing token. A token that matches nobody runs the block with a nil user. In `attendances#create` that nil user makes `Attendance.create` fail validation silently, and the response is still 200.

Where the model follows the specs rather than the code:
- **Presence and uniqueness rules.** The event presence rules (lat, lon, name, started_at) follow the model spec and the message order of the request spec. The user and attendance uniqueness rules follow the model specs and the unique indexes of the migrations. They are not computed through `DatabaseValidations`: no column comments are part of the repository, and on the migrations as written that derivation fails for lack of a message.

## Model

| member | source | states |
|---|---|---|
| `DatabaseValidations.StripIdSuffix` | example_apps/rails/app/models/database_validations.rb:11 | for a name without a line break, exactly one trailing `_id` is removed and any other name is unchanged |
| `DatabaseValidations.ExtractMessage` | example_apps/rails/app/models/database_validations.rb:13-16 | a message exists iff the comment contains `key: "c"` with one non-quote character `c`; it is that single character, taken from the leftmost match; a nil comment gives none |
| `DatabaseValidations.OnlySingleCharacterMessages` | example_apps/rails/app/models/database_validations.rb:24 | a quoted message is captured only when it is exactly one character long; longer or empty messages do not match at all |
| `DatabaseValidations.ColumnRule` | example_apps/rails/app/models/database_validations.rb:6-19 | id, created_at, updated_at and unknown-nullability columns give no rule; a nullable column gives one Absence rule and a NOT NULL column one Presence rule, never both; the attribute is the name with `_id` stripped and the message is the character captured from the comment; a missing message is a failure naming the key |
| `DatabaseValidations.IndexRule` | example_apps/rails/app/models/database_validations.rb:23-26 | a non-unique index gives nothing; a unique index gives one Uniqueness rule on its first column scoped to the rest, with the character captured from the comment as its message, or fails when its comment lacks the message |
| `DatabaseValidations.Register` | example_apps/rails/app/models/database_validations.rb:4-28 | the two loops, stopping at the first missing message, register exactly the rules of the derivation (`DeriveRules`) |
| `DatabaseValidations.ColumnRulesAppend` | example_apps/rails/app/models/database_validations.rb:5-20 | column rules keep column order: the rules of `a + b` are those of `a` followed by those of `b`, and a failure in `a` wins |
| `DatabaseValidations.IndexRulesAppend` | example_apps/rails/app/models/database_validations.rb:22-27 | index rules keep index order in the same way |
| `DatabaseValidations.SkippedColumnContributesNothing` | example_apps/rails/app/models/database_validations.rb:6-10 | inserting an excluded or unknown-nullability column anywhere leaves the derived rules unchanged |
| `DatabaseValidations.ColumnRulesFailIff` | example_apps/rails/app/models/database_validations.rb:5-20 | the column walk fails iff some non-skipped column's comment lacks its message |
| `DatabaseValidations.IndexRulesFailIff` | example_apps/rails/app/models/database_validations.rb:22-27 | the index walk fails iff some unique index's comment lacks its message |
| `DatabaseValidations.ColumnRulesFirstFailure` | example_apps/rails/app/models/database_validations.rb:5-20 | when column `k` is the first lacking its message, the walk fails with exactly that column's key and comment |
| `DatabaseValidations.IndexRulesFirstFailure` | example_apps/rails/app/models/database_validations.rb:22-27 | when index `k` is the first unique index lacking its message, the walk fails with the uniqueness key and that index's comment |
| `DatabaseValidations.ColumnRules` | example_apps/rails/app/models/database_validations.rb:5-20 | a successful column walk registers at most one rule per column, each a presence or an absence rule |
| `DatabaseValidations.IndexRules` | example_apps/rails/app/models/database_validations.rb:22-27 | a successful index walk registers at most one rule per index, each a uniqueness rule |
| `DatabaseValidations.DeriveRules` | example_apps/rails/app/models/database_validations.rb:4-28 | the columns are walked first, so a column failure is the derivation's failure; on success at most one rule per column and per index |
| `DatabaseValidations.DeriveFailsIffMessageMissing` | example_apps/rails/app/models/database_validations.rb:4-28 | derivation fails iff a message is missing; on success the rules are the column rules followed by the index rules |
| `Rows.UserById` | example_apps/rails/app/models/event.rb:5 | finds a user iff one has the id, and the user found has it |
| `Rows.UserByAuthToken` | example_apps/rails/app/controllers/api_controller.rb:6 | finds a user iff one has the token, and the user found has it |
| `Rows.UserByDeviceToken` | example_apps/rails/app/controllers/api/v1/events_controller.rb:47 | none iff no user has the device token (nil matches users without one); otherwise the first such user in table order |
| `Rows.UserByDeviceTokenAppend` | example_apps/rails/app/controllers/api/v1/events_controller.rb:47 | appending a user changes the lookup only when no earlier user matched |
| `Rows.EventById` | example_apps/rails/app/controllers/api/v1/events_controller.rb:16 | finds an event iff one has the id, and the event found has it |
| `UserModel.WithAuthToken` | example_apps/rails/app/models/user.rb:8-10 | a record without a token gets the generated uuid; a record with one, even an empty one, keeps it; id and device token are untouched |
| `UserModel.SetAuthTokenIdempotent` | example_apps/rails/app/models/user.rb:9 | running the callback twice, whatever the second uuid, gives the same record as running it once |
| `UserModel.UserRecord.SetAuthToken` | example_apps/rails/app/models/user.rb:4-10 | the in-place callback leaves the record's fields equal to `WithAuthToken` of the old fields |
| `UserModel.UserErrors` | example_apps/rails/db/migrate/20131030184615_change_user_fields.rb:8 | saving a user fails iff its token is already stored, with the single message "Auth token has already been taken" |
| `AttendanceModel.AttendanceErrors` | example_apps/rails/app/models/attendance.rb:5-8 | valid iff there is an event, a user, and no stored attendance for that pair; "Event can't be blank", "User can't be blank" and "Event Can only RSVP once per event" each appear exactly in their case |
| `AttendanceModel.OtherPairsDoNotBlock` | example_apps/rails/app/models/attendance.rb:7-8 | a stored attendance sharing only the event or only the user does not make a new one invalid |
| `EventModel.Blank` | example_apps/rails/spec/models/event_spec.rb:6 | nil and the empty string are blank; a string of Unicode white space only is blank, and one with a character outside it is not |
| `EventModel.Complete` | example_apps/rails/spec/models/event_spec.rb:4-7 | a complete event has lat, lon and started_at, and a name with a non-white-space character |
| `EventModel.BlankAttributes` | example_apps/rails/spec/models/event_spec.rb:4-7 | exactly the blank ones of lat, lon, name and started_at, in that order |
| `EventModel.EventErrors` | example_apps/rails/spec/models/event_spec.rb:4-7 | one full message per blank attribute, in validation order; empty iff the event is complete |
| `EventModel.MessageIffBlank` | example_apps/rails/spec/models/event_spec.rb:4-7 | an attribute's message is among the errors iff that attribute is blank |
| `EventModel.EventErrorsNameBlanks` | example_apps/rails/spec/models/event_spec.rb:4-7 | "Lat can't be blank", "Lon can't be blank", "Name can't be blank" and "Started at can't be blank" each appear iff their attribute is blank |
| `EventModel.EmptyEventErrors` | example_apps/rails/spec/requests/api/v1/events/events_spec.rb:53-70 | an event with no attributes gets the four messages in the order Lat, Lon, Name, Started at |
| `EventModel.OnlyNameBlank` | example_apps/rails/spec/requests/api/v1/events/events_spec.rb:96-121 | an event lacking only its name gets exactly "Name can't be blank" |
| `EventModel.Owner` | example_apps/rails/app/models/event.rb:5 | the owner is the user whose id is the event's user_id, if there is one |
| `EventModel.AttendancesOf` | example_apps/rails/app/models/event.rb:4 | exactly the attendance rows whose event_id is the event's id |
| `EventModel.UsersOf` | example_apps/rails/app/models/event.rb:6 | every user returned has an attendance for the event, and every stored user with an attendance for it is returned |
| `Store.SaveNewUser` | example_apps/rails/app/models/user.rb:4-10 | succeeds iff the token the callback leaves is unused; a failure stores nothing; a success appends one user and keeps the others; events and attendances are untouched |
| `Store.ResolveOwner` | example_apps/rails/app/controllers/api/v1/events_controller.rb:46-48 | the owner is a stored user with the requested device token; existing users are kept and at most one is added; events and attendances are untouched |
| `Store.CreateEvent` | example_apps/rails/app/controllers/api/v1/events_controller.rb:3-5 | succeeds iff the attributes are complete; a failure stores nothing and returns the validation messages; a success appends one event, whose id is returned; users and attendances are untouched |
| `Store.ReplaceEvent` | example_apps/rails/app/controllers/api/v1/events_controller.rb:22 | succeeds iff the attributes are complete; a failure stores nothing; no event but the target changes; users and attendances are untouched |
| `Store.Rsvp` | example_apps/rails/app/controllers/api/v1/attendances_controller.rb:7 | succeeds iff event and user are present and the pair is not taken; a failure stores nothing; a success adds one attendance; users and events are untouched |
| `Store.SaveNewUserOutcome` | example_apps/rails/app/controllers/api/v1/users_controller.rb:5-7 | saving a new user fails iff its token is taken, and then stores nothing; otherwise exactly one row is added with that token and device token, and the other tables and earlier users are unchanged |
| `Store.SaveKeepsGivenToken` | example_apps/rails/app/models/user.rb:9 | a record that already has a token is stored under it, not under a fresh uuid |
| `Store.SaveNewUserConsistent` | example_apps/rails/db/migrate/20131030184615_change_user_fields.rb:8 | a user save keeps the store invariant, in particular that no two users share an auth token |
| `Store.TwoSavesTwoUsers` | example_apps/rails/app/controllers/api/v1/users_controller.rb:5 | two successful saves store two users with different ids and different tokens |
| `Store.ResolveOwnerOutcome` | example_apps/rails/app/controllers/api/v1/events_controller.rb:46-48 | the owner has the requested device token; an existing match is the first one and nothing is stored; otherwise exactly one user with that device token and the fresh token is added and is the owner |
| `Store.ResolveOwnerIdempotent` | example_apps/rails/app/controllers/api/v1/events_controller.rb:47 | resolving the same device token again finds the same owner and stores nothing |
| `Store.ResolveOwnerConsistent` | example_apps/rails/app/controllers/api/v1/events_controller.rb:47 | find-or-create keeps the store invariant |
| `Store.CreateEventOutcome` | example_apps/rails/app/controllers/api/v1/events_controller.rb:3-5 | an event is created iff complete; then exactly one event with the given attributes and owner is appended and its id returned; otherwise nothing is stored and the messages are returned |
| `Store.CreateEventConsistent` | example_apps/rails/app/controllers/api/v1/events_controller.rb:5 | saving an event with a stored owner keeps the store invariant |
| `Store.ReplaceEventOutcome` | example_apps/rails/app/controllers/api/v1/events_controller.rb:22 | a valid update replaces the attributes and owner of that event only; an invalid one stores nothing |
| `Store.ReplaceEventConsistent` | example_apps/rails/app/controllers/api/v1/events_controller.rb:22 | updating keeps the store invariant |
| `Store.PairCountUnique` | example_apps/rails/db/migrate/20131031224142_create_attendances.rb:9 | with unique pairs, a pair is counted once when stored and zero times otherwise |
| `Store.RsvpOutcome` | example_apps/rails/app/controllers/api/v1/attendances_controller.rb:7 | an attendance is stored iff event and user are present and the pair is new; only the attendances table can change |
| `Store.RsvpConsistent` | example_apps/rails/app/models/attendance.rb:7-8 | an RSVP for a stored event and user keeps the store invariant, in particular at most one attendance per pair |
| `Store.RsvpLeavesExactlyOne` | example_apps/rails/spec/requests/api/v1/attendances_spec.rb:4-28 | after an RSVP exactly one attendance joins the event and the user |
| `Store.RsvpIdempotent` | example_apps/rails/app/controllers/api/v1/attendances_controller.rb:7 | a repeated RSVP leaves the store as the first one left it |
| `Store.RsvpWithoutUserStoresNothing` | example_apps/rails/app/models/attendance.rb:6 | without a user nothing is stored and "User can't be blank" is reported |
| `Store.Tables.Save` | example_apps/rails/app/models/user.rb:4-10 | the record gets its token from the callback and, on success, its id; the tables change as `SaveNewUser` says; the invariant is kept |
| `Store.Tables.FindOrCreateByDeviceToken` | example_apps/rails/app/controllers/api/v1/events_controller.rb:46-48 | the tables and the owner are those of `ResolveOwner`; the owner is stored; the invariant is kept |
| `Store.Tables.SaveEvent` | example_apps/rails/app/controllers/api/v1/events_controller.rb:3-5 | the tables and the outcome are those of `CreateEvent`; the invariant is kept |
| `Store.Tables.UpdateAttributes` | example_apps/rails/app/controllers/api/v1/events_controller.rb:22 | the tables and the errors are those of `ReplaceEvent`; the invariant is kept |
| `Store.Tables.CreateAttendance` | example_apps/rails/app/controllers/api/v1/attendances_controller.rb:7 | the tables and the errors are those of `Rsvp`; the invariant is kept |
| `ApiController.Header` | example_apps/rails/app/controllers/api_controller.rb:18-20 | a header's value, nil iff the request lacks it |
| `ApiController.Request.AuthorizationHeader` | example_apps/rails/app/controllers/api_controller.rb:18-20 | the token is the `tb-auth-token` header's value, nil iff the request lacks that header |
| `ApiController.Authorized` | example_apps/rails/app/controllers/api_controller.rb:4-10 | halts with an empty 401 iff there is no token; otherwise proceeds with the user holding the token, or nil when nobody holds it |
| `ApiController.Request.AuthorizationToken` | example_apps/rails/app/controllers/api_controller.rb:14-16 | returns the `tb-auth-token` header's value and memoises it; a memo once set is kept |
| `ApiController.Authorize` | example_apps/rails/app/controllers/api_controller.rb:4-10 | decides as `Authorized` on the stored users; it may write only the request's memo, never the store |
| `UsersController.CorrectAppSecret` | example_apps/rails/app/controllers/api/v1/users_controller.rb:25-27 | holds iff the request carries `tb-app-secret` and its value equals the configured secret |
| `UsersController.CreateUser` | example_apps/rails/app/controllers/api/v1/users_controller.rb:2-27 | 404 iff the app secret is wrong or missing; otherwise 200 or 422; only a 200 changes the store, and never its events or attendances |
| `UsersController.Create` | example_apps/rails/app/controllers/api/v1/users_controller.rb:2-27 | the store and response are those of `CreateUser`; the invariant is kept |
| `UsersController.WrongSecretIsNotFound` | example_apps/rails/app/controllers/api/v1/users_controller.rb:19-27 | a wrong or missing app secret gives an empty 404 and stores nothing |
| `UsersController.CreateUserOutcome` | example_apps/rails/app/controllers/api/v1/users_controller.rb:4-15 | with the right secret: 200 iff the token is unused, adding exactly one user and rendering its id and token; otherwise 422 "Validation Failed" with the message, nothing stored |
| `UsersController.AuthTokenHeaderIgnored` | example_apps/rails/spec/controllers/api/v1/users_controller_spec.rb:4-26 | adding or removing a `tb-auth-token` header never changes the outcome |
| `UsersController.CreateTwiceAddsTwoUsers` | example_apps/rails/app/controllers/api/v1/users_controller.rb:5 | two successful requests store two distinct users, with different ids and tokens |
| `EventsController.DeviceToken` | example_apps/rails/app/controllers/api/v1/events_controller.rb:50-52 | nil without an owner hash, otherwise the hash's device token |
| `EventsController.Attributes` | example_apps/rails/app/controllers/api/v1/events_controller.rb:34-44 | every event attribute is assigned from its param, nil when absent |
| `EventsController.ShowEventRequest` | example_apps/rails/app/controllers/api/v1/events_controller.rb:15-17 | 404 iff no event has the id; otherwise 200 rendering the stored event with that id |
| `EventsController.CreateEventRequest` | example_apps/rails/app/controllers/api/v1/events_controller.rb:2-13 | 200 iff the params' attributes are complete, otherwise 422; a 422 stores no event; stored users are kept and at most one (the owner) is added; attendances are untouched |
| `EventsController.UpdateEventRequest` | example_apps/rails/app/controllers/api/v1/events_controller.rb:19-30 | 404 iff no event has the id, and then nothing is stored; otherwise 200 or 422; only a 200 changes an event; the number of events and the attendances never change; users are only added, at most one |
| `EventsController.Create` | example_apps/rails/app/controllers/api/v1/events_controller.rb:2-13 | owner resolution, then save; the store and response are those of `CreateEventRequest`; the invariant is kept |
| `EventsController.Show` | example_apps/rails/app/controllers/api/v1/events_controller.rb:15-17 | answers as `ShowEventRequest` on the current tables and changes nothing |
| `EventsController.Update` | example_apps/rails/app/controllers/api/v1/events_controller.rb:19-30 | find, owner resolution, then update; the store and response are those of `UpdateEventRequest`; the invariant is kept |
| `EventsController.CreateInvalidIsRejected` | example_apps/rails/app/controllers/api/v1/events_controller.rb:3-12 | an incomplete create answers 422 "Validation Failed" with the ordered messages and stores no event; at most one user (the owner) is added |
| `EventsController.CreateValidStoresOne` | example_apps/rails/app/controllers/api/v1/events_controller.rb:3-6 | a complete create appends exactly one event with the given attributes, owned by a stored user with the request's device token, and renders its id |
| `EventsController.CreateReusesStoredOwner` | example_apps/rails/app/controllers/api/v1/events_controller.rb:46-52 | when a stored user has the device token, no user is added and the new event belongs to the first such user |
| `EventsController.InvalidCreateStillAddsOwner` | example_apps/rails/app/controllers/api/v1/events_controller.rb:34-48 | an empty create on an empty database answers 422 with no event, yet stores one user |
| `EventsController.UpdateUnknownIsNotFound` | example_apps/rails/app/controllers/api/v1/events_controller.rb:20 | updating an unknown id answers 404 and stores nothing, not even an owner |
| `EventsController.UpdateInvalidKeepsEvent` | example_apps/rails/app/controllers/api/v1/events_controller.rb:22-29 | an invalid update answers 422 "Validation Failed" with the messages and leaves every event as stored |
| `EventsController.UpdateValidReplacesOnlyTarget` | example_apps/rails/app/controllers/api/v1/events_controller.rb:34-43 | a valid update answers 200 with the id, replaces every attribute of the target (nil where absent) and no other event, and the target's owner is a stored user with the params' device token |
| `EventsController.UpdateWithoutDeviceTokenTakesFirstSuchUser` | example_apps/rails/app/controllers/api/v1/events_controller.rb:46-52 | an update whose params carry no device token (the request spec's `owner: {id: ...}`) adds no user and gives the event to the first stored user without a device token |
| `AttendancesController.CreateAttendanceRequest` | example_apps/rails/app/controllers/api/v1/attendances_controller.rb:2-9 | 401 iff the request has no `tb-auth-token` header; otherwise 404 or 200; only a 200 can change the store, and never its users or events |
| `AttendancesController.Create` | example_apps/rails/app/controllers/api/v1/attendances_controller.rb:2-9 | authorize, find the event, create the attendance; the store and response are those of `CreateAttendanceRequest`; both invariants are kept |
| `AttendancesController.NoTokenIsUnauthorized` | example_apps/rails/app/controllers/api_controller.rb:5-8 | without a token: 401 and nothing stored |
| `AttendancesController.UnknownEventIsNotFound` | example_apps/rails/app/controllers/api/v1/attendances_controller.rb:4 | with a token but an unknown event: 404 and nothing stored |
| `AttendancesController.UnknownTokenStoresNothing` | example_apps/rails/app/controllers/api/v1/attendances_controller.rb:3-7 | a token that no user holds stores nothing |
| `AttendancesController.OnlyAttendancesChange` | example_apps/rails/app/controllers/api/v1/attendances_controller.rb:2-9 | users and events are never changed |
| `AttendancesController.KnownPairLeavesOne` | example_apps/rails/app/controllers/api/v1/attendances_controller.rb:7 | a known event and a token held by a stored user answer 200 and leave exactly one attendance for the pair |
| `AttendancesController.RepeatIsNoOp` | example_apps/rails/spec/requests/api/v1/attendances_spec.rb:16-28 | posting the same request again leaves the store and the response unchanged |
| `Json.StringAt` | example_apps/Swift/HumonSwift/HumonSwift/Event.swift:53 | a value iff the key holds a string, and it is that string |
| `Json.IntAt` | example_apps/Swift/HumonSwift/HumonSwift/Event.swift:54 | a value iff the key holds a number that reads as an Int |
| `Json.DegreesAt` | example_apps/Swift/HumonSwift/HumonSwift/Event.swift:55-56 | a value iff the key holds a number, read as a Double |
| `Json.DictionaryAt` | example_apps/Swift/HumonSwift/HumonSwift/Event.swift:60 | a value iff the key holds an object, and it is that object |
| `Json.DegreesNumber` | example_apps/Swift/HumonSwift/HumonSwift/Event.swift:86-87 | a Double is bridged to a number that reads back as the same Double, and as an Int exactly when integral |
| `ClientUser.Decode` | example_apps/Swift/HumonSwiftCocoapods/HumonSwift/User.swift:15-18 | fails iff `id` is missing or not an Int; on success the user id is the JSON id |
| `ClientUser.OtherKeysIgnored` | example_apps/Swift/HumonSwiftCocoapods/HumonSwift/User.swift:15-18 | two objects that agree on `id` decode alike whatever their other keys |
| `ClientUser.IsCurrentUser` | example_apps/Swift/HumonSwiftCocoapods/HumonSwift/User.swift:20-22 | true iff the session's id getter (after its load) returns this user's id; false when it returns nil |
| `ClientEvent.Make` | example_apps/Swift/HumonSwift/HumonSwift/Event.swift:29-37 | a nil start date becomes now; title and subtitle mirror name and address; no owner, no id |
| `ClientEvent.Decode` | example_apps/Swift/HumonSwift/HumonSwift/Event.swift:51-78 | succeeds iff address, id, lat, lon, name, a parseable started_at and an acceptable owner are present; then every field comes from the JSON, title and subtitle mirror name and address, and the end date is the parsed `end_at` or nil |
| `ClientEvent.EndDateNeverRejects` | example_apps/Swift/HumonSwift/HumonSwift/Event.swift:64-67 | changing or removing `end_at` never turns success into failure or back |
| `ClientEvent.GuardReadsOnlyItsKeys` | example_apps/Swift/HumonSwift/HumonSwift/Event.swift:53-62 | two objects that agree on address, id, lat, lon, name, started_at and owner pass or fail the guard together, whatever their other keys hold |
| `ClientEvent.Encoding` | example_apps/Swift/HumonSwift/HumonSwift/Event.swift:80-94 | keys are name, address, lat, lon and started_at, plus `end_at` iff there is an end date; never id or owner; each value is the field as JSON |
| `ClientEvent.JSONDictionary` | example_apps/Swift/HumonSwift/HumonSwift/Event.swift:83-93 | building the literal and then inserting `end_at` in place yields `Encoding` |
| `ClientEvent.EncodingAloneDoesNotDecode` | example_apps/Swift/HumonSwift/HumonSwift/Event.swift:83-88 | the encoder's output alone is never accepted by the decoder |
| `ClientEvent.EncodeDecodeRoundTrip` | example_apps/Swift/HumonSwift/HumonSwift/Event.swift:51-94 | with the id and owner added and a parse that undoes format, decoding the encoding gives back the same event |
| `ClientSession.IntIn` | example_apps/Swift/HumonSwiftCocoapods/HumonSwift/UserSession.swift:46 | a value iff the entry holds an Int under the key |
| `ClientSession.StringIn` | example_apps/Swift/HumonSwiftCocoapods/HumonSwift/UserSession.swift:47 | a value iff the entry holds a String under the key |
| `ClientSession.Load` | example_apps/Swift/HumonSwiftCocoapods/HumonSwift/UserSession.swift:43-49 | never writes the keychain; either leaves the session as it was or takes both fields from the keychain entry |
| `ClientSession.Save` | example_apps/Swift/HumonSwiftCocoapods/HumonSwift/UserSession.swift:51-57 | never changes the cache; changes the keychain only when both fields are set |
| `ClientSession.GetUserID` | example_apps/Swift/HumonSwiftCocoapods/HumonSwift/UserSession.swift:22-25 | leaves the keychain alone and the session already loaded; with a full cache it returns the cached id and changes nothing |
| `ClientSession.GetUserToken` | example_apps/Swift/HumonSwiftCocoapods/HumonSwift/UserSession.swift:33-36 | leaves the keychain alone and the session already loaded; with a full cache it returns the cached token and changes nothing |
| `ClientSession.LoggedIn` | example_apps/Swift/HumonSwiftCocoapods/HumonSwift/UserSession.swift:39-41 | whichever getters run, the state afterwards is one load; logged in only when both loaded fields are set |
| `ClientSession.LoadIdempotent` | example_apps/Swift/HumonSwiftCocoapods/HumonSwift/UserSession.swift:43-49 | loading twice is loading once |
| `ClientSession.LoadKeepsFullCache` | example_apps/Swift/HumonSwiftCocoapods/HumonSwift/UserSession.swift:44 | with both fields cached, load changes nothing |
| `ClientSession.LoadWithoutEntry` | example_apps/Swift/HumonSwiftCocoapods/HumonSwift/UserSession.swift:45 | without a keychain entry, load changes nothing |
| `ClientSession.LoadOverwritesBoth` | example_apps/Swift/HumonSwiftCocoapods/HumonSwift/UserSession.swift:44-48 | with a field missing and an entry present, both fields are replaced by the entry's (nil where it lacks them) |
| `ClientSession.LoadDiscardsJustSetToken` | example_apps/Swift/HumonSwiftCocoapods/HumonSwift/UserSession.swift:44-48 | for every session whose id is nil and whose keychain has an entry, a token just set is replaced on the next load by the entry's token (and the id by the entry's id), nil where the entry lacks them |
| `ClientSession.SaveOnlyWhenComplete` | example_apps/Swift/HumonSwiftCocoapods/HumonSwift/UserSession.swift:51-57 | the cache is untouched; the keychain changes only when both fields are set, and then holds both under `userID` and `authToken` |
| `ClientSession.SetBothThenFreshLoad` | example_apps/Swift/HumonSwiftCocoapods/HumonSwift/UserSession.swift:17-57 | after setting the id and then the token, the keychain holds both, and a fresh session loads the same values |
| `ClientSession.GettersUseFullCache` | example_apps/Swift/HumonSwiftCocoapods/HumonSwift/UserSession.swift:17-37 | once both fields are set, the getters return them without changing anything, and the user is logged in |
| `ClientSession.LoggedInIffBothGetters` | example_apps/Swift/HumonSwiftCocoapods/HumonSwift/UserSession.swift:39-41 | logged in iff the id getter and then the token getter both return a value; the state afterwards is one load |
| `ClientSession.UserSession.LoadUserData` | example_apps/Swift/HumonSwiftCocoapods/HumonSwift/UserSession.swift:43-49 | the new state is `Load` of the old |
| `ClientSession.UserSession.SaveUserData` | example_apps/Swift/HumonSwiftCocoapods/HumonSwift/UserSession.swift:51-57 | the new state is `Save` of the old |
| `ClientSession.UserSession.SetUserID` | example_apps/Swift/HumonSwiftCocoapods/HumonSwift/UserSession.swift:18-21 | the id is cached, then saved |
| `ClientSession.UserSession.UserID` | example_apps/Swift/HumonSwiftCocoapods/HumonSwift/UserSession.swift:22-25 | load, then return the cached id |
| `ClientSession.UserSession.SetUserToken` | example_apps/Swift/HumonSwiftCocoapods/HumonSwift/UserSession.swift:29-32 | the token is cached, then saved |
| `ClientSession.UserSession.UserToken` | example_apps/Swift/HumonSwiftCocoapods/HumonSwift/UserSession.swift:33-36 | load, then return the cached token |
| `ClientSession.UserSession.UserIsLoggedIn` | example_apps/Swift/HumonSwiftCocoapods/HumonSwift/UserSession.swift:39-41 | runs the id getter, and the token getter only when the id is non-nil; the result and new state are those of `LoggedIn` |

## Left out

- `nearests_controller.rb` (`Event.near`) is not part of this model. It is a geocoder distance query in floating point, inside a library whose code is not part of the repository.
- `HumonClient.swift`, view controllers, map annotations and all UI code are not part of this model. They are network I/O, asynchronous dispatch and rendering.
- The JSON views (jbuilder templates) are not part of this model. Response bodies are abstracted: `UserCreated(id, auth_token)`, `EventId(id)`, `EventShown(event)`, and `NoBody` for the empty 401 and 404 answers and for `attendances#create`, whose rendered template is not modelled.
- Rails header-name normalisation and the parsing and type casting of request params are not modelled. Headers are an exact string map. Params arrive already typed (`EventParams`, a `nat` event id).
- A request without `params[:event]` makes `attendances#create` raise. That case, and a non-hash `params[:owner]`, are not modelled.
- `ENV.fetch('TB_APP_SECRET')` raising when the variable is unset is not modelled. The secret is a parameter.
- `Store.ResolveOwner` and `EventsController.Create`/`Update` require the generated uuid to be unused. A `find_or_create_by` whose create fails (a uuid collision) would give an unsaved owner with no id, and the code has no path for it.
- `Rows.UserByDeviceToken`: `find_by(device_token:)` is a `LIMIT 1` query with no ordering, and no unique index covers `device_token`, so which matching user the database returns is unspecified. The model picks the first match in table (id) order, and the lemmas that name "the first such user" rest on that choice.
- `DatabaseValidations` is modelled on its own and is not wired into the store. No column comments exist to feed it, so the store's validations follow the model specs and unique indexes instead.
- Concurrency is not modelled: requests run one at a time. The race between two simultaneous RSVPs for the same pair, which only the unique index stops, is outside a sequential model.
- Only the keychain entry of account `CurrentHumonAccount` is modelled, as an optional dictionary. Keychain write errors, which `try?` discards, are not modelled, so a save always succeeds.
- JSON booleans bridge to `NSNumber`, and so can read `as? Int`. This is not modelled: a JSON boolean is never a number here.
- `Json.DegreesNumber`: it models only integral doubles reading as `Int`. Exact Foundation bridging rules for very large doubles are not modelled.
- The shared global `dateFormatter`'s format is modelled as the constant pattern passed to `parse` and `format` on each use. Date parsing and formatting themselves are uninterpreted.
- The client reads the end date from `end_at` and writes `end_at`, while the server's column and params are `ended_at`. The model follows each side as written; the mismatch is only noted here.
- The updated event's ownership is not checked against the requester. The code performs no such check, so none is modelled.
- `ClientSession` models the Cocoapods `UserSession` only. The non-Cocoapods `UserSession.swift` holds only constants.
