/**
 * `POST /v1/users`: behind the app-secret gate, creates a user with a fresh
 * auth token and renders its id and token.
 */
module UsersController {
  import opened Wrappers
  import opened Rows
  import opened UserModel
  import opened Store
  import opened ApiController

  const AppSecretHeader: string := "tb-app-secret"

  /**
   * `correct_app_secret?`: the header equals the configured secret. A
   * missing header is nil, which equals no configured string.
   */
  predicate CorrectAppSecret(headers: map<string, string>, appSecret: string): (b: bool)
    ensures b <==> AppSecretHeader in headers && headers[AppSecretHeader] == appSecret
  {
    Header(headers, AppSecretHeader) == Some(appSecret)
  }

  /**
   * The whole request: the `authorize_app_secret` before-action halts with an
   * empty 404, otherwise `User.new.save` runs and its outcome is rendered.
   * `appSecret` is `TB_APP_SECRET`; `uuid` is what the token generator returns.
   */
  function CreateUser(db: Db, headers: map<string, string>, appSecret: string, uuid: string): (r: (Db, Response))
    ensures r.1.status == 404 <==> !CorrectAppSecret(headers, appSecret)
    ensures r.1.status == 200 || r.1.status == 404 || r.1.status == 422
    ensures r.1.status != 200 ==> r.0 == db
    ensures r.0.events == db.events && r.0.attendances == db.attendances
  {
    if !CorrectAppSecret(headers, appSecret) then (db, Response(404, NoBody))
    else
      var (db', errors) := SaveNewUser(db, UserFields(None, None, None), uuid);
      if errors == [] then (db', Response(200, UserCreated(db'.users[|db.users|].id, db'.users[|db.users|].authToken)))
      else (db', Response(422, ValidationFailed(ValidationFailedMessage, errors)))
  }

  /** `Api::V1::UsersController#create` with its before-action. */
  method Create(request: Request, store: Tables, appSecret: string, uuid: string) returns (response: Response)
    requires store.Valid()
    modifies store
    ensures store.Valid()
    ensures (store.Contents(), response) == CreateUser(old(store.Contents()), request.headers, appSecret, uuid)
  {
    if Header(request.headers, AppSecretHeader) != Some(appSecret) {
      response := Response(404, NoBody);
      return;
    }
    SaveNewUserOutcome(store.Contents(), UserFields(None, None, None), uuid);
    var user := new UserModel.UserRecord(None);
    var errors := store.Save(user, uuid);
    if errors == [] {
      response := Response(200, UserCreated(user.id.value, user.authToken.value));
    } else {
      response := Response(422, ValidationFailed(ValidationFailedMessage, errors));
    }
  }

  /** A wrong or missing app secret is answered with 404 and creates nobody. */
  lemma WrongSecretIsNotFound(db: Db, headers: map<string, string>, appSecret: string, uuid: string)
    requires !CorrectAppSecret(headers, appSecret)
    ensures CreateUser(db, headers, appSecret, uuid) == (db, Response(404, NoBody))
  {
  }

  /**
   * With the right secret, either exactly one user is added and the response
   * is 200 with that user's id and auth token (the fresh uuid), or the token
   * is taken and the response is 422 `Validation Failed` with nothing stored.
   */
  lemma CreateUserOutcome(db: Db, headers: map<string, string>, appSecret: string, uuid: string)
    requires CorrectAppSecret(headers, appSecret)
    ensures var (db', response) := CreateUser(db, headers, appSecret, uuid);
      && (response.status == 200 <==> !TokenInUse(db.users, uuid))
      && (response.status == 200 ==>
            && db'.users == db.users + [UserRow(|db.users| + 1, uuid, None)]
            && db'.events == db.events && db'.attendances == db.attendances
            && response.body == UserCreated(|db.users| + 1, uuid))
      && (response.status != 200 ==>
            db' == db && response == Response(422, ValidationFailed(ValidationFailedMessage, [AuthTokenTaken])))
  {
    SaveNewUserOutcome(db, UserFields(None, None, None), uuid);
  }

  /** The outcome depends on the app secret alone: any `tb-auth-token` header is ignored. */
  lemma AuthTokenHeaderIgnored(db: Db, headers: map<string, string>, token: string, appSecret: string, uuid: string)
    ensures CreateUser(db, headers[AuthTokenHeader := token], appSecret, uuid) ==
            CreateUser(db, headers - {AuthTokenHeader}, appSecret, uuid)
  {
    assert AuthTokenHeader[4] != AppSecretHeader[4];
    assert Header(headers[AuthTokenHeader := token], AppSecretHeader) == Header(headers - {AuthTokenHeader}, AppSecretHeader);
  }

  /** Creation is not idempotent: two successful requests store two different users. */
  lemma CreateTwiceAddsTwoUsers(db: Db, headers: map<string, string>, appSecret: string, uuid1: string, uuid2: string)
    requires Consistent(db) && CorrectAppSecret(headers, appSecret)
    requires CreateUser(db, headers, appSecret, uuid1).1.status == 200
    requires CreateUser(CreateUser(db, headers, appSecret, uuid1).0, headers, appSecret, uuid2).1.status == 200
    ensures var db1 := CreateUser(db, headers, appSecret, uuid1).0;
      var db2 := CreateUser(db1, headers, appSecret, uuid2).0;
      && |db2.users| == |db.users| + 2
      && db2.users[|db.users|].id != db2.users[|db.users| + 1].id
      && db2.users[|db.users|].authToken != db2.users[|db.users| + 1].authToken
  {
    var db1 := CreateUser(db, headers, appSecret, uuid1).0;
    CreateUserOutcome(db, headers, appSecret, uuid1);
    SaveNewUserConsistent(db, UserFields(None, None, None), uuid1);
    CreateUserOutcome(db1, headers, appSecret, uuid2);
    assert db1.users[|db.users|] in db1.users;
  }
}
