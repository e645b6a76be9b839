/**
 * The client's session: the signed-in user's id and auth token, cached in
 * two static fields in front of the keychain entry of account
 * `CurrentHumonAccount`. Every getter first tries to fill the cache from the
 * keychain; every setter writes the cache back once both fields are known.
 */
module ClientSession {
  import opened Wrappers

  const Account: string := "CurrentHumonAccount"
  const UserIDKey: string := "userID"
  const AuthTokenKey: string := "authToken"

  /** A value stored in the keychain entry's dictionary. */
  datatype Stored = StoredInt(i: int) | StoredString(s: string)

  /** The keychain entry's dictionary, as `Locksmith` returns it for the account. */
  type Entry = map<string, Stored>

  /** The cache and the keychain entry (None when the account has no entry). */
  datatype Session = Session(userID: Option<int>, userToken: Option<string>, keychain: Option<Entry>)

  /** `dictionary[key] as? Int`. */
  function IntIn(d: Entry, key: string): (r: Option<int>)
    ensures r.Some? <==> key in d && d[key].StoredInt?
    ensures r.Some? ==> d[key] == StoredInt(r.value)
  {
    if key in d && d[key].StoredInt? then Some(d[key].i) else None
  }

  /** `dictionary[key] as? String`. */
  function StringIn(d: Entry, key: string): (r: Option<string>)
    ensures r.Some? <==> key in d && d[key].StoredString?
    ensures r.Some? ==> d[key] == StoredString(r.value)
  {
    if key in d && d[key].StoredString? then Some(d[key].s) else None
  }

  /** The entry `saveUserData` writes for a user id and a token. */
  function EntryFor(id: int, token: string): Entry {
    map[UserIDKey := StoredInt(id), AuthTokenKey := StoredString(token)]
  }

  /**
   * `loadUserData`: nothing when both fields are cached; otherwise, when the
   * keychain has an entry, both fields are overwritten from it (a field the
   * entry lacks becomes nil).
   */
  function Load(s: Session): (r: Session)
    ensures r.keychain == s.keychain
    ensures r == s || (s.keychain.Some? &&
      r.userID == IntIn(s.keychain.value, UserIDKey) && r.userToken == StringIn(s.keychain.value, AuthTokenKey))
  {
    if s.userID.Some? && s.userToken.Some? then s
    else
      match s.keychain
      case None => s
      case Some(d) => s.(userID := IntIn(d, UserIDKey), userToken := StringIn(d, AuthTokenKey))
  }

  /** `saveUserData`: writes the entry only when both fields are cached. */
  function Save(s: Session): (r: Session)
    ensures r.userID == s.userID && r.userToken == s.userToken
    ensures r.keychain != s.keychain ==> s.userID.Some? && s.userToken.Some?
  {
    if s.userID.Some? && s.userToken.Some? then s.(keychain := Some(EntryFor(s.userID.value, s.userToken.value)))
    else s
  }

  /** The `userID` getter: load, then read the cache. */
  function GetUserID(s: Session): (r: (Session, Option<int>))
    ensures r.0.keychain == s.keychain && Load(r.0) == r.0
    ensures s.userID.Some? && s.userToken.Some? ==> r == (s, s.userID)
  {
    var s' := Load(s);
    (s', s'.userID)
  }

  /** The `userToken` getter: load, then read the cache. */
  function GetUserToken(s: Session): (r: (Session, Option<string>))
    ensures r.0.keychain == s.keychain && Load(r.0) == r.0
    ensures s.userID.Some? && s.userToken.Some? ==> r == (s, s.userToken)
  {
    var s' := Load(s);
    (s', s'.userToken)
  }

  /** `userIsLoggedIn`: `userID != nil && userToken != nil`; the second getter runs only if the first is non-nil. */
  function LoggedIn(s: Session): (r: (Session, bool))
    ensures r.0 == Load(s)
    ensures r.1 ==> r.0.userID.Some? && r.0.userToken.Some?
  {
    var (s1, id) := GetUserID(s);
    if id.None? then (s1, false)
    else
      var (s2, token) := GetUserToken(s1);
      (s2, token.Some?)
  }

  /** Loading twice is loading once. */
  lemma LoadIdempotent(s: Session)
    ensures Load(Load(s)) == Load(s)
  {
  }

  /** Load does nothing when both fields are cached. */
  lemma LoadKeepsFullCache(s: Session)
    requires s.userID.Some? && s.userToken.Some?
    ensures Load(s) == s
  {
  }

  /** Load does nothing without a keychain entry. */
  lemma LoadWithoutEntry(s: Session)
    requires s.keychain.None?
    ensures Load(s) == s
  {
  }

  /**
   * Otherwise Load replaces both fields with the entry's, so a value just set
   * in one field is dropped whenever the other is still nil.
   */
  lemma LoadOverwritesBoth(s: Session, d: Entry)
    requires s.userID.None? || s.userToken.None?
    requires s.keychain == Some(d)
    ensures Load(s) == Session(IntIn(d, UserIDKey), StringIn(d, AuthTokenKey), Some(d))
  {
  }

  /**
   * A token set while the id is still nil does not survive the next load: it
   * is replaced by the keychain's token (nil when the entry holds none).
   */
  lemma LoadDiscardsJustSetToken(s: Session, d: Entry, token: string)
    requires s.userID.None? && s.keychain == Some(d)
    ensures Load(s.(userToken := Some(token))).userToken == StringIn(d, AuthTokenKey)
    ensures Load(s.(userToken := Some(token))).userID == IntIn(d, UserIDKey)
  {
    LoadOverwritesBoth(s.(userToken := Some(token)), d);
  }

  /** Save writes the keychain only when both fields are set, and touches nothing else. */
  lemma SaveOnlyWhenComplete(s: Session)
    ensures Save(s).userID == s.userID && Save(s).userToken == s.userToken
    ensures s.userID.None? || s.userToken.None? ==> Save(s).keychain == s.keychain
    ensures s.userID.Some? && s.userToken.Some? ==>
      Save(s).keychain == Some(EntryFor(s.userID.value, s.userToken.value))
  {
  }

  /**
   * Setting the id and then the token stores both under `userID` and
   * `authToken`, and a fresh session (empty cache, same keychain) loads the
   * same values back.
   */
  lemma SetBothThenFreshLoad(s: Session, id: int, token: string)
    ensures var s1 := Save(s.(userID := Some(id)));
      var s2 := Save(s1.(userToken := Some(token)));
      && s2.keychain == Some(EntryFor(id, token))
      && Load(Session(None, None, s2.keychain)) == Session(Some(id), Some(token), s2.keychain)
  {
    assert UserIDKey != AuthTokenKey by { assert UserIDKey[0] != AuthTokenKey[0]; }
    var e := EntryFor(id, token);
    assert IntIn(e, UserIDKey) == Some(id);
    assert StringIn(e, AuthTokenKey) == Some(token);
  }

  /** Once both fields are set, the getters return them and change nothing. */
  lemma GettersUseFullCache(s: Session)
    requires s.userID.Some? && s.userToken.Some?
    ensures GetUserID(s) == (s, s.userID) && GetUserToken(s) == (s, s.userToken)
    ensures LoggedIn(s) == (s, true)
  {
  }

  /** `userIsLoggedIn` holds exactly when both getters return a value. */
  lemma LoggedInIffBothGetters(s: Session)
    ensures LoggedIn(s).1 <==> GetUserID(s).1.Some? && GetUserToken(GetUserID(s).0).1.Some?
    ensures LoggedIn(s).0 == Load(s)
  {
    LoadIdempotent(s);
  }

  /** The static fields of `UserSession` and the keychain behind them. */
  class UserSession {
    var storedUserID: Option<int>
    var storedUserToken: Option<string>
    var keychain: Option<Entry>

    constructor (keychain: Option<Entry>)
      ensures State() == Session(None, None, keychain)
    {
      storedUserID := None;
      storedUserToken := None;
      this.keychain := keychain;
    }

    function State(): Session
      reads this
    {
      Session(storedUserID, storedUserToken, keychain)
    }

    method LoadUserData()
      modifies this
      ensures State() == Load(old(State()))
    {
      if storedUserID.Some? && storedUserToken.Some? {
        return;
      }
      if keychain.Some? {
        var dictionary := keychain.value;
        storedUserID := IntIn(dictionary, UserIDKey);
        storedUserToken := StringIn(dictionary, AuthTokenKey);
      }
    }

    method SaveUserData()
      modifies this
      ensures State() == Save(old(State()))
    {
      if storedUserID.None? || storedUserToken.None? {
        return;
      }
      keychain := Some(EntryFor(storedUserID.value, storedUserToken.value));
    }

    /** The `userID` setter. */
    method SetUserID(newValue: Option<int>)
      modifies this
      ensures State() == Save(old(State()).(userID := newValue))
    {
      storedUserID := newValue;
      SaveUserData();
    }

    /** The `userID` getter. */
    method UserID() returns (id: Option<int>)
      modifies this
      ensures (State(), id) == GetUserID(old(State()))
    {
      LoadUserData();
      id := storedUserID;
    }

    /** The `userToken` setter. */
    method SetUserToken(newValue: Option<string>)
      modifies this
      ensures State() == Save(old(State()).(userToken := newValue))
    {
      storedUserToken := newValue;
      SaveUserData();
    }

    /** The `userToken` getter. */
    method UserToken() returns (token: Option<string>)
      modifies this
      ensures (State(), token) == GetUserToken(old(State()))
    {
      LoadUserData();
      token := storedUserToken;
    }

    method UserIsLoggedIn() returns (loggedIn: bool)
      modifies this
      ensures (State(), loggedIn) == LoggedIn(old(State()))
    {
      var id := UserID();
      if id.None? {
        return false;
      }
      var token := UserToken();
      loggedIn := token.Some?;
    }
  }
}
