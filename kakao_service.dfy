/** Kakao login: the SDK's presence and initialisation, and the two
    `localStorage` keys that hold a Kakao session. The SDK's login dialog and
    its user-info request are inputs: their outcome is passed in. */
module KakaoService {
  import opened Wrappers
  import opened Strings
  import opened Browser

  const UserIdKey := "kakao_user_id"
  const AccessTokenKey := "kakao_access_token"
  /** The value the example environment file ships for the JavaScript key. */
  const PlaceholderKey := "your_kakao_javascript_key_here"

  /** What `/v2/user/me` returns that the application reads: the numeric id,
      and the optional nickname and phone number of the account. */
  datatype KakaoUser = KakaoUser(id: nat, nickname: Option<string>, phoneNumber: Option<string>)

  datatype KakaoError =
    | SdkNotLoaded
    | SdkNotInitialized
    | LoginFailed
    | UserInfoFailed
    | NotLoggedIn
    | RequestFailed

  /** How `initKakao` ends. */
  datatype InitOutcome = NotLoaded | AlreadyInitialized | KeyMissing | InitThrew | Initialized

  function Lookup(items: map<string, string>, key: string): Option<string> {
    if key in items then Some(items[key]) else None
  }

  /** `isKakaoLoggedIn`: both keys present and non-empty. */
  predicate IsKakaoLoggedIn(items: map<string, string>)
    ensures IsKakaoLoggedIn(items) <==>
      UserIdKey in items && items[UserIdKey] != "" && AccessTokenKey in items && items[AccessTokenKey] != ""
  {
    Truthy(Lookup(items, UserIdKey)) && Truthy(Lookup(items, AccessTokenKey))
  }

  /** `getSavedKakaoUserId`. */
  function GetSavedKakaoUserId(items: map<string, string>): (r: Option<string>)
    ensures r.Some? <==> UserIdKey in items
    ensures r.Some? ==> r.value == items[UserIdKey]
  {
    Lookup(items, UserIdKey)
  }

  /** The storage a successful login leaves: the decimal user id and the token. */
  function StoredSession(items: map<string, string>, user: KakaoUser, token: string): map<string, string> {
    items[UserIdKey := NatToString(user.id)][AccessTokenKey := token]
  }

  /** The storage logout and an expired token leave: neither key. */
  function ClearedSession(items: map<string, string>): map<string, string> {
    items - {UserIdKey, AccessTokenKey}
  }

  /** After a successful login with a non-empty token the session counts as
      logged in and the saved id is the user's id in decimal; other keys keep
      their values. */
  lemma LoginThenLoggedIn(items: map<string, string>, user: KakaoUser, token: string)
    requires token != ""
    ensures IsKakaoLoggedIn(StoredSession(items, user, token))
    ensures GetSavedKakaoUserId(StoredSession(items, user, token)) == Some(NatToString(user.id))
    ensures forall k :: k in items && k != UserIdKey && k != AccessTokenKey ==>
      k in StoredSession(items, user, token) && StoredSession(items, user, token)[k] == items[k]
  {
  }

  /** After a logout the session is gone, and so is the saved id; other keys
      keep their values. */
  lemma LogoutThenLoggedOut(items: map<string, string>)
    ensures !IsKakaoLoggedIn(ClearedSession(items))
    ensures GetSavedKakaoUserId(ClearedSession(items)) == None
    ensures forall k :: k in items && k != UserIdKey && k != AccessTokenKey ==>
      k in ClearedSession(items) && ClearedSession(items)[k] == items[k]
  {
  }

  /** A logged-in session always has a saved, non-empty user id. */
  lemma LoggedInHasUserId(items: map<string, string>)
    requires IsKakaoLoggedIn(items)
    ensures GetSavedKakaoUserId(items).Some? && GetSavedKakaoUserId(items).value != ""
  {
  }

  /** `window.Kakao`: whether the SDK script loaded, and whether `init` succeeded. */
  class KakaoSdk {
    const loaded: bool
    var initialized: bool

    ghost predicate Valid()
      reads this
    {
      initialized ==> loaded
    }

    constructor(loaded: bool)
      ensures Valid()
      ensures this.loaded == loaded && !initialized
    {
      this.loaded := loaded;
      initialized := false;
    }

    /** `initKakao`: `key` is the configured JavaScript key (absent when not
        set); `initThrows` whether `Kakao.init` throws. */
    method InitKakao(key: Option<string>, initThrows: bool) returns (outcome: InitOutcome)
      requires Valid()
      modifies this
      ensures Valid()
      ensures !loaded ==> outcome == NotLoaded && !initialized
      ensures loaded && old(initialized) ==> outcome == AlreadyInitialized && initialized
      ensures loaded && !old(initialized) && (!Truthy(key) || key.value == PlaceholderKey) ==>
        outcome == KeyMissing && !initialized
      ensures loaded && !old(initialized) && Truthy(key) && key.value != PlaceholderKey ==>
        outcome == (if initThrows then InitThrew else Initialized) && initialized == !initThrows
    {
      if !loaded {
        return NotLoaded;
      }
      if initialized {
        return AlreadyInitialized;
      }
      if key.None? || key.value == "" || key.value == PlaceholderKey {
        return KeyMissing;
      }
      if initThrows {
        return InitThrew;
      }
      initialized := true;
      outcome := Initialized;
    }

    /** `loginWithKakao`: `accessToken` is the login dialog's outcome (the token,
        or `None` when it fails), `userInfo` that of the user-info request. */
    method LoginWithKakao(storage: LocalStorage, accessToken: Option<string>, userInfo: Option<KakaoUser>)
      returns (r: Result<KakaoUser, KakaoError>)
      requires Valid()
      modifies storage
      ensures !loaded ==> r == Failure(SdkNotLoaded)
      ensures loaded && !initialized ==> r == Failure(SdkNotInitialized)
      ensures loaded && initialized && accessToken.None? ==> r == Failure(LoginFailed)
      ensures loaded && initialized && accessToken.Some? && userInfo.None? ==> r == Failure(UserInfoFailed)
      ensures r.Success? <==> initialized && accessToken.Some? && userInfo.Some?
      ensures r.Success? ==> r.value == userInfo.value
      ensures r.Success? ==> storage.items == StoredSession(old(storage.items), userInfo.value, accessToken.value)
      ensures r.Failure? ==> storage.items == old(storage.items)
    {
      if !loaded {
        return Failure(SdkNotLoaded);
      }
      if !initialized {
        return Failure(SdkNotInitialized);
      }
      if accessToken.None? {
        return Failure(LoginFailed);
      }
      if userInfo.None? {
        return Failure(UserInfoFailed);
      }
      storage.SetItem(UserIdKey, NatToString(userInfo.value.id));
      storage.SetItem(AccessTokenKey, accessToken.value);
      r := Success(userInfo.value);
    }

    /** `logoutKakao`: the keys are removed in the SDK's logout callback, when
        it runs (`callbackRuns`). */
    method LogoutKakao(storage: LocalStorage, callbackRuns: bool)
      modifies storage
      ensures storage.items == if loaded && callbackRuns then ClearedSession(old(storage.items)) else old(storage.items)
    {
      if loaded && callbackRuns {
        storage.RemoveItem(UserIdKey);
        storage.RemoveItem(AccessTokenKey);
      }
    }

    /** `getKakaoUserInfo`: no request without a stored session; a failed
        request (an expired token) clears the session. */
    method GetKakaoUserInfo(storage: LocalStorage, response: Option<KakaoUser>) returns (r: Result<KakaoUser, KakaoError>)
      modifies storage
      ensures !loaded || !IsKakaoLoggedIn(old(storage.items)) ==>
        r == Failure(NotLoggedIn) && storage.items == old(storage.items)
      ensures loaded && IsKakaoLoggedIn(old(storage.items)) && response.None? ==>
        r == Failure(RequestFailed) && storage.items == ClearedSession(old(storage.items))
      ensures loaded && IsKakaoLoggedIn(old(storage.items)) && response.Some? ==>
        r == Success(response.value) && storage.items == old(storage.items)
    {
      var userId := storage.GetItem(UserIdKey);
      var token := storage.GetItem(AccessTokenKey);
      if !loaded || !(Truthy(userId) && Truthy(token)) {
        return Failure(NotLoggedIn);
      }
      if response.None? {
        storage.RemoveItem(UserIdKey);
        storage.RemoveItem(AccessTokenKey);
        return Failure(RequestFailed);
      }
      r := Success(response.value);
    }
  }
}
