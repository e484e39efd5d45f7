/** `PlatformManager`: which platform the user is connected to, who the user
    is, and the authorization state, with its persistence in the "platform"
    preferences. AppAuth's `AuthState` is reduced to whether it is
    authorized; its JSON form to a record carrying that flag. */
module Manager {
  import opened Wrappers
  import opened UserData
  import opened Platform

  /** The JSON object `jsonSerialize` builds: the platform's enum name under
      "current_platform" and the user under "current_user". */
  datatype PlatformStateJson = PlatformStateJson(currentPlatform: string, currentUser: User)

  /** `AuthState.jsonSerializeString()`, reduced to what the model keeps. */
  datatype AuthStateJson = AuthStateJson(authorized: bool)

  /** What AppAuth hands to `requestToken`: exactly one of a response and an
      exception. */
  datatype AuthorizationResult = AuthorizationResponse | AuthorizationException

  /** What the token exchange delivers to its callback. */
  datatype TokenResult = TokenResponse(grantsAccess: bool) | TokenException

  /** The saved entries of the "platform" preferences file; `None` is an
      absent key, which `getString(key, "")` reads as "". */
  class PlatformStore {
    var platformState: Option<PlatformStateJson>   // "platform_state_json"
    var authState: Option<AuthStateJson>           // "auth_state_json"

    constructor ()
      ensures platformState == None && authState == None
    {
      platformState := None;
      authState := None;
    }
  }

  /** `jsonSerialize()` as a function of the two fields it reads. */
  function Serialize(platform: PlatformEnum, user: User): PlatformStateJson {
    PlatformStateJson(Name(platform), user)
  }

  /** Decoding the serialized state gives back the platform and the user. */
  lemma SerializeRoundTrip(platform: PlatformEnum, user: User)
    ensures PlatformEnumFromName(Serialize(platform, user).currentPlatform) == platform
    ensures Serialize(platform, user).currentUser == user
  {
    NameRoundTrip(platform);
  }

  class PlatformManager {
    var currentPlatformAPI: PlatformAPI
    var authorized: bool          // authState.isAuthorized
    var currentPlatform: PlatformEnum
    var currentUser: User
    const store: PlatformStore

    /** The platform setter keeps the API implementation in step with the platform. */
    ghost predicate Valid()
      reads this
    {
      currentPlatformAPI == GetPlatformAPI(currentPlatform)
    }

    constructor (store: PlatformStore)
      ensures Valid() && this.store == store
      ensures currentPlatform == PlatformEnum.LogOut && currentUser == LOGGED_OUT && !authorized
      ensures currentPlatformAPI == LogOutAPI
    {
      currentPlatformAPI := LogOutAPI;
      authorized := false;
      currentPlatform := PlatformEnum.LogOut;
      currentUser := LOGGED_OUT;
      this.store := store;
    }

    /** `isAuthorized()`. */
    predicate IsAuthorized()
      reads this
    {
      authorized
    }

    /** `isReady()`: connected to a platform, with a user that is not
        `LOGGED_OUT` (by `User.equals`), and authorized. */
    predicate IsReady()
      reads this
    {
      currentPlatform != PlatformEnum.LogOut && !UserEquals(currentUser, LOGGED_OUT) && IsAuthorized()
    }

    /** The private setter of `currentPlatform`: swaps the API implementation
        and starts from a fresh, unauthorized `AuthState()`. */
    method SetCurrentPlatform(value: PlatformEnum)
      modifies this
      ensures Valid()
      ensures currentPlatform == value && currentPlatformAPI == GetPlatformAPI(value) && !authorized
      ensures currentUser == old(currentUser)
    {
      currentPlatformAPI := GetPlatformAPI(value);
      authorized := false;
      currentPlatform := value;
    }

    /** `startLoginActivity`: selects the platform, launches the platform's
        login screen (outside the model) and starts from an unauthorized
        `AuthState(serviceConfig)`. */
    method StartLoginActivity(platform: PlatformEnum)
      modifies this
      ensures Valid()
      ensures currentPlatform == platform && currentPlatformAPI == GetPlatformAPI(platform) && !authorized
      ensures currentUser == old(currentUser)
    {
      SetCurrentPlatform(platform);
      // `authState = AuthState(serviceConfig)`: a fresh state holds no token.
      authorized := false;
    }

    /** `requestToken`: an exception logs out and requests no token; a
        response starts the token exchange. Either way AppAuth's
        `update(response, exception)` leaves the state without tokens yet. */
    method RequestToken(result: AuthorizationResult) returns (tokenRequested: bool)
      requires Valid()
      modifies this
      ensures Valid() && !authorized && currentUser == old(currentUser)
      ensures tokenRequested <==> result == AuthorizationResponse
      ensures result == AuthorizationException ==> currentPlatform == PlatformEnum.LogOut
      ensures result == AuthorizationResponse ==> currentPlatform == old(currentPlatform)
    {
      authorized := false;
      if result == AuthorizationException {
        SetCurrentPlatform(PlatformEnum.LogOut);
        return false;
      }
      tokenRequested := true;
    }

    /** The token exchange's callback: an exception logs out; a response that
        leaves the state authorized asks for the user's information. */
    method OnTokenResponse(result: TokenResult) returns (userInformationRequested: bool)
      requires Valid()
      modifies this
      ensures Valid() && currentUser == old(currentUser)
      ensures result.TokenException? ==> currentPlatform == PlatformEnum.LogOut && !authorized && !userInformationRequested
      ensures result.TokenResponse? ==>
                currentPlatform == old(currentPlatform) && authorized == result.grantsAccess &&
                userInformationRequested == result.grantsAccess
    {
      if result.TokenException? {
        SetCurrentPlatform(PlatformEnum.LogOut);
        return false;
      }
      authorized := result.grantsAccess;
      userInformationRequested := authorized;
    }

    /** The success callback of `updateUserInformation`. */
    method OnUserInformation(user: User)
      modifies this`currentUser
      ensures currentUser == user
    {
      currentUser := user;
    }

    /** `logOut`: back to `LOG_OUT` and `LOGGED_OUT` with a fresh `AuthState`,
        then `saveState()`, which removes the saved entries. */
    method LogOut()
      modifies this, store
      ensures Valid()
      ensures currentPlatform == PlatformEnum.LogOut && currentUser == LOGGED_OUT && !authorized
      ensures !IsReady()
      ensures store.platformState == None && store.authState == None
    {
      SetCurrentPlatform(PlatformEnum.LogOut);
      currentUser := LOGGED_OUT;
      authorized := false;
      SaveState();
    }

    /** `jsonSerialize()`. */
    function JsonSerialize(): (json: PlatformStateJson)
      reads this
      ensures PlatformEnumFromName(json.currentPlatform) == currentPlatform
      ensures json.currentUser == currentUser
    {
      NameRoundTrip(currentPlatform);
      Serialize(currentPlatform, currentUser)
    }

    /** `jsonDeserialize(json)`: the platform goes through its setter. */
    method JsonDeserialize(json: PlatformStateJson)
      modifies this
      ensures Valid()
      ensures currentPlatform == PlatformEnumFromName(json.currentPlatform)
      ensures currentUser == json.currentUser && !authorized
    {
      SetCurrentPlatform(PlatformEnumFromName(json.currentPlatform));
      currentUser := json.currentUser;
    }

    /** `saveState()`: writes both entries when connected to a platform and
        removes both otherwise. */
    method SaveState()
      modifies store
      ensures currentPlatform != PlatformEnum.LogOut ==>
                store.platformState == Some(JsonSerialize()) &&
                store.authState == Some(AuthStateJson(authorized))
      ensures currentPlatform == PlatformEnum.LogOut ==> store.platformState == None && store.authState == None
    {
      if currentPlatform != PlatformEnum.LogOut {
        store.platformState := Some(JsonSerialize());
        store.authState := Some(AuthStateJson(authorized));
      } else {
        store.platformState := None;
        store.authState := None;
      }
    }

    /** `loadState()`: restores the saved state only when both entries are
        present, and reports `isReady()`; when ready it asks for the user's
        information, otherwise it calls the error callback. */
    method LoadState() returns (loaded: bool)
      requires Valid()
      modifies this
      ensures Valid()
      ensures loaded == IsReady()
      ensures store.platformState.Some? && store.authState.Some? ==>
                currentPlatform == PlatformEnumFromName(store.platformState.value.currentPlatform) &&
                currentUser == store.platformState.value.currentUser &&
                authorized == store.authState.value.authorized
      ensures !(store.platformState.Some? && store.authState.Some?) ==>
                currentPlatform == old(currentPlatform) && currentUser == old(currentUser) &&
                authorized == old(authorized)
    {
      if store.platformState.Some? && store.authState.Some? {
        JsonDeserialize(store.platformState.value);
        authorized := store.authState.value.authorized;
      }
      loaded := IsReady();
    }
  }

  /** What was saved by one manager is what a later manager on the same
      preferences loads: the platform, the user and the authorization come
      back, and `loadState` answers `isReady()` of the saved state. */
  method SaveThenLoad(saver: PlatformManager) returns (loader: PlatformManager, loaded: bool)
    requires saver.Valid() && saver.currentPlatform != LogOut
    modifies saver.store
    ensures loader.store == saver.store
    ensures loader.currentPlatform == saver.currentPlatform
    ensures loader.currentUser == saver.currentUser
    ensures loader.authorized == saver.authorized
    ensures loaded == saver.IsReady()
  {
    saver.SaveState();
    loader := new PlatformManager(saver.store);
    loaded := loader.LoadState();
  }
}
