/** The GitHub sign-in state of the application: a token and a user name
    mirrored in browser storage under three fixed keys, the remote `/user`
    call supplied as its outcome, and the owner and OAuth `state` checks. */
module Auth {
  import opened Common

  const TokenKey := "github_token"
  const UsernameKey := "github_username"
  const AuthStateKey := "github_auth_state"

  /** The body of a successful `/user` reply; only `login` is read. */
  datatype UserInfo = UserInfo(login: Option<string>)

  /** How the `/user` request ended: a 2xx reply with its body, a non-2xx
      status, or a rejected fetch / unreadable body. */
  datatype UserResponse = UserOk(info: UserInfo) | HttpError(status: int) | NetworkError

  /** What isOwner settles to: a boolean, or the TypeError raised by
      `null.toLowerCase()` when the reply carried no login. */
  datatype OwnerAnswer = Answer(owner: bool) | NoLoginError

  /** The credential part of the object together with the storage it mirrors. */
  datatype Session = Session(token: Option<string>, username: Option<string>, storage: map<string, string>)

  /** The three storage keys the object owns. */
  predicate IsAuthKey(k: string) {
    k == TokenKey || k == UsernameKey || k == AuthStateKey
  }

  /** `!!this.token`. */
  predicate Authenticated(s: Session) {
    Truthy(s.token)
  }

  // ---------------------------------------------------------------------
  // The operations on values
  // ---------------------------------------------------------------------

  /** loadAuthData: both fields are read back from storage (null when absent). */
  function Load(storage: map<string, string>): (r: Session)
    ensures r.storage == storage
    ensures r.token == Get(storage, TokenKey) && r.username == Get(storage, UsernameKey)
  {
    Session(Get(storage, TokenKey), Get(storage, UsernameKey), storage)
  }

  /** saveAuthData: each truthy field is written to its key; nothing is removed. */
  function Saved(s: Session): Session {
    var st := if Truthy(s.token) then s.storage[TokenKey := s.token.value] else s.storage;
    var st' := if Truthy(s.username) then st[UsernameKey := s.username.value] else st;
    s.(storage := st')
  }

  /** clearAuthData. */
  function Cleared(s: Session): Session {
    Session(None, None, s.storage - {TokenKey, UsernameKey, AuthStateKey})
  }

  /** setToken. */
  function WithToken(s: Session, token: Option<string>): Session {
    Saved(s.(token := token))
  }

  /** The storage half of login: the freshly generated state is remembered. */
  function LoginStarted(s: Session, state: string): Session {
    s.(storage := s.storage[AuthStateKey := state])
  }

  /** fetchUserInfo given how its request ends. */
  function Fetch(s: Session, resp: UserResponse): (Option<UserInfo>, Session) {
    if !Authenticated(s) then (None, s)
    else match resp
      case HttpError(status) => if status == 401 then (None, Cleared(s)) else (None, s)
      case NetworkError => (None, s)
      case UserOk(info) => (Some(info), Saved(s.(username := info.login)))
  }

  /** isOwner: the answer, the new session, and whether `/user` was requested. */
  function OwnerCheck(s: Session, repoOwner: string, resp: UserResponse): (OwnerAnswer, Session, bool) {
    if !Authenticated(s) then (Answer(false), s, false)
    else if Truthy(s.username) then (Answer(Lower(s.username.value) == Lower(repoOwner)), s, false)
    else
      var (user, s') := Fetch(s, resp);
      if user.None? then (Answer(false), s', true)
      else if s'.username.None? then (NoLoginError, s', true)
      else (Answer(Lower(s'.username.value) == Lower(repoOwner)), s', true)
  }

  /** validateToken. */
  function Validate(s: Session, resp: UserResponse): (bool, Session) {
    var (user, s') := Fetch(s, resp);
    (user.Some?, s')
  }

  /** The guard at the head of handleCallback as it is written: `state !== savedState`
      on two values that may each be null. */
  predicate StateMatchesAsWritten(state: Option<string>, saved: Option<string>) {
    state == saved
  }

  /** The guard as the CSRF check of section 10.12 of RFC 6749 intends it: the
      callback must carry the value this browser stored when the login began. */
  predicate StateMatches(state: Option<string>, saved: Option<string>) {
    saved.Some? && state == saved
  }

  /** handleCallback as it is written: the code when `state` is strictly equal
      to the stored state (and the stored state is dropped), nothing and no
      change otherwise. */
  function Callback(s: Session, code: string, state: Option<string>): (Option<string>, Session) {
    if StateMatchesAsWritten(state, Get(s.storage, AuthStateKey)) then (Some(code), s.(storage := s.storage - {AuthStateKey}))
    else (None, s)
  }

  /** handleCallback with the guard RFC 6749 intends: a stored state is required. */
  function CallbackChecked(s: Session, code: string, state: Option<string>): (Option<string>, Session) {
    if StateMatches(state, Get(s.storage, AuthStateKey)) then (Some(code), s.(storage := s.storage - {AuthStateKey}))
    else (None, s)
  }

  // ---------------------------------------------------------------------
  // Properties
  // ---------------------------------------------------------------------

  /** A session saved and then loaded again has its truthy fields back; a falsy
      field keeps whatever the storage held; other keys are untouched. */
  lemma SaveThenLoad(s: Session)
    ensures var l := Load(Saved(s).storage);
            && (Truthy(s.token) ==> l.token == s.token)
            && (!Truthy(s.token) ==> l.token == Get(s.storage, TokenKey))
            && (Truthy(s.username) ==> l.username == s.username)
            && (!Truthy(s.username) ==> l.username == Get(s.storage, UsernameKey))
    ensures forall k :: k != TokenKey && k != UsernameKey ==> Get(Saved(s).storage, k) == Get(s.storage, k)
  {
  }

  /** After clearing, nothing is signed in and none of the three keys is stored;
      every other key is kept. */
  lemma ClearedForgetsEverything(s: Session)
    ensures var c := Cleared(s);
            && !Authenticated(c) && c.username.None?
            && Load(c.storage) == c
            && (forall k :: IsAuthKey(k) ==> k !in c.storage)
            && (forall k :: !IsAuthKey(k) ==> Get(c.storage, k) == Get(s.storage, k))
  {
  }

  /** setToken with a non-empty token signs in and persists that token. */
  lemma SetTokenPersists(s: Session, token: string)
    requires token != ""
    ensures var t := WithToken(s, Some(token));
            && Authenticated(t) && t.token == Some(token)
            && Load(t.storage).token == Some(token)
  {
  }

  /** Without a token no request is made: the outcome does not depend on the
      response and the session is unchanged. */
  lemma FetchWithoutToken(s: Session, r1: UserResponse, r2: UserResponse)
    requires !Authenticated(s)
    ensures Fetch(s, r1) == Fetch(s, r2) == (None, s)
  {
  }

  /** A 401 signs out; any other failure keeps the session as it was; a
      success records and persists the login. */
  lemma FetchOutcomes(s: Session, resp: UserResponse)
    requires Authenticated(s)
    ensures resp == HttpError(401) ==> Fetch(s, resp) == (None, Cleared(s))
    ensures (resp.NetworkError? || (resp.HttpError? && resp.status != 401)) ==> Fetch(s, resp) == (None, s)
    ensures resp.UserOk? ==>
              var (user, s') := Fetch(s, resp);
              && user == Some(resp.info) && s'.token == s.token && s'.username == resp.info.login
              && Load(s'.storage).token == s.token
              && (Truthy(resp.info.login) ==> Load(s'.storage).username == resp.info.login)
  {
    if resp.UserOk? {
      SaveThenLoad(s.(username := resp.info.login));
    }
  }

  /** The owner check never requests when signed out or when a user name is
      cached, and then does not depend on the response; otherwise it requests
      `/user`, and a returned login answers whether it matches the repository
      owner ignoring case, while a user without a login is the TypeError of
      `this.username.toLowerCase()`. */
  lemma OwnerCheckDecides(s: Session, repoOwner: string, r1: UserResponse, r2: UserResponse)
    ensures !Authenticated(s) ==> OwnerCheck(s, repoOwner, r1) == (Answer(false), s, false)
    ensures Authenticated(s) && Truthy(s.username) ==>
              OwnerCheck(s, repoOwner, r1) == OwnerCheck(s, repoOwner, r2)
              == (Answer(Lower(s.username.value) == Lower(repoOwner)), s, false)
    ensures OwnerCheck(s, repoOwner, r1).0 == Answer(true) ==>
              var s' := OwnerCheck(s, repoOwner, r1).1;
              s'.username.Some? && Lower(s'.username.value) == Lower(repoOwner)
    ensures Authenticated(s) && !Truthy(s.username) && r1.UserOk? ==>
              && OwnerCheck(s, repoOwner, r1).2
              && (r1.info.login.Some? ==>
                    OwnerCheck(s, repoOwner, r1).0 == Answer(Lower(r1.info.login.value) == Lower(repoOwner)))
              && (r1.info.login.None? ==> OwnerCheck(s, repoOwner, r1).0 == NoLoginError)
  {
  }

  /** A fetch that returns nothing makes the owner check false. */
  lemma OwnerCheckFailedFetch(s: Session, repoOwner: string, resp: UserResponse)
    requires Authenticated(s) && !Truthy(s.username)
    requires Fetch(s, resp).0.None?
    ensures OwnerCheck(s, repoOwner, resp) == (Answer(false), Fetch(s, resp).1, true)
  {
  }

  /** A token rejected with 401 during validation leaves the object signed out,
      so a later owner check is false whatever the network would say, and asks
      nothing of it. */
  lemma RejectedTokenIsNotOwner(s: Session, repoOwner: string, later: UserResponse)
    requires Authenticated(s)
    ensures var (valid, s') := Validate(s, HttpError(401));
            && !valid && !Authenticated(s')
            && OwnerCheck(s', repoOwner, later) == (Answer(false), s', false)
  {
  }

  /** As written, a callback is accepted exactly when its `state` equals what
      storage holds under the state key (both may be null); an accepted callback
      returns the code and removes the key, a refused one changes nothing. */
  lemma CallbackAccepts(s: Session, code: string, given: Option<string>)
    ensures var (r, s') := Callback(s, code, given);
            && (r.Some? <==> given == Get(s.storage, AuthStateKey))
            && (r.Some? ==>
                  && r == Some(code) && AuthStateKey !in s'.storage
                  && s'.token == s.token && s'.username == s.username
                  && (forall k :: k != AuthStateKey ==> Get(s'.storage, k) == Get(s.storage, k)))
            && (r.None? ==> s' == s)
  {
  }

  /** After a login has stored its state, the callback carrying that state is
      accepted, any other is refused, and the spent state cannot be replayed. */
  lemma CallbackAfterLogin(s: Session, state: string, code: string, given: Option<string>)
    ensures var (r, s') := Callback(LoginStarted(s, state), code, given);
            && (r.Some? <==> given == Some(state))
            && (r.Some? ==> r == Some(code) && Callback(s', code, given).0.None?)
  {
  }

  /** As written, a callback without a `state` parameter passes the guard when
      no login was started, since null is strictly equal to null, and the code
      is returned. */
  lemma AsWrittenAcceptsMissingState(s: Session, code: string)
    requires AuthStateKey !in s.storage
    ensures Callback(s, code, None) == (Some(code), s)
    ensures !StateMatches(None, Get(s.storage, AuthStateKey))
  {
    assert s.storage - {AuthStateKey} == s.storage;
  }

  /** With the intended guard, a callback is accepted exactly when it carries
      the state stored by the login that started it; the stored state is then
      spent, so the same callback cannot be replayed. */
  lemma CallbackNeedsLoginState(s: Session, state: string, code: string, given: Option<string>)
    ensures var (r, s') := CallbackChecked(LoginStarted(s, state), code, given);
            && (r.Some? <==> given == Some(state))
            && (r.Some? ==> r == Some(code) && CallbackChecked(s', code, given).0.None?)
  {
  }

  /** With the intended guard, no callback is accepted when no login was started. */
  lemma CallbackWithoutLogin(s: Session, code: string, given: Option<string>)
    requires AuthStateKey !in s.storage
    ensures CallbackChecked(s, code, given) == (None, s)
  {
  }

  // ---------------------------------------------------------------------
  // The object
  // ---------------------------------------------------------------------

  /** The GitHubAuth object; `storage` stands for the browser's localStorage. */
  class GitHubAuth {
    const clientId: string
    const repoOwner: string
    var token: Option<string>
    var username: Option<string>
    var storage: map<string, string>

    function Current(): Session
      reads this
    {
      Session(token, username, storage)
    }

    /** The constructor loads the stored credentials. */
    constructor (clientId: string, repoOwner: string, storage: map<string, string>)
      ensures this.clientId == clientId && this.repoOwner == repoOwner
      ensures Current() == Load(storage)
    {
      this.clientId := clientId;
      this.repoOwner := repoOwner;
      this.storage := storage;
      new;
      LoadAuthData();
    }

    method LoadAuthData()
      modifies this
      ensures Current() == Load(old(storage))
    {
      token := if TokenKey in storage then Some(storage[TokenKey]) else None;
      username := if UsernameKey in storage then Some(storage[UsernameKey]) else None;
    }

    method SaveAuthData()
      modifies this
      ensures Current() == Saved(old(Current()))
    {
      if token.Some? && token.value != "" {
        storage := storage[TokenKey := token.value];
      }
      if username.Some? && username.value != "" {
        storage := storage[UsernameKey := username.value];
      }
    }

    method ClearAuthData()
      modifies this
      ensures Current() == Cleared(old(Current()))
    {
      token := None;
      username := None;
      storage := storage - {TokenKey};
      storage := storage - {UsernameKey};
      storage := storage - {AuthStateKey};
    }

    method SetToken(t: Option<string>)
      modifies this
      ensures Current() == WithToken(old(Current()), t)
    {
      token := t;
      SaveAuthData();
    }

    predicate IsAuthenticated()
      reads this
    {
      Authenticated(Current())
    }

    method FetchUserInfo(resp: UserResponse) returns (user: Option<UserInfo>)
      modifies this
      ensures (user, Current()) == Fetch(old(Current()), resp)
    {
      if !(token.Some? && token.value != "") {
        return None;
      }
      match resp {
        case HttpError(status) =>
          if status == 401 {
            ClearAuthData();
          }
          return None;
        case NetworkError =>
          return None;
        case UserOk(info) =>
          username := info.login;
          SaveAuthData();
          return Some(info);
      }
    }

    /** `resp` is how the `/user` request would end; `requested` tells whether
        it was made. */
    method IsOwner(resp: UserResponse) returns (answer: OwnerAnswer, requested: bool)
      modifies this
      ensures (answer, Current(), requested) == OwnerCheck(old(Current()), repoOwner, resp)
    {
      if !IsAuthenticated() {
        return Answer(false), false;
      }
      requested := false;
      if !(username.Some? && username.value != "") {
        var userInfo := FetchUserInfo(resp);
        requested := true;
        if userInfo.None? {
          return Answer(false), requested;
        }
      }
      if username.None? {
        return NoLoginError, requested;
      }
      answer := Answer(Lower(username.value) == Lower(repoOwner));
    }

    method ValidateToken(resp: UserResponse) returns (valid: bool)
      modifies this
      ensures (valid, Current()) == Validate(old(Current()), resp)
    {
      var userInfo := FetchUserInfo(resp);
      valid := userInfo.Some?;
    }

    /** The storage half of login; the state is a parameter in place of
        generateRandomState. */
    method Login(state: string)
      modifies this
      ensures Current() == LoginStarted(old(Current()), state)
    {
      storage := storage[AuthStateKey := state];
    }

    /** Returns the code, or None where the source throws. */
    method HandleCallback(code: string, state: Option<string>) returns (r: Option<string>)
      modifies this
      ensures (r, Current()) == Callback(old(Current()), code, state)
    {
      var savedState := if AuthStateKey in storage then Some(storage[AuthStateKey]) else None;
      if state != savedState {
        return None;
      }
      storage := storage - {AuthStateKey};
      return Some(code);
    }
  }
}
