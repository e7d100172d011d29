/**
 The browser-side account store of the front end (AuthContext.js): a list
 of local accounts and the current session, both kept in `localStorage`,
 changed by `signup`, `login`, `logout` and the local fallback of
 `updateProfile` (taken when the server call fails).

 The state holds the two stored values; the React copy of the session is
 always set to the same value, so it is not kept separately. `Date.now()`,
 the new account's id, is the parameter `now`.
 */
module Auth {
  import opened Base

  /** A stored account; the password is kept in plain text, as the source does. */
  datatype Account = Account(id: int, name: string, email: string, password: string, avatar: Option<string>)

  /**
   A session: `{ email, name, avatar, isLoggedIn: true }`. It has no
   password field, so no session can hold a password.
   */
  datatype Session = Session(email: string, name: string, avatar: Option<string>)

  datatype AuthState = AuthState(users: seq<Account>, session: Option<Session>)

  /** The fields of an `updateProfile` call; an absent key is `None`. */
  datatype ProfileUpdate = ProfileUpdate(name: Option<string>, email: Option<string>, avatar: Option<string>, password: Option<string>)

  /** A call's outcome: the new session, or the message of the thrown error. */
  datatype AuthResult = SignedIn(session: Session) | AuthError(message: string)

  const EmailTaken: string := "User with this email already exists"
  const BadCredentials: string := "Invalid credentials"
  const NoCurrentUser: string := "No current user"
  const NoUserRecord: string := "User record not found"

  predicate UniqueEmails(users: seq<Account>) {
    forall i, j :: 0 <= i < j < |users| ==> users[i].email != users[j].email
  }

  /** `users.findIndex(u => u.email === email)`. */
  function FindEmail(users: seq<Account>, email: string): (r: Option<nat>)
    ensures r.None? <==> forall j :: 0 <= j < |users| ==> users[j].email != email
    ensures r.Some? ==> r.value < |users| && users[r.value].email == email
    ensures r.Some? ==> forall j :: 0 <= j < r.value ==> users[j].email != email
  {
    if |users| == 0 then None
    else if users[0].email == email then Some(0)
    else
      match FindEmail(users[1..], email)
      case None => None
      case Some(k) => Some(k + 1)
  }

  /** `users.find(u => u.email === email && u.password === password)`, as an index. */
  function FindLogin(users: seq<Account>, email: string, password: string): (r: Option<nat>)
    ensures r.None? <==> forall j :: 0 <= j < |users| ==> !(users[j].email == email && users[j].password == password)
    ensures r.Some? ==> r.value < |users| && users[r.value].email == email && users[r.value].password == password
    ensures r.Some? ==> forall j :: 0 <= j < r.value ==> !(users[j].email == email && users[j].password == password)
  {
    if |users| == 0 then None
    else if users[0].email == email && users[0].password == password then Some(0)
    else
      match FindLogin(users[1..], email, password)
      case None => None
      case Some(k) => Some(k + 1)
  }

  /**
   `signup`: an email already in the list is refused and nothing changes;
   otherwise exactly one account is appended and it becomes the session.
   */
  function Signup(st: AuthState, name: string, email: string, password: string, now: int): (r: (AuthResult, AuthState))
    ensures (exists i :: 0 <= i < |st.users| && st.users[i].email == email) ==> r == (AuthError(EmailTaken), st)
    ensures (forall i :: 0 <= i < |st.users| ==> st.users[i].email != email) ==>
      && r.1.users == st.users + [Account(now, name, email, password, None)]
      && r.0 == SignedIn(Session(email, name, None))
      && r.1.session == Some(r.0.session)
  {
    match FindEmail(st.users, email)
    case Some(_) => (AuthError(EmailTaken), st)
    case None =>
      var account := Account(now, name, email, password, None);
      var session := Session(account.email, account.name, None);
      (SignedIn(session), AuthState(st.users + [account], Some(session)))
  }

  /**
   `login`: succeeds exactly when some account has both that email and that
   password, with the session of the first such account; a failure changes
   nothing, and the account list never changes.
   */
  function Login(st: AuthState, email: string, password: string): (r: (AuthResult, AuthState))
    ensures r.0.SignedIn? <==> exists i :: 0 <= i < |st.users| && st.users[i].email == email && st.users[i].password == password
    ensures r.0.AuthError? ==> r == (AuthError(BadCredentials), st)
    ensures r.1.users == st.users
    ensures r.0.SignedIn? ==>
      exists i :: (0 <= i < |st.users|
        && st.users[i].email == email && st.users[i].password == password
        && (forall j :: 0 <= j < i ==> !(st.users[j].email == email && st.users[j].password == password))
        && r.0.session == Session(st.users[i].email, st.users[i].name, None)
        && r.1.session == Some(r.0.session))
  {
    match FindLogin(st.users, email, password)
    case None => (AuthError(BadCredentials), st)
    case Some(i) =>
      var session := Session(st.users[i].email, st.users[i].name, None);
      (SignedIn(session), AuthState(st.users, Some(session)))
  }

  /** `logout`: the session is removed; the accounts stay. */
  function Logout(st: AuthState): (r: AuthState)
    ensures r.session.None? && r.users == st.users
  {
    AuthState(st.users, None)
  }

  /** `{ ...account, ...updates }`: a key present in the update wins. */
  function Merge(a: Account, u: ProfileUpdate): (r: Account)
    ensures r.id == a.id
    ensures r.name == u.name.GetOr(a.name) && r.email == u.email.GetOr(a.email)
    ensures r.password == u.password.GetOr(a.password)
    ensures r.avatar == (if u.avatar.Some? then u.avatar else a.avatar)
  {
    Account(a.id, u.name.GetOr(a.name), u.email.GetOr(a.email), u.password.GetOr(a.password),
            if u.avatar.Some? then u.avatar else a.avatar)
  }

  /**
   The local fallback of `updateProfile`: with no session, or no account
   with the session's email, it fails and nothing changes; otherwise the
   update is merged into the first account with that email, every other
   account stays, and the session is rebuilt from the merged account.
   */
  function UpdateProfileFallback(st: AuthState, u: ProfileUpdate): (r: (AuthResult, AuthState))
    ensures st.session.None? ==> r == (AuthError(NoCurrentUser), st)
    ensures st.session.Some? && (forall j :: 0 <= j < |st.users| ==> st.users[j].email != st.session.value.email) ==>
      r == (AuthError(NoUserRecord), st)
    ensures r.0.SignedIn? <==> st.session.Some? && exists j :: 0 <= j < |st.users| && st.users[j].email == st.session.value.email
    ensures r.0.SignedIn? ==>
      && st.session.Some?
      && |r.1.users| == |st.users|
      && r.1.session == Some(r.0.session)
      && exists i :: (0 <= i < |st.users|
           && st.users[i].email == st.session.value.email
           && (forall j :: 0 <= j < i ==> st.users[j].email != st.session.value.email)
           && r.1.users[i] == Merge(st.users[i], u)
           && r.0.session == Session(r.1.users[i].email, r.1.users[i].name, r.1.users[i].avatar)
           && (forall j :: 0 <= j < |st.users| && j != i ==> r.1.users[j] == st.users[j]))
  {
    match st.session
    case None => (AuthError(NoCurrentUser), st)
    case Some(current) =>
      match FindEmail(st.users, current.email)
      case None => (AuthError(NoUserRecord), st)
      case Some(i) =>
        var merged := Merge(st.users[i], u);
        var session := Session(merged.email, merged.name, merged.avatar);
        (SignedIn(session), AuthState(st.users[i := merged], Some(session)))
  }

  // ---------------------------------------------------------------------------
  // The unique-email invariant

  /** Signup, login and logout keep the emails of the stored accounts unique. */
  lemma TransitionsKeepUnique(st: AuthState, name: string, email: string, password: string, now: int)
    requires UniqueEmails(st.users)
    ensures UniqueEmails(Signup(st, name, email, password, now).1.users)
    ensures UniqueEmails(Login(st, email, password).1.users)
    ensures UniqueEmails(Logout(st).users)
  {
    var users' := Signup(st, name, email, password, now).1.users;
    if FindEmail(st.users, email).None? {
      forall i, j | 0 <= i < j < |users'|
        ensures users'[i].email != users'[j].email
      {
        if j == |st.users| {
          assert users'[i] == st.users[i];
        } else {
          assert users'[i] == st.users[i] && users'[j] == st.users[j];
        }
      }
    }
  }

  /** After a signup, logging in with the same email and password gives the same session. */
  lemma SignupThenLogin(st: AuthState, name: string, email: string, password: string, now: int)
    requires UniqueEmails(st.users)
    requires forall i :: 0 <= i < |st.users| ==> st.users[i].email != email
    ensures var (s, st') := Signup(st, name, email, password, now);
      Login(st', email, password).0 == s
  {
    var st' := Signup(st, name, email, password, now).1;
    var k := |st.users|;
    assert st'.users[k].email == email && st'.users[k].password == password;
    assert FindLogin(st'.users, email, password).Some?;
  }

  /**
   As written, the fallback update can give an account the email of another
   one: two accounts, the second signed in, changes its email to the
   first's.
   */
  lemma FallbackBreaksUnique()
    ensures var a := Account(1, "A", "a@x", "p", None);
      var b := Account(2, "B", "b@x", "q", None);
      var st := AuthState([a, b], Some(Session("b@x", "B", None)));
      var (r, st') := UpdateProfileFallback(st, ProfileUpdate(None, Some("a@x"), None, None));
      && UniqueEmails(st.users)
      && r.SignedIn?
      && !UniqueEmails(st'.users)
  {
    var a := Account(1, "A", "a@x", "p", None);
    var b := Account(2, "B", "b@x", "q", None);
    assert a.email != b.email;
    var st := AuthState([a, b], Some(Session("b@x", "B", None)));
    assert FindEmail(st.users, "b@x") == Some(1);
  }

  /**
   The consequence: once two accounts share an email, the signed-in user's
   next update is merged into the other account, the first with that email,
   and their own record keeps its old name.
   */
  lemma FallbackUpdatesWrongAccount()
    ensures var a := Account(1, "A", "a@x", "p", None);
      var b := Account(2, "B", "b@x", "q", None);
      var st := AuthState([a, b], Some(Session("b@x", "B", None)));
      var st1 := UpdateProfileFallback(st, ProfileUpdate(None, Some("a@x"), None, None)).1;
      var st2 := UpdateProfileFallback(st1, ProfileUpdate(Some("Bee"), None, None, None)).1;
      && st2.users[0].id == 1 && st2.users[0].name == "Bee"
      && st2.users[1].id == 2 && st2.users[1].name == "B"
  {
    var a := Account(1, "A", "a@x", "p", None);
    var b := Account(2, "B", "b@x", "q", None);
    var st := AuthState([a, b], Some(Session("b@x", "B", None)));
    assert FindEmail(st.users, "b@x") == Some(1);
    var st1 := UpdateProfileFallback(st, ProfileUpdate(None, Some("a@x"), None, None)).1;
    assert FindEmail(st1.users, "a@x") == Some(0);
  }

  /**
   The update as evidently intended: the same as the fallback, except that
   an email held by another account is refused with nothing changed.
   */
  function UpdateProfileChecked(st: AuthState, u: ProfileUpdate): (r: (AuthResult, AuthState))
    ensures r.0.AuthError? ==> r.1 == st
    ensures r.0.SignedIn? ==> r == UpdateProfileFallback(st, u)
    ensures r.0.SignedIn? ==> forall a, b :: 0 <= a < b < |r.1.users| && r.1.users[a].email == r.0.session.email ==> r.1.users[b].email != r.0.session.email
  {
    match st.session
    case None => (AuthError(NoCurrentUser), st)
    case Some(current) =>
      match FindEmail(st.users, current.email)
      case None => (AuthError(NoUserRecord), st)
      case Some(i) =>
        var merged := Merge(st.users[i], u);
        if exists j :: 0 <= j < |st.users| && j != i && st.users[j].email == merged.email then
          (AuthError(EmailTaken), st)
        else UpdateProfileFallback(st, u)
  }

  /**
   The checked update keeps emails unique, and whenever it succeeds it does
   exactly what the fallback does; with unique emails the record it changes
   is the signed-in user's only one.
   */
  lemma CheckedUpdateKeepsUnique(st: AuthState, u: ProfileUpdate)
    requires UniqueEmails(st.users)
    ensures var (r, st') := UpdateProfileChecked(st, u);
      && UniqueEmails(st'.users)
      && (r.SignedIn? ==> (r, st') == UpdateProfileFallback(st, u))
      && (r.AuthError? ==> st' == st)
  {
    var (r, st') := UpdateProfileChecked(st, u);
    if st.session.Some? && FindEmail(st.users, st.session.value.email).Some? {
      var i := FindEmail(st.users, st.session.value.email).value;
      var merged := Merge(st.users[i], u);
      if !(exists j :: 0 <= j < |st.users| && j != i && st.users[j].email == merged.email) {
        assert st'.users == st.users[i := merged];
        forall a, b | 0 <= a < b < |st'.users|
          ensures st'.users[a].email != st'.users[b].email
        {
          if a != i && b != i {
            assert st'.users[a] == st.users[a] && st'.users[b] == st.users[b];
          }
        }
      }
    }
  }
}
