/**
 * The session and page state machine of the application: whether the visitor is
 * logged in, as whom, and which of the four pages the sidebar shows, together with
 * the handlers of the Logout, Login, Register and Update Password buttons.
 *
 * Each script run stores the page chosen in the sidebar, then runs the handler of the
 * button pressed on that page, if any. The pure functions below give the new state
 * of one transition; the class `App` updates its fields in place as the script does
 * and is proved to follow them.
 */
module Session {
  import Text
  import Credentials

  datatype Page = Login | Register | Dictionary | Settings

  datatype SessionState = SessionState(authenticated: bool, username: string, page: Page)

  /** The state a new session starts in: anonymous, no user name, on the Login page. */
  const Fresh: SessionState := SessionState(false, "", Login)

  /** What the chosen page shows. */
  datatype Screen =
    | LoginForm
    | RegisterForm
    | AlreadyLoggedInWarning
    | PleaseLoginWarning
    | DictionaryView
    | LoginRequiredWarning
    | SettingsView

  /**
   * The page body for a state. Register is closed to a logged-in user; Dictionary and
   * Settings are open only to one. A guard withholds the content and leaves the chosen
   * page where it is: it does not send the visitor to Login.
   */
  function ScreenFor(s: SessionState): (v: Screen)
    ensures v == LoginForm <==> s.page == Login
    ensures v == RegisterForm <==> s.page == Register && !s.authenticated
    ensures v == DictionaryView <==> s.page == Dictionary && s.authenticated
    ensures v == SettingsView <==> s.page == Settings && s.authenticated
    ensures v == PleaseLoginWarning <==> s.page == Dictionary && !s.authenticated
    ensures v == LoginRequiredWarning <==> s.page == Settings && !s.authenticated
  {
    match s.page
    case Login => LoginForm
    case Register => if s.authenticated then AlreadyLoggedInWarning else RegisterForm
    case Dictionary => if s.authenticated then DictionaryView else PleaseLoginWarning
    case Settings => if s.authenticated then SettingsView else LoginRequiredWarning
  }

  /** Choosing a page in the sidebar: the choice is stored whatever the state. */
  function Selected(s: SessionState, p: Page): (r: SessionState)
    ensures r.page == p
    ensures r.authenticated == s.authenticated && r.username == s.username
  {
    s.(page := p)
  }

  /**
   * The Login button. The typed user name and password are stripped and checked
   * against the store; on success the session belongs to the stripped user name and
   * moves to Dictionary, on failure nothing changes.
   */
  function LoggedIn(s: SessionState, users: Credentials.Users, hash: string -> Credentials.Hash,
                    typedUser: string, typedPassword: string): (r: SessionState)
    ensures r.authenticated <==>
      s.authenticated || Credentials.VerifyUser(users, hash, Text.Strip(typedUser), Text.Strip(typedPassword))
    ensures Credentials.VerifyUser(users, hash, Text.Strip(typedUser), Text.Strip(typedPassword)) ==>
      r == SessionState(true, Text.Strip(typedUser), Dictionary) && r.username in users
    ensures !Credentials.VerifyUser(users, hash, Text.Strip(typedUser), Text.Strip(typedPassword)) ==> r == s
  {
    var name := Text.Strip(typedUser);
    if Credentials.VerifyUser(users, hash, name, Text.Strip(typedPassword)) then
      SessionState(true, name, Dictionary)
    else
      s
  }

  /** What the Register page reports: nothing past the already-logged-in warning, or the store's answer. */
  datatype RegisterNotice = Blocked | Shown(success: bool, message: string)

  datatype SignUp = SignUp(state: SessionState, users: Credentials.Users, notice: RegisterNotice)

  /**
   * The Register button. A logged-in visitor is stopped before the form. Otherwise the
   * stripped inputs go to `register_user`; a success moves to Login without logging in.
   */
  function SignedUp(s: SessionState, users: Credentials.Users, hash: string -> Credentials.Hash,
                    typedUser: string, typedPassword: string): (r: SignUp)
    ensures r.state.authenticated == s.authenticated && r.state.username == s.username
    ensures s.authenticated ==> r == SignUp(s, users, Blocked)
    ensures !s.authenticated ==>
      var reg := Credentials.RegisterUser(users, hash, Text.Strip(typedUser), Text.Strip(typedPassword));
      r.users == reg.users && r.notice == Shown(reg.outcome == Credentials.Registered, reg.outcome.Message())
    ensures r.state.page == if r.notice.Shown? && r.notice.success then Login else s.page
  {
    if s.authenticated then
      SignUp(s, users, Blocked)
    else
      var reg := Credentials.RegisterUser(users, hash, Text.Strip(typedUser), Text.Strip(typedPassword));
      var success := reg.outcome == Credentials.Registered;
      SignUp(if success then s.(page := Login) else s, reg.users, Shown(success, reg.outcome.Message()))
  }

  /** What the account part of the Settings page reports. */
  datatype PasswordNotice = Withheld | EmptyPassword | Updated

  datatype PasswordChange = PasswordChange(users: Credentials.Users, notice: PasswordNotice)

  /**
   * The Update Password button as the application has it: Settings is closed to an
   * anonymous visitor, an empty new password is refused, and any other input is stored
   * as typed, without stripping.
   */
  function ChangedPasswordAsWritten(s: SessionState, users: Credentials.Users, hash: string -> Credentials.Hash,
                                    newPassword: string): (r: PasswordChange)
    ensures r.notice == Updated <==> s.authenticated && newPassword != []
    ensures r.notice == Withheld <==> !s.authenticated
    ensures r.notice == Updated ==> r.users == Credentials.ChangePassword(users, hash, s.username, newPassword)
    ensures r.notice != Updated ==> r.users == users
  {
    if !s.authenticated then PasswordChange(users, Withheld)
    else if newPassword == [] then PasswordChange(users, EmptyPassword)
    else PasswordChange(Credentials.ChangePassword(users, hash, s.username, newPassword), Updated)
  }

  /**
   * The Update Password button, corrected: the new password is stripped, as the
   * Register and Login handlers strip theirs, before it is checked for emptiness and
   * stored. `ChangedPasswordLogsIn` states what it achieves that the handler as written
   * does not.
   */
  function ChangedPassword(s: SessionState, users: Credentials.Users, hash: string -> Credentials.Hash,
                           newPassword: string): (r: PasswordChange)
    ensures r.notice == Updated <==> s.authenticated && Text.Strip(newPassword) != []
    ensures r.notice == Withheld <==> !s.authenticated
    ensures r.notice == Updated ==> r.users == Credentials.ChangePassword(users, hash, s.username, Text.Strip(newPassword))
    ensures r.notice != Updated ==> r.users == users
  {
    if !s.authenticated then PasswordChange(users, Withheld)
    else if Text.Strip(newPassword) == [] then PasswordChange(users, EmptyPassword)
    else PasswordChange(Credentials.ChangePassword(users, hash, s.username, Text.Strip(newPassword)), Updated)
  }

  /**
   * What holds of every session: a logged-in session belongs to a user in the store,
   * under a name that has no surrounding whitespace; an anonymous one has no user name.
   */
  predicate SessionInv(s: SessionState, users: Credentials.Users) {
    (s.authenticated ==> s.username in users && Text.IsStripped(s.username))
    && (!s.authenticated ==> s.username == [])
  }

  /** Every user name in a store built by the application is non-empty and stripped. */
  predicate WellFormedUsers(users: Credentials.Users) {
    forall k :: k in users ==> k != [] && Text.IsStripped(k)
  }

  /** The session together with the store it reads and writes. */
  datatype System = System(session: SessionState, users: Credentials.Users)

  predicate Inv(sys: System) {
    SessionInv(sys.session, sys.users) && WellFormedUsers(sys.users)
  }

  /** One user action: a sidebar choice or a button press. */
  datatype Action =
    | Choose(page: Page)
    | PressLogout
    | PressLogin(user: string, password: string)
    | PressRegister(user: string, password: string)
    | PressUpdatePassword(newPassword: string)

  /**
   * One action, as the application handles it. A button that the current state does not
   * show has no effect: Logout is offered only to a logged-in visitor, and the other
   * buttons sit on their own page. Update Password is the handler as written.
   */
  function Step(sys: System, hash: string -> Credentials.Hash, a: Action): System {
    var s := sys.session;
    match a
    case Choose(p) => sys.(session := Selected(s, p))
    case PressLogout => if s.authenticated then sys.(session := Fresh) else sys
    case PressLogin(u, pw) =>
      if s.page == Login then sys.(session := LoggedIn(s, sys.users, hash, u, pw)) else sys
    case PressRegister(u, pw) =>
      if s.page == Register then
        var r := SignedUp(s, sys.users, hash, u, pw);
        System(r.state, r.users)
      else sys
    case PressUpdatePassword(pw) =>
      if s.page == Settings then sys.(users := ChangedPasswordAsWritten(s, sys.users, hash, pw).users) else sys
  }

  function Run(sys: System, hash: string -> Credentials.Hash, actions: seq<Action>): System
    decreases |actions|
  {
    if actions == [] then sys else Run(Step(sys, hash, actions[0]), hash, actions[1..])
  }

  /**
   * What the Update Password button does within a script run, as written: the session is
   * untouched, and on Settings, while logged in, a non-empty new password replaces the
   * user's digest with the digest of the password exactly as typed; otherwise the store
   * is unchanged.
   */
  lemma UpdatePasswordStep(sys: System, hash: string -> Credentials.Hash, newPassword: string)
    ensures Step(sys, hash, PressUpdatePassword(newPassword)).session == sys.session
    ensures sys.session.page != Settings || !sys.session.authenticated || newPassword == [] ==>
      Step(sys, hash, PressUpdatePassword(newPassword)).users == sys.users
    ensures sys.session.page == Settings && sys.session.authenticated && newPassword != [] ==>
      Step(sys, hash, PressUpdatePassword(newPassword)).users == sys.users[sys.session.username := hash(newPassword)]
  {
  }

  /** Logging out returns to the state of a new session. */
  lemma LogoutIsFresh(sys: System, hash: string -> Credentials.Hash)
    requires sys.session.authenticated
    ensures Step(sys, hash, PressLogout).session == SessionState(false, "", Login)
    ensures Step(sys, hash, PressLogout).users == sys.users
  {
  }

  /** Every action keeps the invariant. */
  lemma StepKeepsInv(sys: System, hash: string -> Credentials.Hash, a: Action)
    requires Inv(sys)
    ensures Inv(Step(sys, hash, a))
  {
  }

  /** Any sequence of actions keeps the invariant. */
  lemma {:induction false} RunKeepsInv(sys: System, hash: string -> Credentials.Hash, actions: seq<Action>)
    requires Inv(sys)
    ensures Inv(Run(sys, hash, actions))
    decreases |actions|
  {
    if actions != [] {
      StepKeepsInv(sys, hash, actions[0]);
      RunKeepsInv(Step(sys, hash, actions[0]), hash, actions[1..]);
    }
  }

  /**
   * Starting from a missing `users.json`, whatever the visitor does, the dictionary is
   * shown only to a registered, non-empty user name.
   */
  lemma DictionaryNeedsAccount(hash: string -> Credentials.Hash, actions: seq<Action>)
    ensures var last := Run(System(Fresh, map[]), hash, actions);
      ScreenFor(last.session) == DictionaryView ==>
        last.session.username in last.users && last.session.username != []
  {
    RunKeepsInv(System(Fresh, map[]), hash, actions);
  }

  /**
   * Register "ada" with "lovelace1", log in, log out, then open Dictionary: the login
   * lands on Dictionary, and after logout Dictionary stays chosen but withholds its content.
   */
  lemma RegisterLoginLogoutScenario(hash: string -> Credentials.Hash)
    ensures var s1 := Step(System(Fresh, map[]), hash, Choose(Register));
      var s2 := Step(s1, hash, PressRegister("ada", "lovelace1"));
      var s3 := Step(s2, hash, PressLogin("ada", "lovelace1"));
      var s4 := Step(s3, hash, PressLogout);
      var s5 := Step(s4, hash, Choose(Dictionary));
      s2.session == SessionState(false, "", Login) && s2.users == map["ada" := hash("lovelace1")]
      && s3.session == SessionState(true, "ada", Dictionary) && ScreenFor(s3.session) == DictionaryView
      && s4.session == Fresh
      && s5.session.page == Dictionary && ScreenFor(s5.session) == PleaseLoginWarning
  {
    Text.StrippedIsFixed("ada");
    Text.StrippedIsFixed("lovelace1");
  }

  /** Settings is closed while anonymous and open after logging in. */
  lemma SettingsScenario(hash: string -> Credentials.Hash)
    ensures var s0 := System(Fresh, map["ada" := hash("lovelace1")]);
      var s1 := Step(s0, hash, Choose(Settings));
      var s2 := Step(Step(s1, hash, Choose(Login)), hash, PressLogin(" ada ", "lovelace1"));
      var s3 := Step(s2, hash, Choose(Settings));
      ScreenFor(s1.session) == LoginRequiredWarning
      && s2.session == SessionState(true, "ada", Dictionary)
      && ScreenFor(s3.session) == SettingsView
  {
    var s0 := System(Fresh, map["ada" := hash("lovelace1")]);
    var s1 := Step(s0, hash, Choose(Settings));
    assert s1 == System(SessionState(false, "", Settings), s0.users);
    var s1b := Step(s1, hash, Choose(Login));
    assert s1b == System(Fresh, s0.users);
    Text.StrippedIsFixed("lovelace1");
    StripPaddedAda();
    assert Credentials.VerifyUser(s0.users, hash, "ada", "lovelace1");
  }

  lemma StripPaddedAda()
    ensures Text.Strip(" ada ") == "ada"
  {
    assert " ada "[1..] == "ada ";
    assert Text.TrimLeft("ada ") == "ada ";
    assert Text.TrimLeft(" ada ") == "ada ";
    assert "ada "[..3] == "ada";
    assert Text.TrimRight("ada") == "ada";
    assert Text.TrimRight("ada ") == "ada";
  }

  /**
   * As written, a new password with surrounding whitespace is accepted by Settings, but
   * the Login handler strips the typed password, so what Login compares is never the
   * stored password: a later login as that user succeeds only when the digest of the
   * stripped typed password collides with the digest of the stored one.
   */
  lemma LockedOutAsWritten(s: SessionState, users: Credentials.Users, hash: string -> Credentials.Hash,
                           newPassword: string, typedUser: string, typedPassword: string)
    requires s.authenticated && !Text.IsStripped(newPassword)
    requires Text.Strip(typedUser) == s.username
    ensures var r := ChangedPasswordAsWritten(s, users, hash, newPassword);
      r.notice == Updated
      && Text.Strip(typedPassword) != newPassword
      && (LoggedIn(Fresh, r.users, hash, typedUser, typedPassword) != Fresh ==>
            hash(Text.Strip(typedPassword)) == hash(newPassword))
  {
  }

  /**
   * The smallest case: a new password of one space is accepted and stored, and then
   * logging in as "ada" succeeds only on a digest collision with " ".
   */
  lemma LockedOutBySpace(hash: string -> Credentials.Hash, typedPassword: string)
    ensures var s := SessionState(true, "ada", Settings);
      var r := ChangedPasswordAsWritten(s, map["ada" := hash("lovelace1")], hash, " ");
      r.notice == Updated && r.users == map["ada" := hash(" ")]
      && Text.Strip(typedPassword) != " "
      && (LoggedIn(Fresh, r.users, hash, "ada", typedPassword) != Fresh ==>
            hash(Text.Strip(typedPassword)) == hash(" "))
  {
    Text.StrippedIsFixed("ada");
    LockedOutAsWritten(SessionState(true, "ada", Settings), map["ada" := hash("lovelace1")], hash, " ", "ada", typedPassword);
  }

  /**
   * Corrected, a password accepted by Settings is the one that logs the user in: typing
   * the session's user name and the same new password succeeds, for any digest function.
   * Only the user's own entry changes.
   */
  lemma {:induction false} ChangedPasswordLogsIn(s: SessionState, users: Credentials.Users, hash: string -> Credentials.Hash,
                              newPassword: string)
    requires SessionInv(s, users)
    ensures var r := ChangedPassword(s, users, hash, newPassword);
      r.users.Keys == users.Keys
      && (r.notice == Updated ==>
            LoggedIn(Fresh, r.users, hash, s.username, newPassword) == SessionState(true, s.username, Dictionary))
  {
    var r := ChangedPassword(s, users, hash, newPassword);
    if r.notice == Updated {
      Text.StrippedIsFixed(s.username);
      assert r.users[s.username] == hash(Text.Strip(newPassword));
      assert Credentials.VerifyUser(r.users, hash, Text.Strip(s.username), Text.Strip(newPassword));
    }
  }

  /**
   * The application's session object: three fields that the handlers reassign one by
   * one, and the store they read and write.
   */
  class App {
    var authenticated: bool
    var username: string
    var page: Page
    const store: Credentials.UserFile

    ghost function State(): SessionState
      reads this
    {
      SessionState(authenticated, username, page)
    }

    ghost predicate Valid()
      reads this, store
    {
      SessionInv(State(), store.users)
    }

    /** A new session: the defaults the script sets when a key is missing. */
    constructor (store: Credentials.UserFile)
      ensures this.store == store && State() == Fresh && Valid()
    {
      this.store := store;
      authenticated := false;
      username := "";
      page := Login;
    }

    /** The sidebar choice, stored before any page runs. */
    method SelectPage(p: Page)
      requires Valid()
      modifies this
      ensures Valid() && State() == Selected(old(State()), p)
    {
      page := p;
    }

    /** The Logout button, shown only while logged in. */
    method Logout()
      requires Valid() && authenticated
      modifies this
      ensures Valid() && State() == Fresh
    {
      authenticated := false;
      username := "";
      page := Login;
    }

    /** The Login button on the Login page. */
    method SubmitLogin(typedUser: string, typedPassword: string) returns (ok: bool)
      requires Valid() && page == Login
      modifies this
      ensures Valid()
      ensures ok == Credentials.VerifyUser(store.users, store.hash, Text.Strip(typedUser), Text.Strip(typedPassword))
      ensures State() == LoggedIn(old(State()), store.users, store.hash, typedUser, typedPassword)
    {
      ok := Credentials.VerifyUser(store.users, store.hash, Text.Strip(typedUser), Text.Strip(typedPassword));
      if ok {
        authenticated := true;
        username := Text.Strip(typedUser);
        page := Dictionary;
      }
    }

    /** The Register page: the already-logged-in guard, then the Register button. */
    method SubmitRegistration(typedUser: string, typedPassword: string) returns (notice: RegisterNotice)
      requires Valid() && page == Register
      modifies this, store
      ensures Valid()
      ensures var r := SignedUp(old(State()), old(store.users), store.hash, typedUser, typedPassword);
        State() == r.state && store.users == r.users && notice == r.notice
    {
      if authenticated {
        return Blocked;
      }
      var success, message := store.Register(Text.Strip(typedUser), Text.Strip(typedPassword));
      if success {
        page := Login;
      }
      notice := Shown(success, message);
    }

    /** The Settings page: the login guard, then the Update Password button. */
    method SubmitPasswordChange(newPassword: string) returns (notice: PasswordNotice)
      requires Valid() && page == Settings
      modifies store
      ensures Valid()
      ensures var r := ChangedPasswordAsWritten(State(), old(store.users), store.hash, newPassword);
        store.users == r.users && notice == r.notice
    {
      if !authenticated {
        return Withheld;
      }
      if newPassword == [] {
        return EmptyPassword;
      }
      store.UpdatePassword(username, newPassword);
      notice := Updated;
    }
  }
}
