/**
 * The credential store: the contents of `users.json`, a table from user name to the
 * hex digest of that user's password, with the three operations that read and
 * rewrite it (register, verify, change password).
 *
 * The digest function (SHA-256 in the application) is a parameter: every result
 * here holds for any deterministic function from passwords to digests.
 */
module Credentials {

  type Hash = string

  /** The persisted table: one digest per user name, so user names are unique by construction. */
  type Users = map<string, Hash>

  /** What `register_user` reports; each outcome carries the application's own message. */
  datatype RegisterOutcome = Registered | EmptyField | DuplicateUser {
    function Message(): string {
      match this
      case Registered => "Registration successful! You can now login."
      case EmptyField => "Username and password cannot be empty"
      case DuplicateUser => "Username already exists. Please login."
    }
  }

  datatype Registration = Registration(outcome: RegisterOutcome, users: Users)

  /**
   * `register_user`: refuses an empty user name or password, refuses a user name that
   * is already taken, and otherwise adds exactly that user, with the digest of the
   * password, and keeps every other entry.
   */
  function RegisterUser(users: Users, hash: string -> Hash, username: string, password: string): (r: Registration)
    ensures r.outcome == EmptyField <==> username == [] || password == []
    ensures r.outcome == DuplicateUser <==> username != [] && password != [] && username in users
    ensures r.outcome == Registered ==>
      username !in users && r.users.Keys == users.Keys + {username} && r.users[username] == hash(password)
    ensures r.outcome == Registered ==> forall k :: k in users ==> r.users[k] == users[k]
    ensures r.outcome != Registered ==> r.users == users
  {
    if username == [] || password == [] then Registration(EmptyField, users)
    else if username in users then Registration(DuplicateUser, users)
    else Registration(Registered, users[username := hash(password)])
  }

  /**
   * `verify_user`: true only for a user name in the table whose stored digest is the
   * digest of the password. An unknown user and a wrong password both give false.
   */
  function VerifyUser(users: Users, hash: string -> Hash, username: string, password: string): (ok: bool)
    ensures ok ==> username in users
    ensures username !in users ==> !ok
    ensures username in users ==> (ok <==> users[username] == hash(password))
  {
    username in users && users[username] == hash(password)
  }

  /**
   * `change_password`: the user's entry now holds the digest of the new password and
   * every other entry is kept. The table is written without first checking that the
   * user exists, so an absent user name is added.
   */
  function ChangePassword(users: Users, hash: string -> Hash, username: string, newPassword: string): (r: Users)
    ensures r.Keys == users.Keys + {username}
    ensures r[username] == hash(newPassword)
    ensures forall k :: k in users && k != username ==> r[k] == users[k]
  {
    users[username := hash(newPassword)]
  }

  /** After a successful registration the same user name and password verify. */
  lemma RegisterThenVerify(users: Users, hash: string -> Hash, username: string, password: string)
    requires RegisterUser(users, hash, username, password).outcome == Registered
    ensures VerifyUser(RegisterUser(users, hash, username, password).users, hash, username, password)
    ensures !VerifyUser(users, hash, username, password)
  {
  }

  /** A registration, successful or not, does not change whether any other user's login verifies. */
  lemma RegisterKeepsOtherUsers(users: Users, hash: string -> Hash, username: string, password: string, other: string, tried: string)
    requires other != username
    ensures VerifyUser(RegisterUser(users, hash, username, password).users, hash, other, tried)
        == VerifyUser(users, hash, other, tried)
  {
  }

  /**
   * After a password change the new password verifies; the old one no longer does unless
   * it has the same digest; the set of user names is unchanged when the user existed.
   */
  lemma ChangePasswordThenVerify(users: Users, hash: string -> Hash, username: string, oldPassword: string, newPassword: string)
    requires username in users && users[username] == hash(oldPassword)
    requires hash(oldPassword) != hash(newPassword)
    ensures VerifyUser(ChangePassword(users, hash, username, newPassword), hash, username, newPassword)
    ensures !VerifyUser(ChangePassword(users, hash, username, newPassword), hash, username, oldPassword)
    ensures ChangePassword(users, hash, username, newPassword).Keys == users.Keys
  {
  }

  /**
   * `users.json` and the functions that load and save it. The field `users` is the
   * file's content: every operation reads all of it and, when it changes anything,
   * writes all of it back before returning.
   */
  class UserFile {
    const hash: string -> Hash
    var users: Users

    /** `load_users` when `users.json` does not exist: the table is empty. */
    constructor Missing(hash: string -> Hash)
      ensures this.hash == hash && users == map[]
    {
      this.hash := hash;
      users := map[];
    }

    /** `load_users` when `users.json` exists: the table is what the file holds. */
    constructor Load(hash: string -> Hash, contents: Users)
      ensures this.hash == hash && users == contents
    {
      this.hash := hash;
      users := contents;
    }

    /** `register_user`, returning the success flag and the message shown to the user. */
    method Register(username: string, password: string) returns (success: bool, message: string)
      modifies this
      ensures var r := RegisterUser(old(users), hash, username, password);
        users == r.users && success == (r.outcome == Registered) && message == r.outcome.Message()
    {
      if username == [] || password == [] {
        return false, EmptyField.Message();
      }
      var loaded := users;
      if username in loaded {
        return false, DuplicateUser.Message();
      }
      loaded := loaded[username := hash(password)];
      users := loaded;
      success, message := true, Registered.Message();
    }

    /** `change_password`: rewrites the user's digest and saves. */
    method UpdatePassword(username: string, newPassword: string)
      modifies this
      ensures users == ChangePassword(old(users), hash, username, newPassword)
    {
      var loaded := users;
      loaded := loaded[username := hash(newPassword)];
      users := loaded;
    }
  }
}
