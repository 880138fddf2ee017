/**
 * The authentication controller: signup and login over the user table.
 * Password hashing, hash comparison and token signing are library calls
 * whose results the model takes as given functions; hashing and signing
 * may fail (`None`), as when the secret or the token lifetime is not set.
 */
module AuthController {
  import opened Wrappers
  import opened JsText
  import opened Models
  import opened Tables

  /**
   * The condition guarding the hashing of the password at signup:
   * `password || password !== null || password !== undefined`. Whatever the
   * password is, one of the two inequalities holds, so the guard always does.
   */
  function PasswordGuard(password: Nullish<string>): (r: bool)
    ensures r
  {
    TruthyString(password) || password != Null || password != Undefined
  }

  /** The answers of signup. */
  datatype SignupResponse =
    | SignedUp(user: User, token: string)  // 201
    | MobileTaken                          // 404: "already exist"
    | SignupFailed                         // 500

  /**
   * Signup. A mobile number already in the table answers 404 and adds no
   * one. Otherwise the password is hashed (`hashPassword` gives the digest,
   * or `None` when hashing throws) and one user is inserted with the given
   * name and mobile number, the digest as password, the default role and no
   * avatar; inserting fails with 500 and no change when the table's length
   * validations refuse the row (a mobile number of other than 10 characters,
   * a stored password shorter than 8). The token is signed over the new id
   * after the insert, so a signing failure answers 500 with the user added.
   */
  method Signup(users: UserTable, name: string, mobileNumber: string, password: Nullish<string>,
                hashPassword: Nullish<string> -> Option<string>, sign: string -> Option<string>, newId: string)
    returns (res: SignupResponse)
    requires users.Valid()
    requires forall u :: u in users.rows ==> u.id != newId
    modifies users
    ensures users.Valid()
    ensures res == MobileTaken <==> FindUserByMobile(old(users.rows), mobileNumber).Some?
    ensures res == MobileTaken ==> users.rows == old(users.rows)
    ensures var inserted :=
        && FindUserByMobile(old(users.rows), mobileNumber).None?
        && hashPassword(password).Some? && |hashPassword(password).value| >= 8 && |mobileNumber| == 10;
      && (inserted ==>
            users.rows == old(users.rows) + [User(newId, name, mobileNumber, hashPassword(password), UserRole, None)])
      && (!inserted ==> users.rows == old(users.rows))
      && (res.SignedUp? <==> inserted && sign(newId).Some?)
      && (res.SignupFailed? <==>
            FindUserByMobile(old(users.rows), mobileNumber).None? && (!inserted || sign(newId).None?))
    ensures res.SignedUp? ==>
      && res.user == User(newId, name, mobileNumber, hashPassword(password), UserRole, None)
      && res.token == sign(newId).value
  {
    var existing := FindUserByMobile(users.rows, mobileNumber);
    if existing.Some? {
      return MobileTaken;
    }
    var digest: Option<string> := None;
    if PasswordGuard(password) {
      digest := hashPassword(password);
      if digest.None? {
        return SignupFailed;
      }
    }
    if |mobileNumber| != 10 || (digest.Some? && |digest.value| < 8) {
      return SignupFailed;
    }
    var user := User(newId, name, mobileNumber, digest, UserRole, None);
    users.rows := users.rows + [user];
    var token := sign(newId);
    if token.None? {
      return SignupFailed;
    }
    res := SignedUp(user, token.value);
  }

  /** The answers of login. */
  datatype LoginResponse =
    | LoggedIn(user: User, token: string)  // 200
    | UnknownMobile                        // 404
    | InvalidCredentials                   // 401
    | LoginFailed                          // 500

  /**
   * Login: the user with the mobile number, if any; the password compared
   * against its stored hash (`compare`; comparing against a null hash
   * throws); a token signed over the user's id only when they match, and
   * a 500 when signing fails.
   */
  method Login(users: UserTable, mobileNumber: string, password: string,
               compare: (string, string) -> bool, sign: string -> Option<string>)
    returns (res: LoginResponse)
    requires users.Valid()
    ensures res == UnknownMobile <==> forall u :: u in users.rows ==> u.mobileNumber != mobileNumber
    ensures res.LoggedIn? ==>
      && res.user in users.rows
      && res.user.mobileNumber == mobileNumber
      && res.user.password.Some?
      && compare(password, res.user.password.value)
      && sign(res.user.id) == Some(res.token)
    ensures res == InvalidCredentials ==>
      exists u :: u in users.rows && u.mobileNumber == mobileNumber
                  && u.password.Some? && !compare(password, u.password.value)
    ensures res == LoginFailed ==>
      exists u :: u in users.rows && u.mobileNumber == mobileNumber
                  && (u.password.None? || (compare(password, u.password.value) && sign(u.id).None?))
    ensures FindUserByMobile(users.rows, mobileNumber).Some? ==>
      var u := users.rows[FindUserByMobile(users.rows, mobileNumber).value];
      u.password.Some? && compare(password, u.password.value) && sign(u.id).Some? ==> res.LoggedIn?
  {
    var found := FindUserByMobile(users.rows, mobileNumber);
    if found.None? {
      return UnknownMobile;
    }
    var user := users.rows[found.value];
    if user.password.None? {
      return LoginFailed;
    }
    if !compare(password, user.password.value) {
      return InvalidCredentials;
    }
    var token := sign(user.id);
    if token.None? {
      return LoginFailed;
    }
    res := LoggedIn(user, token.value);
  }
}
