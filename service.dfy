/** The three request handlers of the auth web service — find_user, authenticate_user and
    get_user — each an ordered chain of checks that either raises an AuthError (an Err
    here) or falls through, over the database lookups and an abstract bcrypt. */
module Service {
  import opened Wrappers
  import opened Status
  import opened Store
  import opened Decimal

  /** bcrypt as the service uses it: `hashpw(key, salt)` and `checkpw(key, hash)`. Salts are
      generated by `bcrypt.gensalt` and come in as parameters. */
  datatype Bcrypt = Bcrypt(hashpw: (string, string) -> string, checkpw: (string, string) -> bool)

  /** What the service relies on of bcrypt: a key checks against any hash made from it, and a
      hash is never the empty string. */
  ghost predicate Sound(b: Bcrypt) {
    forall key, salt :: b.checkpw(key, b.hashpw(key, salt)) && b.hashpw(key, salt) != ""
  }

  /** The body of a successful find_user: `{'user_id': ...}`. */
  datatype UserIdResponse = UserIdResponse(userId: int)

  /** The body of a successful authenticate_user, sent with HTTP status OK. */
  datatype AuthResponse = AuthResponse(userId: nat, authenticated: bool, token: string)

  /** The string both token issue and token check hash: `str(user_id) + app.secret_key`. */
  function TokenKey(userId: nat, secretKey: string): (key: string)
    ensures NatToString(userId) <= key && key[|NatToString(userId)|..] == secretKey
  {
    NatToString(userId) + secretKey
  }

  /** For a fixed secret, distinct users have distinct token keys. */
  lemma TokenKeyInjective(a: nat, b: nat, secretKey: string)
    ensures TokenKey(a, secretKey) == TokenKey(b, secretKey) ==> a == b
  {
    if TokenKey(a, secretKey) == TokenKey(b, secretKey) {
      var ka, kb := TokenKey(a, secretKey), TokenKey(b, secretKey);
      assert |NatToString(a)| == |NatToString(b)|;
      assert NatToString(a) == ka[..|NatToString(a)|];
      assert NatToString(b) == kb[..|NatToString(b)|];
      NatToStringInjective(a, b);
    }
  }

  /** find_user: `username_email` must be supplied and non-empty; then the one user id it
      names. */
  function FindUser(db: Db, usernameEmail: Option<string>): (r: Result<UserIdResponse, AuthStatus>)
    ensures !Truthy(usernameEmail) ==> r == Err(NoUsernameEmailSupplied)
    ensures Truthy(usernameEmail) && MatchedIds(db, usernameEmail.value) == {} ==> r == Err(NoSuchUser)
    ensures Truthy(usernameEmail) && |MatchedIds(db, usernameEmail.value)| > 1 ==>
      r == Err(CorruptedDatabaseTooManyUserIds)
    ensures r.Err? ==> r.error in {NoUsernameEmailSupplied, NoSuchUser, CorruptedDatabaseTooManyUserIds}
    ensures r.Ok? <==> Truthy(usernameEmail) && |MatchedIds(db, usernameEmail.value)| == 1
    ensures r.Ok? ==> MatchedIds(db, usernameEmail.value) == {r.value.userId}
  {
    if !Truthy(usernameEmail) then Err(NoUsernameEmailSupplied)
    else
      var userId :- FindUserIdByUsernameOrEmail(db, usernameEmail.value);
      Ok(UserIdResponse(userId))
  }

  /** authenticate_user: the user must exist (checked first), a password must be supplied,
      and it must check against the user's stored hash; the token is a fresh bcrypt hash of
      the token key under `salt`. */
  function AuthenticateUser(db: Db, bcrypt: Bcrypt, secretKey: string, salt: string,
                            userId: nat, password: Option<string>): (r: Result<AuthResponse, AuthStatus>)
    ensures (forall row :: row in db.users ==> row.userId != userId) ==> r == Err(NoSuchUser)
    ensures UserFromUserId(db, userId).Err? ==> r == Err(UserFromUserId(db, userId).error)
    ensures UserFromUserId(db, userId).Ok? && !Truthy(password) ==> r == Err(NoPasswordSupplied)
    ensures UserFromUserId(db, userId).Ok? && Truthy(password) && PasswordHashFromUserId(db, userId).Err? ==>
      r == Err(PasswordHashFromUserId(db, userId).error)
    ensures
      && UserFromUserId(db, userId).Ok? && Truthy(password) && PasswordHashFromUserId(db, userId).Ok?
      && !bcrypt.checkpw(password.value, PasswordHashFromUserId(db, userId).value)
      ==> r == Err(IncorrectPassword)
    ensures r.Err? ==>
      r.error in {NoSuchUser, CorruptedDatabaseTooManyUserIds, NoPasswordSupplied, IncorrectPassword}
    ensures r.Ok? <==>
      && UserFromUserId(db, userId).Ok?
      && Truthy(password)
      && PasswordHashFromUserId(db, userId).Ok?
      && bcrypt.checkpw(password.value, PasswordHashFromUserId(db, userId).value)
    ensures r.Ok? ==>
      && r.value.userId == userId && r.value.authenticated
      && r.value.token == bcrypt.hashpw(TokenKey(userId, secretKey), salt)
      && (exists h :: PasswordRow(userId, h) in db.passwords && bcrypt.checkpw(password.value, h))
  {
    var user :- UserFromUserId(db, userId);
    if !Truthy(password) then Err(NoPasswordSupplied)
    else
      var passwordHash :- PasswordHashFromUserId(db, userId);
      if !bcrypt.checkpw(password.value, passwordHash) then Err(IncorrectPassword)
      else
        var token := bcrypt.hashpw(TokenKey(userId, secretKey), salt);
        Ok(AuthResponse(userId, true, token))
  }

  /** get_user: a token must be supplied and must check against the user's token key before
      the user is looked up at all. */
  function GetUser(db: Db, bcrypt: Bcrypt, secretKey: string, userId: nat,
                   token: Option<string>): (r: Result<User, AuthStatus>)
    ensures !Truthy(token) ==> r == Err(NoUserTokenSupplied)
    ensures Truthy(token) && !bcrypt.checkpw(TokenKey(userId, secretKey), token.value) ==>
      r == Err(InvalidAppUserToken)
    ensures Truthy(token) && bcrypt.checkpw(TokenKey(userId, secretKey), token.value) ==>
      r == UserFromUserId(db, userId)
    ensures r.Err? ==>
      r.error in {NoUserTokenSupplied, InvalidAppUserToken, NoSuchUser, CorruptedDatabaseTooManyUserIds}
    ensures r.Ok? ==> r.value.userId == userId
  {
    if !Truthy(token) then Err(NoUserTokenSupplied)
    else if !bcrypt.checkpw(TokenKey(userId, secretKey), token.value) then Err(InvalidAppUserToken)
    else UserFromUserId(db, userId)
  }

  /** No handler ever fails with SUCCESS, and every failure answers with a 4xx or 5xx
      status. */
  lemma FailuresAreErrors(db: Db, bcrypt: Bcrypt, secretKey: string, salt: string, userId: nat,
                          arg: Option<string>)
    ensures FindUser(db, arg).Err? ==>
      FindUser(db, arg).error != Success && HttpStatus(FindUser(db, arg).error) >= 400
    ensures AuthenticateUser(db, bcrypt, secretKey, salt, userId, arg).Err? ==>
      HttpStatus(AuthenticateUser(db, bcrypt, secretKey, salt, userId, arg).error) >= 400
    ensures GetUser(db, bcrypt, secretKey, userId, arg).Err? ==>
      HttpStatus(GetUser(db, bcrypt, secretKey, userId, arg).error) >= 400
  {
  }

  /** A token issued by authenticate_user for a user passes get_user's check for that user,
      so get_user answers with the same user authenticate_user looked up. */
  lemma IssuedTokenVerifies(db: Db, bcrypt: Bcrypt, secretKey: string, salt: string, userId: nat,
                            password: Option<string>)
    requires Sound(bcrypt)
    requires AuthenticateUser(db, bcrypt, secretKey, salt, userId, password).Ok?
    ensures
      var token := AuthenticateUser(db, bcrypt, secretKey, salt, userId, password).value.token;
      && bcrypt.checkpw(TokenKey(userId, secretKey), token)
      && GetUser(db, bcrypt, secretKey, userId, Some(token)) == UserFromUserId(db, userId)
      && GetUser(db, bcrypt, secretKey, userId, Some(token)).Ok?
  {
  }

  /** The whole sign-in exchange: a client that resolves an identifier with find_user,
      authenticates the id it got and presents the token to get_user receives the record of
      that user, whose username or email is the identifier it started from. */
  lemma SignInRoundTrip(db: Db, bcrypt: Bcrypt, secretKey: string, salt: string,
                        usernameEmail: string, userId: nat, password: string)
    requires Sound(bcrypt)
    requires FindUser(db, Some(usernameEmail)) == Ok(UserIdResponse(userId))
    requires AuthenticateUser(db, bcrypt, secretKey, salt, userId, Some(password)).Ok?
    ensures
      var token := AuthenticateUser(db, bcrypt, secretKey, salt, userId, Some(password)).value.token;
      var r := GetUser(db, bcrypt, secretKey, userId, Some(token));
      && r.Ok? && r.value.userId == userId
      && (r.value.username == Some(usernameEmail) || r.value.email == Some(usernameEmail))
  {
    IssuedTokenVerifies(db, bcrypt, secretKey, salt, userId, Some(password));
    var u := UserFromUserId(db, userId).value;
    assert userId in MatchedIds(db, usernameEmail);
    var row :| row in db.usernames + db.emails && row.name == usernameEmail && row.userId == userId;
    if row in db.usernames {
      OnlyRow(db.usernames, OwnedBy(userId), row, NameRow(u.username.value, userId));
    } else {
      OnlyRow(db.emails, OwnedBy(userId), row, NameRow(u.email.value, userId));
    }
  }

  /** When a WHERE clause selects at most one row, two selected rows are the same row. */
  lemma OnlyRow<T(!new)>(rows: seq<T>, p: T -> bool, x: T, y: T)
    requires RowCount(rows, p) <= 1
    requires x in rows && p(x) && y in rows && p(y)
    ensures x == y
  {
    var w := Where(rows, p);
    assert x in w && y in w;
  }
}
