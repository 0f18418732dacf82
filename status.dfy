/** The AuthStatus enum of the auth web service: every outcome a request can have, with its
    numeric error code, its HTTP status and its description; the error-tuple format the
    service answers with; and the three error handlers that produce that tuple. */
module Status {
  import opened Wrappers

  datatype AuthStatus =
    | Success
    | NoUsernameEmailSupplied
    | NoSuchUser
    | NoPasswordSupplied
    | IncorrectPassword
    | NoUserTokenSupplied
    | InvalidAppUserToken
    | CorruptedDatabaseTooManyUserIds
    | ClientError
    | InternalError
    | OtherError

  /** The members in the order the enum's class body declares them. */
  const Members: seq<AuthStatus> := [
    Success, NoUsernameEmailSupplied, NoSuchUser, NoPasswordSupplied, IncorrectPassword,
    NoUserTokenSupplied, InvalidAppUserToken, CorruptedDatabaseTooManyUserIds,
    ClientError, InternalError, OtherError
  ]

  /** The position of the first occurrence of x in xs. */
  function IndexOf(xs: seq<AuthStatus>, x: AuthStatus): (i: nat)
    requires x in xs
    ensures i < |xs| && xs[i] == x && x !in xs[..i]
  {
    if xs[0] == x then 0
    else
      var j := IndexOf(xs[1..], x);
      assert xs[..j + 1] == [xs[0]] + xs[1..][..j];
      j + 1
  }

  /** The enum's `__new__` gives each member the value "number of members registered so far
      plus one", and `__init__` sets `error_code` to that value minus one: the error code is
      the number of members declared before this one. */
  function ErrorCode(s: AuthStatus): (code: nat)
    ensures code < |Members| && Members[code] == s && s !in Members[..code]
  {
    MemberDeclared(s);
    IndexOf(Members, s)
  }

  /** Every member of the enum is one of the declared members. */
  lemma MemberDeclared(s: AuthStatus)
    ensures s in Members
  {
  }

  /** The codes run 0, 1, ..., 10 in declaration order. */
  lemma ErrorCodeTable()
    ensures forall i :: 0 <= i < |Members| ==> ErrorCode(Members[i]) == i
  {
    forall i | 0 <= i < |Members|
      ensures ErrorCode(Members[i]) == i
    {
      var c := ErrorCode(Members[i]);
      assert c == 0 || c == 1 || c == 2 || c == 3 || c == 4 || c == 5 || c == 6 || c == 7
          || c == 8 || c == 9 || c == 10;
      assert i == 0 || i == 1 || i == 2 || i == 3 || i == 4 || i == 5 || i == 6 || i == 7
          || i == 8 || i == 9 || i == 10;
    }
  }

  /** Distinct members have distinct error codes. */
  lemma ErrorCodeInjective(a: AuthStatus, b: AuthStatus)
    ensures ErrorCode(a) == ErrorCode(b) ==> a == b
  {
  }

  /** The member a client reads back from an error code, if any. */
  function StatusOfCode(code: int): (r: Option<AuthStatus>)
    ensures r.Some? <==> 0 <= code < |Members|
    ensures r.Some? ==> ErrorCode(r.value) == code
  {
    ErrorCodeTable();
    if 0 <= code < |Members| then Some(Members[code]) else None
  }

  /** Decoding the code of a member gives that member back. */
  lemma StatusOfCodeRoundTrip(s: AuthStatus)
    ensures StatusOfCode(ErrorCode(s)) == Some(s)
  {
  }

  // The values of Python's http.HTTPStatus members that the enum uses.
  const StatusOk: int := 200
  const StatusBadRequest: int := 400
  const StatusForbidden: int := 403
  const StatusNotFound: int := 404
  const StatusInternalServerError: int := 500

  /** The HTTP status each member is declared with. */
  function HttpStatus(s: AuthStatus): (h: int)
    ensures h == StatusOk <==> s == Success
    ensures h in {StatusOk, StatusBadRequest, StatusForbidden, StatusNotFound, StatusInternalServerError}
  {
    match s
    case Success => StatusOk
    case NoUsernameEmailSupplied => StatusBadRequest
    case NoSuchUser => StatusNotFound
    case NoPasswordSupplied => StatusBadRequest
    case IncorrectPassword => StatusForbidden
    case NoUserTokenSupplied => StatusBadRequest
    case InvalidAppUserToken => StatusBadRequest
    case CorruptedDatabaseTooManyUserIds => StatusInternalServerError
    case ClientError => StatusBadRequest
    case InternalError => StatusInternalServerError
    case OtherError => StatusInternalServerError
  }

  /** Which members answer with which HTTP status, class by class. */
  lemma HttpStatusClasses(s: AuthStatus)
    ensures HttpStatus(s) == StatusBadRequest <==>
      s in {NoUsernameEmailSupplied, NoPasswordSupplied, NoUserTokenSupplied, InvalidAppUserToken, ClientError}
    ensures HttpStatus(s) == StatusNotFound <==> s == NoSuchUser
    ensures HttpStatus(s) == StatusForbidden <==> s == IncorrectPassword
    ensures HttpStatus(s) == StatusInternalServerError <==>
      s in {CorruptedDatabaseTooManyUserIds, InternalError, OtherError}
    ensures HttpStatus(s) == StatusOk <==> s == Success
  {
  }

  function Description(s: AuthStatus): (d: string)
    ensures |d| > 0
  {
    match s
    case Success => "Ok"
    case NoUsernameEmailSupplied => "Query parameter username_email not supplied"
    case NoSuchUser => "No such user"
    case NoPasswordSupplied => "Query parameter password not supplied"
    case IncorrectPassword => "Incorrect password"
    case NoUserTokenSupplied => "Query parameter token was not supplied"
    case InvalidAppUserToken => "Invalid application user token"
    case CorruptedDatabaseTooManyUserIds =>
      "Corrupted database too many internal user_ids found for the given username or email"
    case ClientError => "Client error"
    case InternalError => "Internal error"
    case OtherError => "Other error"
  }

  /** The JSON object `{error_code, error_message}` of an error response. */
  datatype ErrorBody = ErrorBody(errorCode: int, errorMessage: string)

  /** The (body, HTTP status) pair a Flask handler returns. */
  datatype ErrorTuple = ErrorTuple(body: ErrorBody, httpStatus: int)

  const Separator: string := ": "

  /** AuthStatus.to_tuple: the member's own code and HTTP status, and its description with
      the additional description appended after ": " when one is given and non-empty. */
  function ToTuple(s: AuthStatus, additionalDescription: Option<string>): (t: ErrorTuple)
    ensures t.body.errorCode == ErrorCode(s) && t.httpStatus == HttpStatus(s)
    ensures Description(s) <= t.body.errorMessage
    ensures t.body.errorMessage == Description(s) <==> !Truthy(additionalDescription)
    ensures Truthy(additionalDescription) ==>
      t.body.errorMessage[|Description(s)|..] == Separator + additionalDescription.value
  {
    var description :=
      if Truthy(additionalDescription) then Description(s) + Separator + additionalDescription.value
      else Description(s);
    ErrorTuple(ErrorBody(ErrorCode(s), description), HttpStatus(s))
  }

  /** What a client can read back from an error tuple: the member its code names (provided
      the HTTP status agrees) and the additional description after the member's own text. */
  function DecodeErrorTuple(t: ErrorTuple): Option<(AuthStatus, Option<string>)> {
    match StatusOfCode(t.body.errorCode)
    case None => None
    case Some(s) =>
      var d := Description(s);
      var m := t.body.errorMessage;
      if t.httpStatus != HttpStatus(s) then None
      else if m == d then Some((s, None))
      else if |m| > |d| + |Separator| && m[..|d| + |Separator|] == d + Separator then
        Some((s, Some(m[|d| + |Separator|..])))
      else None
  }

  /** An error tuple determines the member and the (non-empty) additional description it
      was made from. */
  lemma ToTupleRoundTrip(s: AuthStatus, additionalDescription: Option<string>)
    ensures DecodeErrorTuple(ToTuple(s, additionalDescription)) ==
      Some((s, if Truthy(additionalDescription) then additionalDescription else None))
  {
  }

  /** The exception the service raises for every status other than SUCCESS; its message is
      the status's description. */
  datatype AuthError = AuthError(status: AuthStatus)

  /** AuthError.to_tuple: the status's tuple with no additional description. */
  function AuthErrorToTuple(e: AuthError): (t: ErrorTuple)
    ensures t.body.errorCode == ErrorCode(e.status) && t.httpStatus == HttpStatus(e.status)
    ensures t.body.errorMessage == Description(e.status)
  {
    ToTuple(e.status, None)
  }

  /** The handler Flask calls for an AuthError. */
  function HandleAuthenticationErrors(ex: AuthError): (t: ErrorTuple)
    ensures DecodeErrorTuple(t) == Some((ex.status, None))
  {
    ToTupleRoundTrip(ex.status, None);
    AuthErrorToTuple(ex)
  }

  /** The status handle_http_exceptions picks for an HTTPException's code: OTHER_ERROR,
      overwritten by CLIENT_ERROR for 4xx, then by INTERNAL_ERROR for 500 and above. */
  function ClassifyHttpCode(code: int): (s: AuthStatus)
    ensures s == ClientError <==> 400 <= code < 500
    ensures s == InternalError <==> code >= 500
    ensures s == OtherError <==> code < 400
  {
    var s0 := OtherError;
    var s1 := if 400 <= code < 500 then ClientError else s0;
    if code >= 500 then InternalError else s1
  }

  /** The handler Flask calls for an HTTPException with the given code; `text` is `str(ex)`. */
  function HandleHttpExceptions(code: int, text: string): (t: ErrorTuple)
    ensures DecodeErrorTuple(t) == Some((ClassifyHttpCode(code), if text == "" then None else Some(text)))
    ensures t.httpStatus == if 400 <= code < 500 then StatusBadRequest else StatusInternalServerError
  {
    ToTupleRoundTrip(ClassifyHttpCode(code), Some(text));
    ToTuple(ClassifyHttpCode(code), Some(text))
  }

  /** The catch-all handler for any other exception; `text` is `str(ex)`. */
  function HandleErrors(text: string): (t: ErrorTuple)
    ensures DecodeErrorTuple(t) == Some((InternalError, if text == "" then None else Some(text)))
    ensures t.body.errorCode == 9 && t.httpStatus == StatusInternalServerError
  {
    ToTupleRoundTrip(InternalError, Some(text));
    ErrorCodeTable();
    assert Members[9] == InternalError;
    ToTuple(InternalError, Some(text))
  }
}
