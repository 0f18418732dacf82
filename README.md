# Auth web service: decision logic

A Dafny model of the request-handling logic of the `authws` Flask web service
(`auth/python/flask/auth/authws/authws.py`). The service resolves a username or email
to a user id, checks a user's password and issues a bearer token, and returns a user's
record when given a valid token. Every outcome is a member of the `AuthStatus` enum. An
error reaches the client as the tuple `({error_code, error_message}, http_status)`.

The modules follow the structure of the source:

- `Wrappers` (wrappers.dfy): `Option` stands for Python's `None`. `Result` stands for a
  return value or a raised `AuthError`, and `:-` propagates an `Err` the way the
  exception propagates. `Truthy` is Python's `if not x` test on an optional string.
- `Status` (status.dfy) covers the `AuthStatus` enum and the error-tuple format:
  - the error code is the number of members declared before a member, which is what
    `__new__` and `__init__` compute;
  - each member has its HTTP status and its description;
  - `to_tuple`, `AuthError.to_tuple` and the three Flask error handlers;
  - a decoder for error tuples. The round trip through it shows that a tuple determines
    its member and its additional description.
- `Decimal` (decimal.dfy): `str(user_id)` for the non-negative ids that Flask's `int`
  route converter accepts, together with its parser.
- `Store` (store.dfy) holds the database as four tables (`user`, `username`, `email`,
  `password`), each one a sequence of rows:
  - each of the three SQL queries is written out as the relational operation it performs:
    WHERE, UNION with duplicate elimination, and a LEFT JOIN whose rows multiply;
  - all three lookups then share one single-row rule.
- `Service` (service.dfy) holds `find_user`, `authenticate_user` and `get_user` over that
  store, plus an abstract bcrypt:
  - bcrypt is a pair of functions `hashpw(key, salt)` and `checkpw(key, hash)`;
  - the predicate `Sound` holds what the service relies on: a key always checks against
    its own hash, and a hash is never empty;
  - the token is bcrypt's hash of `str(user_id) + secret_key`.

Error codes come from declaration order, as the enum's `__new__` computes them. They are
not assigned member by member. So reordering the members would renumber them.

## Model

| member | source | states |
|---|---|---|
| `Wrappers.Truthy` | auth/python/flask/auth/authws/authws.py:245 | an optional string passes Python's `if not x` test exactly when it is neither None nor the empty string |
| `Status.IndexOf` | auth/python/flask/auth/authws/authws.py:94-96 | the position found holds the member and no earlier position does |
| `Status.MemberDeclared` | auth/python/flask/auth/authws/authws.py:117-138 | every enum value is one of the eleven declared members |
| `Status.ErrorCode` | auth/python/flask/auth/authws/authws.py:87-107 | a member's code is the number of members declared before it |
| `Status.ErrorCodeTable` | auth/python/flask/auth/authws/authws.py:117-138 | the i-th declared member has code i: SUCCESS is 0 and OTHER_ERROR is 10 |
| `Status.ErrorCodeInjective` | auth/python/flask/auth/authws/authws.py:87-107 | distinct members have distinct codes |
| `Status.StatusOfCode` | auth/python/flask/auth/authws/authws.py:113-115 | a code names a member exactly when it lies in 0..10, and the member named has that code |
| `Status.StatusOfCodeRoundTrip` | auth/python/flask/auth/authws/authws.py:113-115 | decoding a member's code gives the member back |
| `Status.HttpStatus` | auth/python/flask/auth/authws/authws.py:117-138 | every member answers with 200, 400, 403, 404 or 500, and only SUCCESS answers with 200 |
| `Status.HttpStatusClasses` | auth/python/flask/auth/authws/authws.py:117-138 | 400 is exactly the three "not supplied" members, INVALID_APP_USER_TOKEN and CLIENT_ERROR; 404 is exactly NO_SUCH_USER; 403 is exactly INCORRECT_PASSWORD; 500 is exactly the corruption, internal and other errors |
| `Status.Description` | auth/python/flask/auth/authws/authws.py:117-138 | every member has a non-empty description |
| `Status.ToTuple` | auth/python/flask/auth/authws/authws.py:109-115 | the tuple carries the member's own code and HTTP status; the message begins with the description; the message is the description alone exactly when the additional description is None or empty; otherwise ": " and the detail follow |
| `Status.ToTupleRoundTrip` | auth/python/flask/auth/authws/authws.py:109-115 | decoding a tuple gives back its member and its non-empty additional description |
| `Status.AuthErrorToTuple` | auth/python/flask/auth/authws/authws.py:141-149 | an AuthError's tuple has its status's code and HTTP status and never appends a detail |
| `Status.HandleAuthenticationErrors` | auth/python/flask/auth/authws/authws.py:152-155 | the response decodes to the raised status with no detail |
| `Status.ClassifyHttpCode` | auth/python/flask/auth/authws/authws.py:161-165 | each code gets exactly one status: CLIENT_ERROR for 400..499, INTERNAL_ERROR for 500 and above, OTHER_ERROR below 400 |
| `Status.HandleHttpExceptions` | auth/python/flask/auth/authws/authws.py:158-166 | the response decodes to the classified status plus the exception text; its HTTP status is 400 for 4xx codes and 500 otherwise |
| `Status.HandleErrors` | auth/python/flask/auth/authws/authws.py:169-176 | any other exception yields INTERNAL_ERROR (code 9, HTTP 500) plus the exception text |
| `Decimal.NatToString` | auth/python/flask/auth/authws/authws.py:286 | `str(n)` is a non-empty string of digits with no leading zero |
| `Decimal.ParseNatToString` | auth/python/flask/auth/authws/authws.py:286 | reading `str(n)` back as a decimal gives n |
| `Decimal.NatToStringInjective` | auth/python/flask/auth/authws/authws.py:286 | distinct ids have distinct `str` forms |
| `Store.RowCountZero` | auth/python/flask/auth/authws/authws.py:208-209 | a WHERE clause selects no row exactly when no row satisfies its condition |
| `Store.Where` | auth/python/flask/auth/authws/authws.py:217-219 | the selected rows number RowCount and are exactly the table's rows that satisfy the condition |
| `Store.Distinct` | auth/python/flask/auth/authws/authws.py:203-205 | duplicate elimination keeps exactly the input's values, each once |
| `Store.NoDuplicatesCardinality` | auth/python/flask/auth/authws/authws.py:203-205 | a list without duplicates has as many entries as values |
| `Store.Union` | auth/python/flask/auth/authws/authws.py:203-205 | UNION yields the union of both queries' values; it has one row per distinct value |
| `Store.SingleRow` | auth/python/flask/auth/authws/authws.py:208-212 | no row gives NO_SUCH_USER, more than one gives CORRUPTED_DATABASE_TOO_MANY_USER_IDS, and exactly one returns that row |
| `Store.OwnersNamed` | auth/python/flask/auth/authws/authws.py:203-205 | one half of the identifier query yields exactly the owners of the table's rows that carry the identifier |
| `Store.IdsForIdentifier` | auth/python/flask/auth/authws/authws.py:203-207 | the UNION query yields each owner of a username row or an email row carrying the identifier, and each only once |
| `Store.IdsForIdentifierElements` | auth/python/flask/auth/authws/authws.py:201-207 | the identifier query returns each id whose username or email is the identifier, exactly once |
| `Store.FindUserIdByUsernameOrEmail` | auth/python/flask/auth/authws/authws.py:201-212 | NO_SUCH_USER when no user has the identifier; corruption when several do; otherwise the one user id that has it |
| `Store.UnionMergesUsernameAndEmail` | auth/python/flask/auth/authws/authws.py:203-205 | a user whose username and email both equal the identifier is found, not reported as corruption |
| `Store.SharedIdentifierIsCorruption` | auth/python/flask/auth/authws/authws.py:208-211 | two distinct users sharing the identifier give CORRUPTED_DATABASE_TOO_MANY_USER_IDS |
| `Store.PasswordHashFromUserId` | auth/python/flask/auth/authws/authws.py:215-224 | NO_SUCH_USER exactly when no password row has the id; corruption when several do; otherwise the hash of the user's one password row |
| `Store.LeftJoinColumn` | auth/python/flask/auth/authws/authws.py:230-231 | a left-joined side contributes its matching values, or a single NULL when there are none |
| `Store.JoinUser` | auth/python/flask/auth/authws/authws.py:229-231 | one user row joins into one row per (username, email) pair: the count is their product, and the rows are exactly the records built from the user row and each pair |
| `Store.Join` | auth/python/flask/auth/authws/authws.py:229-231 | the join has as many rows as user rows times usernames times emails, and its rows are exactly those of each user row's join |
| `Store.JoinedValues` | auth/python/flask/auth/authws/authws.py:230-231 | a left-joined table supplies exactly the names of the user's rows, or a single NULL when the user has none; there are as many values as rows, and at least one |
| `Store.JoinedValuesMembers` | auth/python/flask/auth/authws/authws.py:230-231 | helper for JoinedValues: the left-join column's values are exactly those the table can supply for the user |
| `Store.UserRows` | auth/python/flask/auth/authws/authws.py:229-233 | the user query has (user rows) x (usernames, or 1) x (emails, or 1) rows; a record is among them exactly when it carries the id, a display name from one of the user's rows, and a username and an email that the left joins supply |
| `Store.ProductOfCounts` | auth/python/flask/auth/authws/authws.py:233-237 | arithmetic helper for UserFromUserId: a product of a count and two factors of at least one is zero exactly when the count is, and one exactly when all three are |
| `Store.UserFromUserId` | auth/python/flask/auth/authws/authws.py:227-238 | NO_SUCH_USER exactly when no user row has the id; CORRUPTED_DATABASE_TOO_MANY_USER_IDS exactly when a user row exists and there are several user rows, usernames or emails for the id; no other error; success exactly when one user row exists and at most one username and at most one email belong to it; the record returned is built from those rows, with NULL for a missing side |
| `Service.TokenKey` | auth/python/flask/auth/authws/authws.py:269 | the key is `str(user_id)` followed by the secret |
| `Service.TokenKeyInjective` | auth/python/flask/auth/authws/authws.py:286 | for a fixed secret, distinct user ids have distinct token keys |
| `Service.FindUser` | auth/python/flask/auth/authws/authws.py:241-247 | a missing or empty identifier fails with NO_USERNAME_EMAIL_SUPPLIED; for a supplied identifier, NO_SUCH_USER when no user has it and corruption when several do; success exactly when one user has the identifier, and it returns that user's id; no other failure is possible |
| `Service.AuthenticateUser` | auth/python/flask/auth/authws/authws.py:250-271 | the checks run in the source's order: a failed user lookup passes on its own error (an unknown id gives NO_SUCH_USER whatever the password); then a missing password gives NO_PASSWORD_SUPPLIED; then a failed hash lookup passes on its own error; then a hash mismatch gives INCORRECT_PASSWORD; success exactly when the user and a single hash exist and the password checks against that hash; it then returns the same id, authenticated, with a hash of the token key as the token |
| `Service.GetUser` | auth/python/flask/auth/authws/authws.py:274-289 | a missing token gives NO_USER_TOKEN_SUPPLIED; a token that does not check against the key gives INVALID_APP_USER_TOKEN before any lookup; otherwise the user lookup's outcome, for the requested id |
| `Service.FailuresAreErrors` | auth/python/flask/auth/authws/authws.py:241-289 | no handler fails with SUCCESS, and every failure answers with a 4xx or 5xx status |
| `Service.IssuedTokenVerifies` | auth/python/flask/auth/authws/authws.py:269-289 | under the bcrypt hypothesis, a token issued for a user passes get_user's check for that user, and get_user then returns that user's record |
| `Service.SignInRoundTrip` | auth/python/flask/auth/authws/authws.py:241-289 | find_user, then authenticate_user, then get_user with the issued token returns a record of the same id whose username or email is the identifier the client started from |
| `Service.OnlyRow` | auth/python/flask/auth/authws/authws.py:233-237 | when a WHERE clause selects at most one row, any two selected rows are equal |

## Left out

- `get_required_environment_variable`, `create_db`, `create_app` and the `db` and `app` globals: these are environment and configuration I/O. The database and the token secret (`app.secret_key`) are parameters.
- SQL text, SQLAlchemy connections and `db_result_to_tuple`: tables are sequences of rows, and each query is a function over them. A query returns rows in table order; SQL leaves that order open, and the single-row rule never depends on it.
- bcrypt internals (salting, cost factor, constant-time comparison): `hashpw` and `checkpw` are opaque functions, and `Sound` is their one hypothesis. `bcrypt.gensalt(12)` is random, so the salt is a parameter.
- Hash collisions are not modelled, so the model states nothing about tokens that were not issued for a user. It shows only that such a token fails whenever `checkpw` rejects it.
- Python's bcrypt raises `ValueError` when `checkpw` gets a malformed hash; the catch-all handler would turn that into INTERNAL_ERROR. Here `checkpw` is a total boolean function, so that path is not modelled.
- `.encode('utf-8')` and `.decode('utf-8')`: strings are sequences of characters and are never re-encoded.
- Flask routing, request-argument extraction and `@app.errorhandler` dispatch:
  - each handler body is a function of its inputs;
  - `request.args.get(...)` is an `Option<string>` parameter;
  - the `<int:user_id>` converter is a `nat` parameter.
- The HTTP status `HTTPStatus.OK` that `authenticate_user` pairs with its body is not carried in `AuthResponse`.
- Status.HandleHttpExceptions: `ex.code` is always an integer here. An HTTPException whose code is None is not covered, and neither is the TypeError it would raise. `str(ex)` is an arbitrary text parameter.
- String comparison in the database is exact character equality here. MariaDB compares string columns under their collation; with `charset=utf8mb4` (authws.py lines 64-66) the default collation ignores letter case and trailing spaces. So `find_user` with "LUSER" can find "luser" in the real service. Any claim that a record's username or email "is" the identifier, as in `Service.SignInRoundTrip`, holds only up to that collation.
- NULL columns are left out. `password_hash` and `display_name` are plain strings here, never NULL. A NULL `password_hash` would fail in `.encode` (authws.py line 264), and the catch-all handler would answer INTERNAL_ERROR. Only the username and email sides of the left join can be NULL here.
- The dummy dictionaries `users`, `password_hashes`, `by_username` and `by_email` (authws.py lines 179-194): no handler reads them.
- `auth/python/flask/auth/auth/auth.py` only renders a template. `auth/python/flask/auth/auth/test/test_auth.py` is a smoke test of that rendering. Neither is part of this model.
