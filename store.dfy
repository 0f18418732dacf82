/** The three database lookups of the auth web service, over the rows the SQL queries read.
    The database is a value holding its four tables in row order; each query is the
    relational operation its SQL text performs (WHERE, UNION, LEFT JOIN), and every lookup
    then applies the same single-row rule. */
module Store {
  import opened Wrappers
  import opened Status

  /** A row of table `user`. */
  datatype UserRow = UserRow(userId: int, displayName: string)

  /** A row of table `username` or of table `email`: the name or address, and its owner. */
  datatype NameRow = NameRow(name: string, userId: int)

  /** A row of table `password`. */
  datatype PasswordRow = PasswordRow(userId: int, passwordHash: string)

  datatype Db = Db(
    users: seq<UserRow>,
    usernames: seq<NameRow>,
    emails: seq<NameRow>,
    passwords: seq<PasswordRow>)

  /** The dictionary `user_from_user_id` builds; a left join leaves username or email NULL
      when the user has none. */
  datatype User = User(userId: int, username: Option<string>, email: Option<string>, displayName: string)

  // ----- Relational operations -----

  /** The number of rows a WHERE clause with condition p selects. */
  ghost function RowCount<T>(rows: seq<T>, p: T -> bool): nat {
    if rows == [] then 0 else (if p(rows[0]) then 1 else 0) + RowCount(rows[1..], p)
  }

  lemma {:induction false} RowCountZero<T>(rows: seq<T>, p: T -> bool)
    ensures RowCount(rows, p) == 0 <==> forall x :: x in rows ==> !p(x)
  {
    if rows != [] {
      RowCountZero(rows[1..], p);
      assert forall x :: x in rows <==> x == rows[0] || x in rows[1..];
    }
  }

  /** The rows of a table that satisfy a WHERE condition, in row order. */
  function Where<T(!new)>(rows: seq<T>, p: T -> bool): (r: seq<T>)
    ensures |r| == RowCount(rows, p)
    ensures forall x :: x in r <==> x in rows && p(x)
  {
    if rows == [] then []
    else (if p(rows[0]) then [rows[0]] else []) + Where(rows[1..], p)
  }

  /** Projection onto one column. */
  function Column<T, U>(rows: seq<T>, f: T -> U): (r: seq<U>)
    ensures |r| == |rows|
    ensures forall i :: 0 <= i < |rows| ==> r[i] == f(rows[i])
  {
    seq(|rows|, i requires 0 <= i < |rows| => f(rows[i]))
  }

  predicate NoDuplicates(xs: seq<int>) {
    forall i, j :: 0 <= i < j < |xs| ==> xs[i] != xs[j]
  }

  function Elements(xs: seq<int>): set<int> {
    set x | x in xs
  }

  /** Duplicate elimination, keeping the first occurrence of each value. */
  function Distinct(xs: seq<int>): (r: seq<int>)
    ensures forall x :: x in r <==> x in xs
    ensures NoDuplicates(r)
  {
    if xs == [] then []
    else
      var d := Distinct(xs[..|xs| - 1]);
      var last := xs[|xs| - 1];
      assert forall x :: x in xs <==> x in xs[..|xs| - 1] || x == last;
      if last in d then d else d + [last]
  }

  /** A sequence without duplicates has as many elements as its set of values. */
  lemma {:induction false} NoDuplicatesCardinality(xs: seq<int>)
    requires NoDuplicates(xs)
    ensures |Elements(xs)| == |xs|
  {
    if xs != [] {
      var init := xs[..|xs| - 1];
      NoDuplicatesCardinality(init);
      assert Elements(xs) == Elements(init) + {xs[|xs| - 1]};
      assert xs[|xs| - 1] !in Elements(init);
    }
  }

  /** SQL UNION: the rows of both queries, each value once. */
  function Union(a: seq<int>, b: seq<int>): (r: seq<int>)
    ensures Elements(r) == Elements(a) + Elements(b)
    ensures NoDuplicates(r)
    ensures |r| == |Elements(a) + Elements(b)|
  {
    var r := Distinct(a + b);
    NoDuplicatesCardinality(r);
    r
  }

  // ----- The single-row rule -----

  /** All three lookups: no row is NO_SUCH_USER, more than one is
      CORRUPTED_DATABASE_TOO_MANY_USER_IDS, exactly one is returned. */
  function SingleRow<T>(rows: seq<T>): (r: Result<T, AuthStatus>)
    ensures r == Err(NoSuchUser) <==> |rows| == 0
    ensures r == Err(CorruptedDatabaseTooManyUserIds) <==> |rows| > 1
    ensures r.Ok? <==> |rows| == 1
    ensures r.Ok? ==> rows == [r.value]
  {
    if |rows| < 1 then Err(NoSuchUser)
    else if |rows| > 1 then Err(CorruptedDatabaseTooManyUserIds)
    else Ok(rows[0])
  }

  // ----- find_user_id_by_username_or_email -----

  /** The owners of the rows of a `username` or `email` table whose name is key, in row
      order. */
  function OwnersNamed(rows: seq<NameRow>, key: string): (ids: seq<int>)
    ensures forall id :: id in ids <==> NameRow(key, id) in rows
  {
    if rows == [] then []
    else
      assert forall row :: row in rows <==> row == rows[0] || row in rows[1..];
      (if rows[0].name == key then [rows[0].userId] else []) + OwnersNamed(rows[1..], key)
  }

  /** The identifier query: the owners of the username rows and of the email rows named by
      the identifier, combined by UNION so that each id appears once. */
  function IdsForIdentifier(db: Db, usernameEmail: string): (ids: seq<int>)
    ensures NoDuplicates(ids)
    ensures forall id :: id in ids <==>
      NameRow(usernameEmail, id) in db.usernames || NameRow(usernameEmail, id) in db.emails
  {
    var ids := Union(OwnersNamed(db.usernames, usernameEmail), OwnersNamed(db.emails, usernameEmail));
    assert forall id :: id in ids <==> id in Elements(ids);
    ids
  }

  /** The user ids whose username or whose email is the identifier. */
  ghost function MatchedIds(db: Db, usernameEmail: string): set<int> {
    set r | r in db.usernames + db.emails && r.name == usernameEmail :: r.userId
  }

  lemma IdsForIdentifierElements(db: Db, usernameEmail: string)
    ensures Elements(IdsForIdentifier(db, usernameEmail)) == MatchedIds(db, usernameEmail)
    ensures |IdsForIdentifier(db, usernameEmail)| == |MatchedIds(db, usernameEmail)|
  {
    var ids := IdsForIdentifier(db, usernameEmail);
    var m := MatchedIds(db, usernameEmail);
    forall id | id in m ensures id in Elements(ids) {
      var r :| r in db.usernames + db.emails && r.name == usernameEmail && r.userId == id;
      assert r == NameRow(usernameEmail, id);
    }
    forall id | id in Elements(ids) ensures id in m {
      assert NameRow(usernameEmail, id) in db.usernames + db.emails;
    }
    NoDuplicatesCardinality(ids);
  }

  /** find_user_id_by_username_or_email: the one user id the identifier names. Because the
      query is a UNION, a user matched by both username and email counts once. */
  function FindUserIdByUsernameOrEmail(db: Db, usernameEmail: string): (r: Result<int, AuthStatus>)
    ensures r == Err(NoSuchUser) <==> MatchedIds(db, usernameEmail) == {}
    ensures r == Err(CorruptedDatabaseTooManyUserIds) <==> |MatchedIds(db, usernameEmail)| > 1
    ensures r.Ok? <==> |MatchedIds(db, usernameEmail)| == 1
    ensures r.Ok? ==> MatchedIds(db, usernameEmail) == {r.value}
  {
    IdsForIdentifierElements(db, usernameEmail);
    var ids := IdsForIdentifier(db, usernameEmail);
    var r := SingleRow(ids);
    assert r.Ok? ==> Elements(ids) == {r.value};
    r
  }

  /** Under the UNION query a user whose username and email are both the identifier, and
      whom no other row names, is found, not reported as corruption. */
  lemma UnionMergesUsernameAndEmail(db: Db, usernameEmail: string, id: int)
    requires NameRow(usernameEmail, id) in db.usernames && NameRow(usernameEmail, id) in db.emails
    requires forall r :: r in db.usernames + db.emails && r.name == usernameEmail ==> r.userId == id
    ensures FindUserIdByUsernameOrEmail(db, usernameEmail) == Ok(id)
  {
    assert NameRow(usernameEmail, id) in db.usernames + db.emails;
    assert MatchedIds(db, usernameEmail) == {id};
  }

  /** Two different users sharing the identifier is detected as corruption. */
  lemma SharedIdentifierIsCorruption(db: Db, usernameEmail: string, r1: NameRow, r2: NameRow)
    requires r1 in db.usernames + db.emails && r2 in db.usernames + db.emails
    requires r1.name == usernameEmail && r2.name == usernameEmail && r1.userId != r2.userId
    ensures FindUserIdByUsernameOrEmail(db, usernameEmail) == Err(CorruptedDatabaseTooManyUserIds)
  {
    var m := MatchedIds(db, usernameEmail);
    assert {r1.userId, r2.userId} <= m;
    assert |{r1.userId, r2.userId}| == 2;
    SubsetCardinality({r1.userId, r2.userId}, m);
  }

  lemma SubsetCardinality(a: set<int>, b: set<int>)
    requires a <= b
    ensures |a| <= |b|
  {
    assert b == a + (b - a);
  }

  // ----- password_hash_from_user_id -----

  function PasswordFor(userId: int): PasswordRow -> bool {
    (r: PasswordRow) => r.userId == userId
  }

  /** password_hash_from_user_id: the hash of the one `password` row of the user. */
  function PasswordHashFromUserId(db: Db, userId: int): (r: Result<string, AuthStatus>)
    ensures r == Err(NoSuchUser) <==> forall row :: row in db.passwords ==> row.userId != userId
    ensures r == Err(CorruptedDatabaseTooManyUserIds) <==> RowCount(db.passwords, PasswordFor(userId)) > 1
    ensures r.Ok? <==> RowCount(db.passwords, PasswordFor(userId)) == 1
    ensures r.Ok? ==> PasswordRow(userId, r.value) in db.passwords
  {
    RowCountZero(db.passwords, PasswordFor(userId));
    var w := Where(db.passwords, PasswordFor(userId));
    var row :- SingleRow(w);
    assert row in w;
    Ok(row.passwordHash)
  }

  // ----- user_from_user_id -----

  function UserWithId(userId: int): UserRow -> bool {
    (r: UserRow) => r.userId == userId
  }

  function OwnedBy(userId: int): NameRow -> bool {
    (r: NameRow) => r.userId == userId
  }

  function NameOf(r: NameRow): string {
    r.name
  }

  /** What a LEFT JOIN contributes for one side: its matching values, or a single NULL. */
  function LeftJoinColumn(names: seq<string>): (r: seq<Option<string>>)
    ensures |r| == if names == [] then 1 else |names|
    ensures names == [] ==> r == [None]
    ensures names != [] ==> forall i :: 0 <= i < |names| ==> r[i] == Some(names[i])
  {
    if names == [] then [None] else seq(|names|, i requires 0 <= i < |names| => Some(names[i]))
  }

  /** The joined rows of one user row with each (username, email) pair, username-major. */
  function JoinUser(u: UserRow, names: seq<Option<string>>, emails: seq<Option<string>>): (r: seq<User>)
    ensures |r| == |names| * |emails|
    ensures forall x :: x in r <==>
      exists i, j :: 0 <= i < |names| && 0 <= j < |emails| && x == User(u.userId, names[i], emails[j], u.displayName)
  {
    if names == [] then []
    else
      var first := seq(|emails|, j requires 0 <= j < |emails| => User(u.userId, names[0], emails[j], u.displayName));
      var rest := JoinUser(u, names[1..], emails);
      var r := first + rest;
      forall x | x in r
        ensures exists i, j ::
          0 <= i < |names| && 0 <= j < |emails| && x == User(u.userId, names[i], emails[j], u.displayName)
      {
        if x in first {
          var j :| 0 <= j < |emails| && first[j] == x;
          assert x == User(u.userId, names[0], emails[j], u.displayName);
        } else {
          assert x in rest;
          var i, j :|
            0 <= i < |names| - 1 && 0 <= j < |emails| && x == User(u.userId, names[1..][i], emails[j], u.displayName);
          assert x == User(u.userId, names[i + 1], emails[j], u.displayName);
        }
      }
      forall i, j | 0 <= i < |names| && 0 <= j < |emails|
        ensures User(u.userId, names[i], emails[j], u.displayName) in r
      {
        if i == 0 {
          assert first[j] == User(u.userId, names[0], emails[j], u.displayName);
        } else {
          assert names[i] == names[1..][i - 1];
          assert User(u.userId, names[i], emails[j], u.displayName) in rest;
        }
      }
      r
  }

  /** The joined rows of every user row. */
  function Join(users: seq<UserRow>, names: seq<Option<string>>, emails: seq<Option<string>>): (r: seq<User>)
    ensures |r| == |users| * (|names| * |emails|)
    ensures forall x :: x in r <==> exists k :: 0 <= k < |users| && x in JoinUser(users[k], names, emails)
  {
    if users == [] then []
    else
      var rest := Join(users[1..], names, emails);
      assert forall k :: 1 <= k < |users| ==> users[k] == users[1..][k - 1];
      assert forall x :: x in JoinUser(users[0], names, emails) + rest <==>
        x in JoinUser(users[0], names, emails) || x in rest;
      JoinUser(users[0], names, emails) + rest
  }

  /** A value the LEFT JOIN of a user with a `username` or `email` table can supply: the
      name in one of the user's rows, or NULL when the user has no row there. */
  ghost predicate LeftJoined(rows: seq<NameRow>, userId: int, v: Option<string>) {
    match v
    case None => forall row :: row in rows ==> row.userId != userId
    case Some(n) => NameRow(n, userId) in rows
  }

  /** The values one left-joined table supplies for the user. */
  function JoinedValues(rows: seq<NameRow>, userId: int): (r: seq<Option<string>>)
    ensures |r| == if RowCount(rows, OwnedBy(userId)) == 0 then 1 else RowCount(rows, OwnedBy(userId))
    ensures forall v :: v in r <==> LeftJoined(rows, userId, v)
  {
    var w := Where(rows, OwnedBy(userId));
    var names := Column(w, NameOf);
    RowCountZero(rows, OwnedBy(userId));
    JoinedValuesMembers(rows, userId, w, names);
    LeftJoinColumn(names)
  }

  lemma JoinedValuesMembers(rows: seq<NameRow>, userId: int, w: seq<NameRow>, names: seq<string>)
    requires w == Where(rows, OwnedBy(userId)) && names == Column(w, NameOf)
    ensures forall v :: v in LeftJoinColumn(names) <==> LeftJoined(rows, userId, v)
  {
    var r := LeftJoinColumn(names);
    RowCountZero(rows, OwnedBy(userId));
    forall v ensures v in r <==> LeftJoined(rows, userId, v) {
      match v
      case None =>
        if names != [] {
          assert w[0] in w;
        }
      case Some(n) =>
        if NameRow(n, userId) in rows {
          assert NameRow(n, userId) in w;
          var i :| 0 <= i < |w| && w[i] == NameRow(n, userId);
          assert r[i] == v;
        }
        if v in r {
          var i :| 0 <= i < |r| && r[i] == v;
          assert w[i] in w && w[i] == NameRow(n, userId);
        }
    }
  }

  /** The user query: the user's rows of table `user`, each left-joined with the user's
      usernames and with the user's emails. */
  function UserRows(db: Db, userId: int): (r: seq<User>)
    ensures |r| == RowCount(db.users, UserWithId(userId)) *
      (|JoinedValues(db.usernames, userId)| * |JoinedValues(db.emails, userId)|)
    ensures forall x :: x in r <==>
      && x.userId == userId
      && UserRow(userId, x.displayName) in db.users
      && LeftJoined(db.usernames, userId, x.username)
      && LeftJoined(db.emails, userId, x.email)
  {
    var users := Where(db.users, UserWithId(userId));
    var names := JoinedValues(db.usernames, userId);
    var emails := JoinedValues(db.emails, userId);
    var r := Join(users, names, emails);
    forall x | x in r
      ensures x.userId == userId && UserRow(userId, x.displayName) in db.users
      ensures LeftJoined(db.usernames, userId, x.username) && LeftJoined(db.emails, userId, x.email)
    {
      var k :| 0 <= k < |users| && x in JoinUser(users[k], names, emails);
      var i, j :|
        0 <= i < |names| && 0 <= j < |emails| && x == User(users[k].userId, names[i], emails[j], users[k].displayName);
      assert users[k] in users && names[i] in names && emails[j] in emails;
    }
    forall x: User | && x.userId == userId && UserRow(userId, x.displayName) in db.users
               && LeftJoined(db.usernames, userId, x.username) && LeftJoined(db.emails, userId, x.email)
      ensures x in r
    {
      assert UserRow(userId, x.displayName) in users;
      var k :| 0 <= k < |users| && users[k] == UserRow(userId, x.displayName);
      var i :| 0 <= i < |names| && names[i] == x.username;
      var j :| 0 <= j < |emails| && emails[j] == x.email;
      assert x == User(users[k].userId, names[i], emails[j], users[k].displayName);
      assert x in JoinUser(users[k], names, emails);
    }
    r
  }

  /** A product of a count and two factors that are at least one. */
  lemma ProductOfCounts(a: nat, b: nat, c: nat)
    requires b >= 1 && c >= 1
    ensures a * (b * c) == 0 <==> a == 0
    ensures a * (b * c) == 1 <==> a == 1 && b == 1 && c == 1
  {
  }

  /** user_from_user_id: the one joined row of the user. A user row whose user has two
      usernames or two emails joins into several rows and reads as corruption. */
  function UserFromUserId(db: Db, userId: int): (r: Result<User, AuthStatus>)
    ensures r == Err(NoSuchUser) <==> forall row :: row in db.users ==> row.userId != userId
    ensures r.Ok? <==>
      && RowCount(db.users, UserWithId(userId)) == 1
      && RowCount(db.usernames, OwnedBy(userId)) <= 1
      && RowCount(db.emails, OwnedBy(userId)) <= 1
    ensures r == Err(CorruptedDatabaseTooManyUserIds) <==>
      && RowCount(db.users, UserWithId(userId)) >= 1
      && (|| RowCount(db.users, UserWithId(userId)) > 1
          || RowCount(db.usernames, OwnedBy(userId)) > 1
          || RowCount(db.emails, OwnedBy(userId)) > 1)
    ensures r.Err? ==> r.error in {NoSuchUser, CorruptedDatabaseTooManyUserIds}
    ensures r.Ok? ==>
      && r.value.userId == userId
      && UserRow(userId, r.value.displayName) in db.users
      && LeftJoined(db.usernames, userId, r.value.username)
      && LeftJoined(db.emails, userId, r.value.email)
      && (r.value.username.Some? <==> RowCount(db.usernames, OwnedBy(userId)) == 1)
      && (r.value.email.Some? <==> RowCount(db.emails, OwnedBy(userId)) == 1)
  {
    var names := JoinedValues(db.usernames, userId);
    var emails := JoinedValues(db.emails, userId);
    RowCountZero(db.users, UserWithId(userId));
    RowCountZero(db.usernames, OwnedBy(userId));
    RowCountZero(db.emails, OwnedBy(userId));
    ProductOfCounts(RowCount(db.users, UserWithId(userId)), |names|, |emails|);
    var rows := UserRows(db, userId);
    var r := SingleRow(rows);
    if r.Ok? then
      assert r.value in rows;
      r
    else
      r
  }
}
