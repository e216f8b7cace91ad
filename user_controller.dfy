/** The user controller: registration with best-effort organizer provisioning,
    login, the profile, and the organizer list. Password hashing, the bcrypt
    comparison and the clock are parameters; a signed token is represented by
    the claims and lifetime it was signed with. Error replies carry
    `{status: 'error', message}`; `Err` holds that `message`. */
module UserController {
  import opened Common
  import opened Database

  /** `jwt.sign(claims, secret, {expiresIn})`. */
  datatype Token = Token(claims: Claims, expiresInHours: int)

  const TokenLifetimeHours := 24

  /** The `user` of a registration or login reply. */
  datatype UserInfo = UserInfo(id: int, firstName: string, lastName: string, email: string, organizerId: Option<int>)

  datatype Session = Session(token: Token, user: UserInfo)

  /** `jwt.sign({userId, email}, ..., {expiresIn: '24h'})`. */
  function SignToken(userId: int, email: string): (r: Token)
    ensures r.claims == Claims(userId, email) && r.expiresInHours == 24
  {
    Token(Claims(userId, email), TokenLifetimeHours)
  }

  // ---------------------------------------------------------------------
  // The organizer row

  /** The columns the provisioning code knows, in the order it pushes their values. */
  const RecognisedColumns: seq<string> := ["name", "email", "user_id", "created_date", "description", "contact_info"]

  /** The value meant for a recognised column of a new organizer. */
  function ValueFor(column: string, name: string, email: string, userId: int, createdDate: string): (r: JsValue)
    ensures r.JsNull? <==> column !in RecognisedColumns
    ensures column == "name" ==> r == JsString(name)
    ensures column == "email" || column == "contact_info" ==> r == JsString(email)
    ensures column == "user_id" ==> r == JsNumber(userId as real)
    ensures column == "created_date" ==> r == JsString(createdDate)
    ensures column == "description" ==> r == JsString("Organizer for " + name)
  {
    if column == "name" then JsString(name)
    else if column == "email" then JsString(email)
    else if column == "user_id" then JsNumber(userId as real)
    else if column == "created_date" then JsString(createdDate)
    else if column == "description" then JsString("Organizer for " + name)
    else if column == "contact_info" then JsString(email)
    else JsNull
  }

  /** The columns of `order` that the table has, in the order of `order`. */
  function KeepIn(order: seq<string>, columns: seq<string>): (r: seq<string>)
    ensures forall c :: c in r <==> c in order && c in columns
  {
    if order == [] then []
    else if order[0] in columns then [order[0]] + KeepIn(order[1..], columns)
    else KeepIn(order[1..], columns)
  }

  /** `KeepIn` keeps the order of `order`, and a distinct `order` gives each
      kept column once. */
  lemma {:induction false} KeepInOrder(order: seq<string>, columns: seq<string>)
    ensures IsSubsequence(KeepIn(order, columns), order)
    ensures Distinct(order) ==> Distinct(KeepIn(order, columns))
  {
    if order != [] {
      var rest := KeepIn(order[1..], columns);
      KeepInOrder(order[1..], columns);
      if order[0] in columns {
        assert KeepIn(order, columns) == [order[0]] + rest;
        assert ([order[0]] + rest)[1..] == rest;
        if Distinct(order) {
          assert Distinct(order[1..]);
          assert order[0] !in order[1..];
        }
      } else {
        assert KeepIn(order, columns) == rest;
        assert rest == [] || IsSubsequence(rest, order[1..]);
      }
    }
  }

  function ValuesFor(cs: seq<string>, name: string, email: string, userId: int, createdDate: string): (r: seq<JsValue>)
    ensures |r| == |cs|
    ensures forall i :: 0 <= i < |cs| ==> r[i] == ValueFor(cs[i], name, email, userId, createdDate)
  {
    if cs == [] then [] else [ValueFor(cs[0], name, email, userId, createdDate)] + ValuesFor(cs[1..], name, email, userId, createdDate)
  }

  /** The value list as the code builds it: for each recognised column, in the
      fixed order of `RecognisedColumns`, its value when the table has it. */
  function PushedValues(columns: seq<string>, name: string, email: string, userId: int, createdDate: string): (r: seq<JsValue>)
    ensures |r| == |KeepIn(RecognisedColumns, columns)|
    ensures forall i :: 0 <= i < |r| ==> r[i] == ValueFor(KeepIn(RecognisedColumns, columns)[i], name, email, userId, createdDate)
  {
    ValuesFor(KeepIn(RecognisedColumns, columns), name, email, userId, createdDate)
  }

  /** `INSERT INTO organizers (<columns>) VALUES (?, ..., ?)` bound with
      `values`: the i-th column takes the i-th value, and a placeholder left
      without a value binds NULL. */
  function BindRow(columns: seq<string>, values: seq<JsValue>): (r: OrganizerRow)
    ensures forall c :: c in r <==> c in columns
  {
    if columns == [] then map[]
    else
      var rest := BindRow(columns[1..], if values == [] then [] else values[1..]);
      rest[columns[0] := if values == [] then JsNull else values[0]]
  }

  /** The pushed values follow the recognised columns the table has, in the
      fixed order, one value per column. */
  lemma PushedValuesInFixedOrder(columns: seq<string>)
    ensures IsSubsequence(KeepIn(RecognisedColumns, columns), RecognisedColumns)
    ensures Distinct(KeepIn(RecognisedColumns, columns))
  {
    KeepInOrder(RecognisedColumns, columns);
  }

  /** The row the provisioning code inserts. */
  function AsWrittenOrganizerRow(columns: seq<string>, name: string, email: string, userId: int, createdDate: string): (r: OrganizerRow)
    ensures forall c :: c in r <==> c in columns
  {
    BindRow(columns, PushedValues(columns, name, email, userId, createdDate))
  }

  /** The row it sets out to insert: each recognised column the table has
      receives its own value, and the other columns are left to their defaults. */
  function OrganizerRowFor(columns: seq<string>, name: string, email: string, userId: int, createdDate: string): (r: OrganizerRow)
    ensures forall c :: c in r <==> c in columns && c in RecognisedColumns
    ensures forall c :: c in r ==> r[c] == ValueFor(c, name, email, userId, createdDate)
  {
    map c | c in columns && c in RecognisedColumns :: ValueFor(c, name, email, userId, createdDate)
  }

  /** Binding each column's own value builds the map of those values. */
  lemma {:induction false} BindOwnValues(cs: seq<string>, name: string, email: string, userId: int, createdDate: string)
    ensures BindRow(cs, ValuesFor(cs, name, email, userId, createdDate)) ==
            map c | c in cs :: ValueFor(c, name, email, userId, createdDate)
  {
    if cs != [] {
      var vs := ValuesFor(cs, name, email, userId, createdDate);
      assert vs[1..] == ValuesFor(cs[1..], name, email, userId, createdDate);
      BindOwnValues(cs[1..], name, email, userId, createdDate);
    }
  }

  /** When the table's columns are exactly recognised ones in the fixed order,
      the row as written is the intended row. */
  lemma AlignedColumnsBindIntendedRow(columns: seq<string>, name: string, email: string, userId: int, createdDate: string)
    requires columns == KeepIn(RecognisedColumns, columns)
    ensures AsWrittenOrganizerRow(columns, name, email, userId, createdDate) == OrganizerRowFor(columns, name, email, userId, createdDate)
  {
    BindOwnValues(columns, name, email, userId, createdDate);
    assert forall c :: c in columns ==> c in RecognisedColumns;
  }

  /** With distinct columns, the i-th column holds the i-th value, or NULL
      past the end of the values. */
  lemma {:induction false} BindRowAt(columns: seq<string>, values: seq<JsValue>, i: int)
    requires 0 <= i < |columns|
    requires forall a, b :: 0 <= a < b < |columns| ==> columns[a] != columns[b]
    ensures BindRow(columns, values)[columns[i]] == (if i < |values| then values[i] else JsNull)
  {
    if i > 0 {
      var rest := if values == [] then [] else values[1..];
      BindRowAt(columns[1..], rest, i - 1);
      assert columns[1..][i - 1] == columns[i];
    }
  }

  /** A table whose first column is `organizer_id` shifts every value by one:
      the id column gets the name, `name` gets the email, `email` gets the user
      id and `user_id` is left NULL. */
  lemma LeadingIdColumnMisaligns()
    ensures var columns := ["organizer_id", "name", "email", "user_id"];
      var row := AsWrittenOrganizerRow(columns, "Ada Lovelace", "ada@example.com", 7, "2024-01-01T00:00:00.000Z");
      row["organizer_id"] == JsString("Ada Lovelace") && row["name"] == JsString("ada@example.com") &&
      row["email"] == JsNumber(7 as real) && row["user_id"] == JsNull &&
      OrganizerRowFor(columns, "Ada Lovelace", "ada@example.com", 7, "2024-01-01T00:00:00.000Z")["name"] == JsString("Ada Lovelace")
  {
    var columns := ["organizer_id", "name", "email", "user_id"];
    LeadingIdColumnValues();
    LeadingIdColumnBinds();
    assert OrganizerRowFor(columns, "Ada Lovelace", "ada@example.com", 7, "2024-01-01T00:00:00.000Z")["name"] == JsString("Ada Lovelace") by {
      assert "name" in columns && "name" in RecognisedColumns;
    }
  }

  /** Binding those three values to that table, position by position. */
  lemma LeadingIdColumnBinds()
    ensures var row := BindRow(["organizer_id", "name", "email", "user_id"],
                               [JsString("Ada Lovelace"), JsString("ada@example.com"), JsNumber(7 as real)]);
      row["organizer_id"] == JsString("Ada Lovelace") && row["name"] == JsString("ada@example.com") &&
      row["email"] == JsNumber(7 as real) && row["user_id"] == JsNull
  {
    var columns := ["organizer_id", "name", "email", "user_id"];
    var pushed := [JsString("Ada Lovelace"), JsString("ada@example.com"), JsNumber(7 as real)];
    assert forall a, b :: 0 <= a < b < |columns| ==> columns[a] != columns[b] by {
      assert columns[0][0] == 'o' && columns[1][0] == 'n' && columns[2][0] == 'e' && columns[3][0] == 'u';
    }
    BindRowAt(columns, pushed, 0);
    BindRowAt(columns, pushed, 1);
    BindRowAt(columns, pushed, 2);
    BindRowAt(columns, pushed, 3);
  }

  /** The values pushed for that table: the name, the email and the user id. */
  lemma LeadingIdColumnValues()
    ensures PushedValues(["organizer_id", "name", "email", "user_id"], "Ada Lovelace", "ada@example.com", 7, "2024-01-01T00:00:00.000Z")
            == [JsString("Ada Lovelace"), JsString("ada@example.com"), JsNumber(7 as real)]
  {
    LeadingIdColumnRecognised();
    var cs := ["name", "email", "user_id"];
    var vs := ValuesFor(cs, "Ada Lovelace", "ada@example.com", 7, "2024-01-01T00:00:00.000Z");
    assert vs[0] == JsString("Ada Lovelace") && vs[1] == JsString("ada@example.com") && vs[2] == JsNumber(7 as real);
  }

  /** Of the recognised columns, that table has `name`, `email` and `user_id`. */
  lemma LeadingIdColumnRecognised()
    ensures KeepIn(RecognisedColumns, ["organizer_id", "name", "email", "user_id"]) == ["name", "email", "user_id"]
  {
    var columns := ["organizer_id", "name", "email", "user_id"];
    var tail3 := ["created_date", "description", "contact_info"];
    assert KeepIn(tail3, columns) == [] by {
      assert tail3[1..] == ["description", "contact_info"] && tail3[1..][1..] == ["contact_info"];
      assert KeepIn(["contact_info"], columns) == [];
      assert KeepIn(tail3[1..], columns) == [];
    }
    var t4 := ["user_id"] + tail3;
    assert KeepIn(t4, columns) == ["user_id"] by {
      assert t4[1..] == tail3;
    }
    var t5 := ["email"] + t4;
    assert KeepIn(t5, columns) == ["email", "user_id"] by {
      assert t5[1..] == t4;
    }
    var t6 := ["name"] + t5;
    assert KeepIn(t6, columns) == ["name", "email", "user_id"] by {
      assert t6[1..] == t5;
    }
    assert RecognisedColumns == t6;
  }

  // ---------------------------------------------------------------------
  // Looking users and organizers up

  /** User `k` exists and is registered with `email`. */
  predicate HasEmail(users: map<int, User>, k: int, email: string)
  {
    k in users && users[k].email == email
  }

  /** `SELECT * FROM users WHERE email = ?`: the first of `ks` with that email. */
  function FindByEmail(users: map<int, User>, ks: seq<int>, email: string): (r: Option<int>)
    ensures r.Some? ==> r.value in ks && r.value in users && users[r.value].email == email
    ensures r.Some? ==> exists j :: 0 <= j < |ks| && ks[j] == r.value && forall i :: 0 <= i < j ==> !HasEmail(users, ks[i], email)
    ensures r.None? ==> forall k :: k in ks && k in users ==> users[k].email != email
  {
    if ks == [] then None
    else if ks[0] in users && users[ks[0]].email == email then Some(ks[0])
    else
      var r := FindByEmail(users, ks[1..], email);
      assert r.Some? ==> exists j :: 0 <= j < |ks| && ks[j] == r.value && forall i :: 0 <= i < j ==> !HasEmail(users, ks[i], email) by {
        if r.Some? {
          var j :| 0 <= j < |ks[1..]| && ks[1..][j] == r.value && forall i :: 0 <= i < j ==> !HasEmail(users, ks[1..][i], email);
          assert ks[j + 1] == r.value;
          assert forall i :: 1 <= i < j + 1 ==> ks[i] == ks[1..][i - 1];
        }
      }
      r
  }

  /** The user registered with `email`, if any. */
  function UserByEmail(t: Tables, email: string): (r: Option<int>)
    requires Consistent(t)
    ensures r.Some? <==> EmailTaken(t.users, email)
    ensures r.Some? ==> r.value in t.users && t.users[r.value].email == email
  {
    var ks := KeysUpTo(t.users, t.lastUser);
    FindByEmail(t.users, ks, email)
  }

  /** The organizer row `k` exists and its `user_id` is `u`. */
  predicate NamesUser(rows: map<int, OrganizerRow>, k: int, u: int)
  {
    k in rows && "user_id" in rows[k] && rows[k]["user_id"] == JsNumber(u as real)
  }

  /** The first organizer row of `ks` whose `user_id` is `u`. */
  function FirstOrganizerOf(rows: map<int, OrganizerRow>, ks: seq<int>, u: int): (r: Option<int>)
    ensures r.Some? ==> r.value in ks && NamesUser(rows, r.value, u)
    ensures r.Some? ==> exists j :: 0 <= j < |ks| && ks[j] == r.value && forall i :: 0 <= i < j ==> !NamesUser(rows, ks[i], u)
    ensures r.None? ==> forall k :: k in ks ==> !NamesUser(rows, k, u)
  {
    if ks == [] then None
    else if NamesUser(rows, ks[0], u) then Some(ks[0])
    else
      var r := FirstOrganizerOf(rows, ks[1..], u);
      assert r.Some? ==> exists j :: 0 <= j < |ks| && ks[j] == r.value && forall i :: 0 <= i < j ==> !NamesUser(rows, ks[i], u) by {
        if r.Some? {
          var j :| 0 <= j < |ks[1..]| && ks[1..][j] == r.value && forall i :: 0 <= i < j ==> !NamesUser(rows, ks[1..][i], u);
          assert ks[j + 1] == r.value;
          assert forall i :: 1 <= i < j + 1 ==> ks[i] == ks[1..][i - 1];
        }
      }
      r
  }

  /** `SELECT organizer_id FROM organizers WHERE user_id = ?` can be prepared:
      the table exists and has both columns the query names. */
  predicate LookupQueryRuns(t: Tables)
  {
    t.organizers.Some? && "organizer_id" in t.organizerColumns && "user_id" in t.organizerColumns
  }

  /** `SELECT organizer_id FROM organizers WHERE user_id = ?`, where a missing
      table or column is an error and gives nothing: `db.get` returns the row
      with the smallest id among those naming the user. */
  function OrganizerOfUser(t: Tables, u: int): (r: Option<int>)
    ensures !LookupQueryRuns(t) ==> r.None?
    ensures r.Some? ==> LookupQueryRuns(t) && NamesUser(t.organizers.value, r.value, u) && 1 <= r.value <= t.lastOrganizer
    ensures r.Some? ==> forall k :: 1 <= k < r.value ==> !NamesUser(t.organizers.value, k, u)
    ensures LookupQueryRuns(t) && r.None? ==> forall k :: 1 <= k <= t.lastOrganizer ==> !NamesUser(t.organizers.value, k, u)
  {
    if !LookupQueryRuns(t) then None
    else
      var rows := t.organizers.value;
      var ks := KeysUpTo(rows, t.lastOrganizer);
      var r := FirstOrganizerOf(rows, ks, u);
      assert r.Some? ==> forall k :: 1 <= k < r.value ==> !NamesUser(rows, k, u) by {
        if r.Some? {
          var j :| 0 <= j < |ks| && ks[j] == r.value && forall i :: 0 <= i < j ==> !NamesUser(rows, ks[i], u);
          forall k | 1 <= k < r.value ensures !NamesUser(rows, k, u) {
            if k in ks {
              var i :| 0 <= i < |ks| && ks[i] == k;
              assert i < j;
            }
          }
        }
      }
      r
  }

  /** The organizer id a login or profile reports: the user's own
      `organizer_id` when it is set, else the organizer row that names the
      user, else null. */
  function ResolveOrganizer(t: Tables, u: int): (r: Option<int>)
    requires u in t.users
    ensures GivenId(t.users[u].organizerId) ==> r == t.users[u].organizerId
    ensures !GivenId(t.users[u].organizerId) ==> r == OrganizerOfUser(t, u)
  {
    if GivenId(t.users[u].organizerId) then t.users[u].organizerId else OrganizerOfUser(t, u)
  }

  // ---------------------------------------------------------------------
  // register

  /** Every registration field is present and non-empty. */
  predicate RegistrationComplete(email: Option<string>, password: Option<string>, firstName: Option<string>, lastName: Option<string>)
  {
    Given(email) && Given(password) && Given(firstName) && Given(lastName)
  }

  /** `register`: the four fields are required and the email must be new; the
      user row is stored with the hash and salt, and from then on the reply is
      201 whatever happens to the organizer: an organizers table that exists and
      accepts the row gets one for the user (and `users.organizer_id`, where that
      column exists, points at it); otherwise the reply's `organizer_id` is null.
      `hashed` is the outcome of `bcrypt.hash`, `accepted` whether SQLite takes
      the organizer row, `now` and `createdDate` the clock. */
  method Register(db: Database, email: Option<string>, password: Option<string>, firstName: Option<string>, lastName: Option<string>,
                  hashed: Option<string>, salt: string, accepted: bool, now: int, createdDate: string)
    returns (r: Reply<Session>)
    requires db.Valid()
    modifies db
    ensures db.Valid()
    ensures !RegistrationComplete(email, password, firstName, lastName) ==>
      r == Err(400, "Email, password, first name and last name are required") && db.t == old(db.t)
    ensures RegistrationComplete(email, password, firstName, lastName) && EmailTaken(old(db.t.users), email.value) ==>
      r == Err(409, "User already exists with this email") && db.t == old(db.t)
    ensures (RegistrationComplete(email, password, firstName, lastName) && !EmailTaken(old(db.t.users), email.value) &&
             hashed.None?) ==>
      r == Err(500, "Error hashing password") && db.t == old(db.t)
    ensures (RegistrationComplete(email, password, firstName, lastName) && !EmailTaken(old(db.t.users), email.value) &&
             hashed.Some?) ==>
      var id := old(db.t.lastUser) + 1;
      var name := firstName.value + " " + lastName.value;
      var created := old(db.t.organizers).Some? && accepted;
      var organizerId := old(db.t.lastOrganizer) + 1;
      id !in old(db.t.users) &&
      r == Ok(201, Session(SignToken(id, email.value),
                           UserInfo(id, firstName.value, lastName.value, email.value, if created then Some(organizerId) else None))) &&
      db.t == old(db.t).(
        users := old(db.t.users)[id := User(firstName.value, lastName.value, email.value, hashed.value, salt, now,
                                            if created && old(db.t.usersHaveOrganizerId) then Some(organizerId) else None)],
        lastUser := id,
        organizers := if created then Some(old(db.t.organizers).value[organizerId := OrganizerRowFor(old(db.t.organizerColumns), name, email.value, id, createdDate)])
                      else old(db.t.organizers),
        lastOrganizer := if created then organizerId else old(db.t.lastOrganizer))
  {
    if !RegistrationComplete(email, password, firstName, lastName) {
      return Err(400, "Email, password, first name and last name are required");
    }
    if UserByEmail(db.t, email.value).Some? {
      return Err(409, "User already exists with this email");
    }
    if hashed.None? {
      return Err(500, "Error hashing password");
    }
    var id, organizerId := StoreRegistration(db, firstName.value, lastName.value, email.value, hashed.value, salt, accepted, now, createdDate);
    r := Ok(201, Session(SignToken(id, email.value), UserInfo(id, firstName.value, lastName.value, email.value, organizerId)));
  }

  /** The stores `register` makes once the checks pass: the user row, then the
      organizer for it. */
  method StoreRegistration(db: Database, firstName: string, lastName: string, email: string,
                           hashed: string, salt: string, accepted: bool, now: int, createdDate: string)
    returns (id: int, organizerId: Option<int>)
    requires db.Valid() && !EmailTaken(db.t.users, email)
    modifies db
    ensures db.Valid()
    ensures var created := old(db.t.organizers).Some? && accepted;
      var oid := old(db.t.lastOrganizer) + 1;
      id == old(db.t.lastUser) + 1 && id !in old(db.t.users) &&
      organizerId == (if created then Some(oid) else None) &&
      db.t == old(db.t).(
        users := old(db.t.users)[id := User(firstName, lastName, email, hashed, salt, now,
                                            if created && old(db.t.usersHaveOrganizerId) then Some(oid) else None)],
        lastUser := id,
        organizers := if created then Some(old(db.t.organizers).value[oid := OrganizerRowFor(old(db.t.organizerColumns), firstName + " " + lastName, email, id, createdDate)])
                      else old(db.t.organizers),
        lastOrganizer := if created then oid else old(db.t.lastOrganizer))
  {
    ghost var before := db.t;
    var outcome := db.InsertUser(firstName, lastName, email, hashed, salt, now);
    if outcome.Failed? {
      // The email was checked to be new by the caller.
      assert false;
    }
    id := outcome.n;
    ghost var user := User(firstName, lastName, email, hashed, salt, now, None);
    organizerId := CreateOrganizerForUser(db, id, firstName, lastName, email, accepted, createdDate);
    RegisteredState(before, db.t, id, user, firstName + " " + lastName, accepted, createdDate);
  }

  /** The store after the user row and then the organizer steps is the store
      `register` promises. */
  lemma RegisteredState(before: Tables, after: Tables, id: int, user: User, name: string, accepted: bool, createdDate: string)
    requires user.organizerId.None?
    requires var mid := before.(users := before.users[id := user], lastUser := id);
      var created := mid.organizers.Some? && accepted;
      var oid := mid.lastOrganizer + 1;
      after == mid.(
        users := if created && mid.usersHaveOrganizerId then mid.users[id := mid.users[id].(organizerId := Some(oid))]
                 else mid.users,
        organizers := if created then Some(mid.organizers.value[oid := OrganizerRowFor(mid.organizerColumns, name, user.email, id, createdDate)])
                      else mid.organizers,
        lastOrganizer := if created then oid else mid.lastOrganizer)
    ensures var created := before.organizers.Some? && accepted;
      var oid := before.lastOrganizer + 1;
      after == before.(
        users := before.users[id := user.(organizerId := if created && before.usersHaveOrganizerId then Some(oid) else None)],
        lastUser := id,
        organizers := if created then Some(before.organizers.value[oid := OrganizerRowFor(before.organizerColumns, name, user.email, id, createdDate)])
                      else before.organizers,
        lastOrganizer := if created then oid else before.lastOrganizer)
  {
    var oid := before.lastOrganizer + 1;
    if before.organizers.Some? && accepted && before.usersHaveOrganizerId {
      assert before.users[id := user][id := user.(organizerId := Some(oid))] == before.users[id := user.(organizerId := Some(oid))];
    }
  }

  /** `createOrganizerForUser` and `updateUserOrganizerId`: the organizer id,
      or null when the table is missing or refuses the row. A failure to point
      the user at it is ignored. */
  method CreateOrganizerForUser(db: Database, u: int, firstName: string, lastName: string, email: string,
                                accepted: bool, createdDate: string)
    returns (organizerId: Option<int>)
    requires db.Valid() && u in db.t.users && db.t.users[u].organizerId.None?
    modifies db
    ensures db.Valid()
    ensures var created := old(db.t.organizers).Some? && accepted;
      var id := old(db.t.lastOrganizer) + 1;
      organizerId == (if created then Some(id) else None) &&
      db.t == old(db.t).(
        users := if created && old(db.t.usersHaveOrganizerId) then old(db.t.users)[u := old(db.t.users)[u].(organizerId := Some(id))]
                 else old(db.t.users),
        organizers := if created then Some(old(db.t.organizers).value[id := OrganizerRowFor(old(db.t.organizerColumns), firstName + " " + lastName, email, u, createdDate)])
                      else old(db.t.organizers),
        lastOrganizer := if created then id else old(db.t.lastOrganizer))
  {
    if db.t.organizers.None? {
      return None;
    }
    var row := OrganizerRowFor(db.t.organizerColumns, firstName + " " + lastName, email, u, createdDate);
    var outcome := db.InsertOrganizer(row, accepted);
    if outcome.Failed? {
      return None;
    }
    var id := outcome.n;
    if db.t.usersHaveOrganizerId {
      var ignored := db.SetUserOrganizer(u, id);
    }
    organizerId := Some(id);
  }

  // ---------------------------------------------------------------------
  // login, profile

  /** `login`: both fields are required; an unknown email and a wrong password
      get the same 401; otherwise a token for the user and the resolved
      organizer id. `compare` is `bcrypt.compare` (an error compares false). */
  function Login(t: Tables, email: Option<string>, password: Option<string>, compare: (string, string) -> bool): (r: Reply<Session>)
    requires Consistent(t)
    ensures !Given(email) || !Given(password) ==> r == Err(400, "Email and password are required")
    ensures Given(email) && Given(password) && !EmailTaken(t.users, email.value) ==> r == Err(401, "Invalid credentials")
    ensures Given(email) && Given(password) ==> forall u :: u in t.users && t.users[u].email == email.value ==>
      r == (if compare(password.value, t.users[u].password)
            then Ok(200, Session(SignToken(u, email.value),
                                 UserInfo(u, t.users[u].firstName, t.users[u].lastName, email.value, ResolveOrganizer(t, u))))
            else Err(401, "Invalid credentials"))
  {
    if !Given(email) || !Given(password) then Err(400, "Email and password are required")
    else
      var found := UserByEmail(t, email.value);
      if found.None? then Err(401, "Invalid credentials")
      else
        var u := found.value;
        var user := t.users[u];
        if !compare(password.value, user.password) then Err(401, "Invalid credentials")
        else Ok(200, Session(SignToken(u, user.email), UserInfo(u, user.firstName, user.lastName, user.email, ResolveOrganizer(t, u))))
  }

  /** Whatever the reason, a refused login with both fields given says only
      "Invalid credentials", and a successful one carries the claims of the
      user with that email. */
  lemma LoginFailureIsUniform(t: Tables, email: string, password: string, compare: (string, string) -> bool)
    requires Consistent(t) && email != "" && password != ""
    ensures Login(t, Some(email), Some(password), compare).Err? ==>
      Login(t, Some(email), Some(password), compare) == Err(401, "Invalid credentials")
    ensures Login(t, Some(email), Some(password), compare).Ok? ==>
      var s := Login(t, Some(email), Some(password), compare).value;
      s.token.claims.email == email && s.token.claims.userId in t.users && t.users[s.token.claims.userId].email == email &&
      compare(password, t.users[s.token.claims.userId].password)
  {
    var found := UserByEmail(t, email);
    if found.Some? {
      assert t.users[found.value].email == email;
    }
  }

  /** The `data` of `getProfile`. */
  datatype Profile = Profile(id: int, firstName: string, lastName: string, email: string, organizerId: Option<int>, createdAt: int)

  /** `req.userId || req.params.userId`. */
  function RequestUser(tokenUserId: Option<int>, paramUserId: Option<int>): (r: Option<int>)
    ensures GivenId(tokenUserId) ==> r == tokenUserId
    ensures !GivenId(tokenUserId) ==> r == paramUserId
  {
    if GivenId(tokenUserId) then tokenUserId else paramUserId
  }

  /** `getProfile`: the query names `users.organizer_id`, so it fails where the
      column does not exist; otherwise an unknown user is 404, and a known one
      gets the resolved organizer id. */
  function GetProfile(t: Tables, tokenUserId: Option<int>, paramUserId: Option<int>): (r: Reply<Profile>)
    requires Consistent(t)
    ensures !t.usersHaveOrganizerId ==> r == Err(500, "Database error")
    ensures t.usersHaveOrganizerId && (RequestUser(tokenUserId, paramUserId).None? || RequestUser(tokenUserId, paramUserId).value !in t.users) ==>
      r == Err(404, "User not found")
    ensures t.usersHaveOrganizerId && RequestUser(tokenUserId, paramUserId).Some? && RequestUser(tokenUserId, paramUserId).value in t.users ==>
      var u := RequestUser(tokenUserId, paramUserId).value;
      r == Ok(200, Profile(u, t.users[u].firstName, t.users[u].lastName, t.users[u].email, ResolveOrganizer(t, u), t.users[u].created))
  {
    var who := RequestUser(tokenUserId, paramUserId);
    if !t.usersHaveOrganizerId then Err(500, "Database error")
    else if who.None? || who.value !in t.users then Err(404, "User not found")
    else
      var u := who.value;
      var user := t.users[u];
      Ok(200, Profile(u, user.firstName, user.lastName, user.email, ResolveOrganizer(t, u), user.created))
  }

  /** `updateProfile`: an unknown user is 404; a known one with a name missing is
      refused by the NOT NULL columns; otherwise only that user's names change. */
  method UpdateProfile(db: Database, tokenUserId: Option<int>, paramUserId: Option<int>, firstName: Option<string>, lastName: Option<string>)
    returns (r: Reply<string>)
    requires db.Valid()
    modifies db
    ensures db.Valid()
    ensures var who := RequestUser(tokenUserId, paramUserId);
      (who.None? || who.value !in old(db.t.users)) ==> r == Err(404, "User not found") && db.t == old(db.t)
    ensures var who := RequestUser(tokenUserId, paramUserId);
      (who.Some? && who.value in old(db.t.users) && (firstName.None? || lastName.None?)) ==>
      r == Err(500, "Database error") && db.t == old(db.t)
    ensures var who := RequestUser(tokenUserId, paramUserId);
      (who.Some? && who.value in old(db.t.users) && firstName.Some? && lastName.Some?) ==>
      r == Ok(200, "Profile updated successfully") &&
      db.t == old(db.t).(users := old(db.t.users)[who.value := old(db.t.users)[who.value].(firstName := firstName.value, lastName := lastName.value)])
  {
    var who := RequestUser(tokenUserId, paramUserId);
    if who.None? {
      return Err(404, "User not found");
    }
    var outcome := db.UpdateUserNames(who.value, firstName, lastName);
    if outcome.Failed? {
      return Err(500, "Database error");
    }
    if outcome.n == 0 {
      return Err(404, "User not found");
    }
    r := Ok(200, "Profile updated successfully");
  }

  // ---------------------------------------------------------------------
  // getOrganizers

  /** An element of the organizer list. */
  datatype OrganizerEntry = OrganizerEntry(id: int, name: JsValue, email: JsValue, userId: JsValue)

  /** A column of a stored organizer row; a column the row does not set is NULL. */
  function Column(row: OrganizerRow, c: string): JsValue
  {
    if c in row then row[c] else JsNull
  }

  /** The user a row's `user_id` joins with. */
  function JoinedUser(t: Tables, row: OrganizerRow): (r: Option<int>)
    ensures r.Some? ==> r.value in t.users && Column(row, "user_id") == JsNumber(r.value as real)
    ensures r.None? ==> forall u :: u in t.users ==> Column(row, "user_id") != JsNumber(u as real)
  {
    var v := Column(row, "user_id");
    if v.JsNumber? && v.n.Floor as real == v.n && v.n.Floor in t.users then Some(v.n.Floor) else None
  }

  /** A JavaScript `${x}` of a joined text column: `null` when it is NULL. */
  function TemplateText(s: Option<string>): string
  {
    if s.None? then "null" else s.value
  }

  /** One organizer as the list formats it: `name || first + ' ' + last` and
      `email || user_email`, the user's columns coming from the left join. */
  function OrganizerEntryOf(t: Tables, id: int, row: OrganizerRow): (r: OrganizerEntry)
    ensures r.id == id && r.userId == Column(row, "user_id")
    ensures Truthy(Column(row, "name")) ==> r.name == Column(row, "name")
    ensures !Truthy(Column(row, "name")) ==>
      r.name == (var u := JoinedUser(t, row);
                 JsString(TemplateText(if u.Some? then Some(t.users[u.value].firstName) else None) + " " +
                          TemplateText(if u.Some? then Some(t.users[u.value].lastName) else None)))
    ensures Truthy(Column(row, "email")) ==> r.email == Column(row, "email")
    ensures !Truthy(Column(row, "email")) ==>
      r.email == (var u := JoinedUser(t, row); if u.Some? then JsString(t.users[u.value].email) else JsNull)
  {
    var u := JoinedUser(t, row);
    var first := if u.Some? then Some(t.users[u.value].firstName) else None;
    var last := if u.Some? then Some(t.users[u.value].lastName) else None;
    var userEmail := if u.Some? then JsString(t.users[u.value].email) else JsNull;
    OrganizerEntry(id,
                   if Truthy(Column(row, "name")) then Column(row, "name") else JsString(TemplateText(first) + " " + TemplateText(last)),
                   if Truthy(Column(row, "email")) then Column(row, "email") else userEmail,
                   Column(row, "user_id"))
  }

  /** A user listed as an organizer: the user's own id and `first last`. */
  function UserAsOrganizer(t: Tables, u: int): (r: OrganizerEntry)
    requires u in t.users
    ensures r == OrganizerEntry(u, JsString(t.users[u].firstName + " " + t.users[u].lastName), JsString(t.users[u].email), JsNumber(u as real))
  {
    var user := t.users[u];
    OrganizerEntry(u, JsString(user.firstName + " " + user.lastName), JsString(user.email), JsNumber(u as real))
  }

  /** `getAllUsersAsOrganizers`: every user, in rowid order. */
  function AllUsersAsOrganizers(t: Tables): (r: seq<OrganizerEntry>)
    requires Consistent(t)
    ensures forall u :: u in t.users ==> UserAsOrganizer(t, u) in r
    ensures forall i :: 0 <= i < |r| ==> r[i].id in t.users && r[i] == UserAsOrganizer(t, r[i].id)
    ensures forall i, j :: 0 <= i < j < |r| ==> r[i].id < r[j].id
  {
    var ks := KeysUpTo(t.users, t.lastUser);
    var r := seq(|ks|, i requires 0 <= i < |ks| => UserAsOrganizer(t, ks[i]));
    assert forall u :: u in t.users ==> UserAsOrganizer(t, u) in r by {
      forall u | u in t.users ensures UserAsOrganizer(t, u) in r {
        var i :| 0 <= i < |ks| && ks[i] == u;
        assert r[i] == UserAsOrganizer(t, u);
      }
    }
    r
  }

  /** The query names these columns of `organizers`; without one of them it fails. */
  predicate OrganizerQueryRuns(t: Tables)
  {
    t.organizers.Some? &&
    "organizer_id" in t.organizerColumns && "name" in t.organizerColumns &&
    "email" in t.organizerColumns && "user_id" in t.organizerColumns
  }

  /** Every stored organizer, in rowid order. */
  function StoredOrganizers(t: Tables): (r: seq<OrganizerEntry>)
    requires Consistent(t) && t.organizers.Some?
    ensures forall k :: k in t.organizers.value ==> OrganizerEntryOf(t, k, t.organizers.value[k]) in r
    ensures forall i :: 0 <= i < |r| ==> r[i].id in t.organizers.value && r[i] == OrganizerEntryOf(t, r[i].id, t.organizers.value[r[i].id])
    ensures forall i, j :: 0 <= i < j < |r| ==> r[i].id < r[j].id
  {
    var rows := t.organizers.value;
    var ks := KeysUpTo(rows, t.lastOrganizer);
    var r := seq(|ks|, i requires 0 <= i < |ks| => OrganizerEntryOf(t, ks[i], rows[ks[i]]));
    assert forall k :: k in rows ==> OrganizerEntryOf(t, k, rows[k]) in r by {
      forall k | k in rows ensures OrganizerEntryOf(t, k, rows[k]) in r {
        assert k in ks;
        var i :| 0 <= i < |ks| && ks[i] == k;
        assert r[i] == OrganizerEntryOf(t, k, rows[k]);
      }
    }
    r
  }

  /** `getOrganizers`: the stored organizers with their user's name and email
      filled in, or, when the table is missing or the query fails, every user
      listed as an organizer. */
  function GetOrganizers(t: Tables): (r: Reply<seq<OrganizerEntry>>)
    requires Consistent(t)
    ensures r.Ok? && r.status == 200
    ensures !OrganizerQueryRuns(t) ==> r.value == AllUsersAsOrganizers(t)
    ensures OrganizerQueryRuns(t) ==> r.value == StoredOrganizers(t)
  {
    if OrganizerQueryRuns(t) then Ok(200, StoredOrganizers(t)) else Ok(200, AllUsersAsOrganizers(t))
  }

  /** Without an organizers table every user is offered as an organizer under
      the user's own id and full name. */
  lemma OrganizersFallBackToUsers(t: Tables, u: int)
    requires Consistent(t) && t.organizers.None? && u in t.users
    ensures OrganizerEntry(u, JsString(t.users[u].firstName + " " + t.users[u].lastName), JsString(t.users[u].email), JsNumber(u as real))
            in GetOrganizers(t).value
  {
    assert UserAsOrganizer(t, u) in AllUsersAsOrganizers(t);
  }
}
