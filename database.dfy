/** The SQLite store behind the API, held in memory: one map per table keyed by
    its AUTOINCREMENT id, the `event_categories` link rows as a set of
    (event_id, category_id) pairs, and a counter per table standing for
    `sqlite_sequence`. Foreign keys are enforced (`PRAGMA foreign_keys = ON`),
    so every statement below fails where SQLite would: on a NOT NULL, a
    UNIQUE or a FOREIGN KEY constraint. */
module Database {
  import opened Common

  datatype User = User(
    firstName: string, lastName: string, email: string,
    password: string, salt: string, created: int,
    organizerId: Option<int>)

  datatype Event = Event(
    title: string, description: Option<string>, date: string,
    location: Option<string>, organizerId: int, created: int)

  datatype Question = Question(text: string, eventId: int, userId: int, upvotes: int, created: int)

  datatype Category = Category(name: string, description: Option<string>)

  /** A row of an `organizers` table created outside this code: column name to value. */
  type OrganizerRow = map<string, JsValue>

  /** The whole store. `organizers` is `None` when the table does not exist;
      `organizerColumns` is its column list in declaration order, as
      `PRAGMA table_info` reports it; `usersHaveOrganizerId` says whether the
      `users` table carries an `organizer_id` column. The schema this code
      itself creates has neither. */
  datatype Tables = Tables(
    users: map<int, User>, lastUser: int,
    events: map<int, Event>, lastEvent: int,
    questions: map<int, Question>, lastQuestion: int,
    categories: map<int, Category>, lastCategory: int,
    links: set<(int, int)>,
    organizers: Option<map<int, OrganizerRow>>, organizerColumns: seq<string>, lastOrganizer: int,
    usersHaveOrganizerId: bool)

  datatype Constraint = NotNull | Unique | ForeignKey | MissingSchema

  /** What `db.run` reports: `this.lastID` or `this.changes` on success, or the error. */
  datatype Outcome = Done(n: int) | Failed(kind: Constraint, message: string)

  const ForeignKeyMessage := "SQLITE_CONSTRAINT: FOREIGN KEY constraint failed"

  function UniqueMessage(column: string): string
  {
    "SQLITE_CONSTRAINT: UNIQUE constraint failed: " + column
  }

  function NotNullMessage(column: string): string
  {
    "SQLITE_CONSTRAINT: NOT NULL constraint failed: " + column
  }

  // ---------------------------------------------------------------------
  // The schema's constraints

  predicate IdsInRange<V>(m: map<int, V>, last: int)
  {
    0 <= last && forall id :: id in m ==> 1 <= id <= last
  }

  /** `email TEXT NOT NULL UNIQUE`. */
  predicate UniqueEmails(users: map<int, User>)
  {
    forall a, b :: a in users && b in users && a != b ==> users[a].email != users[b].email
  }

  /** `name TEXT NOT NULL UNIQUE`. */
  predicate UniqueNames(categories: map<int, Category>)
  {
    forall a, b :: a in categories && b in categories && a != b ==> categories[a].name != categories[b].name
  }

  /** Both foreign keys of every link row hold. */
  predicate LinksResolve(t: Tables)
  {
    forall p :: p in t.links ==> p.0 in t.events && p.1 in t.categories
  }

  /** `organizer_id INTEGER NOT NULL REFERENCES users(user_id)`. */
  predicate EventsHaveOrganizers(t: Tables)
  {
    forall e :: e in t.events ==> t.events[e].organizerId in t.users
  }

  /** Both foreign keys of every question hold. */
  predicate QuestionsResolve(t: Tables)
  {
    forall q :: q in t.questions ==> t.questions[q].eventId in t.events && t.questions[q].userId in t.users
  }

  predicate Consistent(t: Tables)
  {
    IdsInRange(t.users, t.lastUser) && IdsInRange(t.events, t.lastEvent) &&
    IdsInRange(t.questions, t.lastQuestion) && IdsInRange(t.categories, t.lastCategory) &&
    (t.organizers.Some? ==> IdsInRange(t.organizers.value, t.lastOrganizer)) &&
    UniqueEmails(t.users) && UniqueNames(t.categories) &&
    LinksResolve(t) && EventsHaveOrganizers(t) && QuestionsResolve(t)
  }

  /** Some category already carries `name`. */
  predicate NameTaken(categories: map<int, Category>, name: string)
  {
    exists id :: id in categories && categories[id].name == name
  }

  /** Some category other than `self` carries `name`. */
  predicate NameTakenByOther(categories: map<int, Category>, self: int, name: string)
  {
    exists id :: id in categories && id != self && categories[id].name == name
  }

  predicate EmailTaken(users: map<int, User>, email: string)
  {
    exists id :: id in users && users[id].email == email
  }

  /** The ids of `m` between 1 and `last`, ascending: the rowid order in which an
      unordered `SELECT` returns a table. */
  function KeysUpTo<V>(m: map<int, V>, last: int): (r: seq<int>)
    ensures forall k :: k in r <==> k in m && 1 <= k <= last
    ensures forall i, j :: 0 <= i < j < |r| ==> r[i] < r[j]
    ensures forall i :: 0 <= i < |r| ==> r[i] <= last
    decreases last
  {
    if last < 1 then []
    else KeysUpTo(m, last - 1) + (if last in m then [last] else [])
  }

  predicate Increasing(ks: seq<int>)
  {
    forall i, j :: 0 <= i < j < |ks| ==> ks[i] < ks[j]
  }

  /** The keys of `ks` that satisfy `p`, in the order of `ks`. */
  function Where(ks: seq<int>, p: int -> bool): (r: seq<int>)
    ensures forall k :: k in r <==> k in ks && p(k)
    ensures Increasing(ks) ==> Increasing(r)
  {
    if ks == [] then []
    else
      var rest := Where(ks[1..], p);
      assert Increasing(ks) ==> Increasing(ks[1..]) && forall k :: k in rest ==> ks[0] < k;
      if !p(ks[0]) then rest
      else
        var r := [ks[0]] + rest;
        assert Increasing(ks) ==> Increasing(r) by {
          if Increasing(ks) {
            forall i, j | 0 <= i < j < |r| ensures r[i] < r[j] {
              assert r[j] == rest[j - 1] && r[j] in rest;
              if i > 0 {
                assert r[i] == rest[i - 1];
              }
            }
          }
        }
        r
  }

  /** The link rows left when every row of event `e` is removed. */
  function LinksWithoutEvent(links: set<(int, int)>, e: int): (r: set<(int, int)>)
    ensures forall p :: p in r <==> p in links && p.0 != e
  {
    set p | p in links && p.0 != e
  }

  function LinksWithoutCategory(links: set<(int, int)>, c: int): (r: set<(int, int)>)
    ensures forall p :: p in r <==> p in links && p.1 != c
  {
    set p | p in links && p.1 != c
  }

  /** The category ids of `ids` an `INSERT OR IGNORE` of (e, id) accepts. */
  function AcceptedLinks(t: Tables, e: int, ids: seq<int>): (r: set<(int, int)>)
    ensures forall p :: p in r <==> p.0 == e && e in t.events && p.1 in ids && p.1 in t.categories
  {
    var r := set c | c in ids && e in t.events && c in t.categories :: (e, c);
    assert forall c :: c in ids && e in t.events && c in t.categories ==> (e, c) in r;
    r
  }

  /** The category ids linked to event `e`. */
  function LinksOf(links: set<(int, int)>, e: int): (r: set<int>)
    ensures forall c :: c in r <==> (e, c) in links
  {
    set p | p in links && p.0 == e :: p.1
  }

  /** After the event's rows are removed and the accepted pairs inserted, the
      event is linked to exactly the given ids that exist, and every other
      event keeps its links. */
  lemma ReplaceLinks(t: Tables, links: set<(int, int)>, e: int, ids: seq<int>)
    requires e in t.events
    ensures LinksOf(LinksWithoutEvent(links, e) + AcceptedLinks(t, e, ids), e) == set c | c in ids && c in t.categories
    ensures forall o :: o != e ==> LinksOf(LinksWithoutEvent(links, e) + AcceptedLinks(t, e, ids), o) == LinksOf(links, o)
  {
    var l := LinksWithoutEvent(links, e) + AcceptedLinks(t, e, ids);
    forall o | o != e ensures LinksOf(l, o) == LinksOf(links, o) {
      assert forall c :: (o, c) in l <==> (o, c) in links;
    }
  }

  /** Inserting the accepted pairs adds the given existing ids to the event's
      links and leaves every other event's links alone. */
  lemma AddLinks(t: Tables, links: set<(int, int)>, e: int, ids: seq<int>)
    requires e in t.events
    ensures LinksOf(links + AcceptedLinks(t, e, ids), e) == LinksOf(links, e) + set c | c in ids && c in t.categories
    ensures forall o :: o != e ==> LinksOf(links + AcceptedLinks(t, e, ids), o) == LinksOf(links, o)
  {
    var l := links + AcceptedLinks(t, e, ids);
    forall o | o != e ensures LinksOf(l, o) == LinksOf(links, o) {
      assert forall c :: (o, c) in l <==> (o, c) in links;
    }
  }

  /** Every pair (e, id) would pass both foreign keys of a link row. */
  predicate AllLinkable(t: Tables, e: int, ids: seq<int>)
  {
    (|ids| > 0 ==> e in t.events) && forall i :: 0 <= i < |ids| ==> ids[i] in t.categories
  }

  /** One more id is linkable exactly when the ids before it are and it is. */
  lemma LinkablePrefix(t: Tables, e: int, ids: seq<int>, i: int)
    requires 0 <= i < |ids|
    ensures AllLinkable(t, e, ids[..i + 1]) <==> AllLinkable(t, e, ids[..i]) && e in t.events && ids[i] in t.categories
  {
    assert forall k :: 0 <= k < i ==> ids[..i + 1][k] == ids[..i][k];
    assert ids[..i + 1][i] == ids[i];
  }

  /** Linking reads only the event and category tables. */
  lemma LinkingReadsRows(t1: Tables, t2: Tables, e: int, ids: seq<int>)
    requires t1.events == t2.events && t1.categories == t2.categories
    ensures AllLinkable(t1, e, ids) == AllLinkable(t2, e, ids)
    ensures AcceptedLinks(t1, e, ids) == AcceptedLinks(t2, e, ids)
  {
    forall p ensures p in AcceptedLinks(t1, e, ids) <==> p in AcceptedLinks(t2, e, ids) {
    }
  }

  /** The store `CREATE TABLE IF NOT EXISTS` leaves in a new database file, next
      to an `organizers` table and a `users.organizer_id` column that may exist
      in a file created elsewhere. */
  function EmptyTables(organizerColumns: Option<seq<string>>, usersHaveOrganizerId: bool): (r: Tables)
    ensures Consistent(r)
    ensures r.users == map[] && r.events == map[] && r.categories == map[] && r.links == {}
  {
    Tables(map[], 0, map[], 0, map[], 0, map[], 0, {},
           if organizerColumns.Some? then Some(map[]) else None,
           if organizerColumns.Some? then organizerColumns.value else [], 0,
           usersHaveOrganizerId)
  }

  datatype DefaultCategory = DefaultCategory(name: string, description: string)

  /** `c` is one of the default categories, as the seeding inserts it. */
  predicate IsDefault(c: Category)
  {
    exists i :: 0 <= i < |Defaults| && c == Category(Defaults[i].name, Some(Defaults[i].description))
  }

  /** A name stays taken in a table that keeps every row of the old one. */
  lemma NameTakenGrows(a: map<int, Category>, b: map<int, Category>, name: string)
    requires forall id :: id in a ==> id in b && b[id] == a[id]
    requires NameTaken(a, name)
    ensures NameTaken(b, name)
  {
    var id :| id in a && a[id].name == name;
    assert id in b && b[id].name == name;
  }

  /** Every default category name is in the table. */
  predicate AllDefaultsPresent(categories: map<int, Category>)
  {
    forall j :: 0 <= j < |Defaults| ==> NameTaken(categories, Defaults[j].name)
  }

  /** `t1` is `t0` with default categories added and nothing else changed. */
  predicate GrowsByDefaults(t0: Tables, t1: Tables)
  {
    t1 == t0.(categories := t1.categories, lastCategory := t1.lastCategory) &&
    (forall id :: id in t0.categories ==> id in t1.categories && t1.categories[id] == t0.categories[id]) &&
    (forall id :: id in t1.categories && id !in t0.categories ==> IsDefault(t1.categories[id]))
  }

  const Defaults: seq<DefaultCategory> := [
    DefaultCategory("Technology", "Technology related events"),
    DefaultCategory("Education", "Educational events"),
    DefaultCategory("Social", "Social gatherings"),
    DefaultCategory("Sports", "Sports activities"),
    DefaultCategory("Arts", "Arts and culture events"),
    DefaultCategory("Business", "Business networking events")
  ]

  /** The connection: the store and the statements the handlers issue on it. */
  class Database {
    var t: Tables

    ghost predicate Valid()
      reads this
    {
      Consistent(t)
    }

    /** Opening a new database file: the tables are created empty and the six
        default categories are inserted. */
    constructor (organizerColumns: Option<seq<string>>, usersHaveOrganizerId: bool)
      ensures Valid()
      ensures AllDefaultsPresent(t.categories)
      ensures forall id :: id in t.categories ==> IsDefault(t.categories[id])
      ensures t.users == map[] && t.events == map[] && t.questions == map[] && t.links == {}
    {
      t := EmptyTables(organizerColumns, usersHaveOrganizerId);
      new;
      Seed();
    }

    /** The seeding loop: one `INSERT OR IGNORE` per default category. */
    method Seed()
      requires Valid()
      modifies this
      ensures Valid()
      ensures AllDefaultsPresent(t.categories)
      ensures AllDefaultsPresent(old(t.categories)) ==> t == old(t)
      ensures GrowsByDefaults(old(t), t)
    {
      var i := 0;
      while i < |Defaults|
        invariant 0 <= i <= |Defaults|
        invariant Valid()
        invariant forall j :: 0 <= j < i ==> NameTaken(t.categories, Defaults[j].name)
        invariant AllDefaultsPresent(old(t.categories)) ==> t == old(t)
        invariant GrowsByDefaults(old(t), t)
      {
        ghost var before := t;
        var d := Defaults[i];
        assert IsDefault(Category(d.name, Some(d.description)));
        if AllDefaultsPresent(old(t.categories)) {
          NameTakenGrows(old(t.categories), t.categories, d.name);
        }
        var _ := InsertCategoryOrIgnore(d.name, Some(d.description));
        forall j | 0 <= j < i ensures NameTaken(t.categories, Defaults[j].name) {
          NameTakenGrows(before.categories, t.categories, Defaults[j].name);
        }
        i := i + 1;
      }
    }

    /** `INSERT OR IGNORE INTO categories (name, description)`: a name already
        present leaves the table as it was. */
    method InsertCategoryOrIgnore(name: string, description: Option<string>) returns (r: Outcome)
      requires Valid()
      modifies this
      ensures Valid()
      ensures NameTaken(t.categories, name)
      ensures NameTaken(old(t.categories), name) ==> r == Done(0) && t == old(t)
      ensures !NameTaken(old(t.categories), name) ==>
        var id := old(t.lastCategory) + 1;
        r == Done(id) &&
        t == old(t).(categories := old(t.categories)[id := Category(name, description)], lastCategory := id)
    {
      if NameTaken(t.categories, name) {
        return Done(0);
      }
      var id := t.lastCategory + 1;
      t := t.(categories := t.categories[id := Category(name, description)], lastCategory := id);
      assert t.categories[id].name == name;
      r := Done(id);
    }

    // -------------------------------------------------------------------
    // users

    /** `INSERT INTO users (...)`. */
    method InsertUser(firstName: string, lastName: string, email: string, password: string, salt: string, now: int)
      returns (r: Outcome)
      requires Valid()
      modifies this
      ensures Valid()
      ensures EmailTaken(old(t.users), email) ==> r == Failed(Unique, UniqueMessage("users.email")) && t == old(t)
      ensures !EmailTaken(old(t.users), email) ==>
        var id := old(t.lastUser) + 1;
        r == Done(id) &&
        t == old(t).(users := old(t.users)[id := User(firstName, lastName, email, password, salt, now, None)], lastUser := id)
    {
      if EmailTaken(t.users, email) {
        return Failed(Unique, UniqueMessage("users.email"));
      }
      var id := t.lastUser + 1;
      t := t.(users := t.users[id := User(firstName, lastName, email, password, salt, now, None)], lastUser := id);
      r := Done(id);
    }

    /** `UPDATE users SET first_name = ?, last_name = ? WHERE user_id = ?`; an
        absent value binds NULL. */
    method UpdateUserNames(id: int, firstName: Option<string>, lastName: Option<string>) returns (r: Outcome)
      requires Valid()
      modifies this
      ensures Valid()
      ensures id !in old(t.users) ==> r == Done(0) && t == old(t)
      ensures id in old(t.users) && firstName.None? ==> r == Failed(NotNull, NotNullMessage("users.first_name")) && t == old(t)
      ensures id in old(t.users) && firstName.Some? && lastName.None? ==>
        r == Failed(NotNull, NotNullMessage("users.last_name")) && t == old(t)
      ensures id in old(t.users) && firstName.Some? && lastName.Some? ==>
        r == Done(1) &&
        t == old(t).(users := old(t.users)[id := old(t.users)[id].(firstName := firstName.value, lastName := lastName.value)])
    {
      if id !in t.users {
        return Done(0);
      }
      if firstName.None? {
        return Failed(NotNull, NotNullMessage("users.first_name"));
      }
      if lastName.None? {
        return Failed(NotNull, NotNullMessage("users.last_name"));
      }
      t := t.(users := t.users[id := t.users[id].(firstName := firstName.value, lastName := lastName.value)]);
      r := Done(1);
    }

    /** `UPDATE users SET organizer_id = ? WHERE user_id = ?`, which fails when
        the column does not exist. */
    method SetUserOrganizer(id: int, organizerId: int) returns (r: Outcome)
      requires Valid()
      modifies this
      ensures Valid()
      ensures !old(t.usersHaveOrganizerId) ==> r.Failed? && r.kind == MissingSchema && t == old(t)
      ensures old(t.usersHaveOrganizerId) && id !in old(t.users) ==> r == Done(0) && t == old(t)
      ensures old(t.usersHaveOrganizerId) && id in old(t.users) ==>
        r == Done(1) && t == old(t).(users := old(t.users)[id := old(t.users)[id].(organizerId := Some(organizerId))])
    {
      if !t.usersHaveOrganizerId {
        return Failed(MissingSchema, "SQLITE_ERROR: no such column: organizer_id");
      }
      if id !in t.users {
        return Done(0);
      }
      t := t.(users := t.users[id := t.users[id].(organizerId := Some(organizerId))]);
      r := Done(1);
    }

    /** `INSERT INTO organizers (<every column>) VALUES (...)`. Whether SQLite
        accepts the bound values (their types against the declared columns) is
        `accepted`; an accepted row gets the next id. */
    method InsertOrganizer(row: OrganizerRow, accepted: bool) returns (r: Outcome)
      requires Valid()
      modifies this
      ensures Valid()
      ensures old(t.organizers).None? ==> r.Failed? && r.kind == MissingSchema && t == old(t)
      ensures old(t.organizers).Some? && !accepted ==> r.Failed? && t == old(t)
      ensures old(t.organizers).Some? && accepted ==>
        var id := old(t.lastOrganizer) + 1;
        r == Done(id) && t == old(t).(organizers := Some(old(t.organizers).value[id := row]), lastOrganizer := id)
    {
      if t.organizers.None? {
        return Failed(MissingSchema, "SQLITE_ERROR: no such table: organizers");
      }
      if !accepted {
        return Failed(NotNull, "SQLITE_CONSTRAINT: organizers");
      }
      var id := t.lastOrganizer + 1;
      t := t.(organizers := Some(t.organizers.value[id := row]), lastOrganizer := id);
      r := Done(id);
    }

    // -------------------------------------------------------------------
    // events

    /** `INSERT INTO events (...)`: the organizer must be an existing user. */
    method InsertEvent(title: string, description: Option<string>, date: string, location: Option<string>,
                       organizerId: int, now: int) returns (r: Outcome)
      requires Valid()
      modifies this
      ensures Valid()
      ensures organizerId !in old(t.users) ==> r == Failed(ForeignKey, ForeignKeyMessage) && t == old(t)
      ensures organizerId in old(t.users) ==>
        var id := old(t.lastEvent) + 1;
        r == Done(id) &&
        t == old(t).(events := old(t.events)[id := Event(title, description, date, location, organizerId, now)], lastEvent := id)
    {
      if organizerId !in t.users {
        return Failed(ForeignKey, ForeignKeyMessage);
      }
      var id := t.lastEvent + 1;
      t := t.(events := t.events[id := Event(title, description, date, location, organizerId, now)], lastEvent := id);
      r := Done(id);
    }

    /** `UPDATE events SET title = ?, description = ?, date = ?, location = ? WHERE event_id = ?`. */
    method UpdateEventRow(id: int, title: string, description: Option<string>, date: string, location: Option<string>)
      returns (changes: int)
      requires Valid()
      modifies this
      ensures Valid()
      ensures id !in old(t.events) ==> changes == 0 && t == old(t)
      ensures id in old(t.events) ==>
        changes == 1 &&
        t == old(t).(events := old(t.events)[id := old(t.events)[id].(title := title, description := description, date := date, location := location)])
    {
      if id !in t.events {
        return 0;
      }
      t := t.(events := t.events[id := t.events[id].(title := title, description := description, date := date, location := location)]);
      changes := 1;
    }

    /** `DELETE FROM events WHERE event_id = ?`: link rows go with it (ON DELETE
        CASCADE); a question still pointing at it blocks the delete. */
    method DeleteEventRow(id: int) returns (r: Outcome)
      requires Valid()
      modifies this
      ensures Valid()
      ensures id !in old(t.events) ==> r == Done(0) && t == old(t)
      ensures id in old(t.events) && (exists q :: q in old(t.questions) && old(t.questions)[q].eventId == id) ==>
        r == Failed(ForeignKey, ForeignKeyMessage) && t == old(t)
      ensures id in old(t.events) && !(exists q :: q in old(t.questions) && old(t.questions)[q].eventId == id) ==>
        r == Done(1) && t == old(t).(events := old(t.events) - {id}, links := LinksWithoutEvent(old(t.links), id))
    {
      if id !in t.events {
        return Done(0);
      }
      if exists q :: q in t.questions && t.questions[q].eventId == id {
        return Failed(ForeignKey, ForeignKeyMessage);
      }
      t := t.(events := t.events - {id}, links := LinksWithoutEvent(t.links, id));
      r := Done(1);
    }

    // -------------------------------------------------------------------
    // questions

    /** `INSERT INTO questions (question_text, event_id, user_id, upvotes, created_date)`. */
    method InsertQuestion(text: string, eventId: int, userId: int, upvotes: int, now: int) returns (r: Outcome)
      requires Valid()
      modifies this
      ensures Valid()
      ensures (eventId !in old(t.events) || userId !in old(t.users)) ==>
        r == Failed(ForeignKey, ForeignKeyMessage) && t == old(t)
      ensures eventId in old(t.events) && userId in old(t.users) ==>
        var id := old(t.lastQuestion) + 1;
        r == Done(id) &&
        t == old(t).(questions := old(t.questions)[id := Question(text, eventId, userId, upvotes, now)], lastQuestion := id)
    {
      if eventId !in t.events || userId !in t.users {
        return Failed(ForeignKey, ForeignKeyMessage);
      }
      var id := t.lastQuestion + 1;
      t := t.(questions := t.questions[id := Question(text, eventId, userId, upvotes, now)], lastQuestion := id);
      r := Done(id);
    }

    /** `UPDATE questions SET question_text = ? WHERE question_id = ?`; an absent
        text binds NULL, which the NOT NULL column refuses on a matched row. */
    method UpdateQuestionText(id: int, text: Option<string>) returns (r: Outcome)
      requires Valid()
      modifies this
      ensures Valid()
      ensures id !in old(t.questions) ==> r == Done(0) && t == old(t)
      ensures id in old(t.questions) && text.None? ==>
        r == Failed(NotNull, NotNullMessage("questions.question_text")) && t == old(t)
      ensures id in old(t.questions) && text.Some? ==>
        r == Done(1) && t == old(t).(questions := old(t.questions)[id := old(t.questions)[id].(text := text.value)])
    {
      if id !in t.questions {
        return Done(0);
      }
      if text.None? {
        return Failed(NotNull, NotNullMessage("questions.question_text"));
      }
      t := t.(questions := t.questions[id := t.questions[id].(text := text.value)]);
      r := Done(1);
    }

    /** `UPDATE questions SET upvotes = upvotes + 1 WHERE question_id = ?`. */
    method IncrementUpvotes(id: int) returns (changes: int)
      requires Valid()
      modifies this
      ensures Valid()
      ensures id !in old(t.questions) ==> changes == 0 && t == old(t)
      ensures id in old(t.questions) ==>
        changes == 1 &&
        t == old(t).(questions := old(t.questions)[id := old(t.questions)[id].(upvotes := old(t.questions)[id].upvotes + 1)])
    {
      if id !in t.questions {
        return 0;
      }
      t := t.(questions := t.questions[id := t.questions[id].(upvotes := t.questions[id].upvotes + 1)]);
      changes := 1;
    }

    /** `DELETE FROM questions WHERE question_id = ?`. */
    method DeleteQuestionRow(id: int) returns (changes: int)
      requires Valid()
      modifies this
      ensures Valid()
      ensures id !in old(t.questions) ==> changes == 0 && t == old(t)
      ensures id in old(t.questions) ==> changes == 1 && t == old(t).(questions := old(t.questions) - {id})
    {
      if id !in t.questions {
        return 0;
      }
      t := t.(questions := t.questions - {id});
      changes := 1;
    }

    /** `DELETE FROM questions WHERE event_id = ?`. */
    method DeleteQuestionsOfEvent(eventId: int)
      requires Valid()
      modifies this
      ensures Valid()
      ensures t == old(t).(questions := map q | q in old(t.questions) && old(t.questions)[q].eventId != eventId :: old(t.questions)[q])
    {
      t := t.(questions := map q | q in t.questions && t.questions[q].eventId != eventId :: t.questions[q]);
    }

    // -------------------------------------------------------------------
    // categories

    /** `INSERT INTO categories (name, description)`; an absent name binds NULL. */
    method InsertCategory(name: Option<string>, description: Option<string>) returns (r: Outcome)
      requires Valid()
      modifies this
      ensures Valid()
      ensures name.None? ==> r == Failed(NotNull, NotNullMessage("categories.name")) && t == old(t)
      ensures name.Some? && NameTaken(old(t.categories), name.value) ==>
        r == Failed(Unique, UniqueMessage("categories.name")) && t == old(t)
      ensures name.Some? && !NameTaken(old(t.categories), name.value) ==>
        var id := old(t.lastCategory) + 1;
        r == Done(id) &&
        t == old(t).(categories := old(t.categories)[id := Category(name.value, description)], lastCategory := id)
    {
      if name.None? {
        return Failed(NotNull, NotNullMessage("categories.name"));
      }
      if NameTaken(t.categories, name.value) {
        return Failed(Unique, UniqueMessage("categories.name"));
      }
      var id := t.lastCategory + 1;
      t := t.(categories := t.categories[id := Category(name.value, description)], lastCategory := id);
      r := Done(id);
    }

    /** `UPDATE categories SET name = ?, description = ? WHERE category_id = ?`. */
    method UpdateCategoryRow(id: int, name: Option<string>, description: Option<string>) returns (r: Outcome)
      requires Valid()
      modifies this
      ensures Valid()
      ensures id !in old(t.categories) ==> r == Done(0) && t == old(t)
      ensures id in old(t.categories) && name.None? ==> r == Failed(NotNull, NotNullMessage("categories.name")) && t == old(t)
      ensures id in old(t.categories) && name.Some? && NameTakenByOther(old(t.categories), id, name.value) ==>
        r == Failed(Unique, UniqueMessage("categories.name")) && t == old(t)
      ensures id in old(t.categories) && name.Some? && !NameTakenByOther(old(t.categories), id, name.value) ==>
        r == Done(1) && t == old(t).(categories := old(t.categories)[id := Category(name.value, description)])
    {
      if id !in t.categories {
        return Done(0);
      }
      if name.None? {
        return Failed(NotNull, NotNullMessage("categories.name"));
      }
      if NameTakenByOther(t.categories, id, name.value) {
        return Failed(Unique, UniqueMessage("categories.name"));
      }
      t := t.(categories := t.categories[id := Category(name.value, description)]);
      r := Done(1);
    }

    /** `DELETE FROM categories WHERE category_id = ?`: its link rows go with it. */
    method DeleteCategoryRow(id: int) returns (changes: int)
      requires Valid()
      modifies this
      ensures Valid()
      ensures id !in old(t.categories) ==> changes == 0 && t == old(t)
      ensures id in old(t.categories) ==>
        changes == 1 && t == old(t).(categories := old(t.categories) - {id}, links := LinksWithoutCategory(old(t.links), id))
    {
      if id !in t.categories {
        return 0;
      }
      t := t.(categories := t.categories - {id}, links := LinksWithoutCategory(t.links, id));
      changes := 1;
    }

    // -------------------------------------------------------------------
    // event_categories

    /** `DELETE FROM event_categories WHERE event_id = ?`. */
    method DeleteLinksOfEvent(e: int)
      requires Valid()
      modifies this
      ensures Valid()
      ensures t == old(t).(links := LinksWithoutEvent(old(t.links), e))
    {
      t := t.(links := LinksWithoutEvent(t.links, e));
    }

    /** One run of the prepared `INSERT OR IGNORE INTO event_categories`: a pair
        already present is skipped, a pair either of whose ids is unknown fails
        its foreign key (OR IGNORE does not cover foreign keys). */
    method InsertLink(e: int, c: int) returns (r: Outcome)
      requires Valid()
      modifies this
      ensures Valid()
      ensures (e !in old(t.events) || c !in old(t.categories)) ==> r == Failed(ForeignKey, ForeignKeyMessage) && t == old(t)
      ensures e in old(t.events) && c in old(t.categories) ==>
        r == Done(if (e, c) in old(t.links) then 0 else 1) && t == old(t).(links := old(t.links) + {(e, c)})
    {
      if e !in t.events || c !in t.categories {
        return Failed(ForeignKey, ForeignKeyMessage);
      }
      r := Done(if (e, c) in t.links then 0 else 1);
      t := t.(links := t.links + {(e, c)});
    }

    /** The `forEach` over the category ids with its `completed`/`hasError`
        counters: every id is run, and the promise resolves only when all of
        them succeeded. */
    method InsertLinks(e: int, ids: seq<int>) returns (ok: bool)
      requires Valid()
      modifies this
      ensures Valid()
      ensures ok <==> AllLinkable(old(t), e, ids)
      ensures t == old(t).(links := old(t.links) + AcceptedLinks(old(t), e, ids))
    {
      var completed := 0;
      var hasError := false;
      var i := 0;
      while i < |ids|
        invariant 0 <= i <= |ids|
        invariant Valid()
        invariant completed <= i
        invariant hasError <==> !AllLinkable(old(t), e, ids[..i])
        invariant !hasError ==> completed == i
        invariant t == old(t).(links := old(t.links) + AcceptedLinks(old(t), e, ids[..i]))
      {
        var r := InsertLink(e, ids[i]);
        LinkablePrefix(old(t), e, ids, i);
        if r.Failed? {
          hasError := true;
        } else {
          completed := completed + 1;
        }
        assert ids[..i + 1] == ids[..i] + [ids[i]];
        i := i + 1;
      }
      assert ids[..i] == ids;
      ok := completed == |ids| && !hasError;
    }
  }
}
