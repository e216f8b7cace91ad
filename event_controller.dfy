/** The event controller: the event listings and search, which join each event
    with its organizer's name and its categories, and the create, update and
    delete handlers with their category links. Error replies carry
    `{status: 'error', message}`; `Err` holds that `message`. */
module EventController {
  import opened Common
  import opened Database
  import opened Ordering
  import opened CategoryModel
  import opened Hydration
  import Profanity

  // ---------------------------------------------------------------------
  // The formatted event

  /** An element of `data` in the listings. */
  datatype EventView = EventView(
    id: int, title: string, description: Option<string>, date: string,
    location: Option<string>, organizerId: int, organizerName: string,
    createdAt: int, categories: seq<CategoryRef>)

  /** The `{id, name}` pairs of an event's linked categories. */
  function Refs(cs: seq<CategoryView>): (r: seq<CategoryRef>)
    ensures |r| == |cs|
    ensures forall i :: 0 <= i < |cs| ==> r[i] == CategoryRef(cs[i].id, Some(cs[i].name))
  {
    var ids := seq(|cs|, i requires 0 <= i < |cs| => cs[i].id);
    var names := seq(|cs|, i requires 0 <= i < |cs| => cs[i].name);
    Zip(ids, names)
  }

  /** One event as the listings format it: `first_name || ' ' || last_name` of
      its organizer, and exactly its linked categories with their names. */
  function EventViewOf(t: Tables, e: int): (r: EventView)
    requires Consistent(t) && e in t.events
    ensures r.id == e && r.title == t.events[e].title && r.description == t.events[e].description
    ensures r.date == t.events[e].date && r.location == t.events[e].location
    ensures r.organizerId == t.events[e].organizerId && r.createdAt == t.events[e].created
    ensures r.organizerName == t.users[r.organizerId].firstName + " " + t.users[r.organizerId].lastName
    ensures forall x :: x in r.categories <==>
      (e, x.id) in t.links && x == CategoryRef(x.id, Some(t.categories[x.id].name))
  {
    var ev := t.events[e];
    var organizer := t.users[ev.organizerId];
    var cs := GetEventCategories(t, e);
    var refs := Refs(cs);
    assert forall x :: x in refs ==> exists i :: 0 <= i < |cs| && x == CategoryRef(cs[i].id, Some(cs[i].name));
    assert forall c :: (e, c) in t.links ==> ViewOf(t, c) in cs;
    EventView(e, ev.title, ev.description, ev.date, ev.location, ev.organizerId,
              organizer.firstName + " " + organizer.lastName, ev.created, refs)
  }

  /** Every event's categories are the ones its links name, the same set the
      `split(',')` mapping produces while no category name contains a comma. */
  lemma ViewCategoriesAsHydrated(t: Tables, e: int)
    requires Consistent(t) && e in t.events
    requires forall c :: c in t.categories ==> NoComma(t.categories[c].name)
    ensures
      var cs := GetEventCategories(t, e);
      var ids := seq(|cs|, i requires 0 <= i < |cs| => cs[i].id as nat);
      var names := seq(|cs|, i requires 0 <= i < |cs| => cs[i].name);
      HydrateAsWritten(ids, names) == EventViewOf(t, e).categories
  {
    var cs := GetEventCategories(t, e);
    assert forall i :: 0 <= i < |cs| ==> cs[i].id in t.categories && cs[i].id >= 1;
    var ids := seq(|cs|, i requires 0 <= i < |cs| => cs[i].id as nat);
    var names := seq(|cs|, i requires 0 <= i < |cs| => cs[i].name);
    HydrateIsZip(ids, names);
  }

  // ---------------------------------------------------------------------
  // Listings

  /** `ORDER BY e.created_date DESC`. */
  function NewestFirst(): (EventView, EventView) -> bool
  {
    (a: EventView, b: EventView) => a.createdAt >= b.createdAt
  }

  lemma NewestFirstIsPreorder()
    ensures Total(NewestFirst()) && Transitive(NewestFirst())
  {
  }

  /** Sorting newest first keeps the elements, and orders them by creation
      time, latest first. */
  lemma SortNewestFirst(vs: seq<EventView>)
    ensures forall v :: v in SortBy(vs, NewestFirst()) <==> v in vs
    ensures forall i, j :: 0 <= i < j < |vs| ==> SortBy(vs, NewestFirst())[i].createdAt >= SortBy(vs, NewestFirst())[j].createdAt
    ensures NoDuplicates(vs) ==> NoDuplicates(SortBy(vs, NewestFirst()))
  {
    NewestFirstIsPreorder();
    SortBySorted(vs, NewestFirst());
    SortByKeepsElements(vs, NewestFirst());
    if NoDuplicates(vs) {
      SortByNoDuplicates(vs, NewestFirst());
    }
  }

  /** The formatted events of `ks`, in the order of `ks`. */
  function ViewsOf(t: Tables, ks: seq<int>): (r: seq<EventView>)
    requires Consistent(t)
    requires forall k :: k in ks ==> k in t.events
    requires Increasing(ks)
    ensures forall v :: v in r <==> v.id in ks && v == EventViewOf(t, v.id)
    ensures NoDuplicates(r)
  {
    if ks == [] then []
    else
      var rest := ViewsOf(t, ks[1..]);
      assert forall v :: v in rest ==> ks[0] < v.id;
      [EventViewOf(t, ks[0])] + rest
  }

  /** The formatted events that satisfy `p`, newest first, each once. */
  function Listing(t: Tables, p: int -> bool): (r: seq<EventView>)
    requires Consistent(t)
    ensures forall v :: v in r <==> v.id in t.events && p(v.id) && v == EventViewOf(t, v.id)
    ensures forall i, j :: 0 <= i < j < |r| ==> r[i].createdAt >= r[j].createdAt
    ensures forall i, j :: 0 <= i < j < |r| ==> r[i].id != r[j].id
  {
    var ks := KeysUpTo(t.events, t.lastEvent);
    assert Increasing(ks);
    var vs := ViewsOf(t, Where(ks, p));
    var r := SortBy(vs, NewestFirst());
    SortNewestFirst(vs);
    assert forall i, j :: 0 <= i < j < |r| ==> r[i].id != r[j].id by {
      forall i, j | 0 <= i < j < |r| ensures r[i].id != r[j].id {
        assert r[i] in vs && r[j] in vs;
      }
    }
    r
  }

  /** `getAllEvents`: every event, newest first. */
  function GetAllEvents(t: Tables): (r: Reply<seq<EventView>>)
    requires Consistent(t)
    ensures r.Ok? && r.status == 200
    ensures forall e :: e in t.events ==> EventViewOf(t, e) in r.value
    ensures forall v :: v in r.value ==> v.id in t.events && v == EventViewOf(t, v.id)
    ensures forall i, j :: 0 <= i < j < |r.value| ==> r.value[i].createdAt >= r.value[j].createdAt && r.value[i].id != r.value[j].id
  {
    Ok(200, Listing(t, (k: int) => true))
  }

  /** `getEvent`: the formatted event, or 404. */
  function GetEvent(t: Tables, e: int): (r: Reply<EventView>)
    requires Consistent(t)
    ensures e !in t.events ==> r == Err(404, "Event not found")
    ensures e in t.events ==> r == Ok(200, EventViewOf(t, e))
  {
    if e in t.events then Ok(200, EventViewOf(t, e)) else Err(404, "Event not found")
  }

  /** The reply of `getEventsByOrganizer`: `data` and its `count`. */
  datatype EventList = EventList(data: seq<EventView>, count: int)

  /** `getEventsByOrganizer`: exactly the events of one organizer, newest first. */
  function GetEventsByOrganizer(t: Tables, organizer: int): (r: Reply<EventList>)
    requires Consistent(t)
    ensures r.Ok? && r.status == 200 && r.value.count == |r.value.data|
    ensures forall v :: v in r.value.data <==>
      v.id in t.events && t.events[v.id].organizerId == organizer && v == EventViewOf(t, v.id)
    ensures forall i, j :: 0 <= i < j < |r.value.data| ==>
      r.value.data[i].createdAt >= r.value.data[j].createdAt && r.value.data[i].id != r.value.data[j].id
  {
    var data := Listing(t, (k: int) => k in t.events && t.events[k].organizerId == organizer);
    Ok(200, EventList(data, |data|))
  }

  /** `e.title LIKE '%q%' OR e.description LIKE '%q%'`; a NULL description
      matches nothing. */
  predicate Matches(ev: Event, q: string)
  {
    ContainsIgnoringCase(ev.title, q) || (ev.description.Some? && ContainsIgnoringCase(ev.description.value, q))
  }

  /** Event `k` is a search hit for the trimmed query `q`: it matches, and with
      a category filter, it is linked to that category. */
  predicate Hit(t: Tables, q: string, category: Option<int>, k: int)
  {
    k in t.events && Matches(t.events[k], q) && (category.Some? ==> (k, category.value) in t.links)
  }

  /** A hit with its categories narrowed to `c`: with a category filter the
      `WHERE` clause keeps only the joined row of that category. */
  function Narrowed(t: Tables, v: EventView, c: int): (r: EventView)
    requires c in t.categories
  {
    v.(categories := [CategoryRef(c, Some(t.categories[c].name))])
  }

  /** A search hit as the search reports it. */
  function SearchView(t: Tables, e: int, category: Option<int>): (r: EventView)
    requires Consistent(t) && e in t.events
    requires category.Some? ==> (e, category.value) in t.links
  {
    if category.None? then EventViewOf(t, e) else Narrowed(t, EventViewOf(t, e), category.value)
  }

  function Narrow(t: Tables, vs: seq<EventView>, c: int): (r: seq<EventView>)
    requires c in t.categories
    ensures |r| == |vs|
    ensures forall i :: 0 <= i < |vs| ==> r[i] == Narrowed(t, vs[i], c)
  {
    seq(|vs|, i requires 0 <= i < |vs| => Narrowed(t, vs[i], c))
  }

  /** Narrowing the hits of a category filter gives exactly the reported hits. */
  lemma NarrowedHits(t: Tables, q: string, c: int, hits: seq<EventView>)
    requires Consistent(t) && c in t.categories
    requires forall v :: v in hits <==> v.id in t.events && Hit(t, q, Some(c), v.id) && v == EventViewOf(t, v.id)
    ensures forall v :: v in Narrow(t, hits, c) <==> v.id in t.events && Hit(t, q, Some(c), v.id) && v == SearchView(t, v.id, Some(c))
  {
    var r := Narrow(t, hits, c);
    forall v | v in r ensures v.id in t.events && Hit(t, q, Some(c), v.id) && v == SearchView(t, v.id, Some(c)) {
      var i :| 0 <= i < |r| && r[i] == v;
      assert hits[i] in hits;
    }
    forall v: EventView | v.id in t.events && Hit(t, q, Some(c), v.id) && v == SearchView(t, v.id, Some(c)) ensures v in r {
      var w := EventViewOf(t, v.id);
      assert w in hits;
      var i :| 0 <= i < |hits| && hits[i] == w;
      assert r[i] == v;
    }
  }

  /** `searchEvents`: a blank query is refused; otherwise every event whose title
      or description contains the trimmed query, ignoring case, and, when a
      category is given, that is linked to it, newest first. */
  function SearchEvents(t: Tables, query: Option<string>, category: Option<int>): (r: Reply<seq<EventView>>)
    requires Consistent(t)
    ensures !Given(query) || Trim(query.value) == "" ==> r == Err(400, "Search query is required")
    ensures Given(query) && Trim(query.value) != "" ==>
      r.Ok? && r.status == 200 &&
      (forall v :: v in r.value <==>
        v.id in t.events && Hit(t, Trim(query.value), category, v.id) && v == SearchView(t, v.id, category)) &&
      (forall i, j :: 0 <= i < j < |r.value| ==> r.value[i].createdAt >= r.value[j].createdAt && r.value[i].id != r.value[j].id)
  {
    if !Given(query) || Trim(query.value) == "" then Err(400, "Search query is required")
    else
      var q := Trim(query.value);
      var hits := Listing(t, (k: int) => Hit(t, q, category, k));
      if category.None? then Ok(200, hits)
      else if category.value !in t.categories then
        assert forall k :: !Hit(t, q, category, k);
        Ok(200, hits)
      else
        NarrowedHits(t, q, category.value, hits);
        Ok(200, Narrow(t, hits, category.value))
  }

  // ---------------------------------------------------------------------
  // Writes

  /** The ids a request lists; an absent list lists none. */
  function Listed(ids: Option<seq<int>>): seq<int>
  {
    if ids.None? then [] else ids.value
  }

  /** The categories an event ends up linked to: the listed ids that name a
      stored category. */
  function Requested(ids: Option<seq<int>>, categories: map<int, Category>): (r: set<int>)
    ensures forall c :: c in r <==> c in Listed(ids) && c in categories
  {
    set c | c in Listed(ids) && c in categories
  }

  /** The controller's own `linkEventToCategories`: an absent or empty list
      resolves at once; otherwise the event gains each listed link, and the
      promise resolves only when every id named a stored category. */
  method LinkEventToCategories(db: Database, e: int, ids: Option<seq<int>>) returns (ok: bool)
    requires db.Valid()
    modifies db
    ensures db.Valid()
    ensures db.t == old(db.t).(links := old(db.t.links) + AcceptedLinks(old(db.t), e, Listed(ids)))
    ensures ok <==> AllLinkable(old(db.t), e, Listed(ids))
  {
    if ids.None? || |ids.value| == 0 {
      assert AcceptedLinks(db.t, e, Listed(ids)) == {};
      assert db.t.links + {} == db.t.links;
      return true;
    }
    ok := db.InsertLinks(e, ids.value);
  }

  /** A request is offensive when its title or its description contains a
      listed word. */
  predicate Offensive(title: Option<string>, description: Option<string>): (r: bool)
    ensures r <==> (title.Some? && Profanity.ContainsProfanity(title.value)) ||
                   (description.Some? && Profanity.ContainsProfanity(description.value))
  {
    Profanity.ContainsProfanityOpt(title) || Profanity.ContainsProfanityOpt(description)
  }

  /** The `data` of a created event. */
  datatype CreatedEvent = CreatedEvent(
    id: int, title: string, description: Option<string>, date: string,
    location: Option<string>, organizerId: int, categories: seq<CategoryView>)

  /** `createEvent`: title, date and organizer are required and the text must be
      clean; the row is stored as sent, its links are added, and the reply
      carries the categories the event then has. The store is untouched on
      every refusal. */
  method CreateEvent(db: Database, title: Option<string>, description: Option<string>, date: Option<string>,
                     location: Option<string>, organizerId: Option<int>, categoryIds: Option<seq<int>>, now: int)
    returns (r: Reply<CreatedEvent>)
    requires db.Valid()
    modifies db
    ensures db.Valid()
    ensures !Given(title) || !Given(date) || !GivenId(organizerId) ==>
      r == Err(400, "Title, date and organizer_id are required") && db.t == old(db.t)
    ensures Given(title) && Given(date) && GivenId(organizerId) && Offensive(title, description) ==>
      r == Err(400, "Content contains inappropriate language") && db.t == old(db.t)
    ensures (Given(title) && Given(date) && GivenId(organizerId) && !Offensive(title, description) &&
             organizerId.value !in old(db.t.users)) ==>
      r == Err(500, "Error creating event: " + ForeignKeyMessage) && db.t == old(db.t)
    ensures (Given(title) && Given(date) && GivenId(organizerId) && !Offensive(title, description) &&
             organizerId.value in old(db.t.users)) ==>
      var id := old(db.t.lastEvent) + 1;
      id !in old(db.t.events) &&
      db.t == old(db.t).(events := old(db.t.events)[id := Event(title.value, description, date.value, location, organizerId.value, now)],
                         lastEvent := id, links := db.t.links) &&
      LinksOf(db.t.links, id) == Requested(categoryIds, old(db.t.categories)) &&
      (forall o :: o != id ==> LinksOf(db.t.links, o) == LinksOf(old(db.t.links), o)) &&
      (r.Ok? <==> forall i :: 0 <= i < |Listed(categoryIds)| ==> Listed(categoryIds)[i] in old(db.t.categories)) &&
      (r.Ok? ==> r == Ok(201, CreatedEvent(id, title.value, description, date.value, location, organizerId.value,
                                           GetEventCategories(db.t, id)))) &&
      (r.Err? ==> r == Err(500, "Event created but failed to link categories"))
  {
    if !Given(title) || !Given(date) || !GivenId(organizerId) {
      return Err(400, "Title, date and organizer_id are required");
    }
    if Offensive(title, description) {
      return Err(400, "Content contains inappropriate language");
    }
    ghost var before := db.t;
    var outcome := db.InsertEvent(title.value, description, date.value, location, organizerId.value, now);
    if outcome.Failed? {
      return Err(500, "Error creating event: " + outcome.message);
    }
    var id := outcome.n;
    ghost var inserted := db.t;
    assert LinksOf(inserted.links, id) == {};
    assert AllLinkable(inserted, id, Listed(categoryIds)) <==>
      forall i :: 0 <= i < |Listed(categoryIds)| ==> Listed(categoryIds)[i] in before.categories;
    var ok := LinkEventToCategories(db, id, categoryIds);
    AddLinks(inserted, inserted.links, id, Listed(categoryIds));
    if !ok {
      return Err(500, "Event created but failed to link categories");
    }
    var categories := GetEventCategories(db.t, id);
    r := Ok(201, CreatedEvent(id, title.value, description, date.value, location, organizerId.value, categories));
  }

  /** The `data` of an updated event. */
  datatype UpdatedEvent = UpdatedEvent(
    id: int, title: string, description: Option<string>, date: string,
    location: Option<string>, categories: seq<CategoryView>)

  /** `updateEvent`: title and date are required and the text must be clean; an
      unknown event is 404. Otherwise the row takes the new values and the
      event's links are replaced by the listed ones: an absent or empty list
      leaves it with none. */
  method UpdateEvent(db: Database, e: int, title: Option<string>, description: Option<string>, date: Option<string>,
                     location: Option<string>, categoryIds: Option<seq<int>>)
    returns (r: Reply<UpdatedEvent>)
    requires db.Valid()
    modifies db
    ensures db.Valid()
    ensures !Given(title) || !Given(date) ==> r == Err(400, "Title and date are required") && db.t == old(db.t)
    ensures Given(title) && Given(date) && Offensive(title, description) ==>
      r == Err(400, "Content contains inappropriate language") && db.t == old(db.t)
    ensures Given(title) && Given(date) && !Offensive(title, description) && e !in old(db.t.events) ==>
      r == Err(404, "Event not found") && db.t == old(db.t)
    ensures Given(title) && Given(date) && !Offensive(title, description) && e in old(db.t.events) ==>
      db.t == old(db.t).(events := old(db.t.events)[e := old(db.t.events)[e].(title := title.value, description := description,
                                                                               date := date.value, location := location)],
                         links := db.t.links) &&
      LinksOf(db.t.links, e) == Requested(categoryIds, old(db.t.categories)) &&
      (forall o :: o != e ==> LinksOf(db.t.links, o) == LinksOf(old(db.t.links), o)) &&
      (r.Ok? <==> forall i :: 0 <= i < |Listed(categoryIds)| ==> Listed(categoryIds)[i] in old(db.t.categories)) &&
      (r.Ok? ==> r == Ok(200, UpdatedEvent(e, title.value, description, date.value, location, GetEventCategories(db.t, e)))) &&
      (r.Err? ==> r == Err(500, "Event updated but failed to update categories"))
  {
    if !Given(title) || !Given(date) {
      return Err(400, "Title and date are required");
    }
    if Offensive(title, description) {
      return Err(400, "Content contains inappropriate language");
    }
    ghost var before := db.t;
    var changes := db.UpdateEventRow(e, title.value, description, date.value, location);
    if changes == 0 {
      return Err(404, "Event not found");
    }
    ghost var updated := db.t;
    db.DeleteLinksOfEvent(e);
    ghost var cleared := db.t;
    assert AllLinkable(cleared, e, Listed(categoryIds)) <==>
      forall i :: 0 <= i < |Listed(categoryIds)| ==> Listed(categoryIds)[i] in before.categories;
    var ok := LinkEventToCategories(db, e, categoryIds);
    ReplaceLinks(cleared, updated.links, e, Listed(categoryIds));
    if !ok {
      return Err(500, "Event updated but failed to update categories");
    }
    var categories := GetEventCategories(db.t, e);
    r := Ok(200, UpdatedEvent(e, title.value, description, date.value, location, categories));
  }

  /** `deleteEvent`: the event's questions, then its links, then the event; an
      unknown event is 404 and leaves the store as it was. */
  method DeleteEvent(db: Database, e: int) returns (r: Reply<string>)
    requires db.Valid()
    modifies db
    ensures db.Valid()
    ensures e !in old(db.t.events) ==> r == Err(404, "Event not found") && db.t == old(db.t)
    ensures e in old(db.t.events) ==>
      r == Ok(200, "Event deleted successfully") &&
      db.t == old(db.t).(events := old(db.t.events) - {e},
                         questions := map q | q in old(db.t.questions) && old(db.t.questions)[q].eventId != e :: old(db.t.questions)[q],
                         links := LinksWithoutEvent(old(db.t.links), e))
  {
    ghost var before := db.t;
    db.DeleteQuestionsOfEvent(e);
    db.DeleteLinksOfEvent(e);
    var outcome := db.DeleteEventRow(e);
    if outcome.Failed? {
      // No question is left to block the delete.
      assert false;
    }
    if outcome.n == 0 {
      assert e !in before.events;
      assert forall q :: q in before.questions ==> before.questions[q].eventId != e;
      assert db.t.questions == before.questions;
      assert db.t.links == before.links;
      return Err(404, "Event not found");
    }
    r := Ok(200, "Event deleted successfully");
  }

  /** `getCategories`: every category, `category_id as id`, ordered by name. */
  function GetCategories(t: Tables): (r: Reply<seq<CategoryView>>)
    requires Consistent(t)
    ensures r.Ok? && r.status == 200
    ensures forall c :: c in t.categories ==> ViewOf(t, c) in r.value
    ensures forall v :: v in r.value ==> v.id in t.categories && v == ViewOf(t, v.id)
    ensures forall i, j :: 0 <= i < j < |r.value| ==> NameLe(r.value[i].name, r.value[j].name)
  {
    Ok(200, FindAll(t))
  }
}
