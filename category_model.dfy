/** The `Category` model: the category queries, the row statements it wraps,
    and its own `linkEventToCategories`, which replaces an event's links. */
module CategoryModel {
  import opened Common
  import opened Database
  import opened Ordering

  /** A row as the queries select it: `category_id as id, name, description`. */
  datatype CategoryView = CategoryView(id: int, name: string, description: Option<string>)

  function ViewOf(t: Tables, id: int): (r: CategoryView)
    requires id in t.categories
    ensures r.id == id && r.name == t.categories[id].name && r.description == t.categories[id].description
  {
    CategoryView(id, t.categories[id].name, t.categories[id].description)
  }

  /** The rows in rowid order: the table as an unordered `SELECT` returns it. */
  function AllViews(t: Tables): (r: seq<CategoryView>)
    requires Consistent(t)
    ensures forall id :: id in t.categories ==> ViewOf(t, id) in r
    ensures forall i :: 0 <= i < |r| ==> r[i].id in t.categories && r[i] == ViewOf(t, r[i].id)
    ensures forall i, j :: 0 <= i < j < |r| ==> r[i].id < r[j].id
  {
    var ks := KeysUpTo(t.categories, t.lastCategory);
    var r := seq(|ks|, i requires 0 <= i < |ks| => ViewOf(t, ks[i]));
    assert forall id :: id in t.categories ==> id in ks;
    assert forall id :: id in ks ==> ViewOf(t, id) in r by {
      forall id | id in ks ensures ViewOf(t, id) in r {
        var i :| 0 <= i < |ks| && ks[i] == id;
        assert r[i] == ViewOf(t, id);
      }
    }
    r
  }

  /** `ORDER BY name`. */
  function ByName(): (CategoryView, CategoryView) -> bool
  {
    (a: CategoryView, b: CategoryView) => NameLe(a.name, b.name)
  }

  lemma ByNameIsPreorder()
    ensures Total(ByName()) && Transitive(ByName())
  {
    forall a: CategoryView, b: CategoryView ensures ByName()(a, b) || ByName()(b, a) {
      NameLeTotal(a.name, b.name);
    }
    forall a: CategoryView, b: CategoryView, c: CategoryView | ByName()(a, b) && ByName()(b, c)
      ensures ByName()(a, c)
    {
      NameLeTransitive(a.name, b.name, c.name);
    }
  }

  /** `Category.findAll()`: every category, one row each, ordered by name. The
      `getCategories` handlers of both controllers issue the same query. */
  function FindAll(t: Tables): (r: seq<CategoryView>)
    requires Consistent(t)
    ensures multiset(r) == multiset(AllViews(t))
    ensures forall id :: id in t.categories ==> ViewOf(t, id) in r
    ensures forall v :: v in r ==> v.id in t.categories && v == ViewOf(t, v.id)
    ensures forall i, j :: 0 <= i < j < |r| ==> NameLe(r[i].name, r[j].name)
  {
    var all := AllViews(t);
    var r := SortBy(all, ByName());
    ByNameIsPreorder();
    SortBySorted(all, ByName());
    SortByKeepsElements(all, ByName());
    r
  }

  /** `Category.findById(id)`: the row, or `undefined`. */
  function FindById(t: Tables, id: int): (r: Option<CategoryView>)
    ensures r.Some? <==> id in t.categories
    ensures r.Some? ==> r.value == ViewOf(t, id)
  {
    if id in t.categories then Some(ViewOf(t, id)) else None
  }

  /** The rows of `ks` linked to event `e`, in the order of `ks`. */
  function LinkedViews(t: Tables, e: int, ks: seq<int>): (r: seq<CategoryView>)
    requires forall i :: 0 <= i < |ks| ==> ks[i] in t.categories
    requires forall i, j :: 0 <= i < j < |ks| ==> ks[i] < ks[j]
    ensures forall v :: v in r <==> v.id in ks && (e, v.id) in t.links && v == ViewOf(t, v.id)
    ensures forall i, j :: 0 <= i < j < |r| ==> r[i].id < r[j].id
  {
    if ks == [] then []
    else
      var rest := LinkedViews(t, e, ks[1..]);
      assert forall v :: v in rest ==> ks[0] < v.id;
      if (e, ks[0]) in t.links then [ViewOf(t, ks[0])] + rest else rest
  }

  /** `Category.getEventCategories(eventId)`: exactly the categories linked to the
      event, each once (the controller's own helper issues the same join). The
      join leaves the row order open; this model returns them by id. */
  function GetEventCategories(t: Tables, e: int): (r: seq<CategoryView>)
    requires Consistent(t)
    ensures forall v :: v in r <==> (e, v.id) in t.links && v == ViewOf(t, v.id)
    ensures forall i, j :: 0 <= i < j < |r| ==> r[i].id < r[j].id
  {
    var ks := KeysUpTo(t.categories, t.lastCategory);
    LinkedViews(t, e, ks)
  }

  /** The ids the event's categories carry. */
  lemma EventCategoriesAreLinks(t: Tables, e: int)
    requires Consistent(t)
    ensures (set v | v in GetEventCategories(t, e) :: v.id) == LinksOf(t.links, e)
  {
    var r := GetEventCategories(t, e);
    forall c | c in LinksOf(t.links, e) ensures c in (set v | v in r :: v.id) {
      assert ViewOf(t, c) in r;
    }
  }

  /** `Category.create(data)`: the new id, or the constraint error. */
  method Create(db: Database, name: Option<string>, description: Option<string>) returns (r: Outcome)
    requires db.Valid()
    modifies db
    ensures db.Valid()
    ensures r.Failed? ==> db.t == old(db.t)
    ensures r.Failed? <==> name.None? || NameTaken(old(db.t.categories), name.value)
    ensures r.Done? ==>
      r.n == old(db.t.lastCategory) + 1 &&
      db.t == old(db.t).(categories := old(db.t.categories)[r.n := Category(name.value, description)], lastCategory := r.n)
  {
    r := db.InsertCategory(name, description);
  }

  /** `Category.update(id, data)`: the number of rows changed, 0 for an unknown id. */
  method Update(db: Database, id: int, name: Option<string>, description: Option<string>) returns (r: Outcome)
    requires db.Valid()
    modifies db
    ensures db.Valid()
    ensures id !in old(db.t.categories) ==> r == Done(0) && db.t == old(db.t)
    ensures r.Failed? ==> db.t == old(db.t)
    ensures id in old(db.t.categories) ==> (r.Failed? <==> name.None? || NameTakenByOther(old(db.t.categories), id, name.value))
    ensures r == Done(1) ==> name.Some? && db.t == old(db.t).(categories := old(db.t.categories)[id := Category(name.value, description)])
    ensures r.Done? ==> r.n == (if id in old(db.t.categories) then 1 else 0)
  {
    r := db.UpdateCategoryRow(id, name, description);
  }

  /** `Category.delete(id)`: the number of rows deleted; the category's links go with it. */
  method Delete(db: Database, id: int) returns (changes: int)
    requires db.Valid()
    modifies db
    ensures db.Valid()
    ensures changes == (if id in old(db.t.categories) then 1 else 0)
    ensures db.t == old(db.t).(categories := old(db.t.categories) - {id}, links := LinksWithoutCategory(old(db.t.links), id))
  {
    changes := db.DeleteCategoryRow(id);
  }

  /** `Category.linkEventToCategories(eventId, ids)`: an absent or empty list
      keeps the event's links; otherwise they are deleted and each id inserted.
      `ok` is whether the promise resolves. */
  method LinkEventToCategories(db: Database, e: int, ids: Option<seq<int>>) returns (ok: bool)
    requires db.Valid()
    modifies db
    ensures db.Valid()
    ensures (ids.None? || ids.value == []) ==> ok && db.t == old(db.t)
    ensures ids.Some? && ids.value != [] ==>
      db.t == old(db.t).(links := LinksWithoutEvent(old(db.t.links), e) + AcceptedLinks(old(db.t), e, ids.value)) &&
      (ok <==> AllLinkable(old(db.t), e, ids.value))
  {
    if ids.None? || ids.value == [] {
      return true;
    }
    db.DeleteLinksOfEvent(e);
    LinkingReadsRows(db.t, old(db.t), e, ids.value);
    ok := db.InsertLinks(e, ids.value);
  }
}
