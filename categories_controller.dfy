/** The categories controller: the category list and category creation. Its
    error replies carry `{success: false, error}`; `Err` holds that `error`. */
module CategoriesController {
  import opened Common
  import opened Database
  import opened CategoryModel

  /** `getCategories`: every category, ordered by name. */
  function GetCategories(t: Tables): (r: Reply<seq<CategoryView>>)
    requires Consistent(t)
    ensures r.Ok? && r.status == 200
    ensures forall id :: id in t.categories ==> ViewOf(t, id) in r.value
    ensures forall v :: v in r.value ==> v.id in t.categories && v == ViewOf(t, v.id)
    ensures forall i, j :: 0 <= i < j < |r.value| ==> Ordering.NameLe(r.value[i].name, r.value[j].name)
  {
    Ok(200, FindAll(t))
  }

  /** The `data` of a created category. */
  datatype CreatedCategory = CreatedCategory(categoryId: int, name: string, description: Option<string>)

  /** `createCategory`: a missing name is refused, a taken name is refused with
      400, otherwise the row is inserted and its id returned (with status 200:
      the handler answers with `res.json`). */
  method CreateCategory(db: Database, name: Option<string>, description: Option<string>)
    returns (r: Reply<CreatedCategory>)
    requires db.Valid()
    modifies db
    ensures db.Valid()
    ensures !Given(name) ==> r == Err(400, "Category name is required") && db.t == old(db.t)
    ensures Given(name) && NameTaken(old(db.t.categories), name.value) ==>
      r == Err(400, "Category name already exists") && db.t == old(db.t)
    ensures Given(name) && !NameTaken(old(db.t.categories), name.value) ==>
      var id := old(db.t.lastCategory) + 1;
      r == Ok(200, CreatedCategory(id, name.value, description)) &&
      id !in old(db.t.categories) &&
      db.t == old(db.t).(categories := old(db.t.categories)[id := Category(name.value, description)], lastCategory := id) &&
      |db.t.categories| == |old(db.t.categories)| + 1
  {
    if !Given(name) {
      return Err(400, "Category name is required");
    }
    var outcome := db.InsertCategory(name, description);
    if outcome.Failed? {
      if outcome.kind == Unique {
        return Err(400, "Category name already exists");
      }
      return Err(500, "Failed to create category");
    }
    r := Ok(200, CreatedCategory(outcome.n, name.value, description));
  }
}
