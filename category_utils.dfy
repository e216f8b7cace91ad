/** `CategoryUtils`: checks and reshaping of category data that arrives from a
    request or a query, where the values are untyped JavaScript values. */
module CategoryUtils {
  import opened Common
  import opened Database

  /** The number value of an integer. */
  function IntValue(n: int): JsValue
  {
    JsNumber(n as real)
  }

  /** `Number.isInteger(v) && v > 0`: `v` is the number of a positive integer. */
  predicate IsPositiveInteger(v: JsValue): (r: bool)
    ensures r <==> exists n: int :: n > 0 && v == IntValue(n)
  {
    var r := v.JsNumber? && v.n.Floor as real == v.n && v.n > 0.0;
    assert r ==> v == IntValue(v.n.Floor);
    r
  }

  /** `ids.every(...)`, scanning from the front. */
  function AllPositiveIntegers(ids: seq<JsValue>): (r: bool)
    ensures r <==> forall i :: 0 <= i < |ids| ==> IsPositiveInteger(ids[i])
  {
    if ids == [] then true
    else
      var rest := AllPositiveIntegers(ids[1..]);
      assert forall i :: 1 <= i < |ids| ==> ids[i] == ids[1..][i - 1];
      IsPositiveInteger(ids[0]) && rest
  }

  /** `validateCategoryIds(ids)`; `None` stands for a value that is not an array. */
  function ValidateCategoryIds(ids: Option<seq<JsValue>>): (r: bool)
    ensures ids.None? ==> !r
    ensures ids == Some([]) ==> r
    ensures ids.Some? ==> (r <==> forall i :: 0 <= i < |ids.value| ==> IsPositiveInteger(ids.value[i]))
  {
    ids.Some? && AllPositiveIntegers(ids.value)
  }

  /** An element of the array `formatCategoriesForDisplay` is given. */
  datatype CategoryRecord = CategoryRecord(id: JsValue, categoryId: JsValue, name: JsValue, description: JsValue)

  datatype DisplayCategory = DisplayCategory(id: JsValue, name: JsValue, description: JsValue)

  /** `cat.id || cat.category_id`. */
  function DisplayId(c: CategoryRecord): (r: JsValue)
    ensures Truthy(c.id) ==> r == c.id
    ensures !Truthy(c.id) ==> r == c.categoryId
    ensures Truthy(r) <==> Truthy(c.id) || Truthy(c.categoryId)
  {
    if Truthy(c.id) then c.id else c.categoryId
  }

  function FormatAll(cats: seq<CategoryRecord>): (r: seq<DisplayCategory>)
    ensures |r| == |cats|
    ensures forall i :: 0 <= i < |cats| ==>
      r[i].id == DisplayId(cats[i]) && r[i].name == cats[i].name && r[i].description == cats[i].description
  {
    if cats == [] then []
    else
      var c := cats[0];
      [DisplayCategory(DisplayId(c), c.name, c.description)] + FormatAll(cats[1..])
  }

  /** `formatCategoriesForDisplay(categories)`: `[]` for a value that is not an
      array, otherwise one display record per element, in order. */
  function FormatCategoriesForDisplay(cats: Option<seq<CategoryRecord>>): (r: seq<DisplayCategory>)
    ensures cats.None? ==> r == []
    ensures cats.Some? ==> |r| == |cats.value|
    ensures cats.Some? ==> forall i :: 0 <= i < |r| ==>
      r[i].id == (if Truthy(cats.value[i].id) then cats.value[i].id else cats.value[i].categoryId) &&
      r[i].name == cats.value[i].name && r[i].description == cats.value[i].description
  {
    if cats.None? then [] else FormatAll(cats.value)
  }

  // ---------------------------------------------------------------------
  // checkCategoriesExist

  function SetOf(s: seq<int>): (r: set<int>)
    ensures forall x :: x in r <==> x in s
  {
    set x | x in s
  }

  /** `SELECT COUNT(*) FROM categories WHERE category_id IN (ids)`: a category is
      counted once however often its id is listed. */
  function CountExisting(t: Tables, ids: seq<int>): (r: nat)
    ensures r <= |SetOf(ids)|
    ensures (forall c :: c in ids ==> c !in t.categories) ==> r == 0
  {
    var found := set c | c in ids && c in t.categories;
    assert found <= SetOf(ids);
    assert |SetOf(ids) - found| == |SetOf(ids)| - |found|;
    assert (forall c :: c in ids ==> c !in t.categories) ==> found == {};
    |found|
  }

  /** `checkCategoriesExist(ids)`: true for an absent or empty list, otherwise
      whether the count equals the list length. */
  function CheckCategoriesExist(t: Tables, ids: Option<seq<int>>): (r: bool)
    ensures (ids.None? || ids.value == []) ==> r
  {
    ids.None? || ids.value == [] || CountExisting(t, ids.value) == |ids.value|
  }

  /** A list has as many distinct elements as entries exactly when no entry repeats. */
  lemma {:induction false} SetOfSize(s: seq<int>)
    ensures |SetOf(s)| <= |s|
    ensures |SetOf(s)| == |s| <==> Distinct(s)
  {
    if s != [] {
      var rest := s[1..];
      SetOfSize(rest);
      assert SetOf(s) == {s[0]} + SetOf(rest);
      if s[0] in SetOf(rest) {
        assert SetOf(s) == SetOf(rest);
        var j :| 0 <= j < |rest| && rest[j] == s[0];
        assert s[j + 1] == s[0];
      } else {
        assert Distinct(rest) ==> Distinct(s) by {
          if Distinct(rest) {
            forall i, j | 0 <= i < j < |s| ensures s[i] != s[j] {
              if i > 0 {
                assert s[i] == rest[i - 1] && s[j] == rest[j - 1];
              } else {
                assert s[j] == rest[j - 1];
              }
            }
          }
        }
        assert Distinct(s) ==> Distinct(rest) by {
          if Distinct(s) {
            forall i, j | 0 <= i < j < |rest| ensures rest[i] != rest[j] {
              assert rest[i] == s[i + 1] && rest[j] == s[j + 1];
            }
          }
        }
      }
    }
  }

  lemma SubsetOfSameSize(a: set<int>, b: set<int>)
    requires a <= b && |a| == |b|
    ensures a == b
  {
    assert |b - a| == |b| - |a|;
  }

  /** A non-empty list passes `checkCategoriesExist` exactly when its ids are
      distinct and every one of them names a stored category. */
  lemma {:induction false} CheckExistIffDistinctAndStored(t: Tables, ids: seq<int>)
    requires ids != []
    ensures CheckCategoriesExist(t, Some(ids)) <==>
      Distinct(ids) && forall i :: 0 <= i < |ids| ==> ids[i] in t.categories
  {
    var found := set c | c in ids && c in t.categories;
    SetOfSize(ids);
    assert found <= SetOf(ids);
    if CheckCategoriesExist(t, Some(ids)) {
      assert |found| <= |SetOf(ids)| by {
        assert |SetOf(ids) - found| == |SetOf(ids)| - |found|;
      }
      SubsetOfSameSize(found, SetOf(ids));
      assert forall i :: 0 <= i < |ids| ==> ids[i] in found;
    }
    if Distinct(ids) && forall i :: 0 <= i < |ids| ==> ids[i] in t.categories {
      assert found == SetOf(ids);
    }
  }

  /** A list that names some category twice fails the existence test. */
  lemma DuplicateFails(t: Tables, ids: seq<int>, i: int, j: int)
    requires 0 <= i < j < |ids| && ids[i] == ids[j]
    ensures !CheckCategoriesExist(t, Some(ids))
  {
    CheckExistIffDistinctAndStored(t, ids);
  }
}
