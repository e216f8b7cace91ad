/** The front end's `DraftService`: each signed-in user's event drafts, newest
    first, kept in `localStorage` under `eventDrafts_<userId>`. The stored
    lists are held already parsed; the clock readings are parameters. */
module DraftService {
  import opened Common

  const StoragePrefix := "eventDrafts_"
  const Anonymous := "anonymous"
  /** Thirty days in milliseconds. */
  const ThirtyDays := 30 * 24 * 60 * 60 * 1000

  /** A stored draft: the form's fields with `id`, `userId` and `savedAt`
      written over them; `savedAt` is a time in milliseconds. */
  datatype Draft = Draft(fields: map<string, JsValue>, id: int, userId: string, savedAt: int)

  function StorageKey(userId: string): (r: string)
    ensures |r| == |StoragePrefix| + |userId|
    ensures r[..|StoragePrefix|] == StoragePrefix && r[|StoragePrefix|..] == userId
  {
    StoragePrefix + userId
  }

  /** Different users never share a key. */
  lemma StorageKeysDistinct(a: string, b: string)
    requires a != b
    ensures StorageKey(a) != StorageKey(b)
  {
    assert StorageKey(a)[|StoragePrefix|..] == a;
    assert StorageKey(b)[|StoragePrefix|..] == b;
  }

  /** `drafts.filter(d => d.id !== id)`. */
  function WithoutId(ds: seq<Draft>, id: int): (r: seq<Draft>)
    ensures forall d :: d in r <==> d in ds && d.id != id
    ensures IsSubsequence(r, ds)
  {
    if ds == [] then []
    else if ds[0].id != id then [ds[0]] + WithoutId(ds[1..], id)
    else
      var rest := WithoutId(ds[1..], id);
      assert rest == [] || IsSubsequence(rest, ds[1..]);
      rest
  }

  /** `drafts.filter(d => new Date(d.savedAt) > cutoff)`. */
  function SavedAfter(ds: seq<Draft>, cutoff: int): (r: seq<Draft>)
    ensures forall d :: d in r <==> d in ds && d.savedAt > cutoff
    ensures IsSubsequence(r, ds)
  {
    if ds == [] then []
    else if ds[0].savedAt > cutoff then [ds[0]] + SavedAfter(ds[1..], cutoff)
    else
      var rest := SavedAfter(ds[1..], cutoff);
      assert rest == [] || IsSubsequence(rest, ds[1..]);
      rest
  }

  class DraftStore {
    /** `localStorage.getItem('userId')`. */
    var userIdItem: Option<string>
    /** The draft lists `localStorage` holds, by key. */
    var storage: map<string, seq<Draft>>

    constructor(userIdItem: Option<string>, storage: map<string, seq<Draft>>)
      ensures this.userIdItem == userIdItem && this.storage == storage
    {
      this.userIdItem := userIdItem;
      this.storage := storage;
    }

    /** `getCurrentUserId()`: the stored id, or `anonymous` when there is none
        or it is empty. */
    function CurrentUserId(): (r: string)
      reads this
      ensures (userIdItem.None? || userIdItem.value == "") ==> r == Anonymous
      ensures userIdItem.Some? && userIdItem.value != "" ==> r == userIdItem.value
    {
      if userIdItem.None? || userIdItem.value == "" then Anonymous else userIdItem.value
    }

    function CurrentKey(): string
      reads this
    {
      StorageKey(CurrentUserId())
    }

    /** `getDrafts()`: nothing for an anonymous user, otherwise the list stored
        under the user's key, or nothing. */
    function GetDrafts(): (r: seq<Draft>)
      reads this
      ensures CurrentUserId() == Anonymous ==> r == []
      ensures CurrentUserId() != Anonymous ==> r == (if CurrentKey() in storage then storage[CurrentKey()] else [])
    {
      if CurrentUserId() == Anonymous then []
      else if CurrentKey() in storage then storage[CurrentKey()]
      else []
    }

    /** `saveDraft(draftData)`: an anonymous user gets an error and nothing is
        stored; otherwise the new draft, with `id` and `savedAt` from the clock
        and the user's id, goes in front of the user's drafts. */
    method SaveDraft(fields: map<string, JsValue>, now: int, savedAt: int) returns (r: Option<Draft>)
      modifies this
      ensures userIdItem == old(userIdItem)
      ensures old(CurrentUserId()) == Anonymous ==> r.None? && storage == old(storage)
      ensures old(CurrentUserId()) != Anonymous ==>
        r == Some(Draft(fields - {"id", "userId", "savedAt"}, now, old(CurrentUserId()), savedAt)) &&
        storage == old(storage)[old(CurrentKey()) := [r.value] + old(GetDrafts())]
      ensures old(CurrentUserId()) != Anonymous ==> |GetDrafts()| == |old(GetDrafts())| + 1 && GetDrafts()[1..] == old(GetDrafts())
    {
      var userId := CurrentUserId();
      if userId == Anonymous {
        return None;
      }
      var draft := Draft(fields - {"id", "userId", "savedAt"}, now, userId, savedAt);
      var drafts := GetDrafts();
      drafts := [draft] + drafts;
      SaveToStorage(drafts);
      r := Some(draft);
    }

    /** `deleteDraft(draftId)`: every draft with that id goes, the rest stay in
        order. For an anonymous user an empty list is written. */
    method DeleteDraft(id: int)
      modifies this
      ensures userIdItem == old(userIdItem)
      ensures storage == old(storage)[old(CurrentKey()) := WithoutId(old(GetDrafts()), id)]
    {
      var drafts := WithoutId(GetDrafts(), id);
      SaveToStorage(drafts);
    }

    /** `clearAllDrafts()`: the user's key is removed. */
    method ClearAllDrafts()
      modifies this
      ensures userIdItem == old(userIdItem)
      ensures storage == old(storage) - {old(CurrentKey())}
      ensures GetDrafts() == []
    {
      storage := storage - {CurrentKey()};
    }

    /** `cleanupOldDrafts()`: the drafts saved strictly after thirty days before
        `now` stay, in order. */
    method CleanupOldDrafts(now: int)
      modifies this
      ensures userIdItem == old(userIdItem)
      ensures storage == old(storage)[old(CurrentKey()) := SavedAfter(old(GetDrafts()), now - ThirtyDays)]
    {
      var drafts := SavedAfter(GetDrafts(), now - ThirtyDays);
      SaveToStorage(drafts);
    }

    /** `saveToStorage(drafts)`: the list is written under the user's key. */
    method SaveToStorage(drafts: seq<Draft>)
      modifies this
      ensures userIdItem == old(userIdItem)
      ensures storage == old(storage)[old(CurrentKey()) := drafts]
    {
      storage := storage[CurrentKey() := drafts];
    }
  }
}
