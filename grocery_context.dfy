/**
 * The grocery-list state container: the ordered item list and the list
 * title, the four operations on them, and the load/save contract with the
 * session-scoped storage slot under the key "groceryData".
 */
module GroceryContext {
  import opened Wrappers
  import opened GroceryTypes
  import JsArray

  const DefaultTitle: string := "मेरी ग्रोसरी लिस्ट"
  const StorageKey: string := "groceryData"

  /** The two pieces of provider state. */
  datatype ListState = ListState(items: seq<GroceryItem>, title: string)

  /** The state before anything is restored: no items and the default title. */
  function Initial(): (s: ListState)
    ensures s.items == [] && s.title == DefaultTitle
  {
    ListState([], DefaultTitle)
  }

  // ---------------------------------------------------------------------------
  // The stored text, seen through JSON.parse

  /** What reading `parsed.items` yields: an array (whose elements are taken as items) or anything else. */
  datatype ItemsField = ItemArray(elements: seq<GroceryItem>) | NotAnArray

  /** What reading `parsed.title` yields: a string or anything else. */
  datatype TitleField = TitleString(text: string) | NotAString

  /**
   * The outcome of `JSON.parse` followed by the two field reads: either it
   * throws (malformed text, or a `null` document whose fields cannot be read),
   * or it yields the two fields.
   */
  datatype Parsed = Unreadable | Record(items: ItemsField, title: TitleField)

  /** A stored string: the empty string (falsy, so never parsed) or a text to parse. */
  datatype SlotText = Blank | Json(parsed: Parsed)

  /** `JSON.stringify({ items, title })`, seen through JSON.parse. */
  function Serialized(s: ListState): SlotText
  {
    Json(Record(ItemArray(s.items), TitleString(s.title)))
  }

  /** The state after the load effect has run on `s` with the slot contents `saved`. */
  function Restored(s: ListState, saved: Option<SlotText>): ListState
  {
    match saved
    case None => s
    case Some(Blank) => s
    case Some(Json(Unreadable)) => s
    case Some(Json(Record(itemsField, titleField))) =>
      ListState(
        if itemsField.ItemArray? then itemsField.elements else s.items,
        if titleField.TitleString? then titleField.text else s.title)
  }

  /** Saving and then loading, into any store, gives back exactly the saved title and items, ids included. */
  lemma SaveLoadRoundTrip(base: ListState, s: ListState)
    ensures Restored(base, Some(Serialized(s))) == s
  {
  }

  /** A missing slot, an empty string or text JSON.parse rejects leaves the state as it was. */
  lemma RestoreUnreadableKeepsState(s: ListState, saved: Option<SlotText>)
    requires saved == None || saved == Some(Blank) || saved == Some(Json(Unreadable))
    ensures Restored(s, saved) == s
  {
  }

  /**
   * A field is adopted only when it has the right shape, and each field is
   * decided on its own: the items never depend on the stored title field or
   * the current title, and the other way round.
   */
  lemma RestoreAdoptsOnlyWellShapedFields(s: ListState, saved: Option<SlotText>)
    ensures Restored(s, saved).items != s.items ==>
              saved.Some? && saved.value.Json? && saved.value.parsed.Record?
              && saved.value.parsed.items.ItemArray?
              && Restored(s, saved).items == saved.value.parsed.items.elements
    ensures Restored(s, saved).title != s.title ==>
              saved.Some? && saved.value.Json? && saved.value.parsed.Record?
              && saved.value.parsed.title.TitleString?
              && Restored(s, saved).title == saved.value.parsed.title.text
  {
  }

  lemma RestoreFieldsIndependent(s: ListState, s': ListState, i: ItemsField, t: TitleField, t': TitleField)
    ensures s.items == s'.items ==>
              Restored(s, Some(Json(Record(i, t)))).items == Restored(s', Some(Json(Record(i, t')))).items
    ensures Restored(s, Some(Json(Record(i, t)))).title == Restored(ListState([], s.title), Some(Json(Record(NotAnArray, t)))).title
  {
  }

  // ---------------------------------------------------------------------------
  // removeItem: `prev.filter((item) => item.id !== id)`

  function IdDiffers(id: string): GroceryItem -> bool
  {
    (item: GroceryItem) => item.id != id
  }

  function WithoutId(items: seq<GroceryItem>, id: string): seq<GroceryItem>
  {
    JsArray.Filter(items, IdDiffers(id))
  }

  /**
   * Removal keeps exactly the items whose id differs, each as often as it
   * occurred, in their original relative order; every item with that id goes,
   * not only the first.
   */
  lemma RemoveKeepsExactlyOtherIds(items: seq<GroceryItem>, id: string)
    ensures forall i :: 0 <= i < |WithoutId(items, id)| ==> WithoutId(items, id)[i].id != id
    ensures JsArray.IsSubsequence(WithoutId(items, id), items)
    ensures forall x :: multiset(WithoutId(items, id))[x] == if x.id != id then multiset(items)[x] else 0
  {
    JsArray.FilterIsSubsequence(items, IdDiffers(id));
    JsArray.FilterCount(items, IdDiffers(id));
  }

  /** Removing an id no item carries leaves the list identical. */
  lemma RemoveAbsentIsIdentity(items: seq<GroceryItem>, id: string)
    requires forall i :: 0 <= i < |items| ==> items[i].id != id
    ensures WithoutId(items, id) == items
  {
    JsArray.FilterKeepsAll(items, IdDiffers(id));
  }

  /** Removing an id that some item carries makes the list strictly shorter. */
  lemma RemovePresentShrinks(items: seq<GroceryItem>, id: string)
    requires exists i :: 0 <= i < |items| && items[i].id == id
    ensures |WithoutId(items, id)| < |items|
  {
    var i :| 0 <= i < |items| && items[i].id == id;
    assert !IdDiffers(id)(items[i]);
    JsArray.FilterDropsSome(items, IdDiffers(id));
  }

  /** Removing the same id twice is removing it once. */
  lemma RemoveIdempotent(items: seq<GroceryItem>, id: string)
    ensures WithoutId(WithoutId(items, id), id) == WithoutId(items, id)
  {
    JsArray.FilterIdempotent(items, IdDiffers(id));
  }

  // ---------------------------------------------------------------------------
  // Unique ids. The store never checks them; they hold as long as every id
  // handed to addItem is fresh.

  ghost predicate UniqueIds(items: seq<GroceryItem>)
  {
    forall i, j :: 0 <= i < j < |items| ==> items[i].id != items[j].id
  }

  /** Appending an item whose id is new keeps the ids unique. */
  lemma AddFreshIdKeepsIdsUnique(items: seq<GroceryItem>, id: string, item: NewItem)
    requires UniqueIds(items)
    requires forall i :: 0 <= i < |items| ==> items[i].id != id
    ensures UniqueIds(items + [WithId(id, item)])
  {
  }

  /** Removal keeps the ids unique. */
  lemma {:induction false} RemoveKeepsIdsUnique(items: seq<GroceryItem>, id: string)
    requires UniqueIds(items)
    ensures UniqueIds(WithoutId(items, id))
  {
    FilterKeepsIdsUnique(items, IdDiffers(id));
  }

  lemma {:induction false} FilterKeepsIdsUnique(s: seq<GroceryItem>, p: GroceryItem -> bool)
    requires UniqueIds(s)
    ensures UniqueIds(JsArray.Filter(s, p))
  {
    if s != [] {
      var t := s[1..];
      assert UniqueIds(t) by {
        forall i, j | 0 <= i < j < |t| ensures t[i].id != t[j].id {
          assert t[i] == s[i + 1] && t[j] == s[j + 1];
        }
      }
      FilterKeepsIdsUnique(t, p);
      if p(s[0]) {
        var rt := JsArray.Filter(t, p);
        JsArray.FilterCount(t, p);
        forall k | 0 <= k < |rt| ensures rt[k].id != s[0].id {
          assert rt[k] in multiset(rt);
          assert rt[k] in t;
          var m :| 0 <= m < |t| && t[m] == rt[k];
          assert t[m] == s[m + 1];
        }
        var r := JsArray.Filter(s, p);
        assert r == [s[0]] + rt;
        forall i, j | 0 <= i < j < |r| ensures r[i].id != r[j].id {
          if i == 0 {
            assert r[j] == rt[j - 1];
          } else {
            assert r[i] == rt[i - 1] && r[j] == rt[j - 1];
          }
        }
      }
    }
  }

  // ---------------------------------------------------------------------------
  // The session-scoped storage and the provider

  /** `sessionStorage`: string keys, each holding one stored text. */
  class SessionStorage {
    var entries: map<string, SlotText>

    constructor (entries: map<string, SlotText>)
      ensures this.entries == entries
    {
      this.entries := entries;
    }

    /** `getItem`: `null` (here None) when the key has no entry. */
    function GetItem(key: string): (r: Option<SlotText>)
      reads this
      ensures r.Some? <==> key in entries
      ensures r.Some? ==> r.value == entries[key]
    {
      if key in entries then Some(entries[key]) else None
    }

    /** `setItem`: overwrites the key's entry and touches no other key. */
    method SetItem(key: string, value: SlotText)
      modifies this
      ensures entries == old(entries)[key := value]
    {
      entries := entries[key := value];
    }
  }

  /** The provider's state and its operations. */
  class GroceryStore {
    var items: seq<GroceryItem>
    var title: string

    function State(): ListState
      reads this
    {
      ListState(items, title)
    }

    /** The slot holds the serialized current state. */
    predicate InSync(storage: SessionStorage)
      reads this, storage
    {
      storage.GetItem(StorageKey) == Some(Serialized(State()))
    }

    constructor ()
      ensures State() == Initial()
    {
      items := [];
      title := DefaultTitle;
    }

    /**
     * The load effect: read the slot, and when it holds a non-empty text
     * that parses, adopt `items` if it is an array and `title` if it is a
     * string. Failures are caught and leave the state as it was.
     */
    method Load(storage: SessionStorage)
      modifies this
      ensures State() == Restored(old(State()), storage.GetItem(StorageKey))
    {
      var saved := storage.GetItem(StorageKey);
      if saved.Some? && saved.value.Json? {
        match saved.value.parsed
        case Unreadable =>
        case Record(itemsField, titleField) =>
          if itemsField.ItemArray? {
            items := itemsField.elements;
          }
          if titleField.TitleString? {
            title := titleField.text;
          }
      }
    }

    /** The save effect: overwrite the slot with `{ items, title }`, leaving every other key alone. */
    method Save(storage: SessionStorage)
      modifies storage
      ensures storage.entries == old(storage.entries)[StorageKey := Serialized(State())]
      ensures InSync(storage)
    {
      storage.SetItem(StorageKey, Serialized(State()));
    }

    /** `addItem`: the new item, carrying the caller's id, goes last. */
    method AddItem(item: NewItem, id: string)
      modifies this
      ensures items == old(items) + [WithId(id, item)]
      ensures title == old(title)
    {
      items := items + [WithId(id, item)];
    }

    /** `removeItem`: drop every item with that id. */
    method RemoveItem(id: string)
      modifies this
      ensures items == WithoutId(old(items), id)
      ensures title == old(title)
    {
      items := WithoutId(items, id);
    }

    /** `clearItems`. */
    method ClearItems()
      modifies this
      ensures items == []
      ensures title == old(title)
    {
      items := [];
    }

    /** `updateTitle`: the new title verbatim, empty allowed. */
    method UpdateTitle(newTitle: string)
      modifies this
      ensures title == newTitle
      ensures items == old(items)
    {
      title := newTitle;
    }
  }

  /** A store saved to the slot and a fresh store loaded from it agree on title and items. */
  method Reload(store: GroceryStore, storage: SessionStorage) returns (restored: GroceryStore)
    requires store.InSync(storage)
    ensures fresh(restored)
    ensures restored.State() == store.State()
  {
    restored := new GroceryStore();
    restored.Load(storage);
    SaveLoadRoundTrip(Initial(), store.State());
  }

  /** Two additions, a save, a reload and a removal, as a client sees them. */
  method SessionScenario(a: NewItem, b: NewItem, idA: string, idB: string)
    requires idA != idB
  {
    var storage := new SessionStorage(map[]);
    var store := new GroceryStore();
    store.Load(storage);
    assert store.State() == Initial();
    store.AddItem(a, idA);
    store.AddItem(b, idB);
    store.UpdateTitle("Weekly Run");
    store.Save(storage);
    var again := Reload(store, storage);
    assert again.items == [WithId(idA, a), WithId(idB, b)];
    assert again.title == "Weekly Run";
    ghost var before := again.items;
    again.RemoveItem(idA);
    assert JsArray.Filter(before[1..], IdDiffers(idA)) == [WithId(idB, b)] + JsArray.Filter([], IdDiffers(idA));
    assert again.items == [WithId(idB, b)];
    again.ClearItems();
    assert again.items == [] && again.title == "Weekly Run";
  }
}
