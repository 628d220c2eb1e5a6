/**
 * The persistence store of the habit tracker (src/utils/storage.js). Every operation
 * loads the whole document from the browser's storage slot, changes it, and saves it
 * back; the browser storage is the `slot` field of a LocalStore.
 */
module Storage {
  import opened Wrappers
  import opened Gregorian
  import opened Models

  /** The one storage key the document lives under. */
  const STORAGE_KEY: string := "habbits-data"

  /** The persisted document: both collections, in order. */
  datatype Document = Document(habits: seq<Item>, tasks: seq<Item>)

  const EmptyDocument: Document := Document([], [])

  /**
   * What the browser holds under STORAGE_KEY. `Saved` is text that JSON.parse accepts,
   * seen through its two fields; a field that is missing or falsy (null, false, 0, "") is None.
   */
  datatype Stored =
    | Absent       // getItem gives null or the empty string
    | Unreadable   // JSON.parse throws, or the text is "null" and reading a field throws
    | Saved(habitsField: Option<seq<Item>>, tasksField: Option<seq<Item>>)

  /** The document loadData hands back: nothing stored or unreadable text gives the empty document. */
  function Loaded(s: Stored): Document
  {
    match s
    case Absent => EmptyDocument
    case Unreadable => EmptyDocument
    case Saved(h, t) => Document(h.GetOr([]), t.GetOr([]))
  }

  /** The text saveData writes: both fields present. */
  function Written(doc: Document): Stored
  {
    Saved(Some(doc.habits), Some(doc.tasks))
  }

  /** The slot after saveData of `doc`: the new text, or the old one when setItem throws (the error is swallowed). */
  function AfterSave(writable: bool, before: Stored, doc: Document): Stored
  {
    if writable then Written(doc) else before
  }

  // ---------------------------------------------------------------- collections

  /** The collection of kind `kind`: "habit" picks the habits, every other kind the tasks. */
  function Selected(doc: Document, kind: string): seq<Item>
  {
    if kind == HABIT then doc.habits else doc.tasks
  }

  /** The collection that an operation on kind `kind` does not touch. */
  function Other(doc: Document, kind: string): seq<Item>
  {
    if kind == HABIT then doc.tasks else doc.habits
  }

  /** `doc` with the collection of kind `kind` replaced by `items`. */
  function WithSelected(doc: Document, kind: string, items: seq<Item>): (r: Document)
    ensures Selected(r, kind) == items && Other(r, kind) == Other(doc, kind)
  {
    if kind == HABIT then doc.(habits := items) else doc.(tasks := items)
  }

  /** `Array.prototype.findIndex` by id: the first position holding `id`, or -1. */
  function FindIndex(items: seq<Item>, id: string): (i: int)
    ensures -1 <= i < |items|
    ensures i == -1 <==> forall j :: 0 <= j < |items| ==> items[j].id != id
    ensures i >= 0 ==> items[i].id == id && forall j :: 0 <= j < i ==> items[j].id != id
  {
    if items == [] then -1
    else if items[0].id == id then 0
    else
      var i := FindIndex(items[1..], id);
      if i == -1 then -1 else i + 1
  }

  /** `items.filter(x => x.id !== id)`: the items with another id, in their order. */
  function WithoutId(items: seq<Item>, id: string): (r: seq<Item>)
    ensures |r| <= |items|
    ensures forall x :: x in r <==> x in items && x.id != id
  {
    if items == [] then []
    else if items[0].id == id then WithoutId(items[1..], id)
    else [items[0]] + WithoutId(items[1..], id)
  }

  /** The document after addItem: `item` appended to the collection of its kind. */
  function Added(doc: Document, item: Item): Document
  {
    WithSelected(doc, item.kind, Selected(doc, item.kind) + [item])
  }

  /** The document after updateItem, or None when no item of that id is in its collection (nothing is saved). */
  function Updated(doc: Document, item: Item): Option<Document>
  {
    var items := Selected(doc, item.kind);
    var i := FindIndex(items, item.id);
    if i == -1 then None else Some(WithSelected(doc, item.kind, items[i := item]))
  }

  /** The document after deleteItem: every item with that id filtered out of the collection of `kind`. */
  function Deleted(doc: Document, id: string, kind: string): Document
  {
    WithSelected(doc, kind, WithoutId(Selected(doc, kind), id))
  }

  /** The slot after updateItem: untouched when the id is absent, otherwise saved. */
  function AfterUpdate(writable: bool, before: Stored, item: Item): Stored
  {
    match Updated(Loaded(before), item)
    case None => before
    case Some(doc) => AfterSave(writable, before, doc)
  }

  // ---------------------------------------------------------------- completed dates

  /** `dates.filter(d => d !== key)`: every occurrence of `key` removed, the rest in order. */
  function WithoutKey(dates: seq<string>, key: string): (r: seq<string>)
    ensures |r| <= |dates|
    ensures forall x :: x in r <==> x in dates && x != key
  {
    if dates == [] then []
    else if dates[0] == key then WithoutKey(dates[1..], key)
    else [dates[0]] + WithoutKey(dates[1..], key)
  }

  /** The completed dates after toggling `key`: all occurrences removed if present, else appended once. */
  function Toggled(dates: seq<string>, key: string): seq<string>
  {
    if key in dates then WithoutKey(dates, key) else dates + [key]
  }

  predicate NoDuplicates<T(==)>(s: seq<T>)
  {
    forall i, j :: 0 <= i < j < |s| ==> s[i] != s[j]
  }

  // ---------------------------------------------------------------- lemmas

  /** Reading back what was saved gives the saved document. */
  lemma LoadWritten(doc: Document)
    ensures Loaded(Written(doc)) == doc
  {
  }

  /** Fail-open reading: no text, unreadable text, and missing or falsy fields all read as empty collections. */
  lemma LoadFailOpen(s: Stored)
    ensures s.Absent? || s.Unreadable? ==> Loaded(s) == EmptyDocument
    ensures s.Saved? && s.habitsField.None? ==> Loaded(s).habits == []
    ensures s.Saved? && s.tasksField.None? ==> Loaded(s).tasks == []
    ensures s.Saved? && s.habitsField.Some? ==> Loaded(s).habits == s.habitsField.value
    ensures s.Saved? && s.tasksField.Some? ==> Loaded(s).tasks == s.tasksField.value
  {
  }

  /** addItem appends to the end of the collection of the item's kind and leaves the other one alone. */
  lemma AddedAppends(doc: Document, item: Item)
    ensures Selected(Added(doc, item), item.kind) == Selected(doc, item.kind) + [item]
    ensures Other(Added(doc, item), item.kind) == Other(doc, item.kind)
    ensures item.kind == HABIT ==> Added(doc, item).tasks == doc.tasks
    ensures item.kind != HABIT ==> Added(doc, item).habits == doc.habits
  {
  }

  /** updateItem finds nothing exactly when no item of the collection has the id. */
  lemma UpdatedMissing(doc: Document, item: Item)
    ensures Updated(doc, item).None? <==> forall x :: x in Selected(doc, item.kind) ==> x.id != item.id
  {
    var items := Selected(doc, item.kind);
    if Updated(doc, item).Some? {
      var i := FindIndex(items, item.id);
      assert items[i] in items;
    }
  }

  /**
   * updateItem replaces the first item with the id and nothing else: same length, every
   * other position as it was, the other collection untouched.
   */
  lemma UpdatedReplacesFirst(doc: Document, item: Item)
    requires Updated(doc, item).Some?
    ensures var before, after := Selected(doc, item.kind), Selected(Updated(doc, item).value, item.kind);
      exists i :: 0 <= i < |before|
        && before[i].id == item.id && (forall j :: 0 <= j < i ==> before[j].id != item.id)
        && |after| == |before| && after[i] == item
        && (forall j :: 0 <= j < |before| && j != i ==> after[j] == before[j])
    ensures Other(Updated(doc, item).value, item.kind) == Other(doc, item.kind)
  {
    var i := FindIndex(Selected(doc, item.kind), item.id);
    assert 0 <= i;
  }

  /** Filtering distributes over concatenation: the kept items stay in their order. */
  lemma {:induction false} WithoutIdConcat(a: seq<Item>, b: seq<Item>, id: string)
    ensures WithoutId(a + b, id) == WithoutId(a, id) + WithoutId(b, id)
  {
    if a != [] {
      assert (a + b)[1..] == a[1..] + b;
      WithoutIdConcat(a[1..], b, id);
    } else {
      assert a + b == b;
    }
  }

  /** Filtering out an id that no item has changes nothing. */
  lemma {:induction false} WithoutIdAbsent(items: seq<Item>, id: string)
    requires forall x :: x in items ==> x.id != id
    ensures WithoutId(items, id) == items
  {
    if items != [] {
      assert items[0] in items;
      WithoutIdAbsent(items[1..], id);
      assert items == [items[0]] + items[1..];
    }
  }

  /** deleteItem filters the collection of its kind and leaves the other one alone. */
  lemma DeletedFilters(doc: Document, id: string, kind: string)
    ensures Selected(Deleted(doc, id, kind), kind) == WithoutId(Selected(doc, kind), id)
    ensures Other(Deleted(doc, id, kind), kind) == Other(doc, kind)
    ensures forall x :: x in Selected(Deleted(doc, id, kind), kind) ==> x.id != id
  {
  }

  /** deleteItem with an id that is not there gives back the same document. */
  lemma DeletedAbsent(doc: Document, id: string, kind: string)
    requires forall x :: x in Selected(doc, kind) ==> x.id != id
    ensures Deleted(doc, id, kind) == doc
  {
    WithoutIdAbsent(Selected(doc, kind), id);
  }

  /** updateItem with an id that is absent from the collection leaves the slot exactly as it was. */
  lemma UpdateAbsentKeepsSlot(writable: bool, before: Stored, item: Item)
    requires forall x :: x in Selected(Loaded(before), item.kind) ==> x.id != item.id
    ensures AfterUpdate(writable, before, item) == before
  {
    UpdatedMissing(Loaded(before), item);
  }

  /**
   * deleteItem with an absent id reads back as the same two collections (the slot itself
   * is rewritten, so unreadable text is replaced by the empty document).
   */
  lemma DeleteAbsentKeepsCollections(writable: bool, before: Stored, id: string, kind: string)
    requires forall x :: x in Selected(Loaded(before), kind) ==> x.id != id
    ensures Loaded(AfterSave(writable, before, Deleted(Loaded(before), id, kind))) == Loaded(before)
  {
    DeletedAbsent(Loaded(before), id, kind);
  }

  /** Removing a key distributes over concatenation: the kept keys stay in their order. */
  lemma {:induction false} WithoutKeyConcat(a: seq<string>, b: seq<string>, key: string)
    ensures WithoutKey(a + b, key) == WithoutKey(a, key) + WithoutKey(b, key)
  {
    if a != [] {
      assert (a + b)[1..] == a[1..] + b;
      WithoutKeyConcat(a[1..], b, key);
    } else {
      assert a + b == b;
    }
  }

  /** Removing a key that is not there changes nothing. */
  lemma {:induction false} WithoutKeyAbsent(dates: seq<string>, key: string)
    requires key !in dates
    ensures WithoutKey(dates, key) == dates
  {
    if dates != [] {
      WithoutKeyAbsent(dates[1..], key);
      assert dates == [dates[0]] + dates[1..];
    }
  }

  /** Removing `key` from `dates + [key]` removes the appended copy and whatever was there before. */
  lemma {:induction false} WithoutKeyAppended(dates: seq<string>, key: string)
    ensures WithoutKey(dates + [key], key) == WithoutKey(dates, key)
  {
    if dates == [] {
      assert [key][1..] == [];
    } else {
      assert (dates + [key])[1..] == dates[1..] + [key];
      WithoutKeyAppended(dates[1..], key);
    }
  }

  /** Removing a key keeps a duplicate-free list duplicate-free. */
  lemma {:induction false} WithoutKeyNoDuplicates(dates: seq<string>, key: string)
    requires NoDuplicates(dates)
    ensures NoDuplicates(WithoutKey(dates, key))
  {
    if dates != [] {
      var rest := dates[1..];
      assert NoDuplicates(rest) by {
        forall i, j | 0 <= i < j < |rest| ensures rest[i] != rest[j] {
          assert rest[i] == dates[i + 1] && rest[j] == dates[j + 1];
        }
      }
      WithoutKeyNoDuplicates(rest, key);
      if dates[0] != key {
        assert dates[0] !in rest by {
          forall j | 0 <= j < |rest| ensures rest[j] != dates[0] {
            assert rest[j] == dates[j + 1];
          }
        }
        var r := WithoutKey(rest, key);
        assert dates[0] !in r;
        forall i, j | 0 <= i < j < |[dates[0]] + r| ensures ([dates[0]] + r)[i] != ([dates[0]] + r)[j] {
          if i == 0 {
            assert ([dates[0]] + r)[j] == r[j - 1];
          }
        }
      }
    }
  }

  /** Toggling flips whether `key` is completed and leaves every other key as it was. */
  lemma ToggleFlips(dates: seq<string>, key: string)
    ensures key in Toggled(dates, key) <==> key !in dates
    ensures forall x :: x != key ==> (x in Toggled(dates, key) <==> x in dates)
  {
  }

  /** Toggling the same key twice restores which keys are completed. */
  lemma ToggleTwiceSameMembers(dates: seq<string>, key: string)
    ensures forall x :: x in Toggled(Toggled(dates, key), key) <==> x in dates
  {
    ToggleFlips(dates, key);
    ToggleFlips(Toggled(dates, key), key);
  }

  /** Adding a key and then removing it restores the exact list. */
  lemma AddThenRemove(dates: seq<string>, key: string)
    requires key !in dates
    ensures Toggled(Toggled(dates, key), key) == dates
  {
    WithoutKeyAppended(dates, key);
    WithoutKeyAbsent(dates, key);
  }

  /** Removing a key and then adding it back keeps the members but moves the key to the end. */
  lemma RemoveThenAdd(dates: seq<string>, key: string)
    requires key in dates
    ensures Toggled(Toggled(dates, key), key) == WithoutKey(dates, key) + [key]
  {
  }

  /** Toggling keeps a duplicate-free list of completed dates duplicate-free. */
  lemma ToggleKeepsNoDuplicates(dates: seq<string>, key: string)
    requires NoDuplicates(dates)
    ensures NoDuplicates(Toggled(dates, key))
  {
    if key in dates {
      WithoutKeyNoDuplicates(dates, key);
    } else {
      var r := dates + [key];
      forall i, j | 0 <= i < j < |r| ensures r[i] != r[j] {
        if j == |dates| {
          assert r[i] == dates[i];
        }
      }
    }
  }

  // ---------------------------------------------------------------- objects

  /**
   * An item as a live JavaScript object: toggleCompletion changes its completedDates in
   * place, so the caller sees the change whether or not the store saved it.
   */
  class ItemObject {
    const id: string
    const name: string
    const kind: string
    const frequency: string
    var completedDates: seq<string>

    constructor (v: Item)
      ensures Value() == v
    {
      id, name, kind, frequency := v.id, v.name, v.kind, v.frequency;
      completedDates := v.completedDates;
    }

    /** The record JSON.stringify would write for this object. */
    function Value(): Item
      reads this
    {
      Item(id, name, kind, frequency, completedDates)
    }
  }

  /** The browser storage slot together with the operations of the store. */
  class LocalStore {
    /** The text under STORAGE_KEY, as far as the store can tell. */
    var slot: Stored
    /** False when setItem throws (a full quota): saveData then logs and drops the write. */
    const writable: bool

    constructor (initial: Stored, writable: bool)
      ensures slot == initial && this.writable == writable
    {
      slot := initial;
      this.writable := writable;
    }

    method LoadData() returns (doc: Document)
      ensures doc == Loaded(slot)
    {
      match slot
      case Absent =>
        doc := EmptyDocument;
      case Unreadable =>
        doc := EmptyDocument;
      case Saved(h, t) =>
        var habits := if h.Some? then h.value else [];
        var tasks := if t.Some? then t.value else [];
        doc := Document(habits, tasks);
    }

    method SaveData(habits: seq<Item>, tasks: seq<Item>)
      modifies this`slot
      ensures slot == AfterSave(writable, old(slot), Document(habits, tasks))
    {
      if writable {
        slot := Saved(Some(habits), Some(tasks));
      }
    }

    method AddItem(item: Item) returns (items: seq<Item>)
      modifies this`slot
      ensures items == Selected(Loaded(old(slot)), item.kind) + [item]
      ensures slot == AfterSave(writable, old(slot), Added(Loaded(old(slot)), item))
    {
      var doc := LoadData();
      if item.kind == HABIT {
        var habits := doc.habits + [item];
        SaveData(habits, doc.tasks);
        items := habits;
      } else {
        var tasks := doc.tasks + [item];
        SaveData(doc.habits, tasks);
        items := tasks;
      }
    }

    method UpdateItem(item: Item)
      modifies this`slot
      ensures slot == AfterUpdate(writable, old(slot), item)
    {
      var doc := LoadData();
      if item.kind == HABIT {
        var index := FindIndex(doc.habits, item.id);
        if index != -1 {
          var habits := doc.habits[index := item];
          SaveData(habits, doc.tasks);
        }
      } else {
        var index := FindIndex(doc.tasks, item.id);
        if index != -1 {
          var tasks := doc.tasks[index := item];
          SaveData(doc.habits, tasks);
        }
      }
    }

    method DeleteItem(id: string, kind: string)
      modifies this`slot
      ensures slot == AfterSave(writable, old(slot), Deleted(Loaded(old(slot)), id, kind))
    {
      var doc := LoadData();
      if kind == HABIT {
        var filtered := WithoutId(doc.habits, id);
        SaveData(filtered, doc.tasks);
      } else {
        var filtered := WithoutId(doc.tasks, id);
        SaveData(doc.habits, filtered);
      }
    }

    method ToggleCompletion(item: ItemObject, date: Date)
      modifies this`slot, item`completedDates
      ensures item.completedDates == Toggled(old(item.completedDates), FormatDate(date))
      ensures slot == AfterUpdate(writable, old(slot), item.Value())
    {
      var dateString := FormatDate(date);
      var isCompleted := dateString in item.completedDates;
      if isCompleted {
        item.completedDates := WithoutKey(item.completedDates, dateString);
      } else {
        item.completedDates := item.completedDates + [dateString];
      }
      UpdateItem(item.Value());
    }
  }
}
