/**
 * The shopping-list model: an item record, and a list object whose
 * `AddItem` merges an item into an existing entry with the same name
 * (ignoring case) by adding the quantities, and otherwise appends it.
 *
 * The list's entries are values; the merge replaces the matched entry by a
 * copy with the summed quantity.
 */
module ShoppingLists {
  import opened Wrappers
  import opened Text
  import opened Lists

  /** One entry of a list; the defaults are those of the record in the backend. */
  datatype ShoppingItem = ShoppingItem(
    id: string,
    name: string,
    quantity: int := 1,
    unit: string := "piece",
    category: string := "uncategorized")

  /** Equal after lower-casing both sides, the comparison `add_item` and `get_by_category` use. */
  predicate SameText(a: string, b: string) {
    Lower(a) == Lower(b)
  }

  /** Entry `i` is the first entry whose name equals `name` ignoring case. */
  ghost predicate FirstNamed(items: seq<ShoppingItem>, name: string, i: int) {
    0 <= i < |items| && SameText(items[i].name, name)
    && forall j :: 0 <= j < i ==> !SameText(items[j].name, name)
  }

  /** Some entry is named `name`, ignoring case. */
  ghost predicate HasName(items: seq<ShoppingItem>, name: string) {
    exists k :: 0 <= k < |items| && SameText(items[k].name, name)
  }

  /** No two entries have the same name, ignoring case. */
  ghost predicate DistinctNames(items: seq<ShoppingItem>) {
    forall j, k :: 0 <= j < k < |items| ==> !SameText(items[j].name, items[k].name)
  }

  /** The first entry from position `i` on that is named `name`, ignoring case. */
  function FindFrom(items: seq<ShoppingItem>, name: string, i: nat): (r: Option<nat>)
    requires i <= |items|
    ensures r.None? ==> forall j :: i <= j < |items| ==> !SameText(items[j].name, name)
    ensures r.Some? ==> i <= r.value < |items| && SameText(items[r.value].name, name)
                        && forall j :: i <= j < r.value ==> !SameText(items[j].name, name)
    decreases |items| - i
  {
    if i == |items| then None
    else if SameText(items[i].name, name) then Some(i)
    else FindFrom(items, name, i + 1)
  }

  /** The generator `next(...)` in `add_item`: the position of the first entry named `name`. */
  function FindName(items: seq<ShoppingItem>, name: string): (r: Option<nat>)
    ensures r.None? <==> !HasName(items, name)
    ensures r.Some? ==> FirstNamed(items, name, r.value)
  {
    FindFrom(items, name, 0)
  }

  /**
   * The list after `add_item(item)`: when an entry already carries the
   * item's name (ignoring case), the first such entry gets the item's
   * quantity added and everything else of the item is dropped; otherwise
   * the item is appended.
   */
  function AddedTo(items: seq<ShoppingItem>, item: ShoppingItem): (r: seq<ShoppingItem>)
    ensures |r| == if HasName(items, item.name) then |items| else |items| + 1
    ensures HasName(r, item.name)
  {
    match FindName(items, item.name)
    case Some(i) =>
      var r := items[i := items[i].(quantity := items[i].quantity + item.quantity)];
      assert SameText(r[i].name, item.name);
      r
    case None =>
      var r := items + [item];
      assert SameText(r[|items|].name, item.name);
      r
  }

  /**
   * Adding changes no entry but the first one with the item's name, and
   * that one only in its quantity; a new name goes at the end.
   */
  lemma AddedToEntries(items: seq<ShoppingItem>, item: ShoppingItem)
    ensures forall k :: 0 <= k < |items| ==> AddedTo(items, item)[k].(quantity := items[k].quantity) == items[k]
    ensures forall k :: 0 <= k < |items| ==>
              AddedTo(items, item)[k].quantity
              == items[k].quantity + if FirstNamed(items, item.name, k) then item.quantity else 0
    ensures !HasName(items, item.name) ==> AddedTo(items, item)[|items|] == item
  {
    var found := FindName(items, item.name);
    if found.Some? {
      assert forall k :: 0 <= k < |items| && FirstNamed(items, item.name, k) ==> k == found.value;
    }
  }

  /** Adding keeps the names distinct. */
  lemma AddedToKeepsDistinct(items: seq<ShoppingItem>, item: ShoppingItem)
    requires DistinctNames(items)
    ensures DistinctNames(AddedTo(items, item))
  {
    var r := AddedTo(items, item);
    AddedToEntries(items, item);
    forall j, k | 0 <= j < k < |r|
      ensures !SameText(r[j].name, r[k].name)
    {
      assert r[j].name == items[j].name;
      if k < |items| {
        assert r[k].name == items[k].name;
      } else {
        assert r[k] == item;
      }
    }
  }

  /** Names on the list stay on it when an item is added. */
  lemma AddedToKeepsNames(items: seq<ShoppingItem>, item: ShoppingItem, name: string)
    requires HasName(items, name)
    ensures HasName(AddedTo(items, item), name)
  {
    var k :| 0 <= k < |items| && SameText(items[k].name, name);
    AddedToEntries(items, item);
    assert AddedTo(items, item)[k].name == items[k].name;
  }

  /** Adding an item whose name is present already never lengthens the list. */
  lemma AddSameNameTwice(items: seq<ShoppingItem>, a: ShoppingItem, b: ShoppingItem)
    requires SameText(a.name, b.name)
    ensures |AddedTo(AddedTo(items, a), b)| == |AddedTo(items, a)|
  {
    var r := AddedTo(items, a);
    var k :| 0 <= k < |r| && SameText(r[k].name, a.name);
    assert SameText(r[k].name, b.name);
  }

  // ---------------------------------------------------------------------------
  // Quantities

  /** The sum of the quantities of the entries. */
  function TotalQuantity(items: seq<ShoppingItem>): int
  {
    if items == [] then 0 else TotalQuantity(items[..|items| - 1]) + items[|items| - 1].quantity
  }

  lemma {:induction false} TotalQuantityUpdate(items: seq<ShoppingItem>, i: nat, x: ShoppingItem)
    requires i < |items|
    ensures TotalQuantity(items[i := x]) == TotalQuantity(items) - items[i].quantity + x.quantity
    decreases |items|
  {
    var n := |items| - 1;
    if i == n {
      assert items[i := x][..n] == items[..n];
    } else {
      assert items[i := x][..n] == items[..n][i := x];
      TotalQuantityUpdate(items[..n], i, x);
    }
  }

  /** Adding an item raises the total quantity by the item's quantity, merged or not. */
  lemma AddedToTotal(items: seq<ShoppingItem>, item: ShoppingItem)
    ensures TotalQuantity(AddedTo(items, item)) == TotalQuantity(items) + item.quantity
  {
    var found := FindName(items, item.name);
    if found.Some? {
      var i := found.value;
      var x := items[i].(quantity := items[i].quantity + item.quantity);
      assert AddedTo(items, item) == items[i := x];
      TotalQuantityUpdate(items, i, x);
    } else {
      TotalQuantityAppend(items, item);
    }
  }

  lemma TotalQuantityAppend(items: seq<ShoppingItem>, x: ShoppingItem)
    ensures TotalQuantity(items + [x]) == TotalQuantity(items) + x.quantity
  {
    assert (items + [x])[..|items|] == items;
  }

  // ---------------------------------------------------------------------------
  // Removal and category selection

  /** `remove_item(item_id)`: the entries whose id differs, in their order. */
  function Without(items: seq<ShoppingItem>, itemId: string): (r: seq<ShoppingItem>)
    ensures forall x :: x in r <==> x in items && x.id != itemId
    ensures IsSubsequence(r, items)
  {
    if items == [] then []
    else
      var rest := Without(items[1..], itemId);
      if items[0].id != itemId then
        var r := [items[0]] + rest;
        assert r[1..] == rest;
        r
      else rest
  }

  /** Removing an id that no entry carries leaves the list as it is. */
  lemma {:induction false} WithoutUnknown(items: seq<ShoppingItem>, itemId: string)
    requires forall x :: x in items ==> x.id != itemId
    ensures Without(items, itemId) == items
  {
    if items != [] {
      WithoutUnknown(items[1..], itemId);
      assert [items[0]] + items[1..] == items;
    }
  }

  /** Removing twice is removing once. */
  lemma RemoveIdempotent(items: seq<ShoppingItem>, itemId: string)
    ensures Without(Without(items, itemId), itemId) == Without(items, itemId)
  {
    WithoutUnknown(Without(items, itemId), itemId);
  }

  lemma {:induction false} WithoutAppend(a: seq<ShoppingItem>, b: seq<ShoppingItem>, itemId: string)
    ensures Without(a + b, itemId) == Without(a, itemId) + Without(b, itemId)
    decreases |a|
  {
    if a == [] {
      assert a + b == b;
    } else {
      WithoutAppend(a[1..], b, itemId);
      var ab := a + b;
      assert ab[0] == a[0] && ab[1..] == a[1..] + b;
      if a[0].id != itemId {
        calc {
          Without(ab, itemId);
          [a[0]] + Without(a[1..] + b, itemId);
          [a[0]] + (Without(a[1..], itemId) + Without(b, itemId));
          ([a[0]] + Without(a[1..], itemId)) + Without(b, itemId);
        }
      }
    }
  }

  /**
   * Every entry with another id is kept, once per occurrence: with the
   * subsequence and membership clauses of `Without`, this pins the result
   * even on a list that holds the same record twice.
   */
  lemma {:induction false} WithoutCount(items: seq<ShoppingItem>, itemId: string)
    ensures |Without(items, itemId)| == CountWhere(items, (x: ShoppingItem) => x.id != itemId)
  {
    if items != [] {
      WithoutCount(items[1..], itemId);
    }
  }

  /** Removal keeps the names distinct. */
  lemma {:induction false} WithoutKeepsDistinct(items: seq<ShoppingItem>, itemId: string)
    requires DistinctNames(items)
    ensures DistinctNames(Without(items, itemId))
  {
    if items != [] {
      WithoutKeepsDistinct(items[1..], itemId);
      var r := Without(items, itemId);
      var rest := Without(items[1..], itemId);
      if items[0].id != itemId {
        forall k | 0 < k < |r|
          ensures !SameText(r[0].name, r[k].name)
        {
          assert r[k] in rest;
          var m :| 0 <= m < |items[1..]| && items[1..][m] == r[k];
          assert items[m + 1] == r[k];
        }
        forall j, k | 0 < j < k < |r|
          ensures !SameText(r[j].name, r[k].name)
        {
          assert r[j] == rest[j - 1] && r[k] == rest[k - 1];
        }
      }
    }
  }

  /**
   * Adding a new item under a fresh id and a new name, then removing that
   * id, gives the list back.
   */
  lemma AddThenRemove(items: seq<ShoppingItem>, item: ShoppingItem)
    requires !HasName(items, item.name)
    requires forall x :: x in items ==> x.id != item.id
    ensures Without(AddedTo(items, item), item.id) == items
  {
    WithoutAppend(items, [item], item.id);
    WithoutUnknown(items, item.id);
    assert Without([item], item.id) == [];
  }

  /** `get_by_category(category)`: the entries whose category equals `category` ignoring case, in their order. */
  function InCategory(items: seq<ShoppingItem>, category: string): (r: seq<ShoppingItem>)
    ensures forall x :: x in r <==> x in items && SameText(x.category, category)
    ensures IsSubsequence(r, items)
    ensures |r| == CountWhere(items, (x: ShoppingItem) => SameText(x.category, category))
  {
    if items == [] then []
    else
      var rest := InCategory(items[1..], category);
      if SameText(items[0].category, category) then
        var r := [items[0]] + rest;
        assert r[1..] == rest;
        r
      else rest
  }

  /** Only the lower-cased category matters to the selection. */
  lemma {:induction false} InCategoryIgnoresCase(items: seq<ShoppingItem>, category: string)
    ensures InCategory(items, category) == InCategory(items, Lower(category))
  {
    LowerOfLowerCase(Lower(category));
    if items != [] {
      InCategoryIgnoresCase(items[1..], category);
    }
  }

  // ---------------------------------------------------------------------------
  // The list object

  class ShoppingList {
    const id: string
    const userId: string
    var items: seq<ShoppingItem>

    /** Merging by name keeps at most one entry per name. */
    ghost predicate Valid()
      reads this
    {
      DistinctNames(items)
    }

    constructor(id: string, userId: string)
      ensures this.id == id && this.userId == userId && items == []
      ensures Valid()
    {
      this.id := id;
      this.userId := userId;
      items := [];
    }

    /** `add_item`: search for an entry with the same name, then merge or append. */
    method AddItem(item: ShoppingItem)
      requires Valid()
      modifies this
      ensures Valid()
      ensures items == AddedTo(old(items), item)
    {
      AddedToKeepsDistinct(items, item);
      var i := 0;
      while i < |items| && Lower(items[i].name) != Lower(item.name)
        invariant 0 <= i <= |items|
        invariant FindName(items, item.name) == FindFrom(items, item.name, i)
      {
        i := i + 1;
      }
      if i < |items| {
        items := items[i := items[i].(quantity := items[i].quantity + item.quantity)];
      } else {
        items := items + [item];
      }
    }

    /** `remove_item`: keep the entries whose id differs. */
    method RemoveItem(itemId: string)
      requires Valid()
      modifies this
      ensures Valid()
      ensures items == Without(old(items), itemId)
    {
      WithoutKeepsDistinct(items, itemId);
      items := Without(items, itemId);
    }

    /** `get_by_category`: the entries of that category, ignoring case, in list order. */
    function GetByCategory(category: string): (r: seq<ShoppingItem>)
      reads this
      ensures forall x :: x in r <==> x in items && SameText(x.category, category)
      ensures IsSubsequence(r, items)
      ensures |r| == CountWhere(items, (x: ShoppingItem) => SameText(x.category, category))
    {
      InCategory(items, category)
    }
  }
}
