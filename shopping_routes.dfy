/**
 * The shopping endpoints over the in-memory store, a map from user id to
 * that user's list. Each endpoint is a method of the store; its request
 * fields are parameters (`None` when the field is absent), its JSON reply a
 * value. The fresh list id and item ids that the backend draws from
 * `uuid4` are parameters too.
 */
module ShoppingRoutes {
  import opened Wrappers
  import opened Text
  import opened Lists
  import opened ShoppingLists
  import NlpProcessor

  const DefaultUser := "default_user"

  /** `get('user_id', 'default_user')`: the user a request is about, the given one when present. */
  function UserKey(user: Option<string>): (r: string)
    ensures user.Some? ==> r == user.value
    ensures user.None? ==> r == DefaultUser
  {
    user.GetOr(DefaultUser)
  }

  // ---------------------------------------------------------------------------
  // Adding by voice command

  /** What an accepted add command contributes: the item names, the amount and the category. */
  datatype AddPlan = AddPlan(names: seq<string>, amount: NlpProcessor.Amount, category: string)

  predicate AcceptedIntent(intent: NlpProcessor.Intent) {
    intent == NlpProcessor.Add || intent == NlpProcessor.Unknown
  }

  /**
   * `nlp_result['category'] or 'uncategorized'`: Python's `or` replaces a
   * missing or empty category, so the result is never empty.
   */
  function OrUncategorized(category: Option<string>): (r: string)
    ensures r != ""
    ensures r == "uncategorized" <==> category.None? || category.value in {"", "uncategorized"}
    ensures category.Some? && category.value != "" ==> r == category.value
  {
    if category.Some? && category.value != "" then category.value else "uncategorized"
  }

  /**
   * The checks `add_item` makes before it touches any list, in their order:
   * an empty command, an intent other than adding (or unknown), a command
   * naming no item.
   */
  function PlanAdd(command: string): (r: Result<AddPlan>)
    ensures r == Failure("Command is required") <==> command == ""
    ensures r == Failure("Invalid command for adding items") <==>
              command != "" && !AcceptedIntent(NlpProcessor.ProcessCommand(command).intent)
    ensures r == Failure("No items found in command") <==>
              command != "" && AcceptedIntent(NlpProcessor.ProcessCommand(command).intent)
              && NlpProcessor.ProcessCommand(command).items == []
    ensures r.Success? <==>
              command != "" && AcceptedIntent(NlpProcessor.ProcessCommand(command).intent)
              && NlpProcessor.ProcessCommand(command).items != []
    ensures r.Success? ==>
              var nlp := NlpProcessor.ProcessCommand(command);
              r.value.names == nlp.items != [] && r.value.amount == nlp.quantity
              && r.value.category == NlpProcessor.Categorize(nlp.items[0])
  {
    if command == "" then Failure("Command is required")
    else
      var nlp := NlpProcessor.ProcessCommand(command);
      if !AcceptedIntent(nlp.intent) then Failure("Invalid command for adding items")
      else if nlp.items == [] then Failure("No items found in command")
      else
        NlpProcessor.CategoryNotEmpty(nlp.items[0]);
        Success(AddPlan(nlp.items, nlp.quantity, OrUncategorized(nlp.category)))
  }

  /** The `k`-th item an accepted command adds, under the id `itemId`. */
  function NewItem(plan: AddPlan, k: nat, itemId: string): ShoppingItem
    requires k < |plan.names|
  {
    ShoppingItem(itemId, plan.names[k], plan.amount.count, plan.amount.unit, plan.category)
  }

  /** The list after adding `news` one after the other. */
  function AddAll(items: seq<ShoppingItem>, news: seq<ShoppingItem>): seq<ShoppingItem>
    decreases |news|
  {
    if news == [] then items else AddedTo(AddAll(items, news[..|news| - 1]), news[|news| - 1])
  }

  /** Adding several items keeps the names distinct. */
  lemma {:induction false} AddAllKeepsDistinct(items: seq<ShoppingItem>, news: seq<ShoppingItem>)
    requires DistinctNames(items)
    ensures DistinctNames(AddAll(items, news))
    decreases |news|
  {
    if news != [] {
      AddAllKeepsDistinct(items, news[..|news| - 1]);
      AddedToKeepsDistinct(AddAll(items, news[..|news| - 1]), news[|news| - 1]);
    }
  }

  /** Adding several items raises the total quantity by theirs. */
  lemma {:induction false} AddAllTotal(items: seq<ShoppingItem>, news: seq<ShoppingItem>)
    ensures TotalQuantity(AddAll(items, news)) == TotalQuantity(items) + TotalQuantity(news)
    decreases |news|
  {
    if news != [] {
      AddAllTotal(items, news[..|news| - 1]);
      AddedToTotal(AddAll(items, news[..|news| - 1]), news[|news| - 1]);
    }
  }

  /** After adding several items, each of their names is on the list. */
  lemma {:induction false} AddAllListsEveryName(items: seq<ShoppingItem>, news: seq<ShoppingItem>, k: nat)
    requires k < |news|
    ensures HasName(AddAll(items, news), news[k].name)
    decreases |news|
  {
    var n := |news| - 1;
    var prev := AddAll(items, news[..n]);
    assert AddAll(items, news) == AddedTo(prev, news[n]);
    if k < n {
      AddAllListsEveryName(items, news[..n], k);
      assert news[..n][k] == news[k];
      AddedToKeepsNames(prev, news[n], news[k].name);
      assert HasName(AddedTo(prev, news[n]), news[k].name);
    } else {
      assert k == n;
      assert HasName(AddedTo(prev, news[n]), news[k].name);
    }
  }

  /** The items an accepted command adds, the `k`-th under the id `newItemId(k)`. */
  function NewItems(plan: AddPlan, newItemId: nat -> string): seq<ShoppingItem> {
    seq(|plan.names|, k requires 0 <= k < |plan.names| => NewItem(plan, k, newItemId(k)))
  }

  /** The reply message of an accepted add. */
  function AddedMessage(count: nat): string {
    "Added " + NatToDecimal(count) + " item(s)"
  }

  /** The loop of `add_item`: build each item of the plan and add it to the list. */
  method AddEach(lst: ShoppingList, plan: AddPlan, newItemId: nat -> string) returns (added: seq<ShoppingItem>)
    requires lst.Valid()
    modifies lst
    ensures lst.Valid()
    ensures added == NewItems(plan, newItemId)
    ensures lst.items == AddAll(old(lst.items), added)
  {
    ghost var news := NewItems(plan, newItemId);
    added := [];
    var k := 0;
    while k < |plan.names|
      invariant 0 <= k <= |plan.names| && added == news[..k]
      invariant lst.items == AddAll(old(lst.items), added)
      invariant lst.Valid()
    {
      var item := ShoppingItem(newItemId(k), plan.names[k], plan.amount.count, plan.amount.unit, plan.category);
      assert news[k] == item;
      lst.AddItem(item);
      assert news[..k] + [item] == news[..k + 1];
      added := added + [item];
      assert added[..|added| - 1] == news[..k];
      k := k + 1;
    }
    assert added == news;
  }

  // ---------------------------------------------------------------------------
  // Replies

  /** `to_dict()` of a list, without its creation time. */
  datatype ListView = ListView(id: string, userId: string, items: seq<ShoppingItem>)

  datatype AddReply =
    | AddRejected(status: nat, error: string)
    | Added(message: string, items: seq<ShoppingItem>, list: ListView)

  datatype RemoveReply =
    | RemoveRejected(status: nat, error: string)
    | Removed(message: string, list: ListView)

  /** The reply of `POST /clear`, which always succeeds. */
  datatype ClearReply = Cleared(message: string)

  datatype CategoryReply =
    | NoList
    | CategoryItems(category: string, items: seq<ShoppingItem>, total: nat)

  // ---------------------------------------------------------------------------
  // The store

  class ShoppingStore {
    var lists: map<string, ShoppingList>

    /** Each list is filed under its own user, and keeps one entry per name. */
    ghost predicate Valid()
      reads this, lists.Values
    {
      forall u :: u in lists ==> lists[u].userId == u && lists[u].Valid()
    }

    constructor()
      ensures lists == map[] && Valid()
    {
      lists := map[];
    }

    function View(u: string): ListView
      requires u in lists
      reads this, lists.Values
    {
      ListView(lists[u].id, u, lists[u].items)
    }

    /** The user's list, created empty under `newListId` when the user has none. */
    method ListFor(u: string, newListId: string) returns (lst: ShoppingList)
      requires Valid()
      modifies this
      ensures Valid() && u in lists && lst == lists[u]
      ensures u in old(lists) ==> lists == old(lists)
      ensures u !in old(lists) ==>
                fresh(lst) && lists == old(lists)[u := lst] && lst.id == newListId && lst.items == []
    {
      if u !in lists {
        lst := new ShoppingList(newListId, u);
        lists := lists[u := lst];
      } else {
        lst := lists[u];
      }
    }

    /** `GET /list`: the user's list, created empty under `newListId` when the user has none. */
    method GetShoppingList(user: Option<string>, newListId: string) returns (view: ListView)
      requires Valid()
      modifies this
      ensures Valid()
      ensures UserKey(user) in old(lists) ==> lists == old(lists)
      ensures UserKey(user) !in old(lists) ==>
                UserKey(user) in lists && fresh(lists[UserKey(user)])
                && lists == old(lists)[UserKey(user) := lists[UserKey(user)]]
                && view == ListView(newListId, UserKey(user), [])
      ensures UserKey(user) in lists && view == View(UserKey(user))
    {
      var lst := ListFor(UserKey(user), newListId);
      view := View(UserKey(user));
    }

    /**
     * `POST /add`: interpret the command; when it is accepted, create the
     * user's list if needed and add one item per name, the `k`-th under the
     * id `newItemId(k)`, all with the command's amount and category.
     */
    method AddItem(user: Option<string>, command: string, newListId: string, newItemId: nat -> string)
      returns (reply: AddReply)
      requires Valid()
      modifies this, lists.Values
      ensures Valid()
      ensures PlanAdd(command).Failure? ==>
                reply == AddRejected(400, PlanAdd(command).error) && lists == old(lists)
                && forall v :: v in lists ==> lists[v].items == old(lists[v].items)
      ensures PlanAdd(command).Success? ==>
                var u := UserKey(user);
                var news := NewItems(PlanAdd(command).value, newItemId);
                && u in lists
                && (u in old(lists) ==> lists == old(lists) && lists[u].items == AddAll(old(lists[u].items), news))
                && (u !in old(lists) ==>
                      fresh(lists[u]) && lists == old(lists)[u := lists[u]]
                      && lists[u].id == newListId && lists[u].items == AddAll([], news))
                && (forall v :: v in old(lists) && v != u ==> lists[v].items == old(lists[v].items))
                && reply == Added(AddedMessage(|news|), news, View(u))
    {
      var plan := PlanAdd(command);
      if plan.Failure? {
        return AddRejected(400, plan.error);
      }
      reply := AddPlanned(UserKey(user), plan.value, newListId, newItemId);
    }

    /** `add_item` past its checks: file the items on the user's list, creating the list if needed. */
    method AddPlanned(u: string, plan: AddPlan, newListId: string, newItemId: nat -> string)
      returns (reply: AddReply)
      requires Valid()
      modifies this, lists.Values
      ensures Valid() && u in lists
      ensures u in old(lists) ==>
                lists == old(lists) && lists[u].items == AddAll(old(lists[u].items), NewItems(plan, newItemId))
      ensures u !in old(lists) ==>
                fresh(lists[u]) && lists == old(lists)[u := lists[u]]
                && lists[u].id == newListId && lists[u].items == AddAll([], NewItems(plan, newItemId))
      ensures forall v :: v in old(lists) && v != u ==> lists[v].items == old(lists[v].items)
      ensures reply == Added(AddedMessage(|plan.names|), NewItems(plan, newItemId), View(u))
    {
      var lst := ListFor(u, newListId);
      var added := AddEach(lst, plan, newItemId);
      reply := Added(AddedMessage(|added|), added, View(u));
    }

    /** `POST /remove`: drop the entries with the given id from the user's list. */
    method RemoveItem(user: Option<string>, itemId: Option<string>) returns (reply: RemoveReply)
      requires Valid()
      modifies lists.Values
      ensures Valid()
      ensures itemId.GetOr("") == "" ==>
                reply == RemoveRejected(400, "Item ID is required")
                && forall v :: v in lists ==> lists[v].items == old(lists[v].items)
      ensures itemId.GetOr("") != "" && UserKey(user) !in lists ==>
                reply == RemoveRejected(404, "User has no shopping list")
                && forall v :: v in lists ==> lists[v].items == old(lists[v].items)
      ensures itemId.GetOr("") != "" && UserKey(user) in lists ==>
                lists[UserKey(user)].items == Without(old(lists[UserKey(user)].items), itemId.value)
                && (forall v :: v in lists && v != UserKey(user) ==> lists[v].items == old(lists[v].items))
                && reply == Removed("Item removed", View(UserKey(user)))
    {
      if itemId.GetOr("") == "" {
        return RemoveRejected(400, "Item ID is required");
      }
      var u := UserKey(user);
      if u !in lists {
        return RemoveRejected(404, "User has no shopping list");
      }
      lists[u].RemoveItem(itemId.value);
      reply := Removed("Item removed", View(u));
    }

    /** `POST /clear`: empty the user's list when there is one; the reply is always a success. */
    method ClearList(user: Option<string>) returns (reply: ClearReply)
      requires Valid()
      modifies lists.Values
      ensures Valid()
      ensures reply == Cleared("Shopping list cleared")
      ensures UserKey(user) in lists ==> lists[UserKey(user)].items == []
      ensures forall v :: v in lists && v != UserKey(user) ==> lists[v].items == old(lists[v].items)
    {
      var u := UserKey(user);
      if u in lists {
        lists[u].items := [];
      }
      reply := Cleared("Shopping list cleared");
    }

    /**
     * `GET /category/<category>`: the user's entries in that category,
     * ignoring case, in list order; a bare empty reply for a user without a list.
     */
    function GetByCategory(user: Option<string>, category: string): (r: CategoryReply)
      reads this, lists.Values
      ensures UserKey(user) !in lists <==> r == NoList
      ensures UserKey(user) in lists ==>
                r.CategoryItems? && r.category == category && r.total == |r.items|
                && IsSubsequence(r.items, lists[UserKey(user)].items)
                && (forall x :: x in r.items <==> x in lists[UserKey(user)].items && SameText(x.category, category))
                && |r.items| == CountWhere(lists[UserKey(user)].items, (x: ShoppingItem) => SameText(x.category, category))
    {
      var u := UserKey(user);
      if u !in lists then NoList
      else
        var items := lists[u].GetByCategory(category);
        CategoryItems(category, items, |items|)
    }
  }
}
