/**
 The state of the shopping-list page and the handlers that overwrite it.
 Each handler is a method whose postcondition ties the new state to the
 old one through the pure operations of module ShoppingList.
 */
module HomeComponent {
  import opened ShoppingList

  class Home {
    var shoppingList: seq<Item>
    var searchQuery: string
    var checkedItemIDs: set<Id>
    var isShowDropdown: bool
    var searchResults: seq<SearchResult>

    /** Every id that has appeared in the list or the checked set. */
    ghost var seen: set<Id>

    /**
     The list never holds two entries with the same id, and every id of the
     list and of the checked set has been seen.
     */
    ghost predicate Valid()
      reads this
    {
      && UniqueIds(shoppingList)
      && IdSet(shoppingList) <= seen
      && checkedItemIDs <= seen
    }

    /** The page starts with an empty list, query, checked set and result list, and a closed dropdown. */
    constructor ()
      ensures Valid()
      ensures shoppingList == [] && searchQuery == "" && checkedItemIDs == {}
      ensures !isShowDropdown && searchResults == [] && seen == {}
    {
      shoppingList := [];
      searchQuery := "";
      checkedItemIDs := {};
      isShowDropdown := false;
      searchResults := [];
      seen := {};
    }

    /** Typing in the search box replaces the query. */
    method SetSearchQuery(text: string)
      modifies this`searchQuery
      ensures searchQuery == text
    {
      searchQuery := text;
    }

    /** Focusing the search box opens the dropdown. */
    method Focus()
      modifies this`isShowDropdown
      ensures isShowDropdown
    {
      isShowDropdown := true;
    }

    /** A pointer press outside the dropdown region closes the dropdown. */
    method ClickOutside()
      modifies this`isShowDropdown
      ensures !isShowDropdown
    {
      isShowDropdown := false;
    }

    /**
     The debounce timer fires: a query of at least two characters issues a
     lookup keyed by the query and leaves the results until it completes;
     a shorter query clears the results and issues nothing.
     */
    method FireDebounce() returns (lookup: Option<string>)
      modifies this`searchResults
      ensures lookup.Some? <==> |searchQuery| >= MinQueryLength
      ensures lookup.Some? ==> lookup.value == searchQuery && searchResults == old(searchResults)
      ensures lookup.None? ==> searchResults == []
    {
      if |searchQuery| > 1 {
        lookup := Some(searchQuery);
      } else {
        lookup := None;
        searchResults := [];
      }
    }

    /** A lookup completes with `data`: the results become those names, in order, none of them added. */
    method ReceiveResults(data: seq<string>)
      modifies this`searchResults
      ensures searchResults == FreshResults(data)
      ensures Names(searchResults) == data
      ensures forall i :: 0 <= i < |searchResults| ==> !searchResults[i].isAdded
    {
      searchResults := FreshResults(data);
      FreshResultsNames(data);
    }

    /** Flip whether `id` is checked; no other id changes. */
    method ToggleCheckedItem(id: Id)
      requires Valid()
      modifies this`checkedItemIDs, this`seen
      ensures Valid() && seen == old(seen) + {id}
      ensures checkedItemIDs == Toggle(old(checkedItemIDs), id)
      ensures id in checkedItemIDs <==> id !in old(checkedItemIDs)
    {
      var copy := checkedItemIDs;
      if id in copy {
        copy := copy - {id};
      } else {
        copy := copy + {id};
      }
      checkedItemIDs := copy;
      seen := seen + {id};
    }

    /**
     Delete the entries with `id`, keeping the others in order, then toggle
     `id` in the checked set: a checked id is unchecked, an unchecked one
     becomes checked. The list loses exactly the id `id`.
     */
    method DeleteItem(id: Id)
      requires Valid()
      modifies this`shoppingList, this`checkedItemIDs, this`seen
      ensures Valid() && seen == old(seen) + {id}
      ensures IdSet(shoppingList) == old(IdSet(shoppingList)) - {id}
      ensures shoppingList == RemoveById(old(shoppingList), id)
      ensures id !in IdSet(shoppingList)
      ensures id in old(IdSet(shoppingList)) ==> |shoppingList| == |old(shoppingList)| - 1
      ensures id !in old(IdSet(shoppingList)) ==> shoppingList == old(shoppingList)
      ensures checkedItemIDs == Toggle(old(checkedItemIDs), id)
      ensures id in checkedItemIDs <==> id !in old(checkedItemIDs)
    {
      RemoveByIdKeepsUnique(shoppingList, id);
      RemoveByIdIds(shoppingList, id);
      if id in IdSet(shoppingList) {
        RemovePresentId(shoppingList, id);
      } else {
        RemoveAbsentId(shoppingList, id);
      }
      shoppingList := RemoveById(shoppingList, id);
      ToggleCheckedItem(id);
    }

    /**
     Append an entry named `item` with the fresh id `freshId` (a uuid in the
     page, so an id never seen before) and mark every result of that name as
     added. The only id that joins the list is the fresh one, and it is unchecked.
     */
    method AddItem(item: string, freshId: Id)
      requires Valid()
      requires freshId !in seen
      modifies this`shoppingList, this`searchResults, this`seen
      ensures Valid() && seen == old(seen) + {freshId}
      ensures IdSet(shoppingList) == old(IdSet(shoppingList)) + {freshId}
      ensures shoppingList == old(shoppingList) + [Item(freshId, item)]
      ensures CountNamed(shoppingList, item) == CountNamed(old(shoppingList), item) + 1
      ensures searchResults == MarkAdded(old(searchResults), item)
      ensures freshId !in checkedItemIDs
    {
      var entry := Item(freshId, item);
      assert freshId !in IdSet(shoppingList) && freshId !in checkedItemIDs;
      AppendKeepsUnique(shoppingList, entry);
      AppendCountsName(shoppingList, entry, item);
      AppendIds(shoppingList, entry);
      shoppingList := shoppingList + [entry];
      searchResults := MarkAdded(searchResults, item);
      seen := seen + {freshId};
    }
  }

  /**
   A search and a selection: the query "appl" issues a lookup, it returns two
   names, both are shown unadded, and selecting "apple" adds one entry and
   marks only that result.
   */
  method SearchAndSelect(freshId: Id) returns (lookup: Option<string>, list: seq<Item>, shown: Option<seq<SearchResult>>)
    ensures lookup == Some("appl")
    ensures list == [Item(freshId, "apple")]
    ensures shown == Some([SearchResult("apple", true), SearchResult("applesauce", false)])
  {
    var home := new Home();
    home.SetSearchQuery("appl");
    lookup := home.FireDebounce();
    home.ReceiveResults(["apple", "applesauce"]);
    home.Focus();
    var arrived := home.searchResults;
    assert Names(arrived)[0] == "apple" && Names(arrived)[1] == "applesauce";
    assert arrived == [SearchResult("apple", false), SearchResult("applesauce", false)];
    assert arrived[..2] == arrived;
    assert Dropdown(home.isShowDropdown, home.searchResults)
        == Some([SearchResult("apple", false), SearchResult("applesauce", false)]);
    home.AddItem("apple", freshId);
    list := home.shoppingList;
    var marked := MarkAdded(arrived, "apple");
    assert marked[0].isAdded && !marked[1].isAdded;
    assert marked == [SearchResult("apple", true), SearchResult("applesauce", false)];
    assert marked[..2] == marked;
    shown := Dropdown(home.isShowDropdown, home.searchResults);
  }

  /**
   Entries A (unchecked) and B (checked); deleting A leaves [B] and, because
   delete toggles, a checked set holding both ids.
   */
  method DeleteUnchecked(a: Id, b: Id) returns (home: Home)
    requires a != b
    ensures fresh(home) && home.Valid() && home.seen == {a, b}
    ensures home.shoppingList == [Item(b, "B")]
    ensures home.checkedItemIDs == {a, b}
  {
    home := new Home();
    home.AddItem("A", a);
    home.AddItem("B", b);
    assert home.shoppingList == [Item(a, "A"), Item(b, "B")] && home.seen == {a, b};
    home.ToggleCheckedItem(b);
    assert home.checkedItemIDs == {b};
    home.DeleteItem(a);
    assert home.shoppingList == [Item(b, "B")] by {
      assert home.shoppingList == RemoveById([Item(a, "A"), Item(b, "B")], a);
    }
  }

  /**
   After deleting unchecked A next to checked B, adding C with a fresh id
   renders B checked and C unchecked: the id A left in the checked set shows
   nowhere.
   */
  method StaleIdStaysHidden(a: Id, b: Id, c: Id) returns (view: ListView)
    requires a != b && c != a && c != b
    ensures view == Rows([Row(b, "B", true), Row(c, "C", false)])
  {
    var home := DeleteUnchecked(a, b);
    home.AddItem("C", c);
    var list, checked := home.shoppingList, home.checkedItemIDs;
    assert list == [Item(b, "B"), Item(c, "C")] && checked == {a, b};
    view := RenderList(list, checked);
    assert view.rows[0] == Row(b, "B", true) && view.rows[1] == Row(c, "C", false);
  }
}
