/**
 The values of the shopping-list page and the pure sequence and set
 operations its handlers build new state from: the filter that deletes an
 item, the map that marks search results as added, the map that turns
 looked-up names into fresh results, the membership flip of the checked set,
 and the two projections the page renders (the dropdown and the list).
 */
module ShoppingList {

  /** Item identifiers are opaque strings (uuids in the page). */
  type Id = string

  /** One entry of the shopping list. */
  datatype Item = Item(id: Id, itemName: string)

  /** One entry of the search dropdown: a looked-up name and whether it was added. */
  datatype SearchResult = SearchResult(name: string, isAdded: bool)

  datatype Option<T> = None | Some(value: T)

  /** The dropdown presents at most this many results. */
  const MaxShown: nat := 5

  /** The shortest query for which a lookup is issued. */
  const MinQueryLength: nat := 2

  // ---------------------------------------------------------------------------
  // Ids and ordering

  /** The ids of the entries of a list. */
  function IdSet(list: seq<Item>): (ids: set<Id>)
    ensures forall x :: x in list ==> x.id in ids
  {
    set x | x in list :: x.id
  }

  /** No two entries of the list share an id. */
  ghost predicate UniqueIds(list: seq<Item>)
  {
    forall i, j :: 0 <= i < j < |list| ==> list[i].id != list[j].id
  }

  /** `a` is `b` with some entries left out, the rest in their original order. */
  ghost predicate Subsequence<T>(a: seq<T>, b: seq<T>)
    decreases |b|
  {
    if a == [] then true
    else if b == [] then false
    else (a[0] == b[0] && Subsequence(a[1..], b[1..])) || Subsequence(a, b[1..])
  }

  /** The number of entries of the list named `name`. */
  function CountNamed(list: seq<Item>, name: string): (n: nat)
    ensures n <= |list|
    ensures n == 0 <==> forall x :: x in list ==> x.itemName != name
  {
    if list == [] then 0
    else (if list[0].itemName == name then 1 else 0) + CountNamed(list[1..], name)
  }

  // ---------------------------------------------------------------------------
  // Deleting an item: the filter that keeps every entry with another id

  function RemoveById(list: seq<Item>, id: Id): (r: seq<Item>)
    ensures |r| <= |list|
    ensures forall x :: x in r <==> x in list && x.id != id
    ensures id !in IdSet(r)
  {
    if list == [] then []
    else if list[0].id != id then [list[0]] + RemoveById(list[1..], id)
    else RemoveById(list[1..], id)
  }

  /** The entries that survive a delete keep their original order. */
  lemma {:induction false} RemoveByIdKeepsOrder(list: seq<Item>, id: Id)
    ensures Subsequence(RemoveById(list, id), list)
    decreases |list|
  {
    if list != [] {
      var rest := RemoveById(list[1..], id);
      RemoveByIdKeepsOrder(list[1..], id);
      if list[0].id != id {
        assert RemoveById(list, id) == [list[0]] + rest;
        assert ([list[0]] + rest)[1..] == rest;
      } else if rest != [] {
        assert RemoveById(list, id) == rest;
      }
    }
  }

  /** Each entry with another id survives a delete as often as it occurred; none with the id does. */
  lemma {:induction false} RemoveByIdCounts(list: seq<Item>, id: Id, x: Item)
    ensures multiset(RemoveById(list, id))[x] == if x.id == id then 0 else multiset(list)[x]
    decreases |list|
  {
    if list != [] {
      var head, tail := list[0], list[1..];
      var rest := RemoveById(tail, id);
      RemoveByIdCounts(tail, id, x);
      calc {
        multiset(list);
        { assert list == [head] + tail; }
        multiset([head]) + multiset(tail);
      }
      if head.id != id {
        calc {
          multiset(RemoveById(list, id));
          { assert RemoveById(list, id) == [head] + rest; }
          multiset([head]) + multiset(rest);
        }
      }
    }
  }

  /** Deleting an id no entry has leaves the list as it was. */
  lemma {:induction false} RemoveAbsentId(list: seq<Item>, id: Id)
    requires id !in IdSet(list)
    ensures RemoveById(list, id) == list
    decreases |list|
  {
    if list != [] {
      assert list[0] in list;
      assert IdSet(list[1..]) <= IdSet(list) by {
        forall x | x in list[1..] ensures x in list { }
      }
      RemoveAbsentId(list[1..], id);
      assert list == [list[0]] + list[1..];
    }
  }

  /** A delete removes exactly the deleted id from the ids of the list. */
  lemma RemoveByIdIds(list: seq<Item>, id: Id)
    ensures IdSet(RemoveById(list, id)) == IdSet(list) - {id}
  {
    forall i | i in IdSet(list) - {id} ensures i in IdSet(RemoveById(list, id)) {
      var x :| x in list && x.id == i;
      assert x in RemoveById(list, id);
    }
  }

  /** The tail of a list with unique ids has unique ids, none of them the head's. */
  lemma UniqueTail(list: seq<Item>)
    requires UniqueIds(list) && list != []
    ensures UniqueIds(list[1..]) && list[0].id !in IdSet(list[1..])
  {
  }

  /** An entry whose id the rest lacks can head a list with unique ids. */
  lemma UniqueCons(head: Item, rest: seq<Item>)
    requires UniqueIds(rest) && head.id !in IdSet(rest)
    ensures UniqueIds([head] + rest)
  {
  }

  /** With unique ids, deleting an id some entry has shortens the list by exactly one. */
  lemma {:induction false} RemovePresentId(list: seq<Item>, id: Id)
    requires UniqueIds(list)
    requires id in IdSet(list)
    ensures |RemoveById(list, id)| == |list| - 1
    decreases |list|
  {
    UniqueTail(list);
    if list[0].id == id {
      RemoveAbsentId(list[1..], id);
    } else {
      var x :| x in list && x.id == id;
      assert x in list[1..] by {
        assert list == [list[0]] + list[1..];
      }
      RemovePresentId(list[1..], id);
    }
  }

  /** A delete keeps the ids of the list unique. */
  lemma {:induction false} RemoveByIdKeepsUnique(list: seq<Item>, id: Id)
    requires UniqueIds(list)
    ensures UniqueIds(RemoveById(list, id))
    decreases |list|
  {
    if list != [] {
      UniqueTail(list);
      RemoveByIdKeepsUnique(list[1..], id);
      var rest := RemoveById(list[1..], id);
      if list[0].id != id {
        assert list[0].id !in IdSet(rest);
        UniqueCons(list[0], rest);
      }
    }
  }

  // ---------------------------------------------------------------------------
  // Adding an item: append at the end

  /** Appending an entry with an id not yet in the list keeps the ids unique. */
  lemma AppendKeepsUnique(list: seq<Item>, item: Item)
    requires UniqueIds(list)
    requires item.id !in IdSet(list)
    ensures UniqueIds(list + [item])
  {
  }

  /** Appending an entry adds exactly its id to the ids of the list. */
  lemma AppendIds(list: seq<Item>, item: Item)
    ensures IdSet(list + [item]) == IdSet(list) + {item.id}
  {
    forall i | i in IdSet(list + [item]) ensures i in IdSet(list) + {item.id} {
      var x :| x in list + [item] && x.id == i;
      assert x in list || x == item;
    }
    assert item in list + [item];
    forall i | i in IdSet(list) ensures i in IdSet(list + [item]) {
      var x :| x in list && x.id == i;
      assert x in list + [item];
    }
  }

  /** There is no deduplication: appending an entry named `name` adds one more entry of that name. */
  lemma {:induction false} AppendCountsName(list: seq<Item>, item: Item, name: string)
    ensures CountNamed(list + [item], name)
         == CountNamed(list, name) + (if item.itemName == name then 1 else 0)
    decreases |list|
  {
    if list == [] {
      assert [item][1..] == [];
    } else {
      assert (list + [item])[1..] == list[1..] + [item];
      AppendCountsName(list[1..], item, name);
    }
  }

  // ---------------------------------------------------------------------------
  // The checked set

  /** Flip whether `id` is in the set. */
  function Toggle(checked: set<Id>, id: Id): (r: set<Id>)
    ensures id in r <==> id !in checked
    ensures forall other :: other != id ==> (other in r <==> other in checked)
  {
    if id in checked then checked - {id} else checked + {id}
  }

  /** Toggling the same id twice restores the set. */
  lemma ToggleTwice(checked: set<Id>, id: Id)
    ensures Toggle(Toggle(checked, id), id) == checked
  {
  }

  /** Toggles of different ids commute. */
  lemma ToggleCommutes(checked: set<Id>, a: Id, b: Id)
    ensures Toggle(Toggle(checked, a), b) == Toggle(Toggle(checked, b), a)
  {
  }

  // ---------------------------------------------------------------------------
  // Search results

  /** The names of the results, in order. */
  function Names(results: seq<SearchResult>): (names: seq<string>)
    ensures |names| == |results|
    ensures forall i :: 0 <= i < |results| ==> names[i] == results[i].name
  {
    if results == [] then [] else [results[0].name] + Names(results[1..])
  }

  /** The results a completed lookup produces from the returned names. */
  function FreshResults(data: seq<string>): (r: seq<SearchResult>)
    ensures |r| == |data|
    ensures forall i :: 0 <= i < |r| ==> !r[i].isAdded
  {
    if data == [] then [] else [SearchResult(data[0], false)] + FreshResults(data[1..])
  }

  /** The names a lookup returned come back, in order, from the fresh results. */
  lemma {:induction false} FreshResultsNames(data: seq<string>)
    ensures Names(FreshResults(data)) == data
    decreases |data|
  {
    if data != [] {
      FreshResultsNames(data[1..]);
    }
  }

  /** Mark every result called `name` as added and leave every other result as it was. */
  function MarkAdded(results: seq<SearchResult>, name: string): (r: seq<SearchResult>)
    ensures |r| == |results|
    ensures forall i :: 0 <= i < |r| ==> r[i].name == results[i].name
    ensures forall i :: 0 <= i < |r| ==> (r[i].isAdded <==> results[i].isAdded || results[i].name == name)
  {
    if results == [] then []
    else
      var head := if results[0].name == name then results[0].(isAdded := true) else results[0];
      [head] + MarkAdded(results[1..], name)
  }

  /** Results with another name are left exactly as they were. */
  lemma MarkAddedKeepsOthers(results: seq<SearchResult>, name: string, i: nat)
    requires i < |results|
    requires results[i].name != name
    ensures MarkAdded(results, name)[i] == results[i]
  {
  }

  /** Marking a name that no result carries changes nothing. */
  lemma {:induction false} MarkAddedAbsent(results: seq<SearchResult>, name: string)
    requires name !in Names(results)
    ensures MarkAdded(results, name) == results
  {
  }

  /** Marking the same name twice is the same as marking it once. */
  lemma {:induction false} MarkAddedIdempotent(results: seq<SearchResult>, name: string)
    ensures MarkAdded(MarkAdded(results, name), name) == MarkAdded(results, name)
  {
  }

  /** Marking keeps the names, so a later lookup of the dropdown shows the same names. */
  lemma {:induction false} MarkAddedNames(results: seq<SearchResult>, name: string)
    ensures Names(MarkAdded(results, name)) == Names(results)
  {
  }

  // ---------------------------------------------------------------------------
  // What the page renders

  /** The dropdown: hidden, or the first few results when it is open and there is one. */
  function Dropdown(isShowDropdown: bool, results: seq<SearchResult>): (shown: Option<seq<SearchResult>>)
    ensures shown.Some? <==> isShowDropdown && |results| > 0
    ensures shown.Some? ==> 1 <= |shown.value| <= MaxShown
    ensures shown.Some? ==> |shown.value| == if |results| < MaxShown then |results| else MaxShown
    ensures shown.Some? ==> shown.value <= results
  {
    if isShowDropdown && |results| > 0 then
      Some(results[..if |results| < MaxShown then |results| else MaxShown])
    else None
  }

  /** One rendered row of the list. */
  datatype Row = Row(id: Id, itemName: string, isChecked: bool)

  /** The list area: a placeholder for an empty list, otherwise one row per entry. */
  datatype ListView = Placeholder | Rows(rows: seq<Row>)

  function RenderList(list: seq<Item>, checked: set<Id>): (v: ListView)
    ensures v.Placeholder? <==> |list| == 0
    ensures v.Rows? ==> |v.rows| == |list|
    ensures v.Rows? ==> forall i :: 0 <= i < |list| ==>
              v.rows[i].id == list[i].id && v.rows[i].itemName == list[i].itemName &&
              (v.rows[i].isChecked <==> list[i].id in checked)
  {
    if |list| == 0 then Placeholder
    else Rows(seq(|list|, i requires 0 <= i < |list| => Row(list[i].id, list[i].itemName, list[i].id in checked)))
  }

  /** Ids that no entry has do not show up in the rendered list. */
  lemma RenderIgnoresOtherIds(list: seq<Item>, checked: set<Id>, checked': set<Id>)
    requires forall x :: x in list ==> (x.id in checked <==> x.id in checked')
    ensures RenderList(list, checked) == RenderList(list, checked')
  {
  }

  /** After a delete, toggling the deleted id again has no effect on what is rendered. */
  lemma ToggleDeletedIsInvisible(list: seq<Item>, checked: set<Id>, id: Id)
    ensures RenderList(RemoveById(list, id), Toggle(checked, id)) == RenderList(RemoveById(list, id), checked)
  {
  }

  /** Deleting toggles the id rather than removing it, yet renders the same as removing it. */
  lemma DeleteRendersAsRemove(list: seq<Item>, checked: set<Id>, id: Id)
    ensures RenderList(RemoveById(list, id), Toggle(checked, id)) == RenderList(RemoveById(list, id), checked - {id})
  {
  }

  /** Deleting an unchecked entry leaves its id in the checked set with no entry carrying it. */
  lemma DeleteUncheckedLeavesStaleId(list: seq<Item>, checked: set<Id>, id: Id)
    requires id !in checked
    ensures id in Toggle(checked, id) && id !in IdSet(RemoveById(list, id))
  {
  }

  /** Deleting a checked entry keeps every checked id on an entry of the list. */
  lemma DeleteCheckedKeepsCheckedOnList(list: seq<Item>, checked: set<Id>, id: Id)
    requires checked <= IdSet(list)
    requires id in checked
    ensures Toggle(checked, id) <= IdSet(RemoveById(list, id))
  {
  }

  /** Toggling the id of an entry keeps every checked id on an entry of the list. */
  lemma ToggleListedKeepsCheckedOnList(list: seq<Item>, checked: set<Id>, id: Id)
    requires checked <= IdSet(list)
    requires id in IdSet(list)
    ensures Toggle(checked, id) <= IdSet(list)
  {
  }

  /** Appending an entry keeps every checked id on an entry of the list. */
  lemma AppendKeepsCheckedOnList(list: seq<Item>, checked: set<Id>, item: Item)
    requires checked <= IdSet(list)
    ensures checked <= IdSet(list + [item])
  {
    AppendIds(list, item);
  }
}
