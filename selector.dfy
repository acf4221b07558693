/** The filterable selector of src/test.py: a list of items, each with a
    preview text, narrowed by a case-insensitive filter and ended by the first
    exit. The Textual widgets (list view, input box, preview pane, focus) are
    not modelled; what the handlers do to the session's own fields is. */
module Selector {
  import opened Common
  import opened Text

  // ----------------------------------------------------------- filtering

  /** `query.lower() in item.lower()` */
  predicate Matches(item: string, query: string)
  {
    Contains(Lower(item), Lower(query))
  }

  /** `[item for item in all_items if query in item.lower()]` with
      `query = value.lower()`. */
  function Filter(items: seq<string>, query: string): seq<string>
    decreases |items|
  {
    if items == [] then []
    else (if Matches(items[0], query) then [items[0]] else []) + Filter(items[1..], query)
  }

  /** The filtered list keeps items of the full list, in their order. */
  lemma {:induction false} FilterIsSubsequence(items: seq<string>, query: string)
    ensures IsSubsequence(Filter(items, query), items)
    decreases |items|
  {
    if items != [] {
      var rest := Filter(items[1..], query);
      FilterIsSubsequence(items[1..], query);
      if Matches(items[0], query) {
        assert Filter(items, query) == [items[0]] + rest;
        assert ([items[0]] + rest)[1..] == rest;
      } else {
        assert Filter(items, query) == rest;
      }
    }
  }

  /** An item survives the filter exactly when it is in the list and its
      lowered text contains the lowered query. */
  lemma {:induction false} FilterMembers(items: seq<string>, query: string, x: string)
    ensures x in Filter(items, query) <==> x in items && Matches(x, query)
    decreases |items|
  {
    if items != [] {
      FilterMembers(items[1..], query, x);
      assert items == [items[0]] + items[1..];
    }
  }

  /** The empty query keeps every item. */
  lemma {:induction false} FilterEmptyQuery(items: seq<string>)
    ensures Filter(items, "") == items
    decreases |items|
  {
    if items != [] {
      assert Lower("") == "";
      ContainsEmpty(Lower(items[0]));
      FilterEmptyQuery(items[1..]);
      assert items == [items[0]] + items[1..];
    }
  }

  /** The query's case does not matter. */
  lemma {:induction false} FilterIgnoresQueryCase(items: seq<string>, query: string)
    ensures Filter(items, Lower(query)) == Filter(items, query)
    decreases |items|
  {
    LowerIdempotent(query);
    if items != [] {
      FilterIgnoresQueryCase(items[1..], query);
    }
  }

  /** The first entry of the filtered list is the first matching item of the
      full list; the filtered list is empty exactly when nothing matches. */
  lemma {:induction false} FilterFirst(items: seq<string>, query: string, k: nat)
    requires k < |items| && Matches(items[k], query)
    requires forall j :: 0 <= j < k ==> !Matches(items[j], query)
    ensures Filter(items, query) != [] && Filter(items, query)[0] == items[k]
    decreases k
  {
    if k > 0 {
      FilterFirst(items[1..], query, k - 1);
    }
  }

  lemma {:induction false} FilterEmptyIff(items: seq<string>, query: string)
    ensures Filter(items, query) == [] <==> forall i :: 0 <= i < |items| ==> !Matches(items[i], query)
    decreases |items|
  {
    if items != [] {
      FilterEmptyIff(items[1..], query);
      if !Matches(items[0], query) {
        forall i | 0 <= i < |items|
          ensures Filter(items, query) == [] ==> !Matches(items[i], query)
        {
          if i > 0 { assert items[1..][i - 1] == items[i]; }
        }
      }
    }
  }

  /** Filtering a list in two parts is filtering each part: every item is
      kept or dropped on its own, as often as it occurs, and in order. */
  lemma {:induction false} FilterAppend(a: seq<string>, b: seq<string>, query: string)
    ensures Filter(a + b, query) == Filter(a, query) + Filter(b, query)
    decreases |a|
  {
    if a != [] {
      assert (a + b)[1..] == a[1..] + b;
      FilterAppend(a[1..], b, query);
    } else {
      assert a + b == b;
    }
  }

  // ------------------------------------------------------------- previews

  const Placeholder := "(No preview available)"
  const InitialPreview := "Select an item to see its preview"

  datatype Lookup =
    | Found(text: string)
      /** The text is not among the items: ValueError, caught. */
    | Absent
      /** The text is at a position with no preview: IndexError, not caught. */
    | IndexError

  /** `previews[all_items.index(text)]`. */
  function LookupPreview(allItems: seq<string>, previews: seq<string>, text: string): (r: Lookup)
    ensures r.Absent? <==> text !in allItems
    ensures r.Found? ==> exists i :: (0 <= i < |allItems| && i < |previews| && allItems[i] == text &&
      text !in allItems[..i] && r.text == previews[i])
    ensures r.IndexError? ==> text in allItems && |previews| < |allItems|
    ensures forall i :: 0 <= i < |allItems| && allItems[i] == text && text !in allItems[..i] ==>
      r == if i < |previews| then Found(previews[i]) else IndexError
  {
    match IndexOf(allItems, text)
    case None => Absent
    case Some(i) => if i < |previews| then Found(previews[i]) else IndexError
  }

  /** With a preview for every item, the lookup never raises, and an item
      gets the preview at its first position. */
  lemma LookupTotal(allItems: seq<string>, previews: seq<string>, i: nat)
    requires |previews| >= |allItems| && i < |allItems|
    requires allItems[i] !in allItems[..i]
    ensures LookupPreview(allItems, previews, allItems[i]) == Found(previews[i])
  {
  }

  // --------------------------------------------------------------- session

  datatype Status =
    | Running
      /** `self.exit(result)`: the session's result, None for no selection. */
    | Exited(result: Option<string>)
      /** An exception escaped a handler and ended the app. */
    | Crashed

  class FilterableList {
    const allItems: seq<string>
    const previews: seq<string>
    var filteredItems: seq<string>
    var filterMode: bool
    var currentHighlighted: Option<string>
    var previewContent: string
    var status: Status

    /** The filtered list is drawn from the full list in order, a highlight
        names an item of it, and the preview pane shows the initial text,
        the placeholder or one of the previews. */
    ghost predicate Valid()
      reads this
    {
      && IsSubsequence(filteredItems, allItems)
      && (currentHighlighted.Some? ==> currentHighlighted.value in filteredItems)
      && (previewContent == InitialPreview || previewContent == Placeholder || previewContent in previews)
    }

    /** What the invariant gives the handlers: the shown list is never longer
        than the full list, and every shown entry, the highlighted one
        included, is an item of the full list, so its preview lookup never
        takes the ValueError path. */
    lemma ShownWithinItems()
      requires Valid()
      ensures |filteredItems| <= |allItems|
      ensures forall i :: 0 <= i < |filteredItems| ==> filteredItems[i] in allItems
      ensures currentHighlighted.Some? ==> currentHighlighted.value in allItems
    {
      SubsequenceLength(filteredItems, allItems);
      forall i | 0 <= i < |filteredItems|
        ensures filteredItems[i] in allItems
      {
        SubsequenceMember(filteredItems, allItems, filteredItems[i]);
      }
      if currentHighlighted.Some? {
        SubsequenceMember(filteredItems, allItems, currentHighlighted.value);
      }
    }

    constructor(items: seq<string>, previewTexts: seq<string>)
      ensures allItems == items && previews == previewTexts
      ensures filteredItems == items && !filterMode && currentHighlighted == None
      ensures previewContent == InitialPreview && status == Running
      ensures Valid()
    {
      allItems := items;
      previews := previewTexts;
      filteredItems := items;
      filterMode := false;
      currentHighlighted := None;
      previewContent := InitialPreview;
      status := Running;
      SubsequenceRefl(items);
    }

    method Exit(result: Option<string>)
      requires status == Running
      modifies this
      ensures status == Exited(result)
      ensures filteredItems == old(filteredItems) && filterMode == old(filterMode)
      ensures currentHighlighted == old(currentHighlighted) && previewContent == old(previewContent)
    {
      status := Exited(result);
    }

    /** `/`: enter filter mode (the input box is shown and emptied). */
    method StartFilter()
      requires Valid() && status == Running
      modifies this
      ensures Valid() && status == Running && filterMode
      ensures filteredItems == old(filteredItems)
      ensures currentHighlighted == old(currentHighlighted) && previewContent == old(previewContent)
    {
      filterMode := true;
    }

    /** `_update_list`: the list is rebuilt and nothing is highlighted. */
    method UpdateList()
      requires IsSubsequence(filteredItems, allItems)
      requires previewContent == InitialPreview || previewContent == Placeholder || previewContent in previews
      modifies this
      ensures Valid() && currentHighlighted == None
      ensures filteredItems == old(filteredItems) && filterMode == old(filterMode)
      ensures previewContent == old(previewContent) && status == old(status)
    {
      currentHighlighted := None;
    }

    /** Escape: leave filter mode with the full list back, or, outside filter
        mode, end the session with no selection. */
    method CancelFilter()
      requires Valid() && status == Running
      modifies this
      ensures Valid() && previewContent == old(previewContent)
      ensures old(filterMode) ==>
        && status == Running && !filterMode
        && filteredItems == allItems && currentHighlighted == None
      ensures !old(filterMode) ==>
        && status == Exited(None) && !filterMode
        && filteredItems == old(filteredItems) && currentHighlighted == old(currentHighlighted)
    {
      if filterMode {
        filterMode := false;
        filteredItems := allItems;
        SubsequenceRefl(allItems);
        UpdateList();
      } else {
        Exit(None);
      }
    }

    /** App-level Enter: end the session with the highlighted item, when
        there is one and it is not empty. */
    method SelectItem()
      requires Valid() && status == Running
      modifies this
      ensures Valid()
      ensures filteredItems == old(filteredItems) && filterMode == old(filterMode)
      ensures currentHighlighted == old(currentHighlighted) && previewContent == old(previewContent)
      ensures status == if old(currentHighlighted).Some? && old(currentHighlighted).value != ""
        then Exited(old(currentHighlighted)) else Running
    {
      if currentHighlighted.Some? && currentHighlighted.value != "" {
        Exit(currentHighlighted);
      }
    }

    /** A change of the filter text: keep the items containing it, ignoring
        case, and drop the highlight. */
    method OnInputChanged(value: string)
      requires Valid() && status == Running
      modifies this
      ensures Valid() && status == Running
      ensures filteredItems == Filter(allItems, value) && currentHighlighted == None
      ensures filterMode == old(filterMode) && previewContent == old(previewContent)
    {
      filteredItems := Filter(allItems, value);
      FilterIsSubsequence(allItems, value);
      UpdateList();
    }

    /** A highlight change carrying the index of the highlighted entry of the
        shown list, or none. A missing or out-of-range index clears the
        highlight; otherwise the entry is highlighted and its preview, looked
        up by its first position in the full list, is shown. */
    method OnListViewHighlighted(index: Option<int>)
      requires Valid() && status == Running
      modifies this
      ensures Valid()
      ensures filteredItems == old(filteredItems) && filterMode == old(filterMode)
      ensures index.None? || !(0 <= index.value < |filteredItems|) ==>
        currentHighlighted == None && previewContent == Placeholder && status == Running
      ensures index.Some? && 0 <= index.value < |filteredItems| ==>
        var text := filteredItems[index.value];
        && currentHighlighted == Some(text)
        && match LookupPreview(allItems, previews, text)
           case Found(p) => previewContent == p && status == Running
           case Absent => previewContent == Placeholder && status == Running
           case IndexError => previewContent == old(previewContent) && status == Crashed
      ensures index.Some? && 0 <= index.value < |filteredItems| ==>
        !LookupPreview(allItems, previews, filteredItems[index.value]).Absent?
    {
      ShownWithinItems();
      if index.None? || !(0 <= index.value < |filteredItems|) {
        currentHighlighted := None;
        previewContent := Placeholder;
        return;
      }
      var text := filteredItems[index.value];
      currentHighlighted := Some(text);
      match LookupPreview(allItems, previews, text) {
        case Found(p) =>
          previewContent := p;
        case Absent =>
          // ValueError: ruled out, every shown entry is an item (ShownWithinItems)
          assert false;
        case IndexError =>
          status := Crashed;
      }
    }

    /** List "Selected": end the session with the selected entry, or, when the
        event names no entry, with the highlight if there is a non-empty one. */
    method OnListViewSelected(index: Option<int>)
      requires Valid() && status == Running
      modifies this
      ensures Valid()
      ensures filteredItems == old(filteredItems) && filterMode == old(filterMode)
      ensures currentHighlighted == old(currentHighlighted) && previewContent == old(previewContent)
      ensures index.Some? && 0 <= index.value < |filteredItems| ==>
        status == Exited(Some(filteredItems[index.value]))
      ensures index.None? || !(0 <= index.value < |filteredItems|) ==>
        status == if currentHighlighted.Some? && currentHighlighted.value != ""
          then Exited(currentHighlighted) else Running
    {
      if index.Some? && 0 <= index.value < |filteredItems| {
        Exit(Some(filteredItems[index.value]));
      } else if currentHighlighted.Some? && currentHighlighted.value != "" {
        Exit(currentHighlighted);
      }
    }

    /** Enter in the filter box: end the session with the first surviving
        item, or, when none survives, do what Escape does. */
    method OnInputSubmitted()
      requires Valid() && status == Running
      modifies this
      ensures Valid() && previewContent == old(previewContent)
      ensures old(filteredItems) != [] ==>
        && status == Exited(Some(old(filteredItems)[0]))
        && filteredItems == old(filteredItems) && filterMode == old(filterMode)
        && currentHighlighted == old(currentHighlighted)
      ensures old(filteredItems) == [] && old(filterMode) ==>
        && status == Running && !filterMode
        && filteredItems == allItems && currentHighlighted == None
      ensures old(filteredItems) == [] && !old(filterMode) ==>
        && status == Exited(None) && !filterMode
        && filteredItems == [] && currentHighlighted == None
    {
      if filteredItems == [] {
        CancelFilter();
        return;
      }
      var top := filteredItems[0];
      Exit(Some(top));
    }
  }

  // ------------------------------------------------------------- sessions

  /** `/` then Escape, with no text typed: back to browsing the full list. */
  method StartThenCancel(items: seq<string>, previewTexts: seq<string>)
    returns (shown: seq<string>, filtering: bool, status: Status)
    ensures shown == items && !filtering && status == Running
  {
    var session := new FilterableList(items, previewTexts);
    session.StartFilter();
    session.CancelFilter();
    shown, filtering, status := session.filteredItems, session.filterMode, session.status;
  }

  /** Typing a query that matches nothing and pressing Enter selects nothing
      and returns to browsing the full list. */
  method SubmitWithoutMatch(items: seq<string>, previewTexts: seq<string>, query: string)
    returns (shown: seq<string>, filtering: bool, status: Status)
    requires forall i :: 0 <= i < |items| ==> !Matches(items[i], query)
    ensures shown == items && !filtering && status == Running
  {
    var session := new FilterableList(items, previewTexts);
    session.StartFilter();
    session.OnInputChanged(query);
    FilterEmptyIff(items, query);
    session.OnInputSubmitted();
    shown, filtering, status := session.filteredItems, session.filterMode, session.status;
  }

  /** Typing a query and pressing Enter selects the first item that matches
      it, when one does. */
  method SubmitFirstMatch(items: seq<string>, previewTexts: seq<string>, query: string, k: nat)
    returns (status: Status)
    requires k < |items| && Matches(items[k], query)
    requires forall j :: 0 <= j < k ==> !Matches(items[j], query)
    ensures status == Exited(Some(items[k]))
  {
    var session := new FilterableList(items, previewTexts);
    session.StartFilter();
    session.OnInputChanged(query);
    FilterFirst(items, query, k);
    session.OnInputSubmitted();
    status := session.status;
  }

  /** "web" over web-a, web-b and db-1 keeps the first two, and Enter selects
      web-a, the first match and not the last. */
  method WebExample() returns (shown: seq<string>, status: Status)
    ensures shown == ["web-a", "web-b"] && status == Exited(Some("web-a"))
  {
    var items := ["web-a", "web-b", "db-1"];
    var session := new FilterableList(items, ["first web server", "second web server", "database"]);
    session.StartFilter();
    session.OnInputChanged("web");
    WebMatches();
    shown := session.filteredItems;
    session.OnInputSubmitted();
    status := session.status;
  }

  lemma WebMatches()
    ensures Filter(["web-a", "web-b", "db-1"], "web") == ["web-a", "web-b"]
  {
    assert Lower("web") == "web" && Lower("web-a") == "web-a" && Lower("web-b") == "web-b";
    assert Lower("db-1") == "db-1";
    assert OccursAt("web-a", "web", 0) && OccursAt("web-b", "web", 0);
    forall i: nat | i <= 4
      ensures !OccursAt("db-1", "web", i)
    {
      if i + 3 <= 4 {
        assert "db-1"[i..i + 3][0] != 'w';
      }
    }
    assert Filter(["db-1"], "web") == [];
    assert ["web-a", "web-b", "db-1"][1..] == ["web-b", "db-1"];
    assert ["web-b", "db-1"][1..] == ["db-1"];
  }

  /** Highlighting an entry while browsing and pressing Enter selects it,
      when every item has a preview and the entry is not empty. */
  method HighlightThenEnter(items: seq<string>, previewTexts: seq<string>, k: nat)
    returns (status: Status)
    requires k < |items| && |previewTexts| >= |items| && items[k] != ""
    ensures status == Exited(Some(items[k]))
  {
    var session := new FilterableList(items, previewTexts);
    session.OnListViewHighlighted(Some(k));
    match IndexOf(items, items[k])
    case Some(f) => LookupTotal(items, previewTexts, f);
    session.SelectItem();
    status := session.status;
  }

  /** Escape while browsing ends the session with no selection, whatever is
      highlighted. */
  method EscapeWhileBrowsing(items: seq<string>, previewTexts: seq<string>, index: Option<int>)
    returns (status: Status)
    requires |previewTexts| >= |items|
    ensures status == Exited(None)
  {
    var session := new FilterableList(items, previewTexts);
    session.OnListViewHighlighted(index);
    if index.Some? && 0 <= index.value < |items| {
      match IndexOf(items, items[index.value])
      case Some(f) => LookupTotal(items, previewTexts, f);
    }
    session.CancelFilter();
    status := session.status;
  }
}
