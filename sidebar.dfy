/** The search sidebar's state and its event handlers. The geocoding service,
    the map and the parent's category callback are outside the model: what the
    geocoder answered is a parameter of the handler it answers, and the
    category the parent is asked to select is the handler's result. */
module SidebarState {
  import opened Text
  import opened Wrappers
  import opened Recent
  import opened Categories

  /** One geocoder address: road-name address, lot-number (jibun) address and
      the coordinates as the service sends them. */
  datatype AddressItem = AddressItem(roadAddress: String, jibunAddress: String, x: String, y: String)

  /** `suggestion.roadAddress || suggestion.jibunAddress`: the road address
      when there is one, else the lot-number address. */
  function ChooseAddress(item: AddressItem): (r: String)
    ensures item.roadAddress != [] ==> r == item.roadAddress
    ensures item.roadAddress == [] ==> r == item.jibunAddress
    ensures r == [] <==> item.roadAddress == [] && item.jibunAddress == []
  {
    if item.roadAddress != [] then item.roadAddress else item.jibunAddress
  }

  /** The place a click on a stored combined search searches, if any. */
  function SearchedPlace(d: Decoded): Option<String>
  {
    match d
    case WholeLocation(q) => Some(q)
    case Abort => None
    case LocAndCat(location, _) => Some(location)
  }

  /** Every entry of a combined-search list ends in a category name. */
  predicate AllEndInCategory(entries: seq<String>)
  {
    forall k :: 0 <= k < |entries| ==> !NoneEnds(Table, entries[k])
  }

  /** Recording a combined search for a table category keeps every entry of
      the list ending in a category name. */
  lemma AddCombinedEndsInCategory(prev: seq<String>, query: String, c: Category)
    requires AllEndInCategory(prev) && c in Table
    ensures AllEndInCategory(AddRecent(prev, Combine(query, c.name)))
  {
    var entry := Combine(query, c.name);
    CombineEndsInCategory(query, c);
    var r := AddRecent(prev, entry);
    forall k | 0 <= k < |r| ensures !NoneEnds(Table, r[k]) {
      if k > 0 {
        var i :| 0 <= i < |prev| && prev[i] == r[k];
      }
    }
  }

  class Sidebar {
    /** The text in the search box. */
    var query: String
    /** The address suggestions shown under the search box. */
    var suggestions: seq<AddressItem>
    /** The places searched successfully or picked from the suggestions,
        newest first. */
    var recentLocationSearches: seq<String>
    /** The combined "place category" searches, newest first. */
    var recentCategorySearches: seq<String>
    /** The text whose suggestion lookup is waiting on the 300 ms debounce
        timer, if a timer is running. */
    var pendingLookup: Option<String>

    /** Both lists are histories (at most five entries, no duplicates), and
        every combined search ends in a category name. */
    ghost predicate Valid()
      reads this
    {
      IsHistory(recentLocationSearches) && IsHistory(recentCategorySearches) &&
      AllEndInCategory(recentCategorySearches)
    }

    /** The component mounts with an empty search box and empty lists. */
    constructor ()
      ensures Valid()
      ensures query == [] && suggestions == [] && pendingLookup == None
      ensures recentLocationSearches == [] && recentCategorySearches == []
    {
      query := [];
      suggestions := [];
      recentLocationSearches := [];
      recentCategorySearches := [];
      pendingLookup := None;
    }

    /** `performSearch`: an empty query does nothing; otherwise the query goes
        into the search box and, when the geocoder found the place, it is
        recorded as the newest place search and the suggestions close.
        `found` says whether the success callback ran. */
    method PerformSearch(searchQuery: String, geocodeFound: bool) returns (found: bool)
      requires Valid()
      modifies this
      ensures Valid()
      ensures found <==> searchQuery != [] && geocodeFound
      ensures query == if searchQuery == [] then old(query) else searchQuery
      ensures recentLocationSearches ==
                if found then AddRecent(old(recentLocationSearches), searchQuery)
                else old(recentLocationSearches)
      ensures suggestions == if found then [] else old(suggestions)
      ensures recentCategorySearches == old(recentCategorySearches)
      ensures pendingLookup == old(pendingLookup)
    {
      found := false;
      if searchQuery == [] {
        return;
      }
      query := searchQuery;
      if geocodeFound {
        AddRecentKeepsHistory(recentLocationSearches, searchQuery);
        recentLocationSearches := AddRecent(recentLocationSearches, searchQuery);
        suggestions := [];
        found := true;
      }
    }

    /** `handleSearch`: submitting the form searches the text in the box. */
    method HandleSearch(geocodeFound: bool) returns (found: bool)
      requires Valid()
      modifies this
      ensures Valid()
      ensures found <==> old(query) != [] && geocodeFound
      ensures query == old(query)
      ensures recentLocationSearches ==
                if found then AddRecent(old(recentLocationSearches), old(query))
                else old(recentLocationSearches)
      ensures suggestions == if found then [] else old(suggestions)
      ensures recentCategorySearches == old(recentCategorySearches)
      ensures pendingLookup == old(pendingLookup)
    {
      found := PerformSearch(query, geocodeFound);
    }

    /** `handleInputChange`: the box shows the new text; any waiting lookup is
        cancelled; a non-empty text starts a new one, an empty text clears the
        suggestions. */
    method HandleInputChange(newQuery: String)
      requires Valid()
      modifies this
      ensures Valid()
      ensures query == newQuery
      ensures pendingLookup == if newQuery == [] then None else Some(newQuery)
      ensures suggestions == if newQuery == [] then [] else old(suggestions)
      ensures recentLocationSearches == old(recentLocationSearches)
      ensures recentCategorySearches == old(recentCategorySearches)
    {
      query := newQuery;
      pendingLookup := None;
      if newQuery != [] {
        pendingLookup := Some(newQuery);
      } else {
        suggestions := [];
      }
    }

    /** The debounce timer fires: the waiting lookup runs, and when the
        geocoder answers OK its addresses become the suggestions. Only the
        lookup for the latest text can fire; a cancelled one never does. */
    method LookupFired(geocodeOk: bool, addresses: seq<AddressItem>)
      requires Valid()
      modifies this
      ensures Valid()
      ensures pendingLookup == None
      ensures suggestions == if old(pendingLookup).Some? && geocodeOk then addresses else old(suggestions)
      ensures query == old(query)
      ensures recentLocationSearches == old(recentLocationSearches)
      ensures recentCategorySearches == old(recentCategorySearches)
    {
      if pendingLookup.Some? && geocodeOk {
        suggestions := addresses;
      }
      pendingLookup := None;
    }

    /** `handleSuggestionClick`: the chosen address goes into the box, the
        suggestions close and the address is recorded as the newest place
        search (the suggestion already carries its coordinates). */
    method HandleSuggestionClick(item: AddressItem) returns (address: String)
      requires Valid()
      modifies this
      ensures Valid()
      ensures address == ChooseAddress(item)
      ensures query == address && suggestions == []
      ensures recentLocationSearches == AddRecent(old(recentLocationSearches), address)
      ensures recentCategorySearches == old(recentCategorySearches)
      ensures pendingLookup == old(pendingLookup)
    {
      address := ChooseAddress(item);
      query := address;
      suggestions := [];
      AddRecentKeepsHistory(recentLocationSearches, address);
      recentLocationSearches := AddRecent(recentLocationSearches, address);
    }

    /** `handleCategoryClick`: with text in the box, "<text> <category name>"
        is recorded as the newest combined search; the category is selected
        either way. */
    method HandleCategoryClick(c: Category) returns (selectedId: int)
      requires Valid() && c in Table
      modifies this
      ensures Valid()
      ensures selectedId == c.id
      ensures recentCategorySearches ==
                if old(query) != [] then AddRecent(old(recentCategorySearches), Combine(old(query), c.name))
                else old(recentCategorySearches)
      ensures query == old(query) && suggestions == old(suggestions)
      ensures recentLocationSearches == old(recentLocationSearches)
      ensures pendingLookup == old(pendingLookup)
    {
      if query != [] {
        var combined := Combine(query, c.name);
        AddRecentKeepsHistory(recentCategorySearches, combined);
        AddCombinedEndsInCategory(recentCategorySearches, query, c);
        recentCategorySearches := AddRecent(recentCategorySearches, combined);
      }
      selectedId := c.id;
    }

    /** `handleRecentCategorySearchClick`: decode the stored entry; search the
        place it names, if any, and select its category only once that search
        found the place. */
    method HandleRecentCategorySearchClick(item: String, geocodeFound: bool) returns (selected: Option<int>)
      requires Valid()
      modifies this
      ensures Valid()
      ensures var d := Decode(Table, item);
              selected == if d.LocAndCat? && geocodeFound then Some(d.categoryId) else None
      ensures var place := SearchedPlace(Decode(Table, item));
              var found := place.Some? && place.value != [] && geocodeFound;
              && query == (if place.Some? && place.value != [] then place.value else old(query))
              && recentLocationSearches ==
                   (if found then AddRecent(old(recentLocationSearches), place.value)
                    else old(recentLocationSearches))
              && suggestions == (if found then [] else old(suggestions))
      ensures recentCategorySearches == old(recentCategorySearches)
      ensures pendingLookup == old(pendingLookup)
    {
      selected := None;
      match Decode(Table, item)
      case WholeLocation(q) =>
        var _ := PerformSearch(q, geocodeFound);
      case Abort =>
      case LocAndCat(location, id) =>
        var found := PerformSearch(location, geocodeFound);
        if found {
          selected := Some(id);
        }
    }
  }
}
