# Sidebar search history and category-search decoding

A Dafny model of the search sidebar of a map-based travel recommender
(`src/components/Sidebar.tsx`). The sidebar keeps two "recent search" lists:

- the places searched successfully or picked from the suggestions;
- the combined "place + category" searches.

Both lists use one update: the new entry goes to the front, any earlier copy
of it is dropped, and only five entries are kept. A category click stores
`"<query> <category name>"`. A click on a stored combined search takes it
apart again, using the fixed table of eight tourism categories.

Modules:

- `Text` (`text.dfy`): JavaScript's `endsWith` and `trim` over strings
  modelled as `seq<char>`. `trim` strips the ECMAScript WhiteSpace and
  LineTerminator characters. It is defined by stripping the front and then the
  back, and it is proved equal to the unique piece of the string that has
  whitespace-only margins and non-whitespace ends.
- `Recent` (`recent.dfy`): the history update `AddRecent` and its properties.
  The main theorem says that a list that starts empty always holds exactly the
  five most recently searched distinct entries, newest first. It is stated
  against an independent definition: reverse the searches, keep the first copy
  of each entry, take five.
- `Categories` (`categories.dfy`): the category table, `find` by name suffix,
  combine, decode, and the round trip between combine and decode. The round
  trip relies on the table being suffix-free: the eight names end in eight
  different characters.
- `SidebarState` (`sidebar.dfy`): the component's state as a class. Its fields
  are the search box text, the suggestions, the two lists and the pending
  debounced lookup. There is one method per event handler. The class invariant
  says that both lists are duplicate-free with at most five entries, and that
  every stored combined search ends in a category name.

The geocoder's answer is a `bool` (or an address list) parameter of the
handler it answers. The category the parent component is asked to select is
the handler's result.

A whitespace-only search text is truthy in JavaScript, so a category click
records it. `DecodeCombine` shows that such an entry decodes to `Abort`: a
later click on it does nothing. Leading and trailing whitespace of the query
is likewise not recovered by decoding; the trimmed query is.

## Model

| member | source | states |
|---|---|---|
| `Recent.RemoveAll` | src/components/Sidebar.tsx:51 | the filter keeps exactly the entries different from the item, all of which come from the input, and never grows the list |
| `Recent.Take` | src/components/Sidebar.tsx:51 | `slice(0, n)` has length min(n, length) and agrees with the input position by position |
| `Recent.AddRecent` | src/components/Sidebar.tsx:51 | the new entry is first and occurs nowhere else; the list has 1 to 5 entries; every other entry was already in the old list |
| `Recent.AddRecentKeepsHistory` | src/components/Sidebar.tsx:51 | a duplicate-free list stays duplicate-free with at most five entries |
| `Recent.AddRecentMovesToFront` | src/components/Sidebar.tsx:95 | re-searching an entry at position k gives that entry followed by the old list without position k, in order |
| `Recent.AddRecentPushesFront` | src/components/Sidebar.tsx:101 | a new entry is pushed on the front and the oldest entry falls off a full list |
| `Recent.AddRecentNewestUnchanged` | src/components/Sidebar.tsx:51 | re-searching the newest entry leaves the list unchanged |
| `Recent.AddRecentIdempotent` | src/components/Sidebar.tsx:95 | recording the same entry twice in a row equals recording it once |
| `Recent.AddRecentTruncated` | src/components/Sidebar.tsx:51 | entries beyond the fifth never influence a later update |
| `Recent.RemoveAllAt` | src/components/Sidebar.tsx:51 | in a duplicate-free list the filter removes exactly the one position holding the item |
| `Recent.Replay` | src/components/Sidebar.tsx:37-51 | a list that starts empty (`useState([])`) and goes through the update once per search holds at most five entries, never more than there were searches, with the latest search at the front |
| `Recent.ReplayIsHistory` | src/components/Sidebar.tsx:37-51 | a list that starts empty is always duplicate-free with at most five entries |
| `Recent.ReplayIsMostRecentDistinct` | src/components/Sidebar.tsx:37-51 | a list that starts empty holds exactly the five most recent distinct searches, newest first |
| `Text.IsSuffix` | src/components/Sidebar.tsx:108 | `endsWith`: the last characters of the string equal the suffix, position by position |
| `Text.IsWhitespace` | src/components/Sidebar.tsx:116 | the characters `trim()` strips: the ECMAScript WhiteSpace and LineTerminator code points |
| `Text.TrimStart` | src/components/Sidebar.tsx:116 | the result is a suffix that does not start with whitespace, and all that was cut off is whitespace |
| `Text.TrimEnd` | src/components/Sidebar.tsx:116 | the result is a prefix that does not end with whitespace, and all that was cut off is whitespace |
| `Text.Trim` | src/components/Sidebar.tsx:116 | `trim()` returns the piece after the leading whitespace with whitespace-only margins and non-whitespace ends; it is empty exactly when the string is all whitespace |
| `Text.TrimUnique` | src/components/Sidebar.tsx:116 | any piece with whitespace-only margins and non-whitespace ends is the result of `trim()` |
| `Text.TrimIdempotent` | src/components/Sidebar.tsx:116 | trimming twice equals trimming once |
| `Text.TrimAppendWhitespace` | src/components/Sidebar.tsx:100-116 | whitespace appended to a string, such as the separating space of a combined search, is removed by `trim()` |
| `Text.SuffixesNest` | src/components/Sidebar.tsx:108 | two names that both end an entry end one another |
| `Categories.Table` | src/components/Sidebar.tsx:17-26 | the eight content-type ids and names, in the order `find` searches them |
| `Categories.TableEndsInLastChars` | src/components/Sidebar.tsx:17-26 | every table name is non-empty, and the eight names end in eight different characters |
| `Categories.TableIsSuffixFree` | src/components/Sidebar.tsx:17-26 | no category name in the table ends another one |
| `Categories.FindCategory` | src/components/Sidebar.tsx:108 | `find` gives none exactly when no name ends the entry, and otherwise the first category whose name ends it |
| `Categories.FindCategoryUnique` | src/components/Sidebar.tsx:17-26 | in a suffix-free table, any category whose name ends the entry is the one `find` returns |
| `Categories.Combine` | src/components/Sidebar.tsx:100 | the stored string is the query, a space, then the category name |
| `Categories.Decode` | src/components/Sidebar.tsx:106-121 | no name ends the entry iff the whole entry is searched as a place; otherwise the name is cut off and the rest trimmed, aborting when that is empty and else giving the place and the category id |
| `Categories.DecodeCombine` | src/components/Sidebar.tsx:100-121 | decoding a combined search for a table category gives the trimmed query and that category's id, or aborts when the query is only whitespace |
| `Categories.DecodeCombineIn` | src/components/Sidebar.tsx:100-121 | the same round trip holds for any table in which no name ends another |
| `Categories.CombineEndsInCategory` | src/components/Sidebar.tsx:100-108 | `find` on a combined search returns the category it was built from |
| `SidebarState.ChooseAddress` | src/components/Sidebar.tsx:88 | the road address when it is non-empty, else the lot-number address; empty only when both are |
| `SidebarState.AddCombinedEndsInCategory` | src/components/Sidebar.tsx:99-101 | recording a combined search keeps every entry of the list ending in a category name |
| `SidebarState.Sidebar.constructor` | src/components/Sidebar.tsx:35-39 | the component starts with an empty box, no suggestions, empty lists and no pending lookup |
| `SidebarState.Sidebar.PerformSearch` | src/components/Sidebar.tsx:41-58 | an empty query changes nothing; otherwise the box shows it, and on a geocoder hit it becomes the newest place search and the suggestions close; the result says whether the success callback ran |
| `SidebarState.Sidebar.HandleSearch` | src/components/Sidebar.tsx:60-63 | submitting searches the box's text, with the effects of `PerformSearch` |
| `SidebarState.Sidebar.HandleInputChange` | src/components/Sidebar.tsx:65-85 | the box shows the new text; the waiting lookup is replaced by one for a non-empty text or cancelled with the suggestions cleared for an empty one |
| `SidebarState.Sidebar.LookupFired` | src/components/Sidebar.tsx:74-81 | the debounced lookup for the latest text sets the suggestions on an OK answer; a cancelled lookup changes nothing |
| `SidebarState.Sidebar.HandleSuggestionClick` | src/components/Sidebar.tsx:87-96 | the chosen address fills the box, the suggestions close, and it becomes the newest place search |
| `SidebarState.Sidebar.HandleCategoryClick` | src/components/Sidebar.tsx:98-104 | "query name" becomes the newest combined search only when the box is non-empty; the category id is always reported |
| `SidebarState.Sidebar.HandleRecentCategorySearchClick` | src/components/Sidebar.tsx:106-127 | the whole entry is searched when no category name ends it, otherwise the trimmed text before the name; an aborted click (nothing left) changes nothing; the category is selected only when decoding gave one and the search found the place |

## Left out

- Geocoding calls, `naver.maps.LatLng`, `parseFloat` of the coordinates and `setSearchedLocation`: these are map-SDK calls. The geocoder's verdict is a parameter, and moving the map is not modelled.
- The checks that the map SDK is loaded (`src/components/Sidebar.tsx:42`, `:75`): the SDK is taken to be present.
- `alert` (`src/components/Sidebar.tsx:55`, `:119`): a user-visible message with no effect on state.
- Asynchronous ordering: each geocoder answer is applied at the handler call it answers. A lookup answer that arrives after a later keystroke is not modelled. The 300 ms delay itself is not modelled, only that a new keystroke cancels the waiting lookup.
- `SidebarState.Sidebar.LookupFired`: does not model the `|| []` fallback for a missing address list, because the answer is always a list here.
- `Categories.Decode`: takes the category table as a parameter; the component always decodes against `Categories.Table`.
- Strings are sequences of characters, while JavaScript strings are UTF-16 code units. All category names and all trimmed characters lie in the Basic Multilingual Plane, so `endsWith`, `substring` and `trim` give the same results for them.
- Rendering (`src/components/Sidebar.tsx:129-219`) and the other components, which only draw.
- `src/lib/distance.ts`: floating-point haversine distance.
- `src/app/api/odsay-directions/route.ts` and `src/app/api/search/route.ts`: HTTP proxies.
- The sorting of recommendations by floating-point distance (`src/app/page.tsx:38`, `src/components/RecommendationPanel.tsx:37`): a library sort after a network fetch.
- Walking/transit route selection and route-line assembly: none of the modelled source contains this logic.
