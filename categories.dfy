/** Small stock wrapper for "maybe a value". */
module Wrappers {
  datatype Option<T> = None | Some(value: T)
}

/** The fixed category table and the strings the sidebar stores for a
    combined "place + category" search: how a click builds one, and how a
    click on a stored one is taken apart again. */
module Categories {
  import opened Text
  import opened Wrappers

  /** One entry of the category table: a content-type id and its display name. */
  datatype Category = Category(id: int, name: String)

  /** The category table, in the order the component searches it. */
  const Table: seq<Category> := [
    Category(12, "관광지"),
    Category(14, "문화시설"),
    Category(15, "행사/공연/축제"),
    Category(25, "여행코스"),
    Category(28, "레포츠"),
    Category(32, "숙박"),
    Category(38, "쇼핑"),
    Category(39, "음식점")
  ]

  /** No category name ends another one (so names are also distinct). */
  predicate SuffixFree(cats: seq<Category>)
  {
    forall i, j :: 0 <= i < |cats| && 0 <= j < |cats| && i != j ==>
      !IsSuffix(cats[i].name, cats[j].name)
  }

  /** A table whose names are non-empty and end in pairwise different
      characters (listed in lasts) is suffix-free. */
  lemma SuffixFreeByLastChar(cats: seq<Category>, lasts: String)
    requires |lasts| == |cats|
    requires forall i :: 0 <= i < |cats| ==>
               cats[i].name != [] && cats[i].name[|cats[i].name| - 1] == lasts[i]
    requires forall i, j :: 0 <= i < j < |lasts| ==> lasts[i] != lasts[j]
    ensures SuffixFree(cats)
  {
    // A name that ended another would end in the same character.
  }

  /** The last character of each category name, in table order. */
  const TableLastChars: String := "지설제스츠박핑점"

  lemma TableEndsInLastChars()
    ensures forall i :: 0 <= i < |Table| ==>
              Table[i].name != [] && Table[i].name[|Table[i].name| - 1] == TableLastChars[i]
    ensures forall i, j :: 0 <= i < j < |TableLastChars| ==> TableLastChars[i] != TableLastChars[j]
  {
  }

  /** No table name ends another, so a stored combined search can be taken
      apart unambiguously: the eight names end in eight different characters. */
  lemma TableIsSuffixFree()
    ensures SuffixFree(Table)
  {
    TableEndsInLastChars();
    SuffixFreeByLastChar(Table, TableLastChars);
  }

  /** No category of cats has a name that ends entry. */
  predicate NoneEnds(cats: seq<Category>, entry: String)
  {
    forall k :: 0 <= k < |cats| ==> !IsSuffix(cats[k].name, entry)
  }

  /** `categories.find(cat => entry.endsWith(cat.name))`: the first category
      of cats whose name ends entry, if there is one. */
  function FindCategory(cats: seq<Category>, entry: String): (r: Option<Category>)
    ensures r.None? <==> NoneEnds(cats, entry)
    ensures r.Some? ==> exists i :: 0 <= i < |cats| && cats[i] == r.value &&
                          IsSuffix(r.value.name, entry) && NoneEnds(cats[..i], entry)
  {
    if cats == [] then None
    else if IsSuffix(cats[0].name, entry) then
      assert cats[..0] == [];
      Some(cats[0])
    else
      var r := FindCategory(cats[1..], entry);
      if r.Some? then
        var i :| 0 <= i < |cats[1..]| && cats[1..][i] == r.value &&
                 IsSuffix(r.value.name, entry) && NoneEnds(cats[1..][..i], entry);
        assert cats[..i + 1] == [cats[0]] + cats[1..][..i];
        assert cats[i + 1] == r.value;
        r
      else
        r
  }

  /** In a suffix-free table, a category whose name ends the entry is the one
      `find` returns. */
  lemma {:induction false} FindCategoryUnique(cats: seq<Category>, entry: String, c: Category)
    requires SuffixFree(cats) && c in cats && IsSuffix(c.name, entry)
    ensures FindCategory(cats, entry) == Some(c)
  {
    if IsSuffix(cats[0].name, entry) {
      var j :| 0 <= j < |cats| && cats[j] == c;
      if j != 0 {
        if |cats[0].name| <= |c.name| {
          SuffixesNest(cats[0].name, c.name, entry);
        } else {
          SuffixesNest(c.name, cats[0].name, entry);
        }
        assert false;
      }
    } else {
      assert c in cats[1..];
      assert SuffixFree(cats[1..]) by {
        forall i, j | 0 <= i < |cats[1..]| && 0 <= j < |cats[1..]| && i != j
          ensures !IsSuffix(cats[1..][i].name, cats[1..][j].name)
        {
          assert cats[1..][i] == cats[i + 1] && cats[1..][j] == cats[j + 1];
        }
      }
      FindCategoryUnique(cats[1..], entry, c);
    }
  }

  /** `${query} ${category.name}`: the string a category click stores. */
  function Combine(query: String, name: String): (r: String)
    ensures |r| == |query| + 1 + |name|
    ensures IsPrefix(query, r) && r[|query|] == ' ' && IsSuffix(name, r)
  {
    query + " " + name
  }

  /** What a click on a stored combined search does. */
  datatype Decoded =
    | WholeLocation(query: String)               // no category ends it: search the whole entry as a place
    | Abort                                      // a category ends it but no place is left: do nothing
    | LocAndCat(location: String, categoryId: int)  // search the place, then select the category

  /** `handleRecentCategorySearchClick` against the category table cats (the
      component passes Table): find the first category whose name ends the
      entry; without one, search the whole entry; otherwise cut the name off
      and trim what is left, giving up when nothing is left. */
  function Decode(cats: seq<Category>, entry: String): (r: Decoded)
    ensures r.WholeLocation? <==> NoneEnds(cats, entry)
    ensures r.WholeLocation? ==> r.query == entry
    ensures !r.WholeLocation? ==>
              exists c :: c in cats && IsSuffix(c.name, entry) &&
                (if Trim(entry[..|entry| - |c.name|]) == [] then r.Abort?
                 else r == LocAndCat(Trim(entry[..|entry| - |c.name|]), c.id))
  {
    match FindCategory(cats, entry)
    case None => WholeLocation(entry)
    case Some(c) =>
      var location := Trim(entry[..|entry| - |c.name|]);
      if location == [] then Abort else LocAndCat(location, c.id)
  }

  /** Once `find` has picked category c, decoding depends only on what is left
      of the entry before c's name. */
  lemma DecodeFound(cats: seq<Category>, entry: String, c: Category)
    requires FindCategory(cats, entry) == Some(c)
    ensures |c.name| <= |entry|
    ensures Decode(cats, entry) == (var location := Trim(entry[..|entry| - |c.name|]);
                              if location == [] then Abort else LocAndCat(location, c.id))
  {
    var found := FindCategory(cats, entry);
    assert found == Some(c);
    assert IsSuffix(c.name, entry);
  }

  /** Round trip: a stored combined search for a table category decodes to
      that category's id and the trimmed query, or aborts when the query was
      only whitespace. */
  lemma DecodeCombine(query: String, c: Category)
    requires c in Table
    ensures Decode(Table, Combine(query, c.name)) ==
              if Trim(query) == [] then Abort else LocAndCat(Trim(query), c.id)
  {
    TableIsSuffixFree();
    DecodeCombineIn(Table, query, c);
  }

  /** The round trip holds for every suffix-free table. */
  lemma DecodeCombineIn(cats: seq<Category>, query: String, c: Category)
    requires SuffixFree(cats) && c in cats
    ensures Decode(cats, Combine(query, c.name)) ==
              if Trim(query) == [] then Abort else LocAndCat(Trim(query), c.id)
  {
    var entry := Combine(query, c.name);
    FindCategoryUnique(cats, entry, c);
    DecodeFound(cats, entry, c);
    CombineHead(query, c.name);
    TrimDropsSeparator(query);
  }

  /** Cutting the category name off a combined search leaves the query and
      the separating space. */
  lemma CombineHead(query: String, name: String)
    ensures var entry := Combine(query, name);
            entry[..|entry| - |name|] == query + " "
  {
  }

  /** The separating space does not survive `trim`. */
  lemma TrimDropsSeparator(query: String)
    ensures Trim(query + " ") == Trim(query)
  {
    assert AllWhitespace(" ");
    TrimAppendWhitespace(query, " ");
  }

  /** Every stored combined search for a table category names that category:
      decoding it never falls back to a whole-entry place search. */
  lemma CombineEndsInCategory(query: String, c: Category)
    requires c in Table
    ensures FindCategory(Table, Combine(query, c.name)) == Some(c)
  {
    TableIsSuffixFree();
    FindCategoryUnique(Table, Combine(query, c.name), c);
  }
}
