/** The element palette of the sidebar and its search box. */
module Sidebar {
  import opened Text
  import Store

  /** An entry of the palette; `id` is the element type it creates. The icon
      is not modelled. */
  datatype PaletteItem = PaletteItem(id: string, name: string, description: string)

  datatype Category = Category(name: string, elements: seq<PaletteItem>)

  /** The palette: three categories of element types. */
  const ElementCategories: seq<Category> := [
    Category("Basic", [
      PaletteItem("text", "Text", "Add text content"),
      PaletteItem("heading1", "Heading 1", "Add a large heading"),
      PaletteItem("heading2", "Heading 2", "Add a medium heading"),
      PaletteItem("image", "Image", "Add an image"),
      PaletteItem("button", "Button", "Add a button"),
      PaletteItem("link", "Link", "Add a hyperlink"),
      PaletteItem("list", "List", "Add a bulleted or numbered list")
    ]),
    Category("Layout", [
      PaletteItem("container", "Container", "Group elements together"),
      PaletteItem("columns", "Columns", "Create a multi-column layout")
    ]),
    Category("Advanced", [
      PaletteItem("form", "Form", "Add a contact form"),
      PaletteItem("video", "Video", "Embed a video"),
      PaletteItem("map", "Map", "Embed a map")
    ])
  ]

  /** An item matches a lower-cased term when its lower-cased name or
      description includes it. */
  predicate Matches(e: PaletteItem, term: string) {
    Contains(ToLower(e.name), term) || Contains(ToLower(e.description), term)
  }

  /** `category.elements.filter(...)`: the matching items, in order. */
  function FilterItems(es: seq<PaletteItem>, term: string): (r: seq<PaletteItem>)
    ensures |r| <= |es|
    ensures forall e :: e in r <==> e in es && Matches(e, term)
  {
    if es == [] then []
    else (if Matches(es[0], term) then [es[0]] else []) + FilterItems(es[1..], term)
  }

  /** The `map` then `filter` of `handleSearch`: each category keeps its
      matching items, and categories left without any are dropped. */
  function FilterCategories(cats: seq<Category>, term: string): (r: seq<Category>)
    ensures |r| <= |cats|
  {
    if cats == [] then []
    else
      var c := cats[0].(elements := FilterItems(cats[0].elements, term));
      (if |c.elements| > 0 then [c] else []) + FilterCategories(cats[1..], term)
  }

  /** The categories shown for a lower-cased search term: all of them when
      the term is empty. */
  function SearchResult(term: string): seq<Category> {
    if term == "" then ElementCategories else FilterCategories(ElementCategories, term)
  }

  /** The state `handleSearch` and `clearSearch` update. */
  class SidebarState {
    var searchTerm: string
    var filteredCategories: seq<Category>

    /** The categories shown always follow the stored term. */
    ghost predicate Valid()
      reads this
    {
      filteredCategories == SearchResult(searchTerm)
    }

    constructor()
      ensures Valid()
      ensures searchTerm == "" && filteredCategories == ElementCategories
    {
      searchTerm := "";
      filteredCategories := ElementCategories;
    }

    /** `handleSearch`: stores the lower-cased input and filters the palette
        with it. */
    method HandleSearch(value: string)
      modifies this
      ensures Valid()
      ensures searchTerm == ToLower(value)
      ensures filteredCategories == SearchResult(ToLower(value))
    {
      var term := ToLower(value);
      searchTerm := term;
      if term == "" {
        filteredCategories := ElementCategories;
        return;
      }
      filteredCategories := FilterCategories(ElementCategories, term);
    }

    /** `clearSearch`: empties the term and shows the whole palette. */
    method ClearSearch()
      modifies this
      ensures Valid()
      ensures searchTerm == "" && filteredCategories == ElementCategories
    {
      searchTerm := "";
      filteredCategories := ElementCategories;
    }
  }

  // ---------------------------------------------------------------------
  // Properties

  /** Filtering items keeps their order: it distributes over concatenation. */
  lemma {:induction false} FilterItemsAppend(a: seq<PaletteItem>, b: seq<PaletteItem>, term: string)
    ensures FilterItems(a + b, term) == FilterItems(a, term) + FilterItems(b, term)
  {
    if a != [] {
      assert (a + b)[0] == a[0];
      assert (a + b)[1..] == a[1..] + b;
      FilterItemsAppend(a[1..], b, term);
    } else {
      assert a + b == b;
    }
  }

  /** Filtering categories keeps their order as well. */
  lemma {:induction false} FilterCategoriesAppend(a: seq<Category>, b: seq<Category>, term: string)
    ensures FilterCategories(a + b, term) == FilterCategories(a, term) + FilterCategories(b, term)
  {
    if a != [] {
      assert (a + b)[0] == a[0];
      assert (a + b)[1..] == a[1..] + b;
      FilterCategoriesAppend(a[1..], b, term);
    } else {
      assert a + b == b;
    }
  }

  /** Every category shown is a palette category, with the same name, cut
      down to its matching items, of which there is at least one. */
  lemma {:induction false} FilterCategoriesSound(cats: seq<Category>, term: string)
    ensures forall c :: c in FilterCategories(cats, term) ==>
              c.elements != [] &&
              exists c0 :: c0 in cats && c == c0.(elements := FilterItems(c0.elements, term))
  {
    if cats != [] {
      FilterCategoriesSound(cats[1..], term);
      var c := cats[0].(elements := FilterItems(cats[0].elements, term));
      var head := if |c.elements| > 0 then [c] else [];
      assert FilterCategories(cats, term) == head + FilterCategories(cats[1..], term);
      forall c' | c' in FilterCategories(cats[1..], term)
        ensures exists c0 :: c0 in cats && c' == c0.(elements := FilterItems(c0.elements, term))
      {
        var c0 :| c0 in cats[1..] && c' == c0.(elements := FilterItems(c0.elements, term));
        assert c0 in cats;
      }
    }
  }

  /** Every palette category with a matching item is shown. */
  lemma {:induction false} FilterCategoriesComplete(cats: seq<Category>, term: string)
    ensures forall c0 :: c0 in cats && FilterItems(c0.elements, term) != [] ==>
              c0.(elements := FilterItems(c0.elements, term)) in FilterCategories(cats, term)
  {
    if cats != [] {
      FilterCategoriesComplete(cats[1..], term);
      var c := cats[0].(elements := FilterItems(cats[0].elements, term));
      var head := if |c.elements| > 0 then [c] else [];
      assert FilterCategories(cats, term) == head + FilterCategories(cats[1..], term);
      assert forall c0 :: c0 in cats ==> c0 == cats[0] || c0 in cats[1..];
    }
  }

  /** The empty term matches every item. */
  lemma {:induction false} EmptyTermKeepsItems(es: seq<PaletteItem>)
    ensures FilterItems(es, "") == es
  {
    if es != [] {
      ContainsEmpty(ToLower(es[0].name));
      EmptyTermKeepsItems(es[1..]);
      assert es == [es[0]] + es[1..];
    }
  }

  /** With the empty term, filtering gives back every category that has
      items. */
  lemma {:induction false} EmptyTermKeepsCategories(cats: seq<Category>)
    requires forall i :: 0 <= i < |cats| ==> cats[i].elements != []
    ensures FilterCategories(cats, "") == cats
  {
    if cats != [] {
      EmptyTermKeepsItems(cats[0].elements);
      EmptyTermKeepsCategories(cats[1..]);
      assert cats == [cats[0]] + cats[1..];
    }
  }

  /** The shortcut for the empty term shows what filtering would: the
      search result is the filtered palette for every term. */
  lemma SearchResultIsFilter(term: string)
    ensures SearchResult(term) == FilterCategories(ElementCategories, term)
  {
    if term == "" {
      EmptyTermKeepsCategories(ElementCategories);
    }
  }

  /** The search ignores the case of what is typed: two inputs whose
      letters differ only in case show the same categories. */
  lemma SearchIgnoresCase(a: string, b: string)
    requires |a| == |b| && forall i :: 0 <= i < |a| ==> LowerChar(a[i]) == LowerChar(b[i])
    ensures SearchResult(ToLower(a)) == SearchResult(ToLower(b))
  {
    assert ToLower(a) == ToLower(b);
  }

  /** Typing any part of a palette item's name or description, in any mix
      of cases, shows that item. */
  lemma TypingPartOfNameFinds(e: PaletteItem, fragment: string)
    requires exists c0 :: c0 in ElementCategories && e in c0.elements
    requires Contains(e.name, fragment) || Contains(e.description, fragment)
    ensures exists c :: c in SearchResult(ToLower(fragment)) && e in c.elements
  {
    ContainsLower(e.name, fragment);
    ContainsLower(e.description, fragment);
    ShownIff(ToLower(fragment), e);
  }

  /** An item is shown for a non-empty term exactly when it is in the palette
      and matches the term. */
  lemma ShownIff(term: string, e: PaletteItem)
    ensures (exists c :: c in SearchResult(term) && e in c.elements) <==>
            (exists c0 :: c0 in ElementCategories && e in c0.elements && Matches(e, term))
  {
    SearchResultIsFilter(term);
    FilterCategoriesSound(ElementCategories, term);
    FilterCategoriesComplete(ElementCategories, term);
    if exists c0 :: c0 in ElementCategories && e in c0.elements && Matches(e, term) {
      var c0 :| c0 in ElementCategories && e in c0.elements && Matches(e, term);
      assert e in FilterItems(c0.elements, term);
    }
  }

  /** Each palette entry creates one of the element types the store has
      defaults for. */
  lemma PaletteCreatesKnownTypes()
    ensures forall i, k :: 0 <= i < |ElementCategories| && 0 <= k < |ElementCategories[i].elements| ==>
              ElementCategories[i].elements[k].id in Store.ElementTypes
  {
  }

  /** Every element type the store knows has a palette entry. */
  lemma EveryTypeInPalette(kind: string)
    requires kind in Store.ElementTypes
    ensures exists i, k :: 0 <= i < |ElementCategories| && 0 <= k < |ElementCategories[i].elements| &&
              ElementCategories[i].elements[k].id == kind
  {
    var basic := ElementCategories[0].elements;
    var layout := ElementCategories[1].elements;
    var advanced := ElementCategories[2].elements;
    if kind == "text" { assert basic[0].id == kind; }
    else if kind == "heading1" { assert basic[1].id == kind; }
    else if kind == "heading2" { assert basic[2].id == kind; }
    else if kind == "image" { assert basic[3].id == kind; }
    else if kind == "button" { assert basic[4].id == kind; }
    else if kind == "link" { assert basic[5].id == kind; }
    else if kind == "list" { assert basic[6].id == kind; }
    else if kind == "container" { assert layout[0].id == kind; }
    else if kind == "columns" { assert layout[1].id == kind; }
    else if kind == "form" { assert advanced[0].id == kind; }
    else if kind == "video" { assert advanced[1].id == kind; }
    else { assert advanced[2].id == kind; }
  }
}
