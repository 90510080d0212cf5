/** The catalog (menu.py): a fixed sequence of menu items indexed by id,
    with read-only queries and the menu text grouped by category. */
module Menu {
  import opened Wrappers
  import opened Seqs
  import opened Text
  import opened Sorting
  import opened Models

  /** The sample catalog of menu.py, prices in cents. */
  function MenuItems(): seq<MenuItem>
  {
    [ MenuItem("burger1", "Classic Burger", "burgers", 699, Some("Beef patty with lettuce, tomato, and special sauce"), true),
      MenuItem("burger2", "Cheeseburger", "burgers", 899, Some("Classic burger with melted cheese"), true),
      MenuItem("burger3", "Double Burger", "burgers", 1099, Some("Two beef patties with all the fixings"), true),
      MenuItem("burger4", "Veggie Burger", "burgers", 799, Some("Plant-based patty with fresh vegetables"), true),
      MenuItem("side1", "French Fries", "sides", 349, Some("Crispy golden fries"), true),
      MenuItem("side2", "Onion Rings", "sides", 449, Some("Beer-battered onion rings"), true),
      MenuItem("side3", "Side Salad", "sides", 499, Some("Fresh mixed greens with dressing"), true),
      MenuItem("drink1", "Small Coke", "drinks", 199, Some("Coca-Cola (16oz)"), true),
      MenuItem("drink2", "Medium Coke", "drinks", 249, Some("Coca-Cola (22oz)"), true),
      MenuItem("drink3", "Large Coke", "drinks", 299, Some("Coca-Cola (32oz)"), true),
      MenuItem("drink4", "Bottled Water", "drinks", 149, Some("Pure spring water"), true),
      MenuItem("drink5", "Milkshake", "drinks", 499, Some("Chocolate, vanilla, or strawberry"), true),
      MenuItem("dessert1", "Apple Pie", "desserts", 299, Some("Warm apple pie"), true),
      MenuItem("dessert2", "Ice Cream Cone", "desserts", 249, Some("Soft serve vanilla ice cream"), true) ]
  }

  /** No two items share an id (they are the keys of a dict). */
  ghost predicate UniqueIds(items: seq<MenuItem>)
  {
    forall i, j :: 0 <= i < j < |items| ==> items[i].id != items[j].id
  }

  /** Dropping the first item keeps ids unique; the dropped id is not
      among the rest. */
  lemma UniqueIdsTail(items: seq<MenuItem>)
    requires items != [] && UniqueIds(items)
    ensures UniqueIds(items[1..])
    ensures forall x :: x in items[1..] ==> x.id != items[0].id
  {
    forall i, j | 0 <= i < j < |items[1..]| ensures items[1..][i].id != items[1..][j].id {
      assert items[1..][i] == items[i + 1] && items[1..][j] == items[j + 1];
    }
    forall x | x in items[1..] ensures x.id != items[0].id {
      var k :| 0 <= k < |items[1..]| && items[1..][k] == x;
      assert items[k + 1] == x;
    }
  }

  /** Keeping some of the items, in order, keeps their ids unique. */
  lemma {:induction false} SubsequenceUniqueIds(a: seq<MenuItem>, b: seq<MenuItem>)
    requires IsSubsequence(a, b) && UniqueIds(b)
    ensures UniqueIds(a)
    decreases |b|
  {
    if a != [] {
      UniqueIdsTail(b);
      if a[0] == b[0] && IsSubsequence(a[1..], b[1..]) {
        SubsequenceUniqueIds(a[1..], b[1..]);
        SubsequenceMembers(a[1..], b[1..]);
        UniqueIdsCons(a[0], a[1..]);
        assert a == [a[0]] + a[1..];
      } else {
        SubsequenceUniqueIds(a, b[1..]);
      }
    }
  }

  /** `d[item.id] = item` on a dict whose values are `entries` in insertion
      order: an entry with the same id is replaced where it stands,
      otherwise the item goes at the end. */
  function PutById(entries: seq<MenuItem>, item: MenuItem): (r: seq<MenuItem>)
    ensures item in r
    ensures forall x :: x in r ==> x == item || x in entries
    ensures forall x :: x in entries && x.id != item.id ==> x in r
    ensures (forall x :: x in entries ==> x.id != item.id) ==> r == entries + [item]
  {
    if entries == [] then [item]
    else
      assert entries == [entries[0]] + entries[1..];
      if entries[0].id == item.id then [item] + entries[1..]
      else [entries[0]] + PutById(entries[1..], item)
  }

  /** The first entry with the item's id is replaced where it stands; every
      other entry keeps its place. */
  lemma {:induction false} PutByIdReplacesInPlace(entries: seq<MenuItem>, item: MenuItem, i: nat)
    requires i < |entries| && entries[i].id == item.id
    requires forall j :: 0 <= j < i ==> entries[j].id != item.id
    ensures PutById(entries, item) == entries[i := item]
  {
    UpdateCons(entries, i, item);
    if i > 0 {
      var tail := entries[1..];
      assert entries[0].id != item.id;
      forall j | 0 <= j < i - 1 ensures tail[j].id != item.id {
        assert tail[j] == entries[j + 1];
      }
      PutByIdReplacesInPlace(tail, item, i - 1);
    }
  }

  /** An item whose id is not among `rest` can go in front of it. */
  lemma UniqueIdsCons(x: MenuItem, rest: seq<MenuItem>)
    requires UniqueIds(rest)
    requires forall y :: y in rest ==> y.id != x.id
    ensures UniqueIds([x] + rest)
  {
    var r := [x] + rest;
    forall i, j | 0 <= i < j < |r| ensures r[i].id != r[j].id {
      assert r[j] == rest[j - 1];
      if i > 0 {
        assert r[i] == rest[i - 1];
      } else {
        assert r[j] in rest;
      }
    }
  }

  /** Putting into a dict keeps its keys unique. */
  lemma {:induction false} PutByIdUnique(entries: seq<MenuItem>, item: MenuItem)
    requires UniqueIds(entries)
    ensures UniqueIds(PutById(entries, item))
  {
    if entries != [] {
      UniqueIdsTail(entries);
      var tail := entries[1..];
      if entries[0].id == item.id {
        assert PutById(entries, item) == [item] + tail;
        UniqueIdsCons(item, tail);
      } else {
        PutByIdUnique(tail, item);
        var rest := PutById(tail, item);
        assert PutById(entries, item) == [entries[0]] + rest;
        UniqueIdsCons(entries[0], rest);
      }
    }
  }

  /** Dropping the last item keeps ids unique; the dropped id is not
      among the rest. */
  lemma UniqueIdsFront(items: seq<MenuItem>)
    requires items != [] && UniqueIds(items)
    ensures UniqueIds(items[..|items| - 1])
    ensures forall x :: x in items[..|items| - 1] ==> x.id != items[|items| - 1].id
  {
    var prefix := items[..|items| - 1];
    forall i, j | 0 <= i < j < |prefix| ensures prefix[i].id != prefix[j].id {
      assert prefix[i] == items[i] && prefix[j] == items[j];
    }
    forall x | x in prefix ensures x.id != items[|items| - 1].id {
      var k :| 0 <= k < |prefix| && prefix[k] == x;
      assert items[k] == x;
    }
  }

  /** `{item.id: item for item in source}.values()`: one entry per id, in
      the order ids first appear, holding the last item with that id. */
  function IndexById(source: seq<MenuItem>): (r: seq<MenuItem>)
    ensures UniqueIds(r)
    ensures forall x :: x in r ==> x in source
    ensures UniqueIds(source) ==> r == source
  {
    if source == [] then []
    else
      var prefix := source[..|source| - 1];
      var last := source[|source| - 1];
      assert source == prefix + [last];
      var entries := IndexById(prefix);
      assert UniqueIds(source) ==> UniqueIds(prefix) && forall x :: x in prefix ==> x.id != last.id by {
        if UniqueIds(source) { UniqueIdsFront(source); }
      }
      PutByIdUnique(entries, last);
      PutById(entries, last)
  }

  /** The first item of `items` with this id, if any. */
  function FindById(items: seq<MenuItem>, id: string): (r: Option<MenuItem>)
    ensures r.Some? <==> exists x :: x in items && x.id == id
    ensures r.Some? ==> r.value in items && r.value.id == id
    ensures UniqueIds(items) ==> forall x :: x in items && x.id == id ==> r == Some(x)
  {
    if items == [] then None
    else if items[0].id == id then
      assert UniqueIds(items) ==> forall x :: x in items && x.id == id ==> x == items[0] by {
        if UniqueIds(items) {
          forall x | x in items && x.id == id ensures x == items[0] {
            var k :| 0 <= k < |items| && items[k] == x;
          }
        }
      }
      Some(items[0])
    else
      assert items == [items[0]] + items[1..];
      assert UniqueIds(items) ==> UniqueIds(items[1..]) by {
        if UniqueIds(items) { UniqueIdsTail(items); }
      }
      FindById(items[1..], id)
  }

  /** The search test of `search_items`: the query occurs in the name, or in
      a present, non-empty description, ignoring ASCII case. */
  predicate MatchesQuery(item: MenuItem, query: string)
  {
    Contains(Lower(item.name), Lower(query))
    || (item.description.Some? && item.description.value != ""
        && Contains(Lower(item.description.value), Lower(query)))
  }

  /** Items whose category is exactly `c` (the grouping of `get_menu_text`,
      which does not fold case). */
  function InCategory(c: string): MenuItem -> bool
  {
    (x: MenuItem) => x.category == c
  }

  /** The categories of `items` in order of first appearance: the keys of
      the `categories` dict that `get_menu_text` fills. */
  function Categories(items: seq<MenuItem>): (r: seq<string>)
    ensures NoDup(r)
    ensures forall c :: c in r <==> exists x :: x in items && x.category == c
  {
    if items == [] then []
    else
      var prefix := items[..|items| - 1];
      var last := items[|items| - 1];
      assert items == prefix + [last];
      var cs := Categories(prefix);
      if last.category in cs then cs else cs + [last.category]
  }

  /** One block of the menu text: a category and its items. */
  datatype MenuSection = MenuSection(category: string, items: seq<MenuItem>)

  /** One section per category of `cs`, holding that category's items in
      catalog order. */
  function SectionsFor(items: seq<MenuItem>, cs: seq<string>): seq<MenuSection>
  {
    seq(|cs|, k requires 0 <= k < |cs| => MenuSection(cs[k], Filter(items, InCategory(cs[k]))))
  }

  lemma RenderLinesSnoc(items: seq<MenuItem>, j: nat)
    requires j < |items|
    ensures RenderLines(items[..j + 1]) == RenderLines(items[..j]) + MenuLine(items[j])
  {
    assert items[..j + 1][..j] == items[..j];
  }

  /** One more category adds its section at the end of the text. */
  lemma SectionsForSnoc(items: seq<MenuItem>, cs: seq<string>, k: nat)
    requires k < |cs|
    ensures RenderSections(SectionsFor(items, cs[..k + 1]))
         == RenderSections(SectionsFor(items, cs[..k])) + SectionHeader(cs[k]) + RenderLines(Filter(items, InCategory(cs[k])))
  {
    var secs := SectionsFor(items, cs[..k + 1]);
    assert secs[..k] == SectionsFor(items, cs[..k]);
    assert secs[k] == MenuSection(cs[k], Filter(items, InCategory(cs[k])));
  }

  /** The sections of the menu text: `sorted(categories.items())`. */
  function Sections(items: seq<MenuItem>): seq<MenuSection>
  {
    SectionsFor(items, Sort(Categories(items)))
  }

  /** All the items of the sections, section after section. */
  function Flatten(sections: seq<MenuSection>): seq<MenuItem>
  {
    if sections == [] then []
    else Flatten(sections[..|sections| - 1]) + sections[|sections| - 1].items
  }

  const MenuBanner: string := "\n=== MENU ===\n"

  function SectionHeader(category: string): string
  {
    "\n" + Upper(category) + ":\n"
  }

  function MenuLine(item: MenuItem): string
  {
    "  - " + item.name + ": $" + Money(item.price) + "\n"
  }

  function RenderLines(items: seq<MenuItem>): string
  {
    if items == [] then ""
    else RenderLines(items[..|items| - 1]) + MenuLine(items[|items| - 1])
  }

  function RenderSections(sections: seq<MenuSection>): string
  {
    if sections == [] then ""
    else
      var last := sections[|sections| - 1];
      RenderSections(sections[..|sections| - 1]) + SectionHeader(last.category) + RenderLines(last.items)
  }

  /** The text `get_menu_text` returns for a catalog. */
  function MenuText(items: seq<MenuItem>): string
  {
    MenuBanner + RenderSections(Sections(items))
  }

  /** The categories of one more item: its category is added when new. */
  lemma CategoriesSnoc(items: seq<MenuItem>, i: nat)
    requires i < |items|
    ensures Categories(items[..i + 1])
         == if items[i].category in Categories(items[..i]) then Categories(items[..i])
            else Categories(items[..i]) + [items[i].category]
  {
    assert items[..i + 1][..i] == items[..i];
  }

  /** The grouping step of `get_menu_text` for item `i`: a category seen
      for the first time becomes a key with an empty list, then the item is
      appended to its category's list. */
  lemma GroupStep(items: seq<MenuItem>, i: nat, categories: map<string, seq<MenuItem>>, keys: seq<string>)
    requires i < |items|
    requires keys == Categories(items[..i])
    requires forall c :: c in categories <==> c in keys
    requires forall c :: c in categories ==> categories[c] == Filter(items[..i], InCategory(c))
    ensures var item := items[i];
            var cats := if item.category in categories then categories else categories[item.category := []];
            var keys' := if item.category in categories then keys else keys + [item.category];
            var cats' := cats[item.category := cats[item.category] + [item]];
            && keys' == Categories(items[..i + 1])
            && (forall c :: c in cats' <==> c in keys')
            && (forall c :: c in cats' ==> cats'[c] == Filter(items[..i + 1], InCategory(c)))
  {
    var item := items[i];
    CategoriesSnoc(items, i);
    var cats := if item.category in categories then categories else categories[item.category := []];
    var cats' := cats[item.category := cats[item.category] + [item]];
    forall c | c in cats'
      ensures cats'[c] == Filter(items[..i + 1], InCategory(c))
    {
      FilterPrefixSnoc(items, i, InCategory(c));
    }
  }

  /** The catalog held by menu.py's `MenuManager`: its `items` dict, by
      value order. */
  datatype MenuManager = MenuManager(items: seq<MenuItem>)
  {
    /** Ids are unique, as dict keys are. */
    ghost predicate Valid()
    {
      UniqueIds(items)
    }

    /** `get_all_items`: the dict's values in insertion order, so no two
        share an id. */
    function GetAllItems(): (r: seq<MenuItem>)
      ensures r == items
      ensures Valid() ==> UniqueIds(r)
    {
      items
    }

    /** `get_item_by_id`: the item with that id, or None when there is none. */
    function GetItemById(id: string): (r: Option<MenuItem>)
      ensures r.Some? <==> exists x :: x in items && x.id == id
      ensures r.Some? ==> r.value in items && r.value.id == id
      ensures Valid() ==> forall x :: x in items && x.id == id ==> r == Some(x)
    {
      FindById(items, id)
    }

    /** `search_items`: exactly the items matching the query, in catalog
        order. */
    function SearchItems(query: string): (r: seq<MenuItem>)
      ensures forall x :: x in r <==> x in items && MatchesQuery(x, query)
      ensures IsSubsequence(r, items)
    {
      Filter(items, (x: MenuItem) => MatchesQuery(x, query))
    }

    /** `get_items_by_category`: exactly the items whose category equals
        `category` ignoring ASCII case, in catalog order; empty for an
        unknown category. */
    function GetItemsByCategory(category: string): (r: seq<MenuItem>)
      ensures forall x :: x in r <==> x in items && Lower(x.category) == Lower(category)
      ensures IsSubsequence(r, items)
      ensures r == [] <==> forall x :: x in items ==> Lower(x.category) != Lower(category)
    {
      Filter(items, (x: MenuItem) => Lower(x.category) == Lower(category))
    }

    /** The first half of `get_menu_text`: the `categories` dict, built by
        appending every item to the list of its category, keys in order of
        first appearance. */
    method GroupByCategory() returns (categories: map<string, seq<MenuItem>>, keys: seq<string>)
      ensures keys == Categories(items)
      ensures forall c :: c in categories <==> c in keys
      ensures forall c :: c in categories ==> categories[c] == Filter(items, InCategory(c))
    {
      categories := map[];
      keys := [];
      for i := 0 to |items|
        invariant keys == Categories(items[..i])
        invariant forall c :: c in categories <==> c in keys
        invariant forall c :: c in categories ==> categories[c] == Filter(items[..i], InCategory(c))
      {
        var item := items[i];
        GroupStep(items, i, categories, keys);
        if item.category !in categories {
          categories := categories[item.category := []];
          keys := keys + [item.category];
        }
        categories := categories[item.category := categories[item.category] + [item]];
      }
      assert items[..|items|] == items;
    }

    /** `get_menu_text`: the categories in sorted order, each under its
        upper-cased name, one line per item. */
    method GetMenuText() returns (text: string)
      ensures text == MenuText(items)
    {
      var categories, keys := GroupByCategory();
      var sorted := Sort(keys);
      text := MenuBanner;
      assert SectionsFor(items, sorted[..0]) == [];
      for k := 0 to |sorted|
        invariant text == MenuBanner + RenderSections(SectionsFor(items, sorted[..k]))
      {
        var c := sorted[k];
        SectionsForSnoc(items, sorted, k);
        var done := RenderSections(SectionsFor(items, sorted[..k]));
        ConcatAssoc(MenuBanner, done, SectionHeader(c));
        ConcatAssoc(MenuBanner, done + SectionHeader(c), RenderLines(categories[c]));
        text := AppendLines(text + SectionHeader(c), categories[c]);
      }
      assert sorted[..|sorted|] == sorted;
    }

    /** The inner loop of `get_menu_text`: one line per item, appended. */
    static method AppendLines(head: string, lines: seq<MenuItem>) returns (text: string)
      ensures text == head + RenderLines(lines)
    {
      text := head;
      for j := 0 to |lines|
        invariant text == head + RenderLines(lines[..j])
      {
        RenderLinesSnoc(lines, j);
        ConcatAssoc(head, RenderLines(lines[..j]), MenuLine(lines[j]));
        text := text + MenuLine(lines[j]);
      }
      assert lines[..|lines|] == lines;
    }
  }

  /** `MenuManager()` built from a list of items. */
  function NewMenuManager(source: seq<MenuItem>): (m: MenuManager)
    ensures m.Valid()
    ensures UniqueIds(source) ==> m.items == source
  {
    MenuManager(IndexById(source))
  }

  /** The sample catalog has no two items with the same id. */
  lemma FixtureIdsUnique()
    ensures UniqueIds(MenuItems())
  {
    var items := MenuItems();
    forall i, j | 0 <= i < j < |items| ensures items[i].id != items[j].id {
      assert items[i].id[|items[i].id| - 1] != items[j].id[|items[j].id| - 1]
          || items[i].id[0] != items[j].id[0] || items[i].id[1] != items[j].id[1];
    }
  }

  /** The sample catalog has unique ids, so `get_all_items` returns it in
      its own order. */
  lemma FixtureCatalog()
    ensures NewMenuManager(MenuItems()).GetAllItems() == MenuItems()
  {
    FixtureIdsUnique();
  }

  /** The menu text lists its categories in strictly increasing order. */
  lemma MenuSectionsSorted(items: seq<MenuItem>)
    ensures forall i, j :: 0 <= i < j < |Sections(items)| ==>
              LexLess(Sections(items)[i].category, Sections(items)[j].category)
  {
    var cs := Sort(Categories(items));
    SortNoDup(Categories(items));
    SortedNoDupIsStrict(cs);
  }

  /** Every section is a non-empty run of items of its own category, in
      catalog order, and every item's category has a section. */
  lemma MenuSectionsShape(items: seq<MenuItem>)
    ensures forall k :: 0 <= k < |Sections(items)| ==>
              && Sections(items)[k].items != []
              && IsSubsequence(Sections(items)[k].items, items)
              && forall x :: x in Sections(items)[k].items <==> x in items && x.category == Sections(items)[k].category
    ensures forall x :: x in items ==> exists k :: 0 <= k < |Sections(items)| && Sections(items)[k].category == x.category
  {
    var cs := Sort(Categories(items));
    var secs := Sections(items);
    forall k | 0 <= k < |secs| ensures secs[k].items != [] {
      assert cs[k] in Categories(items);
      var x :| x in items && x.category == cs[k];
      assert x in secs[k].items;
    }
    forall x | x in items ensures exists k :: 0 <= k < |secs| && secs[k].category == x.category {
      assert x.category in cs;
      var k :| 0 <= k < |cs| && cs[k] == x.category;
      assert secs[k].category == x.category;
    }
  }

  /** How often an item occurs in the sections for the distinct categories
      `cs`: as often as in the catalog when its category is among them,
      never otherwise. */
  lemma {:induction false} SectionsForCount(items: seq<MenuItem>, cs: seq<string>, x: MenuItem)
    requires NoDup(cs)
    ensures multiset(Flatten(SectionsFor(items, cs)))[x] == if x.category in cs then multiset(items)[x] else 0
  {
    if cs != [] {
      var n := |cs| - 1;
      var prefix := cs[..n];
      NoDupFront(cs);
      SectionsForCount(items, prefix, x);
      var f := Filter(items, InCategory(cs[n]));
      FilterCount(items, InCategory(cs[n]), x);
      assert multiset(f)[x] == if x.category == cs[n] then multiset(items)[x] else 0;
      var flat := Flatten(SectionsFor(items, prefix));
      FlattenSectionsForSnoc(items, cs);
      assert multiset(flat + f) == multiset(flat) + multiset(f);
      InFront(cs, x.category);
    }
  }

  /** The last category's items come last in the flattened sections. */
  lemma FlattenSectionsForSnoc(items: seq<MenuItem>, cs: seq<string>)
    requires cs != []
    ensures Flatten(SectionsFor(items, cs))
         == Flatten(SectionsFor(items, cs[..|cs| - 1])) + Filter(items, InCategory(cs[|cs| - 1]))
  {
    var secs := SectionsFor(items, cs);
    assert secs[..|secs| - 1] == SectionsFor(items, cs[..|cs| - 1]);
  }

  /** Every catalog item appears in the menu text's sections exactly as
      often as in the catalog: once each when ids are unique. */
  lemma MenuSectionsCoverCatalog(items: seq<MenuItem>)
    ensures multiset(Flatten(Sections(items))) == multiset(items)
  {
    var cs := Sort(Categories(items));
    SortNoDup(Categories(items));
    forall x ensures multiset(Flatten(Sections(items)))[x] == multiset(items)[x] {
      SectionsForCount(items, cs, x);
      if x in items {
        assert x.category in Categories(items);
      }
    }
  }
}
