/** The derived view: `filterAndSortProducts` followed by `sliceProducts`,
    as a pure function of the products and the view fields. */
module CatalogView {
  import opened Text
  import opened Catalog
  import opened Paging

  /** `filterAndSortProducts` (lines 70-88): filter by the query, then sort
      stably by price in the direction the sort order names. */
  function FilterAndSort(ps: seq<Product>, query: string, order: string): (r: seq<Product>)
    ensures Sorted(r, order)
    ensures multiset(r) == multiset(FilterProducts(ps, query))
    ensures forall price :: WithPrice(r, price) == WithPrice(FilterProducts(ps, query), price)
    ensures query == "" ==> multiset(r) == multiset(ps)
    ensures query != "" ==> forall x :: x in r <==> x in ps && Matches(x, query)
  {
    var filtered := FilterProducts(ps, query);
    SortSorts(filtered, order);
    SortPermutes(filtered, order);
    assert forall price :: WithPrice(SortByPrice(filtered, order), price) == WithPrice(filtered, price) by {
      forall price
        ensures WithPrice(SortByPrice(filtered, order), price) == WithPrice(filtered, price)
      {
        SortStable(filtered, order, price);
      }
    }
    var r := SortByPrice(filtered, order);
    assert forall x :: x in r <==> x in multiset(r);
    r
  }

  /** What one render lists: the current page of the filtered, sorted products. */
  function View(ps: seq<Product>, query: string, order: string, page: int): (r: seq<Product>)
    ensures page >= 1 ==> |r| <= ItemsPerPage
    ensures page >= 1 ==> forall x :: x in r ==> x in ps
    ensures page >= 1 ==> Sorted(r, order)
  {
    var all := FilterAndSort(ps, query, order);
    var r := PageOf(all, page);
    assert page >= 1 ==> forall x :: x in r ==> x in multiset(all);
    assert forall x :: x in multiset(FilterProducts(ps, query)) ==> x in ps;
    r
  }

  /** The filter commutes with picking out the products of one price. */
  lemma {:induction false} WithPriceKeepMatching(s: seq<Product>, query: string, price: int)
    ensures WithPrice(KeepMatching(s, query), price) == KeepMatching(WithPrice(s, price), query)
  {
    if s != [] {
      WithPriceKeepMatching(s[1..], query, price);
    }
  }

  /** When the query is empty, the stored `products` array itself is sorted
      in place (lines 71, 82). That reordering never shows: whatever order
      the products were stored in by an earlier render, every later
      filter-and-sort gives the same result. */
  lemma StoredSortUnobservable(ps: seq<Product>, earlier: string, query: string, order: string)
    ensures FilterAndSort(SortByPrice(ps, earlier), query, order) == FilterAndSort(ps, query, order)
  {
    if query == "" {
      SortForgetsEarlierSort(ps, earlier, order);
    } else {
      var stored := SortByPrice(ps, earlier);
      var r1 := FilterAndSort(stored, query, order);
      var r2 := FilterAndSort(ps, query, order);
      forall price
        ensures WithPrice(r1, price) == WithPrice(r2, price)
      {
        WithPriceKeepMatching(stored, query, price);
        WithPriceKeepMatching(ps, query, price);
        SortStable(ps, earlier, price);
      }
      StableSortUnique(r1, r2, order);
    }
  }

  /** With no products there is nothing to list and no page button. */
  lemma EmptyCatalog(query: string, order: string, page: int)
    ensures FilterAndSort([], query, order) == []
    ensures PageCount(|FilterAndSort([], query, order)|) == 0
    ensures View([], query, order, page) == []
  {
  }

  /** Pages 1 to the button count, in order, list every filtered product exactly once. */
  lemma ButtonsCoverView(ps: seq<Product>, query: string, order: string)
    ensures Pages(FilterAndSort(ps, query, order), PageCount(|FilterAndSort(ps, query, order)|))
         == FilterAndSort(ps, query, order)
  {
    PagesCoverAll(FilterAndSort(ps, query, order));
  }

  /** `Array.prototype.sort` is required to be stable (ECMAScript 2019 and
      later), so the result of lines 82-85 is fixed: any list that is sorted
      by price in the requested direction and keeps the filtered products of
      each price in their order is exactly `FilterAndSort`. */
  lemma AnyStableSortAgrees(ps: seq<Product>, query: string, order: string, r: seq<Product>)
    requires Sorted(r, order)
    requires forall price :: WithPrice(r, price) == WithPrice(FilterProducts(ps, query), price)
    ensures r == FilterAndSort(ps, query, order)
  {
    StableSortUnique(r, FilterAndSort(ps, query, order), order);
  }

  // A small catalog: a phone and two cheaper accessories.
  const PhoneItem := Product(1, "Phone", "", 500)
  const CaseItem := Product(2, "Case", "", 10)
  const ChargerItem := Product(3, "Charger", "", 20)
  const SmallCatalog := [PhoneItem, CaseItem, ChargerItem]

  /** Ascending: the cheapest first, all three on page 1, page 2 empty. */
  lemma ScenarioAscending()
    ensures View(SmallCatalog, "", "asc", 1) == [CaseItem, ChargerItem, PhoneItem]
    ensures View(SmallCatalog, "", "asc", 2) == []
    ensures PageCount(|FilterAndSort(SmallCatalog, "", "asc")|) == 1
  {
    SortSmallCatalogAscending();
  }

  lemma SortSmallCatalogAscending()
    ensures SortByPrice(SmallCatalog, "asc") == [CaseItem, ChargerItem, PhoneItem]
  {
    assert SmallCatalog[..2][..1] == [PhoneItem];
    assert SmallCatalog[..2] == [PhoneItem, CaseItem];
    assert SortByPrice([PhoneItem], "asc") == [PhoneItem];
    assert Insert([], CaseItem, "asc") == [CaseItem];
    assert SortByPrice([PhoneItem, CaseItem], "asc") == [CaseItem, PhoneItem];
    assert [CaseItem, PhoneItem][..1] == [CaseItem];
    assert Insert([CaseItem], ChargerItem, "asc") == [CaseItem, ChargerItem];
  }

  /** Descending: the dearest first. */
  lemma ScenarioDescending()
    ensures View(SmallCatalog, "", "desc", 1) == [PhoneItem, ChargerItem, CaseItem]
  {
    SortSmallCatalogDescending();
  }

  lemma SortSmallCatalogDescending()
    ensures SortByPrice(SmallCatalog, "desc") == [PhoneItem, ChargerItem, CaseItem]
  {
    assert SmallCatalog[..2][..1] == [PhoneItem];
    assert SmallCatalog[..2] == [PhoneItem, CaseItem];
    assert SortByPrice([PhoneItem], "desc") == [PhoneItem];
    assert SortByPrice([PhoneItem, CaseItem], "desc") == [PhoneItem, CaseItem];
    assert [PhoneItem, CaseItem][..1] == [PhoneItem];
    assert Insert([PhoneItem], ChargerItem, "desc") == [PhoneItem, ChargerItem];
  }

  /** Searching "phone" keeps only the phone, whatever the case of its title. */
  lemma ScenarioSearch()
    ensures FilterAndSort(SmallCatalog, "phone", "asc") == [PhoneItem]
    ensures PageCount(|FilterAndSort(SmallCatalog, "phone", "asc")|) == 1
    ensures View(SmallCatalog, "phone", "asc", 2) == []
  {
    ScenarioSearchFilter();
    assert SortByPrice([PhoneItem], "asc") == [PhoneItem];
  }

  lemma ScenarioSearchFilter()
    ensures KeepMatching(SmallCatalog, "phone") == [PhoneItem]
  {
    PhoneMatches();
    AccessoriesDoNotMatch();
    assert SmallCatalog[1..] == [CaseItem, ChargerItem];
  }

  lemma AccessoriesDoNotMatch()
    ensures KeepMatching([CaseItem, ChargerItem], "phone") == []
  {
    CaseDoesNotMatch();
    ChargerDoesNotMatch();
    var kept := KeepMatching([CaseItem, ChargerItem], "phone");
    assert forall i :: 0 <= i < |kept| ==> kept[i] in kept;
  }

  lemma LowerPhone()
    ensures Lower("Phone") == "phone" && Lower("phone") == "phone" && Lower("") == ""
  {
    var l := Lower("Phone");
    assert l[0] == 'p';
  }

  lemma LowerCase()
    ensures Lower("Case") == "case"
  {
    var l := Lower("Case");
    assert l[0] == 'c';
  }

  lemma LowerCharger()
    ensures Lower("Charger") == "charger"
  {
    var l := Lower("Charger");
    assert l[0] == 'c';
  }

  lemma PhoneMatches()
    ensures Matches(PhoneItem, "phone")
  {
    LowerPhone();
    assert OccursAt("phone", "phone", 0);
  }

  lemma CaseDoesNotMatch()
    ensures !Matches(CaseItem, "phone")
  {
    LowerPhone();
    LowerCase();
  }

  lemma ChargerDoesNotMatch()
    ensures !Matches(ChargerItem, "phone")
  {
    LowerPhone();
    LowerCharger();
    ChargerLacksPhone();
  }

  lemma ChargerLacksPhone()
    ensures !Contains("charger", "phone")
  {
    assert "charger"[..5][0] != "phone"[0];
    assert "charger"[1..] == "harger";
    assert "harger"[..5][0] != "phone"[0];
    assert "harger"[1..] == "arger";
    assert "arger"[0] != "phone"[0];
    assert "arger"[1..] == "rger";
  }
}
