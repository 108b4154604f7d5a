/** The catalog items and the two stages of `filterAndSortProducts`:
    the case-insensitive search filter and the stable sort by price. */
module Catalog {
  import opened Text

  /** One item of the listing endpoint; prices are whole numbers here. */
  datatype Product = Product(id: int, title: string, description: string, price: int)

  // ---------------------------------------------------------------------
  // Filter
  // ---------------------------------------------------------------------

  /** The filter callback: the lower-cased query occurs in the lower-cased
      title or in the lower-cased description. */
  predicate Matches(p: Product, query: string)
  {
    var q := Lower(query);
    Contains(Lower(p.title), q) || Contains(Lower(p.description), q)
  }

  /** `a` is `b` with some elements removed, the rest in their original order. */
  predicate IsSubsequence(a: seq<Product>, b: seq<Product>)
    decreases |b|
  {
    if a == [] then true
    else if b == [] then false
    else if a[0] == b[0] then IsSubsequence(a[1..], b[1..])
    else IsSubsequence(a, b[1..])
  }

  /** `Array.prototype.filter` with the `Matches` callback. */
  function KeepMatching(ps: seq<Product>, query: string): (r: seq<Product>)
    ensures forall x :: x in r <==> x in ps && Matches(x, query)
    ensures IsSubsequence(r, ps)
  {
    if ps == [] then []
    else if Matches(ps[0], query) then [ps[0]] + KeepMatching(ps[1..], query)
    else
      var rest := KeepMatching(ps[1..], query);
      assert rest != [] ==> rest[0] != ps[0];
      rest
  }

  /** Lines 71-80: an empty query keeps the list as it is (the very same
      array); otherwise only the matching products are kept. */
  function FilterProducts(ps: seq<Product>, query: string): (r: seq<Product>)
    ensures query == "" ==> r == ps
    ensures query != "" ==> forall x :: x in r <==> x in ps && Matches(x, query)
    ensures IsSubsequence(r, ps)
  {
    if query == "" then
      SubsequenceRefl(ps);
      ps
    else KeepMatching(ps, query)
  }

  lemma {:induction false} SubsequenceRefl(s: seq<Product>)
    ensures IsSubsequence(s, s)
  {
    if s != [] {
      SubsequenceRefl(s[1..]);
    }
  }

  /** The filter keeps each product as often as the input holds it when it
      matches, and drops every copy when it does not. */
  lemma {:induction false} KeepMatchingCounts(ps: seq<Product>, query: string, x: Product)
    ensures multiset(KeepMatching(ps, query))[x] == if Matches(x, query) then multiset(ps)[x] else 0
  {
    if ps != [] {
      KeepMatchingCounts(ps[1..], query, x);
      assert ps == [ps[0]] + ps[1..];
    }
  }

  /** The `if (searchQuery)` guard only decides whether the result is the
      stored array itself: an empty query would match every product anyway,
      since every string includes "". */
  lemma {:induction false} KeepMatchingEmptyQuery(ps: seq<Product>)
    ensures KeepMatching(ps, "") == ps
  {
    if ps != [] {
      assert Lower("") == "";
      ContainsEmpty(Lower(ps[0].title));
      KeepMatchingEmptyQuery(ps[1..]);
    }
  }

  /** The search ignores case: a query and its lower-cased form select the same products. */
  lemma MatchesIgnoresQueryCase(p: Product, query: string)
    ensures Matches(p, query) == Matches(p, Lower(query))
  {
    LowerIdempotent(query);
  }

  // ---------------------------------------------------------------------
  // Sort
  // ---------------------------------------------------------------------

  /** The sort key: the price, negated for any order other than "asc". */
  function Key(order: string, p: Product): int
  {
    if order == "asc" then p.price else -p.price
  }

  /** The comparator of lines 82-85, `orderFactor * (a.price - b.price)`. */
  function Compare(order: string, a: Product, b: Product): (r: int)
    ensures r == Key(order, a) - Key(order, b)
  {
    var orderFactor := if order == "asc" then 1 else -1;
    orderFactor * (a.price - b.price)
  }

  /** `a` must come before `b`: the comparator is negative. */
  predicate Precedes(order: string, a: Product, b: Product)
  {
    Compare(order, a, b) < 0
  }

  /** Keys never decrease from left to right. */
  predicate Sorted(s: seq<Product>, order: string)
  {
    forall i, j :: 0 <= i < j < |s| ==> Key(order, s[i]) <= Key(order, s[j])
  }

  /** What `Sorted` means in prices: ascending for "asc", descending otherwise. */
  lemma SortedPrices(s: seq<Product>, order: string)
    requires Sorted(s, order)
    ensures order == "asc" ==> forall i, j :: 0 <= i < j < |s| ==> s[i].price <= s[j].price
    ensures order != "asc" ==> forall i, j :: 0 <= i < j < |s| ==> s[i].price >= s[j].price
  {
  }

  /** The products of `s` that have the given price, in their order in `s`.
      A stable sort keeps each of these sequences as it is. */
  function WithPrice(s: seq<Product>, price: int): (r: seq<Product>)
    ensures forall x :: x in r <==> x in s && x.price == price
  {
    if s == [] then []
    else if s[0].price == price then [s[0]] + WithPrice(s[1..], price)
    else WithPrice(s[1..], price)
  }

  lemma {:induction false} WithPriceConcat(a: seq<Product>, b: seq<Product>, price: int)
    ensures WithPrice(a + b, price) == WithPrice(a, price) + WithPrice(b, price)
  {
    if a == [] {
      assert a + b == b;
    } else {
      assert (a + b)[1..] == a[1..] + b;
      WithPriceConcat(a[1..], b, price);
    }
  }

  /** Inserts `x` behind every element it does not strictly precede: one
      step of a stable insertion sort, scanning from the end of `s`. */
  function Insert(s: seq<Product>, x: Product, order: string): (r: seq<Product>)
    ensures |r| == |s| + 1
    decreases |s|
  {
    if s == [] || !Precedes(order, x, s[|s| - 1]) then s + [x]
    else Insert(s[..|s| - 1], x, order) + [s[|s| - 1]]
  }

  /** The stable sort by price: sorts every prefix, then inserts the next element. */
  function SortByPrice(s: seq<Product>, order: string): (r: seq<Product>)
    ensures |r| == |s|
    decreases |s|
  {
    if s == [] then [] else Insert(SortByPrice(s[..|s| - 1], order), s[|s| - 1], order)
  }

  lemma {:induction false} InsertPermutes(s: seq<Product>, x: Product, order: string)
    ensures multiset(Insert(s, x, order)) == multiset(s) + multiset{x}
  {
    if s != [] && Precedes(order, x, s[|s| - 1]) {
      InsertPermutes(s[..|s| - 1], x, order);
      assert s == s[..|s| - 1] + [s[|s| - 1]];
    }
  }

  lemma {:induction false} InsertSorted(s: seq<Product>, x: Product, order: string)
    requires Sorted(s, order)
    ensures Sorted(Insert(s, x, order), order)
  {
    if s != [] && Precedes(order, x, s[|s| - 1]) {
      var init, last := s[..|s| - 1], s[|s| - 1];
      InsertSorted(init, x, order);
      InsertPermutes(init, x, order);
      var ins := Insert(init, x, order);
      forall k | 0 <= k < |ins|
        ensures Key(order, ins[k]) <= Key(order, last)
      {
        assert ins[k] in multiset(ins);
        assert ins[k] in multiset(init) || ins[k] == x;
        if ins[k] != x {
          var m :| 0 <= m < |init| && init[m] == ins[k];
          assert s[m] == init[m];
        }
      }
    }
  }

  lemma {:induction false} InsertWithPrice(s: seq<Product>, x: Product, order: string, price: int)
    ensures WithPrice(Insert(s, x, order), price)
         == WithPrice(s, price) + (if x.price == price then [x] else [])
  {
    if s == [] || !Precedes(order, x, s[|s| - 1]) {
      WithPriceConcat(s, [x], price);
    } else {
      var init, last := s[..|s| - 1], s[|s| - 1];
      assert s == init + [last];
      InsertWithPrice(init, x, order, price);
      WithPriceConcat(Insert(init, x, order), [last], price);
      WithPriceConcat(init, [last], price);
      assert x.price != last.price;
    }
  }

  /** The sort returns a permutation of its input. */
  lemma {:induction false} SortPermutes(s: seq<Product>, order: string)
    ensures multiset(SortByPrice(s, order)) == multiset(s)
  {
    if s != [] {
      var init := s[..|s| - 1];
      SortPermutes(init, order);
      InsertPermutes(SortByPrice(init, order), s[|s| - 1], order);
      assert s == init + [s[|s| - 1]];
    }
  }

  /** The sort orders by price in the requested direction. */
  lemma {:induction false} SortSorts(s: seq<Product>, order: string)
    ensures Sorted(SortByPrice(s, order), order)
  {
    if s != [] {
      SortSorts(s[..|s| - 1], order);
      InsertSorted(SortByPrice(s[..|s| - 1], order), s[|s| - 1], order);
    }
  }

  /** The sort is stable: products of equal price keep their relative order. */
  lemma {:induction false} SortStable(s: seq<Product>, order: string, price: int)
    ensures WithPrice(SortByPrice(s, order), price) == WithPrice(s, price)
  {
    if s != [] {
      var init := s[..|s| - 1];
      SortStable(init, order, price);
      InsertWithPrice(SortByPrice(init, order), s[|s| - 1], order, price);
      assert s == init + [s[|s| - 1]];
      WithPriceConcat(init, [s[|s| - 1]], price);
    }
  }

  lemma HeadHasItsPrice(s: seq<Product>)
    ensures s != [] ==> WithPrice(s, s[0].price) != []
  {
  }

  /** The head of a sorted list is ordered no later than any product of the
      same price as another list's head, when both lists agree on that price. */
  lemma HeadKeyAtMost(r1: seq<Product>, r2: seq<Product>, order: string)
    requires Sorted(r1, order) && r1 != [] && r2 != []
    requires WithPrice(r1, r2[0].price) == WithPrice(r2, r2[0].price)
    ensures Key(order, r1[0]) <= Key(order, r2[0])
  {
    var h2 := r2[0];
    assert WithPrice(r2, h2.price) == [h2] + WithPrice(r2[1..], h2.price);
    assert h2 in WithPrice(r1, h2.price);
    var i :| 0 <= i < |r1| && r1[i] == h2;
    assert i == 0 || Key(order, r1[0]) <= Key(order, r1[i]);
  }

  lemma HeadsEqual(r1: seq<Product>, r2: seq<Product>, order: string)
    requires Sorted(r1, order) && Sorted(r2, order) && r1 != [] && r2 != []
    requires WithPrice(r1, r1[0].price) == WithPrice(r2, r1[0].price)
    requires WithPrice(r1, r2[0].price) == WithPrice(r2, r2[0].price)
    ensures r1[0] == r2[0]
  {
    HeadKeyAtMost(r1, r2, order);
    HeadKeyAtMost(r2, r1, order);
    assert r1[0].price == r2[0].price;
    assert WithPrice(r1, r1[0].price)[0] == r1[0];
    assert WithPrice(r2, r1[0].price)[0] == r2[0];
  }

  lemma TailsSamePrices(r1: seq<Product>, r2: seq<Product>, price: int)
    requires r1 != [] && r2 != [] && r1[0] == r2[0]
    requires WithPrice(r1, price) == WithPrice(r2, price)
    ensures WithPrice(r1[1..], price) == WithPrice(r2[1..], price)
  {
    if price == r1[0].price {
      assert WithPrice(r1[1..], price) == WithPrice(r1, price)[1..];
      assert WithPrice(r2[1..], price) == WithPrice(r2, price)[1..];
    }
  }

  /** A stable sort has only one possible result: two sequences sorted in
      the same direction with the same products of each price, in the same
      order, are equal. So `SortByPrice` gives what any stable sort gives. */
  lemma {:induction false} StableSortUnique(r1: seq<Product>, r2: seq<Product>, order: string)
    requires Sorted(r1, order) && Sorted(r2, order)
    requires forall price :: WithPrice(r1, price) == WithPrice(r2, price)
    ensures r1 == r2
    decreases |r1|
  {
    HeadHasItsPrice(r1);
    HeadHasItsPrice(r2);
    if r1 != [] && r2 != [] {
      HeadsEqual(r1, r2, order);
      forall price
        ensures WithPrice(r1[1..], price) == WithPrice(r2[1..], price)
      {
        TailsSamePrices(r1, r2, price);
      }
      StableSortUnique(r1[1..], r2[1..], order);
      assert r1 == [r1[0]] + r1[1..];
      assert r2 == [r2[0]] + r2[1..];
    }
  }

  /** Sorting again, in either direction, forgets the earlier order of the input. */
  lemma SortForgetsEarlierSort(s: seq<Product>, earlier: string, order: string)
    ensures SortByPrice(SortByPrice(s, earlier), order) == SortByPrice(s, order)
  {
    var r1 := SortByPrice(SortByPrice(s, earlier), order);
    var r2 := SortByPrice(s, order);
    SortSorts(SortByPrice(s, earlier), order);
    SortSorts(s, order);
    forall price
      ensures WithPrice(r1, price) == WithPrice(r2, price)
    {
      SortStable(SortByPrice(s, earlier), order, price);
      SortStable(s, earlier, price);
      SortStable(s, order, price);
    }
    StableSortUnique(r1, r2, order);
  }

  /** Products of equal price are equal: no two different products tie. */
  predicate NoTies(s: seq<Product>)
  {
    forall i, j :: 0 <= i < |s| && 0 <= j < |s| && s[i].price == s[j].price ==> s[i] == s[j]
  }

  /** `s` read backwards. */
  function Reverse(s: seq<Product>): (r: seq<Product>)
    ensures |r| == |s|
    ensures forall k :: 0 <= k < |s| ==> r[k] == s[|s| - 1 - k]
  {
    if s == [] then [] else [s[|s| - 1]] + Reverse(s[..|s| - 1])
  }

  lemma {:induction false} ReversePermutes(s: seq<Product>)
    ensures multiset(Reverse(s)) == multiset(s)
  {
    if s != [] {
      ReversePermutes(s[..|s| - 1]);
      assert s == s[..|s| - 1] + [s[|s| - 1]];
    }
  }

  /** How often `WithPrice` keeps a product depends only on how often the
      input holds it. */
  lemma {:induction false} WithPriceCounts(s: seq<Product>, price: int, x: Product)
    ensures multiset(WithPrice(s, price))[x] == if x.price == price then multiset(s)[x] else 0
  {
    if s != [] {
      WithPriceCounts(s[1..], price, x);
      assert s == [s[0]] + s[1..];
    }
  }

  lemma NoTiesOfPermutation(a: seq<Product>, b: seq<Product>)
    requires multiset(a) == multiset(b) && NoTies(a)
    ensures NoTies(b)
  {
    forall i, j | 0 <= i < |b| && 0 <= j < |b| && b[i].price == b[j].price
      ensures b[i] == b[j]
    {
      assert b[i] in multiset(a) && b[j] in multiset(a);
      var i' :| 0 <= i' < |a| && a[i'] == b[i];
      var j' :| 0 <= j' < |a| && a[j'] == b[j];
    }
  }

  /** In a list without ties the products of one price are copies of one product. */
  lemma WithPriceAllSame(s: seq<Product>, price: int, k: nat)
    requires NoTies(s) && k < |WithPrice(s, price)|
    ensures WithPrice(s, price)[k] == WithPrice(s, price)[0]
  {
  }

  /** Without ties, any two orderings of the same products pick out the
      same sequence for every price. */
  lemma WithPriceOfPermutation(a: seq<Product>, b: seq<Product>, price: int)
    requires multiset(a) == multiset(b) && NoTies(a)
    ensures WithPrice(a, price) == WithPrice(b, price)
  {
    NoTiesOfPermutation(a, b);
    var wa, wb := WithPrice(a, price), WithPrice(b, price);
    forall x
      ensures multiset(wa)[x] == multiset(wb)[x]
    {
      WithPriceCounts(a, price, x);
      WithPriceCounts(b, price, x);
    }
    assert multiset(wa) == multiset(wb);
    assert |wa| == |multiset(wa)| == |multiset(wb)| == |wb|;
    if wa != [] {
      assert wb[0] in multiset(wa);
      var m :| 0 <= m < |wa| && wa[m] == wb[0];
      WithPriceAllSame(a, price, m);
      forall k | 0 <= k < |wa|
        ensures wa[k] == wb[k]
      {
        WithPriceAllSame(a, price, k);
        WithPriceAllSame(b, price, k);
      }
    }
  }

  /** Read backwards, an ascending list is descending. */
  lemma ReverseOfAscending(up: seq<Product>)
    requires Sorted(up, "asc")
    ensures Sorted(Reverse(up), "desc")
  {
    var back := Reverse(up);
    forall i, j | 0 <= i < j < |back|
      ensures Key("desc", back[i]) <= Key("desc", back[j])
    {
      assert back[i] == up[|up| - 1 - i] && back[j] == up[|up| - 1 - j];
      assert Key("asc", up[|up| - 1 - j]) <= Key("asc", up[|up| - 1 - i]);
    }
  }

  /** Without ties in price, the descending order is the ascending order
      read backwards, so toggling the order reverses the listing. */
  lemma DescendingReversesAscending(s: seq<Product>)
    requires NoTies(s)
    ensures SortByPrice(s, "desc") == Reverse(SortByPrice(s, "asc"))
  {
    var up := SortByPrice(s, "asc");
    var down := SortByPrice(s, "desc");
    var back := Reverse(up);
    SortSorts(s, "asc");
    SortSorts(s, "desc");
    ReverseOfAscending(up);
    SortPermutes(s, "asc");
    SortPermutes(s, "desc");
    ReversePermutes(up);
    assert multiset(down) == multiset(back);
    NoTiesOfPermutation(s, down);
    forall price
      ensures WithPrice(down, price) == WithPrice(back, price)
    {
      WithPriceOfPermutation(down, back, price);
    }
    StableSortUnique(down, back, "desc");
  }

  // ---------------------------------------------------------------------
  // In-place sort
  // ---------------------------------------------------------------------

  /** Moving the insertion point one place left past an element `x` strictly precedes. */
  lemma InsertStepLeft(sorted: seq<Product>, x: Product, order: string, j: nat)
    requires 0 < j <= |sorted| && Precedes(order, x, sorted[j - 1])
    ensures Insert(sorted[..j], x, order) + sorted[j..] == Insert(sorted[..j - 1], x, order) + sorted[j - 1..]
  {
    assert sorted[..j][..j - 1] == sorted[..j - 1];
    assert sorted[j - 1..] == [sorted[j - 1]] + sorted[j..];
  }

  /** Where `x` meets an element it does not strictly precede, it goes right there. */
  lemma InsertStopsHere(sorted: seq<Product>, x: Product, order: string, j: nat)
    requires j <= |sorted| && (j == 0 || !Precedes(order, x, sorted[j - 1]))
    ensures Insert(sorted[..j], x, order) == sorted[..j] + [x]
  {
  }

  /** The array contents after copying element `j - 1` one place right. */
  lemma ShiftRight(b: seq<Product>, sorted: seq<Product>, rest: seq<Product>, j: nat)
    requires 0 < j <= |sorted| && |b| == |sorted| + 1 + |rest|
    requires b[..j] == sorted[..j] && b[j + 1..] == sorted[j..] + rest
    ensures b[j := b[j - 1]][..j - 1] == sorted[..j - 1]
    ensures b[j := b[j - 1]][j..] == sorted[j - 1..] + rest
  {
    var c := b[j := b[j - 1]];
    assert c[..j - 1] == b[..j][..j - 1];
    assert c[j..] == [b[j - 1]] + b[j + 1..];
    assert sorted[j - 1..] == [sorted[j - 1]] + sorted[j..];
  }

  /** The array contents after writing `x` into the gap at `j`. */
  lemma FillGap(b: seq<Product>, sorted: seq<Product>, rest: seq<Product>, x: Product, j: nat)
    requires j <= |sorted| && |b| == |sorted| + 1 + |rest|
    requires b[..j] == sorted[..j] && b[j + 1..] == sorted[j..] + rest
    ensures b[j := x] == sorted[..j] + [x] + sorted[j..] + rest
  {
    var c := b[j := x];
    assert c == c[..j] + [c[j]] + c[j + 1..];
    assert c[..j] == b[..j] && c[j + 1..] == b[j + 1..];
  }

  /** One pass of the insertion sort: moves `a[i]` left past every element
      of the sorted prefix `a[..i]` that it strictly precedes. */
  method InsertAt(a: array<Product>, i: nat, order: string)
    requires i < a.Length
    modifies a
    ensures a[..] == Insert(old(a[..i]), old(a[i]), order) + old(a[i + 1..])
  {
    ghost var sorted := a[..i];
    ghost var rest := a[i + 1..];
    var x := a[i];
    assert a[i + 1..] == sorted[i..] + rest;
    var j := i;
    while j > 0 && Precedes(order, x, a[j - 1])
      invariant 0 <= j <= i
      invariant a[..j] == sorted[..j]
      invariant a[j + 1..] == sorted[j..] + rest
      invariant Insert(sorted, x, order) == Insert(sorted[..j], x, order) + sorted[j..]
    {
      assert a[j - 1] == sorted[j - 1];
      InsertStepLeft(sorted, x, order, j);
      ghost var b := a[..];
      a[j] := a[j - 1];
      assert a[..] == b[j := b[j - 1]];
      ShiftRight(b, sorted, rest, j);
      j := j - 1;
    }
    ghost var b := a[..];
    a[j] := x;
    assert a[..] == b[j := x];
    FillGap(b, sorted, rest, x, j);
    InsertStopsHere(sorted, x, order, j);
  }

  /** `Array.prototype.sort` with the price comparator, in place: a stable
      insertion sort that shifts larger elements right to make room. */
  method SortInPlace(a: array<Product>, order: string)
    modifies a
    ensures a[..] == SortByPrice(old(a[..]), order)
  {
    ghost var input := a[..];
    var i := 0;
    while i < a.Length
      invariant 0 <= i <= a.Length
      invariant a[..] == SortByPrice(input[..i], order) + input[i..]
    {
      ghost var b := a[..];
      assert b[..i] == SortByPrice(input[..i], order);
      assert b[i] == input[i];
      assert b[i + 1..] == input[i + 1..];
      InsertAt(a, i, order);
      assert input[..i + 1][..i] == input[..i];
      i := i + 1;
    }
    assert input[..a.Length] == input;
  }
}
