/** Pagination of the sorted list: `sliceProducts` (a JavaScript `slice`
    over a five-item window) and the number of page buttons. */
module Paging {

  /** `itemsPerPage`, fixed by its `useState(5)` and never updated. */
  const ItemsPerPage: nat := 5

  /** How `Array.prototype.slice` resolves an index against a length:
      negative indices count from the end, and the result is clamped to [0, len]. */
  function ResolveIndex(k: int, len: nat): (r: nat)
    ensures r <= len
    ensures 0 <= k <= len ==> r == k
  {
    if k < 0 then (if len + k < 0 then 0 else len + k)
    else if k > len then len
    else k
  }

  /** `s.slice(start, end)`: the elements from the resolved start up to the
      resolved end, or none when the end does not lie past the start. */
  function JsSlice<T>(s: seq<T>, start: int, end: int): (r: seq<T>)
    ensures |r| == if ResolveIndex(start, |s|) < ResolveIndex(end, |s|)
                   then ResolveIndex(end, |s|) - ResolveIndex(start, |s|) else 0
    ensures forall k :: 0 <= k < |r| ==> r[k] == s[ResolveIndex(start, |s|) + k]
  {
    var from, to := ResolveIndex(start, |s|), ResolveIndex(end, |s|);
    if from < to then s[from..to] else []
  }

  /** `sliceProducts`: the window `[(page - 1) * 5, page * 5)` of `s`. */
  function PageOf<T>(s: seq<T>, page: int): (r: seq<T>)
    ensures page >= 1 ==> |r| <= ItemsPerPage && (r != [] ==> (page - 1) * ItemsPerPage + |r| <= |s|)
    ensures page >= 1 ==> forall k :: 0 <= k < |r| ==> r[k] == s[(page - 1) * ItemsPerPage + k]
    ensures page >= 1 && page * ItemsPerPage <= |s| ==> |r| == ItemsPerPage
    ensures (page >= 1 && (page - 1) * ItemsPerPage < |s| < page * ItemsPerPage)
            ==> |r| == |s| - (page - 1) * ItemsPerPage
    ensures page >= 1 ==> (r == [] <==> (page - 1) * ItemsPerPage >= |s|)
  {
    var indexOfLastItem := page * ItemsPerPage;
    var indexOfFirstItem := indexOfLastItem - ItemsPerPage;
    JsSlice(s, indexOfFirstItem, indexOfLastItem)
  }

  /** `Math.ceil(count / itemsPerPage)`: the fewest pages that hold `count` items. */
  function PageCount(count: nat): (r: nat)
    ensures r * ItemsPerPage >= count
    ensures r > 0 ==> (r - 1) * ItemsPerPage < count
    ensures r == 0 <==> count == 0
  {
    (count + ItemsPerPage - 1) / ItemsPerPage
  }

  /** Page `page` has items exactly when it is one of the rendered page buttons. */
  lemma PageNonEmptyIffButton<T>(s: seq<T>, page: int)
    requires page >= 1
    ensures PageOf(s, page) != [] <==> page <= PageCount(|s|)
  {
  }

  /** Pages 1 to `k`, one after the other. */
  function Pages<T>(s: seq<T>, k: nat): seq<T>
  {
    if k == 0 then [] else Pages(s, k - 1) + PageOf(s, k)
  }

  /** The first `k` pages are the first `5 * k` items (or all of them). */
  lemma {:induction false} PagesArePrefix<T>(s: seq<T>, k: nat)
    ensures Pages(s, k) == s[..if k * ItemsPerPage <= |s| then k * ItemsPerPage else |s|]
  {
    if k > 0 {
      PagesArePrefix(s, k - 1);
      var lo := (k - 1) * ItemsPerPage;
      var hi := k * ItemsPerPage;
      var page := PageOf(s, k);
      if lo < |s| {
        var end := if hi <= |s| then hi else |s|;
        assert page == s[lo..end];
        assert s[..end] == s[..lo] + s[lo..end];
      } else {
        assert page == [];
      }
    }
  }

  /** Concatenating the pages behind all rendered buttons gives back the whole list. */
  lemma PagesCoverAll<T>(s: seq<T>)
    ensures Pages(s, PageCount(|s|)) == s
  {
    PagesArePrefix(s, PageCount(|s|));
  }
}
