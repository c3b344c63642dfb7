/**
 * Pagination: fixed pages of ten records cut with JavaScript's `slice`,
 * the page count, and the numbered page buttons.
 */
module Pagination {

  const ItemsPerPage: nat := 10

  function Min(a: int, b: int): int
  {
    if a <= b then a else b
  }

  function Max(a: int, b: int): int
  {
    if a <= b then b else a
  }

  /** Where a `slice` argument lands in a list of length `len`: a negative index counts back from the end. */
  function SliceIndex(len: nat, i: int): (r: nat)
    ensures r <= len
    ensures 0 <= i <= len ==> r == i
  {
    if i < 0 then Max(len + i, 0) else Min(i, len)
  }

  /** `s.slice(start, end)`. */
  function Slice<T>(s: seq<T>, start: int, end: int): (r: seq<T>)
    ensures |r| <= |s|
  {
    var from := SliceIndex(|s|, start);
    var to := SliceIndex(|s|, end);
    if from < to then s[from..to] else []
  }

  /** The records shown on page `page` (1-based); the page number is not clamped. */
  function PageSlice<T>(s: seq<T>, page: int): (r: seq<T>)
    ensures |r| <= ItemsPerPage
  {
    Slice(s, (page - 1) * ItemsPerPage, page * ItemsPerPage)
  }

  /** `Math.ceil(len / itemPerPage)`. */
  function TotalPages(len: nat): (r: nat)
    ensures len <= r * ItemsPerPage < len + ItemsPerPage
  {
    (len + ItemsPerPage - 1) / ItemsPerPage
  }

  /** `Array.from({length: totalPages}, (_, i) => i + 1)`. */
  function PageButtons(total: nat): (r: seq<int>)
    ensures |r| == total
    ensures forall p :: p in r <==> 1 <= p <= total
    ensures forall i, j :: 0 <= i < j < |r| ==> r[i] < r[j]
  {
    if total == 0 then []
    else
      var before := PageButtons(total - 1);
      assert forall i :: 0 <= i < |before| ==> before[i] in before;
      before + [total]
  }

  /**
   * Page `page` (1 or more) holds the records from index `(page-1)*10` up to,
   * not including, `page*10`, cut at the end of the list; it is empty exactly
   * when the page lies past the last page.
   */
  lemma PageSliceInRange<T>(s: seq<T>, page: int)
    requires page >= 1
    ensures PageSlice(s, page) ==
      s[Min((page - 1) * ItemsPerPage, |s|)..Min(page * ItemsPerPage, |s|)]
    ensures PageSlice(s, page) == [] <==> page > TotalPages(|s|)
  {
  }

  /** Page 0 is always empty. */
  lemma PageZeroEmpty<T>(s: seq<T>)
    ensures PageSlice(s, 0) == []
  {
  }

  /** A negative page number counts back from the end of the list, as `slice` does. */
  lemma NegativePageFromEnd<T>(s: seq<T>, page: int)
    requires page < 0
    ensures PageSlice(s, page) ==
      var from := Max(|s| + (page - 1) * ItemsPerPage, 0);
      var to := Max(|s| + page * ItemsPerPage, 0);
      s[from..to]
  {
  }

  /** Pages 1..n laid end to end. */
  function PagesUpTo<T>(s: seq<T>, n: nat): seq<T>
  {
    if n == 0 then [] else PagesUpTo(s, n - 1) + PageSlice(s, n)
  }

  /** The first n pages together are the first `n*10` records. */
  lemma {:induction false} PagesUpToPrefix<T>(s: seq<T>, n: nat)
    ensures PagesUpTo(s, n) == s[..Min(n * ItemsPerPage, |s|)]
  {
    if n > 0 {
      PagesUpToPrefix(s, n - 1);
      PageSliceInRange(s, n);
    }
  }

  /** Pages 1..totalPages laid end to end give back the whole list, every record once and in order. */
  lemma AllPagesReassemble<T>(s: seq<T>)
    ensures PagesUpTo(s, TotalPages(|s|)) == s
  {
    PagesUpToPrefix(s, TotalPages(|s|));
  }

  /** Every listed page button shows at least one record. */
  lemma ButtonPagesNonEmpty<T>(s: seq<T>, page: int)
    requires page in PageButtons(TotalPages(|s|))
    ensures PageSlice(s, page) != []
  {
  }

  /** Twenty-five records make three pages: records 0-9 first and 20-24 last. */
  lemma TwentyFiveRecords<T>(s: seq<T>)
    requires |s| == 25
    ensures TotalPages(|s|) == 3
    ensures PageSlice(s, 1) == s[0..10]
    ensures PageSlice(s, 3) == s[20..25]
  {
  }
}
