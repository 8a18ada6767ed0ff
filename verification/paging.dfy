/** The paging helper `Page(count, page)` of both extension classes, and the
    unvalidated `Take(count).Skip((page - 1) * count)` chain several
    repositories write inline.

    Both take BEFORE they skip: the window is cut from the first `count`
    rows, so for any page past the first the skip removes the whole window.
    `count` and `page` are C# `int`s and `(page - 1) * count` is evaluated
    unchecked, so it wraps modulo 2^32.
 */
module Paging {
  import opened Wrappers
  import opened Linq

  const MinInt32: int := -0x8000_0000
  const MaxInt32: int := 0x7FFF_FFFF
  const Modulus32: int := 0x1_0000_0000

  type Int32 = x: int | MinInt32 <= x <= MaxInt32

  /** The two's-complement value of `x`: unchecked 32-bit arithmetic. */
  function Wrap32(x: int): (r: Int32)
    ensures MinInt32 <= x <= MaxInt32 ==> r == x
    ensures (x - r) % Modulus32 == 0
  {
    var m := x % Modulus32;
    if m > MaxInt32 then m - Modulus32 else m
  }

  /** `(page - 1) * count` as the unchecked expression computes it; wrapping
      the subtraction and then the product gives the same value as wrapping
      once, since both are taken modulo 2^32. */
  function Offset(count: Int32, page: Int32): Int32
  {
    Wrap32((page - 1) * count)
  }

  /** The exact product fits in an `int`, so no wrap happens. */
  predicate NoOverflow(count: int, page: int)
  {
    MinInt32 <= (page - 1) * count <= MaxInt32
  }

  lemma ProductSigns(a: int, b: int)
    ensures a <= 0 && b >= 0 ==> a * b <= 0
    ensures a >= 1 && b >= 0 ==> a * b >= b
  {
    if a >= 1 && b >= 0 {
      assert a * b == (a - 1) * b + b;
      assert (a - 1) * b >= 0;
    }
  }

  /** The unvalidated chain: never fails, and the result is always a suffix
      of the first `count` rows. */
  function InlinePage<T>(s: seq<T>, count: Int32, page: Int32): (r: seq<T>)
    ensures |r| <= Clamp(count, |s|)
    ensures r == s[Clamp(count, |s|) - |r|..Clamp(count, |s|)]
    ensures page <= 1 && NoOverflow(count, page) ==> r == s[..Clamp(count, |s|)]
    ensures page >= 2 && NoOverflow(count, page) ==> r == []
  {
    ProductSigns(page - 1, count);
    Skip(Take(s, count), Offset(count, page))
  }

  /** The helper's argument checks: a count of at least two (a single row has
      its own operations) and a page number of at least one. */
  predicate Valid(count: int, page: int)
  {
    count >= 2 && page >= 1
  }

  /** The ArgumentException the helper throws, named by the parameter it blames. */
  function Rejection(count: int): Error
  {
    if count < 2 then InvalidArgument("count") else InvalidArgument("page")
  }

  /** Page<T>(count, page): the count is checked first, then the page; a
      valid request is served by the same take-then-skip chain. */
  function Page<T>(s: seq<T>, count: Int32, page: Int32): (r: Result<seq<T>>)
    ensures r.Success? <==> Valid(count, page)
    ensures r.Failure? ==> r.error == Rejection(count)
    ensures count < 2 ==> r == Failure(InvalidArgument("count"))
    ensures r.Success? ==> r.value == InlinePage(s, count, page)
    ensures r.Success? && page == 1 ==> r.value == s[..Clamp(count, |s|)]
    ensures r.Success? && page >= 2 && NoOverflow(count, page) ==> r.value == []
  {
    if count < 2 then Failure(InvalidArgument("count"))
    else if page < 1 then Failure(InvalidArgument("page"))
    else if page == 1 then Success(Take(s, count))
    else Success(Skip(Take(s, count), Offset(count, page)))
  }

  /** A paging request as the repository overloads receive it. */
  datatype PageRequest = PageRequest(count: Int32, page: Int32)

  /** Every row is shown when there is no request; otherwise at most `count`. */
  function Shown(paging: Option<PageRequest>, len: nat): (n: nat)
    ensures n <= len
    ensures paging.None? ==> n == len
  {
    match paging
    case None => len
    case Some(p) => Clamp(p.count, len)
  }

  /** No paging, or a request for the first page. */
  predicate FirstOrAll(paging: Option<PageRequest>)
  {
    paging.None? || paging.value.page == 1
  }

  /** A request for a later page whose offset does not wrap. */
  predicate LaterPage(paging: Option<PageRequest>)
  {
    paging.Some? && paging.value.page >= 2 && NoOverflow(paging.value.count, paging.value.page)
  }

  /** A request the helper accepts. */
  predicate Accepted(paging: Option<PageRequest>)
  {
    paging.None? || Valid(paging.value.count, paging.value.page)
  }

  /** Reference page-number paging: skip `(page - 1) * count` rows, then
      take `count`. */
  function OffsetPage<T>(s: seq<T>, count: int, page: int): (r: seq<T>)
    ensures |r| <= count || count < 0
  {
    Take(Skip(s, (page - 1) * count), count)
  }

  /** The helper agrees with offset paging on the first page only: on a later
      page that holds rows, offset paging returns them and the helper
      returns nothing. */
  lemma PageAgainstOffsetPaging<T>(s: seq<T>, count: Int32, page: Int32)
    requires Valid(count, page)
    ensures page == 1 ==> Page(s, count, page) == Success(OffsetPage(s, count, page))
    ensures page >= 2 && NoOverflow(count, page) && |s| > (page - 1) * count ==>
      Page(s, count, page) == Success([]) && OffsetPage(s, count, page) != []
  {
    if page >= 2 && NoOverflow(count, page) && |s| > (page - 1) * count {
      ProductSigns(page - 1, count);
      assert |Skip(s, (page - 1) * count)| > 0;
    }
  }

  /** Page numbers so large that the offset wraps to a negative number skip
      nothing: page 2147483647 of two rows per page is the first page again. */
  lemma WrappedOffsetRepeatsFirstPage()
    ensures Offset(2, MaxInt32) == -4
    ensures Page([10, 20, 30, 40, 50], 2, MaxInt32) == Success([10, 20])
  {
    assert (MaxInt32 - 1) * 2 == Modulus32 - 4;
    var s := [10, 20, 30, 40, 50];
    assert Take(s, 2) == [10, 20];
    assert Skip([10, 20], -4) == [10, 20];
  }

  /** The helper rejects a count of one, which the inline chain serves as
      the first row. */
  lemma InlineServesSingleRowPage<T>(s: seq<T>)
    requires |s| >= 2
    ensures Page(s, 1, 1) == Failure(InvalidArgument("count"))
    ensures InlinePage(s, 1, 1) == [s[0]]
  {
    assert NoOverflow(1, 1);
    assert s[..1] == [s[0]];
  }

  /** The helper rejects page zero, which the inline chain serves as the
      first page. */
  lemma InlineServesPageZero<T>(s: seq<T>)
    requires |s| >= 2
    ensures Page(s, 2, 0) == Failure(InvalidArgument("page"))
    ensures InlinePage(s, 2, 0) == s[..2]
  {
    assert NoOverflow(2, 0);
  }
}
