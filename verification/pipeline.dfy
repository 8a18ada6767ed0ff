/** The operator chains every repository read is built from.

    A read starts from the repository's queryable, optionally narrows it to
    a subtype (`OfType<TChild>()`), optionally filters it (`Where(filter)`),
    and then sorts, projects, pages and materialises in an order fixed by
    the overload. The functions here are those building blocks; each is
    tied back to the raw collection through the predicates of `Semantics`.
 */
module Pipeline {
  import opened Wrappers
  import opened Linq
  import opened Semantics
  import opened Orders
  import opened Paging

  /** Whether a read works on the repository's type or on a subtype of it. */
  datatype Narrowing<!T> = All | Subtype(isChild: T -> bool)

  /** The rows a narrowing lets through. */
  function Admits<T>(n: Narrowing<T>): T -> bool
  {
    match n
    case All => x => true
    case Subtype(isChild) => isChild
  }

  /** The rows an optional filter lets through. */
  function Passes<T>(filter: Option<T -> bool>): T -> bool
  {
    match filter
    case None => x => true
    case Some(p) => p
  }

  /** The rows a read selects: admitted by the narrowing and by the filter. */
  function Selects<T>(n: Narrowing<T>, filter: Option<T -> bool>): T -> bool
  {
    Both(Admits(n), Passes(filter))
  }

  function Narrow<T>(q: seq<T>, n: Narrowing<T>): seq<T>
  {
    match n
    case All => q
    case Subtype(isChild) => OfType(q, isChild)
  }

  function Filter<T>(s: seq<T>, filter: Option<T -> bool>): seq<T>
  {
    match filter
    case None => s
    case Some(p) => Where(s, p)
  }

  /** Narrowing and then filtering is one filter by the combined selection. */
  lemma SourceFusion<T>(q: seq<T>, n: Narrowing<T>, filter: Option<T -> bool>)
    ensures Filter(Narrow(q, n), filter) == Where(q, Selects(n, filter))
  {
    var sel := Selects(n, filter);
    match n {
      case All =>
        match filter {
          case None => WhereAll(q, sel);
          case Some(p) => WhereAgree(q, p, sel);
        }
      case Subtype(isChild) =>
        match filter {
          case None => WhereAgree(q, isChild, sel);
          case Some(p) =>
            WhereWhere(q, isChild, p);
            WhereAgree(q, Both(isChild, p), sel);
        }
    }
  }

  /** `Query[.OfType<TChild>()][.Where(filter)]`: the selected rows in provider order. */
  function Source<T>(q: seq<T>, n: Narrowing<T>, filter: Option<T -> bool>): (r: seq<T>)
    ensures ListsMatches(r, q, Selects(n, filter), Id())
    ensures r == Where(q, Selects(n, filter))
  {
    SourceFusion(q, n, filter);
    WhereLists(q, Selects(n, filter));
    Filter(Narrow(q, n), filter)
  }

  /** The source followed by `Select(projection)`. */
  function Projected<T, P>(q: seq<T>, n: Narrowing<T>, filter: Option<T -> bool>, proj: T -> P): (r: seq<P>)
    ensures ListsMatches(r, q, Selects(n, filter), proj)
  {
    SelectLists(Source(q, n, filter), q, Selects(n, filter), proj);
    Select(Source(q, n, filter), proj)
  }

  /** `a` holds exactly the rows of `l`: in the same order when there is no
      sort, sorted by the order's keys when there is one. */
  ghost predicate ArrangementOf<T>(a: seq<T>, l: seq<T>, order: Option<Order<T>>)
  {
    && multiset(a) == multiset(l)
    && (order.None? ==> a == l)
    && (order.Some? ==> Sorted(Keys(order.value), a))
  }

  /** The optional `OrderBy(order)` step. */
  function Arrange<T>(s: seq<T>, order: Option<Order<T>>): (r: seq<T>)
    ensures ArrangementOf(r, s, order)
  {
    match order
    case None => s
    case Some(o) => Apply(o, s)
  }

  /** The optional `Page(count, page)` step. */
  function Paged<T>(s: seq<T>, paging: Option<PageRequest>): (r: Result<seq<T>>)
    ensures r.Success? <==> Accepted(paging)
    ensures r.Failure? ==> r.error == Rejection(paging.value.count)
    ensures r.Success? && FirstOrAll(paging) ==> r.value == s[..Shown(paging, |s|)]
    ensures r.Success? && LaterPage(paging) ==> r.value == []
  {
    match paging
    case None => Success(s)
    case Some(p) => Page(s, p.count, p.page)
  }

  /** Entity lists: page first, then sort what the page kept. */
  function PageThenArrange<T>(s: seq<T>, order: Option<Order<T>>, paging: Option<PageRequest>): (r: Result<seq<T>>)
    ensures r.Success? <==> Accepted(paging)
    ensures r.Failure? ==> r.error == Rejection(paging.value.count)
    ensures r.Success? && FirstOrAll(paging) ==> ArrangementOf(r.value, s[..Shown(paging, |s|)], order)
    ensures r.Success? && LaterPage(paging) ==> r.value == []
  {
    match Paged(s, paging)
    case Failure(e) => Failure(e)
    case Success(page) => Success(Arrange(page, order))
  }

  /** Projected lists: sort all rows, project them, then page. */
  function ArrangeThenPage<T(!new), P>(s: seq<T>, order: Option<Order<T>>, proj: T -> P, paging: Option<PageRequest>): (r: Result<seq<P>>)
    ensures r.Success? <==> Accepted(paging)
    ensures r.Failure? ==> r.error == Rejection(paging.value.count)
    ensures r.Success? && FirstOrAll(paging) ==>
      exists a :: ArrangementOf(a, s, order) && r.value == Select(a, proj)[..Shown(paging, |a|)]
    ensures r.Success? && LaterPage(paging) ==> r.value == []
  {
    var a := Arrange(s, order);
    assert |a| == |s| by {
      assert |multiset(a)| == |multiset(s)|;
    }
    Paged(Select(a, proj), paging)
  }
}
