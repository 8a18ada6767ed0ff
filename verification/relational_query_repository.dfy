/** RelationalQueryRepository<T>: the full read surface over an Entity
    Framework Core set.

    Every overload family is one function here. `n` says whether the
    overload is the `<TChild>` one (`Subtype`) or not (`All`), and `filter`
    whether it takes a filter. Each contract states the result in terms of
    the raw set and the rows the read selects.
 */
module RelationalQueryRepository {
  import opened Wrappers
  import Linq
  import opened Semantics
  import opened Orders
  import opened Paging
  import opened Pipeline
  import RelationalQueryExtensions

  /** The repository holds the set it was constructed with. */
  datatype Repository<T> = Repository(query: seq<T>)

  function Any<T>(repo: Repository<T>, n: Narrowing<T>, filter: Option<T -> bool>): (r: bool)
    ensures r <==> AnyMatch(repo.query, Selects(n, filter))
  {
    EnumerationCount(Source(repo.query, n, filter), repo.query, Selects(n, filter), Id());
    Linq.Any(Source(repo.query, n, filter))
  }

  /** CountAsync; LongCountAsync is the same chain at a wider width. */
  function Count<T>(repo: Repository<T>, n: Narrowing<T>, filter: Option<T -> bool>): (r: nat)
    ensures r == |Matches(repo.query, Selects(n, filter))|
  {
    EnumerationCount(Source(repo.query, n, filter), repo.query, Selects(n, filter), Id());
    Linq.Count(Source(repo.query, n, filter))
  }

  /** AnyAsync answers whether CountAsync over the same selection is positive. */
  lemma AnyIffCountPositive<T>(repo: Repository<T>, n: Narrowing<T>, filter: Option<T -> bool>)
    ensures Any(repo, n, filter) <==> Count(repo, n, filter) > 0
  {
    AnyMatchCount(repo.query, Selects(n, filter));
  }

  function First<T>(repo: Repository<T>, n: Narrowing<T>, filter: Option<T -> bool>): (r: Result<T>)
    ensures FirstResult(r, repo.query, Selects(n, filter), Id())
  {
    FirstOf(Source(repo.query, n, filter), repo.query, Selects(n, filter), Id());
    Linq.First(Source(repo.query, n, filter))
  }

  function FirstProjected<T, P>(repo: Repository<T>, n: Narrowing<T>, filter: Option<T -> bool>, proj: T -> P): (r: Result<P>)
    ensures FirstResult(r, repo.query, Selects(n, filter), proj)
  {
    FirstOf(Projected(repo.query, n, filter, proj), repo.query, Selects(n, filter), proj);
    Linq.First(Projected(repo.query, n, filter, proj))
  }

  function FirstOrDefault<T>(repo: Repository<T>, n: Narrowing<T>, filter: Option<T -> bool>): (r: Option<T>)
    ensures FirstOrDefaultResult(r, repo.query, Selects(n, filter), Id())
  {
    FirstOrDefaultOf(Source(repo.query, n, filter), repo.query, Selects(n, filter), Id());
    Linq.FirstOrDefault(Source(repo.query, n, filter))
  }

  function FirstOrDefaultProjected<T, P>(repo: Repository<T>, n: Narrowing<T>, filter: Option<T -> bool>, proj: T -> P): (r: Option<P>)
    ensures FirstOrDefaultResult(r, repo.query, Selects(n, filter), proj)
  {
    FirstOrDefaultOf(Projected(repo.query, n, filter, proj), repo.query, Selects(n, filter), proj);
    Linq.FirstOrDefault(Projected(repo.query, n, filter, proj))
  }

  function Single<T>(repo: Repository<T>, n: Narrowing<T>, filter: Option<T -> bool>): (r: Result<T>)
    ensures SingleResult(r, repo.query, Selects(n, filter), Id())
  {
    SingleOf(Source(repo.query, n, filter), repo.query, Selects(n, filter), Id());
    Linq.Single(Source(repo.query, n, filter))
  }

  function SingleProjected<T, P>(repo: Repository<T>, n: Narrowing<T>, filter: Option<T -> bool>, proj: T -> P): (r: Result<P>)
    ensures SingleResult(r, repo.query, Selects(n, filter), proj)
  {
    SingleOf(Projected(repo.query, n, filter, proj), repo.query, Selects(n, filter), proj);
    Linq.Single(Projected(repo.query, n, filter, proj))
  }

  function SingleOrDefault<T>(repo: Repository<T>, n: Narrowing<T>, filter: Option<T -> bool>): (r: Result<Option<T>>)
    ensures SingleOrDefaultResult(r, repo.query, Selects(n, filter), Id())
  {
    SingleOrDefaultOf(Source(repo.query, n, filter), repo.query, Selects(n, filter), Id());
    Linq.SingleOrDefault(Source(repo.query, n, filter))
  }

  /** The `<TChild, TProjection>` overloads end in FirstOrDefault, so they
      never fail and return the first of several matches. */
  function SingleOrDefaultProjected<T, P>(repo: Repository<T>, n: Narrowing<T>, filter: Option<T -> bool>, proj: T -> P): (r: Result<Option<P>>)
    ensures n.All? ==> SingleOrDefaultResult(r, repo.query, Selects(n, filter), proj)
    ensures n.Subtype? ==> r.Success? && FirstOrDefaultResult(r.value, repo.query, Selects(n, filter), proj)
  {
    var rows := Projected(repo.query, n, filter, proj);
    match n
    case All =>
      SingleOrDefaultOf(rows, repo.query, Selects(n, filter), proj);
      Linq.SingleOrDefault(rows)
    case Subtype(_) =>
      FirstOrDefaultOf(rows, repo.query, Selects(n, filter), proj);
      Success(Linq.FirstOrDefault(rows))
  }

  function ToDictionary<T, P, K, V>(repo: Repository<T>, n: Narrowing<T>, filter: Option<T -> bool>, proj: T -> P,
                                    key: P -> K, value: P -> V): (r: Result<map<K, V>>)
    ensures DictionaryResult(r, repo.query, Selects(n, filter), proj, key, value)
  {
    DictionaryOf(Projected(repo.query, n, filter, proj), repo.query, Selects(n, filter), proj, key, value);
    RelationalQueryExtensions.ToDictionaryImpl(Projected(repo.query, n, filter, proj), key, value)
  }

  /** The entity lists: `Where`, then `Page`, then `OrderBy`. A paged and
      ordered list sorts only the rows of the page, which are the first
      `count` selected rows in provider order. */
  function ToList<T(!new)>(repo: Repository<T>, n: Narrowing<T>, filter: Option<T -> bool>, order: Option<Order<T>>,
                           paging: Option<PageRequest>): (r: Result<seq<T>>)
    ensures r.Success? <==> Accepted(paging)
    ensures r.Failure? ==> r.error == Rejection(paging.value.count)
    ensures r.Success? && FirstOrAll(paging) ==>
      exists l :: ListsMatches(l, repo.query, Selects(n, filter), Id()) && ArrangementOf(r.value, l[..Shown(paging, |l|)], order)
    ensures r.Success? && LaterPage(paging) ==> r.value == []
  {
    PageThenArrange(Source(repo.query, n, filter), order, paging)
  }

  /** The projected lists: `Where`, then `OrderBy`, then `Select`, then
      `Page`. A paged and ordered list is the first `count` rows of the
      whole selection after sorting. */
  function ToListProjected<T(!new), P>(repo: Repository<T>, n: Narrowing<T>, filter: Option<T -> bool>, order: Option<Order<T>>,
                                       proj: T -> P, paging: Option<PageRequest>): (r: Result<seq<P>>)
    ensures r.Success? <==> Accepted(paging)
    ensures r.Failure? ==> r.error == Rejection(paging.value.count)
    ensures r.Success? && FirstOrAll(paging) ==>
      exists l, a :: ListsMatches(l, repo.query, Selects(n, filter), Id()) && ArrangementOf(a, l, order)
        && r.value == Linq.Select(a, proj)[..Shown(paging, |a|)]
    ensures r.Success? && LaterPage(paging) ==> r.value == []
  {
    ArrangeThenPage(Source(repo.query, n, filter), order, proj, paging)
  }
}
