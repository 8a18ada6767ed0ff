/** EntityFrameworkQueryRepository<T>: the Entity Framework Core repository
    of the plain query interface.

    Its single-row and counting reads are the same chains as the relational
    repository's. Its dictionary reads always take a filter and call EF
    Core's ToDictionaryAsync directly. Its only list reads are paged, and
    they write `Take(count).Skip((page - 1) * count)` inline without the
    paging helper's argument checks.
 */
module EntityFrameworkQueryRepository {
  import opened Wrappers
  import Linq
  import opened Semantics
  import opened Paging
  import opened Pipeline

  /** The repository holds the set it was constructed with. */
  datatype Repository<T> = Repository(query: seq<T>)

  function Any<T>(repo: Repository<T>, n: Narrowing<T>, filter: Option<T -> bool>): (r: bool)
    ensures r <==> AnyMatch(repo.query, Selects(n, filter))
  {
    EnumerationCount(Source(repo.query, n, filter), repo.query, Selects(n, filter), Id());
    Linq.Any(Source(repo.query, n, filter))
  }

  /** CountAsync; LongCountAsync is the same chain at a wider width. */
  function Count<T>(repo: Repository<T>, n: Narrowing<T>, filter: Option<T -> bool>): (r: nat)
    ensures r == |Matches(repo.query, Selects(n, filter))|
  {
    EnumerationCount(Source(repo.query, n, filter), repo.query, Selects(n, filter), Id());
    Linq.Count(Source(repo.query, n, filter))
  }

  function First<T>(repo: Repository<T>, n: Narrowing<T>, filter: Option<T -> bool>): (r: Result<T>)
    ensures FirstResult(r, repo.query, Selects(n, filter), Id())
  {
    FirstOf(Source(repo.query, n, filter), repo.query, Selects(n, filter), Id());
    Linq.First(Source(repo.query, n, filter))
  }

  function FirstProjected<T, P>(repo: Repository<T>, n: Narrowing<T>, filter: Option<T -> bool>, proj: T -> P): (r: Result<P>)
    ensures FirstResult(r, repo.query, Selects(n, filter), proj)
  {
    FirstOf(Projected(repo.query, n, filter, proj), repo.query, Selects(n, filter), proj);
    Linq.First(Projected(repo.query, n, filter, proj))
  }

  function FirstOrDefault<T>(repo: Repository<T>, n: Narrowing<T>, filter: Option<T -> bool>): (r: Option<T>)
    ensures FirstOrDefaultResult(r, repo.query, Selects(n, filter), Id())
  {
    FirstOrDefaultOf(Source(repo.query, n, filter), repo.query, Selects(n, filter), Id());
    Linq.FirstOrDefault(Source(repo.query, n, filter))
  }

  function FirstOrDefaultProjected<T, P>(repo: Repository<T>, n: Narrowing<T>, filter: Option<T -> bool>, proj: T -> P): (r: Option<P>)
    ensures FirstOrDefaultResult(r, repo.query, Selects(n, filter), proj)
  {
    FirstOrDefaultOf(Projected(repo.query, n, filter, proj), repo.query, Selects(n, filter), proj);
    Linq.FirstOrDefault(Projected(repo.query, n, filter, proj))
  }

  function Single<T>(repo: Repository<T>, n: Narrowing<T>, filter: Option<T -> bool>): (r: Result<T>)
    ensures SingleResult(r, repo.query, Selects(n, filter), Id())
  {
    SingleOf(Source(repo.query, n, filter), repo.query, Selects(n, filter), Id());
    Linq.Single(Source(repo.query, n, filter))
  }

  function SingleProjected<T, P>(repo: Repository<T>, n: Narrowing<T>, filter: Option<T -> bool>, proj: T -> P): (r: Result<P>)
    ensures SingleResult(r, repo.query, Selects(n, filter), proj)
  {
    SingleOf(Projected(repo.query, n, filter, proj), repo.query, Selects(n, filter), proj);
    Linq.Single(Projected(repo.query, n, filter, proj))
  }

  function SingleOrDefault<T>(repo: Repository<T>, n: Narrowing<T>, filter: Option<T -> bool>): (r: Result<Option<T>>)
    ensures SingleOrDefaultResult(r, repo.query, Selects(n, filter), Id())
  {
    SingleOrDefaultOf(Source(repo.query, n, filter), repo.query, Selects(n, filter), Id());
    Linq.SingleOrDefault(Source(repo.query, n, filter))
  }

  /** The `<TChild, TProjection>` overloads end in FirstOrDefault, so they
      never fail and return the first of several matches. */
  function SingleOrDefaultProjected<T, P>(repo: Repository<T>, n: Narrowing<T>, filter: Option<T -> bool>, proj: T -> P): (r: Result<Option<P>>)
    ensures n.All? ==> SingleOrDefaultResult(r, repo.query, Selects(n, filter), proj)
    ensures n.Subtype? ==> r.Success? && FirstOrDefaultResult(r.value, repo.query, Selects(n, filter), proj)
  {
    var rows := Projected(repo.query, n, filter, proj);
    match n
    case All =>
      SingleOrDefaultOf(rows, repo.query, Selects(n, filter), proj);
      Linq.SingleOrDefault(rows)
    case Subtype(_) =>
      FirstOrDefaultOf(rows, repo.query, Selects(n, filter), proj);
      Success(Linq.FirstOrDefault(rows))
  }

  function ToDictionary<T, P, K, V>(repo: Repository<T>, n: Narrowing<T>, filter: T -> bool, proj: T -> P,
                                    key: P -> K, value: P -> V): (r: Result<map<K, V>>)
    ensures DictionaryResult(r, repo.query, Selects(n, Some(filter)), proj, key, value)
  {
    DictionaryOf(Projected(repo.query, n, Some(filter), proj), repo.query, Selects(n, Some(filter)), proj, key, value);
    Linq.ToDictionary(Projected(repo.query, n, Some(filter), proj), key, value)
  }

  /** The paged entity list: any count and page are served, and the rows
      come from the first `count` selected rows. */
  function ToList<T(!new)>(repo: Repository<T>, n: Narrowing<T>, filter: T -> bool, count: Int32, page: Int32): (r: seq<T>)
    ensures exists l :: ListsMatches(l, repo.query, Selects(n, Some(filter)), Id()) && r == InlinePage(l, count, page)
    ensures page >= 2 && NoOverflow(count, page) ==> r == []
  {
    InlinePage(Source(repo.query, n, Some(filter)), count, page)
  }

  /** The paged projected list: projection first, then the inline paging. */
  function ToListProjected<T, P(!new)>(repo: Repository<T>, n: Narrowing<T>, filter: T -> bool, proj: T -> P,
                                       count: Int32, page: Int32): (r: seq<P>)
    ensures exists l :: ListsMatches(l, repo.query, Selects(n, Some(filter)), proj) && r == InlinePage(l, count, page)
    ensures page >= 2 && NoOverflow(count, page) ==> r == []
  {
    InlinePage(Projected(repo.query, n, Some(filter), proj), count, page)
  }
}
