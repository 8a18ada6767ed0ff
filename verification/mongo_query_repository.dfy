/** MongoQueryRepository<T>: the Mongo repository of the plain query
    interface.

    Every read takes a filter. Its dictionary reads list the rows first and
    build the dictionary in memory. Its list reads are paged, and they write
    `Take(count).Skip((page - 1) * count)` inline without the paging
    helper's argument checks.
 */
module MongoQueryRepository {
  import opened Wrappers
  import Linq
  import opened Semantics
  import opened Paging
  import opened Pipeline

  /** The repository holds `collection.AsQueryable()`, or the Mongo queryable
      it was given. */
  datatype Repository<T> = Repository(query: seq<T>)

  function Any<T>(repo: Repository<T>, n: Narrowing<T>, filter: T -> bool): (r: bool)
    ensures r <==> AnyMatch(repo.query, Selects(n, Some(filter)))
  {
    EnumerationCount(Source(repo.query, n, Some(filter)), repo.query, Selects(n, Some(filter)), Id());
    Linq.Any(Source(repo.query, n, Some(filter)))
  }

  /** CountAsync; LongCountAsync is the same chain at a wider width. */
  function Count<T>(repo: Repository<T>, n: Narrowing<T>, filter: T -> bool): (r: nat)
    ensures r == |Matches(repo.query, Selects(n, Some(filter)))|
  {
    EnumerationCount(Source(repo.query, n, Some(filter)), repo.query, Selects(n, Some(filter)), Id());
    Linq.Count(Source(repo.query, n, Some(filter)))
  }

  function First<T>(repo: Repository<T>, n: Narrowing<T>, filter: T -> bool): (r: Result<T>)
    ensures FirstResult(r, repo.query, Selects(n, Some(filter)), Id())
  {
    FirstOf(Source(repo.query, n, Some(filter)), repo.query, Selects(n, Some(filter)), Id());
    Linq.First(Source(repo.query, n, Some(filter)))
  }

  function FirstProjected<T, P>(repo: Repository<T>, n: Narrowing<T>, filter: T -> bool, proj: T -> P): (r: Result<P>)
    ensures FirstResult(r, repo.query, Selects(n, Some(filter)), proj)
  {
    FirstOf(Projected(repo.query, n, Some(filter), proj), repo.query, Selects(n, Some(filter)), proj);
    Linq.First(Projected(repo.query, n, Some(filter), proj))
  }

  function FirstOrDefault<T>(repo: Repository<T>, n: Narrowing<T>, filter: T -> bool): (r: Option<T>)
    ensures FirstOrDefaultResult(r, repo.query, Selects(n, Some(filter)), Id())
  {
    FirstOrDefaultOf(Source(repo.query, n, Some(filter)), repo.query, Selects(n, Some(filter)), Id());
    Linq.FirstOrDefault(Source(repo.query, n, Some(filter)))
  }

  function FirstOrDefaultProjected<T, P>(repo: Repository<T>, n: Narrowing<T>, filter: T -> bool, proj: T -> P): (r: Option<P>)
    ensures FirstOrDefaultResult(r, repo.query, Selects(n, Some(filter)), proj)
  {
    FirstOrDefaultOf(Projected(repo.query, n, Some(filter), proj), repo.query, Selects(n, Some(filter)), proj);
    Linq.FirstOrDefault(Projected(repo.query, n, Some(filter), proj))
  }

  function Single<T>(repo: Repository<T>, n: Narrowing<T>, filter: T -> bool): (r: Result<T>)
    ensures SingleResult(r, repo.query, Selects(n, Some(filter)), Id())
  {
    SingleOf(Source(repo.query, n, Some(filter)), repo.query, Selects(n, Some(filter)), Id());
    Linq.Single(Source(repo.query, n, Some(filter)))
  }

  function SingleProjected<T, P>(repo: Repository<T>, n: Narrowing<T>, filter: T -> bool, proj: T -> P): (r: Result<P>)
    ensures SingleResult(r, repo.query, Selects(n, Some(filter)), proj)
  {
    SingleOf(Projected(repo.query, n, Some(filter), proj), repo.query, Selects(n, Some(filter)), proj);
    Linq.Single(Projected(repo.query, n, Some(filter), proj))
  }

  function SingleOrDefault<T>(repo: Repository<T>, n: Narrowing<T>, filter: T -> bool): (r: Result<Option<T>>)
    ensures SingleOrDefaultResult(r, repo.query, Selects(n, Some(filter)), Id())
  {
    SingleOrDefaultOf(Source(repo.query, n, Some(filter)), repo.query, Selects(n, Some(filter)), Id());
    Linq.SingleOrDefault(Source(repo.query, n, Some(filter)))
  }

  /** The `<TChild, TProjection>` overloads end in FirstOrDefault, so they
      never fail and return the first of several matches. */
  function SingleOrDefaultProjected<T, P>(repo: Repository<T>, n: Narrowing<T>, filter: T -> bool, proj: T -> P): (r: Result<Option<P>>)
    ensures n.All? ==> SingleOrDefaultResult(r, repo.query, Selects(n, Some(filter)), proj)
    ensures n.Subtype? ==> r.Success? && FirstOrDefaultResult(r.value, repo.query, Selects(n, Some(filter)), proj)
  {
    var rows := Projected(repo.query, n, Some(filter), proj);
    match n
    case All =>
      SingleOrDefaultOf(rows, repo.query, Selects(n, Some(filter)), proj);
      Linq.SingleOrDefault(rows)
    case Subtype(_) =>
      FirstOrDefaultOf(rows, repo.query, Selects(n, Some(filter)), proj);
      Success(Linq.FirstOrDefault(rows))
  }

  /** The rows are listed, then turned into a dictionary in memory. */
  function ToDictionary<T, P, K, V>(repo: Repository<T>, n: Narrowing<T>, filter: T -> bool, proj: T -> P,
                                    key: P -> K, value: P -> V): (r: Result<map<K, V>>)
    ensures DictionaryResult(r, repo.query, Selects(n, Some(filter)), proj, key, value)
  {
    var rows := Linq.ToList(Projected(repo.query, n, Some(filter), proj));
    DictionaryOf(rows, repo.query, Selects(n, Some(filter)), proj, key, value);
    Linq.ToDictionary(rows, key, value)
  }

  /** The paged entity list: any count and page are served, and the rows
      come from the first `count` selected rows. */
  function ToList<T(!new)>(repo: Repository<T>, n: Narrowing<T>, filter: T -> bool, count: Int32, page: Int32): (r: seq<T>)
    ensures exists l :: ListsMatches(l, repo.query, Selects(n, Some(filter)), Id()) && r == InlinePage(l, count, page)
    ensures page >= 2 && NoOverflow(count, page) ==> r == []
  {
    InlinePage(Source(repo.query, n, Some(filter)), count, page)
  }

  /** The paged projected list: projection first, then the inline paging. */
  function ToListProjected<T, P(!new)>(repo: Repository<T>, n: Narrowing<T>, filter: T -> bool, proj: T -> P,
                                       count: Int32, page: Int32): (r: seq<P>)
    ensures exists l :: ListsMatches(l, repo.query, Selects(n, Some(filter)), proj) && r == InlinePage(l, count, page)
    ensures page >= 2 && NoOverflow(count, page) ==> r == []
  {
    InlinePage(Projected(repo.query, n, Some(filter), proj), count, page)
  }
}
