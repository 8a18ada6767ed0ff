/** MapperEntityFrameworkQueryRepository<T>: the Entity Framework query
    repository plus reads that project through the mapper's configuration
    (`ProjectTo<TProjection>`). The configured mapping from the entity to
    TProjection is the parameter `mapping`; on EF Core the projection is an
    ordinary Select and cannot fail.
 */
module MapperEntityFrameworkQueryRepository {
  import opened Wrappers
  import Linq
  import opened Semantics
  import opened Paging
  import opened Pipeline

  datatype Repository<T> = Repository(query: seq<T>)

  function First<T, P>(repo: Repository<T>, n: Narrowing<T>, filter: T -> bool, mapping: T -> P): (r: Result<P>)
    ensures FirstResult(r, repo.query, Selects(n, Some(filter)), mapping)
  {
    FirstOf(Projected(repo.query, n, Some(filter), mapping), repo.query, Selects(n, Some(filter)), mapping);
    Linq.First(Projected(repo.query, n, Some(filter), mapping))
  }

  function FirstOrDefault<T, P>(repo: Repository<T>, n: Narrowing<T>, filter: T -> bool, mapping: T -> P): (r: Option<P>)
    ensures FirstOrDefaultResult(r, repo.query, Selects(n, Some(filter)), mapping)
  {
    FirstOrDefaultOf(Projected(repo.query, n, Some(filter), mapping), repo.query, Selects(n, Some(filter)), mapping);
    Linq.FirstOrDefault(Projected(repo.query, n, Some(filter), mapping))
  }

  function Single<T, P>(repo: Repository<T>, n: Narrowing<T>, filter: T -> bool, mapping: T -> P): (r: Result<P>)
    ensures SingleResult(r, repo.query, Selects(n, Some(filter)), mapping)
  {
    SingleOf(Projected(repo.query, n, Some(filter), mapping), repo.query, Selects(n, Some(filter)), mapping);
    Linq.Single(Projected(repo.query, n, Some(filter), mapping))
  }

  function SingleOrDefault<T, P>(repo: Repository<T>, n: Narrowing<T>, filter: T -> bool, mapping: T -> P): (r: Result<Option<P>>)
    ensures SingleOrDefaultResult(r, repo.query, Selects(n, Some(filter)), mapping)
  {
    SingleOrDefaultOf(Projected(repo.query, n, Some(filter), mapping), repo.query, Selects(n, Some(filter)), mapping);
    Linq.SingleOrDefault(Projected(repo.query, n, Some(filter), mapping))
  }

  function ToDictionary<T, P, K, V>(repo: Repository<T>, n: Narrowing<T>, filter: T -> bool, mapping: T -> P,
                                    key: P -> K, value: P -> V): (r: Result<map<K, V>>)
    ensures DictionaryResult(r, repo.query, Selects(n, Some(filter)), mapping, key, value)
  {
    DictionaryOf(Projected(repo.query, n, Some(filter), mapping), repo.query, Selects(n, Some(filter)), mapping, key, value);
    Linq.ToDictionary(Projected(repo.query, n, Some(filter), mapping), key, value)
  }

  /** The paged mapped list, with the inline unvalidated take-then-skip. */
  function ToList<T, P(!new)>(repo: Repository<T>, n: Narrowing<T>, filter: T -> bool, mapping: T -> P,
                              count: Int32, page: Int32): (r: seq<P>)
    ensures exists l :: ListsMatches(l, repo.query, Selects(n, Some(filter)), mapping) && r == InlinePage(l, count, page)
    ensures page >= 2 && NoOverflow(count, page) ==> r == []
  {
    InlinePage(Projected(repo.query, n, Some(filter), mapping), count, page)
  }
}
