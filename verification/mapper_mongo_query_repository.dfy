/** MapperMongoQueryRepository<T>: the Mongo query repository plus reads that
    project through the mapper's configuration (`ProjectTo<TProjection>`)
    instead of an explicit selector. The configured mapping from the entity
    to TProjection is the parameter `mapping`.

    ProjectTo returns a plain IQueryable, so MongoProject casts it back to a
    Mongo queryable and throws when the cast fails. Its SingleAsync
    overloads end in FirstAsync.
 */
module MapperMongoQueryRepository {
  import opened Wrappers
  import Linq
  import opened Semantics
  import opened Paging
  import opened Pipeline

  datatype Repository<T> = Repository(query: seq<T>)

  /** MongoProject: the projection through `mapping`, which stays a Mongo
      queryable exactly when the source was one. */
  function MongoProject<T, P>(s: seq<T>, provider: Linq.Provider, mapping: T -> P): (r: Result<seq<P>>)
    ensures r.Success? <==> provider == Linq.MongoDriver
    ensures r.Failure? ==> r.error == NotMongoQueryable
    ensures r.Success? ==> |r.value| == |s| && forall i :: 0 <= i < |s| ==> r.value[i] == mapping(s[i])
  {
    if provider == Linq.MongoDriver then Success(Linq.Select(s, mapping)) else Failure(NotMongoQueryable)
  }

  /** The repository's own queryable is the driver's, so the cast succeeds
      and the mapped rows are those of the selected documents. */
  function Mapped<T, P>(repo: Repository<T>, n: Narrowing<T>, filter: T -> bool, mapping: T -> P): (r: Result<seq<P>>)
    ensures r.Success? && ListsMatches(r.value, repo.query, Selects(n, Some(filter)), mapping)
  {
    assert MongoProject(Source(repo.query, n, Some(filter)), Linq.MongoDriver, mapping).value == Projected(repo.query, n, Some(filter), mapping);
    MongoProject(Source(repo.query, n, Some(filter)), Linq.MongoDriver, mapping)
  }

  function First<T, P>(repo: Repository<T>, n: Narrowing<T>, filter: T -> bool, mapping: T -> P): (r: Result<P>)
    ensures FirstResult(r, repo.query, Selects(n, Some(filter)), mapping)
  {
    match Mapped(repo, n, filter, mapping)
    case Failure(e) => Failure(e)
    case Success(rows) =>
      FirstOf(rows, repo.query, Selects(n, Some(filter)), mapping);
      Linq.First(rows)
  }

  function FirstOrDefault<T, P>(repo: Repository<T>, n: Narrowing<T>, filter: T -> bool, mapping: T -> P): (r: Result<Option<P>>)
    ensures r.Success? && FirstOrDefaultResult(r.value, repo.query, Selects(n, Some(filter)), mapping)
  {
    match Mapped(repo, n, filter, mapping)
    case Failure(e) => Failure(e)
    case Success(rows) =>
      FirstOrDefaultOf(rows, repo.query, Selects(n, Some(filter)), mapping);
      Success(Linq.FirstOrDefault(rows))
  }

  /** SingleAsync: the chain ends in FirstAsync, so several matches give the first. */
  function Single<T, P>(repo: Repository<T>, n: Narrowing<T>, filter: T -> bool, mapping: T -> P): (r: Result<P>)
    ensures FirstResult(r, repo.query, Selects(n, Some(filter)), mapping)
  {
    match Mapped(repo, n, filter, mapping)
    case Failure(e) => Failure(e)
    case Success(rows) =>
      FirstOf(rows, repo.query, Selects(n, Some(filter)), mapping);
      Linq.First(rows)
  }

  function SingleOrDefault<T, P>(repo: Repository<T>, n: Narrowing<T>, filter: T -> bool, mapping: T -> P): (r: Result<Option<P>>)
    ensures SingleOrDefaultResult(r, repo.query, Selects(n, Some(filter)), mapping)
  {
    match Mapped(repo, n, filter, mapping)
    case Failure(e) => Failure(e)
    case Success(rows) =>
      SingleOrDefaultOf(rows, repo.query, Selects(n, Some(filter)), mapping);
      Linq.SingleOrDefault(rows)
  }

  /** The mapped rows are listed, then turned into a dictionary in memory. */
  function ToDictionary<T, P, K, V>(repo: Repository<T>, n: Narrowing<T>, filter: T -> bool, mapping: T -> P,
                                    key: P -> K, value: P -> V): (r: Result<map<K, V>>)
    ensures DictionaryResult(r, repo.query, Selects(n, Some(filter)), mapping, key, value)
  {
    match Mapped(repo, n, filter, mapping)
    case Failure(e) => Failure(e)
    case Success(rows) =>
      DictionaryOf(rows, repo.query, Selects(n, Some(filter)), mapping, key, value);
      Linq.ToDictionary(Linq.ToList(rows), key, value)
  }

  /** The paged mapped list, with the inline unvalidated take-then-skip. */
  function ToList<T, P(!new)>(repo: Repository<T>, n: Narrowing<T>, filter: T -> bool, mapping: T -> P,
                              count: Int32, page: Int32): (r: Result<seq<P>>)
    ensures r.Success?
    ensures exists l :: ListsMatches(l, repo.query, Selects(n, Some(filter)), mapping) && r.value == InlinePage(l, count, page)
    ensures page >= 2 && NoOverflow(count, page) ==> r.value == []
  {
    match Mapped(repo, n, filter, mapping)
    case Failure(e) => Failure(e)
    case Success(rows) => Success(InlinePage(rows, count, page))
  }
}
