/** MongoQueryRepositoryBase<T>: the document repository's read surface over
    a Mongo queryable.

    It has no `<TChild>` overloads. Instead the subclass
    MongoQueryRepositoryBase<TParent, TChild> narrows the collection once,
    at construction (`ForChild`), and every read then works on the child
    documents. Sorting goes through the typed Apply to the Mongo ordered
    queryable. That cast cannot fail here because the queryable always
    comes from the Mongo driver.
 */
module MongoQueryRepositoryBase {
  import opened Wrappers
  import Linq
  import opened Semantics
  import opened Orders
  import opened Paging
  import opened Pipeline
  import MongoQueryExtensions

  /** The repository holds `collection.AsQueryable()`. */
  datatype Repository<T> = Repository(query: seq<T>)

  /** The constructor of the parent/child subclass: `collection.OfType<TChild>()`. */
  function ForChild<T>(collection: seq<T>, isChild: T -> bool): (repo: Repository<T>)
    ensures ListsMatches(repo.query, collection, isChild, Id())
  {
    WhereLists(collection, isChild);
    Repository(Linq.OfType(collection, isChild))
  }

  /** A read through the child repository selects from the parent collection
      exactly what the parent's `<TChild>` overload with the same filter selects. */
  lemma ChildReadsNarrowParent<T>(collection: seq<T>, isChild: T -> bool, filter: Option<T -> bool>)
    ensures Source(ForChild(collection, isChild).query, All, filter) == Source(collection, Subtype(isChild), filter)
  {
    Linq.WhereWhere(collection, isChild, Selects(All, filter));
    Linq.WhereAgree(collection, Linq.Both(isChild, Selects(All, filter)), Selects(Subtype(isChild), filter));
  }

  /** So, for instance, First on the child repository is First over the
      child documents of the parent collection. */
  lemma ChildFirstSelectsFromParent<T>(collection: seq<T>, isChild: T -> bool, filter: Option<T -> bool>)
    ensures FirstResult(First(ForChild(collection, isChild), filter), collection, Selects(Subtype(isChild), filter), Id())
  {
    ChildReadsNarrowParent(collection, isChild, filter);
    FirstOf(Source(collection, Subtype(isChild), filter), collection, Selects(Subtype(isChild), filter), Id());
  }

  function Any<T>(repo: Repository<T>, filter: Option<T -> bool>): (r: bool)
    ensures r <==> AnyMatch(repo.query, Selects(All, filter))
  {
    EnumerationCount(Source(repo.query, All, filter), repo.query, Selects(All, filter), Id());
    Linq.Any(Source(repo.query, All, filter))
  }

  /** CountAsync; LongCountAsync is the same chain at a wider width. */
  function Count<T>(repo: Repository<T>, filter: Option<T -> bool>): (r: nat)
    ensures r == |Matches(repo.query, Selects(All, filter))|
  {
    EnumerationCount(Source(repo.query, All, filter), repo.query, Selects(All, filter), Id());
    Linq.Count(Source(repo.query, All, filter))
  }

  function First<T>(repo: Repository<T>, filter: Option<T -> bool>): (r: Result<T>)
    ensures FirstResult(r, repo.query, Selects(All, filter), Id())
  {
    FirstOf(Source(repo.query, All, filter), repo.query, Selects(All, filter), Id());
    Linq.First(Source(repo.query, All, filter))
  }

  function FirstProjected<T, P>(repo: Repository<T>, filter: Option<T -> bool>, proj: T -> P): (r: Result<P>)
    ensures FirstResult(r, repo.query, Selects(All, filter), proj)
  {
    FirstOf(Projected(repo.query, All, filter, proj), repo.query, Selects(All, filter), proj);
    Linq.First(Projected(repo.query, All, filter, proj))
  }

  function FirstOrDefault<T>(repo: Repository<T>, filter: Option<T -> bool>): (r: Option<T>)
    ensures FirstOrDefaultResult(r, repo.query, Selects(All, filter), Id())
  {
    FirstOrDefaultOf(Source(repo.query, All, filter), repo.query, Selects(All, filter), Id());
    Linq.FirstOrDefault(Source(repo.query, All, filter))
  }

  function FirstOrDefaultProjected<T, P>(repo: Repository<T>, filter: Option<T -> bool>, proj: T -> P): (r: Option<P>)
    ensures FirstOrDefaultResult(r, repo.query, Selects(All, filter), proj)
  {
    FirstOrDefaultOf(Projected(repo.query, All, filter, proj), repo.query, Selects(All, filter), proj);
    Linq.FirstOrDefault(Projected(repo.query, All, filter, proj))
  }

  function Single<T>(repo: Repository<T>, filter: Option<T -> bool>): (r: Result<T>)
    ensures SingleResult(r, repo.query, Selects(All, filter), Id())
  {
    SingleOf(Source(repo.query, All, filter), repo.query, Selects(All, filter), Id());
    Linq.Single(Source(repo.query, All, filter))
  }

  function SingleProjected<T, P>(repo: Repository<T>, filter: Option<T -> bool>, proj: T -> P): (r: Result<P>)
    ensures SingleResult(r, repo.query, Selects(All, filter), proj)
  {
    SingleOf(Projected(repo.query, All, filter, proj), repo.query, Selects(All, filter), proj);
    Linq.Single(Projected(repo.query, All, filter, proj))
  }

  function SingleOrDefault<T>(repo: Repository<T>, filter: Option<T -> bool>): (r: Result<Option<T>>)
    ensures SingleOrDefaultResult(r, repo.query, Selects(All, filter), Id())
  {
    SingleOrDefaultOf(Source(repo.query, All, filter), repo.query, Selects(All, filter), Id());
    Linq.SingleOrDefault(Source(repo.query, All, filter))
  }

  function SingleOrDefaultProjected<T, P>(repo: Repository<T>, filter: Option<T -> bool>, proj: T -> P): (r: Result<Option<P>>)
    ensures SingleOrDefaultResult(r, repo.query, Selects(All, filter), proj)
  {
    SingleOrDefaultOf(Projected(repo.query, All, filter, proj), repo.query, Selects(All, filter), proj);
    Linq.SingleOrDefault(Projected(repo.query, All, filter, proj))
  }

  function ToDictionary<T, P, K, V>(repo: Repository<T>, filter: Option<T -> bool>, proj: T -> P,
                                    key: P -> K, value: P -> V): (r: Result<map<K, V>>)
    ensures DictionaryResult(r, repo.query, Selects(All, filter), proj, key, value)
  {
    DictionaryOf(Projected(repo.query, All, filter, proj), repo.query, Selects(All, filter), proj, key, value);
    MongoQueryExtensions.ToDictionaryImpl(Projected(repo.query, All, filter, proj), key, value)
  }

  /** The optional Mongo `OrderBy(order)` step on a driver queryable. */
  function SortOnMongo<T>(s: seq<T>, order: Option<Order<T>>): (r: Result<seq<T>>)
    ensures r.Success? && ArrangementOf(r.value, s, order)
  {
    match order
    case None => Success(s)
    case Some(o) => MongoQueryExtensions.OrderBy(s, o, Linq.MongoDriver)
  }

  /** The entity lists: `Where`, then `Page`, then `OrderBy`, as in the
      relational repository. */
  function ToList<T(!new)>(repo: Repository<T>, filter: Option<T -> bool>, order: Option<Order<T>>,
                           paging: Option<PageRequest>): (r: Result<seq<T>>)
    ensures r.Success? <==> Accepted(paging)
    ensures r.Failure? ==> r.error == Rejection(paging.value.count)
    ensures r.Success? && FirstOrAll(paging) ==>
      exists l :: ListsMatches(l, repo.query, Selects(All, filter), Id()) && ArrangementOf(r.value, l[..Shown(paging, |l|)], order)
    ensures r.Success? && LaterPage(paging) ==> r.value == []
  {
    match Paged(Source(repo.query, All, filter), paging)
    case Failure(e) => Failure(e)
    case Success(rows) => SortOnMongo(rows, order)
  }

  /** The projected lists: `Where`, then `OrderBy`, then `Select`, then `Page`. */
  function ToListProjected<T(!new), P>(repo: Repository<T>, filter: Option<T -> bool>, order: Option<Order<T>>,
                                       proj: T -> P, paging: Option<PageRequest>): (r: Result<seq<P>>)
    ensures r.Success? <==> Accepted(paging)
    ensures r.Failure? ==> r.error == Rejection(paging.value.count)
    ensures r.Success? && FirstOrAll(paging) ==>
      exists l, a :: ListsMatches(l, repo.query, Selects(All, filter), Id()) && ArrangementOf(a, l, order)
        && r.value == Linq.Select(a, proj)[..Shown(paging, |a|)]
    ensures r.Success? && LaterPage(paging) ==> r.value == []
  {
    var source := Source(repo.query, All, filter);
    var sorted := SortOnMongo(source, order).value;
    assert |sorted| == |source| by {
      assert |multiset(sorted)| == |multiset(source)|;
    }
    Paged(Linq.Select(sorted, proj), paging)
  }
}
