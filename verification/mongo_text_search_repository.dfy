/** MongoTextSearchRepository<T>: the Mongo query repository plus full-text
    list reads, with `<TChild>` overloads that narrow before searching.
    Results are in provider order: text-score sorting is not implemented.
 */
module MongoTextSearchRepository {
  import opened Wrappers
  import Linq
  import opened Semantics
  import opened Paging
  import opened Pipeline
  import opened MongoQueryExtensions

  datatype Repository<T> = Repository(query: seq<T>)

  /** `Query[.OfType<TChild>()].Where(search[, filter])` is one selection of
      the raw collection. A definitional step that Dafny unfolds unaided;
      the text-search lists below rest on it. */
  lemma SearchIsSource<T>(q: seq<T>, n: Narrowing<T>, textMatch: (string, T) -> bool, search: string,
                          filter: Option<T -> bool>)
    ensures SearchWith(Narrow(q, n), textMatch, search, filter) == Source(q, n, Some(SearchSelects(textMatch, search, filter)))
  {
  }

  /** The entity searches: narrow, `Where(search[, filter])`, then `Page` when paged. */
  function ToList<T(!new)>(repo: Repository<T>, n: Narrowing<T>, textMatch: (string, T) -> bool, search: string,
                           filter: Option<T -> bool>, paging: Option<PageRequest>): (r: Result<seq<T>>)
    ensures r.Success? <==> Accepted(paging)
    ensures r.Failure? ==> r.error == Rejection(paging.value.count)
    ensures r.Success? && FirstOrAll(paging) ==>
      exists l :: ListsMatches(l, repo.query, Selects(n, Some(SearchSelects(textMatch, search, filter))), Id())
        && r.value == l[..Shown(paging, |l|)]
    ensures r.Success? && LaterPage(paging) ==> r.value == []
  {
    SearchIsSource(repo.query, n, textMatch, search, filter);
    Paged(SearchWith(Narrow(repo.query, n), textMatch, search, filter), paging)
  }

  /** The projected searches: narrow, `Where(search[, filter])`, `Select`, then `Page` when paged. */
  function ToListProjected<T, P(!new)>(repo: Repository<T>, n: Narrowing<T>, textMatch: (string, T) -> bool, search: string,
                                       filter: Option<T -> bool>, proj: T -> P, paging: Option<PageRequest>): (r: Result<seq<P>>)
    ensures r.Success? <==> Accepted(paging)
    ensures r.Failure? ==> r.error == Rejection(paging.value.count)
    ensures r.Success? && FirstOrAll(paging) ==>
      exists l :: ListsMatches(l, repo.query, Selects(n, Some(SearchSelects(textMatch, search, filter))), proj)
        && r.value == l[..Shown(paging, |l|)]
    ensures r.Success? && LaterPage(paging) ==> r.value == []
  {
    var sel := Selects(n, Some(SearchSelects(textMatch, search, filter)));
    var found := SearchWith(Narrow(repo.query, n), textMatch, search, filter);
    SearchIsSource(repo.query, n, textMatch, search, filter);
    SelectLists(found, repo.query, sel, proj);
    Paged(Linq.Select(found, proj), paging)
  }
}
