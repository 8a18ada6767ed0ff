/** MongoTextSearchRepositoryBase<T>: the document repository plus full-text
    list reads. A search keeps the documents matching `$text` for `search`,
    optionally constrained by a filter, and is then paged and/or projected.
    Results are in provider order: text-score sorting is not implemented.
    The parent/child subclass narrows the collection at construction, as
    the document repository's does.
 */
module MongoTextSearchRepositoryBase {
  import opened Wrappers
  import Linq
  import opened Semantics
  import opened Paging
  import opened Pipeline
  import opened MongoQueryExtensions

  datatype Repository<T> = Repository(query: seq<T>)

  /** The constructor of the parent/child subclass: `collection.OfType<TChild>()`. */
  function ForChild<T>(collection: seq<T>, isChild: T -> bool): (repo: Repository<T>)
    ensures ListsMatches(repo.query, collection, isChild, Id())
  {
    WhereLists(collection, isChild);
    Repository(Linq.OfType(collection, isChild))
  }

  /** A search through the child repository keeps what a `<TChild>` search
      of the parent collection keeps. */
  lemma ChildSearchNarrowsParent<T>(collection: seq<T>, isChild: T -> bool, textMatch: (string, T) -> bool,
                                    search: string, filter: Option<T -> bool>)
    ensures SearchWith(ForChild(collection, isChild).query, textMatch, search, filter)
         == Source(collection, Subtype(isChild), Some(SearchSelects(textMatch, search, filter)))
  {
    var ss := SearchSelects(textMatch, search, filter);
    Linq.WhereWhere(collection, isChild, ss);
    Linq.WhereAgree(collection, Linq.Both(isChild, ss), Selects(Subtype(isChild), Some(ss)));
  }

  /** The entity searches: `Where(search[, filter])`, then `Page` when paged. */
  function ToList<T(!new)>(repo: Repository<T>, textMatch: (string, T) -> bool, search: string,
                           filter: Option<T -> bool>, paging: Option<PageRequest>): (r: Result<seq<T>>)
    ensures r.Success? <==> Accepted(paging)
    ensures r.Failure? ==> r.error == Rejection(paging.value.count)
    ensures r.Success? && FirstOrAll(paging) ==>
      exists l :: ListsMatches(l, repo.query, SearchSelects(textMatch, search, filter), Id())
        && r.value == l[..Shown(paging, |l|)]
    ensures r.Success? && LaterPage(paging) ==> r.value == []
  {
    WhereLists(repo.query, SearchSelects(textMatch, search, filter));
    Paged(SearchWith(repo.query, textMatch, search, filter), paging)
  }

  /** The projected searches: `Where(search[, filter])`, `Select`, then `Page` when paged. */
  function ToListProjected<T, P(!new)>(repo: Repository<T>, textMatch: (string, T) -> bool, search: string,
                                       filter: Option<T -> bool>, proj: T -> P, paging: Option<PageRequest>): (r: Result<seq<P>>)
    ensures r.Success? <==> Accepted(paging)
    ensures r.Failure? ==> r.error == Rejection(paging.value.count)
    ensures r.Success? && FirstOrAll(paging) ==>
      exists l :: ListsMatches(l, repo.query, SearchSelects(textMatch, search, filter), proj)
        && r.value == l[..Shown(paging, |l|)]
    ensures r.Success? && LaterPage(paging) ==> r.value == []
  {
    var found := SearchWith(repo.query, textMatch, search, filter);
    WhereLists(repo.query, SearchSelects(textMatch, search, filter));
    SelectLists(found, repo.query, SearchSelects(textMatch, search, filter), proj);
    Paged(Linq.Select(found, proj), paging)
  }
}
