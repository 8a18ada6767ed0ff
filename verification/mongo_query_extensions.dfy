/** The helpers the MongoDB repositories chain onto a Mongo queryable: the
    fluent `OrderBy(order)` through the typed Apply, the two text-search
    filters, and dictionary materialisation. The paging helper of the same
    class is the same code as `Paging.Page`.

    Whether a document matches a `$text` query depends on the collection's
    text index, which is not part of this model: it is the parameter
    `textMatch(search, document)`.
 */
module MongoQueryExtensions {
  import opened Wrappers
  import Linq
  import opened Semantics
  import opened Orders

  /** OrderBy(order): the typed Apply to IOrderedMongoQueryable. It succeeds
      exactly when the queryable came from the Mongo driver. */
  function OrderBy<T>(s: seq<T>, order: Order<T>, provider: Linq.Provider): (r: Result<seq<T>>)
    ensures r.Success? <==> provider == Linq.MongoDriver
    ensures r.Failure? ==> r.error == UnableToCastTransformation
    ensures r.Success? ==> Sorted(Keys(order), r.value) && multiset(r.value) == multiset(s)
  {
    ApplyAs(order, s, provider, Linq.MongoDriver)
  }

  /** The filter `Builders<T>.Filter.Text(search)`. */
  function TextFilter<T>(textMatch: (string, T) -> bool, search: string): T -> bool
  {
    x => textMatch(search, x)
  }

  /** What a text search keeps: the text matches, further constrained by
      the caller's predicate when there is one. */
  function SearchSelects<T>(textMatch: (string, T) -> bool, search: string, pred: Option<T -> bool>): T -> bool
  {
    match pred
    case None => TextFilter(textMatch, search)
    case Some(p) => Linq.Both(TextFilter(textMatch, search), p)
  }

  /** Where(search): the documents matching the text query, in order. */
  function Search<T>(s: seq<T>, textMatch: (string, T) -> bool, search: string): (r: seq<T>)
    ensures ListsMatches(r, s, TextFilter(textMatch, search), Id())
  {
    WhereLists(s, TextFilter(textMatch, search));
    Linq.Where(s, TextFilter(textMatch, search))
  }

  /** Where(search, predicate): one filter, the text query AND the predicate. */
  function SearchWhere<T>(s: seq<T>, textMatch: (string, T) -> bool, search: string, pred: T -> bool): (r: seq<T>)
    ensures ListsMatches(r, s, Linq.Both(TextFilter(textMatch, search), pred), Id())
  {
    WhereLists(s, Linq.Both(TextFilter(textMatch, search), pred));
    Linq.Where(s, Linq.Both(TextFilter(textMatch, search), pred))
  }

  /** The combined filter keeps what searching and then filtering keeps. */
  lemma SearchWhereIsSearchThenWhere<T>(s: seq<T>, textMatch: (string, T) -> bool, search: string, pred: T -> bool)
    ensures SearchWhere(s, textMatch, search, pred) == Linq.Where(Search(s, textMatch, search), pred)
  {
    Linq.WhereWhere(s, TextFilter(textMatch, search), pred);
  }

  /** The search helper an overload picks: with or without a predicate.
      Either way it lists exactly the documents the text query (and the
      predicate, when given) keeps, in collection order. The second clause
      is the one filter the repositories fuse with their type narrowing. */
  function SearchWith<T>(s: seq<T>, textMatch: (string, T) -> bool, search: string, pred: Option<T -> bool>): (r: seq<T>)
    ensures ListsMatches(r, s, SearchSelects(textMatch, search, pred), Id())
    ensures r == Linq.Where(s, SearchSelects(textMatch, search, pred))
  {
    WhereLists(s, SearchSelects(textMatch, search, pred));
    match pred
    case None => Search(s, textMatch, search)
    case Some(p) => SearchWhere(s, textMatch, search, p)
  }

  /** ToDictionaryImpl: the Mongo queryable has no ToDictionary, so the rows
      are listed first and the list is turned into a dictionary. */
  function ToDictionaryImpl<R, K, V>(s: seq<R>, key: R -> K, value: R -> V): (r: Result<map<K, V>>)
    ensures r.Success? <==> Linq.DistinctKeys(s, key)
    ensures r.Failure? ==> r.error == DuplicateKey
    ensures r.Success? ==> r.value.Keys == set i | 0 <= i < |s| :: key(s[i])
    ensures r.Success? ==> forall i :: 0 <= i < |s| ==> r.value[key(s[i])] == value(s[i])
  {
    Linq.ToDictionary(Linq.ToList(s), key, value)
  }
}
