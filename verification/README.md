# Repository query algebra in Dafny

This project models the read side of the Repository library, a set of
generic repository base classes over Entity Framework Core and the MongoDB
C# driver. Each read overload of those classes composes a fixed chain of
LINQ operators over the repository's queryable. The chain is `OfType<TChild>`,
then `Where`, then `OrderBy(Order)`, `Select`, `Page` or `Take`/`Skip`, and
then a terminal: `First`, `FirstOrDefault`, `Single`, `SingleOrDefault`,
`Any`, `Count`, `ToDictionary` or `ToList`.

The model treats a queryable as the sequence of rows the provider would
enumerate, in provider order. Every operator and every overload is a pure
function over that sequence. The exceptions a read can raise become
`Failure` values (module `Wrappers`).

- `Linq` gives the LINQ operators their LINQ-to-objects meaning, including
  the clamping of `Take` and `Skip`.
- `Semantics` states what each terminal must return in terms of the raw
  collection alone: the positions of the selected rows, the first of them,
  their number, the dictionary they build. It does this without mentioning
  the operator chain.
- `Orders` models the `Order<T>` composer. It is a non-empty list of sort
  keys, and its `Apply` is a stable lexicographic sort.
- `Paging` models the validated `Page(count, page)` helper and the inline
  `Take(count).Skip((page - 1) * count)` chain. The offset arithmetic uses
  32-bit two's-complement wrap-around.
- `Pipeline` holds the chains the overloads share: narrow, filter, project,
  sort, page.
- `RelationalQueryExtensions` and `MongoQueryExtensions` model the two
  extension classes.
- One module per repository class models its overloads:
  - `RelationalQueryRepository`
  - `EntityFrameworkQueryRepository`
  - `MongoQueryRepositoryBase`
  - `MongoQueryRepository`
  - `MongoTextSearchRepositoryBase`
  - `MongoTextSearchRepository`
  - `MapperMongoQueryRepository`
  - `MapperEntityFrameworkQueryRepository`

  Each overload family is one function. A `Narrowing` argument (`All` or
  `Subtype(isChild)`) distinguishes the plain overload from its `<TChild>`
  one. An `Option` distinguishes the overloads with and without a filter,
  an order or a page request. Every contract states the result against the
  raw collection.
- `Contrasts` sets overloads side by side where the library composes the
  same operators differently.

Several behaviours of the code are stated as proved properties:

- The entity-typed ordered and paged lists page first and then sort the
  page. The projected ones sort first and then page.
- The validated `Page` takes before it skips, so every page after the first
  is empty.
- Some repositories page inline without validation, so they serve requests
  that `Page` rejects.
- The `<TChild, TProjection>` `SingleOrDefaultAsync` overloads of the EF
  Core and Mongo query repositories end in `FirstOrDefault`.
- The mapped Mongo `SingleAsync` ends in `First`.
- The parent/child subclasses narrow the collection once, at construction.

A page number reads naturally as offset paging, skipping `(page - 1) * count`
rows. The code instead takes `count` rows first and then skips that offset
within them, and the model follows the code. `Paging.PageAgainstOffsetPaging`
proves that the two readings agree on the first page only.

## Model

| member | source | states |
|---|---|---|
| Orders.Keys | src/Abstractions/Order.cs:6-13 | an order always has at least one key, and its first key is the primary one; there is no empty order |
| Orders.OrderBy | src/Abstractions/Order.cs:15-16 | a new order whose only key is the given selector, ascending |
| Orders.OrderByDescending | src/Abstractions/Order.cs:18-19 | a new order whose only key is the given selector, descending |
| Orders.ThenBy | src/Abstractions/Order.cs:21-22 | a new order whose keys are the receiver's keys followed by the new key, ascending; the receiver is a value and is unchanged |
| Orders.ThenByDescending | src/Abstractions/Order.cs:24-25 | a new order whose keys are the receiver's keys followed by the new key, descending |
| Orders.Apply | src/Abstractions/Order.cs:27-28 | the result is sorted lexicographically by the order's keys and is a permutation of the input (same multiset) |
| Orders.ApplyAs | src/Abstractions/Order.cs:31-32 | the typed Apply succeeds exactly when the queryable is of the target provider, and otherwise fails with "Unable to cast transformation"; a success is sorted and a permutation |
| Orders.OrderByAscending | src/Abstractions/Order.cs:15-16 | applying OrderBy(k) yields rows with non-decreasing k |
| Orders.OrderByDescendingSorts | src/Abstractions/Order.cs:18-19 | applying OrderByDescending(k) yields rows with non-increasing k |
| Orders.ThenByRefines | src/Abstractions/Order.cs:21-22 | applying ThenBy(o, k) is still sorted by o, and among rows o ties on, k is non-decreasing |
| Orders.ThenByDescendingRefines | src/Abstractions/Order.cs:24-25 | applying ThenByDescending(o, k) is still sorted by o, and among rows o ties on, k is non-increasing |
| Orders.ApplyIsStable | src/Abstractions/Order.cs:27-28 | rows that tie on every key keep their provider order (LINQ's stable OrderBy/ThenBy) |
| Linq.Where | src/EntityFrameworkCore/RelationalQueryRepository.cs:167-169 | the filtered rows are no more than the input and all satisfy the filter; that every satisfying row is kept, in order, is Semantics.WhereIndices/WhereLists |
| Linq.Select | src/EntityFrameworkCore/RelationalQueryRepository.cs:213-214 | the projection has one element per row, the projection of that row |
| Linq.Take | src/EntityFrameworkCore/EntityFrameworkQueryRepository.cs:201-204 | Take(n) is the prefix of min(max(n, 0), length) rows |
| Linq.Skip | src/EntityFrameworkCore/EntityFrameworkQueryRepository.cs:201-204 | Skip(n) is the suffix after min(max(n, 0), length) rows, so a zero or negative count skips nothing |
| Linq.SkipPastTake | src/EntityFrameworkCore/RelationalQueryExtensions.cs:17 | taking count rows and then skipping at least count of them leaves nothing |
| Linq.WhereWhere | src/EntityFrameworkCore/RelationalQueryRepository.cs:192-193 | OfType followed by Where keeps exactly the rows that pass both tests, in order |
| Linq.ToDictionary | src/MongoDB/MongoQueryExtensions.cs:58-61 | the dictionary fails with a duplicate-key error exactly when two rows share a key; otherwise its keys are the rows' keys, each maps to its row's value, and it has one entry per row |
| Paging.Wrap32 | src/EntityFrameworkCore/RelationalQueryExtensions.cs:17 | an in-range value is unchanged, and any value is congruent to its wrapped value modulo 2^32 (the unchecked `(page - 1) * count`) |
| Paging.InlinePage | src/EntityFrameworkCore/EntityFrameworkQueryRepository.cs:201-204 | the unvalidated chain never fails; it returns a contiguous slice of the first count rows; without overflow, page <= 1 gives that whole prefix and page >= 2 gives nothing |
| Paging.Page | src/EntityFrameworkCore/RelationalQueryExtensions.cs:13-18 | succeeds exactly when count >= 2 and page >= 1; count < 2 is rejected as "count" before the page is checked; page 1 is the first min(count, length) rows; a later page without overflow is empty; a success is always the take-then-skip chain; the Mongo helper (src/MongoDB/MongoQueryExtensions.cs, lines 32-37) is the same code |
| Paging.PageAgainstOffsetPaging | src/EntityFrameworkCore/RelationalQueryExtensions.cs:17 | the helper agrees with offset paging on page 1; on a later page that holds rows, offset paging returns rows and the helper returns none |
| Paging.WrappedOffsetRepeatsFirstPage | src/EntityFrameworkCore/RelationalQueryExtensions.cs:17 | page 2147483647 with count 2 wraps the offset to -4 and returns the first page again |
| Paging.InlineServesSingleRowPage | src/EntityFrameworkCore/RelationalQueryExtensions.cs:15 | a count of 1 is rejected by the helper as "count" but served by the inline chain as the first row |
| Paging.InlineServesPageZero | src/EntityFrameworkCore/RelationalQueryExtensions.cs:16 | a page of 0 is rejected by the helper as "page" but served by the inline chain as the first page |
| Pipeline.SourceFusion | src/EntityFrameworkCore/RelationalQueryRepository.cs:29-30 | narrowing by OfType and then filtering is one filter by the conjunction of the type test and the filter |
| Pipeline.Source | src/EntityFrameworkCore/RelationalQueryRepository.cs:20-30 | `Query[.OfType<TChild>()][.Where(filter)]` lists exactly the selected rows of the collection, in collection order |
| Pipeline.Projected | src/EntityFrameworkCore/RelationalQueryRepository.cs:213-217 | the source followed by Select lists the projections of exactly the selected rows, in order |
| Pipeline.Arrange | src/EntityFrameworkCore/RelationalQueryRepository.cs:171-172 | the optional OrderBy keeps the same rows; with no order they stay in place, with an order they are sorted by it |
| Pipeline.Paged | src/EntityFrameworkCore/RelationalQueryRepository.cs:174-175 | the optional Page inherits the helper's failures; without a request every row is kept, page 1 keeps the first count rows, a later page keeps none |
| Pipeline.PageThenArrange | src/EntityFrameworkCore/RelationalQueryRepository.cs:183-187 | Page then OrderBy: the result is the first-page rows of the unsorted input, sorted |
| Pipeline.ArrangeThenPage | src/EntityFrameworkCore/RelationalQueryRepository.cs:231-235 | OrderBy, Select, then Page: the result is the first page of the whole sorted, projected input |
| RelationalQueryExtensions.OrderBy | src/EntityFrameworkCore/RelationalQueryExtensions.cs:9-10 | the fluent OrderBy is the untyped Apply: never fails, sorted, a permutation |
| RelationalQueryExtensions.ToDictionaryImpl | src/EntityFrameworkCore/RelationalQueryExtensions.cs:21-22 | fails on a repeated key and otherwise maps each row's key to its value |
| MongoQueryExtensions.OrderBy | src/MongoDB/MongoQueryExtensions.cs:16-21 | the Mongo OrderBy goes through the typed Apply, so it fails with the cast error unless the queryable is the Mongo driver's |
| MongoQueryExtensions.Search | src/MongoDB/MongoQueryExtensions.cs:40-45 | keeps, in order, exactly the documents matching the text query |
| MongoQueryExtensions.SearchWhere | src/MongoDB/MongoQueryExtensions.cs:48-54 | keeps, in order, exactly the documents matching the text query and satisfying the predicate |
| MongoQueryExtensions.SearchWhereIsSearchThenWhere | src/MongoDB/MongoQueryExtensions.cs:48-54 | the combined filter keeps what the text search followed by the predicate keeps |
| MongoQueryExtensions.SearchWith | src/MongoDB/MongoQueryExtensions.cs:40-54 | whichever helper an overload picks, the result lists exactly the documents that match the text query and, when given, the predicate, in collection order |
| MongoQueryExtensions.ToDictionaryImpl | src/MongoDB/MongoQueryExtensions.cs:58-61 | the rows are listed and then mapped; a repeated key fails, and otherwise each row's key maps to its value |
| RelationalQueryRepository.Any | src/EntityFrameworkCore/RelationalQueryRepository.cs:20-30 | true exactly when some row is selected (of type TChild when narrowed, passing the filter when given) |
| RelationalQueryRepository.Count | src/EntityFrameworkCore/RelationalQueryRepository.cs:32-54 | the number of selected rows; LongCountAsync is the same chain |
| RelationalQueryRepository.AnyIffCountPositive | src/EntityFrameworkCore/RelationalQueryRepository.cs:20-42 | AnyAsync(f) holds exactly when CountAsync(f) is positive, for every narrowing and filter |
| RelationalQueryRepository.First | src/EntityFrameworkCore/RelationalQueryRepository.cs:56-66 | the first selected row, or "no elements" exactly when none is selected |
| RelationalQueryRepository.FirstProjected | src/EntityFrameworkCore/RelationalQueryRepository.cs:68-78 | the projection of the first selected row, or "no elements" exactly when none is selected |
| RelationalQueryRepository.FirstOrDefault | src/EntityFrameworkCore/RelationalQueryRepository.cs:80-90 | the first selected row, or absent exactly when none is selected |
| RelationalQueryRepository.FirstOrDefaultProjected | src/EntityFrameworkCore/RelationalQueryRepository.cs:92-102 | the projection of the first selected row, or absent exactly when none is selected |
| RelationalQueryRepository.Single | src/EntityFrameworkCore/RelationalQueryRepository.cs:104-114 | succeeds exactly when one row is selected and returns it; otherwise "no elements" or "more than one element" |
| RelationalQueryRepository.SingleProjected | src/EntityFrameworkCore/RelationalQueryRepository.cs:116-126 | succeeds exactly when one row is selected and returns its projection; otherwise "no elements" or "more than one element" |
| RelationalQueryRepository.SingleOrDefault | src/EntityFrameworkCore/RelationalQueryRepository.cs:128-138 | absent when no row is selected, the row when one is, "more than one element" exactly when two or more are |
| RelationalQueryRepository.SingleOrDefaultProjected | src/EntityFrameworkCore/RelationalQueryRepository.cs:140-150 | without narrowing, SingleOrDefault over the projections; the `<TChild, TProjection>` overloads never fail and return the first match's projection or absent |
| RelationalQueryRepository.ToDictionary | src/EntityFrameworkCore/RelationalQueryRepository.cs:152-162 | fails exactly when two selected rows project to the same key; otherwise one entry per selected row, mapping its key to its value |
| RelationalQueryRepository.ToList | src/EntityFrameworkCore/RelationalQueryRepository.cs:164-211 | fails exactly on a request Page rejects, naming the parameter; otherwise the first count selected rows in collection order, sorted by the order when given; a later page is empty |
| RelationalQueryRepository.ToListProjected | src/EntityFrameworkCore/RelationalQueryRepository.cs:213-259 | fails exactly on a request Page rejects; otherwise the first count projections of all selected rows after sorting them; a later page is empty |
| EntityFrameworkQueryRepository.Any | src/EntityFrameworkCore/EntityFrameworkQueryRepository.cs:25-36 | true exactly when some row is selected |
| EntityFrameworkQueryRepository.Count | src/EntityFrameworkCore/EntityFrameworkQueryRepository.cs:38-62 | the number of selected rows; LongCountAsync is the same chain |
| EntityFrameworkQueryRepository.First | src/EntityFrameworkCore/EntityFrameworkQueryRepository.cs:64-75 | the first selected row, or "no elements" exactly when none is selected |
| EntityFrameworkQueryRepository.FirstProjected | src/EntityFrameworkCore/EntityFrameworkQueryRepository.cs:77-92 | the projection of the first selected row, or "no elements" exactly when none is selected |
| EntityFrameworkQueryRepository.FirstOrDefault | src/EntityFrameworkCore/EntityFrameworkQueryRepository.cs:94-106 | the first selected row, or absent exactly when none is selected |
| EntityFrameworkQueryRepository.FirstOrDefaultProjected | src/EntityFrameworkCore/EntityFrameworkQueryRepository.cs:108-123 | the projection of the first selected row, or absent exactly when none is selected |
| EntityFrameworkQueryRepository.Single | src/EntityFrameworkCore/EntityFrameworkQueryRepository.cs:125-136 | succeeds exactly when one row is selected; otherwise "no elements" or "more than one element" |
| EntityFrameworkQueryRepository.SingleProjected | src/EntityFrameworkCore/EntityFrameworkQueryRepository.cs:138-153 | succeeds exactly when one row is selected and returns its projection; otherwise the matching cardinality error |
| EntityFrameworkQueryRepository.SingleOrDefault | src/EntityFrameworkCore/EntityFrameworkQueryRepository.cs:155-167 | absent for no selected row, the row for one, "more than one element" exactly for two or more |
| EntityFrameworkQueryRepository.SingleOrDefaultProjected | src/EntityFrameworkCore/EntityFrameworkQueryRepository.cs:169-185 | without narrowing, SingleOrDefault over the projections; the `<TChild, TProjection>` overloads behave as FirstOrDefault and tolerate several matches |
| EntityFrameworkQueryRepository.ToDictionary | src/EntityFrameworkCore/EntityFrameworkQueryRepository.cs:187-199 | fails exactly on a duplicate key among the selected rows' projections; otherwise one entry per selected row |
| EntityFrameworkQueryRepository.ToList | src/EntityFrameworkCore/EntityFrameworkQueryRepository.cs:201-209 | never fails: the inline take-then-skip over the selected rows in order; a later page without overflow is empty |
| EntityFrameworkQueryRepository.ToListProjected | src/EntityFrameworkCore/EntityFrameworkQueryRepository.cs:211-221 | never fails: the inline take-then-skip over the projections of the selected rows; a later page without overflow is empty |
| MongoQueryRepositoryBase.ForChild | src/MongoDB/MongoQueryRepositoryBase.cs:138-144 | the parent/child subclass holds exactly the TChild documents of the collection, in order |
| MongoQueryRepositoryBase.ChildReadsNarrowParent | src/MongoDB/MongoQueryRepositoryBase.cs:138-144 | every read of the child repository selects from the parent collection exactly what a `<TChild>` read with the same filter selects |
| MongoQueryRepositoryBase.ChildFirstSelectsFromParent | src/MongoDB/MongoQueryRepositoryBase.cs:35-39 | First on the child repository is the first TChild document of the parent collection that passes the filter |
| MongoQueryRepositoryBase.Any | src/MongoDB/MongoQueryRepositoryBase.cs:17-21 | true exactly when some document passes the filter |
| MongoQueryRepositoryBase.Count | src/MongoDB/MongoQueryRepositoryBase.cs:23-33 | the number of documents passing the filter |
| MongoQueryRepositoryBase.First | src/MongoDB/MongoQueryRepositoryBase.cs:35-39 | the first selected document, or "no elements" exactly when none is selected |
| MongoQueryRepositoryBase.FirstProjected | src/MongoDB/MongoQueryRepositoryBase.cs:41-45 | the projection of the first selected document, or "no elements" |
| MongoQueryRepositoryBase.FirstOrDefault | src/MongoDB/MongoQueryRepositoryBase.cs:47-51 | the first selected document, or absent exactly when none is selected |
| MongoQueryRepositoryBase.FirstOrDefaultProjected | src/MongoDB/MongoQueryRepositoryBase.cs:53-57 | the projection of the first selected document, or absent |
| MongoQueryRepositoryBase.Single | src/MongoDB/MongoQueryRepositoryBase.cs:59-63 | succeeds exactly when one document is selected; otherwise the matching cardinality error |
| MongoQueryRepositoryBase.SingleProjected | src/MongoDB/MongoQueryRepositoryBase.cs:65-69 | succeeds exactly when one document is selected and returns its projection |
| MongoQueryRepositoryBase.SingleOrDefault | src/MongoDB/MongoQueryRepositoryBase.cs:71-75 | absent for none, the document for one, "more than one element" for two or more |
| MongoQueryRepositoryBase.SingleOrDefaultProjected | src/MongoDB/MongoQueryRepositoryBase.cs:77-81 | true SingleOrDefault over the projections: fails exactly on two or more matches |
| MongoQueryRepositoryBase.ToDictionary | src/MongoDB/MongoQueryRepositoryBase.cs:83-87 | list then map: fails exactly on a duplicate key among the selected documents' projections; otherwise one entry per document |
| MongoQueryRepositoryBase.SortOnMongo | src/MongoDB/MongoQueryRepositoryBase.cs:95-96 | on the driver's own queryable the typed OrderBy never fails and sorts the same documents |
| MongoQueryRepositoryBase.ToList | src/MongoDB/MongoQueryRepositoryBase.cs:89-111 | fails exactly on a request Page rejects; otherwise the first count selected documents, then sorted; a later page is empty |
| MongoQueryRepositoryBase.ToListProjected | src/MongoDB/MongoQueryRepositoryBase.cs:113-135 | fails exactly on a request Page rejects; otherwise the first count projections of all selected documents after sorting; a later page is empty |
| MongoQueryRepository.Any | src/MongoDB/MongoQueryRepository.cs:27-32 | true exactly when some document passes the filter (and is TChild when narrowed) |
| MongoQueryRepository.Count | src/MongoDB/MongoQueryRepository.cs:34-46 | the number of selected documents |
| MongoQueryRepository.First | src/MongoDB/MongoQueryRepository.cs:49-54 | the first selected document, or "no elements" |
| MongoQueryRepository.FirstProjected | src/MongoDB/MongoQueryRepository.cs:56-63 | the projection of the first selected document, or "no elements" |
| MongoQueryRepository.FirstOrDefault | src/MongoDB/MongoQueryRepository.cs:65-72 | the first selected document, or absent |
| MongoQueryRepository.FirstOrDefaultProjected | src/MongoDB/MongoQueryRepository.cs:74-81 | the projection of the first selected document, or absent |
| MongoQueryRepository.Single | src/MongoDB/MongoQueryRepository.cs:83-88 | succeeds exactly when one document is selected; otherwise the matching cardinality error |
| MongoQueryRepository.SingleProjected | src/MongoDB/MongoQueryRepository.cs:90-97 | succeeds exactly when one document is selected and returns its projection |
| MongoQueryRepository.SingleOrDefault | src/MongoDB/MongoQueryRepository.cs:99-105 | absent for none, the document for one, "more than one element" for two or more |
| MongoQueryRepository.SingleOrDefaultProjected | src/MongoDB/MongoQueryRepository.cs:107-114 | SingleOrDefault over the projections without narrowing; the `<TChild, TProjection>` overload is FirstOrDefault |
| MongoQueryRepository.ToDictionary | src/MongoDB/MongoQueryRepository.cs:116-128 | list then map: fails exactly on a duplicate key; otherwise one entry per selected document |
| MongoQueryRepository.ToList | src/MongoDB/MongoQueryRepository.cs:130-138 | never fails: inline take-then-skip over the selected documents; a later page without overflow is empty |
| MongoQueryRepository.ToListProjected | src/MongoDB/MongoQueryRepository.cs:140-150 | never fails: inline take-then-skip over the projections; a later page without overflow is empty |
| MongoTextSearchRepositoryBase.ForChild | src/MongoDB/MongoTextSearchRepositoryBase.cs:45-51 | the parent/child subclass holds exactly the TChild documents of the collection |
| MongoTextSearchRepositoryBase.ChildSearchNarrowsParent | src/MongoDB/MongoTextSearchRepositoryBase.cs:45-51 | a search of the child repository keeps what a TChild-narrowed search of the parent collection keeps |
| MongoTextSearchRepositoryBase.ToList | src/MongoDB/MongoTextSearchRepositoryBase.cs:20-30 | the text matches passing the optional filter, in collection order (no sort); paged through Page, so bad requests fail and a later page is empty |
| MongoTextSearchRepositoryBase.ToListProjected | src/MongoDB/MongoTextSearchRepositoryBase.cs:32-42 | the projections of the text matches passing the filter, projected after filtering and before paging |
| MongoTextSearchRepository.SearchIsSource | src/MongoDB/MongoTextSearchRepository.cs:43-57 | OfType then the text search is one selection: type test, text match and optional filter together |
| MongoTextSearchRepository.ToList | src/MongoDB/MongoTextSearchRepository.cs:28-57 | the (TChild) text matches passing the optional filter, in collection order; paged through Page |
| MongoTextSearchRepository.ToListProjected | src/MongoDB/MongoTextSearchRepository.cs:59-95 | the projections of the (TChild) text matches passing the filter, projected before paging through Page |
| MapperMongoQueryRepository.MongoProject | src/MongoDB.AutoMapper/MapperMongoQueryRepository.cs:83-85 | the mapped query succeeds exactly on a Mongo queryable, and otherwise fails with an invalid-operation error; a success maps every row |
| MapperMongoQueryRepository.Mapped | src/MongoDB.AutoMapper/MapperMongoQueryRepository.cs:25-31 | on the repository's own queryable the cast succeeds and lists the mapped selected documents in order |
| MapperMongoQueryRepository.First | src/MongoDB.AutoMapper/MapperMongoQueryRepository.cs:25-31 | the mapping of the first selected document, or "no elements" |
| MapperMongoQueryRepository.FirstOrDefault | src/MongoDB.AutoMapper/MapperMongoQueryRepository.cs:33-39 | the mapping of the first selected document, or absent |
| MapperMongoQueryRepository.Single | src/MongoDB.AutoMapper/MapperMongoQueryRepository.cs:41-47 | ends in First: the first match's mapping, with no failure on several matches |
| MapperMongoQueryRepository.SingleOrDefault | src/MongoDB.AutoMapper/MapperMongoQueryRepository.cs:49-55 | absent for none, the mapping for one, "more than one element" for two or more |
| MapperMongoQueryRepository.ToDictionary | src/MongoDB.AutoMapper/MapperMongoQueryRepository.cs:57-68 | list then map: fails exactly on a duplicate key among the mapped documents |
| MapperMongoQueryRepository.ToList | src/MongoDB.AutoMapper/MapperMongoQueryRepository.cs:70-79 | unvalidated take-then-skip over the mapped documents; a later page without overflow is empty |
| MapperEntityFrameworkQueryRepository.First | src/EntityFrameworkCore.AutoMapper/MapperEntityFrameworkQueryRepository.cs:29-35 | the mapping of the first selected row, or "no elements" |
| MapperEntityFrameworkQueryRepository.FirstOrDefault | src/EntityFrameworkCore.AutoMapper/MapperEntityFrameworkQueryRepository.cs:37-43 | the mapping of the first selected row, or absent exactly when none is selected |
| MapperEntityFrameworkQueryRepository.Single | src/EntityFrameworkCore.AutoMapper/MapperEntityFrameworkQueryRepository.cs:45-51 | fails on zero or several selected rows, otherwise the one row's mapping |
| MapperEntityFrameworkQueryRepository.SingleOrDefault | src/EntityFrameworkCore.AutoMapper/MapperEntityFrameworkQueryRepository.cs:53-59 | absent for none, the mapping for one, "more than one element" for two or more |
| MapperEntityFrameworkQueryRepository.ToDictionary | src/EntityFrameworkCore.AutoMapper/MapperEntityFrameworkQueryRepository.cs:61-72 | fails exactly on a duplicate key among the mapped rows; otherwise one entry per selected row |
| MapperEntityFrameworkQueryRepository.ToList | src/EntityFrameworkCore.AutoMapper/MapperEntityFrameworkQueryRepository.cs:74-84 | unvalidated take-then-skip over the mapped rows; a later page without overflow is empty |
| Contrasts.EntityListSortsThePage | src/EntityFrameworkCore/RelationalQueryRepository.cs:183-184 | the first page of two of [3, 1, 2] ordered by value is [1, 3]: the page is cut before sorting |
| Contrasts.ProjectedListPagesTheSort | src/EntityFrameworkCore/RelationalQueryRepository.cs:231-232 | the same request on the projected list is [1, 2]: the page is cut after sorting |
| Contrasts.ChildProjectionSingleOrDefaultIsFirstOrDefault | src/EntityFrameworkCore/RelationalQueryRepository.cs:134-150 | with two or more TChild matches, SingleOrDefaultAsync<TChild> fails while SingleOrDefaultAsync<TChild, TProjection> returns a value |
| Contrasts.MapperSingleDiffersByStore | src/MongoDB.AutoMapper/MapperMongoQueryRepository.cs:41-47 | with two or more matches the mapped Mongo SingleAsync succeeds while the mapped EF Core SingleAsync fails |
| Contrasts.InlinePagingAcceptsSingleRowPages | src/EntityFrameworkCore/EntityFrameworkQueryRepository.cs:201-204 | a one-row page is served by the inline EF Core and Mongo lists but rejected by the relational list |
| Contrasts.MongoCastsRejectOtherProviders | src/MongoDB/MongoQueryExtensions.cs:16-21 | the Mongo OrderBy and the mapper's projection both fail on a queryable from another provider |

## Left out

- Asynchronous execution, cancellation tokens and `ConfigureAwait`: every read is a pure function of the rows it sees.
- Provider query translation (EF Core SQL generation, the Mongo aggregation pipeline): every queryable is read with LINQ-to-objects meaning, and the provider's enumeration order is the sequence order.
- Mongo text-index semantics and relevance: whether a document matches `$text` is the parameter `textMatch(search, document)`. Text-score sorting is not implemented in the library either.
- AutoMapper's `ProjectTo` configuration: the configured mapping is the parameter `mapping`.
- The command repositories (`MongoCommandRepositoryBase`, `RelationalCommandRepositoryBase`): writes and driver I/O only.
- The `I*Repository` interfaces: declarations without behaviour.
- The constructors that take a `DbContext` or an `IMongoCollection`: each repository is a datatype holding the queryable it reads. Only the parent/child constructors, which narrow, are modelled (`ForChild`).
- `ToListImpl` in both extension classes: it materialises the rows unchanged (`Linq.ToList`).
- `Order<T, TChild>` is not part of this model; the `<TChild>` list overloads take an `Order` over the narrowed rows.
- Sort keys are functions to `int`: a key type under its default comparer is abstracted to a total order on integers.
- Count, LongCount: the `int` and `long` result widths are not modelled; both are the mathematical count of selected rows.
- ToList: in every repository, the order among rows an `Order` ties on completely is stated by `Orders.ApplyIsStable` and not repeated in the list contracts.
- ToList: in every repository, a later page whose offset `(page - 1) * count` wraps past 32 bits is stated only by `Paging.InlinePage`, `Paging.Page` and `Paging.WrappedOffsetRepeatsFirstPage`; the list contracts say nothing about it.
- ToListProjected: the same two omissions as ToList.
- MongoQueryExtensions.OrderBy: the `Order<T, TChild>` overload is the same typed Apply over the narrowed rows.
