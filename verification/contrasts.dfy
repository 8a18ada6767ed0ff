/** Lemmas that set overloads side by side where the code composes the same
    operators differently. */
module Contrasts {
  import opened Wrappers
  import Linq
  import opened Semantics
  import opened Orders
  import opened Paging
  import opened Pipeline
  import RelationalQueryRepository
  import EntityFrameworkQueryRepository
  import MongoQueryRepository
  import MapperMongoQueryRepository
  import MapperEntityFrameworkQueryRepository
  import MongoQueryExtensions

  function Value(): int -> int
  {
    x => x
  }

  /** A definitional step, not a property: the one-key order compares
      integers as `<` does. */
  lemma ByValue(a: int, b: int)
    ensures Compare(Keys(OrderBy(Value())), a, b) == if a < b then -1 else if a == b then 0 else 1
  {
    var ks := Keys(OrderBy(Value()));
    assert ks[1..] == [];
  }

  lemma SortByValue()
    ensures Sort(Keys(OrderBy(Value())), [3, 1]) == [1, 3]
    ensures Sort(Keys(OrderBy(Value())), [3, 1, 2]) == [1, 2, 3]
  {
    var ks := Keys(OrderBy(Value()));
    ByValue(3, 3);
    ByValue(1, 3);
    ByValue(2, 1);
    ByValue(2, 3);
    assert [3, 1][..1] == [3];
    assert Sort(ks, [3]) == Insert(ks, 3, []) == [3];
    assert Sort(ks, [3, 1]) == Insert(ks, 1, [3]) == [1, 3];
    assert [3, 1, 2][..2] == [3, 1];
    assert Insert(ks, 2, [3]) == [2, 3];
    assert Insert(ks, 2, [1, 3]) == [1] + Insert(ks, 2, [3]);
  }

  /** A definitional step, not a property: with no narrowing and no filter
      the source is the whole collection. */
  lemma SourceOfAll(q: seq<int>)
    ensures Source(q, All, None) == q
  {
    Linq.WhereAll(q, Selects(All, None));
  }

  lemma FirstPageOfThree()
    ensures Paged([3, 1, 2], Some(PageRequest(2, 1))) == Success([3, 1])
    ensures Paged([1, 2, 3], Some(PageRequest(2, 1))) == Success([1, 2])
  {
    assert Linq.Take([3, 1, 2], 2) == [3, 1];
    assert Linq.Take([1, 2, 3], 2) == [1, 2];
  }

  lemma ArrangeByValue()
    ensures Arrange([3, 1], Some(OrderBy(Value()))) == [1, 3]
    ensures Arrange([3, 1, 2], Some(OrderBy(Value()))) == [1, 2, 3]
  {
    SortByValue();
  }

  /** The entity list pages before it sorts: the first page of two rows of
      [3, 1, 2] ordered by value is [1, 3]. */
  lemma EntityListSortsThePage()
    ensures RelationalQueryRepository.ToList(RelationalQueryRepository.Repository([3, 1, 2]), All, None,
              Some(OrderBy(Value())), Some(PageRequest(2, 1))) == Success([1, 3])
  {
    SourceOfAll([3, 1, 2]);
    FirstPageOfThree();
    ArrangeByValue();
  }

  /** The projected list sorts before it pages: the same request projected
      through the identity is [1, 2]. */
  lemma ProjectedListPagesTheSort()
    ensures RelationalQueryRepository.ToListProjected(RelationalQueryRepository.Repository([3, 1, 2]), All, None,
              Some(OrderBy(Value())), Id(), Some(PageRequest(2, 1))) == Success([1, 2])
  {
    SourceOfAll([3, 1, 2]);
    FirstPageOfThree();
    ArrangeByValue();
    SelectIdentity([1, 2, 3]);
  }

  /** A definitional step, not a property: projecting by the identity
      leaves the rows as they are. */
  lemma SelectIdentity(s: seq<int>)
    ensures Linq.Select(s, Id<int>()) == s
  {
  }

  /** With two or more matches the `<TChild, TProjection>` SingleOrDefault
      returns the first, while the `<TChild>` entity overload fails. */
  lemma ChildProjectionSingleOrDefaultIsFirstOrDefault<T, P>(q: seq<T>, isChild: T -> bool, filter: Option<T -> bool>, proj: T -> P)
    requires |Matches(q, Selects(Subtype(isChild), filter))| >= 2
    ensures RelationalQueryRepository.SingleOrDefault(RelationalQueryRepository.Repository(q), Subtype(isChild), filter)
         == Failure(MoreThanOneElement)
    ensures RelationalQueryRepository.SingleOrDefaultProjected(RelationalQueryRepository.Repository(q), Subtype(isChild), filter, proj).Success?
    ensures RelationalQueryRepository.SingleOrDefaultProjected(RelationalQueryRepository.Repository(q), Subtype(isChild), filter, proj).value.Some?
  {
    var sel := Selects(Subtype(isChild), filter);
    var i :| i in Matches(q, sel);
    assert AnyMatch(q, sel) by {
      assert 0 <= i < |q| && sel(q[i]);
    }
  }

  /** The Mongo mapper's SingleAsync returns the first of several matches;
      the Entity Framework mapper's fails. */
  lemma MapperSingleDiffersByStore<T, P>(q: seq<T>, n: Narrowing<T>, filter: T -> bool, mapping: T -> P)
    requires |Matches(q, Selects(n, Some(filter)))| >= 2
    ensures MapperMongoQueryRepository.Single(MapperMongoQueryRepository.Repository(q), n, filter, mapping).Success?
    ensures MapperEntityFrameworkQueryRepository.Single(MapperEntityFrameworkQueryRepository.Repository(q), n, filter, mapping)
         == Failure(MoreThanOneElement)
  {
    var sel := Selects(n, Some(filter));
    var i :| i in Matches(q, sel);
    assert AnyMatch(q, sel) by {
      assert 0 <= i < |q| && sel(q[i]);
    }
  }

  /** The inline paging serves a one-row page, which the paging helper
      rejects. */
  lemma InlinePagingAcceptsSingleRowPages<T(!new)>(q: seq<T>, filter: T -> bool)
    requires AnyMatch(q, Selects(All, Some(filter)))
    ensures |EntityFrameworkQueryRepository.ToList(EntityFrameworkQueryRepository.Repository(q), All, filter, 1, 1)| == 1
    ensures |MongoQueryRepository.ToList(MongoQueryRepository.Repository(q), All, filter, 1, 1)| == 1
    ensures RelationalQueryRepository.ToList(RelationalQueryRepository.Repository(q), All, Some(filter), None, Some(PageRequest(1, 1)))
         == Failure(InvalidArgument("count"))
  {
    var src := Source(q, All, Some(filter));
    EnumerationCount(src, q, Selects(All, Some(filter)), Id());
  }

  /** Both casts fail on a queryable that is not the Mongo driver's. */
  lemma MongoCastsRejectOtherProviders<T, P>(s: seq<T>, order: Order<T>, mapping: T -> P)
    ensures MongoQueryExtensions.OrderBy(s, order, Linq.EntityFrameworkCore) == Failure(UnableToCastTransformation)
    ensures MapperMongoQueryRepository.MongoProject(s, Linq.EntityFrameworkCore, mapping) == Failure(NotMongoQueryable)
  {
  }
}
