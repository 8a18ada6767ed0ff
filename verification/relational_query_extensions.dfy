/** The helpers the Entity Framework Core repositories chain onto a queryable:
    the fluent `OrderBy(order)` and dictionary materialisation. The paging
    helper of the same class is `Paging.Page`. */
module RelationalQueryExtensions {
  import opened Wrappers
  import Linq
  import opened Orders

  /** OrderBy(order): the untyped Apply; it cannot fail. */
  function OrderBy<T>(s: seq<T>, order: Order<T>): (r: seq<T>)
    ensures Sorted(Keys(order), r)
    ensures multiset(r) == multiset(s)
  {
    Apply(order, s)
  }

  /** ToDictionaryImpl: EF Core's ToDictionaryAsync over the rows, which adds
      them one by one and throws on a repeated key. */
  function ToDictionaryImpl<R, K, V>(s: seq<R>, key: R -> K, value: R -> V): (r: Result<map<K, V>>)
    ensures r.Success? <==> Linq.DistinctKeys(s, key)
    ensures r.Failure? ==> r.error == DuplicateKey
    ensures r.Success? ==> r.value.Keys == set i | 0 <= i < |s| :: key(s[i])
    ensures r.Success? ==> forall i :: 0 <= i < |s| ==> r.value[key(s[i])] == value(s[i])
  {
    Linq.ToDictionary(s, key, value)
  }
}
