/** The query operators the repositories compose, with LINQ-to-objects meaning.

    A queryable is modelled as the sequence of rows the provider would
    enumerate, in provider order. Every operator is pure; the terminals
    turn the exceptions LINQ raises into `Failure` values.
 */
module Linq {
  import opened Wrappers

  /** The query provider behind a queryable: it decides the runtime type of
      every queryable the standard operators build from it. */
  datatype Provider = EntityFrameworkCore | MongoDriver

  /** The number of rows `Take(n)` keeps from `len` rows: LINQ treats a
      negative count as zero and a count past the end as "all". */
  function Clamp(n: int, len: nat): (c: nat)
    ensures c <= len
    ensures n <= 0 ==> c == 0
    ensures 0 <= n <= len ==> c == n
    ensures n >= len ==> c == len
  {
    if n <= 0 then 0 else if n >= len then len else n
  }

  /** Queryable.Where: the rows satisfying `p`, in order. The contract
      here only bounds the result; that every satisfying row is kept, in
      order and with its position, is `Semantics.WhereIndices` and
      `Semantics.WhereLists`. */
  function Where<T>(s: seq<T>, p: T -> bool): (r: seq<T>)
    ensures |r| <= |s|
    ensures forall i :: 0 <= i < |r| ==> p(r[i])
    decreases |s|
  {
    if |s| == 0 then []
    else Where(s[..|s| - 1], p) + (if p(s[|s| - 1]) then [s[|s| - 1]] else [])
  }

  /** Queryable.OfType<TChild>: the rows whose runtime type is `TChild`.
      A `TChild` row is the same object seen at the narrower type, so the
      narrowing is a filter by the type test `isChild`. */
  function OfType<T>(s: seq<T>, isChild: T -> bool): seq<T>
  {
    Where(s, isChild)
  }

  /** Queryable.Select: the projection of every row, in order. */
  function Select<T, P>(s: seq<T>, f: T -> P): (r: seq<P>)
    ensures |r| == |s|
    ensures forall i :: 0 <= i < |s| ==> r[i] == f(s[i])
    decreases |s|
  {
    if |s| == 0 then []
    else Select(s[..|s| - 1], f) + [f(s[|s| - 1])]
  }

  /** Queryable.Take: a prefix of `Clamp(n, |s|)` rows. */
  function Take<T>(s: seq<T>, n: int): (r: seq<T>)
    ensures |r| == Clamp(n, |s|)
    ensures r == s[..|r|]
  {
    if n <= 0 then [] else if n >= |s| then s else s[..n]
  }

  /** Queryable.Skip: what is left after dropping `Clamp(n, |s|)` rows;
      a zero or negative count drops nothing. */
  function Skip<T>(s: seq<T>, n: int): (r: seq<T>)
    ensures |r| == |s| - Clamp(n, |s|)
    ensures r == s[|s| - |r|..]
  {
    if n <= 0 then s else if n >= |s| then [] else s[n..]
  }

  /** Taking `count` rows and then skipping at least `count` of them leaves
      nothing: the reason every later page of the paging helper is empty. */
  lemma SkipPastTake<T>(s: seq<T>, count: int, skip: int)
    requires skip >= count
    ensures Skip(Take(s, count), skip) == []
  {
  }

  /** Materialisation (ToListAsync): the rows as a list, unchanged. */
  function ToList<T>(s: seq<T>): seq<T>
  {
    s
  }

  function First<T>(s: seq<T>): Result<T>
  {
    if |s| == 0 then Failure(NoElements) else Success(s[0])
  }

  function FirstOrDefault<T>(s: seq<T>): Option<T>
  {
    if |s| == 0 then None else Some(s[0])
  }

  function Single<T>(s: seq<T>): Result<T>
  {
    if |s| == 0 then Failure(NoElements)
    else if |s| > 1 then Failure(MoreThanOneElement)
    else Success(s[0])
  }

  function SingleOrDefault<T>(s: seq<T>): Result<Option<T>>
  {
    if |s| == 0 then Success(None)
    else if |s| > 1 then Failure(MoreThanOneElement)
    else Success(Some(s[0]))
  }

  function Any<T>(s: seq<T>): bool
  {
    |s| > 0
  }

  function Count<T>(s: seq<T>): nat
  {
    |s|
  }

  /** No two rows share a key. */
  ghost predicate DistinctKeys<E, K>(s: seq<E>, key: E -> K)
  {
    forall i, j :: 0 <= i < j < |s| ==> key(s[i]) != key(s[j])
  }

  /** The keys of the rows. */
  ghost function KeySet<E, K>(s: seq<E>, key: E -> K): set<K>
  {
    set i | 0 <= i < |s| :: key(s[i])
  }

  /** Appending a row adds its key to the key set. */
  lemma KeySetSnoc<E, K>(s: seq<E>, key: E -> K)
    requires |s| > 0
    ensures KeySet(s, key) == KeySet(s[..|s| - 1], key) + {key(s[|s| - 1])}
  {
    var init := s[..|s| - 1];
    forall k | k in KeySet(s, key)
      ensures k in KeySet(init, key) + {key(s[|s| - 1])}
    {
      var i :| 0 <= i < |s| && key(s[i]) == k;
      if i < |init| {
        assert init[i] == s[i];
      }
    }
    forall k | k in KeySet(init, key)
      ensures k in KeySet(s, key)
    {
      var i :| 0 <= i < |init| && key(init[i]) == k;
      assert s[i] == init[i];
    }
  }

  /** The rows keep distinct keys after appending one exactly when the
      earlier rows did and the new key is not among theirs. */
  lemma DistinctKeysSnoc<E, K>(s: seq<E>, key: E -> K)
    requires |s| > 0
    ensures DistinctKeys(s, key) <==>
      DistinctKeys(s[..|s| - 1], key) && key(s[|s| - 1]) !in KeySet(s[..|s| - 1], key)
  {
    var init := s[..|s| - 1];
    if key(s[|s| - 1]) in KeySet(init, key) {
      var i :| 0 <= i < |init| && key(init[i]) == key(s[|s| - 1]);
      assert s[i] == init[i];
    }
    if DistinctKeys(init, key) && key(s[|s| - 1]) !in KeySet(init, key) {
      forall i, j | 0 <= i < j < |s|
        ensures key(s[i]) != key(s[j])
      {
        assert s[i] == init[i];
        if j < |init| {
          assert s[j] == init[j];
        } else {
          assert key(init[i]) in KeySet(init, key);
        }
      }
    }
  }

  /** `d` maps the key of every row to its value and holds nothing else. */
  ghost predicate DictionaryOfRows<E, K, V>(d: map<K, V>, s: seq<E>, key: E -> K, value: E -> V)
  {
    && d.Keys == KeySet(s, key)
    && (forall i :: 0 <= i < |s| ==> key(s[i]) in d && d[key(s[i])] == value(s[i]))
    && |d| == |s|
  }

  /** Adding the last row's entry under a fresh key extends the dictionary of
      the earlier rows to the dictionary of all of them. */
  lemma ExtendDictionary<E, K, V>(s: seq<E>, key: E -> K, value: E -> V, m: map<K, V>)
    requires |s| > 0
    requires DictionaryOfRows(m, s[..|s| - 1], key, value)
    requires key(s[|s| - 1]) !in m
    ensures DictionaryOfRows(m[key(s[|s| - 1]) := value(s[|s| - 1])], s, key, value)
  {
    var init := s[..|s| - 1];
    var d := m[key(s[|s| - 1]) := value(s[|s| - 1])];
    KeySetSnoc(s, key);
    forall i | 0 <= i < |s|
      ensures key(s[i]) in d && d[key(s[i])] == value(s[i])
    {
      if i < |init| {
        assert init[i] == s[i];
      }
    }
  }

  /** Enumerable.ToDictionary: adds the rows one by one and fails on the
      first key that is already present. */
  function ToDictionary<E, K, V>(s: seq<E>, key: E -> K, value: E -> V): (r: Result<map<K, V>>)
    ensures r.Success? <==> DistinctKeys(s, key)
    ensures r.Failure? ==> r.error == DuplicateKey
    ensures r.Success? ==> DictionaryOfRows(r.value, s, key, value)
    decreases |s|
  {
    if |s| == 0 then Success(map[])
    else
      var init := s[..|s| - 1];
      var last := s[|s| - 1];
      DistinctKeysSnoc(s, key);
      match ToDictionary(init, key, value)
      case Failure(e) => Failure(e)
      case Success(m) =>
        if key(last) in m then
          Failure(DuplicateKey)
        else
          ExtendDictionary(s, key, value, m);
          Success(m[key(last) := value(last)])
  }

  /** The conjunction of two row predicates. */
  function Both<T>(a: T -> bool, b: T -> bool): T -> bool
  {
    x => a(x) && b(x)
  }

  /** Filtering a concatenation filters each part. */
  lemma {:induction false} WhereAppend<T>(u: seq<T>, v: seq<T>, p: T -> bool)
    ensures Where(u + v, p) == Where(u, p) + Where(v, p)
    decreases |v|
  {
    if |v| == 0 {
      assert u + v == u;
    } else {
      var v' := v[..|v| - 1];
      assert (u + v)[..|u + v| - 1] == u + v';
      assert (u + v)[|u + v| - 1] == v[|v| - 1];
      WhereAppend(u, v', p);
    }
  }

  /** A filter that every row passes keeps everything. */
  lemma {:induction false} WhereAll<T>(s: seq<T>, p: T -> bool)
    requires forall i :: 0 <= i < |s| ==> p(s[i])
    ensures Where(s, p) == s
    decreases |s|
  {
    if |s| > 0 {
      WhereAll(s[..|s| - 1], p);
      assert s[..|s| - 1] + [s[|s| - 1]] == s;
    }
  }

  /** Two filters that agree on every row keep the same rows. */
  lemma {:induction false} WhereAgree<T>(s: seq<T>, p: T -> bool, p': T -> bool)
    requires forall i :: 0 <= i < |s| ==> p(s[i]) == p'(s[i])
    ensures Where(s, p) == Where(s, p')
    decreases |s|
  {
    if |s| > 0 {
      WhereAgree(s[..|s| - 1], p, p');
    }
  }

  /** Filtering twice is filtering once by the conjunction. */
  lemma {:induction false} WhereWhere<T>(s: seq<T>, a: T -> bool, b: T -> bool)
    ensures Where(Where(s, a), b) == Where(s, Both(a, b))
    decreases |s|
  {
    if |s| > 0 {
      var s' := s[..|s| - 1];
      var x := s[|s| - 1];
      var t := if a(x) then [x] else [];
      WhereWhere(s', a, b);
      WhereAppend(Where(s', a), t, b);
      if a(x) {
        assert t[..0] == [];
      }
    }
  }
}
