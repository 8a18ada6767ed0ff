/** The `Order<T>` composer: an immutable, non-empty list of sort keys.

    `OrderBy`/`OrderByDescending` start an order with its primary key and
    `ThenBy`/`ThenByDescending` append tie-breaking keys, each returning a
    fresh order. `Apply` sorts a queryable by the keys lexicographically,
    with LINQ's stable ordering (rows that tie on every key keep their
    provider order). A key selector is a function to `int`: the key type is
    abstracted to its default comparer's total order.
 */
module Orders {
  import opened Wrappers
  import opened Linq

  datatype Direction = Ascending | Descending

  datatype SortKey<!T> = SortKey(selector: T -> int, direction: Direction)

  /** An order always has a primary key; the datatype has no empty value,
      which is what the private constructor of the class guarantees. */
  datatype Order<!T> = Order(primary: SortKey<T>, secondary: seq<SortKey<T>>)

  /** The keys in the order they are compared. */
  function Keys<T>(o: Order<T>): (ks: seq<SortKey<T>>)
    ensures |ks| >= 1 && ks[0] == o.primary
    ensures ks[1..] == o.secondary
  {
    [o.primary] + o.secondary
  }

  function OrderBy<T>(primary: T -> int): (o: Order<T>)
    ensures Keys(o) == [SortKey(primary, Ascending)]
  {
    Order(SortKey(primary, Ascending), [])
  }

  function OrderByDescending<T>(primary: T -> int): (o: Order<T>)
    ensures Keys(o) == [SortKey(primary, Descending)]
  {
    Order(SortKey(primary, Descending), [])
  }

  /** A new order whose keys are the receiver's followed by `secondary`. */
  function ThenBy<T>(o: Order<T>, secondary: T -> int): (r: Order<T>)
    ensures Keys(r) == Keys(o) + [SortKey(secondary, Ascending)]
  {
    Order(o.primary, o.secondary + [SortKey(secondary, Ascending)])
  }

  function ThenByDescending<T>(o: Order<T>, secondary: T -> int): (r: Order<T>)
    ensures Keys(r) == Keys(o) + [SortKey(secondary, Descending)]
  {
    Order(o.primary, o.secondary + [SortKey(secondary, Descending)])
  }

  /** -1, 0 or 1 as `a` sorts before, with or after `b` under one key. */
  function CompareKey<T>(k: SortKey<T>, a: T, b: T): int
  {
    var x := k.selector(a);
    var y := k.selector(b);
    if x == y then 0
    else if (x < y) == (k.direction == Ascending) then -1
    else 1
  }

  /** Lexicographic comparison: the first key that tells the rows apart decides. */
  function Compare<T>(ks: seq<SortKey<T>>, a: T, b: T): int
    decreases |ks|
  {
    if |ks| == 0 then 0
    else
      var c := CompareKey(ks[0], a, b);
      if c != 0 then c else Compare(ks[1..], a, b)
  }

  /** Every row sorts no later than the rows after it. */
  ghost predicate Sorted<T>(ks: seq<SortKey<T>>, s: seq<T>)
  {
    forall i, j :: 0 <= i < j < |s| ==> Compare(ks, s[i], s[j]) <= 0
  }

  /** The rows that tie with `x` on every key. */
  function TiedWith<T>(ks: seq<SortKey<T>>, x: T): T -> bool
  {
    y => Compare(ks, x, y) == 0
  }

  /** The comparison is a total preorder. */
  lemma {:induction false} CompareLaws<T>(ks: seq<SortKey<T>>, a: T, b: T, c: T)
    ensures Compare(ks, a, b) == -Compare(ks, b, a)
    ensures Compare(ks, a, a) == 0
    ensures -1 <= Compare(ks, a, b) <= 1
    ensures Compare(ks, a, b) <= 0 && Compare(ks, b, c) <= 0 ==> Compare(ks, a, c) <= 0
    ensures Compare(ks, a, b) < 0 && Compare(ks, b, c) <= 0 ==> Compare(ks, a, c) < 0
    ensures Compare(ks, a, b) <= 0 && Compare(ks, b, c) < 0 ==> Compare(ks, a, c) < 0
    ensures Compare(ks, a, b) == 0 && Compare(ks, b, c) == 0 ==> Compare(ks, a, c) == 0
    decreases |ks|
  {
    if |ks| > 0 {
      CompareLaws(ks[1..], a, b, c);
    }
  }

  /** Appending a key only breaks the ties the earlier keys leave. */
  lemma {:induction false} CompareAppend<T>(ks: seq<SortKey<T>>, k: SortKey<T>, a: T, b: T)
    ensures Compare(ks + [k], a, b) == if Compare(ks, a, b) != 0 then Compare(ks, a, b) else CompareKey(k, a, b)
    decreases |ks|
  {
    if |ks| == 0 {
      assert ks + [k] == [k];
      assert [k][1..] == [];
    } else {
      assert (ks + [k])[0] == ks[0];
      assert (ks + [k])[1..] == ks[1..] + [k];
      CompareAppend(ks[1..], k, a, b);
    }
  }

  /** Inserts `x` after every row that does not sort after it. */
  function Insert<T>(ks: seq<SortKey<T>>, x: T, t: seq<T>): seq<T>
    decreases |t|
  {
    if |t| == 0 then [x]
    else if Compare(ks, x, t[0]) < 0 then [x] + t
    else [t[0]] + Insert(ks, x, t[1..])
  }

  /** Stable insertion sort: each row is inserted after the earlier ones it ties with. */
  function Sort<T>(ks: seq<SortKey<T>>, s: seq<T>): seq<T>
    decreases |s|
  {
    if |s| == 0 then [] else Insert(ks, s[|s| - 1], Sort(ks, s[..|s| - 1]))
  }

  lemma {:induction false} InsertPermutes<T>(ks: seq<SortKey<T>>, x: T, t: seq<T>)
    ensures multiset(Insert(ks, x, t)) == multiset(t) + multiset{x}
    decreases |t|
  {
    if |t| > 0 && Compare(ks, x, t[0]) >= 0 {
      InsertPermutes(ks, x, t[1..]);
      assert t == [t[0]] + t[1..];
    }
  }

  lemma {:induction false} InsertSorted<T>(ks: seq<SortKey<T>>, x: T, t: seq<T>)
    requires Sorted(ks, t)
    ensures Sorted(ks, Insert(ks, x, t))
    decreases |t|
  {
    if |t| == 0 {
    } else if Compare(ks, x, t[0]) < 0 {
      var r := [x] + t;
      forall i, j | 0 <= i < j < |r|
        ensures Compare(ks, r[i], r[j]) <= 0
      {
        if i == 0 {
          CompareLaws(ks, x, t[0], t[j - 1]);
        }
      }
    } else {
      var rest := Insert(ks, x, t[1..]);
      InsertSorted(ks, x, t[1..]);
      InsertPermutes(ks, x, t[1..]);
      var r := [t[0]] + rest;
      forall j | 0 < j < |r|
        ensures Compare(ks, t[0], r[j]) <= 0
      {
        assert r[j] in multiset(rest);
        assert r[j] == x || r[j] in multiset(t[1..]);
        CompareLaws(ks, x, t[0], t[0]);
        if r[j] != x {
          var m :| 0 <= m < |t[1..]| && t[1..][m] == r[j];
          assert t[m + 1] == r[j];
        }
      }
    }
  }

  lemma {:induction false} SortPermutes<T>(ks: seq<SortKey<T>>, s: seq<T>)
    ensures multiset(Sort(ks, s)) == multiset(s)
    decreases |s|
  {
    if |s| > 0 {
      var init := s[..|s| - 1];
      SortPermutes(ks, init);
      InsertPermutes(ks, s[|s| - 1], Sort(ks, init));
      assert s == init + [s[|s| - 1]];
    }
  }

  lemma {:induction false} SortSorted<T>(ks: seq<SortKey<T>>, s: seq<T>)
    ensures Sorted(ks, Sort(ks, s))
    decreases |s|
  {
    if |s| > 0 {
      SortSorted(ks, s[..|s| - 1]);
      InsertSorted(ks, s[|s| - 1], Sort(ks, s[..|s| - 1]));
    }
  }

  /** Order.Apply: the rows sorted by the order's keys, nothing added or dropped. */
  function Apply<T>(o: Order<T>, s: seq<T>): (r: seq<T>)
    ensures Sorted(Keys(o), r)
    ensures multiset(r) == multiset(s)
  {
    SortSorted(Keys(o), s);
    SortPermutes(Keys(o), s);
    Sort(Keys(o), s)
  }

  /** The typed Apply<TOrderedQueryable>: the transform's result cast to the
      ordered queryable of provider `target`. The standard operators build
      the ordered queryable from the source's provider, so the cast succeeds
      exactly when the source queryable comes from `target`; otherwise it
      throws "Unable to cast transformation" and never returns null. */
  function ApplyAs<T>(o: Order<T>, s: seq<T>, source: Provider, target: Provider): (r: Result<seq<T>>)
    ensures r.Success? <==> source == target
    ensures r.Failure? ==> r.error == UnableToCastTransformation
    ensures r.Success? ==> Sorted(Keys(o), r.value) && multiset(r.value) == multiset(s)
  {
    if source == target then Success(Apply(o, s)) else Failure(UnableToCastTransformation)
  }

  /** OrderBy(k).Apply sorts by `k` ascending. */
  lemma OrderByAscending<T>(k: T -> int, s: seq<T>)
    ensures forall i, j :: 0 <= i < j < |Apply(OrderBy(k), s)| ==>
      k(Apply(OrderBy(k), s)[i]) <= k(Apply(OrderBy(k), s)[j])
  {
    var r := Apply(OrderBy(k), s);
    forall i, j | 0 <= i < j < |r|
      ensures k(r[i]) <= k(r[j])
    {
      assert Compare(Keys(OrderBy(k)), r[i], r[j]) <= 0;
    }
  }

  /** OrderByDescending(k).Apply sorts by `k` descending. */
  lemma OrderByDescendingSorts<T>(k: T -> int, s: seq<T>)
    ensures forall i, j :: 0 <= i < j < |Apply(OrderByDescending(k), s)| ==>
      k(Apply(OrderByDescending(k), s)[i]) >= k(Apply(OrderByDescending(k), s)[j])
  {
    var r := Apply(OrderByDescending(k), s);
    forall i, j | 0 <= i < j < |r|
      ensures k(r[i]) >= k(r[j])
    {
      assert Compare(Keys(OrderByDescending(k)), r[i], r[j]) <= 0;
    }
  }

  /** Sorted under more keys is sorted under the earlier ones, and rows the
      earlier keys tie on are ordered by the appended key. */
  lemma SortedAppend<T>(ks: seq<SortKey<T>>, k: SortKey<T>, r: seq<T>)
    requires Sorted(ks + [k], r)
    ensures Sorted(ks, r)
    ensures forall i, j :: 0 <= i < j < |r| && Compare(ks, r[i], r[j]) == 0 ==> CompareKey(k, r[i], r[j]) <= 0
  {
    forall i, j | 0 <= i < j < |r|
      ensures Compare(ks, r[i], r[j]) <= 0
      ensures Compare(ks, r[i], r[j]) == 0 ==> CompareKey(k, r[i], r[j]) <= 0
    {
      CompareAppend(ks, k, r[i], r[j]);
    }
  }

  /** ThenBy(o, k).Apply keeps o's order and sorts o's ties by `k` ascending. */
  lemma ThenByRefines<T>(o: Order<T>, k: T -> int, s: seq<T>)
    ensures var r := Apply(ThenBy(o, k), s);
      && Sorted(Keys(o), r)
      && forall i, j :: 0 <= i < j < |r| && Compare(Keys(o), r[i], r[j]) == 0 ==> k(r[i]) <= k(r[j])
  {
    SortedAppend(Keys(o), SortKey(k, Ascending), Apply(ThenBy(o, k), s));
  }

  /** ThenByDescending(o, k).Apply keeps o's order and sorts o's ties by `k` descending. */
  lemma ThenByDescendingRefines<T>(o: Order<T>, k: T -> int, s: seq<T>)
    ensures var r := Apply(ThenByDescending(o, k), s);
      && Sorted(Keys(o), r)
      && forall i, j :: 0 <= i < j < |r| && Compare(Keys(o), r[i], r[j]) == 0 ==> k(r[i]) >= k(r[j])
  {
    SortedAppend(Keys(o), SortKey(k, Descending), Apply(ThenByDescending(o, k), s));
  }

  /** Inserting into a sorted sequence puts `x` after every row it ties with. */
  lemma {:induction false} InsertStable<T>(ks: seq<SortKey<T>>, x: T, t: seq<T>, c: T)
    requires Sorted(ks, t)
    ensures Where(Insert(ks, x, t), TiedWith(ks, c)) ==
      Where(t, TiedWith(ks, c)) + (if TiedWith(ks, c)(x) then [x] else [])
    decreases |t|
  {
    var e := TiedWith(ks, c);
    if |t| == 0 {
      assert Insert(ks, x, t) == [x];
      assert [x][..0] == [];
    } else if Compare(ks, x, t[0]) < 0 {
      InsertFront(ks, x, t, c);
    } else {
      InsertStable(ks, x, t[1..], c);
      WhereAppend([t[0]], Insert(ks, x, t[1..]), e);
      WhereAppend([t[0]], t[1..], e);
      assert [t[0]] + t[1..] == t;
      assert [t[0]][..0] == [];
    }
  }

  /** When `x` sorts strictly before a sorted `t`, no row of `t` ties with it. */
  lemma InsertFront<T>(ks: seq<SortKey<T>>, x: T, t: seq<T>, c: T)
    requires Sorted(ks, t) && |t| > 0 && Compare(ks, x, t[0]) < 0
    ensures Where([x] + t, TiedWith(ks, c)) ==
      Where(t, TiedWith(ks, c)) + (if TiedWith(ks, c)(x) then [x] else [])
  {
    var e := TiedWith(ks, c);
    WhereAppend([x], t, e);
    assert [x][..0] == [];
    if e(x) {
      forall i | 0 <= i < |t|
        ensures !e(t[i])
      {
        BeforeSortedTail(ks, x, t, i, c);
      }
      WhereNone(t, e);
    }
  }

  lemma BeforeSortedTail<T>(ks: seq<SortKey<T>>, x: T, t: seq<T>, i: int, c: T)
    requires Sorted(ks, t) && 0 <= i < |t| && Compare(ks, x, t[0]) < 0
    requires Compare(ks, c, x) == 0
    ensures Compare(ks, c, t[i]) != 0
  {
    assert Compare(ks, t[0], t[i]) <= 0 by {
      if i > 0 {
        assert Compare(ks, t[0], t[i]) <= 0;
      } else {
        CompareLaws(ks, t[0], t[0], t[0]);
      }
    }
    CompareLaws(ks, x, t[0], t[i]);
    CompareLaws(ks, x, c, t[i]);
    CompareLaws(ks, c, x, t[i]);
  }

  /** A filter no row passes keeps nothing. */
  lemma {:induction false} WhereNone<T>(s: seq<T>, p: T -> bool)
    requires forall i :: 0 <= i < |s| ==> !p(s[i])
    ensures Where(s, p) == []
    decreases |s|
  {
    if |s| > 0 {
      WhereNone(s[..|s| - 1], p);
    }
  }

  /** Apply is stable: the rows that tie with `c` on every key come out in
      their provider order. */
  lemma {:induction false} ApplyIsStable<T>(o: Order<T>, s: seq<T>, c: T)
    ensures Where(Apply(o, s), TiedWith(Keys(o), c)) == Where(s, TiedWith(Keys(o), c))
  {
    SortStable(Keys(o), s, c);
  }

  lemma {:induction false} SortStable<T>(ks: seq<SortKey<T>>, s: seq<T>, c: T)
    ensures Where(Sort(ks, s), TiedWith(ks, c)) == Where(s, TiedWith(ks, c))
    decreases |s|
  {
    if |s| > 0 {
      var init := s[..|s| - 1];
      SortStable(ks, init, c);
      SortSorted(ks, init);
      InsertStable(ks, s[|s| - 1], Sort(ks, init), c);
    }
  }
}
