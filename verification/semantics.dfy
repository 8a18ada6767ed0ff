/** Reference meaning of the repository reads, stated over the raw collection.

    A read selects rows with a predicate `sel` (subtype test, caller filter,
    text match, or their conjunction) and may project them with `proj`.
    The predicates below say what the read must return in terms of the
    positions of the selected rows in the collection, without mentioning
    the operator chain that computes it. The lemmas connect the chains of
    module Linq to these definitions.
 */
module Semantics {
  import opened Wrappers
  import opened Linq

  /** The projection that leaves an entity unchanged. */
  function Id<T>(): T -> T
  {
    x => x
  }

  /** Positions of the selected rows. */
  ghost function Matches<T>(q: seq<T>, sel: T -> bool): set<int>
  {
    set i | 0 <= i < |q| && sel(q[i])
  }

  ghost predicate AnyMatch<T>(q: seq<T>, sel: T -> bool)
  {
    exists i :: 0 <= i < |q| && sel(q[i])
  }

  /** `i` is the position of the first selected row. */
  ghost predicate IsFirstMatch<T>(q: seq<T>, sel: T -> bool, i: int)
  {
    0 <= i < |q| && sel(q[i]) && forall j :: 0 <= j < i ==> !sel(q[j])
  }

  ghost predicate Increasing(idx: seq<int>)
  {
    forall k, l :: 0 <= k < l < |idx| ==> idx[k] < idx[l]
  }

  /** `r` is the projection of the rows at positions `idx`, and `idx` lists,
      in increasing order, exactly the positions of the selected rows. */
  ghost predicate Enumerates<T, P>(r: seq<P>, q: seq<T>, sel: T -> bool, proj: T -> P, idx: seq<int>)
  {
    && |idx| == |r|
    && Increasing(idx)
    && (forall k :: 0 <= k < |idx| ==> 0 <= idx[k] < |q| && r[k] == proj(q[idx[k]]))
    && (forall i :: 0 <= i < |q| ==> (sel(q[i]) <==> i in idx))
  }

  /** `r` holds the projections of the selected rows, in collection order. */
  ghost predicate ListsMatches<T, P>(r: seq<P>, q: seq<T>, sel: T -> bool, proj: T -> P)
  {
    exists idx :: Enumerates(r, q, sel, proj, idx)
  }

  /** First: the projection of the first selected row, or NoElements. */
  ghost predicate FirstResult<T, P>(r: Result<P>, q: seq<T>, sel: T -> bool, proj: T -> P)
  {
    && (r.Success? <==> AnyMatch(q, sel))
    && (r.Success? ==> exists i :: IsFirstMatch(q, sel, i) && r.value == proj(q[i]))
    && (r.Failure? ==> r.error == NoElements)
  }

  /** FirstOrDefault: the projection of the first selected row, or absent. */
  ghost predicate FirstOrDefaultResult<T, P>(r: Option<P>, q: seq<T>, sel: T -> bool, proj: T -> P)
  {
    && (r.Some? <==> AnyMatch(q, sel))
    && (r.Some? ==> exists i :: IsFirstMatch(q, sel, i) && r.value == proj(q[i]))
  }

  /** Single: the projection of the only selected row; NoElements when
      nothing is selected and MoreThanOneElement when several are. */
  ghost predicate SingleResult<T, P>(r: Result<P>, q: seq<T>, sel: T -> bool, proj: T -> P)
  {
    && (r.Success? <==> |Matches(q, sel)| == 1)
    && (r.Success? ==> exists i :: 0 <= i < |q| && sel(q[i]) && r.value == proj(q[i]))
    && (r.Failure? ==> r.error == if |Matches(q, sel)| == 0 then NoElements else MoreThanOneElement)
  }

  /** SingleOrDefault: absent when nothing is selected, the projection of the
      only selected row when there is one, MoreThanOneElement otherwise. */
  ghost predicate SingleOrDefaultResult<T, P>(r: Result<Option<P>>, q: seq<T>, sel: T -> bool, proj: T -> P)
  {
    && (r.Failure? <==> |Matches(q, sel)| >= 2)
    && (r.Failure? ==> r.error == MoreThanOneElement)
    && (r == Success(None) <==> |Matches(q, sel)| == 0)
    && (r.Success? && r.value.Some? ==>
          |Matches(q, sel)| == 1 && exists i :: 0 <= i < |q| && sel(q[i]) && r.value.value == proj(q[i]))
  }

  /** No two selected rows project to the same key. */
  ghost predicate DistinctSelectedKeys<T, P, K>(q: seq<T>, sel: T -> bool, proj: T -> P, key: P -> K)
  {
    forall i, j :: 0 <= i < j < |q| && sel(q[i]) && sel(q[j]) ==> key(proj(q[i])) != key(proj(q[j]))
  }

  /** ToDictionary over the projections of the selected rows: fails with
      DuplicateKey exactly when two selected rows share a key, and otherwise
      maps every selected row's key to its value, one entry per row. */
  ghost predicate DictionaryResult<T, P, K, V>(r: Result<map<K, V>>, q: seq<T>, sel: T -> bool,
                                              proj: T -> P, key: P -> K, value: P -> V)
  {
    && (r.Success? <==> DistinctSelectedKeys(q, sel, proj, key))
    && (r.Failure? ==> r.error == DuplicateKey)
    && (r.Success? ==> r.value.Keys == set i | 0 <= i < |q| && sel(q[i]) :: key(proj(q[i])))
    && (r.Success? ==> forall i :: 0 <= i < |q| && sel(q[i]) ==> r.value[key(proj(q[i]))] == value(proj(q[i])))
    && (r.Success? ==> |r.value| == |Matches(q, sel)|)
  }

  /** Some row is selected exactly when the set of selected positions is not empty. */
  lemma AnyMatchCount<T>(q: seq<T>, sel: T -> bool)
    ensures AnyMatch(q, sel) <==> |Matches(q, sel)| > 0
  {
    if |Matches(q, sel)| > 0 {
      var i :| i in Matches(q, sel);
      assert 0 <= i < |q| && sel(q[i]);
    }
    if AnyMatch(q, sel) {
      var i :| 0 <= i < |q| && sel(q[i]);
      assert i in Matches(q, sel);
    }
  }

  // ---------------------------------------------------------------------
  // From the operator chains to the reference meaning

  /** Where keeps the selected rows in order; the positions it keeps are the
      witness. */
  lemma {:induction false} WhereIndices<T>(q: seq<T>, sel: T -> bool) returns (idx: seq<int>)
    ensures Enumerates(Where(q, sel), q, sel, Id(), idx)
    decreases |q|
  {
    if |q| == 0 {
      idx := [];
    } else {
      var q' := q[..|q| - 1];
      var n := |q| - 1;
      var idx' := WhereIndices(q', sel);
      assert forall i :: 0 <= i < |q'| ==> q'[i] == q[i];
      var w' := Where(q', sel);
      if sel(q[n]) {
        idx := idx' + [n];
        assert Where(q, sel) == w' + [q[n]];
        forall i | 0 <= i < |q|
          ensures sel(q[i]) <==> i in idx
        {
          if i < n {
            assert sel(q'[i]) <==> i in idx';
          }
        }
      } else {
        idx := idx';
        assert Where(q, sel) == w';
        forall i | 0 <= i < |q|
          ensures sel(q[i]) <==> i in idx
        {
          if i < n {
            assert sel(q'[i]) <==> i in idx';
          } else {
            assert forall k :: 0 <= k < |idx'| ==> idx'[k] < n;
          }
        }
      }
    }
  }

  lemma WhereLists<T>(q: seq<T>, sel: T -> bool)
    ensures ListsMatches(Where(q, sel), q, sel, Id())
  {
    var idx := WhereIndices(q, sel);
  }

  /** Projecting an enumeration of the selected rows projects each of them. */
  lemma SelectLists<T, P>(l: seq<T>, q: seq<T>, sel: T -> bool, proj: T -> P)
    requires ListsMatches(l, q, sel, Id())
    ensures ListsMatches(Select(l, proj), q, sel, proj)
  {
    var idx :| Enumerates(l, q, sel, Id(), idx);
    assert Enumerates(Select(l, proj), q, sel, proj, idx);
  }

  /** The positions listed by a strictly increasing sequence are all distinct. */
  lemma {:induction false} IncreasingCard(idx: seq<int>)
    requires Increasing(idx)
    ensures |set i | i in idx| == |idx|
    decreases |idx|
  {
    if |idx| > 0 {
      var idx' := idx[..|idx| - 1];
      var x := idx[|idx| - 1];
      IncreasingCard(idx');
      assert (set i | i in idx) == (set i | i in idx') + {x};
      assert x !in (set i | i in idx');
    }
  }

  /** The selected positions are exactly the listed ones. */
  lemma EnumeratedPositions<T, P>(r: seq<P>, q: seq<T>, sel: T -> bool, proj: T -> P, idx: seq<int>)
    requires Enumerates(r, q, sel, proj, idx)
    ensures Matches(q, sel) == set i | i in idx
  {
    forall i | i in idx
      ensures i in Matches(q, sel)
    {
      var k :| 0 <= k < |idx| && idx[k] == i;
    }
  }

  /** An enumeration has one entry per selected row. */
  lemma EnumerationCount<T, P>(r: seq<P>, q: seq<T>, sel: T -> bool, proj: T -> P)
    requires ListsMatches(r, q, sel, proj)
    ensures |r| == |Matches(q, sel)|
    ensures |r| > 0 <==> AnyMatch(q, sel)
  {
    var idx :| Enumerates(r, q, sel, proj, idx);
    IncreasingCard(idx);
    EnumeratedPositions(r, q, sel, proj, idx);
    if AnyMatch(q, sel) {
      var i :| 0 <= i < |q| && sel(q[i]);
      assert i in Matches(q, sel);
    }
    if |r| > 0 {
      assert 0 <= idx[0] < |q|;
      assert idx[0] in Matches(q, sel);
    }
  }

  /** The head of an enumeration is the first selected row. */
  lemma EnumerationHead<T, P>(r: seq<P>, q: seq<T>, sel: T -> bool, proj: T -> P)
    requires ListsMatches(r, q, sel, proj)
    requires |r| > 0
    ensures exists i :: IsFirstMatch(q, sel, i) && r[0] == proj(q[i])
  {
    var idx :| Enumerates(r, q, sel, proj, idx);
    var i := idx[0];
    assert forall k :: 0 <= k < |idx| ==> i <= idx[k];
    forall j | 0 <= j < i
      ensures !sel(q[j])
    {
      assert j !in idx;
    }
    assert IsFirstMatch(q, sel, i);
  }

  /** Every entry of an enumeration is the projection of a selected row. */
  lemma EnumerationMember<T, P>(r: seq<P>, q: seq<T>, sel: T -> bool, proj: T -> P, k: int)
    requires ListsMatches(r, q, sel, proj)
    requires 0 <= k < |r|
    ensures exists i :: 0 <= i < |q| && sel(q[i]) && r[k] == proj(q[i])
  {
    var idx :| Enumerates(r, q, sel, proj, idx);
    assert idx[k] in idx;
  }

  lemma FirstOf<T, P>(r: seq<P>, q: seq<T>, sel: T -> bool, proj: T -> P)
    requires ListsMatches(r, q, sel, proj)
    ensures FirstResult(First(r), q, sel, proj)
  {
    EnumerationCount(r, q, sel, proj);
    if |r| > 0 {
      EnumerationHead(r, q, sel, proj);
    }
  }

  lemma FirstOrDefaultOf<T, P>(r: seq<P>, q: seq<T>, sel: T -> bool, proj: T -> P)
    requires ListsMatches(r, q, sel, proj)
    ensures FirstOrDefaultResult(FirstOrDefault(r), q, sel, proj)
  {
    EnumerationCount(r, q, sel, proj);
    if |r| > 0 {
      EnumerationHead(r, q, sel, proj);
    }
  }

  lemma SingleOf<T, P>(r: seq<P>, q: seq<T>, sel: T -> bool, proj: T -> P)
    requires ListsMatches(r, q, sel, proj)
    ensures SingleResult(Single(r), q, sel, proj)
  {
    EnumerationCount(r, q, sel, proj);
    if |r| == 1 {
      EnumerationMember(r, q, sel, proj, 0);
    }
  }

  lemma SingleOrDefaultOf<T, P>(r: seq<P>, q: seq<T>, sel: T -> bool, proj: T -> P)
    requires ListsMatches(r, q, sel, proj)
    ensures SingleOrDefaultResult(SingleOrDefault(r), q, sel, proj)
  {
    EnumerationCount(r, q, sel, proj);
    if |r| == 1 {
      EnumerationMember(r, q, sel, proj, 0);
    }
  }

  /** Where a selected position sits in an enumeration. */
  lemma PositionOf<T, P>(r: seq<P>, q: seq<T>, sel: T -> bool, proj: T -> P, idx: seq<int>, i: int) returns (k: int)
    requires Enumerates(r, q, sel, proj, idx)
    requires 0 <= i < |q| && sel(q[i])
    ensures 0 <= k < |r| && idx[k] == i && r[k] == proj(q[i])
  {
    assert i in idx;
    k :| 0 <= k < |idx| && idx[k] == i;
  }

  /** Distinct keys over the enumeration are distinct keys over the selected rows. */
  lemma DistinctKeysTransfer<T, P, K>(r: seq<P>, q: seq<T>, sel: T -> bool, proj: T -> P, key: P -> K, idx: seq<int>)
    requires Enumerates(r, q, sel, proj, idx)
    ensures DistinctKeys(r, key) <==> DistinctSelectedKeys(q, sel, proj, key)
  {
    if DistinctKeys(r, key) {
      forall i, j | 0 <= i < j < |q| && sel(q[i]) && sel(q[j])
        ensures key(proj(q[i])) != key(proj(q[j]))
      {
        var k := PositionOf(r, q, sel, proj, idx, i);
        var l := PositionOf(r, q, sel, proj, idx, j);
        assert !(l <= k) by {
          assert forall a, b :: 0 <= a <= b < |idx| ==> idx[a] <= idx[b];
        }
      }
    }
    if DistinctSelectedKeys(q, sel, proj, key) {
      forall k, l | 0 <= k < l < |r|
        ensures key(r[k]) != key(r[l])
      {
        assert idx[k] < idx[l];
        assert idx[k] in idx && idx[l] in idx;
      }
    }
  }

  /** The keys of an enumeration are the keys of the selected rows. */
  lemma KeysTransfer<T, P, K>(r: seq<P>, q: seq<T>, sel: T -> bool, proj: T -> P, key: P -> K, idx: seq<int>)
    requires Enumerates(r, q, sel, proj, idx)
    ensures (set k | 0 <= k < |r| :: key(r[k])) == (set i | 0 <= i < |q| && sel(q[i]) :: key(proj(q[i])))
  {
    var have := set k | 0 <= k < |r| :: key(r[k]);
    var want := set i | 0 <= i < |q| && sel(q[i]) :: key(proj(q[i]));
    forall x | x in have
      ensures x in want
    {
      var k :| 0 <= k < |r| && key(r[k]) == x;
      assert idx[k] in idx;
    }
    forall x | x in want
      ensures x in have
    {
      var i :| 0 <= i < |q| && sel(q[i]) && key(proj(q[i])) == x;
      var k := PositionOf(r, q, sel, proj, idx, i);
    }
  }

  /** A map agreeing with every entry of an enumeration agrees with every selected row. */
  lemma ValuesTransfer<T, P, K, V>(r: seq<P>, q: seq<T>, sel: T -> bool, proj: T -> P, key: P -> K, value: P -> V,
                                   idx: seq<int>, m: map<K, V>)
    requires Enumerates(r, q, sel, proj, idx)
    requires forall k :: 0 <= k < |r| ==> key(r[k]) in m && m[key(r[k])] == value(r[k])
    ensures forall i :: 0 <= i < |q| && sel(q[i]) ==> m[key(proj(q[i]))] == value(proj(q[i]))
  {
    forall i | 0 <= i < |q| && sel(q[i])
      ensures key(proj(q[i])) in m && m[key(proj(q[i]))] == value(proj(q[i]))
    {
      var k := PositionOf(r, q, sel, proj, idx, i);
    }
  }

  lemma DictionaryOf<T, P, K, V>(r: seq<P>, q: seq<T>, sel: T -> bool, proj: T -> P, key: P -> K, value: P -> V)
    requires ListsMatches(r, q, sel, proj)
    ensures DictionaryResult(ToDictionary(r, key, value), q, sel, proj, key, value)
  {
    var idx :| Enumerates(r, q, sel, proj, idx);
    EnumerationCount(r, q, sel, proj);
    DistinctKeysTransfer(r, q, sel, proj, key, idx);
    var d := ToDictionary(r, key, value);
    if d.Success? {
      KeysTransfer(r, q, sel, proj, key, idx);
      ValuesTransfer(r, q, sel, proj, key, value, idx, d.value);
    }
  }
}
