/** Python's `sorted` / `list.sort` with a key: a stable sort. It is written
    here as an insertion sort; the lemmas show that it yields a sorted
    permutation that keeps equivalent elements in their original order,
    which is exactly what a stable sort produces. */
module Sorting {
  import opened Wrappers

  /** `le(a, b)` compares the sort keys of `a` and `b`; it is a total preorder. */
  ghost predicate TotalPreorder<T(!new)>(le: (T, T) -> bool)
  {
    (forall a, b :: le(a, b) || le(b, a))
    && (forall a, b, c :: le(a, b) && le(b, c) ==> le(a, c))
  }

  ghost predicate SortedBy<T>(s: seq<T>, le: (T, T) -> bool)
  {
    forall i, j :: 0 <= i < j < |s| ==> le(s[i], s[j])
  }

  /** Place `x` after every element of the sorted `s` whose key is not
      greater than its own. */
  function Insert<T>(x: T, s: seq<T>, le: (T, T) -> bool): (r: seq<T>)
    ensures multiset(r) == multiset(s) + multiset{x}
    ensures |r| == |s| + 1
  {
    if s == [] || le(s[|s| - 1], x) then s + [x]
    else
      var r := Insert(x, s[..|s| - 1], le) + [s[|s| - 1]];
      assert s == s[..|s| - 1] + [s[|s| - 1]];
      r
  }

  /** `sorted(s, key=...)` */
  function Sort<T>(s: seq<T>, le: (T, T) -> bool): (r: seq<T>)
    ensures multiset(r) == multiset(s)
    ensures |r| == |s|
  {
    if s == [] then []
    else
      assert s == s[..|s| - 1] + [s[|s| - 1]];
      Insert(s[|s| - 1], Sort(s[..|s| - 1], le), le)
  }

  lemma {:induction false} InsertSorted<T(!new)>(x: T, s: seq<T>, le: (T, T) -> bool)
    requires TotalPreorder(le)
    requires SortedBy(s, le)
    ensures SortedBy(Insert(x, s, le), le)
  {
    if s == [] || le(s[|s| - 1], x) {
      var r := s + [x];
      forall i, j | 0 <= i < j < |r| ensures le(r[i], r[j]) {
        if j == |s| && i < |s| - 1 {
          assert le(s[i], s[|s| - 1]);
        }
      }
    } else {
      var s' := s[..|s| - 1];
      var last := s[|s| - 1];
      InsertSorted(x, s', le);
      var ins := Insert(x, s', le);
      var r := ins + [last];
      assert le(x, last);
      forall i, j | 0 <= i < j < |r| ensures le(r[i], r[j]) {
        if j == |ins| {
          assert r[i] in multiset(ins);
          assert r[i] == x || r[i] in multiset(s');
          if r[i] != x {
            var k :| 0 <= k < |s'| && s'[k] == r[i];
            assert le(s[k], s[|s| - 1]);
          }
        }
      }
    }
  }

  /** The result of `Sort` is ordered by the key. */
  lemma {:induction false} SortSorted<T(!new)>(s: seq<T>, le: (T, T) -> bool)
    requires TotalPreorder(le)
    ensures SortedBy(Sort(s, le), le)
  {
    if s != [] {
      SortSorted(s[..|s| - 1], le);
      InsertSorted(s[|s| - 1], Sort(s[..|s| - 1], le), le);
    }
  }

  /** The elements of `s` whose key equals the key of `e`, in order. */
  function Equivs<T>(s: seq<T>, e: T, le: (T, T) -> bool): (r: seq<T>)
    ensures |r| <= |s|
  {
    if s == [] then []
    else Equivs(s[..|s| - 1], e, le) + (if le(s[|s| - 1], e) && le(e, s[|s| - 1]) then [s[|s| - 1]] else [])
  }

  lemma {:induction false} EquivsAppend<T>(a: seq<T>, b: seq<T>, e: T, le: (T, T) -> bool)
    ensures Equivs(a + b, e, le) == Equivs(a, e, le) + Equivs(b, e, le)
    decreases |b|
  {
    if b == [] {
      assert a + b == a;
    } else {
      assert (a + b)[..|a + b| - 1] == a + b[..|b| - 1];
      EquivsAppend(a, b[..|b| - 1], e, le);
    }
  }

  lemma {:induction false} InsertStable<T(!new)>(x: T, s: seq<T>, e: T, le: (T, T) -> bool)
    requires TotalPreorder(le)
    requires SortedBy(s, le)
    ensures Equivs(Insert(x, s, le), e, le) == Equivs(s, e, le) + Equivs([x], e, le)
  {
    if s == [] || le(s[|s| - 1], x) {
      EquivsAppend(s, [x], e, le);
    } else {
      var s' := s[..|s| - 1];
      var last := s[|s| - 1];
      assert SortedBy(s', le);
      InsertStable(x, s', e, le);
      assert Insert(x, s, le) == Insert(x, s', le) + [last];
      EquivsAppend(Insert(x, s', le), [last], e, le);
      assert s' + [last] == s;
      EquivsAppend(s', [last], e, le);
      NotBothEquiv(x, last, e, le);
      SwapEmpty(Equivs(s', e, le), Equivs([x], e, le), Equivs([last], e, le));
    }
  }

  /** An element strictly above `x` is not equivalent to an element `x` is
      equivalent to. */
  lemma NotBothEquiv<T(!new)>(x: T, y: T, e: T, le: (T, T) -> bool)
    requires TotalPreorder(le)
    requires !le(y, x)
    ensures Equivs([x], e, le) == [] || Equivs([y], e, le) == []
  {
    assert [x][..0] == [] && [y][..0] == [];
    assert le(y, e) && le(e, x) ==> le(y, x);
  }

  lemma SwapEmpty<T>(a: seq<T>, b: seq<T>, c: seq<T>)
    requires b == [] || c == []
    ensures a + b + c == a + c + b
  {
  }

  /** Stability: elements with equal keys keep their original relative order. */
  lemma {:induction false} SortStable<T(!new)>(s: seq<T>, e: T, le: (T, T) -> bool)
    requires TotalPreorder(le)
    ensures Equivs(Sort(s, le), e, le) == Equivs(s, e, le)
  {
    if s != [] {
      var s' := s[..|s| - 1];
      SortStable(s', e, le);
      SortSorted(s', le);
      InsertStable(s[|s| - 1], Sort(s', le), e, le);
      EquivsAppend(s', [s[|s| - 1]], e, le);
      assert s' + [s[|s| - 1]] == s;
      assert [s[|s| - 1]][..0] == [];
    }
  }

  /** A sequence already in key order is left as it is. */
  lemma {:induction false} SortOfSorted<T>(s: seq<T>, le: (T, T) -> bool)
    requires SortedBy(s, le)
    ensures Sort(s, le) == s
  {
    if s != [] {
      var s' := s[..|s| - 1];
      var x := s[|s| - 1];
      SortedInit(s, le);
      SortOfSorted(s', le);
      SortUnfold(s, le);
      assert |s'| == |s| - 1;
      InsertAtEnd(x, s', le);
      assert s' + [x] == s;
    }
  }

  /** The last element of a sorted sequence is not below the ones before it. */
  lemma SortedInit<T>(s: seq<T>, le: (T, T) -> bool)
    requires SortedBy(s, le) && s != []
    ensures SortedBy(s[..|s| - 1], le)
    ensures |s| == 1 || le(s[|s| - 2], s[|s| - 1])
  {
  }

  lemma InsertAtEnd<T>(x: T, s: seq<T>, le: (T, T) -> bool)
    requires s == [] || le(s[|s| - 1], x)
    ensures Insert(x, s, le) == s + [x]
  {
  }

  lemma SortUnfold<T>(s: seq<T>, le: (T, T) -> bool)
    requires s != []
    ensures Sort(s, le) == Insert(s[|s| - 1], Sort(s[..|s| - 1], le), le)
  {
  }

  /** The last element of `s` satisfying `p`. */
  function LastWhere<T>(s: seq<T>, p: T -> bool): (r: Option<T>)
    ensures r.None? <==> forall i :: 0 <= i < |s| ==> !p(s[i])
    ensures r.Some? ==> exists i :: 0 <= i < |s| && s[i] == r.value && p(r.value) && forall j :: i < j < |s| ==> !p(s[j])
  {
    if s == [] then None
    else if p(s[|s| - 1]) then Some(s[|s| - 1])
    else
      var s' := s[..|s| - 1];
      var r := LastWhere(s', p);
      assert r.Some? ==> exists i :: 0 <= i < |s| && s[i] == r.value && p(r.value) && forall j :: i < j < |s| ==> !p(s[j]) by {
        if r.Some? {
          var i :| 0 <= i < |s'| && s'[i] == r.value && p(r.value) && forall j :: i < j < |s'| ==> !p(s'[j]);
          assert s[i] == r.value;
        }
      }
      r
  }

  /** Among the elements satisfying `p`, one with the greatest key, and the
      last one in `s` among those with that key. */
  function Best<T>(s: seq<T>, p: T -> bool, le: (T, T) -> bool): (r: Option<T>)
  {
    if s == [] then None
    else
      var b := Best(s[..|s| - 1], p, le);
      var x := s[|s| - 1];
      if p(x) && (b.None? || le(b.value, x)) then Some(x) else b
  }

  /** `Best` picks a greatest element satisfying `p`, and no later element
      satisfying `p` has a key as great. */
  lemma {:induction false} BestIsGreatestLast<T(!new)>(s: seq<T>, p: T -> bool, le: (T, T) -> bool)
    requires TotalPreorder(le)
    ensures Best(s, p, le).None? <==> forall i :: 0 <= i < |s| ==> !p(s[i])
    ensures Best(s, p, le).Some? ==>
      exists i :: 0 <= i < |s| && s[i] == Best(s, p, le).value && p(s[i])
        && (forall j :: 0 <= j < |s| && p(s[j]) ==> le(s[j], s[i]))
        && (forall j :: i < j < |s| && p(s[j]) ==> !le(s[i], s[j]))
  {
    if s != [] {
      var s' := s[..|s| - 1];
      var x := s[|s| - 1];
      var b := Best(s', p, le);
      BestIsGreatestLast(s', p, le);
      if p(x) && (b.None? || le(b.value, x)) {
        var i := |s| - 1;
        forall j | 0 <= j < |s| && p(s[j]) ensures le(s[j], s[i]) {
          if j < |s| - 1 {
            assert p(s'[j]);
            var k :| 0 <= k < |s'| && s'[k] == b.value && p(s'[k]) && (forall j :: 0 <= j < |s'| && p(s'[j]) ==> le(s'[j], s'[k]))
              && (forall j :: k < j < |s'| && p(s'[j]) ==> !le(s'[k], s'[j]));
            assert le(s'[j], s'[k]);
          }
        }
      } else if b.Some? {
        var k :| 0 <= k < |s'| && s'[k] == b.value && p(s'[k]) && (forall j :: 0 <= j < |s'| && p(s'[j]) ==> le(s'[j], s'[k]))
          && (forall j :: k < j < |s'| && p(s'[j]) ==> !le(s'[k], s'[j]));
        assert s[k] == b.value;
        forall j | 0 <= j < |s| && p(s[j]) ensures le(s[j], s[k]) {
          if j < |s| - 1 { assert p(s'[j]); } else { assert !le(b.value, x); }
        }
        forall j | k < j < |s| && p(s[j]) ensures !le(s[k], s[j]) {
          if j < |s| - 1 { assert p(s'[j]); }
        }
      } else {
        forall i | 0 <= i < |s| ensures !p(s[i]) {
          if i < |s| - 1 { assert s[i] == s'[i]; }
        }
      }
    }
  }

  /** The position of `Best` in `s`, with the properties that make it best. */
  lemma BestAt<T(!new)>(s: seq<T>, p: T -> bool, le: (T, T) -> bool) returns (i: int)
    requires TotalPreorder(le)
    requires Best(s, p, le).Some?
    ensures 0 <= i < |s| && s[i] == Best(s, p, le).value && p(s[i])
    ensures forall j :: 0 <= j < |s| && p(s[j]) ==> le(s[j], s[i])
    ensures forall j :: i < j < |s| && p(s[j]) ==> !le(s[i], s[j])
  {
    BestIsGreatestLast(s, p, le);
    i :| 0 <= i < |s| && s[i] == Best(s, p, le).value && p(s[i])
      && (forall j :: 0 <= j < |s| && p(s[j]) ==> le(s[j], s[i]))
      && (forall j :: i < j < |s| && p(s[j]) ==> !le(s[i], s[j]));
  }

  lemma {:induction false} LastWhereInsert<T(!new)>(x: T, s: seq<T>, p: T -> bool, le: (T, T) -> bool)
    requires TotalPreorder(le)
    requires SortedBy(s, le)
    ensures LastWhere(Insert(x, s, le), p) ==
      if p(x) && (LastWhere(s, p).None? || le(LastWhere(s, p).value, x)) then Some(x) else LastWhere(s, p)
  {
    if s == [] || le(s[|s| - 1], x) {
      var r := s + [x];
      assert r[..|r| - 1] == s;
      if p(x) && LastWhere(s, p).Some? {
        var i :| 0 <= i < |s| && s[i] == LastWhere(s, p).value && p(s[i]) && forall j :: i < j < |s| ==> !p(s[j]);
        if i < |s| - 1 { assert le(s[i], s[|s| - 1]); }
      }
    } else {
      var s' := s[..|s| - 1];
      var last := s[|s| - 1];
      assert SortedBy(s', le);
      LastWhereInsert(x, s', p, le);
      var r := Insert(x, s', le) + [last];
      assert r[..|r| - 1] == Insert(x, s', le);
      if !p(last) {
        assert LastWhere(s, p) == LastWhere(s', p);
      }
    }
  }

  /** The last element satisfying `p` after a stable sort is the greatest such
      element, the latest among equals: the cascade's winning rule. */
  lemma {:induction false} LastWhereSortIsBest<T(!new)>(s: seq<T>, p: T -> bool, le: (T, T) -> bool)
    requires TotalPreorder(le)
    ensures LastWhere(Sort(s, le), p) == Best(s, p, le)
  {
    if s != [] {
      var s' := s[..|s| - 1];
      LastWhereSortIsBest(s', p, le);
      SortSorted(s', le);
      LastWhereInsert(s[|s| - 1], Sort(s', le), p, le);
    }
  }
}
