/** Python dictionaries keyed by strings, as association lists in insertion
    order. Assigning to a key that is already present keeps its position, as
    a Python dict does; a new key goes at the end. */
module ODict {
  import opened Wrappers

  type Dict<V> = seq<(string, V)>

  predicate HasKey<V>(d: Dict<V>, k: string)
  {
    exists i :: 0 <= i < |d| && d[i].0 == k
  }

  predicate UniqueKeys<V>(d: Dict<V>)
  {
    forall i, j :: 0 <= i < j < |d| ==> d[i].0 != d[j].0
  }

  /** `d.get(k)` */
  function Get<V>(d: Dict<V>, k: string): (r: Option<V>)
    ensures r.None? <==> !HasKey(d, k)
    ensures r.Some? ==> exists i :: 0 <= i < |d| && d[i] == (k, r.value)
    ensures r.Some? && UniqueKeys(d) ==> forall i :: 0 <= i < |d| && d[i].0 == k ==> d[i].1 == r.value
  {
    if d == [] then None
    else if d[0].0 == k then Some(d[0].1)
    else
      var r := Get(d[1..], k);
      assert HasKey(d, k) ==> HasKey(d[1..], k) by {
        if HasKey(d, k) {
          var i :| 0 <= i < |d| && d[i].0 == k;
          assert d[1..][i - 1].0 == k;
        }
      }
      assert r.Some? ==> exists i :: 0 <= i < |d| && d[i] == (k, r.value) by {
        if r.Some? {
          var i :| 0 <= i < |d[1..]| && d[1..][i] == (k, r.value);
          assert d[i + 1] == (k, r.value);
        }
      }
      r
  }

  /** `d.get(k, default)` */
  function GetOr<V>(d: Dict<V>, k: string, default: V): (r: V)
    ensures HasKey(d, k) ==> Some(r) == Get(d, k)
    ensures !HasKey(d, k) ==> r == default
  {
    match Get(d, k)
    case Some(v) => v
    case None => default
  }

  /** `d[k] = v` */
  function Put<V>(d: Dict<V>, k: string, v: V): (r: Dict<V>)
    ensures Get(r, k) == Some(v)
    ensures forall k' :: k' != k ==> Get(r, k') == Get(d, k')
    ensures HasKey(d, k) ==> |r| == |d| && forall i :: 0 <= i < |d| ==> r[i].0 == d[i].0
    ensures !HasKey(d, k) ==> r == d + [(k, v)]
  {
    if d == [] then [(k, v)]
    else if d[0].0 == k then [(k, v)] + d[1..]
    else
      assert HasKey(d[1..], k) <==> HasKey(d, k) by {
        if HasKey(d, k) {
          var i :| 0 <= i < |d| && d[i].0 == k;
          assert d[1..][i - 1].0 == k;
        }
      }
      [d[0]] + Put(d[1..], k, v)
  }

  /** Every entry after `d[k] = v` is an old entry or the new one. */
  lemma {:induction false} PutEntries<V>(d: Dict<V>, k: string, v: V)
    ensures forall i :: 0 <= i < |Put(d, k, v)| ==> (i < |d| && Put(d, k, v)[i] == d[i]) || Put(d, k, v)[i] == (k, v)
  {
    if d != [] && d[0].0 != k {
      PutEntries(d[1..], k, v);
    }
  }

  lemma PutKeepsKeysUnique<V>(d: Dict<V>, k: string, v: V)
    requires UniqueKeys(d)
    ensures UniqueKeys(Put(d, k, v))
  {
    var r := Put(d, k, v);
    if !HasKey(d, k) {
      forall i | 0 <= i < |d| ensures d[i].0 != k { }
    }
  }

  /** `ps[i]` is the last pair with key `k`. */
  predicate IsLastWith<V>(ps: seq<(string, V)>, k: string, i: int)
  {
    0 <= i < |ps| && ps[i].0 == k && forall j :: i < j < |ps| ==> ps[j].0 != k
  }

  /** The value the last pair with key `k` carries, if any. */
  function LastValue<V>(ps: seq<(string, V)>, k: string): (r: Option<V>)
    ensures r.None? <==> forall i :: 0 <= i < |ps| ==> ps[i].0 != k
    ensures r.Some? ==> exists i :: IsLastWith(ps, k, i) && ps[i].1 == r.value
  {
    if ps == [] then None
    else if ps[|ps| - 1].0 == k then Some(ps[|ps| - 1].1)
    else
      var r := LastValue(ps[..|ps| - 1], k);
      assert r.Some? ==> exists i :: IsLastWith(ps, k, i) && ps[i].1 == r.value by {
        if r.Some? {
          var i :| IsLastWith(ps[..|ps| - 1], k, i) && ps[..|ps| - 1][i].1 == r.value;
          assert IsLastWith(ps, k, i);
        }
      }
      r
  }

  /** Assign every pair of `ps` in order, as a `for` loop of `d[k] = v` does:
      the last assignment to a key decides its value. */
  function PutAll<V>(d: Dict<V>, ps: seq<(string, V)>): (r: Dict<V>)
    ensures forall k :: Get(r, k) == if LastValue(ps, k).Some? then LastValue(ps, k) else Get(d, k)
  {
    if ps == [] then d
    else
      var last := ps[|ps| - 1];
      Put(PutAll(d, ps[..|ps| - 1]), last.0, last.1)
  }

  /** Assigning pairs into a dictionary with distinct keys keeps them distinct. */
  lemma {:induction false} PutAllKeepsKeysUnique<V>(d: Dict<V>, ps: seq<(string, V)>)
    requires UniqueKeys(d)
    ensures UniqueKeys(PutAll(d, ps))
  {
    if ps != [] {
      var init := ps[..|ps| - 1];
      PutAllKeepsKeysUnique(d, init);
      PutKeepsKeysUnique(PutAll(d, init), ps[|ps| - 1].0, ps[|ps| - 1].1);
    }
  }

  /** One more assignment after the others. */
  lemma PutAllSnoc<V>(d: Dict<V>, ps: seq<(string, V)>, k: string, v: V)
    ensures PutAll(d, ps + [(k, v)]) == Put(PutAll(d, ps), k, v)
  {
    assert (ps + [(k, v)])[..|ps|] == ps;
  }
}
