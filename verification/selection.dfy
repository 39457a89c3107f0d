/** "Sort the filtered copy by distance, then take a prefix" (BackgroundParticles.tsx
    lines 267-273 and 302-309).  Array.prototype.sort is stable (ECMA-262, section
    23.1.3.30, since the 2019 edition), and the filtered copy lists particles in pool
    order, so sorting it by key is the same as sorting pool indices by (key, index). */
module Selection {

  /** Every index of `s` names an entry of `key`. */
  predicate IndicesIn(s: seq<nat>, n: nat) {
    forall i :: 0 <= i < |s| ==> s[i] < n
  }

  /** No index occurs twice. */
  predicate Distinct(s: seq<nat>) {
    forall i, j :: 0 <= i < j < |s| ==> s[i] != s[j]
  }

  /** Pool order: strictly increasing indices. */
  predicate Increasing(s: seq<nat>) {
    forall i, j :: 0 <= i < j < |s| ==> s[i] < s[j]
  }

  /** `a` is placed before `b`: a smaller key, or an equal key and an earlier pool index. */
  predicate Precedes(key: seq<real>, a: nat, b: nat)
    requires a < |key| && b < |key|
  {
    key[a] < key[b] || (key[a] == key[b] && a < b)
  }

  /** Ordered by key, ties in pool order. */
  predicate SortedBy(key: seq<real>, s: seq<nat>)
    requires IndicesIn(s, |key|)
  {
    forall i, j :: 0 <= i < j < |s| ==> Precedes(key, s[i], s[j])
  }

  function Insert(key: seq<real>, x: nat, s: seq<nat>): (r: seq<nat>)
    requires x < |key| && IndicesIn(s, |key|)
    ensures multiset(r) == multiset(s) + multiset{x}
    ensures |r| == |s| + 1 && IndicesIn(r, |key|)
  {
    if s == [] then [x]
    else if Precedes(key, x, s[0]) then [x] + s
    else
      var t := Insert(key, x, s[1..]);
      assert s == [s[0]] + s[1..];
      [s[0]] + t
  }

  /** Stable insertion sort of `s` by `key`. */
  function SortByKey(key: seq<real>, s: seq<nat>): (r: seq<nat>)
    requires IndicesIn(s, |key|)
    ensures multiset(r) == multiset(s)
    ensures |r| == |s| && IndicesIn(r, |key|)
  {
    if s == [] then []
    else
      assert s == [s[0]] + s[1..];
      Insert(key, s[0], SortByKey(key, s[1..]))
  }

  /** Placement order is transitive. */
  lemma PrecedesTransitive(key: seq<real>, a: nat, b: nat, c: nat)
    requires a < |key| && b < |key| && c < |key|
    requires Precedes(key, a, b) && Precedes(key, b, c)
    ensures Precedes(key, a, c)
  {
  }

  /** The inserted list holds x and the entries of s, and nothing else. */
  lemma InsertMembers(key: seq<real>, x: nat, s: seq<nat>, v: nat)
    requires x < |key| && IndicesIn(s, |key|)
    requires v in Insert(key, x, s)
    ensures v == x || v in s
  {
    assert v in multiset(Insert(key, x, s));
    assert v in multiset(s) + multiset{x};
  }

  /** A sorted list stays sorted behind a new head that precedes its first entry. */
  lemma ConsSorted(key: seq<real>, x: nat, s: seq<nat>)
    requires x < |key| && IndicesIn(s, |key|) && SortedBy(key, s)
    requires forall j :: 0 <= j < |s| ==> Precedes(key, x, s[j])
    ensures SortedBy(key, [x] + s)
  {
    var r := [x] + s;
    forall i, j | 0 <= i < j < |r| ensures Precedes(key, r[i], r[j]) {
      if i == 0 {
        assert r[j] == s[j - 1];
      } else {
        assert r[i] == s[i - 1] && r[j] == s[j - 1];
      }
    }
  }

  lemma {:induction false} InsertSorted(key: seq<real>, x: nat, s: seq<nat>)
    requires x < |key| && IndicesIn(s, |key|)
    requires SortedBy(key, s) && x !in s
    ensures SortedBy(key, Insert(key, x, s))
  {
    if s == [] {
      assert Insert(key, x, s) == [x];
    } else if Precedes(key, x, s[0]) {
      assert Insert(key, x, s) == [x] + s;
      forall j | 0 <= j < |s| ensures Precedes(key, x, s[j]) {
        if j > 0 {
          PrecedesTransitive(key, x, s[0], s[j]);
        }
      }
      ConsSorted(key, x, s);
    } else {
      var tail := s[1..];
      assert SortedBy(key, tail) by {
        forall i, j | 0 <= i < j < |tail| ensures Precedes(key, tail[i], tail[j]) {
          assert tail[i] == s[i + 1] && tail[j] == s[j + 1];
        }
      }
      assert x !in tail by {
        forall j | 0 <= j < |tail| ensures tail[j] != x { assert tail[j] == s[j + 1]; }
      }
      InsertSorted(key, x, tail);
      var t := Insert(key, x, tail);
      assert Insert(key, x, s) == [s[0]] + t;
      forall j | 0 <= j < |t| ensures Precedes(key, s[0], t[j]) {
        assert t[j] in t;
        InsertMembers(key, x, tail, t[j]);
        if t[j] != x {
          var k :| 0 <= k < |tail| && tail[k] == t[j];
          assert tail[k] == s[k + 1];
        }
      }
      ConsSorted(key, s[0], t);
    }
  }

  /** The sort puts the indices of `s` in (key, index) order. */
  lemma {:induction false} SortByKeySorted(key: seq<real>, s: seq<nat>)
    requires IndicesIn(s, |key|) && Distinct(s)
    ensures SortedBy(key, SortByKey(key, s))
  {
    if s != [] {
      assert s == [s[0]] + s[1..];
      SortByKeySorted(key, s[1..]);
      var t := SortByKey(key, s[1..]);
      assert s[0] !in t by {
        assert forall j :: 0 <= j < |s[1..]| ==> s[1..][j] == s[j + 1] != s[0];
        assert s[0] !in multiset(s[1..]);
        assert s[0] !in multiset(t);
      }
      InsertSorted(key, s[0], t);
    }
  }

  /** A sorted permutation of distinct indices is itself distinct. */
  lemma SortedIsDistinct(key: seq<real>, s: seq<nat>)
    requires IndicesIn(s, |key|) && SortedBy(key, s)
    ensures Distinct(s)
  {
  }

  /** Every prefix of the sorted order is made of the closest entries: nothing in the
      prefix has a larger key than anything after it. */
  lemma {:induction false} PrefixIsClosest(key: seq<real>, s: seq<nat>, m: nat)
    requires IndicesIn(s, |key|) && Distinct(s) && m <= |s|
    ensures forall i, j :: 0 <= i < m <= j < |s| ==>
      key[SortByKey(key, s)[i]] <= key[SortByKey(key, s)[j]]
  {
    SortByKeySorted(key, s);
  }

  /** Among entries with equal keys, the sort keeps the order they had in `s`
      (the stability Array.prototype.sort guarantees). */
  lemma {:induction false} SortIsStable(key: seq<real>, s: seq<nat>, a: nat, b: nat)
    requires IndicesIn(s, |key|) && Increasing(s)
    requires a < b < |s| && key[s[a]] == key[s[b]]
    ensures exists i, j :: 0 <= i < j < |s| && SortByKey(key, s)[i] == s[a] && SortByKey(key, s)[j] == s[b]
  {
    var r := SortByKey(key, s);
    SortByKeySorted(key, s);
    assert s[a] in multiset(r) && s[b] in multiset(r);
    var i :| 0 <= i < |r| && r[i] == s[a];
    var j :| 0 <= j < |r| && r[j] == s[b];
    assert i != j;
  }
}
