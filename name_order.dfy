/** The order in which an HDF5 group lists its members when it does not
    track creation order: ascending by name, compared character by
    character (a proper prefix comes first). */
module NameOrder {

  /** `a` sorts strictly before `b`. */
  predicate Below(a: string, b: string)
    decreases |a|
  {
    if a == [] then b != []
    else if b == [] then false
    else a[0] < b[0] || (a[0] == b[0] && Below(a[1..], b[1..]))
  }

  lemma {:induction false} BelowIrreflexive(a: string)
    ensures !Below(a, a)
    decreases |a|
  {
    if a != [] { BelowIrreflexive(a[1..]); }
  }

  lemma {:induction false} BelowTransitive(a: string, b: string, c: string)
    requires Below(a, b) && Below(b, c)
    ensures Below(a, c)
    decreases |a|
  {
    if a != [] && b != [] && c != [] && a[0] == b[0] == c[0] {
      BelowTransitive(a[1..], b[1..], c[1..]);
    }
  }

  /** Any two distinct names are ordered one way or the other. */
  lemma {:induction false} BelowTotal(a: string, b: string)
    requires a != b
    ensures Below(a, b) || Below(b, a)
    decreases |a|
  {
    if a != [] && b != [] && a[0] == b[0] {
      assert a == [a[0]] + a[1..] && b == [b[0]] + b[1..];
      BelowTotal(a[1..], b[1..]);
    }
  }

  lemma {:induction false} BelowAsymmetric(a: string, b: string)
    requires Below(a, b)
    ensures !Below(b, a)
  {
    if Below(b, a) {
      BelowTransitive(a, b, a);
      BelowIrreflexive(a);
    }
  }

  /** Each name listed at most once. */
  predicate Distinct(s: seq<string>) {
    forall i, j :: 0 <= i < j < |s| ==> s[i] != s[j]
  }

  /** Strictly ascending, hence free of duplicates. */
  predicate Sorted(s: seq<string>) {
    forall i, j :: 0 <= i < j < |s| ==> Below(s[i], s[j])
  }

  lemma SortedDistinct(s: seq<string>, i: int, j: int)
    requires Sorted(s) && 0 <= i < |s| && 0 <= j < |s| && i != j
    ensures s[i] != s[j]
  {
    if i < j { BelowIrreflexive(s[i]); } else { BelowIrreflexive(s[j]); }
  }

  /** `k` placed into a sorted list of names at its place in name order. */
  function InsertSorted(s: seq<string>, k: string): (r: seq<string>)
    requires Sorted(s)
    ensures Sorted(r)
    ensures forall x :: x in r <==> x in s || x == k
    ensures k !in s ==> |r| == |s| + 1
    ensures k in s ==> r == s
    decreases |s|
  {
    if s == [] then [k]
    else if Below(k, s[0]) then
      forall j | 0 < j < |s| ensures Below(k, s[j]) { BelowTransitive(k, s[0], s[j]); }
      forall j | 0 <= j < |s| ensures s[j] != k { BelowIrreflexive(k); }
      [k] + s
    else if k == s[0] then s
    else
      BelowTotal(k, s[0]);
      var tail := InsertSorted(s[1..], k);
      assert forall x :: x in s <==> x == s[0] || x in s[1..];
      forall j | 0 <= j < |tail| ensures Below(s[0], tail[j]) {
        if tail[j] != k {
          assert tail[j] in tail;
          var i :| 0 <= i < |s[1..]| && s[1..][i] == tail[j];
          assert s[i + 1] == tail[j];
        }
      }
      [s[0]] + tail
  }

  /** The list without `k`, order kept. */
  function RemoveName(s: seq<string>, k: string): (r: seq<string>)
    ensures forall x :: x in r <==> x in s && x != k
    ensures Sorted(s) ==> Sorted(r)
    ensures k !in s ==> r == s
    ensures Sorted(s) && k in s ==> |r| == |s| - 1
    decreases |s|
  {
    if s == [] then []
    else if s[0] == k then
      assert Sorted(s) ==> k !in s[1..] by {
        if Sorted(s) && k in s[1..] {
          var j :| 0 <= j < |s[1..]| && s[1..][j] == k;
          SortedDistinct(s, 0, j + 1);
        }
      }
      RemoveName(s[1..], k)
    else
      var tail := RemoveName(s[1..], k);
      assert forall x :: x in s <==> x == s[0] || x in s[1..];
      assert Sorted(s) ==> forall j :: 0 <= j < |tail| ==> Below(s[0], tail[j]) by {
        if Sorted(s) {
          forall j | 0 <= j < |tail| ensures Below(s[0], tail[j]) {
            assert tail[j] in tail;
            var i :| 0 <= i < |s[1..]| && s[1..][i] == tail[j];
            assert s[i + 1] == tail[j];
          }
        }
      }
      [s[0]] + tail
  }

  /** Name order is determined by the set of names alone: two sorted lists
      holding the same names are the same list. */
  lemma {:induction false} SortedUnique(s: seq<string>, t: seq<string>)
    requires Sorted(s) && Sorted(t)
    requires forall x :: x in s <==> x in t
    ensures s == t
    decreases |s|
  {
    SameNamesBothEmpty(s, t);
    if s != [] {
      if s[0] != t[0] {
        assert s[0] in t && t[0] in s;
        var i :| 0 <= i < |t| && t[i] == s[0];
        var j :| 0 <= j < |s| && s[j] == t[0];
        assert i > 0 && j > 0;
        BelowAsymmetric(t[0], t[i]);
      }
      forall x ensures x in s[1..] <==> x in t[1..] {
        if x in s[1..] {
          var i :| 0 <= i < |s[1..]| && s[1..][i] == x;
          SortedDistinct(s, 0, i + 1);
          assert x in t && x != t[0];
        }
        if x in t[1..] {
          var i :| 0 <= i < |t[1..]| && t[1..][i] == x;
          SortedDistinct(t, 0, i + 1);
          assert x in s && x != s[0];
        }
      }
      SortedUnique(s[1..], t[1..]);
      assert s == [s[0]] + s[1..] && t == [t[0]] + t[1..];
    }
  }

  lemma SameNamesBothEmpty(s: seq<string>, t: seq<string>)
    requires forall x :: x in s <==> x in t
    ensures s == [] <==> t == []
  {
    if s != [] { assert s[0] in t; }
    if t != [] { assert t[0] in s; }
  }

  /** A sorted list of the names of a map lists each of them once. */
  lemma {:induction false} SortedCount<V>(keys: seq<string>, data: map<string, V>)
    requires Sorted(keys) && (forall k :: k in keys <==> k in data)
    ensures |keys| == |data|
    decreases |keys|
  {
    if keys != [] {
      var k := keys[0];
      forall x ensures x in keys[1..] <==> x in data - {k} {
        if x in keys[1..] {
          var j :| 0 <= j < |keys[1..]| && keys[1..][j] == x;
          SortedDistinct(keys, 0, j + 1);
        }
        if x in data - {k} {
          assert x in keys;
          var j :| 0 <= j < |keys| && keys[j] == x;
          assert keys[1..][j - 1] == x;
        }
      }
      SortedCount(keys[1..], data - {k});
    } else {
      assert data.Keys == {};
    }
  }

  /** A list of the names of a map that lists each once has one entry per
      name. */
  lemma {:induction false} DistinctCount<V>(s: seq<string>, m: map<string, V>)
    requires Distinct(s) && (forall k :: k in s <==> k in m)
    ensures |s| == |m|
    decreases |s|
  {
    if s != [] {
      var k := s[|s| - 1];
      var init := s[..|s| - 1];
      var rest := m - {k};
      forall x ensures x in init <==> x in rest {
        if x in init {
          var j :| 0 <= j < |init| && init[j] == x;
          assert s[j] == x && j < |s| - 1;
        }
        if x in rest {
          assert x in s;
          var j :| 0 <= j < |s| && s[j] == x;
          assert init[j] == x;
        }
      }
      DistinctCount(init, rest);
      assert k in m;
      assert |rest| == |m| - 1;
    } else {
      assert m.Keys == {};
    }
  }
}
