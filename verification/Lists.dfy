/** `Array.prototype.filter` and the facts about it that record keeping needs. */
module Lists {
  import opened Sorting

  function Map<T, U>(s: seq<T>, f: T -> U): (r: seq<U>)
    ensures |r| == |s| && forall i :: 0 <= i < |s| ==> r[i] == f(s[i])
  {
    if s == [] then [] else [f(s[0])] + Map(s[1..], f)
  }

  /** `[...new Set(s)]`: the first occurrence of every member. */
  function Dedup<T(==,!new)>(s: seq<T>): (r: seq<T>)
    ensures Distinct(r)
    ensures forall x :: x in r <==> x in s
  {
    if s == [] then []
    else
      var last := |s| - 1;
      var before := Dedup(s[..last]);
      assert s == s[..last] + [s[last]];
      if s[last] in before then before else before + [s[last]]
  }

  lemma {:induction false} DistinctFits<T>(s: seq<T>, universe: set<T>)
    requires Distinct(s) && forall x :: x in s ==> x in universe
    ensures |s| <= |universe|
  {
    if s != [] {
      assert s == [s[0]] + s[1..];
      DistinctFits(s[1..], universe - {s[0]});
    }
  }

  function Filter<T>(s: seq<T>, keep: T -> bool): seq<T> {
    if s == [] then []
    else if keep(s[0]) then [s[0]] + Filter(s[1..], keep)
    else Filter(s[1..], keep)
  }

  lemma {:induction false} InFilter<T(!new)>(s: seq<T>, keep: T -> bool)
    ensures forall x :: x in Filter(s, keep) <==> x in s && keep(x)
  {
    if s != [] {
      InFilter(s[1..], keep);
      assert s == [s[0]] + s[1..];
    }
  }

  /** What a filter keeps and what it drops make up the whole. */
  lemma {:induction false} FilterParts<T(!new)>(s: seq<T>, keep: T -> bool, drop: T -> bool)
    requires forall x :: x in s ==> drop(x) == !keep(x)
    ensures |Filter(s, keep)| + |Filter(s, drop)| == |s|
  {
    if s != [] {
      assert s[0] in s;
      FilterParts(s[1..], keep, drop);
    }
  }

  lemma {:induction false} FilterAppend<T(!new)>(s: seq<T>, x: T, keep: T -> bool)
    ensures Filter(s + [x], keep) == Filter(s, keep) + (if keep(x) then [x] else [])
  {
    if s == [] {
      assert s + [x] == [x];
    } else {
      FilterAppend(s[1..], x, keep);
      assert (s + [x])[1..] == s[1..] + [x];
    }
  }

  lemma {:induction false} FilterAll<T(!new)>(s: seq<T>, keep: T -> bool)
    requires forall x :: x in s ==> keep(x)
    ensures Filter(s, keep) == s
  {
    if s != [] {
      assert s[0] in s;
      FilterAll(s[1..], keep);
    }
  }

  lemma {:induction false} FilterNone<T(!new)>(s: seq<T>, keep: T -> bool)
    requires forall x :: x in s ==> !keep(x)
    ensures Filter(s, keep) == []
  {
    if s != [] {
      assert s[0] in s;
      FilterNone(s[1..], keep);
    }
  }

  function Places<T>(s: seq<T>, keep: T -> bool): set<nat> {
    set k: nat | k < |s| && keep(s[k])
  }

  /** A filter keeps as many as there are places of what it keeps. */
  lemma {:induction false} FilterCounts<T(!new)>(s: seq<T>, keep: T -> bool)
    ensures |Filter(s, keep)| == |Places(s, keep)|
  {
    if s == [] {
      assert Places(s, keep) == {};
    } else {
      var last := |s| - 1;
      FilterCounts(s[..last], keep);
      FilterAppend(s[..last], s[last], keep);
      assert s == s[..last] + [s[last]];
      assert Places(s, keep) == Places(s[..last], keep) + if keep(s[last]) then {last} else {};
    }
  }

  lemma {:induction false} FilterSame<T(!new)>(s: seq<T>, p: T -> bool, q: T -> bool)
    requires forall x :: x in s ==> p(x) == q(x)
    ensures Filter(s, p) == Filter(s, q)
  {
    if s != [] {
      assert s[0] in s;
      FilterSame(s[1..], p, q);
    }
  }

  /** Distinct keys stay distinct. */
  ghost predicate UniqueBy<T, K>(s: seq<T>, key: T -> K) {
    forall i, j :: 0 <= i < j < |s| ==> key(s[i]) != key(s[j])
  }

  lemma {:induction false} FilterUnique<T(!new), K>(s: seq<T>, key: T -> K, keep: T -> bool)
    requires UniqueBy(s, key)
    ensures UniqueBy(Filter(s, keep), key)
  {
    if s != [] {
      FilterUnique(s[1..], key, keep);
      InFilter(s[1..], keep);
      var rest := Filter(s[1..], keep);
      forall j | 0 <= j < |rest| ensures key(s[0]) != key(rest[j]) {
        assert rest[j] in s[1..];
      }
    }
  }

  function HasKey<T, K(==)>(key: T -> K, k: K): T -> bool {
    (x: T) => key(x) == k
  }

  /** Where keys are unique, one element at most has a key. */
  lemma {:induction false} UniqueCounts<T(!new), K>(s: seq<T>, key: T -> K, k: K)
    requires UniqueBy(s, key)
    ensures |Filter(s, HasKey(key, k))| == if exists x :: x in s && key(x) == k then 1 else 0
  {
    if s != [] {
      UniqueCounts(s[1..], key, k);
      assert s == [s[0]] + s[1..];
      assert s[0] in s;
      if key(s[0]) == k {
        forall x | x in s[1..] ensures !HasKey(key, k)(x) {
          var j :| 0 <= j < |s[1..]| && s[1..][j] == x;
          assert s[j + 1] == x;
        }
        FilterNone(s[1..], HasKey(key, k));
      }
    }
  }

  lemma AppendUnique<T, K>(s: seq<T>, x: T, key: T -> K)
    requires UniqueBy(s, key) && forall y :: y in s ==> key(y) != key(x)
    ensures UniqueBy(s + [x], key)
  {
    forall i, j | 0 <= i < j < |s + [x]| ensures key((s + [x])[i]) != key((s + [x])[j]) {
      assert (s + [x])[i] == s[i] && s[i] in s;
    }
  }
}
