/** The ruleset record the generators read, and the two LINQ operators they apply to
    sequences of rulesets: the stable `OrderBy` on an integer key and `Distinct`. */
module Rulesets {
  import opened Wrappers

  /** A loaded ruleset: its short name, the legacy ID of an `ILegacyRuleset` (`None` for the
      others) and the `RulesetInfo.OnlineID` the commands sort by. */
  datatype Ruleset = Ruleset(shortName: string, legacyId: Option<int>, onlineId: int)

  function OnlineId(r: Ruleset): int { r.onlineId }

  // ---------------------------------------------------------------------------------------
  // OrderBy

  ghost predicate SortedBy<T>(s: seq<T>, key: T -> int)
  {
    forall i, j :: 0 <= i < j < |s| ==> key(s[i]) <= key(s[j])
  }

  /** The elements of `s` whose key is `k`, in their order in `s`. */
  function WithKey<T>(s: seq<T>, key: T -> int, k: int): (r: seq<T>)
    ensures |r| <= |s|
  {
    if s == [] then []
    else if key(s[0]) == k then [s[0]] + WithKey(s[1..], key, k)
    else WithKey(s[1..], key, k)
  }

  /** `x` placed in front of the first element whose key is not smaller than its own. */
  function Insert<T>(x: T, s: seq<T>, key: T -> int): (r: seq<T>)
    ensures multiset(r) == multiset(s) + multiset{x}
    ensures |r| == |s| + 1
  {
    if s == [] || key(x) <= key(s[0]) then [x] + s
    else
      assert s == [s[0]] + s[1..];
      [s[0]] + Insert(x, s[1..], key)
  }

  /** `s.OrderBy(key)`: LINQ's stable sort. */
  function OrderBy<T>(s: seq<T>, key: T -> int): (r: seq<T>)
    ensures multiset(r) == multiset(s)
    ensures |r| == |s|
  {
    if s == [] then []
    else
      assert s == [s[0]] + s[1..];
      Insert(s[0], OrderBy(s[1..], key), key)
  }

  lemma {:induction false} InsertSorted<T>(x: T, s: seq<T>, key: T -> int)
    requires SortedBy(s, key)
    ensures SortedBy(Insert(x, s, key), key)
  {
    if s != [] && key(x) > key(s[0]) {
      InsertSorted(x, s[1..], key);
      var r := Insert(x, s, key);
      var t := Insert(x, s[1..], key);
      assert r == [s[0]] + t;
      forall j | 0 < j < |r| ensures key(r[0]) <= key(r[j]) {
        assert r[j] in multiset(t);
        assert r[j] in multiset(s[1..]) + multiset{x};
        if r[j] != x {
          assert r[j] in s[1..];
        }
      }
    }
  }

  /** Inserting does not change the order among the other elements with a given key, and
      puts `x` in front of those that share its key. */
  lemma {:induction false} InsertWithKey<T>(x: T, s: seq<T>, key: T -> int, k: int)
    requires SortedBy(s, key)
    ensures WithKey(Insert(x, s, key), key, k) ==
      (if key(x) == k then [x] + WithKey(s, key, k) else WithKey(s, key, k))
  {
    if s != [] && key(x) > key(s[0]) {
      InsertWithKey(x, s[1..], key, k);
      assert Insert(x, s, key)[1..] == Insert(x, s[1..], key);
    }
  }

  /** `OrderBy` sorts. */
  lemma {:induction false} OrderBySorted<T>(s: seq<T>, key: T -> int)
    ensures SortedBy(OrderBy(s, key), key)
  {
    if s != [] {
      OrderBySorted(s[1..], key);
      InsertSorted(s[0], OrderBy(s[1..], key), key);
    }
  }

  /** `OrderBy` is stable: elements with equal keys keep their relative order. */
  lemma {:induction false} OrderByStable<T>(s: seq<T>, key: T -> int, k: int)
    ensures WithKey(OrderBy(s, key), key, k) == WithKey(s, key, k)
  {
    if s != [] {
      OrderByStable(s[1..], key, k);
      OrderBySorted(s[1..], key);
      InsertWithKey(s[0], OrderBy(s[1..], key), key, k);
    }
  }

  // ---------------------------------------------------------------------------------------
  // Distinct

  /** The elements of `s` not in `seen`, each at its first occurrence. */
  function DistinctFrom<T(==)>(s: seq<T>, seen: set<T>): (r: seq<T>)
    ensures forall i :: 0 <= i < |r| ==> r[i] in s && r[i] !in seen
    ensures forall i :: 0 <= i < |s| && s[i] !in seen ==> s[i] in r
    ensures forall i, j :: 0 <= i < j < |r| ==> r[i] != r[j]
  {
    if s == [] then []
    else if s[0] in seen then
      assert forall i :: 1 <= i < |s| ==> s[i] == s[1..][i - 1];
      DistinctFrom(s[1..], seen)
    else
      assert forall i :: 1 <= i < |s| ==> s[i] == s[1..][i - 1];
      [s[0]] + DistinctFrom(s[1..], seen + {s[0]})
  }

  /** `s.Distinct()`: every element once, in the order of first occurrences (`DistinctSnoc`). */
  function Distinct<T(==)>(s: seq<T>): (r: seq<T>)
    ensures forall i :: 0 <= i < |r| ==> r[i] in s
    ensures forall i :: 0 <= i < |s| ==> s[i] in r
    ensures forall i, j :: 0 <= i < j < |r| ==> r[i] != r[j]
  {
    DistinctFrom(s, {})
  }

  /** A sequence without repeats passes through `Distinct` unchanged, order included. */
  lemma {:induction false} DistinctOfDistinct<T>(s: seq<T>)
    requires forall i, j :: 0 <= i < j < |s| ==> s[i] != s[j]
    ensures Distinct(s) == s
  {
    DistinctFromFresh(s, {});
  }

  lemma {:induction false} DistinctFromFresh<T>(s: seq<T>, seen: set<T>)
    requires forall i, j :: 0 <= i < j < |s| ==> s[i] != s[j]
    requires forall i :: 0 <= i < |s| ==> s[i] !in seen
    ensures DistinctFrom(s, seen) == s
  {
    if s != [] {
      DistinctFromFresh(s[1..], seen + {s[0]});
    }
  }

  /** Order of `Distinct`: extending the input by one element appends it to the result exactly
      when it is new, so the elements come out in the order of their first occurrences. */
  lemma DistinctSnoc<T>(s: seq<T>, x: T)
    ensures Distinct(s + [x]) == if x in s then Distinct(s) else Distinct(s) + [x]
  {
    DistinctFromSnoc(s, {}, x);
  }

  lemma {:induction false} DistinctFromSnoc<T>(s: seq<T>, seen: set<T>, x: T)
    ensures DistinctFrom(s + [x], seen) == DistinctFrom(s, seen) + (if x in seen || x in s then [] else [x])
    decreases |s|
  {
    if s == [] {
      assert s + [x] == [x];
      assert [x][1..] == [];
    } else {
      assert (s + [x])[0] == s[0] && (s + [x])[1..] == s[1..] + [x];
      assert x in s <==> x == s[0] || x in s[1..];
      if s[0] in seen {
        DistinctFromSnoc(s[1..], seen, x);
      } else {
        DistinctFromSnoc(s[1..], seen + {s[0]}, x);
      }
    }
  }

  // ---------------------------------------------------------------------------------------
  // Repeats and permutations

  /** An element at two positions is counted at least twice. */
  lemma CountedTwice<T>(s: seq<T>, i: int, j: int)
    requires 0 <= i < j < |s| && s[i] == s[j]
    ensures multiset(s)[s[i]] >= 2
  {
    assert s == s[..j] + [s[j]] + s[j + 1..];
    assert s[i] == s[..j][i];
  }

  /** An element counted at least twice sits at two positions. */
  lemma TwoPositions<T>(s: seq<T>, x: T) returns (p: int, q: int)
    requires multiset(s)[x] >= 2
    ensures 0 <= p < |s| && 0 <= q < |s| && p != q
    ensures s[p] == x && s[q] == x
  {
    assert x in multiset(s);
    p :| 0 <= p < |s| && s[p] == x;
    assert s == s[..p] + [s[p]] + s[p + 1..];
    assert x in multiset(s[..p]) + multiset(s[p + 1..]);
    if x in s[..p] {
      var k :| 0 <= k < p && s[..p][k] == x;
      q := k;
    } else {
      var k :| 0 <= k < |s[p + 1..]| && s[p + 1..][k] == x;
      q := p + 1 + k;
    }
  }
}

