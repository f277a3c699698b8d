/** Sequence helpers with the meaning of the JavaScript array operations that the relay uses:
    `filter`, `findIndex`/`indexOf`, `splice(i, 1)`, `slice`, `new Set(...)` iteration
    (first occurrences, in order) and the default `sort()` on strings. */
module Common {

  datatype Option<+T> = None | Some(value: T) {
    function GetOr(default: T): T {
      if Some? then value else default
    }
  }

  /** `m[k] ?? default` on a dictionary. */
  function Get<K, V>(m: map<K, V>, k: K, default: V): V {
    if k in m then m[k] else default
  }

  /** `m[k]` on a dictionary whose absent keys read as `undefined`. */
  function Lookup<K, V>(m: map<K, V>, k: K): (r: Option<V>)
    ensures r.Some? <==> k in m
    ensures r.Some? ==> r.value == m[k]
  {
    if k in m then Some(m[k]) else None
  }

  function Max(a: int, b: int): int { if a < b then b else a }
  function Min(a: int, b: int): int { if a < b then a else b }

  predicate NoDup<T(==)>(s: seq<T>) {
    forall i, j :: 0 <= i < j < |s| ==> s[i] != s[j]
  }

  /** How the slices around index `k` of `s` fit together. */
  lemma SliceStep<T>(s: seq<T>, k: nat, i: nat)
    requires i == k + 1 && i <= |s|
    ensures s[..i][..k] == s[..k] && s[..i][k] == s[k] && s[..k] + [s[k]] == s[..i]
    ensures s[k..][0] == s[k] && s[k..][1..] == s[i..]
  {
  }

  lemma AppendAssoc<T>(a: seq<T>, b: seq<T>, c: seq<T>)
    ensures a + (b + c) == (a + b) + c
  {
  }

  lemma MapUpdateTwice<K, V>(m: map<K, V>, k: K, v: V, w: V)
    ensures m[k := v][k := w] == m[k := w]
  {
  }

  lemma MapUpdateRemove<K, V>(m: map<K, V>, k: K, v: V)
    ensures m[k := v] - {k} == m - {k}
  {
  }

  lemma MapUpdateSame<K, V>(m: map<K, V>, k: K)
    requires k in m
    ensures m[k := m[k]] == m
  {
  }

  /** Appending an element not yet present keeps a sequence free of repeats. */
  lemma AppendNoDup<T>(s: seq<T>, x: T)
    requires NoDup(s) && x !in s
    ensures NoDup(s + [x])
  {
    assert forall i :: 0 <= i < |s| ==> (s + [x])[i] == s[i];
  }

  /** `new Set(s)` as a set. */
  function Elements<T>(s: seq<T>): set<T> {
    set x | x in s
  }

  // ---------------------------------------------------------------- filter

  /** `s.filter(p)`: the elements of `s` that satisfy `p`, in their order in `s`. */
  function Filter<T(!new)>(s: seq<T>, p: T -> bool): (r: seq<T>)
    ensures |r| <= |s|
    ensures forall x :: x in r <==> x in s && p(x)
  {
    if s == [] then [] else (if p(s[0]) then [s[0]] else []) + Filter(s[1..], p)
  }

  lemma {:induction false} FilterAppend<T(!new)>(a: seq<T>, b: seq<T>, p: T -> bool)
    ensures Filter(a + b, p) == Filter(a, p) + Filter(b, p)
  {
    if a == [] {
      assert a + b == b;
    } else {
      assert (a + b)[1..] == a[1..] + b;
      FilterAppend(a[1..], b, p);
    }
  }

  /** Filtering with a predicate every element satisfies changes nothing. */
  lemma {:induction false} FilterAll<T(!new)>(s: seq<T>, p: T -> bool)
    requires forall x :: x in s ==> p(x)
    ensures Filter(s, p) == s
  {
    if s != [] {
      FilterAll(s[1..], p);
    }
  }

  lemma {:induction false} FilterNoDup<T(!new)>(s: seq<T>, p: T -> bool)
    requires NoDup(s)
    ensures NoDup(Filter(s, p))
  {
    if s != [] {
      FilterNoDup(s[1..], p);
      assert s[0] !in s[1..];
    }
  }

  // ------------------------------------------------------ findIndex / indexOf

  /** `s.findIndex(p)`: the first index whose element satisfies `p`, or -1. */
  function FindIndex<T>(s: seq<T>, p: T -> bool): (r: int)
    ensures -1 <= r < |s|
    ensures r == -1 <==> forall j :: 0 <= j < |s| ==> !p(s[j])
    ensures r >= 0 ==> p(s[r]) && forall j :: 0 <= j < r ==> !p(s[j])
  {
    if s == [] then -1
    else if p(s[0]) then 0
    else
      var k := FindIndex(s[1..], p);
      if k == -1 then -1 else k + 1
  }

  /** `s.indexOf(x)`. */
  function IndexOf<T(==)>(s: seq<T>, x: T): (r: int)
    ensures -1 <= r < |s|
    ensures r == -1 <==> x !in s
    ensures r >= 0 ==> s[r] == x && forall j :: 0 <= j < r ==> s[j] != x
  {
    FindIndex(s, y => y == x)
  }

  /** Dropping the element at index `i` of a duplicate-free sequence. */
  lemma RemoveAtNoDup<T>(s: seq<T>, i: nat)
    requires NoDup(s) && i < |s|
    ensures NoDup(s[..i] + s[i + 1..])
    ensures s[i] !in s[..i] + s[i + 1..]
  {
    var r := s[..i] + s[i + 1..];
    forall a, b | 0 <= a < b < |r| ensures r[a] != r[b] {
      var a' := if a < i then a else a + 1;
      var b' := if b < i then b else b + 1;
      assert r[a] == s[a'] && r[b] == s[b'];
    }
    forall a | 0 <= a < |r| ensures r[a] != s[i] {
      var a' := if a < i then a else a + 1;
      assert r[a] == s[a'];
    }
  }

  /** `s.splice(s.indexOf(x), 1)` guarded by `indexOf(x) !== -1`: drops the first occurrence. */
  function RemoveFirst<T(==,!new)>(s: seq<T>, x: T): (r: seq<T>)
    ensures x !in s ==> r == s
    ensures x in s ==> |r| == |s| - 1 && multiset(r) == multiset(s) - multiset{x}
    ensures NoDup(s) ==> NoDup(r) && x !in r && forall y :: y in r <==> y in s && y != x
  {
    var i := IndexOf(s, x);
    if i == -1 then s
    else
      assert s == s[..i] + [s[i]] + s[i + 1..];
      if NoDup(s) then RemoveAtNoDup(s, i); s[..i] + s[i + 1..] else s[..i] + s[i + 1..]
  }

  /** Removing the leading element drops exactly it. */
  lemma RemoveFirstHead<T(!new)>(s: seq<T>)
    requires s != []
    ensures RemoveFirst(s, s[0]) == s[1..]
  {
    assert IndexOf(s, s[0]) == 0;
  }

  // ----------------------------------------------------------------- slice

  /** `s.slice(start, end)` with JavaScript's treatment of negative and out-of-range bounds. */
  function JsSlice<T>(s: seq<T>, start: int, end: int): (r: seq<T>)
    ensures exists lo, hi :: 0 <= lo <= hi <= |s| && r == s[lo..hi]
    ensures 0 <= start <= end <= |s| ==> r == s[start..end]
    ensures start < 0 && end == |s| ==> r == s[Max(|s| + start, 0)..]
  {
    var from := if start < 0 then Max(|s| + start, 0) else Min(start, |s|);
    var to := if end < 0 then Max(|s| + end, 0) else Min(end, |s|);
    if from < to then s[from..to] else s[0..0]
  }

  /** A slice with bounds in range around position `i` is that stretch, and holds `s[i]`. */
  lemma JsSliceAround<T>(s: seq<T>, i: nat, lo: int, hi: int)
    requires 0 <= lo <= i < hi <= |s|
    ensures JsSlice(s, lo, hi) == s[lo..hi] && s[i] in JsSlice(s, lo, hi)
  {
    assert s[lo..hi][i - lo] == s[i];
  }

  // ------------------------------------------------------------------ max

  /** `Math.max(...s)` guarded by `s.length > 0 ? ... : 0`. */
  function SeqMax(s: seq<nat>): (r: nat)
    ensures forall x :: x in s ==> x <= r
    ensures s != [] ==> r in s
    ensures s == [] ==> r == 0
  {
    if s == [] then 0
    else
      var m := SeqMax(s[1..]);
      assert forall x :: x in s ==> x == s[0] || x in s[1..];
      if s[0] < m then m else s[0]
  }

  // ------------------------------------------------- reverse and take

  function Reverse<T>(s: seq<T>): (r: seq<T>)
    ensures |r| == |s|
    ensures forall k :: 0 <= k < |s| ==> r[k] == s[|s| - 1 - k]
  {
    if s == [] then [] else Reverse(s[1..]) + [s[0]]
  }

  lemma {:induction false} ReverseAppend<T>(a: seq<T>, b: seq<T>)
    ensures Reverse(a + b) == Reverse(b) + Reverse(a)
  {
    var l, r := Reverse(a + b), Reverse(b) + Reverse(a);
    assert |l| == |r|;
    forall k | 0 <= k < |l| ensures l[k] == r[k] {
      if k < |b| {
        assert r[k] == b[|b| - 1 - k];
      } else {
        assert r[k] == Reverse(a)[k - |b|];
      }
    }
  }

  /** Every element of a slice is an element of the whole. */
  lemma SliceMembers<T>(s: seq<T>, lo: nat, hi: nat)
    requires lo <= hi <= |s|
    ensures forall x :: x in s[lo..hi] ==> x in s
  {
    forall x | x in s[lo..hi] ensures x in s {
      var k :| 0 <= k < hi - lo && s[lo..hi][k] == x;
      assert s[lo + k] == x;
    }
  }

  /** Every element of a prefix is an element of the whole. */
  lemma PrefixMembers<T>(r: seq<T>, s: seq<T>)
    requires r <= s
    ensures forall x :: x in r ==> x in s
  {
    forall x | x in r ensures x in s {
      var k :| 0 <= k < |r| && r[k] == x;
      assert s[k] == x;
    }
  }

  /** Reversing keeps the elements. */
  lemma ReverseMembers<T>(s: seq<T>)
    ensures forall x :: x in Reverse(s) ==> x in s
  {
    var r := Reverse(s);
    forall x | x in r ensures x in s {
      var k :| 0 <= k < |r| && r[k] == x;
      assert s[|s| - 1 - k] == x;
    }
  }

  /** The first `n` elements of `s` (all of them when `n >= |s|`, none when `n <= 0`). */
  function Take<T>(s: seq<T>, n: int): (r: seq<T>)
    ensures |r| == if n <= 0 then 0 else Min(n, |s|)
    ensures r <= s
  {
    if n <= 0 then [] else if n >= |s| then s else s[..n]
  }

  /** A scan that filtered a prefix and stopped at the end or at `limit` results has
      taken the first `limit` elements of the whole filter. */
  lemma {:induction false} FilterPrefixTake<T(!new)>(s: seq<T>, k: nat, results: seq<T>, p: T -> bool, limit: int)
    requires k <= |s|
    requires results == Filter(s[..k], p)
    requires |results| <= Max(limit, 0)
    requires k == |s| || |results| >= limit
    ensures results == Take(Filter(s, p), limit)
  {
    assert s == s[..k] + s[k..];
    FilterAppend(s[..k], s[k..], p);
    if k == |s| {
      assert s[..k] == s;
    }
  }

  // ------------------------------------------------- Set iteration order

  /** `[...new Set(s)]`: the distinct elements of `s`, each where it first occurs. */
  function Dedup<T(==,!new)>(s: seq<T>): (r: seq<T>)
    ensures NoDup(r)
    ensures forall x :: x in r <==> x in s
    ensures |r| <= |s|
  {
    if s == [] then []
    else
      var d := Dedup(s[..|s| - 1]);
      assert s == s[..|s| - 1] + [s[|s| - 1]];
      if s[|s| - 1] in d then d else d + [s[|s| - 1]]
  }

  // ----------------------------------------------------- string order

  /** `a <= b` in the order of JavaScript's default `sort()`: code unit by code unit,
      a proper prefix first. */
  predicate StrLe(a: string, b: string) {
    if a == [] then true
    else if b == [] then false
    else if a[0] != b[0] then a[0] < b[0]
    else StrLe(a[1..], b[1..])
  }

  predicate StrLt(a: string, b: string) {
    StrLe(a, b) && a != b
  }

  lemma {:induction false} StrLeTotal(a: string, b: string)
    ensures StrLe(a, b) || StrLe(b, a)
  {
    if a != [] && b != [] && a[0] == b[0] {
      StrLeTotal(a[1..], b[1..]);
    }
  }

  lemma {:induction false} StrLeAntisymmetric(a: string, b: string)
    requires StrLe(a, b) && StrLe(b, a)
    ensures a == b
  {
    if a != [] && b != [] {
      StrLeAntisymmetric(a[1..], b[1..]);
      assert a == [a[0]] + a[1..] && b == [b[0]] + b[1..];
    }
  }

  lemma {:induction false} StrLeTransitive(a: string, b: string, c: string)
    requires StrLe(a, b) && StrLe(b, c)
    ensures StrLe(a, c)
  {
    if a != [] && b != [] && c != [] && a[0] == b[0] && b[0] == c[0] {
      StrLeTransitive(a[1..], b[1..], c[1..]);
    }
  }

  predicate Sorted(s: seq<string>) {
    forall i, j :: 0 <= i < j < |s| ==> StrLe(s[i], s[j])
  }

  predicate StrictlySorted(s: seq<string>) {
    forall i, j :: 0 <= i < j < |s| ==> StrLt(s[i], s[j])
  }

  // ------------------------------------------------------ insertion sort

  function Insert(x: string, s: seq<string>): (r: seq<string>)
    ensures multiset(r) == multiset(s) + multiset{x}
    ensures forall y :: y in r <==> y == x || y in s
  {
    if s == [] then [x]
    else if StrLe(x, s[0]) then [x] + s
    else
      assert s == [s[0]] + s[1..];
      [s[0]] + Insert(x, s[1..])
  }

  /** Inserting into a sorted sequence keeps it sorted. */
  lemma {:induction false} InsertSorted(x: string, s: seq<string>)
    requires Sorted(s)
    ensures Sorted(Insert(x, s))
  {
    if s == [] {
    } else if StrLe(x, s[0]) {
      forall j | 0 <= j < |s| ensures StrLe(x, s[j]) {
        if j > 0 { StrLeTransitive(x, s[0], s[j]); }
      }
      assert forall j :: 0 < j < |s| + 1 ==> ([x] + s)[j] == s[j - 1];
    } else {
      StrLeTotal(x, s[0]);
      assert Sorted(s[1..]);
      InsertSorted(x, s[1..]);
      var t := Insert(x, s[1..]);
      assert forall y :: y in t ==> StrLe(s[0], y);
    }
  }

  /** Inserting a new string into a sequence without repeats leaves none. */
  lemma {:induction false} InsertNoDup(x: string, s: seq<string>)
    requires NoDup(s) && x !in s
    ensures NoDup(Insert(x, s))
  {
    if s == [] {
    } else if StrLe(x, s[0]) {
      assert forall j :: 0 < j < |s| + 1 ==> ([x] + s)[j] == s[j - 1];
    } else {
      assert s == [s[0]] + s[1..];
      InsertNoDup(x, s[1..]);
      var t := Insert(x, s[1..]);
      assert s[0] !in t;
      assert forall j :: 0 < j < |t| + 1 ==> ([s[0]] + t)[j] == t[j - 1];
    }
  }

  /** `s.sort()` on strings. */
  function Sort(s: seq<string>): (r: seq<string>)
    ensures Sorted(r)
    ensures multiset(r) == multiset(s)
    ensures |r| == |s|
    ensures forall y :: y in r <==> y in s
    ensures NoDup(s) ==> NoDup(r)
  {
    if s == [] then []
    else
      assert s == [s[0]] + s[1..];
      var t := Sort(s[1..]);
      InsertSorted(s[0], t);
      assert NoDup(s) ==> NoDup(Insert(s[0], t)) by {
        if NoDup(s) { InsertNoDup(s[0], t); }
      }
      Insert(s[0], t)
  }

  /** `[...new Set(s)].sort()`: the distinct strings of `s` in increasing order. */
  function SortedDistinct(s: seq<string>): (r: seq<string>)
    ensures StrictlySorted(r)
    ensures forall y :: y in r <==> y in s
  {
    Sort(Dedup(s))
  }

  /** Filtering keeps a strictly sorted sequence strictly sorted. */
  lemma {:induction false} FilterKeepsStrictlySorted(s: seq<string>, p: string -> bool)
    requires StrictlySorted(s)
    ensures StrictlySorted(Filter(s, p))
  {
    if s != [] {
      assert StrictlySorted(s[1..]);
      FilterKeepsStrictlySorted(s[1..], p);
      var t := Filter(s[1..], p);
      if p(s[0]) {
        forall y | y in t ensures StrLt(s[0], y) {
          var k :| 0 <= k < |s[1..]| && s[1..][k] == y;
          assert y == s[k + 1];
        }
        var u := [s[0]] + t;
        forall i, j | 0 <= i < j < |u| ensures StrLt(u[i], u[j]) {
          assert u[j] == t[j - 1];
          if i > 0 { assert u[i] == t[i - 1]; }
        }
      } else {
        assert Filter(s, p) == t;
      }
    }
  }

  /** A strictly sorted sequence is determined by its elements: whatever order the
      distinct strings are met in, `SortedDistinct` gives the same answer. */
  lemma {:induction false} StrictlySortedUnique(a: seq<string>, b: seq<string>)
    requires StrictlySorted(a) && StrictlySorted(b)
    requires forall y :: y in a <==> y in b
    ensures a == b
  {
    assert a == [] <==> b == [] by {
      if a != [] { assert a[0] in a; }
      if b != [] { assert b[0] in b; }
    }
    if a != [] {
      // the heads are the least elements of the same set
      assert a[0] == b[0] by {
        assert a[0] in a && b[0] in b;
        var ka :| 0 <= ka < |b| && b[ka] == a[0];
        var kb :| 0 <= kb < |a| && a[kb] == b[0];
        if ka != 0 && kb != 0 {
          assert StrLt(b[0], b[ka]) && StrLt(a[0], a[kb]);
          StrLeAntisymmetric(a[0], b[0]);
        }
      }
      forall y ensures y in a[1..] <==> y in b[1..] {
        if y in a[1..] {
          var k :| 0 <= k < |a[1..]| && a[1..][k] == y;
          assert a[k + 1] == y && y != a[0];
        }
        if y in b[1..] {
          var k :| 0 <= k < |b[1..]| && b[1..][k] == y;
          assert b[k + 1] == y && y != b[0];
        }
        assert y in a <==> y == a[0] || y in a[1..];
        assert y in b <==> y == b[0] || y in b[1..];
      }
      StrictlySortedUnique(a[1..], b[1..]);
      assert a == [a[0]] + a[1..] && b == [b[0]] + b[1..];
    }
  }
}
