/** Small facts about sequences without repeats, and stand-ins for the library calls the source
    makes on vectors and hash sets (`sort_unstable`, `dedup`, `collect`).
 */
module Sequences {
  import opened Relations

  datatype Option<+T> = None | Some(value: T)
  datatype Result<+T, +E> = Ok(value: T) | Err(error: E)

  ghost function Range(n: nat): (s: set<nat>)
    ensures |s| == n
    ensures forall i: nat :: i in s <==> i < n
  {
    if n == 0 then {} else Range(n - 1) + {n - 1}
  }

  ghost function Elements(s: seq<nat>): (e: set<nat>)
    ensures forall x: nat :: x in e <==> x in s
  {
    set x | x in s
  }

  lemma {:induction false} ElementCount(s: seq<nat>)
    requires NoDuplicates(s)
    ensures |Elements(s)| == |s|
  {
    if s == [] {
      assert Elements(s) == {};
    } else {
      var front, last := s[..|s| - 1], s[|s| - 1];
      ElementCount(front);
      assert s == front + [last];
      assert Elements(s) == Elements(front) + {last};
    }
  }

  lemma SubsetCount<T>(a: set<T>, b: set<T>)
    requires a <= b
    ensures |a| <= |b|
  {
    assert b == a + (b - a);
  }

  /** A repeat-free list of numbers below `n` is at most `n` long, and shorter if one is missing. */
  lemma BoundedLength(s: seq<nat>, n: nat)
    requires NoDuplicates(s) && forall x: nat :: x in s ==> x < n
    ensures |s| <= n
    ensures forall m: nat :: m < n && m !in s ==> |s| < n
  {
    ElementCount(s);
    SubsetCount(Elements(s), Range(n));
    forall m: nat | m < n && m !in s ensures |s| < n {
      SubsetCount(Elements(s), Range(n) - {m});
    }
  }

  /** A repeat-free list of all the numbers below `n` is `n` long. */
  lemma CompleteLength(s: seq<nat>, n: nat)
    requires NoDuplicates(s) && forall x: nat :: x in s <==> x < n
    ensures |s| == n
  {
    ElementCount(s);
    assert Elements(s) == Range(n);
  }

  ghost predicate StrictlySortedBy(s: seq<nat>, key: seq<nat>) {
    && (forall i :: 0 <= i < |s| ==> s[i] < |key|)
    && forall i, j :: 0 <= i < j < |s| ==> key[s[i]] < key[s[j]]
  }

  ghost predicate StrictlySorted(s: seq<nat>) {
    forall i, j :: 0 <= i < j < |s| ==> s[i] < s[j]
  }

  lemma SortedSplit(s: seq<nat>) returns (front: seq<nat>, last: nat)
    requires StrictlySorted(s) && s != []
    ensures s == front + [last] && StrictlySorted(front) && last in s
    ensures forall x: nat :: x in front <==> x in s && x != last
    ensures forall x: nat :: x in s ==> x <= last
  {
    front, last := s[..|s| - 1], s[|s| - 1];
    assert s == front + [last];
  }

  /** A sorted list is determined by its elements. */
  lemma {:induction false} SortedUnique(a: seq<nat>, b: seq<nat>)
    requires StrictlySorted(a) && StrictlySorted(b) && forall x: nat :: x in a <==> x in b
    ensures a == b
    decreases |a|
  {
    ElementCount(a);
    ElementCount(b);
    assert Elements(a) == Elements(b);
    if a != [] {
      var front, last := SortedSplit(a);
      var front', last' := SortedSplit(b);
      SortedUnique(front, front');
    }
  }

  /** Puts `x` in its place, unless it is there already. */
  method Insert(sorted: seq<nat>, key: seq<nat>, x: nat) returns (grown: seq<nat>)
    requires StrictlySortedBy(sorted, key) && x < |key|
    requires forall y: nat, z: nat :: y < |key| && z < |key| && key[y] == key[z] ==> y == z
    ensures StrictlySortedBy(grown, key)
    ensures forall y: nat :: y in grown <==> y in sorted || y == x
  {
    var i := 0;
    while i < |sorted| && key[sorted[i]] < key[x]
      invariant 0 <= i <= |sorted|
      invariant forall j :: 0 <= j < i ==> key[sorted[j]] < key[x]
    {
      i := i + 1;
    }
    if i < |sorted| && sorted[i] == x {
      return sorted;
    }
    InsertedAt(sorted, key, x, i);
    grown := sorted[..i] + [x] + sorted[i..];
    forall y: nat ensures y in grown <==> y in sorted || y == x { InsertedElements(sorted, x, i, y); }
  }

  lemma InsertedAt(sorted: seq<nat>, key: seq<nat>, x: nat, i: nat)
    requires StrictlySortedBy(sorted, key) && x < |key| && i <= |sorted|
    requires forall j :: 0 <= j < i ==> key[sorted[j]] < key[x]
    requires i < |sorted| ==> key[x] < key[sorted[i]]
    ensures StrictlySortedBy(sorted[..i] + [x] + sorted[i..], key)
  {
    var grown := sorted[..i] + [x] + sorted[i..];
    forall j, k | 0 <= j < k < |grown| ensures grown[j] < |key| && grown[k] < |key| && key[grown[j]] < key[grown[k]] {
      assert grown[j] == if j < i then sorted[j] else if j == i then x else sorted[j - 1];
      assert grown[k] == if k < i then sorted[k] else if k == i then x else sorted[k - 1];
      assert i < |sorted| && i < k ==> key[sorted[i]] <= key[sorted[k - 1]];
    }
    assert forall j :: 0 <= j < |grown| ==> grown[j] == x || grown[j] in sorted;
  }

  lemma InsertedElements(s: seq<nat>, x: nat, i: nat, y: nat)
    requires i <= |s|
    ensures y in s[..i] + [x] + s[i..] <==> y in s || y == x
  {
    assert s == s[..i] + s[i..];
  }

  /** `sort_unstable_by_key` followed by `dedup`, for a key that tells all elements apart. */
  method SortDedupBy(s: seq<nat>, key: seq<nat>) returns (sorted: seq<nat>)
    requires forall x: nat :: x in s ==> x < |key|
    requires forall x: nat, y: nat :: x < |key| && y < |key| && key[x] == key[y] ==> x == y
    ensures forall x: nat :: x in sorted <==> x in s
    ensures StrictlySortedBy(sorted, key)
  {
    sorted := [];
    for n := 0 to |s|
      invariant forall x: nat :: x in sorted <==> x in s[..n]
      invariant StrictlySortedBy(sorted, key)
    {
      assert s[n] in s;
      sorted := Insert(sorted, key, s[n]);
      assert s[..n + 1] == s[..n] + [s[n]];
    }
    assert s[..|s|] == s;
  }

  /** `sort_unstable` followed by `dedup` (`src/compiler.rs:42-45`). */
  method SortDedup(s: seq<nat>) returns (sorted: seq<nat>)
    ensures forall x: nat :: x in sorted <==> x in s
    ensures StrictlySorted(sorted)
  {
    var n: nat := 0;
    for i := 0 to |s|
      invariant forall j :: 0 <= j < i ==> s[j] < n
    {
      if s[i] >= n { n := s[i] + 1; }
    }
    var key := seq(n, (i: nat) => i);
    sorted := SortDedupBy(s, key);
    assert forall i :: 0 <= i < |sorted| ==> key[sorted[i]] == sorted[i];
  }

  /** The elements of a hash set, in whatever order iteration visits them. */
  method Collect(s: set<nat>) returns (list: seq<nat>)
    ensures forall x: nat :: x in list <==> x in s
    ensures NoDuplicates(list)
  {
    list := [];
    var rest := s;
    while rest != {}
      invariant rest <= s
      invariant forall x: nat :: x in list <==> x in s && x !in rest
      invariant NoDuplicates(list)
      decreases rest
    {
      var x :| x in rest;
      rest := rest - {x};
      list := list + [x];
    }
  }

  /** The elements of a hash set, collected and sorted (`src/compiler.rs:275-277`). */
  method CollectSorted(s: set<nat>) returns (list: seq<nat>)
    ensures forall x: nat :: x in list <==> x in s
    ensures StrictlySorted(list)
  {
    list := Collect(s);
    list := SortDedup(list);
  }

  /** Collects and sorts every set of an edge table. */
  method SortedLists(r: Rel) returns (g: Lists)
    ensures |g| == |r|
    ensures forall u: nat, v: nat :: u < |r| ==> (v in g[u] <==> v in r[u])
    ensures forall u: nat :: u < |g| ==> StrictlySorted(g[u])
  {
    g := [];
    for u := 0 to |r|
      invariant |g| == u
      invariant forall x: nat, v: nat :: x < u ==> (v in g[x] <==> v in r[x])
      invariant forall x: nat :: x < u ==> StrictlySorted(g[x])
    {
      var list := CollectSorted(r[u]);
      g := g + [list];
    }
  }
}
