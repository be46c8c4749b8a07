/** Combinations and permutations, by index: each tuple once, in lexicographic order. */
module Iters {
  import opened Options

  type Tuple = seq<nat>

  /** Lexicographic order: the tuples agree up to a place, and there the first is smaller. */
  predicate DiffersAt(a: Tuple, b: Tuple, i: nat) {
    i < |a| && i < |b| && a[..i] == b[..i] && a[i] < b[i]
  }

  ghost predicate Less(a: Tuple, b: Tuple) { exists i: nat :: DiffersAt(a, b, i) }

  ghost predicate Ascending(ts: seq<Tuple>) { forall i, j :: 0 <= i < j < |ts| ==> Less(ts[i], ts[j]) }

  /** Strictly increasing, below `n`. */
  predicate Combination(c: Tuple, n: nat, k: nat) {
    |c| == k && (forall i :: 0 <= i < k ==> c[i] < n) && forall i, j :: 0 <= i < j < k ==> c[i] < c[j]
  }

  /** All different, below `n`. */
  predicate Permutation(c: Tuple, n: nat, k: nat) {
    |c| == k && (forall i :: 0 <= i < k ==> c[i] < n) && forall i, j :: 0 <= i < j < k ==> c[i] != c[j]
  }

  // ---------------------------------------------------------------- the order

  lemma LessTransitive(a: Tuple, b: Tuple, c: Tuple)
    requires Less(a, b) && Less(b, c)
    ensures Less(a, c)
  {
    var i: nat :| DiffersAt(a, b, i);
    var j: nat :| DiffersAt(b, c, j);
    var m := if i < j then i else j;
    assert a[..m] == a[..i][..m] && b[..m] == b[..i][..m] && b[..m] == b[..j][..m] && c[..m] == c[..j][..m];
    assert i < j ==> b[i] == b[..j][i] && c[i] == c[..j][i];
    assert j < i ==> a[j] == a[..i][j] && b[j] == b[..i][j];
    assert DiffersAt(a, c, m);
  }

  lemma LessIrreflexive(a: Tuple, b: Tuple)
    requires Less(a, b)
    ensures a != b && !Less(b, a)
  {
    var i: nat :| DiffersAt(a, b, i);
    forall j: nat ensures !DiffersAt(b, a, j) {
      if j < i && j < |a| && j < |b| {
        assert a[j] == a[..i][j] && b[j] == b[..i][j];
      } else if i < j && j <= |a| && j <= |b| {
        assert a[..j][i] == a[i] && b[..j][i] == b[i];
      }
    }
  }

  /** Tuples of one length are comparable. */
  lemma {:induction false} LessTotal(a: Tuple, b: Tuple)
    requires |a| == |b|
    ensures a == b || Less(a, b) || Less(b, a)
  {
    if a != b {
      var i := FirstDifference(a, b, 0);
      assert a[..i] == b[..i];
      assert DiffersAt(a, b, i) || DiffersAt(b, a, i);
    }
  }

  lemma FirstDifference(a: Tuple, b: Tuple, from: nat) returns (i: nat)
    requires |a| == |b| && from <= |a| && a != b && forall j :: 0 <= j < from ==> a[j] == b[j]
    ensures i < |a| && a[i] != b[i] && forall j :: 0 <= j < i ==> a[j] == b[j]
    decreases |a| - from
  {
    assert from == |a| ==> a == b;
    if a[from] != b[from] { i := from; } else { i := FirstDifference(a, b, from + 1); }
  }

  // ---------------------------------------------------------------- combinations

  /** In a combination the i-th entry leaves room for those behind it, and has room before it. */
  lemma {:induction false} EntryBounds(c: Tuple, n: nat, k: nat, i: nat)
    requires Combination(c, n, k) && i < k
    ensures i <= c[i] <= n - k + i && k <= n
  {
    UpperBound(c, n, k, i);
    LowerBound(c, n, k, i);
  }

  lemma {:induction false} UpperBound(c: Tuple, n: nat, k: nat, i: nat)
    requires Combination(c, n, k) && i < k
    ensures c[i] <= n - k + i
    decreases k - i
  {
    if i + 1 < k { UpperBound(c, n, k, i + 1); }
  }

  lemma {:induction false} LowerBound(c: Tuple, n: nat, k: nat, i: nat)
    requires Combination(c, n, k) && i < k
    ensures i <= c[i]
  {
    if i > 0 { LowerBound(c, n, k, i - 1); }
  }

  lemma {:induction false} Spread(c: Tuple, n: nat, k: nat, i: nat, j: nat)
    requires Combination(c, n, k) && i <= j < k
    ensures c[j] >= c[i] + (j - i)
    decreases j
  {
    if i < j { Spread(c, n, k, i, j - 1); }
  }

  /** The next combination: the last entry that can grow does, those behind it follow as closely as
      possible. */
  predicate Follows(b: Tuple, a: Tuple, n: nat, k: nat, p: nat) {
    && Combination(a, n, k) && Combination(b, n, k) && p < k
    && a[p] < n - k + p && (forall j :: p < j < k ==> a[j] == n - k + j)
    && (forall j :: 0 <= j < p ==> b[j] == a[j]) && (forall j :: p <= j < k ==> b[j] == a[p] + 1 + (j - p))
  }

  /** Nothing lies between a combination and the next. */
  lemma NothingBetween(a: Tuple, b: Tuple, c: Tuple, n: nat, k: nat, p: nat)
    requires Follows(b, a, n, k, p) && Combination(c, n, k) && Less(c, b)
    ensures c == a || Less(c, a)
  {
    LessTotal(c, a);
    if Less(a, c) {
      var q: nat :| DiffersAt(a, c, q);
      EntryBounds(c, n, k, q);
      assert q <= p;
      assert forall j :: 0 <= j < q ==> a[..q][j] == c[..q][j];
      LessIrreflexive(c, b);
      if q < p || c[q] > b[q] {
        assert b[..q] == c[..q];
        assert DiffersAt(b, c, q);
      } else {
        forall j | p <= j < k ensures c[j] >= b[j] { Spread(c, n, k, p, j); }
        LessOrEqual(b, c);
      }
    }
  }

  /** Entry by entry greater or equal is greater or equal. */
  lemma LessOrEqual(a: Tuple, b: Tuple)
    requires |a| == |b| && forall j :: 0 <= j < |a| ==> a[j] <= b[j]
    ensures a == b || Less(a, b)
  {
    if a != b {
      var i := FirstDifference(a, b, 0);
      assert a[..i] == b[..i];
      assert DiffersAt(a, b, i);
    }
  }

  lemma NextIsGreater(a: Tuple, b: Tuple, n: nat, k: nat, p: nat)
    requires Follows(b, a, n, k, p)
    ensures Less(a, b)
  {
    assert a[..p] == b[..p];
    assert DiffersAt(a, b, p);
  }

  /** A number that grows with the order. */
  function Rank(c: Tuple, base: nat): nat {
    if c == [] then 0 else Rank(c[..|c| - 1], base) * base + c[|c| - 1]
  }

  function Power(base: nat, k: nat): nat { if k == 0 then 1 else Power(base, k - 1) * base }

  lemma {:induction false} RankBound(c: Tuple, base: nat)
    requires forall i :: 0 <= i < |c| ==> c[i] < base
    ensures Rank(c, base) < Power(base, |c|)
  {
    if c != [] {
      RankBound(c[..|c| - 1], base);
      Scaled(Rank(c[..|c| - 1], base) + 1, Power(base, |c| - 1), base);
    }
  }

  lemma Scaled(a: nat, b: nat, c: nat)
    requires a <= b
    ensures a * c <= b * c
  {
  }

  lemma {:induction false} RankGrows(a: Tuple, b: Tuple, base: nat, p: nat)
    requires |a| == |b| && DiffersAt(a, b, p) && forall i :: 0 <= i < |a| ==> a[i] < base
    ensures Rank(a, base) < Rank(b, base)
    decreases |a|
  {
    hide Rank;
    var m := |a| - 1;
    var x, y := a[..m], b[..m];
    RankIs(a, base);
    RankIs(b, base);
    if p == m {
      assert x == y;
    } else {
      ShorterDiffers(a, b, p);
      RankGrows(x, y, base, p);
      LeadingDigitWins(Rank(x, base), Rank(y, base), base, a[m], b[m]);
    }
  }

  lemma RankIs(c: Tuple, base: nat)
    requires c != []
    ensures Rank(c, base) == Rank(c[..|c| - 1], base) * base + c[|c| - 1]
  {
  }

  lemma LeadingDigitWins(x: nat, y: nat, base: nat, a: nat, b: nat)
    requires x < y && a < base
    ensures x * base + a < y * base + b
  {
    Scaled(x + 1, y, base);
  }

  lemma ShorterDiffers(a: Tuple, b: Tuple, p: nat)
    requires |a| == |b| && DiffersAt(a, b, p) && p < |a| - 1
    ensures DiffersAt(a[..|a| - 1], b[..|b| - 1], p)
  {
    var m := |a| - 1;
    assert a[..m][..p] == a[..p] && b[..m][..p] == b[..p];
  }

  function Select<T>(src: seq<T>, c: Tuple): seq<T>
    requires forall i :: 0 <= i < |c| ==> c[i] < |src|
  {
    seq(|c|, i requires 0 <= i < |c| => src[c[i]])
  }

  /** The selections of tuples of indices. */
  ghost predicate Selected<T>(out: seq<seq<T>>, src: seq<T>, ts: seq<Tuple>) {
    && |out| == |ts|
    && forall j :: 0 <= j < |ts| ==> (forall i :: 0 <= i < |ts[j]| ==> ts[j][i] < |src|) && out[j] == Select(src, ts[j])
  }

  /** All combinations are among `ts`, in order, and nothing else is. */
  ghost predicate Enumerates(ts: seq<Tuple>, n: nat, k: nat) {
    && (forall j :: 0 <= j < |ts| ==> Combination(ts[j], n, k))
    && Ascending(ts) && forall c :: Combination(c, n, k) ==> c in ts
  }

  /** Those up to `last` are. */
  ghost predicate UpTo(ts: seq<Tuple>, last: Tuple, n: nat, k: nat) {
    && (forall j :: 0 <= j < |ts| ==> Combination(ts[j], n, k)) && Ascending(ts)
    && ts != [] && ts[|ts| - 1] == last
    && forall c :: Combination(c, n, k) && (c == last || Less(c, last)) ==> c in ts
  }

  lemma OneMore(ts: seq<Tuple>, a: Tuple, b: Tuple, n: nat, k: nat, p: nat)
    requires UpTo(ts, a, n, k) && Follows(b, a, n, k, p)
    ensures UpTo(ts + [b], b, n, k)
  {
    var us := ts + [b];
    NextIsGreater(a, b, n, k, p);
    forall i, j | 0 <= i < j < |us| ensures Less(us[i], us[j]) {
      if j == |ts| && i < |ts| - 1 { LessTransitive(ts[i], a, b); }
    }
    forall c | Combination(c, n, k) && (c == b || Less(c, b)) ensures c in us {
      if c != b {
        NothingBetween(a, b, c, n, k, p);
        assert c in ts;
      } else {
        assert us[|ts|] == b;
      }
    }
  }

  lemma TheFirst(first: Tuple, n: nat, k: nat)
    requires Combination(first, n, k) && forall j :: 0 <= j < k ==> first[j] == j
    ensures UpTo([first], first, n, k)
  {
    forall c | Combination(c, n, k) && (c == first || Less(c, first)) ensures c in [first] {
      forall j | 0 <= j < k ensures first[j] <= c[j] { EntryBounds(c, n, k, j); }
      LessOrEqual(first, c);
      if Less(c, first) { LessIrreflexive(c, first); }
    }
  }

  lemma TheLast(ts: seq<Tuple>, last: Tuple, n: nat, k: nat)
    requires UpTo(ts, last, n, k) && forall j :: 0 <= j < k ==> last[j] == n - k + j
    ensures Enumerates(ts, n, k)
  {
    forall c | Combination(c, n, k) ensures c in ts {
      forall j | 0 <= j < k ensures c[j] <= last[j] { EntryBounds(c, n, k, j); }
      LessOrEqual(c, last);
    }
  }

  /** `combinations`: from the smallest combination to the greatest. */
  method Combinations<T>(src: seq<T>, k0: int) returns (out: seq<seq<T>>, ghost tuples: seq<Tuple>)
    ensures k0 < 0 || k0 > |src| ==> out == []
    ensures 0 <= k0 <= |src| ==> Selected(out, src, tuples) && Enumerates(tuples, |src|, k0)
  {
    out, tuples := [], [];
    var n := |src|;
    if k0 < 0 || k0 > n { return; }
    var k: nat := k0;
    hide UpTo, Enumerates, Selected, Combination, Follows, Rank, Power, DiffersAt;
    var idx := Smallest(k, n);
    Begun(src);
    while true
      invariant |idx| == k && Combination(idx, n, k)
      invariant Selected(out, src, tuples) && UpTo(tuples + [idx], idx, n, k)
      decreases Power(n + 1, k) - Rank(idx, n + 1)
    {
      SelectedMore(out, src, tuples, idx);
      out := out + [Select(src, idx)];
      tuples := tuples + [idx];
      var i := LastThatCanGrow(idx, n, k);
      if i < 0 {
        TheLast(tuples, idx, n, k);
        return;
      }
      var next := Advance(idx, i, n, k);
      Progress(idx, next, n, k, i);
      OneMore(tuples, idx, next, n, k, i);
      idx := next;
    }
  }

  method Smallest(k: nat, n: nat) returns (idx: Tuple)
    requires k <= n
    ensures Combination(idx, n, k) && UpTo([] + [idx], idx, n, k)
  {
    idx := [];
    for i := 0 to k
      invariant |idx| == i && forall j :: 0 <= j < i ==> idx[j] == j
    {
      idx := idx + [i];
    }
    TheFirst(idx, n, k);
    assert [] + [idx] == [idx];
  }

  method LastThatCanGrow(idx: Tuple, n: nat, k: nat) returns (i: int)
    requires Combination(idx, n, k) && k <= n
    ensures -1 <= i < k && forall j :: i < j < k ==> idx[j] == n - k + j
    ensures i >= 0 ==> idx[i] < n - k + i
  {
    i := k - 1;
    while i >= 0 && idx[i] == n - k + i
      invariant -1 <= i < k && forall j :: i < j < k ==> idx[j] == n - k + j
    {
      i := i - 1;
    }
    if i >= 0 { EntryBounds(idx, n, k, i); }
  }

  lemma Begun<T>(src: seq<T>)
    ensures Selected([], src, [])
  {
  }

  lemma SelectedMore<T>(out: seq<seq<T>>, src: seq<T>, ts: seq<Tuple>, c: Tuple)
    requires Selected(out, src, ts) && Combination(c, |src|, |c|)
    ensures (forall i :: 0 <= i < |c| ==> c[i] < |src|) && Selected(out + [Select(src, c)], src, ts + [c])
  {
  }

  lemma Progress(a: Tuple, b: Tuple, n: nat, k: nat, p: nat)
    requires Follows(b, a, n, k, p)
    ensures Combination(b, n, k) && |b| == k && Rank(a, n + 1) < Rank(b, n + 1) < Power(n + 1, k)
  {
    hide Rank, Power;
    assert a[..p] == b[..p];
    RankGrows(a, b, n + 1, p);
    RankBound(b, n + 1);
  }

  /** Entry `p` grows by one, the entries behind it follow. */
  method Advance(idx: Tuple, p: nat, n: nat, k: nat) returns (next: Tuple)
    requires Combination(idx, n, k) && p < k && idx[p] < n - k + p && forall j :: p < j < k ==> idx[j] == n - k + j
    ensures Follows(next, idx, n, k, p)
  {
    next := idx[p := idx[p] + 1];
    var j := p + 1;
    while j < k
      invariant p < j <= k && |next| == k
      invariant (forall x :: 0 <= x < p ==> next[x] == idx[x])
          && forall x :: p <= x < j ==> next[x] == idx[p] + 1 + (x - p)
    {
      next := next[j := next[j - 1] + 1];
      j := j + 1;
    }
  }

  // ---------------------------------------------------------------- permutations

  predicate Extends(c: Tuple, prefix: Tuple) { |c| >= |prefix| && c[..|prefix|] == prefix }

  /** All permutations that begin with `prefix` and go on with an entry below `bound`. */
  ghost predicate Lists(ts: seq<Tuple>, prefix: Tuple, bound: nat, n: nat, k: nat) {
    && (forall j :: 0 <= j < |ts| ==>
        Permutation(ts[j], n, k) && Extends(ts[j], prefix) && |ts[j]| > |prefix| && ts[j][|prefix|] < bound)
    && Ascending(ts)
    && forall c :: Permutation(c, n, k) && Extends(c, prefix) && |c| > |prefix| && c[|prefix|] < bound ==> c in ts
  }

  /** All permutations that begin with `prefix`. */
  ghost predicate ListsAll(ts: seq<Tuple>, prefix: Tuple, n: nat, k: nat) {
    && (forall j :: 0 <= j < |ts| ==> Permutation(ts[j], n, k) && Extends(ts[j], prefix))
    && Ascending(ts) && forall c :: Permutation(c, n, k) && Extends(c, prefix) ==> c in ts
  }

  lemma AppendGroup(ts: seq<Tuple>, us: seq<Tuple>, prefix: Tuple, i: nat, n: nat, k: nat)
    requires Lists(ts, prefix, i, n, k) && ListsAll(us, prefix + [i], n, k)
    ensures Lists(ts + us, prefix, i + 1, n, k)
  {
    hide Extends, Permutation, Less;
    var m := |prefix|;
    var vs := ts + us;
    forall j | 0 <= j < |us| ensures Extends(us[j], prefix) && |us[j]| > m && us[j][m] == i {
      GroupOf(us[j], prefix, i);
    }
    GroupsInOrder(ts, us, prefix, i);
    forall c | Permutation(c, n, k) && Extends(c, prefix) && |c| > m && c[m] < i + 1 ensures c in vs {
      if c[m] == i {
        InGroup(c, prefix, i);
        assert c in us;
      } else {
        assert c in ts;
      }
    }
  }

  lemma GroupsInOrder(ts: seq<Tuple>, us: seq<Tuple>, prefix: Tuple, i: nat)
    requires Ascending(ts) && Ascending(us)
    requires forall j :: 0 <= j < |ts| ==> Extends(ts[j], prefix) && |ts[j]| > |prefix| && ts[j][|prefix|] < i
    requires forall j :: 0 <= j < |us| ==> Extends(us[j], prefix) && |us[j]| > |prefix| && us[j][|prefix|] == i
    ensures Ascending(ts + us)
  {
    hide Less;
    var vs := ts + us;
    forall x, y | 0 <= x < y < |vs| ensures Less(vs[x], vs[y]) {
      if x < |ts| <= y {
        LaterGroup(vs[x], vs[y], prefix);
      } else if x >= |ts| {
        assert vs[x] == us[x - |ts|] && vs[y] == us[y - |ts|];
      }
    }
  }

  lemma LaterGroup(a: Tuple, b: Tuple, prefix: Tuple)
    requires Extends(a, prefix) && Extends(b, prefix) && |a| > |prefix| && |b| > |prefix| && a[|prefix|] < b[|prefix|]
    ensures Less(a, b)
  {
    assert DiffersAt(a, b, |prefix|);
  }

  lemma InGroup(c: Tuple, prefix: Tuple, i: nat)
    requires Extends(c, prefix) && |c| > |prefix| && c[|prefix|] == i
    ensures Extends(c, prefix + [i])
  {
    assert c[..|prefix| + 1] == prefix + [i];
  }

  lemma GroupOf(c: Tuple, prefix: Tuple, i: nat)
    requires Extends(c, prefix + [i])
    ensures Extends(c, prefix) && |c| > |prefix| && c[|prefix|] == i
  {
    var m := |prefix|;
    assert c[..m + 1][..m] == c[..m] && (prefix + [i])[..m] == prefix && c[..m + 1][m] == i;
  }

  /** A used entry begins no permutation. */
  lemma SkipUsed(ts: seq<Tuple>, prefix: Tuple, i: nat, n: nat, k: nat)
    requires Lists(ts, prefix, i, n, k) && i in prefix
    ensures Lists(ts, prefix, i + 1, n, k)
  {
    var m := |prefix|;
    var x :| 0 <= x < m && prefix[x] == i;
    forall c | Permutation(c, n, k) && Extends(c, prefix) && |c| > m && c[m] < i + 1 ensures c in ts {
      assert c[x] == c[..m][x] == i;
      assert c[m] != c[x];
    }
  }

  lemma GroupComplete(ts: seq<Tuple>, prefix: Tuple, n: nat, k: nat)
    requires Lists(ts, prefix, n, n, k) && |prefix| < k
    ensures ListsAll(ts, prefix, n, k)
  {
  }

  lemma OnlyItself(prefix: Tuple, n: nat, k: nat)
    requires Permutation(prefix, n, k)
    ensures ListsAll([prefix], prefix, n, k)
  {
    assert prefix[..k] == prefix;
    forall c | Permutation(c, n, k) && Extends(c, prefix) ensures c in [prefix] { assert c[..k] == c; }
  }

  lemma NoneYet(prefix: Tuple, n: nat, k: nat)
    ensures Lists([], prefix, 0, n, k)
  {
  }

  // ---------------------------------------------------------------- how many permutations

  const MAX_RESULTS := 1000000

  /** How many permutations of `r` out of `m` there are. */
  function Falling(m: nat, r: nat): nat
    requires r <= m
  {
    if r == 0 then 1 else m * Falling(m - 1, r - 1)
  }

  lemma {:induction false} FallingLast(m: nat, r: nat)
    requires r < m
    ensures Falling(m, r + 1) == Falling(m, r) * (m - r)
  {
    if r > 0 {
      FallingLast(m - 1, r - 1);
      Reordered(m, Falling(m - 1, r - 1), m - r);
    }
  }

  lemma Reordered(a: int, b: int, c: int)
    ensures a * (b * c) == a * b * c
  {
  }

  /** How many of the first `i` indices are not in use. */
  function Unused(used: seq<bool>, i: nat): nat
    requires i <= |used|
  {
    if i == 0 then 0 else Unused(used, i - 1) + if used[i - 1] then 0 else 1
  }

  lemma {:induction false} UnusedSet(used: seq<bool>, x: nat, i: nat)
    requires x < |used| && !used[x] && i <= |used|
    ensures Unused(used[x := true], i) == Unused(used, i) - if x < i then 1 else 0
  {
    if i > 0 { UnusedSet(used, x, i - 1); }
  }

  lemma {:induction false} AllUnused(used: seq<bool>, i: nat)
    requires i <= |used| && forall j :: 0 <= j < |used| ==> !used[j]
    ensures Unused(used, i) == i
  {
    if i > 0 { AllUnused(used, i - 1); }
  }

  lemma NoneUnused(used: seq<bool>)
    ensures Unused(used, 0) == 0
  {
  }

  lemma OneMoreIndex(used: seq<bool>, i: nat, each: nat)
    requires i < |used|
    ensures Unused(used, i + 1) * each == Unused(used, i) * each + if used[i] then 0 else each
  {
    if !used[i] { assert (Unused(used, i) + 1) * each == Unused(used, i) * each + each; }
  }

  /** The generator: a prefix, which indices are in it, and the output. */
  class Generator<T> {
    const src: seq<T>
    const k: nat
    var cur: Tuple
    var used: seq<bool>
    var out: seq<seq<T>>
    ghost var tuples: seq<Tuple>

    ghost predicate Valid()
      reads this
    {
      && |used| == |src| && Permutation(cur, |src|, |cur|) && |cur| <= k <= |src|
      && (forall i :: 0 <= i < |used| ==> (used[i] <==> i in cur)) && Unused(used, |used|) == |src| - |cur|
      && Selected(out, src, tuples)
    }

    constructor (source: seq<T>, count: nat)
      requires count <= |source|
      ensures Valid() && src == source && k == count && cur == [] && out == [] && tuples == []
    {
      src, k := source, count;
      cur, used, out := [], seq(|source|, i => false), [];
      tuples := [];
      new;
      AllUnused(used, |used|);
    }

    /** Puts out all permutations that begin with the current prefix. */
    method Gen() returns (ghost added: seq<Tuple>)
      requires Valid()
      modifies this
      ensures Valid() && cur == old(cur) && tuples == old(tuples) + added
      ensures used == old(used) && ListsAll(added, cur, |src|, k)
      ensures |added| == Falling(|src| - |cur|, k - |cur|)
      decreases k - |cur|, 1
    {
      hide Lists, ListsAll, Permutation, Selected, Unused;
      added := [];
      ghost var n, prefix, before, marks := |src|, cur, tuples, used;
      if |cur| == k {
        Put();
        added := [cur];
        OnlyItself(cur, n, k);
        return;
      }
      NoneYet(prefix, n, k);
      NoneUnused(used);
      ghost var each := Falling(n - |cur| - 1, k - |cur| - 1);
      var i := 0;
      while i < |src|
        invariant 0 <= i <= n && Valid() && cur == prefix && used == marks && tuples == before + added
        invariant Lists(added, prefix, i, n, k) && |added| == Unused(used, i) * each
      {
        OneMoreIndex(used, i, each);
        if used[i] {
          SkipUsed(added, prefix, i, n, k);
          i := i + 1;
          continue;
        }
        ghost var more := GenFrom(i);
        AppendGroup(added, more, prefix, i, n, k);
        assert before + added + more == before + (added + more);
        added := added + more;
        i := i + 1;
      }
      GroupComplete(added, prefix, n, k);
    }

    method Put()
      requires Valid() && |cur| == k
      modifies this
      ensures Valid() && cur == old(cur) && used == old(used) && tuples == old(tuples) + [cur]
    {
      out := out + [Select(src, cur)];
      tuples := tuples + [cur];
    }

    /** One branch: an unused index, and what follows it. */
    method GenFrom(i: nat) returns (ghost more: seq<Tuple>)
      requires Valid() && |cur| < k && i < |src| && !used[i]
      modifies this
      ensures Valid() && cur == old(cur) && tuples == old(tuples) + more
      ensures used == old(used) && ListsAll(more, cur + [i], |src|, k)
      ensures |more| == Falling(|src| - |cur| - 1, k - |cur| - 1)
      decreases k - |cur|, 0
    {
      hide Lists, ListsAll, Selected, Unused;
      ghost var prefix, marks := cur, used;
      UnusedSet(used, i, |used|);
      used := used[i := true];
      cur := cur + [i];
      more := Gen();
      assert cur[..|cur| - 1] == prefix;
      cur := cur[..|cur| - 1];
      used := used[i := false];
      assert used == marks;
    }
  }

  /** `permutations`: an error if there are more than a million. */
  method Permutations<T>(src: seq<T>, k: int) returns (r: Option<seq<seq<T>>>, ghost tuples: seq<Tuple>)
    ensures k < 0 || k > |src| ==> r == Some([])
    ensures 0 <= k <= |src| ==> (r.None? <==> Falling(|src|, k) > MAX_RESULTS)
    ensures 0 <= k <= |src| && r.Some? ==>
      && Selected(r.value, src, tuples) && Ascending(tuples) && |tuples| == Falling(|src|, k)
      && forall c :: c in tuples <==> Permutation(c, |src|, k)
  {
    tuples := [];
    if k < 0 || k > |src| { return Some([]), tuples; }
    var count := 1;
    for i := 0 to k
      invariant count == Falling(|src|, i)
    {
      FallingLast(|src|, i);
      count := count * (|src| - i);
    }
    if count > MAX_RESULTS { return None, tuples; }
    var g := new Generator(src, k);
    ghost var added := g.Gen();
    r, tuples := Some(g.out), g.tuples;
    assert [] + added == added;
    forall c ensures c in tuples <==> Permutation(c, |src|, k) {
      if Permutation(c, |src|, k) { assert Extends(c, []); }
    }
  }
}
