/** The order permutation of the TPC-C loader (common/workload/tpcc_wl.cpp): every shuffle is one full cycle. */
module Permutation {

  // ---------------------------------------------------------------- random choices

  /** `draw` is what lrand48_r returned. */
  function Rand(max: nat, draw: nat): (r: nat)
    requires max > 0
    ensures r < max && draw == max * (draw / max) + r
  {
    draw % max
  }

  /** A number of x..y, and each of them for some draw. */
  function URand(x: nat, y: nat, draw: nat): (r: nat)
    requires x <= y
    ensures x <= r <= y
    ensures draw <= y - x ==> r == x + draw
    ensures var n := y - x + 1; draw == n * (draw / n) + (r - x)
  {
    x + Rand(y - x + 1, draw)
  }

  // ---------------------------------------------------------------- the shuffle as a function

  /** Customer numbers 1..n in order. */
  function Consecutive(n: nat): (p: seq<nat>) {
    seq(n, i => i + 1)
  }

  function Swap(p: seq<nat>, i: nat, j: nat): (r: seq<nat>)
    requires i < |p| && j < |p|
    ensures |r| == |p| && r[i] == p[j] && r[j] == p[i]
    ensures forall k :: 0 <= k < |p| && k != i && k != j ==> r[k] == p[k]
  {
    p[i := p[j]][j := p[i]]
  }

  /** js[i] is the index that place i is swapped with, always a later one. */
  ghost predicate Choices(js: seq<nat>, n: nat) {
    |js| + 1 >= n && forall i :: 0 <= i < n - 1 ==> i < js[i] < n
  }

  function Shuffle(p: seq<nat>, i: nat, js: seq<nat>): (r: seq<nat>)
    requires Choices(js, |p|)
    ensures |r| == |p|
    decreases |p| - i
  {
    if i + 1 >= |p| then p else Shuffle(Swap(p, i, js[i]), i + 1, js)
  }

  // ---------------------------------------------------------------- cycles

  /** The walk x -> p[x] - 1 goes round `c`. */
  ghost predicate IsCycle(p: seq<nat>, c: seq<nat>) {
    forall k :: 0 <= k < |c| ==> c[k] < |p| && p[c[k]] == After(c, k) + 1
  }

  ghost function After(c: seq<nat>, k: nat): nat
    requires k < |c|
  {
    if k + 1 < |c| then c[k + 1] else c[0]
  }

  ghost function Indices(n: nat): multiset<nat> {
    multiset(seq(n, i => i))
  }

  /** One cycle through every index. */
  ghost predicate OneCycle(p: seq<nat>, c: seq<nat>) {
    IsCycle(p, c) && multiset(c) == Indices(|p|)
  }

  /** How often x is met in the cycles from i on. */
  ghost function Met(cyc: seq<seq<nat>>, i: nat, x: nat): nat
    decreases |cyc| - i
  {
    if i >= |cyc| then 0 else multiset(cyc[i])[x] + Met(cyc, i + 1, x)
  }

  /** The cycle through r >= i meets no other index >= i. */
  ghost predicate Rooted(p: seq<nat>, c: seq<nat>, r: nat, i: nat) {
    && |c| > 0 && c[0] == r && IsCycle(p, c)
    && forall k :: 0 < k < |c| ==> c[k] < i
  }

  ghost predicate EachOnce(cyc: seq<seq<nat>>, i: nat, n: nat) {
    forall x: nat :: Met(cyc, i, x) == if x < n then 1 else 0
  }

  /** Before round i the permutation falls into |p| - i cycles, each with one index that is still to come. */
  ghost predicate Stage(p: seq<nat>, cyc: seq<seq<nat>>, i: nat) {
    && |cyc| == |p| && i < |p| && EachOnce(cyc, i, |p|)
    && forall r :: i <= r < |p| ==> Rooted(p, cyc[r], r, i)
  }

  lemma {:induction false} IndicesOnce(n: nat, x: nat)
    ensures Indices(n)[x] == if x < n then 1 else 0
  {
    if n > 0 {
      IndicesOnce(n - 1, x);
      assert seq(n, i => i) == seq(n - 1, i => i) + [n - 1];
    }
  }

  lemma {:induction false} MetElsewhere(cyc: seq<seq<nat>>, i: nat, j: nat, c: seq<nat>, x: nat)
    requires j < |cyc| && j < i
    ensures Met(cyc[j := c], i, x) == Met(cyc, i, x)
    decreases |cyc| - i
  {
    if i < |cyc| {
      MetElsewhere(cyc, i + 1, j, c, x);
    }
  }

  lemma {:induction false} MetUpdate(cyc: seq<seq<nat>>, i: nat, j: nat, c: seq<nat>, x: nat)
    requires i <= j < |cyc|
    ensures Met(cyc[j := c], i, x) + multiset(cyc[j])[x] == Met(cyc, i, x) + multiset(c)[x]
    decreases j - i
  {
    if i == j {
      MetElsewhere(cyc, i + 1, j, c, x);
    } else {
      MetUpdate(cyc, i + 1, j, c, x);
    }
  }

  // ---------------------------------------------------------------- one round joins two cycles

  ghost function Join(a: seq<nat>, b: seq<nat>): (c: seq<nat>)
    requires |a| > 0 && |b| > 0
    ensures |c| == |a| + |b| && multiset(c) == multiset(a) + multiset(b)
  {
    var c := [b[0]] + a[1..] + [a[0]] + b[1..];
    assert a == [a[0]] + a[1..] && b == [b[0]] + b[1..];
    c
  }

  // Each element of the joined cycle, by where it comes from.
  lemma JoinAt(a: seq<nat>, b: seq<nat>, k: nat)
    requires |a| > 0 && |b| > 0 && k < |a| + |b|
    ensures var c := Join(a, b);
            if k == 0 then c[k] == b[0] && After(c, k) == After(a, 0)
            else if k < |a| then c[k] == a[k] && After(c, k) == After(a, k)
            else if k == |a| then c[k] == a[0] && After(c, k) == After(b, 0)
            else c[k] == b[k - |a|] && After(c, k) == After(b, k - |a|)
  {
  }

  lemma JoinIsCycle(p: seq<nat>, i: nat, j: nat, a: seq<nat>, b: seq<nat>)
    requires i < j < |p| && Rooted(p, a, i, i) && Rooted(p, b, j, i)
    ensures Rooted(Swap(p, i, j), Join(a, b), j, i + 1)
  {
    var c, q := Join(a, b), Swap(p, i, j);
    forall k | 0 <= k < |c| ensures c[k] < |q| && q[c[k]] == After(c, k) + 1 && (k > 0 ==> c[k] < i + 1) {
      JoinAt(a, b, k);
      var x, at := if k == 0 || k > |a| then b else a, if k == 0 || k == |a| then 0 else if k < |a| then k else k - |a|;
      if k == 0 {
        assert p[a[0]] == After(a, 0) + 1;
      } else if k == |a| {
        assert p[b[0]] == After(b, 0) + 1;
      } else {
        assert p[x[at]] == After(x, at) + 1;
      }
    }
    JoinAt(a, b, 0);
  }

  lemma OthersStay(p: seq<nat>, i: nat, j: nat, c: seq<nat>, r: nat)
    requires i < j < |p| && i < r && r != j && Rooted(p, c, r, i)
    ensures Rooted(Swap(p, i, j), c, r, i + 1)
  {
    forall k | 0 <= k < |c| ensures c[k] < |p| && Swap(p, i, j)[c[k]] == After(c, k) + 1 {
      assert c[k] != i && c[k] != j;
    }
  }

  lemma JoinMeets(cyc: seq<seq<nat>>, i: nat, j: nat, n: nat)
    requires i < j < |cyc| && |cyc[i]| > 0 && |cyc[j]| > 0
    ensures EachOnce(cyc[j := Join(cyc[i], cyc[j])], i + 1, n) <==> EachOnce(cyc, i, n)
  {
    var joined := cyc[j := Join(cyc[i], cyc[j])];
    forall x: nat ensures Met(joined, i + 1, x) == Met(cyc, i, x) {
      MetUpdate(cyc, i + 1, j, Join(cyc[i], cyc[j]), x);
    }
    SameMeets(cyc, i, joined, i + 1, n);
    SameMeets(joined, i + 1, cyc, i, n);
  }

  lemma SameMeets(a: seq<seq<nat>>, i: nat, b: seq<seq<nat>>, j: nat, n: nat)
    requires forall x: nat :: Met(a, i, x) == Met(b, j, x)
    ensures EachOnce(a, i, n) ==> EachOnce(b, j, n)
  {
  }

  lemma RoundJoins(p: seq<nat>, cyc: seq<seq<nat>>, i: nat, j: nat)
    requires Stage(p, cyc, i) && i < j < |p|
    ensures Stage(Swap(p, i, j), cyc[j := Join(cyc[i], cyc[j])], i + 1)
  {
    JoinIsCycle(p, i, j, cyc[i], cyc[j]);
    forall r | i < r < |p| && r != j ensures Rooted(Swap(p, i, j), cyc[r], r, i + 1) {
      OthersStay(p, i, j, cyc[r], r);
    }
    JoinMeets(cyc, i, j, |p|);
  }

  // ---------------------------------------------------------------- whole shuffles

  lemma StartsApart(n: nat)
    requires n > 0
    ensures Stage(Consecutive(n), seq(n, r => [r]), 0)
  {
    var cyc := seq(n, r => [r]);
    forall x: nat ensures Met(cyc, 0, x) == if x < n then 1 else 0 {
      SingletonsMet(n, 0, x);
    }
  }

  lemma {:induction false} SingletonsMet(n: nat, i: nat, x: nat)
    requires i <= n
    ensures Met(seq(n, r => [r]), i, x) == if i <= x < n then 1 else 0
    decreases n - i
  {
    if i < n {
      SingletonsMet(n, i + 1, x);
    }
  }

  lemma {:induction false} ShuffleJoins(p: seq<nat>, cyc: seq<seq<nat>>, i: nat, js: seq<nat>) returns (c: seq<nat>)
    requires Stage(p, cyc, i) && Choices(js, |p|)
    ensures OneCycle(Shuffle(p, i, js), c)
    decreases |p| - i
  {
    if i + 1 < |p| {
      RoundJoins(p, cyc, i, js[i]);
      c := ShuffleJoins(Swap(p, i, js[i]), cyc[js[i] := Join(cyc[i], cyc[js[i]])], i + 1, js);
    } else {
      LastStage(p, cyc);
      c := cyc[|p| - 1];
    }
  }

  lemma LastStage(p: seq<nat>, cyc: seq<seq<nat>>)
    requires |p| > 0 && Stage(p, cyc, |p| - 1)
    ensures OneCycle(p, cyc[|p| - 1])
  {
    var c := cyc[|p| - 1];
    assert Rooted(p, c, |p| - 1, |p| - 1);
    forall x: nat ensures multiset(c)[x] == Indices(|p|)[x] {
      assert Met(cyc, |p| - 1, x) == multiset(c)[x];
      IndicesOnce(|p|, x);
    }
  }

  lemma {:induction false} ShufflePermutes(p: seq<nat>, i: nat, js: seq<nat>)
    requires Choices(js, |p|)
    ensures multiset(Shuffle(p, i, js)) == multiset(p)
    decreases |p| - i
  {
    if i + 1 < |p| {
      ShufflePermutes(Swap(p, i, js[i]), i + 1, js);
    }
  }

  lemma CountTwice(c: seq<nat>, a: nat, b: nat)
    requires a < b < |c| && c[a] == c[b]
    ensures multiset(c)[c[a]] >= 2
  {
    assert c == c[..a] + [c[a]] + c[a + 1..b] + [c[b]] + c[b + 1..];
  }

  lemma CycleDistinct(p: seq<nat>, c: seq<nat>, a: nat, b: nat)
    requires OneCycle(p, c) && a < |c| && b < |c| && c[a] == c[b]
    ensures a == b
  {
    IndicesOnce(|p|, c[a]);
    if a < b {
      CountTwice(c, a, b);
    } else if b < a {
      CountTwice(c, b, a);
    }
  }

  lemma CycleFinds(p: seq<nat>, c: seq<nat>, x: nat) returns (k: nat)
    requires OneCycle(p, c) && x < |p|
    ensures k < |c| && c[k] == x
  {
    IndicesOnce(|p|, x);
    assert x in multiset(c) && x in c;
    k :| 0 <= k < |c| && c[k] == x;
  }

  lemma CycleLength(p: seq<nat>, c: seq<nat>)
    requires OneCycle(p, c)
    ensures |c| == |p|
  {
    assert |multiset(c)| == |c| && |Indices(|p|)| == |p|;
  }

  /** No place keeps its own number. */
  lemma NoFixedPoint(p: seq<nat>, c: seq<nat>, x: nat)
    requires OneCycle(p, c) && x < |p| && |p| >= 2
    ensures p[x] != x + 1
  {
    CycleLength(p, c);
    var k := CycleFinds(p, c, x);
    if p[x] == x + 1 {
      CycleDistinct(p, c, k, if k + 1 < |c| then k + 1 else 0);
    }
  }

  /** For every size and every sequence of choices: a permutation of 1..n that is one cycle, so nothing stays put. */
  lemma ShuffleIsOneCycle(n: nat, js: seq<nat>)
    requires n > 0 && Choices(js, n)
    ensures var p := Shuffle(Consecutive(n), 0, js);
            && multiset(p) == multiset(Consecutive(n))
            && (exists c :: OneCycle(p, c))
            && (n >= 2 ==> forall x :: 0 <= x < n ==> p[x] != x + 1)
  {
    StartsApart(n);
    ShufflePermutes(Consecutive(n), 0, js);
    var c := ShuffleJoins(Consecutive(n), seq(n, r => [r]), 0, js);
    if n >= 2 {
      forall x | 0 <= x < n ensures Shuffle(Consecutive(n), 0, js)[x] != x + 1 {
        NoFixedPoint(Shuffle(Consecutive(n), 0, js), c, x);
      }
    }
  }

  // ---------------------------------------------------------------- every cycle is some shuffle

  lemma {:induction false} FindMet(cyc: seq<seq<nat>>, i: nat, x: nat) returns (r: nat, k: nat)
    requires Met(cyc, i, x) > 0
    ensures i <= r < |cyc| && k < |cyc[r]| && cyc[r][k] == x
    decreases |cyc| - i
  {
    if x in cyc[i] {
      r := i;
      k :| 0 <= k < |cyc[i]| && cyc[i][k] == x;
    } else {
      r, k := FindMet(cyc, i + 1, x);
    }
  }

  lemma {:induction false} MetAtLeast(cyc: seq<seq<nat>>, i: nat, r: nat, x: nat)
    requires i <= r < |cyc|
    ensures multiset(cyc[r])[x] <= Met(cyc, i, x)
    decreases r - i
  {
    if i < r {
      MetAtLeast(cyc, i + 1, r, x);
    }
  }

  lemma MetOnce(cyc: seq<seq<nat>>, i: nat, r: nat, k: nat, q: nat, m: nat)
    requires i <= r < |cyc| && i <= q < |cyc| && k < |cyc[r]| && m < |cyc[q]|
    requires cyc[r][k] == cyc[q][m] && Met(cyc, i, cyc[r][k]) == 1
    ensures r == q && k == m
  {
    var x := cyc[r][k];
    if r != q {
      MetUpdate(cyc, i, r, [], x);
      MetAtLeast(cyc[r := []], i, q, x);
    } else if k != m {
      MetAtLeast(cyc, i, r, x);
      CountTwice(cyc[r], if k < m then k else m, if k < m then m else k);
    }
  }

  /** Swapping i and j cuts a cycle that meets both: the part from i on up to j, and the rest. */
  ghost predicate Cuttable(q: seq<nat>, i: nat, j: nat, c: seq<nat>, k: nat) {
    && i < j < |q| && Rooted(q, c, j, i + 1) && 0 < k < |c| && c[k] == i
    && forall m :: 0 < m < |c| && m != k ==> c[m] != i
  }

  lemma FrontAt(c: seq<nat>, k: nat, m: nat)
    requires 0 < k < |c| && m < k
    ensures var a := [c[k]] + c[1..k];
            (m > 0 ==> a[m] == c[m]) && After(a, m) == After(c, m)
  {
  }

  lemma CutFront(q: seq<nat>, i: nat, j: nat, c: seq<nat>, k: nat)
    requires Cuttable(q, i, j, c, k)
    ensures Rooted(Swap(q, i, j), [i] + c[1..k], i, i)
  {
    var p, a := Swap(q, i, j), [i] + c[1..k];
    forall m | 0 <= m < |a| ensures a[m] < |p| && p[a[m]] == After(a, m) + 1 {
      assert q[c[m]] == After(c, m) + 1;
      FrontAt(c, k, m);
    }
    forall m | 0 < m < |a| ensures a[m] < i {
      FrontAt(c, k, m);
    }
  }

  lemma CutBack(q: seq<nat>, i: nat, j: nat, c: seq<nat>, k: nat)
    requires Cuttable(q, i, j, c, k)
    ensures Rooted(Swap(q, i, j), [j] + c[k + 1..], j, i)
  {
    var p, b := Swap(q, i, j), [j] + c[k + 1..];
    forall m | 0 <= m < |b| ensures b[m] < |p| && p[b[m]] == After(b, m) + 1 {
      assert q[c[k + m]] == After(c, k + m) + 1;
      assert m > 0 ==> b[m] == c[k + m];
    }
  }

  lemma CutJoins(c: seq<nat>, k: nat)
    requires 0 < k < |c|
    ensures Join([c[k]] + c[1..k], [c[0]] + c[k + 1..]) == c
  {
    var a, b := [c[k]] + c[1..k], [c[0]] + c[k + 1..];
    assert a[1..] == c[1..k] && b[1..] == c[k + 1..];
  }

  lemma OthersBack(q: seq<nat>, i: nat, j: nat, c: seq<nat>, r: nat)
    requires i < j < |q| && i < r && r != j && Rooted(q, c, r, i + 1) && i !in c
    ensures Rooted(Swap(q, i, j), c, r, i)
  {
    forall k | 0 <= k < |c| ensures c[k] < |q| && Swap(q, i, j)[c[k]] == After(c, k) + 1 {
      assert c[k] != i && c[k] != j;
    }
  }

  lemma CutMeets(cyc: seq<seq<nat>>, i: nat, j: nat, k: nat, n: nat)
    requires i < j < |cyc| && 0 < k < |cyc[j]| && EachOnce(cyc, i + 1, n)
    ensures EachOnce(cyc[i := [cyc[j][k]] + cyc[j][1..k]][j := [cyc[j][0]] + cyc[j][k + 1..]], i, n)
  {
    var c := cyc[j];
    var cut := cyc[i := [c[k]] + c[1..k]][j := [c[0]] + c[k + 1..]];
    CutJoins(c, k);
    JoinMeets(cut, i, j, n);
    var joined := cut[j := c];
    assert joined == cyc[i := cut[i]];
    var next := i + 1;
    forall x: nat ensures Met(cyc, next, x) == Met(joined, next, x) {
      MetElsewhere(cyc, next, i, cut[i], x);
    }
    SameMeets(cyc, next, joined, next, n);
  }

  lemma WhereToCut(q: seq<nat>, cyc: seq<seq<nat>>, i: nat) returns (j: nat, k: nat)
    requires Stage(q, cyc, i + 1)
    ensures i < j < |q| && Cuttable(q, i, j, cyc[j], k)
    ensures forall r :: i < r < |q| && r != j ==> i !in cyc[r]
  {
    assert Met(cyc, i + 1, i) == 1;
    j, k := FindMet(cyc, i + 1, i);
    assert Rooted(q, cyc[j], j, i + 1);
    forall m | 0 < m < |cyc[j]| && m != k ensures cyc[j][m] != i {
      if cyc[j][m] == i { MetOnce(cyc, i + 1, j, k, j, m); }
    }
    forall r | i < r < |q| && r != j ensures i !in cyc[r] {
      NotIn(cyc, i + 1, r, j, k);
    }
  }

  /** Every later stage comes from an earlier one by a legal choice. */
  lemma RoundUndone(q: seq<nat>, cyc: seq<seq<nat>>, i: nat) returns (j: nat, cut: seq<seq<nat>>)
    requires Stage(q, cyc, i + 1)
    ensures i < j < |q| && Stage(Swap(q, i, j), cut, i)
  {
    var k;
    j, k := WhereToCut(q, cyc, i);
    var c, p := cyc[j], Swap(q, i, j);
    CutFront(q, i, j, c, k);
    CutBack(q, i, j, c, k);
    cut := cyc[i := [c[k]] + c[1..k]][j := [c[0]] + c[k + 1..]];
    CutMeets(cyc, i, j, k, |q|);
    forall r | i <= r < |q| ensures Rooted(p, cut[r], r, i) {
      if r != i && r != j {
        assert Rooted(q, cyc[r], r, i + 1);
        OthersBack(q, i, j, cyc[r], r);
      }
    }
  }

  lemma NotIn(cyc: seq<seq<nat>>, i: nat, r: nat, j: nat, k: nat)
    requires i <= r < |cyc| && i <= j < |cyc| && r != j && k < |cyc[j]| && Met(cyc, i, cyc[j][k]) == 1
    ensures cyc[j][k] !in cyc[r]
  {
    if m :| 0 <= m < |cyc[r]| && cyc[r][m] == cyc[j][k] {
      MetOnce(cyc, i, r, m, j, k);
    }
  }

  lemma FirstStage(p: seq<nat>, cyc: seq<seq<nat>>)
    requires Stage(p, cyc, 0)
    ensures p == Consecutive(|p|)
  {
    forall r | 0 <= r < |p| ensures p[r] == r + 1 {
      assert Rooted(p, cyc[r], r, 0);
      assert |cyc[r]| == 1;
      assert After(cyc[r], 0) == r;
    }
  }

  lemma {:induction false} ShuffleReads(p: seq<nat>, i: nat, js: seq<nat>, ks: seq<nat>)
    requires Choices(js, |p|) && Choices(ks, |p|) && (forall m :: i <= m < |p| - 1 ==> js[m] == ks[m])
    ensures Shuffle(p, i, js) == Shuffle(p, i, ks)
    decreases |p| - i
  {
    if i + 1 < |p| {
      ShuffleReads(Swap(p, i, js[i]), i + 1, js, ks);
    }
  }

  lemma {:induction false} Unwind(q: seq<nat>, cyc: seq<seq<nat>>, i: nat, js: seq<nat>) returns (ks: seq<nat>)
    requires Stage(q, cyc, i) && Choices(js, |q|)
    ensures Choices(ks, |q|) && Shuffle(Consecutive(|q|), 0, ks) == Shuffle(q, i, js)
    decreases i
  {
    if i == 0 {
      FirstStage(q, cyc);
      ks := js;
    } else {
      var j, cut := RoundUndone(q, cyc, i - 1);
      var p := Swap(q, i - 1, j);
      assert Swap(p, i - 1, j) == q;
      ShuffleReads(q, i, js, js[i - 1 := j]);
      ks := Unwind(p, cut, i - 1, js[i - 1 := j]);
    }
  }

  /** The cycle may be entered anywhere; enter it at the last index. */
  lemma Turned(p: seq<nat>, c: seq<nat>) returns (d: seq<nat>)
    requires OneCycle(p, c) && |p| > 0
    ensures OneCycle(p, d) && |d| > 0 && d[0] == |p| - 1
  {
    var k := CycleFinds(p, c, |p| - 1);
    d := c[k..] + c[..k];
    assert c == c[..k] + c[k..];
    forall m | 0 <= m < |d| ensures d[m] < |p| && p[d[m]] == After(d, m) + 1 {
      var at := if m < |c| - k then k + m else m - (|c| - k);
      assert d[m] == c[at] && p[c[at]] == After(c, at) + 1;
    }
  }

  lemma CycleIsLastStage(p: seq<nat>, d: seq<nat>)
    requires OneCycle(p, d) && |p| > 0 && |d| > 0 && d[0] == |p| - 1
    ensures Stage(p, seq(|p|, r => d), |p| - 1)
  {
    var n, last, cyc := |p|, |p| - 1, seq(|p|, r => d);
    forall x: nat ensures Met(cyc, last, x) == if x < n then 1 else 0 {
      assert Met(cyc, n, x) == 0;
      IndicesOnce(n, x);
    }
    forall k | 0 < k < |d| ensures d[k] < n - 1 {
      assert d[k] < n;
      if d[k] == n - 1 { CycleDistinct(p, d, 0, k); }
    }
  }

  /** Conversely every cyclic permutation of 1..n is what some sequence of choices gives. */
  lemma OneCycleIsShuffle(p: seq<nat>, c: seq<nat>)
    requires OneCycle(p, c) && |p| > 0
    ensures exists js :: Choices(js, |p|) && Shuffle(Consecutive(|p|), 0, js) == p
  {
    var n := |p|;
    var d := Turned(p, c);
    CycleIsLastStage(p, d);
    var ks := Unwind(p, seq(n, r => d), n - 1, seq(n - 1, i => n - 1));
  }

  // ---------------------------------------------------------------- in place

  ghost function Drawn(n: nat, draws: seq<nat>): (js: seq<nat>)
    requires n > 0 && |draws| == n - 1
    ensures Choices(js, n)
  {
    seq(n - 1, i requires 0 <= i < n - 1 => URand(i + 1, n - 1, draws[i]))
  }

  method SwapPlaces(perm: array<nat>, i: nat, j: nat)
    requires i < perm.Length && j < perm.Length
    modifies perm
    ensures perm[..] == Swap(old(perm[..]), i, j)
  {
    var tmp := perm[i];
    perm[i] := perm[j];
    perm[j] := tmp;
  }

  /** g_cust_per_dist is the length of the array; `draws` are the random numbers in the order they are taken. */
  method InitPermutation(perm: array<nat>, draws: seq<nat>)
    requires perm.Length > 0 && |draws| == perm.Length - 1
    modifies perm
    ensures perm[..] == Shuffle(Consecutive(perm.Length), 0, Drawn(perm.Length, draws))
    ensures multiset(perm[..]) == multiset(Consecutive(perm.Length))
    ensures exists c :: OneCycle(perm[..], c)
    ensures perm.Length >= 2 ==> forall x :: 0 <= x < perm.Length ==> perm[x] != x + 1
  {
    var n := perm.Length;
    for i := 0 to n
      invariant forall k :: 0 <= k < i ==> perm[k] == k + 1
    {
      perm[i] := i + 1;
    }
    ghost var js := Drawn(n, draws);
    assert perm[..] == Consecutive(n);
    for i := 0 to n - 1
      invariant Shuffle(perm[..], i, js) == Shuffle(Consecutive(n), 0, js)
    {
      var j := URand(i + 1, n - 1, draws[i]);
      SwapPlaces(perm, i, j);
    }
    ShuffleIsOneCycle(n, js);
  }
}
