/** Machine integers, optional values, and sums over finite maps, shared by every component. */
module Base {

  type byte = x: int | 0 <= x < 0x100
  type u16 = x: int | 0 <= x < 0x1_0000
  type u32 = x: int | 0 <= x < 0x1_0000_0000
  type u64 = x: int | 0 <= x < 0x1_0000_0000_0000_0000

  datatype Option<+T> = None | Some(value: T)

  function Min(a: int, b: int): int {
    if a < b then a else b
  }

  function Max(a: int, b: int): int {
    if a > b then a else b
  }

  function Get<K, V>(m: map<K, V>, k: K): Option<V> {
    if k in m then Some(m[k]) else None
  }

  // ----- lexicographic order -----

  predicate LexLess(a: seq<int>, b: seq<int>) {
    b != [] && (a == [] || a[0] < b[0] || (a[0] == b[0] && LexLess(a[1..], b[1..])))
  }

  lemma {:induction false} LexTrichotomy(a: seq<int>, b: seq<int>)
    ensures LexLess(a, b) || LexLess(b, a) || a == b
    ensures !(LexLess(a, b) && LexLess(b, a)) && (a == b ==> !LexLess(a, b))
  {
    if a != [] && b != [] {
      LexTrichotomy(a[1..], b[1..]);
      assert a == [a[0]] + a[1..] && b == [b[0]] + b[1..];
    }
  }

  lemma {:induction false} LexTransitive(a: seq<int>, b: seq<int>, c: seq<int>)
    requires LexLess(a, b) && LexLess(b, c)
    ensures LexLess(a, c)
  {
    if a != [] {
      if a[0] == b[0] == c[0] {
        LexTransitive(a[1..], b[1..], c[1..]);
      }
    }
  }

  // ----- sums, sizes and products -----

  /** The sum of a measure over the values of a map. */
  ghost function Sum<K, V>(m: map<K, V>, f: V -> nat): nat
  {
    if m == map[] then 0 else
    var k :| k in m;
    f(m[k]) + Sum(m - {k}, f)
  }

  lemma {:induction false} SumEmpty<K, V>(m: map<K, V>, f: V -> nat)
    requires m == map[]
    ensures Sum(m, f) == 0
  {
  }

  /** Any key may be taken out of the sum first. */
  lemma {:induction false} SumMinus<K, V>(m: map<K, V>, k: K, f: V -> nat)
    requires k in m
    ensures Sum(m, f) == f(m[k]) + Sum(m - {k}, f)
    decreases |m|
  {
    assert m != map[];
    var j :| j in m && Sum(m, f) == f(m[j]) + Sum(m - {j}, f);
    if j != k {
      assert |m - {j}| < |m| by { assert (m - {j}).Keys == m.Keys - {j}; }
      SumMinus(m - {j}, k, f);
      assert |m - {k}| < |m| by { assert (m - {k}).Keys == m.Keys - {k}; }
      SumMinus(m - {k}, j, f);
      assert m - {j} - {k} == m - {k} - {j};
    }
  }

  lemma {:induction false} SumPut<K, V>(m: map<K, V>, k: K, v: V, f: V -> nat)
    ensures Sum(m[k := v], f) == f(v) + Sum(m - {k}, f)
  {
    SumMinus(m[k := v], k, f);
    assert m[k := v] - {k} == m - {k};
  }

  lemma {:induction false} DistinctSize<T>(ks: seq<T>, all: set<T>)
    requires all == (set j | 0 <= j < |ks| :: ks[j]) && forall i, j :: 0 <= i < j < |ks| ==> ks[i] != ks[j]
    ensures |all| == |ks|
  {
    if ks != [] {
      var n := |ks| - 1;
      var rest := set j | 0 <= j < n :: ks[j];
      assert rest == (set j | 0 <= j < |ks[..n]| :: ks[..n][j]);
      DistinctSize(ks[..n], rest);
      assert all == rest + {ks[n]};
    }
  }

  lemma {:induction false} SubsetSize<T>(a: set<T>, b: set<T>)
    requires a <= b
    ensures |a| <= |b|
  {
    if a != {} {
      var x :| x in a;
      SubsetSize(a - {x}, b - {x});
    }
  }

  lemma {:induction false} MulMono(a: int, b: int, c: nat)
    requires a <= b
    ensures a * c <= b * c
  {
  }

  lemma {:induction false} MulSign(k: int, n: nat)
    requires 0 < n
    ensures (k >= 1 ==> k * n >= n) && (k <= 0 ==> k * n <= 0) && (k <= -1 ==> k * n <= 0 - n as int)
  {
    if k >= 1 {
      assert (k - 1) * n >= 0;
    } else if k <= -1 {
      assert (k + 1) * n <= 0;
    }
  }

  /** Quotient and remainder are unique. */
  lemma {:induction false} DivModIs(x: nat, q: int, r: nat, n: nat)
    requires 0 < n && x == q * n + r && r < n
    ensures x / n == q && x % n == r
  {
    var k := q - x / n;
    assert x == x / n * n + x % n;
    assert k * n == q * n - x / n * n;
    MulSign(k, n);
  }

  lemma {:induction false} SumAtMost<K, V>(m: map<K, V>, f: V -> nat, bound: nat)
    requires forall k :: k in m ==> f(m[k]) <= bound
    ensures Sum(m, f) <= |m| * bound
    decreases |m|
  {
    hide Sum;
    if m == map[] {
      SumEmpty(m, f);
    } else {
      var k :| k in m;
      var rest := m - {k};
      assert rest.Keys == m.Keys - {k};
      SumAtMost(rest, f, bound);
      SumMinus(m, k, f);
      assert (|rest| + 1) * bound == |rest| * bound + bound;
    }
  }
}
