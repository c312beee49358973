/** Stock datatypes, Go's integer division, and the finite-sum and set-size
    facts that the consensus checks rest on. */
module Basics {

  datatype Option<+T> = None | Some(value: T)

  /** The outcome of a call to the blockchain client or to a peer. */
  datatype Result<+T> = Ok(value: T) | Failed

  /** Go's integer division truncates toward zero. */
  function GoDiv(a: int, b: int): int
    requires b > 0
  {
    if a >= 0 then a / b else -((-a) / b)
  }

  ghost predicate Distinct<T>(s: seq<T>) {
    forall i, j :: 0 <= i < j < |s| ==> s[i] != s[j]
  }

  /** The remainder is smaller than the divisor, and has the sign of the dividend. */
  lemma GoDivTruncates(a: int, b: int)
    requires b > 0
    ensures var r := a - GoDiv(a, b) * b; -b < r < b && (a >= 0 ==> r >= 0) && (a <= 0 ==> r <= 0)
  {
    if a < 0 {
      assert GoDiv(a, b) * b == -(((-a) / b) * b);
    }
  }

  /** Of the elements that begin or end something, the last is one that begins it. */
  ghost predicate Since<T>(s: seq<T>, begins: T -> bool, ends: T -> bool) {
    exists i :: 0 <= i < |s| && begins(s[i]) && forall j :: i < j < |s| ==> !ends(s[j])
  }

  lemma SinceSnoc<T>(s: seq<T>, begins: T -> bool, ends: T -> bool)
    requires s != []
    ensures Since(s, begins, ends) <==>
            begins(s[|s| - 1]) || (Since(s[..|s| - 1], begins, ends) && !ends(s[|s| - 1]))
  {
    var n := |s| - 1;
    if Since(s[..n], begins, ends) && !ends(s[n]) {
      var i :| 0 <= i < n && begins(s[..n][i]) && forall j :: i < j < n ==> !ends(s[..n][j]);
      assert begins(s[i]) && forall j :: i < j < |s| ==> !ends(s[j]) by {
        forall j | i < j < |s| ensures !ends(s[j]) {
          assert j < n ==> s[..n][j] == s[j];
        }
      }
    }
    if i :| 0 <= i < |s| && begins(s[i]) && forall j :: i < j < |s| ==> !ends(s[j]) {
      if i < n {
        assert s[..n][i] == s[i];
        assert forall j :: i < j < n ==> s[..n][j] == s[j];
      }
    }
  }

  lemma SubsetSize<T>(a: set<T>, b: set<T>)
    requires a <= b
    ensures |a| <= |b|
  {
    assert b == a + (b - a);
  }

  lemma SplitSize<T>(a: set<T>, b: set<T>)
    requires a <= b
    ensures |b| == |a| + |b - a|
  {
    assert b == a + (b - a);
  }

  ghost function Image<A, B>(s: set<A>, f: A -> B): set<B> {
    set x | x in s :: f(x)
  }

  /** The image of a finite set is no larger than the set. */
  lemma {:induction false} ImageSize<A, B>(s: set<A>, f: A -> B)
    ensures |Image(s, f)| <= |s|
    decreases s
  {
    if x :| x in s {
      ImageSize(s - {x}, f);
      SubsetSize(Image(s, f), Image(s - {x}, f) + {f(x)});
    }
  }

  /** Two subsets of one universe share all that does not fit side by side. */
  lemma OverlapSize<T>(a: set<T>, b: set<T>, universe: set<T>)
    requires a <= universe && b <= universe
    ensures |a * b| >= |a| + |b| - |universe|
  {
    assert |a + b| == |a| + |b| - |a * b|;
    SubsetSize(a + b, universe);
  }

  /** Every size up to |s| is the size of some subset of s. */
  lemma {:induction false} SubsetOfSize<T>(s: set<T>, k: nat) returns (t: set<T>)
    requires k <= |s|
    ensures t <= s && |t| == k
    decreases k
  {
    if k == 0 {
      t := {};
    } else {
      var t' := SubsetOfSize(s, k - 1);
      assert s == t' + (s - t');
      var x :| x in s - t';
      t := t' + {x};
    }
  }

  ghost function Sum<K>(m: map<K, int>): int
    decreases |m|
  {
    if m == map[] then 0 else
      var k :| k in m;
      assert |m - {k}| < |m| by { RemoveShrinks(m, k); }
      m[k] + Sum(m - {k})
  }

  lemma RemoveShrinks<K, V>(m: map<K, V>, k: K)
    requires k in m
    ensures |m - {k}| == |m| - 1
  {
    assert (m - {k}).Keys == m.Keys - {k};
  }

  /** The sum does not depend on the order in which the keys are taken. */
  lemma {:induction false} SumRemove<K>(m: map<K, int>, k: K)
    requires k in m
    ensures Sum(m) == m[k] + Sum(m - {k})
    decreases |m|
  {
    assert m != map[];
    var j :| j in m && Sum(m) == m[j] + Sum(m - {j});
    if j != k {
      RemoveShrinks(m, j);
      RemoveShrinks(m, k);
      SumRemove(m - {j}, k);
      SumRemove(m - {k}, j);
      assert m - {j} - {k} == m - {k} - {j};
    }
  }

  lemma MulMonotone(k: nat, a: int, b: int)
    requires a <= b
    ensures k * a <= k * b
  {
  }

  lemma TimesOneLess(c: int, n: int)
    ensures c * (n - 1) == c * n - c
  {
  }

  /** Values between lo and hi on a support, and zero elsewhere, bound the sum. */
  lemma {:induction false} SumBounds<K>(m: map<K, int>, support: set<K>, lo: int, hi: int)
    requires support <= m.Keys
    requires forall k | k in support :: lo <= m[k] <= hi
    requires forall k | k in m && k !in support :: m[k] == 0
    ensures lo * |support| <= Sum(m) <= hi * |support|
    decreases |m|
  {
    if m == map[] {
      assert support == {};
    } else {
      var k :| k in m;
      var rest := m - {k};
      SumRemove(m, k);
      RemoveShrinks(m, k);
      var less := support - {k};
      SumBounds(rest, less, lo, hi);
      if k in support {
        assert |less| == |support| - 1;
        TimesOneLess(lo, |support|);
        TimesOneLess(hi, |support|);
      } else {
        assert less == support;
      }
    }
  }

  /** Values that are nowhere negative, and at least lo on a support, bound the
      sum from below. */
  lemma {:induction false} SumAtLeast<K>(m: map<K, int>, support: set<K>, lo: int)
    requires support <= m.Keys
    requires forall k | k in m :: m[k] >= 0
    requires forall k | k in support :: m[k] >= lo
    ensures Sum(m) >= lo * |support|
    decreases |m|
  {
    if m == map[] {
      assert support == {};
    } else {
      var k :| k in m;
      SumRemove(m, k);
      RemoveShrinks(m, k);
      SumAtLeast(m - {k}, support - {k}, lo);
      if k in support {
        assert |support - {k}| == |support| - 1;
        TimesOneLess(lo, |support|);
      } else {
        assert support - {k} == support;
      }
    }
  }
}
