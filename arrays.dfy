/** The one-dimensional array primitives the analysis is built from, over exact reals:
    boolean masks and mask indexing, `where`, sums, the maximum and `linspace`. */
module Arrays {

  /** The indices at which `mask` holds, in increasing order: `where` on a boolean array. */
  function Where(mask: seq<bool>): (r: seq<nat>)
    ensures forall k :: 0 <= k < |r| ==> r[k] < |mask| && mask[r[k]]
  {
    if |mask| == 0 then []
    else
      var w := Where(mask[..|mask| - 1]);
      if mask[|mask| - 1] then w + [|mask| - 1] else w
  }

  /** Boolean-mask indexing `a[mask]`: the entries of `a` where `mask` holds, in order. */
  function Select<T>(a: seq<T>, mask: seq<bool>): (r: seq<T>)
    requires |a| == |mask|
    ensures |r| == |Where(mask)|
    ensures forall k :: 0 <= k < |r| ==> r[k] == a[Where(mask)[k]]
  {
    if |a| == 0 then []
    else
      var s := Select(a[..|a| - 1], mask[..|mask| - 1]);
      if mask[|mask| - 1] then s + [a[|a| - 1]] else s
  }

  /** Integer-array indexing `a[idx]`, for indices that all lie inside `a`. */
  function Take<T>(a: seq<T>, idx: seq<nat>): (r: seq<T>)
    requires forall k :: 0 <= k < |idx| ==> idx[k] < |a|
    ensures |r| == |idx|
    ensures forall k :: 0 <= k < |idx| ==> r[k] == a[idx[k]]
  {
    seq(|idx|, k requires 0 <= k < |idx| => a[idx[k]])
  }

  // Elementwise comparisons and the elementwise `&` of two masks.

  function Less(a: seq<real>, x: real): seq<bool>
  {
    seq(|a|, i requires 0 <= i < |a| => a[i] < x)
  }

  function Greater(a: seq<real>, x: real): seq<bool>
  {
    seq(|a|, i requires 0 <= i < |a| => a[i] > x)
  }

  function Equal(a: seq<real>, x: real): seq<bool>
  {
    seq(|a|, i requires 0 <= i < |a| => a[i] == x)
  }

  function And(m1: seq<bool>, m2: seq<bool>): seq<bool>
    requires |m1| == |m2|
  {
    seq(|m1|, i requires 0 <= i < |m1| => m1[i] && m2[i])
  }

  /** Elementwise `a * k`. */
  function Scale(a: seq<real>, k: real): seq<real>
  {
    seq(|a|, i requires 0 <= i < |a| => a[i] * k)
  }

  /** Elementwise `a + c`. */
  function Shift(a: seq<real>, c: real): seq<real>
  {
    seq(|a|, i requires 0 <= i < |a| => a[i] + c)
  }

  /** Elementwise `u - v`. */
  function Minus(u: seq<real>, v: seq<real>): seq<real>
    requires |u| == |v|
  {
    seq(|u|, i requires 0 <= i < |u| => u[i] - v[i])
  }

  /** `np.diff`. */
  function Differences(s: seq<real>): (d: seq<real>)
    ensures |d| == if |s| == 0 then 0 else |s| - 1
  {
    if |s| == 0 then [] else seq(|s| - 1, i requires 0 <= i < |s| - 1 => s[i + 1] - s[i])
  }

  /** Elementwise `u + v`. */
  function Plus(u: seq<real>, v: seq<real>): seq<real>
    requires |u| == |v|
  {
    seq(|u|, i requires 0 <= i < |u| => u[i] + v[i])
  }

  /** Elementwise `a / k` for a non-zero `k`. */
  function DivideBy(a: seq<real>, k: real): (r: seq<real>)
    requires k != 0.0
    ensures |r| == |a|
    ensures forall i :: 0 <= i < |r| ==> r[i] * k == a[i]
  {
    seq(|a|, i requires 0 <= i < |a| => a[i] / k)
  }

  /** `linspace(start, stop, num)`: `num` evenly spaced values from `start` to `stop`. */
  function Linspace(start: real, stop: real, num: nat): seq<real>
    requires num >= 2
  {
    seq(num, i requires 0 <= i < num => start + (i as real) * (stop - start) / ((num - 1) as real))
  }

  /** The largest entry of a non-empty array. */
  function Max(s: seq<real>): (m: real)
    requires |s| > 0
    ensures m in s
    ensures forall i :: 0 <= i < |s| ==> s[i] <= m
  {
    if |s| == 1 then s[0]
    else
      var m' := Max(s[..|s| - 1]);
      if s[|s| - 1] > m' then s[|s| - 1] else m'
  }

  /** `sum(s)`. It is kept non-recursive, so that a sum used as a factor in a product has
      a single form; `Total` does the adding up. */
  function Sum(s: seq<real>): real
  {
    Total(s)
  }

  function Total(s: seq<real>): real
  {
    if |s| == 0 then 0.0 else Total(s[..|s| - 1]) + s[|s| - 1]
  }

  /** Elementwise `xs * ys`. */
  function Products(xs: seq<real>, ys: seq<real>): seq<real>
    requires |xs| == |ys|
  {
    seq(|xs|, i requires 0 <= i < |xs| => xs[i] * ys[i])
  }

  /** The dot product of two arrays of one length. */
  function Dot(xs: seq<real>, ys: seq<real>): real
    requires |xs| == |ys|
  {
    Sum(Products(xs, ys))
  }

  function Ones(n: nat): seq<real>
  {
    seq(n, i => 1.0)
  }

  /** The number of samples as a real, `float(len(s))`. */
  function Size<T>(s: seq<T>): real
  {
    Sum(Ones(|s|))
  }

  /** The outcome of a floating-point division: a real, or inf/nan after dividing by zero. */
  datatype Quotient = Finite(value: real) | NonFinite

  function Divide(n: real, d: real): (q: Quotient)
    ensures q.Finite? <==> d != 0.0
  {
    if d == 0.0 then NonFinite else Finite(n / d)
  }

  /** A finite quotient times the divisor gives back the dividend. */
  lemma DivideInverse(n: real, d: real)
    requires d != 0.0
    ensures Divide(n, d).value * d == n
  {
  }

  // Lemmas about mask indexing.

  /** Indexing by the indices of a mask is indexing by the mask. */
  lemma TakeWhere<T>(a: seq<T>, mask: seq<bool>)
    requires |a| == |mask|
    ensures Take(a, Where(mask)) == Select(a, mask)
  {
  }

  /** Appending one sample appends it to the selection exactly when its mask entry holds. */
  lemma SelectSnoc<T>(a: seq<T>, mask: seq<bool>, x: T, b: bool)
    requires |a| == |mask|
    ensures Select(a + [x], mask + [b]) == Select(a, mask) + (if b then [x] else [])
  {
    assert (a + [x])[..|a|] == a;
    assert (mask + [b])[..|mask|] == mask;
  }

  /** A mask that holds everywhere selects the whole array. */
  lemma {:induction false} SelectAll<T>(a: seq<T>, mask: seq<bool>)
    requires |a| == |mask|
    requires forall i :: 0 <= i < |mask| ==> mask[i]
    ensures Select(a, mask) == a
  {
    if |a| > 0 {
      var n := |a| - 1;
      assert a == a[..n] + [a[n]] && mask == mask[..n] + [mask[n]];
      SelectAll(a[..n], mask[..n]);
      SelectSnoc(a[..n], mask[..n], a[n], mask[n]);
    }
  }

  /** Filtering twice, the second time by a mask filtered along with the data, is filtering
      once by both masks. */
  lemma {:induction false} SelectSelect<T>(a: seq<T>, m1: seq<bool>, m2: seq<bool>)
    requires |a| == |m1| == |m2|
    ensures Select(Select(a, m1), Select(m2, m1)) == Select(a, And(m1, m2))
  {
    if |a| > 0 {
      var n := |a| - 1;
      var a', m1', m2' := a[..n], m1[..n], m2[..n];
      assert a == a' + [a[n]] && m1 == m1' + [m1[n]] && m2 == m2' + [m2[n]];
      assert And(m1, m2) == And(m1', m2') + [m1[n] && m2[n]];
      SelectSelect(a', m1', m2');
      var s1, s2 := Select(a', m1'), Select(m2', m1');
      SelectSnoc(a', m1', a[n], m1[n]);
      SelectSnoc(m2', m1', m2[n], m1[n]);
      SelectSnoc(a', And(m1', m2'), a[n], m1[n] && m2[n]);
      if m1[n] {
        SelectSnoc(s1, s2, a[n], m2[n]);
        calc {
          Select(Select(a, m1), Select(m2, m1));
          Select(s1 + [a[n]], s2 + [m2[n]]);
          Select(s1, s2) + (if m2[n] then [a[n]] else []);
          Select(a', And(m1', m2')) + (if m2[n] then [a[n]] else []);
          Select(a, And(m1, m2));
        }
      } else {
        calc {
          Select(Select(a, m1), Select(m2, m1));
          Select(s1, s2);
          Select(a', And(m1', m2'));
          Select(a, And(m1, m2));
        }
      }
    }
  }

  /** An elementwise comparison commutes with mask indexing. */
  lemma SelectLess(a: seq<real>, mask: seq<bool>, x: real)
    requires |a| == |mask|
    ensures Less(Select(a, mask), x) == Select(Less(a, x), mask)
  {
  }

  /** Filtering by `a < v` leaves only entries below `v`. */
  lemma SelectLessBelow(a: seq<real>, v: real)
    ensures forall k :: 0 <= k < |Select(a, Less(a, v))| ==> Select(a, Less(a, v))[k] < v
  {
    var m := Less(a, v);
    forall k | 0 <= k < |Select(a, m)| ensures Select(a, m)[k] < v {
      assert m[Where(m)[k]];
    }
  }

  /** Every index at which the mask holds is listed by `where`. */
  lemma {:induction false} WhereComplete(mask: seq<bool>, i: nat)
    requires i < |mask| && mask[i]
    ensures i in Where(mask)
  {
    if i < |mask| - 1 {
      WhereComplete(mask[..|mask| - 1], i);
    }
  }

  /** `where` lists the indices in increasing order. */
  lemma {:induction false} WhereIncreasing(mask: seq<bool>, k: nat, l: nat)
    requires k < l < |Where(mask)|
    ensures Where(mask)[k] < Where(mask)[l]
  {
    var p := mask[..|mask| - 1];
    if l < |Where(p)| {
      WhereIncreasing(p, k, l);
    }
  }

  /** The first index of `where` is the least index at which the mask holds. */
  lemma WhereFirst(mask: seq<bool>, i: nat)
    requires i < |mask| && mask[i]
    ensures |Where(mask)| > 0 && Where(mask)[0] <= i
  {
    var w := Where(mask);
    WhereComplete(mask, i);
    var k :| 0 <= k < |w| && w[k] == i;
    if k > 0 {
      WhereIncreasing(mask, 0, k);
    }
  }

  /** The last index of `where` is the greatest index at which the mask holds. */
  lemma WhereLast(mask: seq<bool>, i: nat)
    requires i < |mask| && mask[i]
    ensures |Where(mask)| > 0 && i <= Where(mask)[|Where(mask)| - 1]
  {
    var w := Where(mask);
    WhereComplete(mask, i);
    var k :| 0 <= k < |w| && w[k] == i;
    if k < |w| - 1 {
      WhereIncreasing(mask, k, |w| - 1);
    }
  }

  // Lemmas about sums.

  /** Summation commutes with scaling. */
  lemma {:induction false} SumScale(v: seq<real>, k: real)
    ensures Sum(Scale(v, k)) == Sum(v) * k
  {
    if |v| > 0 {
      var n := |v| - 1;
      forall i | 0 <= i < n ensures Scale(v, k)[i] == Scale(v[..n], k)[i] {
        assert v[..n][i] == v[i];
      }
      assert Scale(v, k)[..n] == Scale(v[..n], k);
      SumScale(v[..n], k);
      Distribute(Sum(v[..n]), v[n], k);
    }
  }

  lemma Distribute(s: real, x: real, k: real)
    ensures (s + x) * k == s * k + x * k
  {
  }

  /** Summation commutes with elementwise subtraction. */
  lemma {:induction false} SumMinus(u: seq<real>, v: seq<real>)
    requires |u| == |v|
    ensures Sum(Minus(u, v)) == Sum(u) - Sum(v)
  {
    if |u| > 0 {
      var n := |u| - 1;
      assert Minus(u, v)[..n] == Minus(u[..n], v[..n]);
      SumMinus(u[..n], v[..n]);
    }
  }

  /** Summation commutes with elementwise addition. */
  lemma {:induction false} SumPlus(u: seq<real>, v: seq<real>)
    requires |u| == |v|
    ensures Sum(Plus(u, v)) == Sum(u) + Sum(v)
  {
    if |u| > 0 {
      var n := |u| - 1;
      assert Plus(u, v)[..n] == Plus(u[..n], v[..n]);
      SumPlus(u[..n], v[..n]);
    }
  }

  /** Summation is linear: the sum of `u - v*a - z*b` is `sum(u) - sum(v)*a - sum(z)*b`. */
  lemma {:induction false} SumCombination(u: seq<real>, v: seq<real>, z: seq<real>, a: real, b: real)
    requires |u| == |v| == |z|
    ensures Sum(Minus(Minus(u, Scale(v, a)), Scale(z, b))) == Sum(u) - Sum(v) * a - Sum(z) * b
  {
    SumMinus(Minus(u, Scale(v, a)), Scale(z, b));
    SumMinus(u, Scale(v, a));
    SumScale(v, a);
    SumScale(z, b);
  }

  /** The size of an array is its length. */
  lemma {:induction false} SizeIsLength<T>(s: seq<T>)
    ensures Size(s) == |s| as real
  {
    if |s| > 0 {
      assert Ones(|s|)[..|s| - 1] == Ones(|s| - 1);
      SizeIsLength(s[..|s| - 1]);
    }
  }

  /** A sum of non-negative terms is non-negative, and positive when one term is. */
  lemma {:induction false} SumNonNegative(s: seq<real>, k: nat)
    requires forall i :: 0 <= i < |s| ==> s[i] >= 0.0
    ensures Sum(s) >= 0.0
    ensures k < |s| && s[k] > 0.0 ==> Sum(s) > 0.0
  {
    if |s| > 0 {
      var n := |s| - 1;
      SumNonNegative(s[..n], if k < n then k else 0);
    }
  }

  /** An array of zeros sums to zero. */
  lemma {:induction false} SumZeros(s: seq<real>)
    requires forall i :: 0 <= i < |s| ==> s[i] == 0.0
    ensures Sum(s) == 0.0
  {
    if |s| > 0 {
      SumZeros(s[..|s| - 1]);
    }
  }
}
