/** The slice of pandas the indicator code uses: a label matrix whose rows
    are aligned with a list of objects and whose columns are topics, boolean
    row masks, column sums, and element-wise series arithmetic.

    A `Series` is indexed by topic position; every series in the modelled
    code shares the topic columns of one label matrix, so positional
    indexing agrees with pandas' label alignment.
 */
module Frames {

  type Series = seq<real>

  type Matrix = seq<seq<real>>

  /** Every row has one cell per column. */
  predicate Shaped(m: Matrix, cols: nat)
  {
    forall i :: 0 <= i < |m| ==> |m[i]| == cols
  }

  /** `xs.loc[mask]`: the elements where the mask holds, in their order. */
  function Select<T>(xs: seq<T>, mask: seq<bool>): (r: seq<T>)
    requires |mask| == |xs|
    ensures |r| == TrueCount(mask) <= |xs|
  {
    if |xs| == 0 then []
    else Select(xs[..|xs| - 1], mask[..|xs| - 1]) + (if mask[|xs| - 1] then [xs[|xs| - 1]] else [])
  }

  /** The number of positions where the mask holds. */
  function TrueCount(mask: seq<bool>): (n: nat)
    ensures n <= |mask|
  {
    if |mask| == 0 then 0 else TrueCount(mask[..|mask| - 1]) + (if mask[|mask| - 1] then 1 else 0)
  }

  /** An element is selected exactly when it sits at some masked position. */
  lemma {:induction false} SelectMembership<T>(xs: seq<T>, mask: seq<bool>, x: T)
    requires |mask| == |xs|
    ensures x in Select(xs, mask) <==> exists i :: 0 <= i < |xs| && mask[i] && xs[i] == x
  {
    if |xs| > 0 {
      var n := |xs| - 1;
      SelectMembership(xs[..n], mask[..n], x);
      if x in Select(xs[..n], mask[..n]) {
        var i :| 0 <= i < n && mask[..n][i] && xs[..n][i] == x;
        assert mask[i] && xs[i] == x;
      }
      if exists i :: 0 <= i < |xs| && mask[i] && xs[i] == x {
        var i :| 0 <= i < |xs| && mask[i] && xs[i] == x;
        if i < n {
          assert mask[..n][i] && xs[..n][i] == x;
        }
      }
    }
  }

  lemma {:induction false} SelectShaped(m: Matrix, mask: seq<bool>, cols: nat)
    requires |mask| == |m| && Shaped(m, cols)
    ensures Shaped(Select(m, mask), cols)
  {
    if |m| > 0 {
      SelectShaped(m[..|m| - 1], mask[..|m| - 1], cols);
    }
  }

  /** A mask that holds everywhere selects everything. */
  lemma {:induction false} SelectAll<T>(xs: seq<T>, mask: seq<bool>)
    requires |mask| == |xs| && forall i :: 0 <= i < |mask| ==> mask[i]
    ensures Select(xs, mask) == xs
  {
    if |xs| > 0 {
      SelectAll(xs[..|xs| - 1], mask[..|xs| - 1]);
      assert xs[..|xs| - 1] + [xs[|xs| - 1]] == xs;
    }
  }

  /** `a & b` on boolean masks. */
  function And(a: seq<bool>, b: seq<bool>): (r: seq<bool>)
    requires |a| == |b|
    ensures |r| == |a|
    ensures forall i :: 0 <= i < |a| ==> r[i] == (a[i] && b[i])
  {
    seq(|a|, i requires 0 <= i < |a| => a[i] && b[i])
  }

  /** `~a` on a boolean mask. */
  function Not(a: seq<bool>): (r: seq<bool>)
    ensures |r| == |a|
    ensures forall i :: 0 <= i < |a| ==> r[i] == !a[i]
  {
    seq(|a|, i requires 0 <= i < |a| => !a[i])
  }

  /** The sum of column `j` over the rows the mask selects. */
  function ColumnSum(m: Matrix, j: nat, sel: seq<bool>): real
    requires |sel| == |m|
    requires forall i :: 0 <= i < |m| ==> j < |m[i]|
  {
    if |m| == 0 then 0.0
    else ColumnSum(m[..|m| - 1], j, sel[..|m| - 1]) + (if sel[|m| - 1] then m[|m| - 1][j] else 0.0)
  }

  /** A row whose entry is zero adds nothing to the column sum: selecting
      it or not gives the same total. */
  lemma {:induction false} ZeroEntryNotCounted(m: Matrix, j: nat, sel: seq<bool>, i: nat)
    requires |sel| == |m| && (forall k :: 0 <= k < |m| ==> j < |m[k]|)
    requires i < |m| && m[i][j] == 0.0
    ensures ColumnSum(m, j, sel) == ColumnSum(m, j, sel[i := false])
  {
    var n := |m| - 1;
    assert sel[i := false][..n] == if i < n then sel[..n][i := false] else sel[..n];
    if i < n {
      ZeroEntryNotCounted(m[..n], j, sel[..n], i);
    }
  }

  /** `labels[sel].sum(axis=0)`: one column sum per topic. */
  function ColumnSums(m: Matrix, cols: nat, sel: seq<bool>): (r: Series)
    requires |sel| == |m| && Shaped(m, cols)
    ensures |r| == cols
  {
    seq(cols, j requires 0 <= j < cols => ColumnSum(m, j, sel))
  }

  /** Selecting rows first and summing under the selected mask is summing
      under both masks on the original rows. */
  lemma {:induction false} SelectColumnSum(m: Matrix, cols: nat, j: nat, mask: seq<bool>, sel: seq<bool>)
    requires |mask| == |m| && |sel| == |m| && Shaped(m, cols) && j < cols
    ensures Shaped(Select(m, mask), cols)
    ensures ColumnSum(Select(m, mask), j, Select(sel, mask)) == ColumnSum(m, j, And(mask, sel))
  {
    SelectShaped(m, mask, cols);
    if |m| > 0 {
      var n := |m| - 1;
      SelectColumnSum(m[..n], cols, j, mask[..n], sel[..n]);
      assert And(mask, sel)[..n] == And(mask[..n], sel[..n]);
      var head := Select(m[..n], mask[..n]);
      var headSel := Select(sel[..n], mask[..n]);
      SelectShaped(m[..n], mask[..n], cols);
      if mask[n] {
        assert Select(m, mask) == head + [m[n]];
        assert Select(sel, mask) == headSel + [sel[n]];
        assert (head + [m[n]])[..|head|] == head;
        assert (headSel + [sel[n]])[..|head|] == headSel;
      } else {
        assert Select(m, mask) == head;
        assert Select(sel, mask) == headSel;
      }
    }
  }

  /** Splitting the selected rows by a mask and its negation splits every
      column sum into two parts that add back up. */
  lemma {:induction false} SplitColumnSum(m: Matrix, cols: nat, j: nat, a: seq<bool>, w: seq<bool>)
    requires |a| == |m| && |w| == |m| && Shaped(m, cols) && j < cols
    ensures ColumnSum(m, j, And(a, w)) + ColumnSum(m, j, And(Not(a), w)) == ColumnSum(m, j, w)
  {
    if |m| > 0 {
      var n := |m| - 1;
      SplitColumnSum(m[..n], cols, j, a[..n], w[..n]);
      assert And(a, w)[..n] == And(a[..n], w[..n]);
      assert And(Not(a), w)[..n] == And(Not(a[..n]), w[..n]);
      assert Not(a)[..n] == Not(a[..n]);
    }
  }

  /** A column sum reads only the selected rows. */
  lemma {:induction false} ColumnSumFrame(m: Matrix, m': Matrix, cols: nat, j: nat, sel: seq<bool>)
    requires |m| == |m'| == |sel| && Shaped(m, cols) && Shaped(m', cols) && j < cols
    requires forall i :: 0 <= i < |m| && sel[i] ==> m[i] == m'[i]
    ensures ColumnSum(m, j, sel) == ColumnSum(m', j, sel)
  {
    if |m| > 0 {
      var n := |m| - 1;
      ColumnSumFrame(m[..n], m'[..n], cols, j, sel[..n]);
    }
  }

  /** The denominator after `denominator.loc[denominator == 0] = 1`. */
  function ReplaceZeros(den: Series): (r: Series)
    ensures |r| == |den|
    ensures forall i :: 0 <= i < |den| ==> r[i] != 0.0
    ensures forall i :: 0 <= i < |den| && den[i] == 0.0 ==> r[i] == 1.0
    ensures forall i :: 0 <= i < |den| && den[i] != 0.0 ==> r[i] == den[i]
  {
    seq(|den|, i requires 0 <= i < |den| => if den[i] == 0.0 then 1.0 else den[i])
  }

  /** `safe_divide`: divide where the denominator is non-zero, keep the
      numerator where it is zero. */
  function SafeDivide(num: Series, den: Series): (r: Series)
    requires |num| == |den|
    ensures |r| == |num|
    ensures forall i :: 0 <= i < |num| && den[i] == 0.0 ==> r[i] == num[i]
    ensures forall i :: 0 <= i < |num| && den[i] != 0.0 ==> r[i] == num[i] / den[i]
  {
    var safe := ReplaceZeros(den);
    seq(|num|, i requires 0 <= i < |num| => num[i] / safe[i])
  }

  /** `s * k` */
  function Scale(s: Series, k: real): (r: Series)
    ensures |r| == |s|
    ensures forall i :: 0 <= i < |s| ==> r[i] == k * s[i]
  {
    seq(|s|, i requires 0 <= i < |s| => k * s[i])
  }

  /** `m.multiply(w, axis=0)`: row `i` scaled by `w[i]`. */
  function ScaleRows(m: Matrix, w: seq<real>): (r: Matrix)
    requires |w| == |m|
    ensures |r| == |m|
    ensures forall i :: 0 <= i < |m| ==> |r[i]| == |m[i]|
    ensures forall i, j :: 0 <= i < |m| && 0 <= j < |m[i]| ==> r[i][j] == m[i][j] * w[i]
  {
    seq(|m|, i requires 0 <= i < |m| => seq(|m[i]|, j requires 0 <= j < |m[i]| => m[i][j] * w[i]))
  }

  /** `dict(series)` for a series indexed by `keys`: a repeated key keeps
      the value of its last position. */
  function ToDict(keys: seq<string>, vals: Series): (d: map<string, real>)
    requires |keys| == |vals|
    ensures d.Keys == set k | k in keys
  {
    if |keys| == 0 then map[]
    else
      var n := |keys| - 1;
      assert forall k :: k in keys <==> k in keys[..n] || k == keys[n];
      ToDict(keys[..n], vals[..n])[keys[n] := vals[n]]
  }

  /** The entry of a key is the value at its last position. */
  lemma {:induction false} ToDictLast(keys: seq<string>, vals: Series, j: nat)
    requires |keys| == |vals| && j < |keys|
    requires forall k :: j < k < |keys| ==> keys[k] != keys[j]
    ensures keys[j] in ToDict(keys, vals) && ToDict(keys, vals)[keys[j]] == vals[j]
  {
    var n := |keys| - 1;
    if j < n {
      assert forall k :: j < k < n ==> keys[..n][k] == keys[k];
      ToDictLast(keys[..n], vals[..n], j);
    }
  }
}
