/**
 * The dataset container of the gradient-boosting trainer: feature columns
 * with their sort indexes, labels, running predictions and the per-row
 * gradient buffer recomputed from them by a pluggable loss gradient.
 */
module IO {
  import opened ColumnSort

  datatype Option<T> = None | Some(value: T)

  /** The loss gradient: (label, prediction) to gradient. */
  type GradFunc = (real, real) -> real

  datatype Error = NotInitialized
  datatype Outcome = Pass | Fail(error: Error)

  class DataMatrix {
    /** Per column: the sort index, the raw values, the values in index order. */
    var index: seq<seq<int>>
    var data: seq<seq<real>>
    var sortedData: seq<seq<real>>

    /** Per row: predictions, labels, gradients. */
    const yHat: array<real>
    const y: array<real>
    const grad: array<real>

    const rows: nat
    const columns: nat

    /** The stored loss gradient; None until the first Init. */
    var gradFunc: Option<GradFunc>
    var initialized: bool

    /** Every buffer has the container's dimensions; the row buffers are distinct. */
    ghost predicate Valid()
      reads this
    {
      && |index| == columns && |data| == columns && |sortedData| == columns
      && (forall c :: 0 <= c < columns ==> |index[c]| == rows)
      && (forall c :: 0 <= c < columns ==> |data[c]| == rows)
      && (forall c :: 0 <= c < columns ==> |sortedData[c]| == rows)
      && y.Length == rows && yHat.Length == rows && grad.Length == rows
      && y != yHat && y != grad && yHat != grad
      && (initialized <==> gradFunc.Some?)
      && (initialized ==> forall c :: 0 <= c < columns ==> ColumnIndexed(c))
    }

    /** Column `c` holds its sort index and the values read through it. */
    ghost predicate ColumnIndexed(c: nat)
      reads this`index, this`data, this`sortedData
    {
      && c < |index| && c < |data| && c < |sortedData|
      && index[c] == SortedIndex(data[c])
      && sortedData[c] == Gather(data[c], index[c])
    }

    constructor (rows: nat, columns: nat)
      ensures Valid()
      ensures this.rows == rows && this.columns == columns
      ensures !initialized
      ensures fresh(y) && fresh(yHat) && fresh(grad)
      ensures forall c :: 0 <= c < columns ==> data[c] == seq(rows, _ => 0.0)
      ensures forall c :: 0 <= c < columns ==> index[c] == seq(rows, _ => 0)
      ensures forall c :: 0 <= c < columns ==> sortedData[c] == seq(rows, _ => 0.0)
      ensures y[..] == seq(rows, _ => 0.0) && yHat[..] == seq(rows, _ => 0.0)
      ensures grad[..] == seq(rows, _ => 0.0)
    {
      this.rows := rows;
      this.columns := columns;
      index := seq(columns, _ => seq(rows, _ => 0));
      data := seq(columns, _ => seq(rows, _ => 0.0));
      sortedData := seq(columns, _ => seq(rows, _ => 0.0));
      yHat := new real[rows](_ => 0.0);
      y := new real[rows](_ => 0.0);
      grad := new real[rows](_ => 0.0);
      gradFunc := None;
      initialized := false;
    }

    /**
     * Builds the sort index and the sorted values of every column, sets every
     * prediction to `initialY`, stores `func` and marks the container ready.
     * Calling it again rebuilds the indexes and resets predictions and function.
     */
    method Init(initialY: real, func: GradFunc)
      requires Valid()
      modifies this`index, this`sortedData, this`gradFunc, this`initialized, yHat
      ensures Valid()
      ensures initialized && gradFunc == Some(func)
      ensures forall c :: 0 <= c < columns ==> ColumnIndexed(c)
      ensures forall c :: 0 <= c < columns ==> IsPermutation(index[c], rows)
      ensures forall c :: 0 <= c < columns ==> Sorted(sortedData[c])
      ensures forall i :: 0 <= i < rows ==> yHat[i] == initialY
      ensures y[..] == old(y[..]) && grad[..] == old(grad[..])
    {
      var c := 0;
      while c < columns
        modifies this`index, this`sortedData
        invariant 0 <= c <= columns
        invariant Valid()
        invariant forall c' :: 0 <= c' < c ==> ColumnIndexed(c')
      {
        ghost var indexBefore, sortedBefore := index, sortedData;
        forall c' | 0 <= c' < c
          ensures indexBefore[c'] == SortedIndex(data[c']) && sortedBefore[c'] == Gather(data[c'], indexBefore[c'])
        {
          assert ColumnIndexed(c');
        }
        BuildColumnIndex(c);
        forall c' | 0 <= c' < c ensures ColumnIndexed(c') {
          assert index[c'] == indexBefore[c'] && sortedData[c'] == sortedBefore[c'];
        }
        c := c + 1;
      }
      forall c' | 0 <= c' < columns
        ensures IsPermutation(index[c'], rows) && Sorted(sortedData[c'])
      {
        assert ColumnIndexed(c');
        SortedValues(data[c']);
      }
      var i := 0;
      while i < rows
        modifies yHat
        invariant 0 <= i <= rows
        invariant forall k :: 0 <= k < i ==> yHat[k] == initialY
      {
        yHat[i] := initialY;
        i := i + 1;
      }
      gradFunc := Some(func);
      initialized := true;
    }

    /**
     * Recomputes every gradient from its label and prediction with the
     * stored function; before any Init it fails and changes nothing.
     */
    method UpdateGrad() returns (outcome: Outcome)
      requires Valid()
      modifies grad
      ensures Valid()
      ensures outcome == if initialized then Pass else Fail(NotInitialized)
      ensures initialized ==> forall i :: 0 <= i < rows ==> grad[i] == gradFunc.value(y[i], yHat[i])
      ensures !initialized ==> grad[..] == old(grad[..])
      ensures y[..] == old(y[..]) && yHat[..] == old(yHat[..])
    {
      if !initialized {
        return Fail(NotInitialized);
      }
      var f := gradFunc.value;
      var i := 0;
      while i < rows
        invariant 0 <= i <= rows
        invariant forall k :: 0 <= k < i ==> grad[k] == f(y[k], yHat[k])
      {
        grad[i] := f(y[i], yHat[i]);
        i := i + 1;
      }
      outcome := Pass;
    }

    /**
     * Stores the sort index of column `c` and the column's values in that
     * order; the other columns and all row buffers are left as they were.
     */
    method BuildColumnIndex(c: nat)
      requires Valid() && c < columns
      modifies this`index, this`sortedData
      ensures Valid() && ColumnIndexed(c)
      ensures forall c' :: 0 <= c' < columns && c' != c ==> index[c'] == old(index[c'])
      ensures forall c' :: 0 <= c' < columns && c' != c ==> sortedData[c'] == old(sortedData[c'])
      ensures IsPermutation(index[c], rows)
      ensures Ascending(data[c], index[c]) && Stable(data[c], index[c])
      ensures forall k :: 0 <= k < rows ==> sortedData[c][k] == data[c][index[c][k]]
      ensures Sorted(sortedData[c]) && multiset(sortedData[c]) == multiset(data[c])
    {
      ghost var indexBefore, sortedBefore := index, sortedData;
      var column := data[c];
      var order := SortedIndex(column);
      var values := new real[rows];
      var k := 0;
      while k < rows
        modifies values
        invariant 0 <= k <= rows
        invariant forall j :: 0 <= j < k ==> values[j] == column[order[j]]
      {
        values[k] := column[order[k]];
        k := k + 1;
      }
      assert values[..] == Gather(column, order);
      SortedValues(column);
      index := index[c := order];
      sortedData := sortedData[c := values[..]];
      forall c' | 0 <= c' < columns && c' != c && initialized ensures ColumnIndexed(c') {
        assert index[c'] == indexBefore[c'] && sortedData[c'] == sortedBefore[c'];
        assert old(ColumnIndexed(c'));
      }
    }
  }

  /**
   * Two gradient updates with no change to labels or predictions in between
   * leave the same gradients.
   */
  method UpdateGradTwice(m: DataMatrix) returns (first: seq<real>, second: seq<real>)
    requires m.Valid() && m.initialized
    modifies m.grad
    ensures first == second && |first| == m.rows
  {
    var o := m.UpdateGrad();
    first := m.grad[..];
    o := m.UpdateGrad();
    second := m.grad[..];
  }

  /** Labels 1 and 0, initial prediction 0.5, gradient prediction - label. */
  method GradientExample() returns (outcome: Outcome, g: seq<real>)
    ensures outcome == Pass && g == [-0.5, 0.5]
  {
    var m := new DataMatrix(2, 1);
    m.y[0] := 1.0;
    m.y[1] := 0.0;
    var residual: GradFunc := (truth, prediction) => prediction - truth;
    m.Init(0.5, residual);
    outcome := m.UpdateGrad();
    g := m.grad[..];
  }

  /** UpdateGrad on a fresh container reports that it is not initialized. */
  method UninitializedExample(rows: nat, columns: nat) returns (outcome: Outcome)
    ensures outcome == Fail(NotInitialized)
  {
    var m := new DataMatrix(rows, columns);
    outcome := m.UpdateGrad();
  }

  /** One column 3, 1, 2, 1: index 1, 3, 2, 0 and sorted values 1, 1, 2, 3. */
  method SortExample() returns (idx: seq<int>, values: seq<real>)
    ensures idx == [1, 3, 2, 0] && values == [1.0, 1.0, 2.0, 3.0]
  {
    var m := new DataMatrix(4, 1);
    m.data := [[3.0, 1.0, 2.0, 1.0]];
    m.BuildColumnIndex(0);
    SortedIndexExample(m.data[0]);
    idx := m.index[0];
    values := m.sortedData[0];
  }
}
