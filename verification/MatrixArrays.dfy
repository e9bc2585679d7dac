/** Two-dimensional arrays as matrices. The program keeps its matrices in flat
  row-major buffers; entry `(r, c)` of the array stands for index `r * n + c`. */
module MatrixArrays {
  import opened LinearSystems

  ghost function Rows(a: array2<real>): (m: Matrix)
    reads a
    ensures |m| == a.Length0 && forall r | 0 <= r < |m| :: |m[r]| == a.Length1
    ensures forall r, c | 0 <= r < a.Length0 && 0 <= c < a.Length1 :: m[r][c] == a[r, c]
  {
    seq(a.Length0, r requires 0 <= r < a.Length0 reads a => seq(a.Length1, c requires 0 <= c < a.Length1 reads a => a[r, c]))
  }

  lemma RowsEqual(a: array2<real>, m: Matrix)
    requires |m| == a.Length0 && forall r | 0 <= r < |m| :: |m[r]| == a.Length1
    requires forall r, c | 0 <= r < a.Length0 && 0 <= c < a.Length1 :: m[r][c] == a[r, c]
    ensures Rows(a) == m
  {
    forall r | 0 <= r < |m|
      ensures Rows(a)[r] == m[r]
    {
    }
  }
}
