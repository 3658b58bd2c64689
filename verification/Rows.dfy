/** Flat buffers seen as rows of equal length, one per spoke. */
module Rows {
  lemma RowFits(r: nat, n: nat, rowLen: nat)
    requires r < n
    ensures 0 <= r * rowLen && r * rowLen + rowLen <= n * rowLen
  {
    assert (n - r - 1) * rowLen >= 0;
    assert n * rowLen == (n - r - 1) * rowLen + r * rowLen + rowLen;
  }

  function Row(buf: seq<nat>, r: nat, n: nat, rowLen: nat): (row: seq<nat>)
    requires |buf| == n * rowLen && r < n
    ensures |row| == rowLen
  {
    RowFits(r, n, rowLen);
    buf[r * rowLen..r * rowLen + rowLen]
  }

  function AllRows(buf: seq<nat>, n: nat, rowLen: nat): (rows: seq<seq<nat>>)
    requires |buf| == n * rowLen
    ensures |rows| == n && forall r :: 0 <= r < n ==> rows[r] == Row(buf, r, n, rowLen)
  {
    seq(n, r requires 0 <= r < n => Row(buf, r, n, rowLen))
  }

  /** A change within one row leaves the others as they are. */
  lemma OtherRowsKept(before: seq<nat>, after: seq<nat>, a: nat, n: nat, rowLen: nat)
    requires |before| == |after| == n * rowLen && a < n
    requires forall i :: 0 <= i < |after| && !(a * rowLen <= i < a * rowLen + rowLen) ==> after[i] == before[i]
    ensures AllRows(after, n, rowLen) == AllRows(before, n, rowLen)[a := Row(after, a, n, rowLen)]
  {
    forall r | 0 <= r < n && r != a ensures Row(after, r, n, rowLen) == Row(before, r, n, rowLen) {
      RowFits(r, n, rowLen);
      if r < a { RowFits(r, a, rowLen); } else { RowFits(a, r, rowLen); }
      forall i | 0 <= i < rowLen
        ensures Row(after, r, n, rowLen)[i] == Row(before, r, n, rowLen)[i]
      {
        assert after[r * rowLen + i] == before[r * rowLen + i];
      }
    }
  }
}
