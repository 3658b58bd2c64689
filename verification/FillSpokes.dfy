/**
 The fill spoke processor of the web viewer: rows of a flat display buffer, one
 per spoke, in which missing spokes are filled with the next one received.
 */
module FillSpokes {
  import opened Options
  import opened Rows

  datatype Spoke = Spoke(angle: nat, data: seq<nat>)

  /** Steps forward from one angle to another; a repeated angle counts as a whole turn. */
  function CalculateGap(last: nat, current: nat, n: nat): int {
    if current > last then current - last else n - last + current
  }

  // ----- One row

  /** What writing a spoke at an offset leaves at index i: the data, zeros up to the row's end, or what was there. */
  function Written(buf: seq<nat>, offset: nat, data: seq<nat>, rowLen: nat, i: nat): nat
    requires i < |buf|
  {
    if offset + |data| > |buf| then buf[i]
    else if offset <= i < offset + |data| then data[i - offset]
    else if offset + |data| <= i < offset + rowLen then 0
    else buf[i]
  }

  function WriteRow(buf: seq<nat>, offset: nat, data: seq<nat>, rowLen: nat): (r: seq<nat>)
    ensures |r| == |buf|
  {
    seq(|buf|, i requires 0 <= i < |buf| => Written(buf, offset, data, rowLen, i))
  }

  /** Writing in place; nothing happens when the data would run past the buffer. */
  method PutRow(buffer: array<nat>, offset: nat, data: seq<nat>, rowLen: nat)
    modifies buffer
    ensures buffer[..] == WriteRow(old(buffer[..]), offset, data, rowLen)
    ensures offset + |data| > buffer.Length ==> buffer[..] == old(buffer[..])
    ensures offset + |data| <= buffer.Length ==> forall i :: 0 <= i < buffer.Length ==>
              buffer[i] == if i < offset then old(buffer[i])
                           else if i < offset + |data| then data[i - offset]
                           else if i < offset + rowLen then 0
                           else old(buffer[i])
  {
    if offset + |data| > buffer.Length {
      assert buffer[..] == WriteRow(old(buffer[..]), offset, data, rowLen);
      return;
    }
    for j := 0 to |data|
      invariant forall i :: 0 <= i < buffer.Length ==>
                  buffer[i] == if offset <= i < offset + j then data[i - offset] else old(buffer[i])
    {
      buffer[offset + j] := data[j];
    }
    var end := if offset + rowLen < buffer.Length then offset + rowLen else buffer.Length;
    var k := offset + |data|;
    while k < end
      invariant offset + |data| <= k
      invariant forall i :: 0 <= i < buffer.Length ==>
                  buffer[i] == if offset <= i < offset + |data| then data[i - offset]
                               else if offset + |data| <= i < k && i < end then 0 else old(buffer[i])
    {
      buffer[k] := 0;
      k := k + 1;
    }
    assert buffer[..] == WriteRow(old(buffer[..]), offset, data, rowLen);
  }

  // ----- One spoke

  /**
   The rows after `last`, up to but not including the k-th, all get the spoke.
   Without spokes to the turn the remainder is not a number, and none is written.
   */
  function FillRows(buf: seq<nat>, last: nat, k: nat, data: seq<nat>, n: nat, rowLen: nat): (r: seq<nat>)
    ensures |r| == |buf|
  {
    if n == 0 || k <= 1 then buf
    else WriteRow(FillRows(buf, last, k - 1, data, n, rowLen), (last + k - 1) % n * rowLen, data, rowLen)
  }

  function Processed(buf: seq<nat>, last: Option<nat>, spoke: Spoke, n: nat, rowLen: nat): (r: seq<nat>)
    ensures |r| == |buf|
  {
    var filled :=
      if last.None? then buf
      else
        var gap := CalculateGap(last.value, spoke.angle, n);
        if gap > 1 then FillRows(buf, last.value, gap, spoke.data, n, rowLen) else buf;
    WriteRow(filled, spoke.angle * rowLen, spoke.data, rowLen)
  }

  class FillSpokeProcessor {
    var lastProcessedAngle: Option<nat>

    constructor ()
      ensures lastProcessedAngle.None?
    {
      lastProcessedAngle := None;
    }

    method Reset()
      modifies this
      ensures lastProcessedAngle.None?
    {
      lastProcessedAngle := None;
    }

    method FillGap(buffer: array<nat>, spoke: Spoke, last: nat, gap: nat, n: nat, rowLen: nat)
      modifies buffer
      ensures buffer[..] == FillRows(old(buffer[..]), last, gap, spoke.data, n, rowLen)
    {
      if gap <= 1 {
        return;
      }
      for i := 1 to gap
        invariant buffer[..] == FillRows(old(buffer[..]), last, i, spoke.data, n, rowLen)
      {
        if n > 0 {
          PutRow(buffer, (last + i) % n * rowLen, spoke.data, rowLen);
        }
      }
    }

    method ProcessSpoke(buffer: array<nat>, spoke: Spoke, n: nat, rowLen: nat)
      modifies this, buffer
      ensures buffer[..] == Processed(old(buffer[..]), old(lastProcessedAngle), spoke, n, rowLen)
      ensures lastProcessedAngle == Some(spoke.angle)
    {
      if lastProcessedAngle.Some? {
        var gap := CalculateGap(lastProcessedAngle.value, spoke.angle, n);
        if gap > 1 {
          FillGap(buffer, spoke, lastProcessedAngle.value, gap, n, rowLen);
        }
      }
      lastProcessedAngle := Some(spoke.angle);
      PutRow(buffer, spoke.angle * rowLen, spoke.data, rowLen);
    }
  }

  // ----- Rows

  ghost predicate IsBuffer(buf: seq<nat>, n: nat, rowLen: nat) {
    n > 0 && |buf| == n * rowLen
  }

  function Padded(data: seq<nat>, rowLen: nat): (p: seq<nat>)
    requires |data| <= rowLen
    ensures |p| == rowLen && data <= p && forall i :: |data| <= i < rowLen ==> p[i] == 0
  {
    data + seq(rowLen - |data|, i => 0)
  }

  /** Writing one row changes that row and no other. */
  lemma WriteRowRows(buf: seq<nat>, a: nat, data: seq<nat>, n: nat, rowLen: nat, r: nat)
    requires IsBuffer(buf, n, rowLen) && |data| <= rowLen && a < n && r < n
    ensures Row(WriteRow(buf, a * rowLen, data, rowLen), r, n, rowLen) ==
            if r == a then Padded(data, rowLen) else Row(buf, r, n, rowLen)
  {
    RowFits(a, n, rowLen);
    RowFits(r, n, rowLen);
    if r < a {
      RowFits(r, a, rowLen);
    } else if a < r {
      RowFits(a, r, rowLen);
    }
    var after := WriteRow(buf, a * rowLen, data, rowLen);
    var row := Row(after, r, n, rowLen);
    forall i | 0 <= i < rowLen
      ensures row[i] == if r == a then Padded(data, rowLen)[i] else Row(buf, r, n, rowLen)[i]
    {
      assert row[i] == after[r * rowLen + i];
    }
  }

  /** The i-th step from `last` lands on r exactly when i is the gap to r. */
  lemma StepLands(n: nat, last: nat, r: nat, i: nat)
    requires last < n && r < n && 1 <= i <= n
    ensures (last + i) % n == r <==> CalculateGap(last, r, n) == i
    ensures 1 <= CalculateGap(last, r, n) <= n
  {
    WrapsOnce(last + i, n);
  }

  lemma WrapsOnce(x: nat, n: nat)
    requires x < 2 * n
    ensures x % n == if x < n then x else x - n
  {
    if x >= n {
      assert x == n * 1 + (x - n);
    }
  }

  lemma {:induction false} FillRowsRows(buf: seq<nat>, last: nat, k: nat, data: seq<nat>, n: nat, rowLen: nat, r: nat)
    requires IsBuffer(buf, n, rowLen) && |data| <= rowLen && last < n && r < n && k <= n
    ensures Row(FillRows(buf, last, k, data, n, rowLen), r, n, rowLen) ==
            if CalculateGap(last, r, n) < k then Padded(data, rowLen) else Row(buf, r, n, rowLen)
  {
    if k <= 1 {
      StepLands(n, last, r, 1);
    } else {
      FillRowsRows(buf, last, k - 1, data, n, rowLen, r);
      StepLands(n, last, r, k - 1);
      WriteRowRows(FillRows(buf, last, k - 1, data, n, rowLen), (last + k - 1) % n, data, n, rowLen, r);
    }
  }

  /** A spoke sweeps the rows after the last angle up to and including its own. */
  predicate Sweeps(n: nat, last: Option<nat>, angle: nat, r: nat) {
    if last.None? then r == angle else CalculateGap(last.value, r, n) <= CalculateGap(last.value, angle, n)
  }

  /** Each spoke rewrites exactly the circular interval it sweeps, with its own data padded by zeros. */
  lemma ProcessedRows(buf: seq<nat>, last: Option<nat>, spoke: Spoke, n: nat, rowLen: nat, r: nat)
    requires IsBuffer(buf, n, rowLen) && |spoke.data| <= rowLen && spoke.angle < n && r < n
    requires last.Some? ==> last.value < n
    ensures Row(Processed(buf, last, spoke, n, rowLen), r, n, rowLen) ==
            if Sweeps(n, last, spoke.angle, r) then Padded(spoke.data, rowLen) else Row(buf, r, n, rowLen)
  {
    hide WriteRow, FillRows, Row, Padded;
    if last.None? {
      WriteRowRows(buf, spoke.angle, spoke.data, n, rowLen, r);
    } else {
      var gap := CalculateGap(last.value, spoke.angle, n);
      StepLands(n, last.value, spoke.angle, 1);
      StepLands(n, last.value, r, gap);
      StepLands(n, last.value, spoke.angle, gap);
      if gap > 1 {
        FillRowsRows(buf, last.value, gap, spoke.data, n, rowLen, r);
        WriteRowRows(FillRows(buf, last.value, gap, spoke.data, n, rowLen), spoke.angle, spoke.data, n, rowLen, r);
      } else {
        WriteRowRows(buf, spoke.angle, spoke.data, n, rowLen, r);
      }
    }
  }

  /** A spoke sweeps the whole ring exactly when it repeats the last angle. */
  lemma RepeatSweepsWholeRing(n: nat, last: nat, angle: nat)
    requires last < n && angle < n
    ensures (forall r: nat :: r < n ==> Sweeps(n, Some(last), angle, r)) <==> angle == last
  {
    StepLands(n, last, angle, 1);
    if angle != last {
      assert !Sweeps(n, Some(last), angle, last);
    }
  }

  // ----- Runs

  ghost predicate GoodRun(n: nat, rowLen: nat, spokes: seq<Spoke>) {
    forall i :: 0 <= i < |spokes| ==> spokes[i].angle < n && |spokes[i].data| <= rowLen
  }

  /** The angle before the i-th spoke of a run since reset. */
  function LastBefore(spokes: seq<Spoke>, i: nat): Option<nat>
    requires i <= |spokes|
  {
    if i == 0 then None else Some(spokes[i - 1].angle)
  }

  function Run(buf: seq<nat>, spokes: seq<Spoke>, n: nat, rowLen: nat): (r: seq<nat>)
    ensures |r| == |buf|
  {
    if spokes == [] then buf
    else
      var m := |spokes| - 1;
      Processed(Run(buf, spokes[..m], n, rowLen), LastBefore(spokes, m), spokes[m], n, rowLen)
  }

  ghost predicate SweptAt(n: nat, spokes: seq<Spoke>, i: nat, r: nat)
    requires i < |spokes|
  {
    Sweeps(n, LastBefore(spokes, i), spokes[i].angle, r)
  }

  /** Over any run since reset, a row shows the spoke that swept it last, or what it showed before the run. */
  lemma {:induction false} RowsShowLatest(buf: seq<nat>, spokes: seq<Spoke>, n: nat, rowLen: nat, r: nat, j: nat)
    requires IsBuffer(buf, n, rowLen) && GoodRun(n, rowLen, spokes) && r < n && j <= |spokes|
    requires j < |spokes| ==> SweptAt(n, spokes, j, r)
    requires forall i: nat :: i < |spokes| && (j == |spokes| || j < i) ==> !SweptAt(n, spokes, i, r)
    ensures Row(Run(buf, spokes, n, rowLen), r, n, rowLen) ==
            if j < |spokes| then Padded(spokes[j].data, rowLen) else Row(buf, r, n, rowLen)
    decreases |spokes|
  {
    hide Processed, Row, Padded, Sweeps;
    if spokes != [] {
      var m := |spokes| - 1;
      var front := spokes[..m];
      ProcessedRows(Run(buf, front, n, rowLen), LastBefore(spokes, m), spokes[m], n, rowLen, r);
      if j != m {
        forall i: nat | i < m ensures SweptAt(n, front, i, r) == SweptAt(n, spokes, i, r) {
          assert LastBefore(front, i) == LastBefore(spokes, i);
        }
        assert !SweptAt(n, spokes, m, r);
        RowsShowLatest(buf, front, n, rowLen, r, if j < m then j else m);
      }
    }
  }

  /** How far spokes i, i + 1 and so on up to j have turned. */
  function Turned(n: nat, spokes: seq<Spoke>, i: nat, j: nat): int
    requires 1 <= i <= j <= |spokes|
    decreases j - i
  {
    if i == j then 0
    else CalculateGap(spokes[i - 1].angle, spokes[i].angle, n) + Turned(n, spokes, i + 1, j)
  }

  /** No row is missed: once the spokes from i on have turned as far as a row, one of them has swept it. */
  lemma {:induction false} TurnSweepsAll(n: nat, rowLen: nat, spokes: seq<Spoke>, i: nat, j: nat, r: nat)
    returns (k: nat)
    requires GoodRun(n, rowLen, spokes) && 1 <= i <= j <= |spokes| && r < n
    requires CalculateGap(spokes[i - 1].angle, r, n) <= Turned(n, spokes, i, j)
    ensures i <= k < j && SweptAt(n, spokes, k, r)
    decreases j - i
  {
    var last := spokes[i - 1].angle;
    StepLands(n, last, r, 1);
    var gap := CalculateGap(last, spokes[i].angle, n);
    if CalculateGap(last, r, n) <= gap {
      k := i;
    } else {
      StepLands(n, last, spokes[i].angle, 1);
      k := TurnSweepsAll(n, rowLen, spokes, i + 1, j, r);
    }
  }
}
