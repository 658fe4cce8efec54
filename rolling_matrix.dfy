/**
 * `RollingMatrix`: a ring buffer of equally long rows of doubles. Logical
 * row `r` is stored at physical row `(r + currentStartRow) % nrows`;
 * rolling to the next row moves the start back by one (wrapping from 0 to
 * `nrows - 1`), so every logical row moves down by one and the physical
 * row that held the last logical row is cleared and becomes logical row 0.
 * `dotProduct` applies a kernel centred on a column of one row. Doubles
 * are modelled as reals.
 */
module RollingMatrices {

  /** `n` zeros. */
  function Zeros(n: nat): (z: seq<real>)
    ensures |z| == n
    ensures forall i :: 0 <= i < n ==> z[i] == 0.0
  {
    seq(n, _ => 0.0)
  }

  /** `std::vector::resize(n, fill)`: the first `n` elements, padded with `fill`. */
  function ResizeSeq<T>(s: seq<T>, n: nat, fill: T): (r: seq<T>)
    ensures |r| == n
    ensures forall i :: 0 <= i < n ==> r[i] == if i < |s| then s[i] else fill
  {
    if n <= |s| then s[..n] else s + seq(n - |s|, _ => fill)
  }

  /**
   * The rows after `resize(n, m)`: `n` rows of `m` entries, each entry
   * kept where it existed and zero where it is new.
   */
  function Resized(rows: seq<seq<real>>, n: nat, m: nat): (r: seq<seq<real>>)
    ensures |r| == n
    ensures forall i :: 0 <= i < n ==> |r[i]| == m
    ensures forall i, j :: 0 <= i < n && 0 <= j < m ==>
      r[i][j] == if i < |rows| && j < |rows[i]| then rows[i][j] else 0.0
  {
    var padded := ResizeSeq(rows, n, []);
    seq(n, i requires 0 <= i < n => ResizeSeq(padded[i], m, 0.0))
  }

  /** The physical row that holds logical row `r` when the buffer starts at `start`. */
  function PhysicalRow(r: nat, start: nat, n: nat): (p: nat)
    requires n > 0
    ensures p < n
  {
    (r + start) % n
  }

  /** `currentStartRow` after a roll. */
  function RolledStart(start: nat, n: nat): (s: nat)
    requires 0 < n && start < n
    ensures s < n
    ensures (s + 1) % n == start
  {
    if start == 0 then n - 1 else start - 1
  }

  /** After a roll, logical row `r + 1` is held where logical row `r` was held. */
  lemma RollShiftsRows(start: nat, n: nat, r: nat)
    requires 0 < n && start < n && r + 1 < n
    ensures PhysicalRow(r + 1, RolledStart(start, n), n) == PhysicalRow(r, start, n)
  {
    var s := RolledStart(start, n);
    if start == 0 {
      assert r + 1 + s == r + n;
      ModShift(r, n);
    }
  }

  lemma ModShift(r: nat, n: nat)
    requires 0 < n && r < n
    ensures (r + n) % n == r % n
  {
  }

  /** After a roll, logical row 0 is the physical row that held the last logical row. */
  lemma RollRecyclesLastRow(start: nat, n: nat)
    requires 0 < n && start < n
    ensures PhysicalRow(0, RolledStart(start, n), n) == PhysicalRow(n - 1, start, n)
  {
    if start > 0 {
      assert n - 1 + start == (start - 1) + n;
      ModShift(start - 1, n);
    }
  }

  lemma ModOfSmall(a: nat, n: nat)
    requires a < n
    ensures a % n == a
  {
  }

  lemma ModOfNext(a: nat, n: nat)
    requires 0 < n <= a < 2 * n
    ensures a % n == a - n
  {
    ModOfSmall(a - n, n);
    ModShift(a - n, n);
  }

  /** Different logical rows below `n` are held in different physical rows. */
  lemma PhysicalRowInjective(start: nat, n: nat, r1: nat, r2: nat)
    requires 0 < n && start < n && r1 < n && r2 < n && r1 != r2
    ensures PhysicalRow(r1, start, n) != PhysicalRow(r2, start, n)
  {
    var a, b := r1 + start, r2 + start;
    if a >= n { ModOfNext(a, n); } else { ModOfSmall(a, n); }
    if b >= n { ModOfNext(b, n); } else { ModOfSmall(b, n); }
  }

  /**
   * The rows after a roll, as the logical view sees them: logical row
   * `r + 1` holds what logical row `r` held, for every `r` below the last.
   */
  lemma RolledRows(o: seq<seq<real>>, start: nat, n: nat, z: seq<real>, r: nat)
    requires |o| == n && 0 < n && start < n && r + 1 < n
    ensures var s := RolledStart(start, n);
      o[s := z][PhysicalRow(r + 1, s, n)] == o[PhysicalRow(r, start, n)]
  {
    var s := RolledStart(start, n);
    var p, q := PhysicalRow(r, start, n), PhysicalRow(n - 1, start, n);
    RollShiftsRows(start, n, r);
    assert PhysicalRow(r + 1, s, n) == p;
    RollRecyclesLastRow(start, n);
    ModOfSmall(s, n);
    assert q == s;
    PhysicalRowInjective(start, n, r, n - 1);
    assert p != s;
  }

  /** Half the kernel's length, rounded down: the kernel entry put on the centre column. */
  function Half(input: seq<real>): nat
  {
    |input| / 2
  }

  /** The kernel index that meets column `k` when the kernel is centred on column `c`. */
  function KernelIndex(input: seq<real>, c: nat, k: nat): int
  {
    k - c + Half(input)
  }

  /** The product at column `k`, or nothing where the kernel does not reach. */
  function Term(sv: seq<real>, input: seq<real>, c: nat, k: nat): real
    requires k < |sv|
  {
    var i := KernelIndex(input, c, k);
    if 0 <= i < |input| then sv[k] * input[i] else 0.0
  }

  /** The sum of `Term` over the columns below `n`. */
  function KernelUpTo(sv: seq<real>, input: seq<real>, c: nat, n: nat): real
    requires n <= |sv|
  {
    if n == 0 then 0.0 else KernelUpTo(sv, input, c, n - 1) + Term(sv, input, c, n - 1)
  }

  /**
   * The kernel centred on column `c`: the sum, over every column `k` of
   * the row, of `sv[k] * input[k - c + |input| / 2]` where that index is
   * inside the kernel.
   */
  function Kernel(sv: seq<real>, input: seq<real>, c: nat): real
  {
    KernelUpTo(sv, input, c, |sv|)
  }

  /**
   * The loop bounds of `dotProduct`: with the centre column inside the
   * row, the kernel indices `istart .. iend` meet the columns `colstart ..
   * colstart + (iend - istart)` of the row, no column before `colstart`
   * meets the kernel and no column after the last one visited does.
   */
  lemma OverlapBounds(input: seq<real>, rowLength: nat, c: nat, istart: nat, colstart: nat, iend: nat)
    requires c <= rowLength
    requires istart == if c >= Half(input) then 0 else Half(input) - c
    requires colstart == if c <= Half(input) then 0 else c - Half(input)
    requires iend == if rowLength - c > Half(input) then |input| else Half(input) + rowLength - c
    ensures istart <= iend <= |input|
    ensures iend - istart + colstart <= rowLength
    ensures forall k :: colstart <= k ==> KernelIndex(input, c, k) == k - colstart + istart
    ensures forall k :: 0 <= k < colstart ==> KernelIndex(input, c, k) < 0
    ensures forall k :: iend - istart + colstart <= k < rowLength ==> KernelIndex(input, c, k) >= |input|
  {
    var h := Half(input);
    assert 2 * h <= |input| <= 2 * h + 1;
  }

  /** One more column of the sum, where the kernel reaches it. */
  lemma KernelStep(sv: seq<real>, input: seq<real>, c: nat, k: nat, i: nat, product: real)
    requires k < |sv| && i < |input| && KernelIndex(input, c, k) == i && product == sv[k] * input[i]
    ensures KernelUpTo(sv, input, c, k + 1) == KernelUpTo(sv, input, c, k) + product
  {
  }

  /** Columns whose kernel index is past the kernel add nothing. */
  lemma {:induction false} KernelTail(sv: seq<real>, input: seq<real>, c: nat, m: nat, n: nat)
    requires m <= n <= |sv|
    requires forall k :: m <= k < n ==> KernelIndex(input, c, k) >= |input|
    ensures KernelUpTo(sv, input, c, n) == KernelUpTo(sv, input, c, m)
    decreases n
  {
    if n > m {
      KernelTail(sv, input, c, m, n - 1);
    }
  }

  /** Columns whose kernel index is negative add nothing. */
  lemma {:induction false} KernelHead(sv: seq<real>, input: seq<real>, c: nat, n: nat)
    requires n <= |sv|
    requires forall k :: 0 <= k < n ==> KernelIndex(input, c, k) < 0
    ensures KernelUpTo(sv, input, c, n) == 0.0
    decreases n
  {
    if n > 0 {
      KernelHead(sv, input, c, n - 1);
    }
  }

  /** A kernel of one entry `w` picks the centre column: the result is `w * sv[c]`. */
  lemma {:induction false} KernelOfOne(sv: seq<real>, w: real, c: nat, n: nat)
    requires c < |sv| && n <= |sv|
    ensures KernelUpTo(sv, [w], c, n) == if c < n then sv[c] * w else 0.0
    decreases n
  {
    if n > 0 {
      KernelOfOne(sv, w, c, n - 1);
    }
  }

  /** A row of zeros gives zero whatever the kernel. */
  lemma {:induction false} KernelOfZeros(sv: seq<real>, input: seq<real>, c: nat, n: nat)
    requires n <= |sv| && forall k :: 0 <= k < |sv| ==> sv[k] == 0.0
    ensures KernelUpTo(sv, input, c, n) == 0.0
    decreases n
  {
    if n > 0 {
      KernelOfZeros(sv, input, c, n - 1);
    }
  }

  /** `correl`'s output vector: grown to `n` entries with zeros when it is shorter. */
  function Grown(ret: seq<real>, n: nat): (g: seq<real>)
    ensures |g| == if |ret| < n then n else |ret|
    ensures forall i :: 0 <= i < |g| ==> g[i] == if i < |ret| then ret[i] else 0.0
  {
    if |ret| < n then ResizeSeq(ret, n, 0.0) else ret
  }

  class RollingMatrix {
    var nrows: nat
    var ncolumns: nat
    var currentStartRow: nat
    var rows: seq<seq<real>>

    /**
     * What the constructor and `resize` establish and every other member
     * keeps: `nrows` rows of `ncolumns` entries, and a start row inside
     * the buffer (zero when there are no rows).
     */
    ghost predicate Valid()
      reads this
    {
      |rows| == nrows &&
      (forall i :: 0 <= i < nrows ==> |rows[i]| == ncolumns) &&
      (if nrows == 0 then currentStartRow == 0 else currentStartRow < nrows)
    }

    /** The row logical row `r` addresses. */
    function Index(r: nat): nat
      requires nrows > 0
      reads this
    {
      PhysicalRow(r, currentStartRow, nrows)
    }

    constructor()
      ensures Valid()
      ensures nrows == 0 && ncolumns == 0 && currentStartRow == 0 && rows == []
    {
      nrows := 0;
      ncolumns := 0;
      currentStartRow := 0;
      rows := [];
    }

    /** `operator=`: every field copied from `other`. */
    method Assign(other: RollingMatrix)
      modifies this
      ensures nrows == old(other.nrows) && ncolumns == old(other.ncolumns)
      ensures currentStartRow == old(other.currentStartRow) && rows == old(other.rows)
      ensures old(other.Valid()) ==> Valid()
    {
      var n, m, s, rs := other.nrows, other.ncolumns, other.currentStartRow, other.rows;
      nrows := n;
      ncolumns := m;
      currentStartRow := s;
      rows := rs;
    }

    /** `resize(n, m)`: entries kept where they existed, zeros elsewhere, the start reset. */
    method Resize(n: nat, m: nat)
      modifies this
      ensures Valid()
      ensures nrows == n && ncolumns == m && currentStartRow == 0
      ensures rows == Resized(old(rows), n, m)
    {
      var rs := ResizeSeq(rows, n, []);
      var i := 0;
      while i < n
        invariant 0 <= i <= n && |rs| == n
        invariant forall k :: 0 <= k < i ==> rs[k] == Resized(rows, n, m)[k]
        invariant forall k :: i <= k < n ==> rs[k] == ResizeSeq(rows, n, [])[k]
      {
        rs := rs[i := ResizeSeq(rs[i], m, 0.0)];
        i := i + 1;
      }
      rows := rs;
      nrows := n;
      ncolumns := m;
      currentStartRow := 0;
    }

    /** `get(row, column)`: the entry of the addressed physical row. */
    method Get(row: nat, column: nat) returns (v: real)
      requires Valid() && nrows > 0 && column < ncolumns
      ensures v == rows[PhysicalRow(row, currentStartRow, nrows)][column]
    {
      var index := (row + currentStartRow) % nrows;
      v := rows[index][column];
    }

    /** `sumIntoEntry(input, row, column)`: `input` added to that one entry. */
    method SumIntoEntry(input: real, row: nat, column: nat)
      requires Valid() && nrows > 0 && column < ncolumns
      modifies this
      ensures Valid()
      ensures nrows == old(nrows) && ncolumns == old(ncolumns) && currentStartRow == old(currentStartRow)
      ensures var p := old(Index(row));
        rows == old(rows)[p := old(rows)[p][column := old(rows)[p][column] + input]]
    {
      var index := (row + currentStartRow) % nrows;
      var sv := rows[index];
      sv := sv[column := sv[column] + input];
      rows := rows[index := sv];
    }

    /** `sumIntoRow(input, row)`: `input[i]` added to column `i` of the addressed row. */
    method SumIntoRow(input: seq<real>, row: nat)
      requires Valid() && nrows > 0 && |input| <= ncolumns
      modifies this
      ensures Valid()
      ensures nrows == old(nrows) && ncolumns == old(ncolumns) && currentStartRow == old(currentStartRow)
      ensures var p := old(Index(row));
        |rows| == |old(rows)| &&
        (forall q :: 0 <= q < nrows && q != p ==> rows[q] == old(rows)[q]) &&
        |rows[p]| == |old(rows)[p]| &&
        forall j :: 0 <= j < ncolumns ==>
          rows[p][j] == if j < |input| then old(rows)[p][j] + input[j] else old(rows)[p][j]
    {
      var index := (row + currentStartRow) % nrows;
      var sv := rows[index];
      var i := 0;
      while i < |input|
        invariant 0 <= i <= |input| && |sv| == ncolumns
        invariant forall j :: 0 <= j < ncolumns ==>
          sv[j] == if j < i then old(rows)[index][j] + input[j] else old(rows)[index][j]
      {
        sv := sv[i := sv[i] + input[i]];
        i := i + 1;
      }
      rows := rows[index := sv];
    }

    /**
     * `dotProduct(input, row, startColumn)`: the kernel `input` centred on
     * `startColumn` of the addressed row. The loop only visits the columns
     * where the kernel and the row overlap, and never leaves either.
     */
    method DotProduct(input: seq<real>, row: nat, startColumn: nat) returns (ret: real)
      requires Valid() && nrows > 0 && startColumn <= ncolumns
      ensures ret == Kernel(rows[Index(row)], input, startColumn)
    {
      var index := PhysicalRow(row, currentStartRow, nrows);
      var sv := rows[index];
      assert |sv| == ncolumns;
      var i2 := |input| / 2;
      var istart := if startColumn >= i2 then 0 else i2 - startColumn;
      var colstart := if startColumn <= i2 then 0 else startColumn - i2;
      var iend := if |sv| - startColumn > i2 then |input| else i2 + |sv| - startColumn;
      OverlapBounds(input, |sv|, startColumn, istart, colstart, iend);
      KernelHead(sv, input, startColumn, colstart);
      ret := 0.0;
      var i, j := istart, 0;
      ghost var column := colstart;
      while i < iend
        invariant istart <= i <= iend && j == i - istart && column == j + colstart
        invariant column <= |sv|
        invariant ret == KernelUpTo(sv, input, startColumn, column)
      {
        var product := sv[j + colstart] * input[i];
        KernelStep(sv, input, startColumn, column, i, product);
        ret := ret + product;
        i, j, column := i + 1, j + 1, column + 1;
      }
      KernelTail(sv, input, startColumn, column, |sv|);
    }

    /**
     * `correl(ret, input, row)`: `ret` grown to `ncolumns` entries, then
     * the kernel centred on each column `i < ncolumns` added into `ret[i]`;
     * entries from `ncolumns` on are left alone.
     */
    method Correl(ret0: seq<real>, input: seq<real>, row: nat) returns (ret: seq<real>)
      requires Valid() && (ncolumns > 0 ==> nrows > 0)
      ensures |ret| == |Grown(ret0, ncolumns)|
      ensures forall i :: 0 <= i < |ret| ==>
        ret[i] == if i < ncolumns then Grown(ret0, ncolumns)[i] + Kernel(rows[Index(row)], input, i)
                  else ret0[i]
    {
      ret := ret0;
      if |ret| < ncolumns {
        ret := ResizeSeq(ret, ncolumns, 0.0);
      }
      ghost var grown := ret;
      var i := 0;
      while i < ncolumns
        invariant 0 <= i <= ncolumns && |ret| == |grown|
        invariant forall k :: 0 <= k < |ret| ==>
          ret[k] == if k < i then grown[k] + Kernel(rows[Index(row)], input, k) else grown[k]
      {
        var d := DotProduct(input, row, i);
        ret := ret[i := ret[i] + d];
        i := i + 1;
      }
    }

    /** `zeroOutRow(row)`: the addressed row cleared, its length kept. */
    method ZeroOutRow(row: nat)
      requires Valid() && nrows > 0
      modifies this
      ensures Valid()
      ensures nrows == old(nrows) && ncolumns == old(ncolumns) && currentStartRow == old(currentStartRow)
      ensures rows == old(rows)[old(Index(row)) := Zeros(|old(rows)[Index(row)]|)]
    {
      var index := (row + currentStartRow) % nrows;
      rows := rows[index := Zeros(|rows[index]|)];
    }

    /**
     * `rollToNextRow()`: the start moves back by one, so logical row
     * `r + 1` now holds what logical row `r` held; logical row 0, which
     * held the last logical row, is cleared.
     */
    method RollToNextRow()
      requires Valid() && nrows > 0
      modifies this
      ensures Valid()
      ensures nrows == old(nrows) && ncolumns == old(ncolumns)
      ensures currentStartRow == RolledStart(old(currentStartRow), nrows)
      ensures rows == old(rows)[currentStartRow := Zeros(ncolumns)]
      ensures forall r :: 0 <= r < nrows - 1 ==>
        rows[PhysicalRow(r + 1, currentStartRow, nrows)] == old(rows)[PhysicalRow(r, old(currentStartRow), nrows)]
      ensures rows[PhysicalRow(0, currentStartRow, nrows)] == Zeros(ncolumns)
    {
      ghost var o, start := rows, currentStartRow;
      if currentStartRow == 0 {
        currentStartRow := nrows - 1;
      } else {
        currentStartRow := currentStartRow - 1;
      }
      ModOfSmall(currentStartRow, nrows);
      ZeroOutRow(0);
      assert rows == o[currentStartRow := Zeros(ncolumns)];
      forall r | 0 <= r < nrows - 1
        ensures rows[PhysicalRow(r + 1, currentStartRow, nrows)] == o[PhysicalRow(r, start, nrows)]
      {
        RolledRows(o, start, nrows, Zeros(ncolumns), r);
      }
    }
  }
}
