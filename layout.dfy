/** The layout of the output table: one row per (tick, asset) pair, ticks
    outermost and assets in creation order within a tick. */
module Layout {

  /** Row j of a table with n assets per tick belongs to tick TickOf(j, n). */
  function TickOf(j: nat, n: nat): (k: nat)
    requires n > 0
  {
    if j < n then 0 else TickOf(j - n, n) + 1
  }

  /** Row j of a table with n assets per tick belongs to asset AssetOf(j, n). */
  function AssetOf(j: nat, n: nat): (i: nat)
    requires n > 0
    ensures i < n
  {
    if j < n then j else AssetOf(j - n, n)
  }

  /** Asset a of tick k sits at row k * n + a. */
  lemma {:induction false} RowPosition(k: nat, n: nat, a: nat)
    requires a < n
    ensures TickOf(k * n + a, n) == k && AssetOf(k * n + a, n) == a
    decreases k
  {
    if k > 0 {
      assert k * n + a - n == (k - 1) * n + a;
      RowPosition(k - 1, n, a);
    }
  }

  /** Tick and asset of a row are the quotient and remainder of its index. */
  lemma RowIsDivMod(j: nat, n: nat)
    requires n > 0
    ensures TickOf(j, n) == j / n && AssetOf(j, n) == j % n
  {
    var q, r := j / n, j % n;
    assert j == q * n + r;
    RowPosition(q, n, r);
  }

  /** The first m rows of the table whose row for tick k and asset i is cell(k, i). */
  function Rows<T>(n: nat, m: nat, cell: (nat, nat) --> T): (t: seq<T>)
    requires m == 0 || n > 0
    requires forall k: nat, i: nat :: i < n ==> cell.requires(k, i)
    ensures |t| == m
    decreases m
  {
    if m == 0 then [] else Rows(n, m - 1, cell) + [cell(TickOf(m - 1, n), AssetOf(m - 1, n))]
  }

  lemma {:induction false} RowsAt<T>(n: nat, m: nat, cell: (nat, nat) --> T, j: nat)
    requires n > 0 && j < m
    requires forall k: nat, i: nat :: i < n ==> cell.requires(k, i)
    ensures Rows(n, m, cell)[j] == cell(TickOf(j, n), AssetOf(j, n))
    decreases m
  {
    if j < m - 1 {
      RowsAt(n, m - 1, cell, j);
    }
  }

  /** One more row appends the cell of that row's tick and asset. */
  lemma RowsSnoc<T>(n: nat, j: nat, cell: (nat, nat) --> T)
    requires n > 0
    requires forall k: nat, i: nat :: i < n ==> cell.requires(k, i)
    ensures Rows(n, j + 1, cell) == Rows(n, j, cell) + [cell(TickOf(j, n), AssetOf(j, n))]
  {
  }

  /** The first a rows of tick k extend the rows before that tick by the first
      a cells of the tick. */
  lemma {:induction false} RowsPartTick<T>(n: nat, k: nat, a: nat, cell: (nat, nat) --> T, block: seq<T>)
    requires n > 0 && a <= n
    requires forall k: nat, i: nat :: i < n ==> cell.requires(k, i)
    requires |block| == n && forall i :: 0 <= i < n ==> block[i] == cell(k, i)
    ensures Rows(n, k * n + a, cell) == Rows(n, k * n, cell) + block[..a]
    decreases a
  {
    if a > 0 {
      RowsPartTick(n, k, a - 1, cell, block);
      RowPosition(k, n, a - 1);
      RowsSnoc(n, k * n + (a - 1), cell);
      assert block[..a] == block[..a - 1] + [block[a - 1]];
    }
  }

  /** Appending the rows of one whole tick extends the table by that tick. */
  lemma RowsAppendTick<T>(n: nat, k: nat, cell: (nat, nat) --> T, block: seq<T>)
    requires n > 0
    requires forall k: nat, i: nat :: i < n ==> cell.requires(k, i)
    requires |block| == n && forall i :: 0 <= i < n ==> block[i] == cell(k, i)
    ensures Rows(n, (k + 1) * n, cell) == Rows(n, k * n, cell) + block
  {
    RowsPartTick(n, k, n, cell, block);
    assert block[..n] == block;
    assert k * n + n == (k + 1) * n;
  }
}
