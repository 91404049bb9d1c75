/**
 * The block layout both engines' perlinOctave use: child (i, j) of a parent
 * split l x l ways writes its ps x ps pixels at rows i*ps + x and columns
 * j*ps + y. Every cell of the (ps*l) x (ps*l) grid belongs to exactly one
 * child and one pixel of it.
 */
module Tiling {

  /** A pixel offset inside a block picks out that block and no other. */
  lemma BlockOwner(i: int, x: int, i': int, ps: int)
    requires ps > 0 && 0 <= x < ps
    ensures i * ps <= i' * ps + x < i * ps + ps <==> i' == i
  {
    if i' < i {
      assert (i - i') * ps >= ps by {
        ProductAtLeast(i - i', ps);
      }
    } else if i' > i {
      assert (i' - i) * ps >= ps by {
        ProductAtLeast(i' - i, ps);
      }
    }
  }

  lemma ProductAtLeast(d: int, ps: int)
    requires d >= 1 && ps > 0
    ensures d * ps >= ps
  {
  }

  /** Two (block, offset) pairs naming the same cell are the same pair. */
  lemma BlockUnique(i: int, x: int, i': int, x': int, ps: int)
    requires ps > 0 && 0 <= x < ps && 0 <= x' < ps
    requires i * ps + x == i' * ps + x'
    ensures i == i' && x == x'
  {
    BlockOwner(i, x', i', ps);
  }

  /** Every cell of a ps*l wide grid is offset X % ps inside block X / ps, one of the l blocks. */
  lemma BlockCover(X: int, ps: int, l: int)
    requires ps > 0 && 0 <= X < ps * l
    ensures 0 <= X / ps < l && 0 <= X % ps < ps
    ensures X == (X / ps) * ps + X % ps
  {
    if X / ps >= l {
      assert (X / ps) * ps >= l * ps by {
        MultiplyMonotone(l, X / ps, ps);
      }
    }
  }

  lemma MultiplyMonotone(a: int, b: int, ps: int)
    requires a <= b && ps > 0
    ensures a * ps <= b * ps
  {
    assert b * ps - a * ps == (b - a) * ps;
  }

  /** Block b offset x lies in the grid exactly when b is one of the l blocks. */
  lemma BlockInGrid(b: int, x: int, ps: int, l: int)
    requires ps > 0 && 0 <= x < ps && 0 <= b < l
    ensures 0 <= b * ps + x < ps * l
  {
    MultiplyMonotone(b, l - 1, ps);
    assert (l - 1) * ps + ps == ps * l;
  }

  /** Cell x of block i is found back by division and remainder. */
  lemma BlockDecompose(i: int, x: int, ps: int)
    requires ps > 0 && 0 <= x < ps
    ensures (i * ps + x) / ps == i && (i * ps + x) % ps == x
  {
    var X := i * ps + x;
    assert X == (X / ps) * ps + X % ps;
    BlockUnique(i, x, X / ps, X % ps, ps);
  }

  /** Cell x of block i of a grid of l blocks lies in the grid and is found back by division and remainder. */
  lemma BlockCell(i: int, x: int, ps: int, l: int)
    requires ps > 0 && 0 <= x < ps && 0 <= i < l
    ensures 0 <= i * ps + x < ps * l
    ensures (i * ps + x) / ps == i && (i * ps + x) % ps == x
  {
    BlockInGrid(i, x, ps, l);
    BlockDecompose(i, x, ps);
  }

  /** Cell (X, Y) lies in block (i, j) of a grid of ps x ps blocks. */
  predicate InBlock(X: int, Y: int, i: int, j: int, ps: int) {
    ps > 0 && X / ps == i && Y / ps == j
  }

  /** Block (X / ps, Y / ps) comes before block (i, j) in row-major order. */
  predicate BlockDone(X: int, Y: int, i: int, j: int, ps: int) {
    ps > 0 && (X / ps < i || (X / ps == i && Y / ps < j))
  }

  /** Cell (X, Y) is in block (i, j) at an offset before (x, y) in row-major order. */
  predicate CellDone(X: int, Y: int, i: int, j: int, x: int, y: int, ps: int) {
    InBlock(X, Y, i, j, ps) && (X % ps < x || (X % ps == x && Y % ps < y))
  }

  /** Writing offset (x, y) of block (i, j), at cell (X0, Y0), extends the cells done by exactly that cell. */
  lemma CellDoneStep(X: int, Y: int, i: int, j: int, x: int, y: int, ps: int, X0: int, Y0: int)
    requires ps > 0 && 0 <= x < ps && 0 <= y < ps
    requires X0 / ps == i && X0 % ps == x && Y0 / ps == j && Y0 % ps == y
    ensures CellDone(X, Y, i, j, x, y + 1, ps) <==> CellDone(X, Y, i, j, x, y, ps) || (X == X0 && Y == Y0)
  {
    if InBlock(X, Y, i, j, ps) && X % ps == x && Y % ps == y {
      assert X == (X / ps) * ps + X % ps && X0 == (X0 / ps) * ps + X0 % ps;
      assert Y == (Y / ps) * ps + Y % ps && Y0 == (Y0 / ps) * ps + Y0 % ps;
    }
  }

  /** A finished row of offsets is the start of the next one. */
  lemma CellDoneRow(X: int, Y: int, i: int, j: int, x: int, ps: int)
    requires ps > 0
    ensures CellDone(X, Y, i, j, x, ps, ps) <==> CellDone(X, Y, i, j, x + 1, 0, ps)
  {
  }

  /** After the last row the whole block is done. */
  lemma CellDoneBlock(X: int, Y: int, i: int, j: int, ps: int)
    requires ps > 0
    ensures CellDone(X, Y, i, j, ps, 0, ps) <==> InBlock(X, Y, i, j, ps)
  {
  }

  /** A finished row of blocks is the start of the next one, inside a grid of l x l blocks. */
  lemma BlockDoneRow(X: int, Y: int, i: int, ps: int, l: int)
    requires ps > 0 && 0 <= Y < ps * l
    ensures BlockDone(X, Y, i + 1, 0, ps) <==> BlockDone(X, Y, i, l, ps)
  {
    BlockCover(Y, ps, l);
  }

  /** After the last row of blocks every cell of the grid is done. */
  lemma BlockDoneGrid(X: int, Y: int, ps: int, l: int)
    requires ps > 0 && 0 <= X < ps * l
    ensures BlockDone(X, Y, l, 0, ps)
  {
    BlockCover(X, ps, l);
  }

  /** The cell at offset x of block i, computed as perlinOctave indexes it: i * ps + x. */
  method Place(i: int, x: int, ps: int, l: int, size: int) returns (X: int)
    requires ps > 0 && 0 <= x < ps && 0 <= i < l && size == ps * l
    ensures 0 <= X < size && X / ps == i && X % ps == x
  {
    X := i * ps + x;
    BlockCell(i, x, ps, l);
  }

  /** The block that cell k >= 0 lies in. */
  function Block(k: int, ps: int): (r: nat)
    requires ps > 0 && k >= 0
    ensures r == k / ps
  {
    k / ps
  }

  /** The offset of cell k inside its block of ps, as a pixel coordinate. */
  function Offset(k: int, ps: int): (r: nat)
    requires ps > 0
    ensures r < ps && r == k % ps
  {
    k % ps
  }

  /** Rows of blocks before row i: every cell X with X / ps < i. */
  predicate RowDone(X: int, i: int, ps: int) {
    ps > 0 && X / ps < i
  }

  /** No cell of the grid comes before the first row of blocks. */
  lemma NoRowDone(X: int, ps: int)
    requires 0 <= X
    ensures !RowDone(X, 0, ps)
  {
    if ps > 0 {
      assert X == (X / ps) * ps + X % ps;
      if X / ps < 0 {
        MultiplyMonotone(X / ps, -1, ps);
      }
    }
  }
}
