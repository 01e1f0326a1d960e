/**
 * Row-major addressing of a width-nx pixel buffer: pixel (y, x) is element y * nx + x of
 * the flat buffer, which is how numpy lays out `im_array`.
 */
module Raster {

  function Idx(nx: nat, y: nat, x: nat): nat
  {
    y * nx + x
  }

  /** Every pixel of an nx-by-ny buffer has an index inside the buffer. */
  lemma IdxInBounds(nx: nat, ny: nat, y: nat, x: nat)
    requires y < ny && x < nx
    ensures Idx(nx, y, x) < nx * ny
    ensures Idx(nx, y, x) + nx - x <= nx * ny
  {
    assert y + 1 <= ny;
    assert (y + 1) * nx <= ny * nx;
  }

  /** The row below pixel (y, x), when there is one, lies inside the buffer too. */
  lemma BelowInBounds(nx: nat, ny: nat, y: nat, x: nat)
    requires y < ny && x < nx
    ensures y + 1 < ny ==> Idx(nx, y, x) + nx + (nx - x) <= nx * ny
  {
    if y + 1 < ny {
      assert Idx(nx, y, x) + nx == Idx(nx, y + 1, x);
      IdxInBounds(nx, ny, y + 1, x);
    }
  }

  /** Positions up to the end of a row stay inside the buffer. */
  lemma RowPrefixInBounds(nx: nat, ny: nat, y: nat, x: nat)
    requires y < ny && x <= nx
    ensures Idx(nx, y, x) <= nx * ny
  {
    assert (y + 1) * nx <= ny * nx;
  }

  /** Pixels of a later row have larger indices than every pixel of an earlier row. */
  lemma RowStartsAfter(nx: nat, y1: nat, y2: nat, x: nat)
    requires y1 < y2 && x < nx
    ensures Idx(nx, y1, x) < y2 * nx
  {
    assert (y1 + 1) * nx <= y2 * nx;
  }

  /** Row starts grow with the row number. */
  lemma RowStartMonotone(nx: nat, y1: nat, y2: nat)
    requires y1 <= y2
    ensures y1 * nx <= y2 * nx
  {
  }

  /** Every buffer element is some pixel (y, x): the row-major layout leaves no gaps. */
  lemma {:induction false} Decompose(nx: nat, ny: nat, i: nat) returns (y: nat, x: nat)
    requires i < nx * ny
    ensures y < ny && x < nx && i == Idx(nx, y, x)
    decreases ny
  {
    assert nx * ny == (ny - 1) * nx + nx;
    if i < (ny - 1) * nx {
      y, x := Decompose(nx, ny - 1, i);
    } else {
      y, x := ny - 1, i - (ny - 1) * nx;
    }
  }
}
