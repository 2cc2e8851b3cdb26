/** The row-major flattened layout row*width + col used for observation vectors and bias coefficients. */
module Layout {

  function Flat(width: nat, row: nat, col: nat): (k: nat) { row * width + col }

  lemma InRange(rows: nat, width: nat, row: nat, col: nat)
    requires row < rows && col < width
    ensures Flat(width, row, col) < rows * width
  {
    assert (row + 1) * width <= rows * width;
  }

  lemma Injective(width: nat, row: nat, col: nat, row': nat, col': nat)
    requires col < width && col' < width
    ensures Flat(width, row, col) == Flat(width, row', col') <==> row == row' && col == col'
  {
    if row < row' {
      assert (row + 1) * width <= row' * width;
    } else if row' < row {
      assert (row' + 1) * width <= row * width;
    }
  }

  // Every flattened index is the index of exactly one cell (Injective gives uniqueness).
  lemma Surjective(rows: nat, width: nat, k: nat) returns (row: nat, col: nat)
    requires k < rows * width
    ensures row < rows && col < width && Flat(width, row, col) == k
  {
    row, col := k / width, k % width;
    assert row * width <= k < rows * width;
  }

  function Cell<T>(x: seq<T>, rows: nat, width: nat, row: nat, col: nat): (d: T)
    requires |x| == rows * width && row < rows && col < width
  {
    InRange(rows, width, row, col);
    x[Flat(width, row, col)]
  }

  lemma Updated<T>(x: seq<T>, rows: nat, width: nat, row: nat, col: nat, d: T, k: nat, r: nat, c: nat)
    requires |x| == rows * width && row < rows && col < width && r < rows && c < width
    requires k == Flat(width, row, col) && k < |x|
    ensures Cell(x[k := d], rows, width, r, c) == if r == row && c == col then d else Cell(x, rows, width, r, c)
  {
    var j := Flat(width, r, c);
    assert j < |x| by { InRange(rows, width, r, c); }
    var x' := x[k := d];
    assert Cell(x', rows, width, r, c) == x'[j];
    assert Cell(x, rows, width, r, c) == x[j];
    assert k == j <==> r == row && c == col by { Injective(width, row, col, r, c); }
  }

  // Overwrite one cell; no other cell changes.
  function Put<T>(x: seq<T>, rows: nat, width: nat, row: nat, col: nat, d: T): (x': seq<T>)
    requires |x| == rows * width && row < rows && col < width
    ensures |x'| == |x|
    ensures forall r: nat, c: nat {:trigger Cell(x', rows, width, r, c)} :: r < rows && c < width ==>
              Cell(x', rows, width, r, c) == if r == row && c == col then d else Cell(x, rows, width, r, c)
  {
    InRange(rows, width, row, col);
    var k := Flat(width, row, col);
    forall r: nat, c: nat | r < rows && c < width
      ensures Cell(x[k := d], rows, width, r, c) == if r == row && c == col then d else Cell(x, rows, width, r, c)
    {
      Updated(x, rows, width, row, col, d, k, r, c);
    }
    x[k := d]
  }

  // The flattened array with given cells
  function Tabulated<T>(rows: nat, width: nat, f: (nat, nat) -> T): (x: seq<T>)
    ensures |x| == rows * width
    ensures forall r: nat, c: nat {:trigger Cell(x, rows, width, r, c)} :: r < rows && c < width ==>
              Cell(x, rows, width, r, c) == f(r, c)
  {
    if rows == 0 then [] else
      var x := Tabulated(rows - 1, width, f) + seq(width, (c: nat) => f(rows - 1, c));
      TabulatedRow(rows, width, f, Tabulated(rows - 1, width, f), x);
      x
  }

  lemma TabulatedRow<T>(rows: nat, width: nat, f: (nat, nat) -> T, before: seq<T>, x: seq<T>)
    requires rows > 0 && |before| == (rows - 1) * width && x == before + seq(width, (c: nat) => f(rows - 1, c))
    requires forall r: nat, c: nat {:trigger Cell(before, rows - 1, width, r, c)} :: r < rows - 1 && c < width ==>
               Cell(before, rows - 1, width, r, c) == f(r, c)
    ensures |x| == rows * width
    ensures forall r: nat, c: nat {:trigger Cell(x, rows, width, r, c)} :: r < rows && c < width ==>
              Cell(x, rows, width, r, c) == f(r, c)
  {
    assert rows * width == (rows - 1) * width + width;
    forall r: nat, c: nat | r < rows && c < width ensures Cell(x, rows, width, r, c) == f(r, c) {
      InRange(rows, width, r, c);
      if r < rows - 1 {
        InRange(rows - 1, width, r, c);
        assert Cell(before, rows - 1, width, r, c) == f(r, c);
      }
    }
  }

  // Two flattened arrays that agree cell by cell are equal.
  lemma Extensional<T>(x: seq<T>, y: seq<T>, rows: nat, width: nat)
    requires |x| == |y| == rows * width
    requires forall r: nat, c: nat :: r < rows && c < width ==>
               Cell(x, rows, width, r, c) == Cell(y, rows, width, r, c)
    ensures x == y
  {
    forall k: nat | k < rows * width ensures x[k] == y[k] {
      var r, c := Surjective(rows, width, k);
      assert Cell(x, rows, width, r, c) == Cell(y, rows, width, r, c);
    }
  }
}
