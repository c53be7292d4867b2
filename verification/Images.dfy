/** Pixel grids shared by the stitching and upscaling models.

    An image that a routine only reads, or that it has finished building, is a value of
    type `Grid<T>`.  A buffer that a routine paints into is an `array2<T>` indexed
    `[row, column]`; `Freeze` is the value such a buffer holds at one moment.
 */
module Images {

  type U8 = x: int | 0 <= x < 256

  datatype Rgb = Rgb(r: U8, g: U8, b: U8)

  const Black := Rgb(0, 0, 0)

  /** `rows[y][x]` is the element at column x and row y. */
  datatype GridRaw<T> = Grid(w: nat, h: nat, rows: seq<seq<T>>) {
    ghost predicate Valid() {
      |rows| == h && forall y | 0 <= y < h :: |rows[y]| == w
    }

    predicate Has(x: int, y: int) {
      0 <= x < w && 0 <= y < h
    }

    function At(x: int, y: int): T
      requires Valid() && Has(x, y)
    {
      rows[y][x]
    }
  }

  type Grid<T> = g: GridRaw<T> | g.Valid() witness GridRaw.Grid(0, 0, [])

  /** The grid whose element at (x, y) is f(x, y). */
  function Tabulate<T>(w: nat, h: nat, f: (int, int) -> T): (g: Grid<T>)
    ensures g.w == w && g.h == h
    ensures forall x, y | g.Has(x, y) :: g.At(x, y) == f(x, y)
  {
    Grid(w, h, seq(h, y => seq(w, x => f(x, y))))
  }

  /** What a buffer holds now. */
  function Freeze<T>(a: array2<T>): (g: Grid<T>)
    reads a
    ensures g.w == a.Length1 && g.h == a.Length0
    ensures forall x, y | g.Has(x, y) :: g.At(x, y) == a[y, x]
  {
    Grid(a.Length1, a.Length0,
         seq(a.Length0, y requires 0 <= y < a.Length0 reads a =>
           seq(a.Length1, x requires 0 <= x < a.Length1 reads a => a[y, x])))
  }

  /** Two grids of the same size with the same elements are the same grid. */
  lemma GridsEqual<T>(a: Grid<T>, b: Grid<T>)
    requires a.w == b.w && a.h == b.h
    requires forall x, y | a.Has(x, y) :: a.At(x, y) == b.At(x, y)
    ensures a == b
  {
    forall y | 0 <= y < a.h
      ensures a.rows[y] == b.rows[y]
    {
      forall x | 0 <= x < a.w
        ensures a.rows[y][x] == b.rows[y][x]
      {
        assert a.At(x, y) == b.At(x, y);
      }
    }
  }

  /** Rows become columns. */
  function Transpose<T>(g: Grid<T>): (r: Grid<T>)
    ensures r.w == g.h && r.h == g.w
    ensures forall x, y | g.Has(x, y) :: r.At(y, x) == g.At(x, y)
  {
    Grid(g.h, g.w, seq(g.w, x requires 0 <= x < g.w => seq(g.h, y requires 0 <= y < g.h => g.At(x, y))))
  }
}
