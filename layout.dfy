/** Grid layout of the station circles: station i sits in row i div 12 and
    column i mod 12, and its circle centre is placed from the margin and the
    spacing constants of the sketch. */
module Layout {

  const MarginX: int := 50
  const MarginY: int := 50
  const CircleSpacingX: int := 100
  const CircleSpacingY: int := 120
  const CircleSize: int := 80
  /** Circles per row. */
  const Columns: int := 12

  /** A point on the canvas, in pixels. */
  datatype Point = Point(x: int, y: int)

  /** The row of station i: the number of complete rows of 12 before it. */
  function Row(i: nat): (r: nat)
    ensures r * Columns <= i < (r + 1) * Columns
  {
    i / Columns
  }

  /** The column of station i: its place within its row. */
  function Column(i: nat): (c: nat)
    ensures c < Columns
    ensures Row(i) * Columns + c == i
  {
    i % Columns
  }

  /** The centre of station i's circle. It lies on the lattice of cell centres,
      and the lattice cell it lies in is exactly (Column(i), Row(i)). */
  function Centre(i: nat): (p: Point)
    ensures MarginX <= p.x <= MarginX + CircleSpacingX * (Columns - 1)
    ensures p.y >= MarginY
    ensures (p.x - MarginX) % CircleSpacingX == 0 && (p.x - MarginX) / CircleSpacingX == Column(i)
    ensures (p.y - MarginY) % CircleSpacingY == 0 && (p.y - MarginY) / CircleSpacingY == Row(i)
  {
    Point(MarginX + CircleSpacingX * Column(i), MarginY + CircleSpacingY * Row(i))
  }

  /** Distinct stations get distinct circle centres. */
  lemma CentreInjective(i: nat, j: nat)
    requires Centre(i) == Centre(j)
    ensures i == j
  {
  }

  /** Stations are laid out row by row: the next station is one spacing to the
      right, or, after the last column, at the left margin one row down. */
  lemma CentreSuccessor(i: nat)
    ensures Column(i) < Columns - 1 ==>
      Centre(i + 1) == Point(Centre(i).x + CircleSpacingX, Centre(i).y)
    ensures Column(i) == Columns - 1 ==>
      Centre(i + 1) == Point(MarginX, Centre(i).y + CircleSpacingY)
  {
  }
}
