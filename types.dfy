/** The record types shared by the parser, the grid assembly and both searches. */
module Types {

  /** One storage node: its capacity, the amount in use and the free space as reported. */
  datatype Cell = Cell(size: nat, used: nat, avail: nat)

  /** The all-zero node: the filler for unmentioned positions and the state of a vacated node. */
  const Vacant: Cell := Cell(0, 0, 0)

  /** A grid position `(x, y)`: `x` picks the column, `y` the row. */
  type Coords = (nat, nat)

  /** One parsed input line: the node's coordinates and its figures. */
  type Entry = (nat, nat, Cell)
}
