// Vocabulary shared by the intersection controller and the vehicle agents:
// the four approach directions and the three vehicle signal colours.

module Signals {

  /** The four approaches of the intersection, in declaration order
      (North = 0, South = 1, East = 2, West = 3). */
  datatype Direction = North | South | East | West

  /** The colour shown by one vehicle signal head. */
  datatype Colour = Red | Yellow | Green

  /** `(int)direction`: the position of a direction in the enum. */
  function Index(d: Direction): (i: nat)
    ensures i < 4
    ensures FromIndex(i) == d
  {
    match d
    case North => 0
    case South => 1
    case East => 2
    case West => 3
  }

  /** `(Direction)i`: the direction at a position of the enum. */
  function FromIndex(i: nat): (d: Direction)
    requires i < 4
    // the first two values name the North/South street
    ensures NorthSouth(d) <==> i < 2
  {
    if i == 0 then North
    else if i == 1 then South
    else if i == 2 then East
    else West
  }

  /** The enum cast is a bijection between directions and 0..3. */
  lemma FromIndexInverse(i: nat)
    requires i < 4
    ensures Index(FromIndex(i)) == i
  {
  }

  /** The directions in the order `System.Enum.GetValues` lists them. */
  function AllDirections(): (ds: seq<Direction>)
    ensures |ds| == 4
    ensures forall i :: 0 <= i < 4 ==> Index(ds[i]) == i
  {
    [North, South, East, West]
  }

  /** North and South face each other across the intersection, as do East and West. */
  predicate NorthSouth(d: Direction)
  {
    d == North || d == South
  }
}
