/**
 * The records both programs share: a terminal of the network and a
 * candidate tree (an FST, "full Steiner tree"). `double` quantities are
 * `real`; the C `int` flags `covered` and `selected` are `bool`.
 */
module Network {
  import opened Wrappers

  datatype Point = Point(x: real, y: real)

  datatype Terminal = Terminal(x: real, y: real, battery: real, id: int, covered: bool)

  /**
   * A candidate tree: its id, whether the solution selected it, its member
   * terminal ids (at most 10), the number of Steiner points it claims, the
   * one Steiner point actually recovered (if any) and its cost.
   */
  datatype Fst = Fst(id: int, selected: bool, terminals: seq<int>,
                     steinerCount: nat, steiner: Option<Point>, cost: real)

  /** The capacity of the `terminal_ids` and `steiner_points` arrays of the C struct. */
  const MaxFstTerminals := 10
}
