/** The contents of one square of the board: whether it hides a bomb or how
    many bombs surround it, and whether the player has uncovered or flagged it;
    and where the game stands. */
module Cells {

  /** Rust's `u8`, the type of a square's neighbour count. */
  newtype u8 = x: int | 0 <= x < 0x100

  /** Rust's `u32`, the type of the count of squares left to uncover. */
  newtype u32 = x: int | 0 <= x < 0x1_0000_0000

  /** What a square holds; fixed once the board is generated. */
  datatype Item = Bomb | Empty(u8)

  /** A square together with what the player can see of it: still covered,
      flagged with a pin, or uncovered. */
  datatype Cell = Hidden(Item) | Pin(Item) | Discovered(Item)

  /** Where the game stands. */
  datatype GameState = Playing | Win | Loss

  /** The item under a square, whatever its visibility. */
  function GetItem(c: Cell): (it: Item)
    ensures c == Hidden(it) || c == Pin(it) || c == Discovered(it)
  {
    match c
    case Hidden(item) => item
    case Pin(item) => item
    case Discovered(item) => item
  }

  /** The same square, uncovered. */
  function TurnDiscovered(c: Cell): (d: Cell)
    ensures d.Discovered? && GetItem(d) == GetItem(c)
    ensures c.Discovered? ==> d == c
  {
    Discovered(GetItem(c))
  }

  /** A square still counted by `hidden_empty`: it holds no bomb and has not
      been uncovered (a pinned empty square still counts). */
  predicate Pending(c: Cell)
  {
    GetItem(c).Empty? && !c.Discovered?
  }

  /** A covered, unpinned, bomb-free square: what the flood fill may enter. */
  predicate HiddenEmpty(c: Cell)
  {
    c.Hidden? && GetItem(c).Empty?
  }
}
