/** Positions on the board and the sets of squares the proofs count. */
module Grid {
  import opened Cells

  /** A pair of coordinates. Sets of squares of the field are written
      (row, column); the game's bomb and pin lists are (x, y) as in the game. */
  type Pos = (int, int)

  /** `q` is one of the (up to) eight squares touching `p`. */
  predicate Adjacent(p: Pos, q: Pos)
  {
    p != q && -1 <= p.0 - q.0 <= 1 && -1 <= p.1 - q.1 <= 1
  }

  /** `p` = (row, column) lies on the field. */
  predicate InGrid(field: array2<Cell>, p: Pos)
  {
    0 <= p.0 < field.Length0 && 0 <= p.1 < field.Length1
  }

  /** Every square of a `height` x `width` board, as (row, column). */
  ghost function AllCells(height: nat, width: nat): set<Pos>
  {
    set r, c | 0 <= r < height && 0 <= c < width :: (r, c)
  }

  /** The squares `hidden_empty` is meant to count: bomb-free and not uncovered.
      This is the set on the array; `Board.ToUncoverOn` and `Flood.ToUncoverIn`
      give it on a value view and on the field recorded before a fill. */
  ghost function ToUncover(field: array2<Cell>): set<Pos>
    reads field
  {
    set r, c | 0 <= r < field.Length0 && 0 <= c < field.Length1 && Pending(field[r, c]) :: (r, c)
  }

  /** The bombs of `bombs` (x, y) that touch square `p` (x, y). */
  ghost function BombsAround(bombs: set<Pos>, p: Pos): set<Pos>
  {
    set b | b in bombs && Adjacent(b, p)
  }

  /** The same squares with the two coordinates exchanged: (x, y) <-> (row, column). */
  ghost function Transposed(s: set<Pos>): set<Pos>
  {
    set p | p in s :: (p.1, p.0)
  }

  /** The squares of row `row` of a board `width` wide. */
  ghost function Row(row: int, width: nat): set<Pos>
  {
    set c | 0 <= c < width :: (row, c)
  }

  lemma {:induction false} RowCard(row: int, width: nat)
    ensures |Row(row, width)| == width
  {
    if width > 0 {
      RowCard(row, width - 1);
      assert Row(row, width) == Row(row, width - 1) + {(row, width - 1)};
    }
  }

  /** A `height` x `width` board has `height * width` squares. */
  lemma {:induction false} AllCellsCard(height: nat, width: nat)
    ensures |AllCells(height, width)| == height * width
  {
    if height > 0 {
      var above, last := AllCells(height - 1, width), Row(height - 1, width);
      AllCellsCard(height - 1, width);
      RowCard(height - 1, width);
      AllCellsSplit(height, width);
      assert |above + last| == |above| + |last|;
      assert (height - 1) * width + width == height * width;
    }
  }

  /** The last row of a board and the rows above it make up the board. */
  lemma AllCellsSplit(height: nat, width: nat)
    requires height > 0
    ensures AllCells(height, width) == AllCells(height - 1, width) + Row(height - 1, width)
    ensures AllCells(height - 1, width) !! Row(height - 1, width)
  {
  }

  /** Exchanging the coordinates loses no square. */
  lemma {:induction false} TransposedCard(s: set<Pos>)
    ensures |Transposed(s)| == |s|
  {
    if s != {} {
      var p :| p in s;
      TransposedCard(s - {p});
      assert Transposed(s) == Transposed(s - {p}) + {(p.1, p.0)};
    }
  }

  /** No square has more than eight neighbours, so a neighbour count fits a `u8`. */
  lemma BombsAroundBound(bombs: set<Pos>, p: Pos)
    ensures |BombsAround(bombs, p)| <= 8
  {
    var (x, y) := p;
    var above := {(x - 1, y - 1), (x - 1, y), (x - 1, y + 1)};
    var level := {(x, y - 1), (x, y + 1)};
    var below := {(x + 1, y - 1), (x + 1, y), (x + 1, y + 1)};
    assert |above| <= 3 && |level| <= 2 && |below| <= 3;
    var ring := above + level + below;
    var around := BombsAround(bombs, p);
    assert around <= ring;
    assert around + (ring - around) == ring;
  }

  /** The number of bombs of `placed` (x, y) around square `p` (x, y), as the
      `u8` a square holds. */
  ghost function Count(placed: set<Pos>, p: Pos): (n: u8)
    ensures n as int == |BombsAround(placed, p)| && n <= 8
  {
    BombsAroundBound(placed, p);
    |BombsAround(placed, p)| as u8
  }

  /** What square (row `r`, column `c`) holds once the bombs of `placed`
      (x, y) are laid: a bomb, or the count of the bombs around it. */
  ghost function ItemAt(placed: set<Pos>, r: int, c: int): Item
  {
    if (c, r) in placed then Bomb else Empty(Count(placed, (c, r)))
  }

  /** Laying one more bomb `b` turns its own square into a bomb, adds one to
      the count of each bomb-free square next to it, and leaves every other
      square as it was. */
  lemma ItemAtInsert(placed: set<Pos>, b: Pos, r: int, c: int)
    requires b !in placed
    ensures (c, r) == b || (c, r) in placed ==> ItemAt(placed + {b}, r, c) == Bomb
    ensures (c, r) != b && !Adjacent(b, (c, r)) ==> ItemAt(placed + {b}, r, c) == ItemAt(placed, r, c)
    ensures (c, r) != b && (c, r) !in placed && Adjacent(b, (c, r)) ==>
              ItemAt(placed + {b}, r, c) == Empty(Count(placed, (c, r)) + 1)
  {
    BombsAroundInsert(placed, b, (c, r));
  }

  /** Adding a bomb `b` adds one to the count of exactly the squares next to it. */
  lemma BombsAroundInsert(bombs: set<Pos>, b: Pos, p: Pos)
    requires b !in bombs
    ensures |BombsAround(bombs + {b}, p)| ==
            |BombsAround(bombs, p)| + (if Adjacent(b, p) then 1 else 0)
  {
    if Adjacent(b, p) {
      assert BombsAround(bombs + {b}, p) == BombsAround(bombs, p) + {b};
    } else {
      assert BombsAround(bombs + {b}, p) == BombsAround(bombs, p);
    }
  }
}
