/** What holds of a game's board between moves, stated on a view of its
    squares, and how each kind of move keeps it. */
module Board {
  import opened Cells
  import opened Grid

  /** The squares of a board, keyed (row, column). */
  type View = imap<Pos, Cell>

  /** `p` = (row, column) lies on a `height` x `width` board: `Grid.InGrid`
      stated on the board's size, since a view has no array to ask. */
  predicate InBounds(height: nat, width: nat, p: Pos)
  {
    0 <= p.0 < height && 0 <= p.1 < width
  }

  /** `cells` has a square for every position of the board. */
  ghost predicate Covers(cells: View, height: nat, width: nat)
  {
    forall p :: InBounds(height, width, p) ==> p in cells
  }

  /** The elements of a list of positions. */
  ghost function Elements(s: seq<Pos>): set<Pos>
  {
    set b | b in s
  }

  /** The squares still counted by `hidden_empty`: bomb-free and not uncovered.
      `Grid.ToUncover` on a view, so that boards before and after a move can be
      compared as values. */
  ghost function ToUncoverOn(cells: View, height: nat, width: nat): set<Pos>
    requires Covers(cells, height, width)
  {
    set r, c | 0 <= r < height && 0 <= c < width && Pending(cells[(r, c)]) :: (r, c)
  }

  /** No uncovered blank square has a covered bomb-free neighbour. */
  ghost predicate OpenedOn(cells: View, height: nat, width: nat)
    requires Covers(cells, height, width)
  {
    forall p, q ::
      (InBounds(height, width, p) && cells[p] == Discovered(Empty(0)) && Adjacent(p, q) &&
       InBounds(height, width, q)) ==> !HiddenEmpty(cells[q])
  }

  /** Every uncovered blank square of `s` has no covered bomb-free neighbour:
      `Flood.Settled` on a view. */
  ghost predicate SettledOn(cells: View, height: nat, width: nat, s: set<Pos>)
    requires Covers(cells, height, width)
  {
    forall p, q ::
      (p in s && InBounds(height, width, p) && GetItem(cells[p]) == Empty(0) && Adjacent(p, q) &&
       InBounds(height, width, q)) ==> !HiddenEmpty(cells[q])
  }

  /** What holds of a game between moves, apart from its counter. `bombs`
      and `pins` are lists of (x, y). */
  ghost predicate ConsistentOn(cells: View, height: nat, width: nat, bombs: seq<Pos>, pins: seq<Pos>,
                               state: GameState)
  {
    && Covers(cells, height, width)
    // the bombs are distinct squares of the board, and its only bombs
    && (forall i :: 0 <= i < |bombs| ==> InBounds(height, width, (bombs[i].1, bombs[i].0)))
    && (forall i, j :: 0 <= i < j < |bombs| ==> bombs[i] != bombs[j])
    // every square keeps the item generation gave it
    && (forall p :: InBounds(height, width, p) ==> GetItem(cells[p]) == ItemAt(Elements(bombs), p.0, p.1))
    // pins are distinct squares that are no longer covered; every pinned square is listed
    && (forall i :: 0 <= i < |pins| ==>
          InBounds(height, width, (pins[i].1, pins[i].0)) && !cells[(pins[i].1, pins[i].0)].Hidden?)
    && (forall i, j :: 0 <= i < j < |pins| ==> pins[i] != pins[j])
    && (forall p :: InBounds(height, width, p) && cells[p].Pin? ==> (p.1, p.0) in pins)
    // a win means nothing is left to uncover; a loss shows every bomb
    && (state == Win ==> ToUncoverOn(cells, height, width) == {})
    && (state == Loss ==> forall i :: 0 <= i < |bombs| ==> cells[(bombs[i].1, bombs[i].0)] == Discovered(Bomb))
    && OpenedOn(cells, height, width)
  }

  /** Uncovering the covered bomb-free squares `revealed`, provided none of
      its blanks is left with a covered bomb-free neighbour, keeps the game
      consistent and takes exactly those squares off the count. */
  lemma UncoverKeeps(before: View, after: View, height: nat, width: nat, bombs: seq<Pos>, pins: seq<Pos>,
                     state: GameState, revealed: set<Pos>)
    requires ConsistentOn(before, height, width, bombs, pins, state) && Covers(after, height, width)
    requires forall p :: p in revealed ==> InBounds(height, width, p) && HiddenEmpty(before[p])
    requires forall p :: InBounds(height, width, p) ==>
               after[p] == if p in revealed then TurnDiscovered(before[p]) else before[p]
    requires SettledOn(after, height, width, revealed)
    ensures ConsistentOn(after, height, width, bombs, pins, state)
    ensures ToUncoverOn(after, height, width) == ToUncoverOn(before, height, width) - revealed
  {
    assert ToUncoverOn(after, height, width) == ToUncoverOn(before, height, width) - revealed;
    forall p, q | InBounds(height, width, p) && after[p] == Discovered(Empty(0)) && Adjacent(p, q) &&
                  InBounds(height, width, q)
      ensures !HiddenEmpty(after[q])
    {
      if p !in revealed {
        assert before[p] == Discovered(Empty(0));
      }
    }
  }

  /** Showing every bomb keeps the game consistent, now lost, and changes no
      count. */
  lemma LoseKeeps(before: View, after: View, height: nat, width: nat, bombs: seq<Pos>, pins: seq<Pos>,
                  state: GameState)
    requires ConsistentOn(before, height, width, bombs, pins, state) && Covers(after, height, width)
    requires forall p :: InBounds(height, width, p) ==>
               after[p] == if (p.1, p.0) in Elements(bombs) then Discovered(Bomb) else before[p]
    ensures ConsistentOn(after, height, width, bombs, pins, Loss)
    ensures ToUncoverOn(after, height, width) == ToUncoverOn(before, height, width)
  {
    assert ToUncoverOn(after, height, width) == ToUncoverOn(before, height, width);
    forall i | 0 <= i < |bombs|
      ensures after[(bombs[i].1, bombs[i].0)] == Discovered(Bomb)
    {
      assert (bombs[i].1, bombs[i].0).1 == bombs[i].0;
      assert bombs[i] in Elements(bombs);
    }
  }

  /** Pinning the covered square (`x`, `y`) keeps the game consistent,
      with the square listed, and changes no count. */
  lemma PinKeeps(before: View, after: View, height: nat, width: nat, bombs: seq<Pos>, pins: seq<Pos>,
                 state: GameState, x: int, y: int)
    requires ConsistentOn(before, height, width, bombs, pins, state) && Covers(after, height, width)
    requires InBounds(height, width, (y, x)) && before[(y, x)].Hidden?
    requires after[(y, x)] == Pin(GetItem(before[(y, x)]))
    requires forall p :: InBounds(height, width, p) && p != (y, x) ==> after[p] == before[p]
    ensures ConsistentOn(after, height, width, bombs, pins + [(x, y)], state)
    ensures ToUncoverOn(after, height, width) == ToUncoverOn(before, height, width)
  {
    assert ToUncoverOn(after, height, width) == ToUncoverOn(before, height, width);
    var pins' := pins + [(x, y)];
    forall i, j | 0 <= i < j < |pins'| ensures pins'[i] != pins'[j] {
      if j == |pins| {
        assert !before[(pins[i].1, pins[i].0)].Hidden?;
      }
    }
  }

  /** With nothing left to uncover, the game may be declared won. */
  lemma WinKeeps(cells: View, height: nat, width: nat, bombs: seq<Pos>, pins: seq<Pos>, state: GameState)
    requires ConsistentOn(cells, height, width, bombs, pins, state)
    requires ToUncoverOn(cells, height, width) == {}
    ensures ConsistentOn(cells, height, width, bombs, pins, Win)
  {
  }
}
