/** The game: board generation, uncovering, pinning and the win check. */
module Minesweeper {
  import opened Cells
  import opened Grid
  import opened Flood
  import opened Board

  /** The number of bombs a board receives: 15 percent of its squares, rounded down. */
  function Budget(width: nat, height: nat): (b: nat)
    ensures b <= width * height
  {
    width * height * 15 / 100
  }

  /** The `as u32` cast of a size: its low 32 bits. A size that fits is kept;
      any other is wrapped to the one `u32` that agrees with it modulo 2^32. */
  function AsU32(n: int): (t: u32)
    ensures 0 <= n < 0x1_0000_0000 ==> t as int == n
    ensures (n - t as int) % 0x1_0000_0000 == 0
  {
    (n % 0x1_0000_0000) as u32
  }

  /** The smaller of two sizes. */
  function Min(a: nat, b: nat): (m: nat)
    ensures m <= a && m <= b && (m == a || m == b)
  {
    if a <= b then a else b
  }

  /** Every square of `field` holds what laying the bombs of `placed` gives it,
      still covered. */
  ghost predicate Generated(field: array2<Cell>, placed: set<Pos>)
    reads field
  {
    forall r, c :: 0 <= r < field.Length0 && 0 <= c < field.Length1 ==>
      field[r, c] == Hidden(ItemAt(placed, r, c))
  }

  /** Square (`r`, `c`) comes, in row-major order, before (`i`, `j`) in the
      box of rows from `r0` and columns `c0` to `c1`. */
  predicate Before(r: int, c: int, r0: int, c0: int, c1: int, i: int, j: int)
  {
    (r0 <= r < i && c0 <= c <= c1) || (r == i && c0 <= c < j)
  }

  /** Placement of bomb `b` in progress: the box squares before (`i`, `j`)
      already account for it, the others do not yet. */
  ghost predicate LaidOut(field: array2<Cell>, placed: set<Pos>, b: Pos,
                          r0: int, c0: int, c1: int, i: int, j: int)
    reads field
  {
    forall r, c :: 0 <= r < field.Length0 && 0 <= c < field.Length1 ==>
      field[r, c] == Hidden(ItemAt(if Before(r, c, r0, c0, c1, i, j) then placed + {b} else placed, r, c))
  }

  /** The inner `for j` loop of the placement of bomb (`x`, `y`), on row `i`
      of the clamped box around it. */
  method PlaceInRow(field: array2<Cell>, x: nat, y: nat, i: nat, r0: nat, c0: nat, c1: nat,
                    ghost placed: set<Pos>)
    requires InGrid(field, (y, x)) && (x, y) !in placed
    requires r0 <= i <= y + 1 && i < field.Length0 && y <= i + 1
    requires c0 <= x <= c1 < field.Length1 && x <= c0 + 1 && c1 <= x + 1
    requires LaidOut(field, placed, (x, y), r0, c0, c1, i, c0)
    modifies field
    ensures LaidOut(field, placed, (x, y), r0, c0, c1, i + 1, c0)
  {
    for j := c0 to c1 + 1
      invariant LaidOut(field, placed, (x, y), r0, c0, c1, i, j)
    {
      ItemAtInsert(placed, (x, y), i, j);
      if i == y && j == x {
        field[i, j] := Hidden(Bomb);
      } else {
        match field[i, j]
        case Hidden(Empty(count)) =>
          field[i, j] := Hidden(Empty(count + 1));
        case _ =>
      }
    }
  }

  /** The placement of a new bomb (`x`, `y`): its square becomes a covered
      bomb and every covered bomb-free square of the box around it, clamped
      at the edges, counts one more bomb. */
  method PlaceBomb(field: array2<Cell>, x: nat, y: nat, ghost placed: set<Pos>)
    requires InGrid(field, (y, x)) && (x, y) !in placed
    requires Generated(field, placed)
    modifies field
    ensures Generated(field, placed + {(x, y)})
  {
    var height, width := field.Length0, field.Length1;
    var rowStart := if y > 0 then y - 1 else y;
    var rowEnd := Min(y + 1, height - 1);
    var colStart := if x > 0 then x - 1 else x;
    var colEnd := Min(x + 1, width - 1);
    for i := rowStart to rowEnd + 1
      invariant LaidOut(field, placed, (x, y), rowStart, colStart, colEnd, i, colStart)
    {
      PlaceInRow(field, x, y, i, rowStart, colStart, colEnd, placed);
    }
    forall r, c | 0 <= r < height && 0 <= c < width
      ensures field[r, c] == Hidden(ItemAt(placed + {(x, y)}, r, c))
    {
      ItemAtInsert(placed, (x, y), r, c);
    }
  }

  /** The coordinates drawn, as a set. */
  ghost function Candidates(candidates: seq<Pos>): set<Pos>
  {
    set i | 0 <= i < |candidates| :: candidates[i]
  }

  /** Drawing one more coordinate adds it to the set drawn. */
  lemma AddCandidate(candidates: seq<Pos>, k: nat)
    requires k < |candidates|
    ensures Candidates(candidates[..k + 1]) == Candidates(candidates[..k]) + {candidates[k]}
    ensures candidates[k] in Candidates(candidates)
  {
    assert candidates[..k + 1][k] == candidates[k];
    forall p | p in Candidates(candidates[..k + 1]) ensures p in Candidates(candidates[..k]) + {candidates[k]} {
      var i :| 0 <= i < k + 1 && candidates[..k + 1][i] == p;
      if i < k {
        assert candidates[..k][i] == p;
      }
    }
  }

  /** After drawing the first `k` coordinates of `candidates`: `placed` is
      the set drawn, all on the `width` x `height` board, `order` lists each
      of them once, and the field holds their bombs. */
  ghost predicate Drawn(field: array2<Cell>, width: nat, height: nat, candidates: seq<Pos>, k: nat,
                        placed: set<Pos>, order: seq<Pos>)
    reads field
  {
    && field.Length0 == height && field.Length1 == width
    && k <= |candidates|
    && placed == Candidates(candidates[..k])
    && (forall b :: b in placed ==> 0 <= b.0 < width && 0 <= b.1 < height)
    && (forall b :: b in order <==> b in placed)
    && (forall i, j :: 0 <= i < j < |order| ==> order[i] != order[j])
    && |order| == |placed|
    && Generated(field, placed)
  }

  /** One turn of the bomb-laying loop of `Game::new`: the next coordinate
      is drawn and, unless it was drawn before, a bomb is laid there. */
  method DrawNext(field: array2<Cell>, width: nat, height: nat, candidates: seq<Pos>, k: nat,
                  placed: set<Pos>, order: seq<Pos>) returns (placed': set<Pos>, order': seq<Pos>)
    requires k < |candidates| && 0 <= candidates[k].0 < width && 0 <= candidates[k].1 < height
    requires Drawn(field, width, height, candidates, k, placed, order)
    modifies field
    ensures placed' == placed + {candidates[k]}
    ensures Drawn(field, width, height, candidates, k + 1, placed', order')
  {
    var (x, y) := candidates[k];
    AddCandidate(candidates, k);
    placed', order' := placed, order;
    if (x, y) !in placed {
      PlaceBomb(field, x, y, placed);
      placed' := placed + {(x, y)};
      order' := order + [(x, y)];
    }
  }

  /** The bomb-laying loop of `Game::new`, which runs until the budget is laid: draws
      coordinates from `candidates` in turn, skips those already drawn, and
      lays a bomb on each new one. `order` lists the bombs in the order they
      were laid; `used` is how many coordinates were drawn. */
  method Generate(width: nat, height: nat, candidates: seq<Pos>)
      returns (field: array2<Cell>, order: seq<Pos>, ghost used: nat)
    requires forall i :: 0 <= i < |candidates| ==>
               0 <= candidates[i].0 < width && 0 <= candidates[i].1 < height
    requires |Candidates(candidates)| >= Budget(width, height)
    ensures fresh(field) && field.Length0 == height && field.Length1 == width
    ensures |order| == Budget(width, height)
    ensures forall i, j :: 0 <= i < j < |order| ==> order[i] != order[j]
    ensures forall b :: b in order ==> b in Candidates(candidates) && 0 <= b.0 < width && 0 <= b.1 < height
    ensures Generated(field, set b | b in order)
    // the bombs are exactly the first `used` coordinates drawn, and drawing
    // stopped as soon as the budget was reached
    ensures used <= |candidates| && Elements(order) == Candidates(candidates[..used])
    ensures used > 0 ==> |Candidates(candidates[..used - 1])| < Budget(width, height)
  {
    var budget := Budget(width, height);
    field := new Cell[height, width]((r, c) => Hidden(Empty(0)));
    var placed: set<Pos> := {};
    order := [];
    var k := 0;
    assert candidates[..|candidates|] == candidates;
    while |placed| < budget
      invariant Drawn(field, width, height, candidates, k, placed, order)
      invariant placed <= Candidates(candidates) && |placed| <= budget
      invariant k > 0 ==> |Candidates(candidates[..k - 1])| < budget
      invariant fresh(field)
      decreases |candidates| - k
    {
      placed, order := DrawNext(field, width, height, candidates, k, placed, order);
      k := k + 1;
    }
    assert (set b | b in order) == placed;
    used := k;
  }

  /** The view of the field as it is now covers the board and counts the
      same squares to uncover. */
  lemma SnapshotCovers(field: array2<Cell>)
    ensures Covers(Snapshot(field), field.Length0, field.Length1)
    ensures ToUncover(field) == ToUncoverOn(Snapshot(field), field.Length0, field.Length1)
  {
  }

  /** Uncovering the squares `revealed` from the board `before`, with no
      covered bomb-free square left next to their blanks, keeps the game
      consistent and takes exactly those squares off the ones to uncover. */
  lemma FillKeeps(field: array2<Cell>, before: View, bombs: seq<Pos>, pins: seq<Pos>, state: GameState,
                  revealed: set<Pos>)
    requires ConsistentOn(before, field.Length0, field.Length1, bombs, pins, state)
    requires UncoveredFrom(field, before, revealed) && Settled(field, revealed)
    ensures ConsistentOn(Snapshot(field), field.Length0, field.Length1, bombs, pins, state)
    ensures revealed <= ToUncoverOn(before, field.Length0, field.Length1)
    ensures ToUncover(field) == ToUncoverOn(before, field.Length0, field.Length1) - revealed
  {
    SnapshotCovers(field);
    UncoverKeeps(before, Snapshot(field), field.Length0, field.Length1, bombs, pins, state, revealed);
  }

  /** The loop of the `Bomb` arm of `Game::discover`: every square of
      `bombs`, a list of (x, y), is shown; nothing else changes. */
  method ShowBombs(field: array2<Cell>, bombs: seq<Pos>)
    requires forall i :: 0 <= i < |bombs| ==> InGrid(field, (bombs[i].1, bombs[i].0))
    modifies field
    ensures forall r, c :: 0 <= r < field.Length0 && 0 <= c < field.Length1 ==>
              field[r, c] == if (c, r) in Elements(bombs) then Discovered(Bomb) else old(field[r, c])
  {
    for i := 0 to |bombs|
      invariant forall r, c :: 0 <= r < field.Length0 && 0 <= c < field.Length1 ==>
                  field[r, c] == if (c, r) in bombs[..i] then Discovered(Bomb) else old(field[r, c])
    {
      assert bombs[..i + 1] == bombs[..i] + [bombs[i]];
      field[bombs[i].1, bombs[i].0] := Discovered(Bomb);
    }
    assert bombs[..|bombs|] == bombs;
  }

  /** The `Empty(score)` arm of `Game::discover` with `score > 0`, on the
      board itself: the numbered square `p` is uncovered and counted off,
      and the game stays consistent. */
  method UncoverNumber(field: array2<Cell>, p: Pos, count: u32,
                       ghost bombs: seq<Pos>, ghost pins: seq<Pos>, ghost state: GameState)
      returns (count': u32)
    requires ConsistentOn(Snapshot(field), field.Length0, field.Length1, bombs, pins, state)
    requires count as int == |ToUncover(field)|
    requires InGrid(field, p) && HiddenEmpty(field[p.0, p.1]) && GetItem(field[p.0, p.1]) != Empty(0)
    modifies field
    ensures ConsistentOn(Snapshot(field), field.Length0, field.Length1, bombs, pins, state)
    ensures count' as int == count as int - 1 == |ToUncover(field)|
    ensures field[p.0, p.1] == Discovered(old(GetItem(field[p.0, p.1])))
    ensures UncoveredFrom(field, old(Snapshot(field)), {p})
  {
    ghost var before := Snapshot(field);
    SnapshotCovers(field);
    UncoveredNothing(field);
    count' := UncoverCounted(field, p, count, before, {});
    FillKeeps(field, before, bombs, pins, state, {p});
  }

  /** Laying the distinct bombs `placed` on an empty board leaves every
      square but theirs to uncover. */
  lemma ToUncoverAfterGeneration(field: array2<Cell>, placed: set<Pos>)
    requires Generated(field, placed)
    requires forall b :: b in placed ==> InGrid(field, (b.1, b.0))
    ensures |ToUncover(field)| == field.Length0 * field.Length1 - |placed|
  {
    var all, bombs := AllCells(field.Length0, field.Length1), Transposed(placed);
    assert ToUncover(field) == all - bombs by {
      forall p | p in bombs ensures p !in ToUncover(field) {
        var b :| b in placed && p == (b.1, b.0);
      }
    }
    AllCellsCard(field.Length0, field.Length1);
    TransposedCard(placed);
    assert all == (all - bombs) + bombs;
  }

  /** A sequence without repetition has as many elements as it is long. */
  lemma {:induction false} DistinctCard(s: seq<Pos>)
    requires forall i, j :: 0 <= i < j < |s| ==> s[i] != s[j]
    ensures |set b | b in s| == |s|
  {
    if s != [] {
      var init, last := s[..|s| - 1], s[|s| - 1];
      DistinctCard(init);
      assert s == init + [last];
      assert (set b | b in s) == (set b | b in init) + {last};
      assert last !in init;
    }
  }

  /** The state of a game. */
  class Game {
    /** The board, indexed [row, column] = [y, x]. */
    const field: array2<Cell>
    var state: GameState
    /** The bombs, as (x, y), in the order they were laid. */
    const bombs: seq<Pos>
    /** The pinned squares, as (x, y), in the order they were pinned. */
    var pins: seq<Pos>
    /** The number of bomb-free squares not yet uncovered. */
    var hiddenEmpty: u32

    /** What holds of a game between moves, apart from its counter. */
    ghost predicate Consistent()
      reads this, field
    {
      ConsistentOn(Snapshot(field), field.Length0, field.Length1, bombs, pins, state)
    }

    /** The full invariant: `hiddenEmpty` counts the bomb-free squares not
        yet uncovered. */
    ghost predicate Valid()
      reads this, field
    {
      Consistent() && hiddenEmpty as int == |ToUncover(field)|
    }

    /** A freshly generated game, before any move, is consistent and its
        counter is right when it fits. */
    static lemma FreshGame(g: Game)
      requires forall i :: 0 <= i < |g.bombs| ==> InGrid(g.field, (g.bombs[i].1, g.bombs[i].0))
      requires forall i, j :: 0 <= i < j < |g.bombs| ==> g.bombs[i] != g.bombs[j]
      requires Generated(g.field, Elements(g.bombs)) && g.state == Playing && g.pins == []
      requires g.hiddenEmpty == AsU32(g.field.Length0 * g.field.Length1 - |g.bombs|)
      ensures g.Consistent()
      ensures g.field.Length0 * g.field.Length1 - |g.bombs| < 0x1_0000_0000 ==> g.Valid()
    {
      DistinctCard(g.bombs);
      ToUncoverAfterGeneration(g.field, Elements(g.bombs));
      SnapshotCovers(g.field);
    }

    /** The counter reaches zero exactly when every bomb-free square is
        uncovered. */
    static lemma CounterZeroIffCleared(g: Game)
      requires g.Valid()
      ensures g.hiddenEmpty == 0 <==>
                forall r, c :: 0 <= r < g.field.Length0 && 0 <= c < g.field.Length1 && GetItem(g.field[r, c]).Empty? ==>
                  g.field[r, c].Discovered?
    {
      if g.hiddenEmpty == 0 {
        assert ToUncover(g.field) == {};
        forall r, c | 0 <= r < g.field.Length0 && 0 <= c < g.field.Length1 && GetItem(g.field[r, c]).Empty?
          ensures g.field[r, c].Discovered?
        {
          assert (r, c) !in ToUncover(g.field);
        }
      } else {
        var p :| p in ToUncover(g.field);
      }
    }

    /** `Game::new`, with the coordinates drawn by its random number
        generator taken from `candidates` (x, y) in turn. */
    constructor (width: nat, height: nat, candidates: seq<Pos>)
      requires forall i :: 0 <= i < |candidates| ==>
                 0 <= candidates[i].0 < width && 0 <= candidates[i].1 < height
      requires |Candidates(candidates)| >= Budget(width, height)
      ensures fresh(field) && field.Length0 == height && field.Length1 == width
      ensures |bombs| == Budget(width, height) && Elements(bombs) <= Candidates(candidates)
      ensures exists used :: 0 <= used <= |candidates| && Elements(bombs) == Candidates(candidates[..used]) &&
                (used > 0 ==> |Candidates(candidates[..used - 1])| < Budget(width, height))
      ensures Generated(field, Elements(bombs))
      ensures state == Playing && pins == []
      ensures hiddenEmpty == AsU32(field.Length0 * field.Length1 - |bombs|)
      ensures Consistent()
      ensures field.Length0 * field.Length1 - |bombs| < 0x1_0000_0000 ==> Valid()
    {
      var f, order, used := Generate(width, height, candidates);
      var budget := Budget(width, height);
      field := f;
      state := Playing;
      bombs := order;
      pins := [];
      hiddenEmpty := AsU32(height * width - budget);
      new;
      FreshGame(this);
    }

    /** The `Bomb` arm of `Game::discover`: the game is lost and every bomb
        is shown. */
    method LoseGame()
      requires Valid()
      modifies this, field
      ensures Valid()
      ensures state == Loss && pins == old(pins) && hiddenEmpty == old(hiddenEmpty)
      ensures forall r, c :: 0 <= r < field.Length0 && 0 <= c < field.Length1 ==>
                field[r, c] == if (c, r) in Elements(bombs) then Discovered(Bomb) else old(field[r, c])
    {
      ghost var before := Snapshot(field);
      SnapshotCovers(field);
      state := Loss;
      ShowBombs(field, bombs);
      SnapshotCovers(field);
      LoseKeeps(before, Snapshot(field), field.Length0, field.Length1, bombs, pins, old(state));
    }

    /** The `Empty(score)` arm of `Game::discover` with `score > 0`: only
        that square is uncovered, and counted off. */
    method RevealNumber(x: nat, y: nat)
      requires Valid() && InGrid(field, (y, x))
      requires HiddenEmpty(field[y, x]) && GetItem(field[y, x]) != Empty(0)
      modifies this, field
      ensures Valid()
      ensures state == old(state) && pins == old(pins)
      ensures hiddenEmpty as int == old(hiddenEmpty) as int - 1
      ensures field[y, x] == Discovered(old(GetItem(field[y, x])))
      // only that square is uncovered; nothing else changes
      ensures UncoveredFrom(field, old(Snapshot(field)), {(y, x)})
    {
      hiddenEmpty := UncoverNumber(field, (y, x), hiddenEmpty, bombs, pins, state);
    }

    /** The `Empty(0)` arm of `Game::discover`: `fill_area` from the square,
        with the row and column given in that order. */
    method RevealArea(x: nat, y: nat) returns (ghost revealed: set<Pos>, ghost order: seq<Pos>, ghost from: seq<nat>)
      requires Valid() && InGrid(field, (y, x))
      requires field[y, x] == Hidden(Empty(0))
      modifies this, field
      ensures Valid()
      ensures state == old(state) && pins == old(pins)
      ensures (y, x) in revealed && revealed <= old(ToUncover(field))
      ensures hiddenEmpty as int == old(hiddenEmpty) as int - |revealed|
      ensures UncoveredFrom(field, old(Snapshot(field)), revealed) && Settled(field, revealed)
      ensures ReachedInOrder(field, (y, x), revealed, order, from)
    {
      ghost var before := Snapshot(field);
      SnapshotCovers(field);
      hiddenEmpty, revealed, order, from := FillArea(field, y, x, hiddenEmpty);
      FillKeeps(field, before, bombs, pins, state, revealed);
    }

    /** `Game::discover` on the square (`x`, `y`). `revealed` is the set of
        squares, as (row, column), it turns from covered to uncovered
        bomb-free squares; `order` lists them in the order they were
        uncovered, each after the uncovered blank square `order[from[i]]`
        it was reached from. */
    method Discover(x: nat, y: nat) returns (ghost revealed: set<Pos>, ghost order: seq<Pos>, ghost from: seq<nat>)
      requires Valid() && InGrid(field, (y, x))
      modifies this, field
      ensures Valid()
      ensures pins == old(pins)
      // a pinned or uncovered square: nothing changes
      ensures !old(field[y, x]).Hidden? ==>
                state == old(state) && hiddenEmpty == old(hiddenEmpty) && unchanged(field)
      // a covered bomb: the game is lost and every bomb is shown, nothing else changes
      ensures old(field[y, x]) == Hidden(Bomb) ==>
                && state == Loss && hiddenEmpty == old(hiddenEmpty)
                && forall r, c :: 0 <= r < field.Length0 && 0 <= c < field.Length1 ==>
                     field[r, c] == if (c, r) in Elements(bombs) then Discovered(Bomb) else old(field[r, c])
      // otherwise the squares of `revealed`, all of them covered and bomb-free
      // (never a pin), are uncovered with their items and counted off, nothing
      // else changes, and the state stays
      ensures old(field[y, x]) != Hidden(Bomb) ==>
                && state == old(state)
                && revealed <= old(ToUncover(field))
                && hiddenEmpty as int == old(hiddenEmpty) as int - |revealed|
                && UncoveredFrom(field, old(Snapshot(field)), revealed)
      // a covered numbered square: only that square
      ensures old(HiddenEmpty(field[y, x])) && old(GetItem(field[y, x])) != Empty(0) ==> revealed == {(y, x)}
      // a covered blank square: a region around it, with no covered bomb-free square left next to its blanks
      ensures old(field[y, x]) == Hidden(Empty(0)) ==> Settled(field, revealed)
      // a covered bomb-free square: every square uncovered is reached from it through uncovered blank ones
      ensures old(HiddenEmpty(field[y, x])) ==> ReachedInOrder(field, (y, x), revealed, order, from)
      ensures !old(HiddenEmpty(field[y, x])) ==> revealed == {}
    {
      revealed, order, from := {}, [], [];
      UncoveredNothing(field);
      match field[y, x]
      case Hidden(item) =>
        match item {
          case Bomb =>
            LoseGame();
          case Empty(score) =>
            if score > 0 {
              RevealNumber(x, y);
              revealed, order, from := {(y, x)}, [(y, x)], [0];
              return;
            }
            revealed, order, from := RevealArea(x, y);
        }
      case _ =>
    }

    /** `Game::pin` on the square (`x`, `y`): a covered square gets a pin and
        is listed; any other square is left alone. */
    method Pin(x: nat, y: nat)
      requires Valid() && InGrid(field, (y, x))
      modifies this, field
      ensures Valid()
      ensures state == old(state) && hiddenEmpty == old(hiddenEmpty)
      ensures old(field[y, x]).Hidden? ==>
                && field[y, x] == Cell.Pin(old(GetItem(field[y, x])))
                && pins == old(pins) + [(x, y)]
                && forall r, c :: 0 <= r < field.Length0 && 0 <= c < field.Length1 && (r, c) != (y, x) ==>
                     field[r, c] == old(field[r, c])
      ensures !old(field[y, x]).Hidden? ==> pins == old(pins) && unchanged(field)
    {
      var cell := field[y, x];
      if cell.Hidden? {
        ghost var before := Snapshot(field);
        SnapshotCovers(field);
        field[y, x] := Cell.Pin(GetItem(cell));
        SnapshotCovers(field);
        PinKeeps(before, Snapshot(field), field.Length0, field.Length1, bombs, pins, state, x, y);
        pins := pins + [(x, y)];
      }
    }

    /** `Game::update_game_state`: the game is won when nothing is left to
        uncover, and otherwise keeps its state. */
    method UpdateGameState()
      requires Valid()
      modifies this
      ensures Valid()
      ensures state == if hiddenEmpty == 0 then Win else old(state)
      ensures pins == old(pins) && hiddenEmpty == old(hiddenEmpty)
    {
      if hiddenEmpty == 0 {
        SnapshotCovers(field);
        WinKeeps(Snapshot(field), field.Length0, field.Length1, bombs, pins, state);
        state := Win;
      }
    }
  }

  /** `Default for Game`: a 16 x 16 game, generated from `candidates`, whose
      first move uncovers the square (7, 7). The game is lost exactly when a
      bomb lies there; either way that square is now uncovered. */
  method DefaultGame(candidates: seq<Pos>) returns (g: Game)
    requires forall i :: 0 <= i < |candidates| ==>
               0 <= candidates[i].0 < 16 && 0 <= candidates[i].1 < 16
    requires |Candidates(candidates)| >= Budget(16, 16)
    ensures fresh(g) && fresh(g.field) && g.Valid()
    ensures g.field.Length0 == 16 && g.field.Length1 == 16
    ensures |g.bombs| == Budget(16, 16) && g.pins == []
    ensures g.state == if (7, 7) in Elements(g.bombs) then Loss else Playing
    ensures g.field[7, 7].Discovered?
  {
    g := new Game(16, 16, candidates);
    assert g.field.Length0 * g.field.Length1 - |g.bombs| == 218;
    ghost var bombed := (7, 7) in Elements(g.bombs);
    ghost var square := g.field[7, 7];
    assert square == Hidden(ItemAt(Elements(g.bombs), 7, 7));
    var revealed, order, from := g.Discover(7, 7);
    if bombed {
      assert square == Hidden(Bomb);
      assert g.state == Loss && g.field[7, 7] == Discovered(Bomb);
    } else {
      assert HiddenEmpty(square);
      assert g.state == Playing;
      assert order[0] == (7, 7) && (7, 7) in revealed;
      assert g.field[7, 7] == TurnDiscovered(square);
    }
  }
}
