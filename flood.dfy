/** `fill_area`: the breadth-first uncovering of a bomb-free region, started
    when the player uncovers a square with no bomb around it. */
module Flood {
  import opened Cells
  import opened Grid

  /** The eight (row, column) offsets the fill tries around a square, in its order. */
  const Directions: seq<Pos> := [(1, 0), (0, 1), (-1, 0), (0, -1), (1, 1), (-1, -1), (1, -1), (-1, 1)]

  /** The square reached from `p` by offset number `k`. */
  function Step(p: Pos, k: nat): Pos
    requires k < |Directions|
  {
    (p.0 + Directions[k].0, p.1 + Directions[k].1)
  }

  /** Every offset leads to a neighbour. */
  lemma StepAdjacent(p: Pos, k: nat)
    requires k < |Directions|
    ensures Adjacent(p, Step(p, k))
  {
    assert Directions[k] in {(1, 0), (0, 1), (-1, 0), (0, -1), (1, 1), (-1, -1), (1, -1), (-1, 1)};
  }

  /** The offset that leads from `p` to its neighbour `q`: the eight offsets
      reach every neighbour, and nothing else. */
  function DirectionTo(p: Pos, q: Pos): (k: nat)
    requires Adjacent(p, q)
    ensures k < |Directions| && Step(p, k) == q
  {
    var d := (q.0 - p.0, q.1 - p.1);
    if d == (1, 0) then 0
    else if d == (0, 1) then 1
    else if d == (-1, 0) then 2
    else if d == (0, -1) then 3
    else if d == (1, 1) then 4
    else if d == (-1, -1) then 5
    else if d == (1, -1) then 6
    else 7
  }

  /** `initial` gives a cell for every square of the field. */
  ghost predicate Recorded(field: array2<Cell>, initial: imap<Pos, Cell>)
  {
    forall p :: InGrid(field, p) ==> p in initial
  }

  /** `field` is `initial` with the squares of `revealed`, all of them covered
      and bomb-free in `initial`, uncovered. */
  ghost predicate UncoveredFrom(field: array2<Cell>, initial: imap<Pos, Cell>, revealed: set<Pos>)
    reads field
  {
    && Recorded(field, initial)
    && (forall p :: p in revealed ==> InGrid(field, p) && HiddenEmpty(initial[p]))
    && (forall r, c :: 0 <= r < field.Length0 && 0 <= c < field.Length1 ==>
          field[r, c] == if (r, c) in revealed then TurnDiscovered(initial[(r, c)]) else initial[(r, c)])
  }

  /** The bookkeeping of the fill's queue, stated on the field as it was when
      the fill started and the set of squares uncovered since: queued squares
      are on the field, still covered and bomb-free, queued once, and marked
      explored (all but the start square, which the fill queues without
      marking); an explored square is queued or already uncovered. */
  ghost predicate QueueOk(field: array2<Cell>, initial: imap<Pos, Cell>, explored: array2<bool>,
                          queue: seq<Pos>, revealed: set<Pos>, start: Pos)
    reads explored
  {
    && Recorded(field, initial)
    && explored.Length0 == field.Length0 && explored.Length1 == field.Length1
    && (forall i :: 0 <= i < |queue| ==>
          InGrid(field, queue[i]) && queue[i] !in revealed && HiddenEmpty(initial[queue[i]]))
    && (forall i, j :: 0 <= i < j < |queue| ==> queue[i] != queue[j])
    && (forall i :: 0 <= i < |queue| && queue[i] != start ==> explored[queue[i].0, queue[i].1])
    && (forall p :: InGrid(field, p) && explored[p.0, p.1] ==> p in revealed || p in queue)
  }

  /** Every uncovered or queued square other than the start was reached from
      `parent` of it, an uncovered blank neighbour; only such squares have one. */
  ghost predicate Justified(field: array2<Cell>, initial: imap<Pos, Cell>, queue: seq<Pos>,
                            revealed: set<Pos>, start: Pos, parent: map<Pos, Pos>)
  {
    && Recorded(field, initial)
    && (forall p :: (p in revealed || p in queue) && p != start ==> p in parent)
    && (forall p :: p in parent ==> p in revealed || p in queue)
    && (forall p :: p in parent ==>
          parent[p] in revealed && InGrid(field, parent[p]) && Adjacent(parent[p], p) &&
          GetItem(initial[parent[p]]) == Empty(0))
  }

  /** Every neighbour of an uncovered blank square (other than those of
      `except`) is queued, uncovered, or cannot be entered. */
  ghost predicate Closed(field: array2<Cell>, initial: imap<Pos, Cell>, queue: seq<Pos>,
                         revealed: set<Pos>, except: set<Pos>)
  {
    && Recorded(field, initial)
    && (forall p, q ::
          (p in revealed && p !in except && InGrid(field, p) && GetItem(initial[p]) == Empty(0) &&
           Adjacent(p, q) && InGrid(field, q)) ==> q in queue || q in revealed || !HiddenEmpty(initial[q]))
  }

  /** Square `q`, if it is on the field, is queued, uncovered, or cannot be entered. */
  ghost predicate Handled(field: array2<Cell>, initial: imap<Pos, Cell>, queue: seq<Pos>,
                          revealed: set<Pos>, q: Pos)
  {
    InGrid(field, q) && q in initial ==> q in queue || q in revealed || !HiddenEmpty(initial[q])
  }

  /** The state the fill keeps between two turns of its outer loop; `except`
      holds the square whose neighbours are being queued, if any. */
  ghost predicate Frontier(field: array2<Cell>, initial: imap<Pos, Cell>, explored: array2<bool>,
                           queue: seq<Pos>, revealed: set<Pos>, start: Pos, parent: map<Pos, Pos>,
                           except: set<Pos>)
    reads explored
  {
    && (start in revealed || start in queue)
    && (start !in revealed ==> queue == [start] && revealed == {})
    && QueueOk(field, initial, explored, queue, revealed, start)
    && Justified(field, initial, queue, revealed, start, parent)
    && Closed(field, initial, queue, revealed, except)
  }

  /** `parent'` keeps every entry of `parent`. */
  ghost predicate Extends(parent: map<Pos, Pos>, parent': map<Pos, Pos>)
  {
    forall p :: p in parent ==> p in parent' && parent'[p] == parent[p]
  }

  /** `order` lists the squares of `revealed` once each, in the order the fill
      took them off its queue: the start first, and each later one after its
      `parent`, which is `order[from[i]]`. */
  ghost predicate PopOrder(revealed: set<Pos>, start: Pos, parent: map<Pos, Pos>, order: seq<Pos>,
                           from: seq<nat>)
  {
    && |from| == |order|
    && (revealed == {} ==> order == [])
    && (revealed != {} ==> order != [] && order[0] == start)
    && (forall i :: 0 <= i < |order| ==> order[i] in revealed)
    && (forall p :: p in revealed ==> p in order)
    && (forall i, j :: 0 <= i < j < |order| ==> order[i] != order[j])
    && (forall i :: 0 < i < |order| ==> order[i] in parent && from[i] < i && order[from[i]] == parent[order[i]])
  }

  /** The squares of `revealed` are reached from `start` through uncovered
      blank squares: listed once each in `order`, which begins at the start,
      every later square `order[i]` is next to the earlier uncovered blank
      square `order[from[i]]`. */
  ghost predicate ReachedInOrder(field: array2<Cell>, start: Pos, revealed: set<Pos>, order: seq<Pos>,
                                 from: seq<nat>)
    reads field
  {
    && order != [] && order[0] == start && |from| == |order|
    && (forall i :: 0 <= i < |order| ==> order[i] in revealed)
    && (forall p :: p in revealed ==> p in order)
    && (forall i, j :: 0 <= i < j < |order| ==> order[i] != order[j])
    && (forall i :: 0 < i < |order| ==>
          from[i] < i && InGrid(field, order[from[i]]) && Adjacent(order[from[i]], order[i]) &&
          GetItem(field[order[from[i]].0, order[from[i]].1]) == Empty(0))
  }

  /** The fill's state before its loop: the start square queued, nothing
      explored or uncovered. */
  lemma FrontierAtStart(field: array2<Cell>, initial: imap<Pos, Cell>, explored: array2<bool>, start: Pos)
    requires Recorded(field, initial) && InGrid(field, start) && HiddenEmpty(initial[start])
    requires explored.Length0 == field.Length0 && explored.Length1 == field.Length1
    requires forall r, c :: 0 <= r < explored.Length0 && 0 <= c < explored.Length1 ==> !explored[r, c]
    ensures Frontier(field, initial, explored, [start], {}, start, map[], {})
  {
  }

  /** Taking the first square off the queue and counting it as uncovered
      keeps the bookkeeping, except that its own neighbours are still to be
      queued. */
  lemma FrontierAfterPop(field: array2<Cell>, initial: imap<Pos, Cell>, explored: array2<bool>,
                         queue: seq<Pos>, revealed: set<Pos>, start: Pos, parent: map<Pos, Pos>)
    requires queue != [] && Frontier(field, initial, explored, queue, revealed, start, parent, {})
    ensures Frontier(field, initial, explored, queue[1..], revealed + {queue[0]}, start, parent, {queue[0]})
  {
    var rest, revealed' := queue[1..], revealed + {queue[0]};
    forall p | InGrid(field, p) && explored[p.0, p.1]
      ensures p in revealed' || p in rest
    {
      if p in queue && p != queue[0] {
        var i :| 0 <= i < |queue| && queue[i] == p;
        assert rest[i - 1] == p;
      }
    }
  }

  /** What the fill knows of the head of its queue before taking it off: it is
      not uncovered yet, and it is the start or its parent is uncovered. */
  lemma PopReady(field: array2<Cell>, initial: imap<Pos, Cell>, explored: array2<bool>,
                 queue: seq<Pos>, revealed: set<Pos>, start: Pos, parent: map<Pos, Pos>)
    requires queue != [] && Frontier(field, initial, explored, queue, revealed, start, parent, {})
    ensures queue[0] !in revealed
    ensures revealed == {} ==> queue[0] == start
    ensures revealed != {} ==> queue[0] in parent && parent[queue[0]] in revealed
  {
  }

  /** Taking square `p` off the queue appends it to the pop order. */
  lemma {:induction false} PopOrderStep(revealed: set<Pos>, start: Pos, parent: map<Pos, Pos>,
                                        parent': map<Pos, Pos>, order: seq<Pos>, from: seq<nat>, p: Pos)
    returns (from': seq<nat>)
    requires PopOrder(revealed, start, parent, order, from) && Extends(parent, parent')
    requires p !in revealed
    requires revealed == {} ==> p == start
    requires revealed != {} ==> p in parent && parent[p] in revealed
    ensures PopOrder(revealed + {p}, start, parent', order + [p], from')
  {
    if revealed == {} {
      from' := from + [0];
    } else {
      var j :| 0 <= j < |order| && order[j] == parent[p];
      from' := from + [j];
    }
    var order' := order + [p];
    forall i | 0 < i < |order'|
      ensures order'[i] in parent' && from'[i] < i && order'[from'[i]] == parent'[order'[i]]
    {
      if i < |order| {
        assert order'[from'[i]] == order[from[i]];
      }
    }
  }

  /** Once the queue is empty, the pop order and the parents show that every
      uncovered square is reached from the start through uncovered blank squares. */
  lemma ReachedByParents(field: array2<Cell>, initial: imap<Pos, Cell>, revealed: set<Pos>, start: Pos,
                         parent: map<Pos, Pos>, order: seq<Pos>, from: seq<nat>)
    requires start in revealed
    requires Justified(field, initial, [], revealed, start, parent)
    requires UncoveredFrom(field, initial, revealed)
    requires PopOrder(revealed, start, parent, order, from)
    ensures ReachedInOrder(field, start, revealed, order, from)
  {
    forall i | 0 < i < |order|
      ensures GetItem(field[order[from[i]].0, order[from[i]].1]) == Empty(0)
    {
      var q := order[from[i]];
      assert field[q.0, q.1] == TurnDiscovered(initial[q]);
    }
  }

  /** No covered bomb-free square is left next to an uncovered blank square of `s`.
      Stated on the array, where the fill works; `Board.SettledOn` is the same
      test on a value view of the board. */
  ghost predicate Settled(field: array2<Cell>, s: set<Pos>)
    reads field
  {
    forall p, q ::
      (p in s && InGrid(field, p) && GetItem(field[p.0, p.1]) == Empty(0) &&
       Adjacent(p, q) && InGrid(field, q)) ==> !HiddenEmpty(field[q.0, q.1])
  }

  /** With the queue empty, the uncovered region is closed on the field itself. */
  lemma SettledWhenClosed(field: array2<Cell>, initial: imap<Pos, Cell>, revealed: set<Pos>)
    requires Closed(field, initial, [], revealed, {})
    requires UncoveredFrom(field, initial, revealed)
    ensures Settled(field, revealed)
  {
    forall p, q | p in revealed && InGrid(field, p) && GetItem(field[p.0, p.1]) == Empty(0) &&
                  Adjacent(p, q) && InGrid(field, q)
      ensures !HiddenEmpty(field[q.0, q.1])
    {
      assert field[p.0, p.1] == TurnDiscovered(initial[p]);
    }
  }

  /** One turn of the inner loop of `fill_area`: queues square `q`, a
      neighbour of the blank square `p`, when it is on the field, covered,
      bomb-free and not yet explored. */
  method ConsiderNeighbour(field: array2<Cell>, explored: array2<bool>, queue: seq<Pos>, p: Pos, q: Pos,
                           ghost initial: imap<Pos, Cell>, ghost revealed: set<Pos>, ghost start: Pos,
                           ghost parent: map<Pos, Pos>)
    returns (queue': seq<Pos>, ghost parent': map<Pos, Pos>)
    requires UncoveredFrom(field, initial, revealed)
    requires QueueOk(field, initial, explored, queue, revealed, start)
    requires Justified(field, initial, queue, revealed, start, parent)
    requires p in revealed && InGrid(field, p) && GetItem(initial[p]) == Empty(0) && Adjacent(p, q)
    requires start in revealed
    modifies explored
    ensures QueueOk(field, initial, explored, queue', revealed, start)
    ensures Justified(field, initial, queue', revealed, start, parent')
    ensures Handled(field, initial, queue', revealed, q)
    ensures queue' == queue || queue' == queue + [q]
    ensures Extends(parent, parent')
  {
    queue', parent' := queue, parent;
    var (r, c) := q;
    if 0 <= r < field.Length0 && 0 <= c < field.Length1 && HiddenEmpty(field[r, c]) && !explored[r, c] {
      queue', parent' := queue' + [(r, c)], parent'[(r, c) := p];
      explored[r, c] := true;
    }
  }

  /** The inner loop of `fill_area` after its first `d` offsets around the
      blank square `p`: the neighbours they lead to are handled. */
  ghost predicate Scanned(field: array2<Cell>, initial: imap<Pos, Cell>, explored: array2<bool>,
                          queue: seq<Pos>, revealed: set<Pos>, start: Pos, parent: map<Pos, Pos>,
                          p: Pos, d: nat)
    reads explored
  {
    && d <= |Directions|
    && start in revealed
    && QueueOk(field, initial, explored, queue, revealed, start)
    && Justified(field, initial, queue, revealed, start, parent)
    && Closed(field, initial, queue, revealed, {p})
    && (forall k :: 0 <= k < d ==> Handled(field, initial, queue, revealed, Step(p, k)))
  }

  /** One turn of the inner loop of `fill_area`, on offset number `d`. */
  method ScanDirection(field: array2<Cell>, explored: array2<bool>, queue: seq<Pos>, p: Pos, d: nat,
                       ghost initial: imap<Pos, Cell>, ghost revealed: set<Pos>, ghost start: Pos,
                       ghost parent: map<Pos, Pos>)
    returns (queue': seq<Pos>, ghost parent': map<Pos, Pos>)
    requires UncoveredFrom(field, initial, revealed)
    requires d < |Directions| && Scanned(field, initial, explored, queue, revealed, start, parent, p, d)
    requires p in revealed && InGrid(field, p) && GetItem(initial[p]) == Empty(0)
    modifies explored
    ensures Scanned(field, initial, explored, queue', revealed, start, parent', p, d + 1)
    ensures Extends(parent, parent')
  {
    StepAdjacent(p, d);
    queue', parent' := ConsiderNeighbour(field, explored, queue, p, Step(p, d), initial, revealed, start, parent);
    forall k | 0 <= k < d ensures Handled(field, initial, queue', revealed, Step(p, k)) {
      assert Handled(field, initial, queue, revealed, Step(p, k));
    }
    assert forall k :: 0 <= k < d + 1 ==> Handled(field, initial, queue', revealed, Step(p, k));
  }

  /** Once all eight offsets are done, every neighbour of `p` is handled. */
  lemma ScannedAll(field: array2<Cell>, initial: imap<Pos, Cell>, explored: array2<bool>,
                   queue: seq<Pos>, revealed: set<Pos>, start: Pos, parent: map<Pos, Pos>, p: Pos)
    requires Scanned(field, initial, explored, queue, revealed, start, parent, p, |Directions|)
    ensures Frontier(field, initial, explored, queue, revealed, start, parent, {})
  {
    forall q | Adjacent(p, q) && InGrid(field, q)
      ensures q in queue || q in revealed || !HiddenEmpty(initial[q])
    {
      assert Handled(field, initial, queue, revealed, Step(p, DirectionTo(p, q)));
    }
  }

  /** The inner loop of `fill_area`: queues each covered bomb-free neighbour
      of the blank square `p` that is not explored yet. */
  method QueueNeighbours(field: array2<Cell>, explored: array2<bool>, queue: seq<Pos>, p: Pos,
                         ghost initial: imap<Pos, Cell>, ghost revealed: set<Pos>, ghost start: Pos,
                         ghost parent: map<Pos, Pos>)
    returns (queue': seq<Pos>, ghost parent': map<Pos, Pos>)
    requires UncoveredFrom(field, initial, revealed)
    requires Frontier(field, initial, explored, queue, revealed, start, parent, {p})
    requires p in revealed && InGrid(field, p) && GetItem(initial[p]) == Empty(0)
    modifies explored
    ensures Frontier(field, initial, explored, queue', revealed, start, parent', {})
    ensures Extends(parent, parent')
  {
    queue', parent' := queue, parent;
    for d := 0 to |Directions|
      invariant Scanned(field, initial, explored, queue', revealed, start, parent', p, d)
      invariant Extends(parent, parent')
    {
      queue', parent' := ScanDirection(field, explored, queue', p, d, initial, revealed, start, parent');
    }
    ScannedAll(field, initial, explored, queue', revealed, start, parent', p);
  }

  /** The field as it is now. */
  ghost function Snapshot(field: array2<Cell>): imap<Pos, Cell>
    reads field
  {
    imap p | InGrid(field, p) :: field[p.0, p.1]
  }

  /** A field is itself with nothing uncovered. */
  lemma UncoveredNothing(field: array2<Cell>)
    ensures UncoveredFrom(field, Snapshot(field), {})
  {
  }

  /** The covered bomb-free squares of the recorded field `initial`: `ToUncover`
      as it was when the fill started, read from the record rather than the
      array, which the fill changes. */
  ghost function ToUncoverIn(field: array2<Cell>, initial: imap<Pos, Cell>): set<Pos>
    requires Recorded(field, initial)
  {
    set r, c | 0 <= r < field.Length0 && 0 <= c < field.Length1 && Pending(initial[(r, c)]) :: (r, c)
  }

  lemma SnapshotToUncover(field: array2<Cell>)
    ensures Recorded(field, Snapshot(field)) && ToUncover(field) == ToUncoverIn(field, Snapshot(field))
  {
  }

  /** Uncovering covered bomb-free squares takes exactly them off the squares
      left to uncover. */
  lemma UncoveredLeaveToUncover(field: array2<Cell>, initial: imap<Pos, Cell>, revealed: set<Pos>)
    requires UncoveredFrom(field, initial, revealed)
    ensures revealed <= ToUncoverIn(field, initial)
    ensures ToUncover(field) == ToUncoverIn(field, initial) - revealed
  {
  }

  /** Uncovers square `p` of the field. */
  method Uncover(field: array2<Cell>, p: Pos)
    requires InGrid(field, p)
    modifies field
    ensures field[p.0, p.1] == TurnDiscovered(old(field[p.0, p.1]))
    ensures forall r, c :: 0 <= r < field.Length0 && 0 <= c < field.Length1 && (r, c) != p ==>
              field[r, c] == old(field[r, c])
    ensures ToUncover(field) == old(ToUncover(field)) - {p}
  {
    field[p.0, p.1] := TurnDiscovered(field[p.0, p.1]);
  }

  /** Uncovers the covered bomb-free square `p` and takes one off the count
      of squares left to uncover. */
  method UncoverCounted(field: array2<Cell>, p: Pos, count: u32,
                        ghost initial: imap<Pos, Cell>, ghost revealed: set<Pos>)
    returns (count': u32)
    requires UncoveredFrom(field, initial, revealed)
    requires InGrid(field, p) && p !in revealed && HiddenEmpty(initial[p])
    requires |ToUncover(field)| <= count as int
    modifies field
    ensures count' as int == count as int - 1 && |ToUncover(field)| <= count' as int
    ensures UncoveredFrom(field, initial, revealed + {p})
  {
    assert p in ToUncover(field);
    Uncover(field, p);
    count' := count - 1;
  }

  /** One turn of the outer loop of `fill_area`: takes the first queued
      square, uncovers it, counts it off and, when no bomb touches it, queues
      its neighbours. */
  method Visit(field: array2<Cell>, explored: array2<bool>, queue: seq<Pos>, count: u32,
               ghost initial: imap<Pos, Cell>, ghost revealed: set<Pos>, ghost start: Pos,
               ghost parent: map<Pos, Pos>)
    returns (queue': seq<Pos>, count': u32, ghost revealed': set<Pos>, ghost parent': map<Pos, Pos>)
    requires queue != []
    requires Frontier(field, initial, explored, queue, revealed, start, parent, {})
    requires UncoveredFrom(field, initial, revealed)
    requires |ToUncover(field)| <= count as int
    modifies field, explored
    ensures revealed' == revealed + {queue[0]} && |revealed'| == |revealed| + 1
    ensures count' as int == count as int - 1 && |ToUncover(field)| <= count' as int
    ensures Frontier(field, initial, explored, queue', revealed', start, parent', {})
    ensures UncoveredFrom(field, initial, revealed')
    ensures Extends(parent, parent')
  {
    var p := queue[0];
    FrontierAfterPop(field, initial, explored, queue, revealed, start, parent);
    count' := UncoverCounted(field, p, count, initial, revealed);
    revealed' := revealed + {p};
    assert |revealed'| == |revealed| + 1;
    queue', parent' := queue[1..], parent;
    assert field[p.0, p.1] == TurnDiscovered(initial[p]);
    match GetItem(field[p.0, p.1])
    case Bomb =>
    case Empty(n) =>
      if n == 0 {
        ghost var pendingCount := |ToUncover(field)|;
        queue', parent' := QueueNeighbours(field, explored, queue', p, initial, revealed', start, parent');
        assert |ToUncover(field)| == pendingCount;
      } else {
        assert Frontier(field, initial, explored, queue', revealed', start, parent', {});
      }
  }

  /** Uncovers, starting at (`startRow`, `startCol`), every square connected to
      it through uncovered squares with no bomb around, plus the border of
      numbered squares, and takes one off `hiddenCount` for each square it
      uncovers. `revealed` is the set of squares it turned from covered to
      uncovered. */
  method FillArea(field: array2<Cell>, startRow: nat, startCol: nat, hiddenCount: u32)
    returns (count: u32, ghost revealed: set<Pos>, ghost order: seq<Pos>, ghost from: seq<nat>)
    requires InGrid(field, (startRow, startCol)) && HiddenEmpty(field[startRow, startCol])
    requires |ToUncover(field)| <= hiddenCount as int
    modifies field
    // the start square is uncovered
    ensures (startRow, startCol) in revealed
    // only covered bomb-free squares are uncovered, never a bomb or a pin; they
    // keep their item, and nothing else changes
    ensures UncoveredFrom(field, old(Snapshot(field)), revealed)
    ensures revealed <= old(ToUncover(field)) && ToUncover(field) == old(ToUncover(field)) - revealed
    // one decrement per uncovered square
    ensures count as int == hiddenCount as int - |revealed|
    // no covered bomb-free square is left next to an uncovered blank one
    ensures Settled(field, revealed)
    // and every uncovered square is reached from the start through uncovered blank ones
    ensures ReachedInOrder(field, (startRow, startCol), revealed, order, from)
  {
    ghost var initial := Snapshot(field);
    SnapshotToUncover(field);
    var rows, cols := field.Length0, field.Length1;
    var explored := new bool[rows, cols]((r, c) => false);
    var queue: seq<Pos> := [(startRow, startCol)];
    count := hiddenCount;
    revealed := {};
    ghost var start: Pos := (startRow, startCol);
    ghost var parent: map<Pos, Pos> := map[];
    order, from := [], [];
    FrontierAtStart(field, initial, explored, start);
    while queue != []
      invariant UncoveredFrom(field, initial, revealed)
      invariant count as int == hiddenCount as int - |revealed|
      invariant |ToUncover(field)| <= count as int
      invariant Frontier(field, initial, explored, queue, revealed, start, parent, {})
      invariant PopOrder(revealed, start, parent, order, from)
      decreases count
    {
      ghost var p, revealed0, parent0 := queue[0], revealed, parent;
      PopReady(field, initial, explored, queue, revealed, start, parent);
      queue, count, revealed, parent := Visit(field, explored, queue, count, initial, revealed, start, parent);
      from := PopOrderStep(revealed0, start, parent0, parent, order, from, p);
      order := order + [p];
    }
    ReachedByParents(field, initial, revealed, start, parent, order, from);
    SettledWhenClosed(field, initial, revealed);
    UncoveredLeaveToUncover(field, initial, revealed);
  }
}
