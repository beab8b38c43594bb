/**
 * The four enumeration strategies that fix the order in which a move visits the cells.
 * A strategy called with the sentinel (-1, -1) yields the first cell; called with the
 * previous cell it yields the next one and whether the enumeration is exhausted.
 */
module ScanOrder {
  import opened Geometry

  /** enumFromLeft: column by column, x ascending; y ascending inside a column. */
  function EnumFromLeft(cx: int, cy: int): (int, int, bool) {
    if cx == -1 then (0, 0, false)
    else if cy + 1 >= BoardSize then (cx + 1, 0, cx + 1 >= BoardSize)
    else (cx, cy + 1, cx >= BoardSize)
  }

  /** enumFromRight: column by column, x descending from the right edge; y ascending inside a column. */
  function EnumFromRight(cx: int, cy: int): (int, int, bool) {
    if cx == -1 then (BoardSize - 1, 0, false)
    else if cy + 1 >= BoardSize then (cx - 1, 0, cx - 1 < 0)
    else (cx, cy + 1, cx < 0)
  }

  /** enumFromTop: row by row, y ascending; x ascending inside a row. */
  function EnumFromTop(cx: int, cy: int): (int, int, bool) {
    if cx == -1 then (0, 0, false)
    else if cx + 1 >= BoardSize then (0, cy + 1, cy + 1 >= BoardSize)
    else (cx + 1, cy, cy >= BoardSize)
  }

  /** enumFromBottom: row by row, y descending from the bottom edge; x ascending inside a row. */
  function EnumFromBottom(cx: int, cy: int): (int, int, bool) {
    if cx == -1 then (0, BoardSize - 1, false)
    else if cx + 1 >= BoardSize then (0, cy - 1, cy - 1 < 0)
    else (cx + 1, cy, cy < 0)
  }

  /** The strategy a move is handed (the source passes the function itself). */
  datatype Scan = FromLeft | FromRight | FromTop | FromBottom

  function Next(s: Scan, cx: int, cy: int): (int, int, bool) {
    match s
    case FromLeft => EnumFromLeft(cx, cy)
    case FromRight => EnumFromRight(cx, cy)
    case FromTop => EnumFromTop(cx, cy)
    case FromBottom => EnumFromBottom(cx, cy)
  }

  /** The strategy paired with each direction by the key handler. */
  function ScanFor(d: Dir): Scan {
    match d
    case Left => FromLeft
    case Up => FromTop
    case Right => FromRight
    case Down => FromBottom
  }

  /** Reference order: the k-th cell each strategy should produce. */
  function Nth(s: Scan, k: int): Cell
    requires 0 <= k < SlotCount
  {
    match s
    case FromLeft => Cell(k / BoardSize, k % BoardSize)
    case FromRight => Cell(BoardSize - 1 - k / BoardSize, k % BoardSize)
    case FromTop => Cell(k % BoardSize, k / BoardSize)
    case FromBottom => Cell(k % BoardSize, BoardSize - 1 - k / BoardSize)
  }

  /** Inverse of Nth: the position of an in-bounds cell in the order of s. */
  function Rank(s: Scan, c: Cell): int
    requires InBounds(c)
  {
    match s
    case FromLeft => c.x * BoardSize + c.y
    case FromRight => (BoardSize - 1 - c.x) * BoardSize + c.y
    case FromTop => c.y * BoardSize + c.x
    case FromBottom => (BoardSize - 1 - c.y) * BoardSize + c.x
  }

  /** The whole reference order of a strategy. */
  function Order(s: Scan): (o: seq<Cell>)
    ensures |o| == SlotCount
  {
    seq(SlotCount, k requires 0 <= k < SlotCount => Nth(s, k))
  }

  /** Nth and Rank are inverse bijections between [0, 16) and the in-bounds cells. */
  lemma NthRank(s: Scan, k: int, c: Cell)
    requires 0 <= k < SlotCount && InBounds(c)
    ensures InBounds(Nth(s, k)) && 0 <= Rank(s, c) < SlotCount
    ensures Rank(s, Nth(s, k)) == k
    ensures Nth(s, Rank(s, c)) == c
  {
  }

  /** Every in-bounds cell appears in the order exactly once. */
  lemma OrderIsPermutationOfCells(s: Scan)
    ensures forall i, j :: 0 <= i < SlotCount && 0 <= j < SlotCount && Order(s)[i] == Order(s)[j] ==> i == j
    ensures forall c :: InBounds(c) ==> c in Order(s)
    ensures forall c :: c in Order(s) ==> InBounds(c)
  {
    forall i, j | 0 <= i < SlotCount && 0 <= j < SlotCount && Order(s)[i] == Order(s)[j]
      ensures i == j
    {
      NthRank(s, i, Order(s)[i]);
      NthRank(s, j, Order(s)[j]);
    }
    forall c | InBounds(c)
      ensures c in Order(s)
    {
      NthRank(s, 0, c);
      assert Order(s)[Rank(s, c)] == c;
    }
    forall c | c in Order(s)
      ensures InBounds(c)
    {
      var k :| 0 <= k < SlotCount && Order(s)[k] == c;
      NthRank(s, k, Cell(0, 0));
    }
  }

  /** The sentinel call starts every enumeration at the first cell of the reference order. */
  lemma StartIsFirst(s: Scan)
    ensures Next(s, -1, -1) == (Nth(s, 0).x, Nth(s, 0).y, false)
  {
  }

  /** Each call advances from the k-th cell to the (k+1)-th, and reports done after the last one. */
  lemma NextFollowsOrder(s: Scan, k: int)
    requires 0 <= k < SlotCount
    ensures k + 1 < SlotCount ==> Next(s, Nth(s, k).x, Nth(s, k).y) == (Nth(s, k + 1).x, Nth(s, k + 1).y, false)
    ensures k + 1 == SlotCount ==> Next(s, Nth(s, k).x, Nth(s, k).y).2
  {
  }

  /** The n-th answer (counting from 0) of a strategy driven from the sentinel, as the move loop drives it. */
  function Walk(s: Scan, n: nat): (int, int, bool) {
    if n == 0 then Next(s, -1, -1)
    else
      var p := Walk(s, n - 1);
      Next(s, p.0, p.1)
  }

  /** Driven from the sentinel, every strategy yields its 16 cells in reference order, then reports done. */
  lemma {:induction false} WalkFollowsOrder(s: Scan, n: nat)
    requires n <= SlotCount
    ensures n < SlotCount ==> Walk(s, n) == (Nth(s, n).x, Nth(s, n).y, false)
    ensures n == SlotCount ==> Walk(s, n).2
  {
    if n == 0 {
      StartIsFirst(s);
    } else {
      WalkFollowsOrder(s, n - 1);
      NextFollowsOrder(s, n - 1);
    }
  }

  /**
   * With the strategy the key handler pairs with a direction, every cell further along the
   * direction is visited earlier: a tile always moves into a cell the scan has already passed.
   */
  lemma AheadIsScannedFirst(d: Dir, c: Cell, k: int)
    requires InBounds(c) && InBounds(Advance(c, d, k)) && 0 < k
    ensures Rank(ScanFor(d), Advance(c, d, k)) < Rank(ScanFor(d), c)
  {
  }
}
