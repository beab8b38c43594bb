/**
 * The two hand-made boards the program can set up to try out merging and the end of a game
 * (createMergeTest and createGameOverTest): a cleared board filled by addTileAt, one call per
 * tile, in the order listed here.
 */
module Fixtures {
  import opened Geometry
  import opened BoardSpec
  import opened SteadyState

  /** One addTileAt call: cell (x, y) and exponent value. */
  datatype Placement = Placement(x: int, y: int, value: int)

  function TileOf(p: Placement): TileState {
    TileState(p.x, p.y, p.value, 0)
  }

  /** The board clear leaves: sixteen empty slots. */
  function EmptyBoard(): (s: Slots)
    ensures |s| == SlotCount && forall i :: 0 <= i < |s| ==> s[i].None?
  {
    seq(SlotCount, _ => None)
  }

  /** addTileAt for each placement in turn, starting from s. */
  function AddAll(s: Slots, ps: seq<Placement>): Slots {
    if ps == [] then s else Insert(AddAll(s, ps[..|ps| - 1]), TileOf(ps[|ps| - 1])).0
  }

  /** Placements added one by one to a board whose first m slots are full and the rest empty land in
      the slots m, m + 1, ... in order, and nothing else changes. */
  lemma {:induction false} AddAllFillsInOrder(s: Slots, ps: seq<Placement>, m: int)
    requires |s| == SlotCount && 0 <= m && m + |ps| <= SlotCount
    requires forall i :: 0 <= i < m ==> s[i].Some?
    requires forall i :: m <= i < SlotCount ==> s[i].None?
    ensures |AddAll(s, ps)| == SlotCount
    ensures forall i :: 0 <= i < m ==> AddAll(s, ps)[i] == s[i]
    ensures forall k :: 0 <= k < |ps| ==> AddAll(s, ps)[m + k] == Some(TileOf(ps[k]))
    ensures forall i :: m + |ps| <= i < SlotCount ==> AddAll(s, ps)[i].None?
  {
    if ps != [] {
      var n := |ps| - 1;
      AddAllFillsInOrder(s, ps[..n], m);
      var prev := AddAll(s, ps[..n]);
      assert forall i :: 0 <= i < m + n ==> prev[i].Some? by {
        forall i | 0 <= i < m + n
          ensures prev[i].Some?
        {
          if m <= i {
            assert prev[m + (i - m)] == Some(TileOf(ps[..n][i - m]));
          }
        }
      }
      assert prev[m + n].None?;
      assert FirstNil(prev) == Some(m + n);
      InsertFacts(prev, TileOf(ps[n]));
      var cur := AddAll(s, ps);
      assert cur == prev[m + n := Some(TileOf(ps[n]))];
      forall k | 0 <= k < |ps|
        ensures cur[m + k] == Some(TileOf(ps[k]))
      {
        if k < n {
          assert ps[..n][k] == ps[k];
        }
      }
    }
  }

  /** A board filled from empty holds placement k in slot k and leaves the remaining slots empty. */
  lemma FilledBoard(ps: seq<Placement>)
    requires |ps| <= SlotCount
    ensures |AddAll(EmptyBoard(), ps)| == SlotCount
    ensures forall k :: 0 <= k < |ps| ==> AddAll(EmptyBoard(), ps)[k] == Some(TileOf(ps[k]))
    ensures forall i :: |ps| <= i < SlotCount ==> AddAll(EmptyBoard(), ps)[i].None?
  {
    AddAllFillsInOrder(EmptyBoard(), ps, 0);
    assert forall k :: 0 <= k < |ps| ==> AddAll(EmptyBoard(), ps)[0 + k] == Some(TileOf(ps[k]));
  }

  /** createMergeTest: each row holds two pairs of equal tiles; the bottom right pair are two 2048 tiles. */
  const MergeTestTiles: seq<Placement> := [
    Placement(0, 0, 4), Placement(1, 0, 4), Placement(2, 0, 5), Placement(3, 0, 5),
    Placement(0, 1, 6), Placement(1, 1, 6), Placement(2, 1, 7), Placement(3, 1, 7),
    Placement(0, 2, 8), Placement(1, 2, 8), Placement(2, 2, 9), Placement(3, 2, 9),
    Placement(0, 3, 10), Placement(1, 3, 10), Placement(2, 3, 11), Placement(3, 3, 11)]

  /** createGameOverTest: fifteen tiles, the bottom right cell left free, a 2048 tile at (1, 3). */
  const GameOverTestTiles: seq<Placement> := [
    Placement(0, 0, 3), Placement(1, 0, 4), Placement(2, 0, 3), Placement(3, 0, 4),
    Placement(0, 1, 5), Placement(1, 1, 6), Placement(2, 1, 5), Placement(3, 1, 6),
    Placement(0, 2, 7), Placement(1, 2, 8), Placement(2, 2, 7), Placement(3, 2, 8),
    Placement(0, 3, 9), Placement(1, 3, 11), Placement(2, 3, 9)]

  function MergeTestBoard(): (s: Slots)
    ensures |s| == SlotCount && Full(s)
  {
    FilledBoard(MergeTestTiles);
    AddAll(EmptyBoard(), MergeTestTiles)
  }

  function GameOverTestBoard(): (s: Slots)
    ensures |s| == SlotCount && !Full(s)
  {
    FilledBoard(GameOverTestTiles);
    assert AddAll(EmptyBoard(), GameOverTestTiles)[15].None?;
    AddAll(EmptyBoard(), GameOverTestTiles)
  }

  /** The game over test board holds a tile in each of its first fifteen slots and none in the
      last, so a fall cascade run over all sixteen slots reaches an empty one. */
  lemma GameOverTestSlots()
    ensures |GameOverTestBoard()| == SlotCount
    ensures forall k :: 0 <= k < SlotCount - 1 ==> GameOverTestBoard()[k].Some?
    ensures GameOverTestBoard()[SlotCount - 1].None?
  {
    FilledBoard(GameOverTestTiles);
  }

  /** The merge test board is full, row by row: slot k holds the tile on (k mod 4, k div 4), and
      the two tiles of each half row are equal. */
  lemma MergeTestLayout()
    ensures |MergeTestBoard()| == SlotCount
    ensures forall k :: 0 <= k < SlotCount ==>
      MergeTestBoard()[k] == Some(TileState(k % BoardSize, k / BoardSize, 4 + 2 * (k / BoardSize) + k % BoardSize / 2, 0))
  {
    FilledBoard(MergeTestTiles);
    forall k | 0 <= k < SlotCount
      ensures MergeTestTiles[k] == Placement(k % BoardSize, k / BoardSize, 4 + 2 * (k / BoardSize) + k % BoardSize / 2)
    {
      assert k in {0, 1, 2, 3, 4, 5, 6, 7, 8, 9, 10, 11, 12, 13, 14, 15};
    }
  }

  /** The game-over test board holds fifteen tiles row by row; the last cell, (3, 3), is free. */
  lemma GameOverTestLayout()
    ensures |GameOverTestBoard()| == SlotCount && GameOverTestBoard()[15].None?
    ensures forall k :: 0 <= k < 15 ==>
      GameOverTestBoard()[k] == Some(TileState(k % BoardSize, k / BoardSize,
                                               if k == 13 then MaxTileValue else 3 + 2 * (k / BoardSize) + k % 2, 0))
  {
    FilledBoard(GameOverTestTiles);
    forall k | 0 <= k < 15
      ensures GameOverTestTiles[k] == Placement(k % BoardSize, k / BoardSize,
                                                if k == 13 then MaxTileValue else 3 + 2 * (k / BoardSize) + k % 2)
    {
      assert k in {0, 1, 2, 3, 4, 5, 6, 7, 8, 9, 10, 11, 12, 13, 14};
    }
  }

  /** Both boards are steady: tiles inside the grid, exponents in [1, 11], no marker, one tile per cell. */
  lemma FixturesAreSteady()
    ensures Steady(MergeTestBoard()) && Steady(GameOverTestBoard())
  {
    MergeTestLayout();
    GameOverTestLayout();
  }

  /** One slot of the merge test board. */
  lemma MergeTestSlot(k: int)
    requires 0 <= k < SlotCount
    ensures MergeTestBoard()[k] == Some(TileState(k % BoardSize, k / BoardSize, 4 + 2 * (k / BoardSize) + k % BoardSize / 2, 0))
  {
    MergeTestLayout();
  }

  /** On the merge test board tileAt finds, on the cell of slot k, the tile of slot k. */
  lemma MergeTestTileAt(k: int)
    requires 0 <= k < SlotCount
    ensures FirstAt(MergeTestBoard(), Pos(MergeTestBoard()[k].value)) == Some(k)
  {
    FixturesAreSteady();
    TileAtFindsItsTile(MergeTestBoard(), k);
  }

  /** The cell of slot k - 1 is the left neighbour of the cell of an odd slot k, in the same half row. */
  lemma LeftOfOddSlot(k: int)
    requires 0 <= k < SlotCount && k % 2 == 1
    ensures (k - 1) % BoardSize == k % BoardSize - 1 && (k - 1) / BoardSize == k / BoardSize
    ensures (k - 1) % BoardSize / 2 == k % BoardSize / 2
  {
  }

  /** Moving left, the tile in the odd slot k of the merge test board merges into slot k - 1 on its
      left, unless both are 2048 tiles. */
  lemma MergeTestPairAt(k: int)
    requires 0 <= k < SlotCount && k % 2 == 1
    ensures MoveTarget(MergeTestBoard(), MergeTestBoard()[k].value, Left)
      == if k == 15 then (Pos(MergeTestBoard()[k].value), None) else (Pos(MergeTestBoard()[k - 1].value), Some((k - 1) as nat))
  {
    MergeTestSlot(k);
    MergeTestSlot(k - 1);
    LeftOfOddSlot(k);
    MergeTestTileAt(k - 1);
    assert Step(Pos(MergeTestBoard()[k].value), Left) == Pos(MergeTestBoard()[k - 1].value);
    ProbeStops(MergeTestBoard(), MergeTestBoard()[k].value.value, Pos(MergeTestBoard()[k].value), Left);
  }

  /** gameOverCheck on either board, as the code computes it: a 2048 tile is present, so the answer
      is won and not done, on the full merge test board as on the game-over board with its free cell. */
  lemma FixturesAreWon()
    ensures GameOverState(MergeTestBoard()) == (false, true)
    ensures GameOverState(GameOverTestBoard()) == (false, true) && !Full(GameOverTestBoard())
  {
    MergeTestLayout();
    GameOverTestLayout();
    assert MergeTestBoard()[15].value.value == MaxTileValue;
    assert GameOverTestBoard()[13].value.value == MaxTileValue;
  }
}
