/**
 * How the program sets up its board outside a game turn: the two hand-made boards built by
 * addTileAt calls (createMergeTest, createGameOverTest), and the board part of run, which starts on
 * the game-over test board rather than on a new game.
 */
module Startup {
  import opened BoardSpec
  import opened Fixtures
  import opened Engine

  /** addTileAt for each placement in turn; its answer is not used. */
  method AddTiles(g: Game, ps: seq<Placement>)
    requires g.Valid()
    modifies g, g.tiles
    ensures g.Valid() && g.tiles == old(g.tiles) && old(g.Repr) <= g.Repr && fresh(g.Repr - old(g.Repr))
    ensures g.cells == AddAll(old(g.cells), ps)
    ensures unchanged(g`score, g`hiscore, g`moved, g`enableMerge, g`fallIndex, g`running, g`message)
  {
    for k := 0 to |ps|
      invariant g.Valid() && g.tiles == old(g.tiles) && old(g.Repr) <= g.Repr && fresh(g.Repr - old(g.Repr))
      invariant g.cells == AddAll(old(g.cells), ps[..k])
      invariant unchanged(g`score, g`hiscore, g`moved, g`enableMerge, g`fallIndex, g`running, g`message)
    {
      assert ps[..k + 1][..k] == ps[..k];
      var _ := g.AddTileAt(ps[k].x, ps[k].y, ps[k].value);
    }
    assert ps[..|ps|] == ps;
  }

  /** createMergeTest: a cleared board filled with the merge test tiles. */
  method CreateMergeTest(g: Game)
    requires g.Valid()
    modifies g, g.tiles
    ensures g.Valid() && g.tiles == old(g.tiles) && old(g.Repr) <= g.Repr && fresh(g.Repr - old(g.Repr))
    ensures g.cells == MergeTestBoard()
    ensures unchanged(g`score, g`hiscore, g`moved, g`enableMerge, g`fallIndex, g`running, g`message)
  {
    g.Clear();
    assert g.cells == EmptyBoard();
    AddTiles(g, MergeTestTiles);
  }

  /** createGameOverTest: a cleared board filled with the game-over test tiles. */
  method CreateGameOverTest(g: Game)
    requires g.Valid()
    modifies g, g.tiles
    ensures g.Valid() && g.tiles == old(g.tiles) && old(g.Repr) <= g.Repr && fresh(g.Repr - old(g.Repr))
    ensures g.cells == GameOverTestBoard()
    ensures unchanged(g`score, g`hiscore, g`moved, g`enableMerge, g`fallIndex, g`running, g`message)
  {
    g.Clear();
    assert g.cells == EmptyBoard();
    AddTiles(g, GameOverTestTiles);
  }

  /** The board part of run: the game-over test board rather than a new game, and the fall cascade
      started at slot 0, which holds a tile. */
  method Launch(g: Game)
    requires g.Valid()
    modifies g, g.tiles
    ensures g.Valid() && g.tiles == old(g.tiles) && old(g.Repr) <= g.Repr && fresh(g.Repr - old(g.Repr))
    ensures g.cells == GameOverTestBoard() && g.fallIndex == 0 && g.tiles[0] != null
    ensures unchanged(g`score, g`hiscore, g`moved, g`enableMerge, g`running, g`message)
  {
    CreateGameOverTest(g);
    GameOverTestSlots();
    g.fallIndex := 0;
  }
}
