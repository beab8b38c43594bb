/**
 * The game engine as the program runs it: tile objects whose fields change in place, the board's
 * fixed array of 16 tile slots, and the controller's turn handlers. The program keeps the board and
 * the controller as two globals; here they are the one object Game. Every presentation call (QML
 * property writes, animations, particle effects, score and message display) is a no-op; the
 * message shown is kept as an abstract tag.
 */
module Engine {
  import opened Geometry
  import opened ScanOrder
  import opened BoardSpec
  import opened SteadyState

  /** A tile. The program stores the exponent on the QML side ("nvalue"); here it is a field. */
  class Tile {
    var x: int
    var y: int
    var value: int
    var nextValue: int

    /** createTile(value, x, y): a new tile at (x, y) with no merge pending. */
    constructor (value: int, x: int, y: int)
      ensures State() == TileState(x, y, value, 0)
    {
      this.x, this.y := x, y;
      this.value := value;
      this.nextValue := 0;
    }

    function State(): TileState
      reads this
    {
      TileState(x, y, value, nextValue)
    }
  }

  /** The text overlaid on the board, as a tag. */
  datatype Message = NoMessage | NewHighScore | GameOver | Congratulations

  /** The keys the handler reacts to (Qt's arrow-key codes) and everything else. */
  datatype Key = LeftKey | UpKey | RightKey | DownKey | OtherKey

  /** The directions gameOverCheck tries, in the order its (dx, dy) loops reach them. */
  const ProbeOrder: seq<Dir> := [Left, Up, Down, Right]

  class Game {
    // Board
    var tiles: array<Tile?>
    var moved: bool
    // Control
    var score: int
    var hiscore: int
    var enableMerge: bool
    var fallIndex: int
    var running: bool
    var message: Message

    /** The slots as values: what each slot holds, or None. */
    ghost var cells: Slots
    ghost var Repr: set<object>

    /** The slot array mirrors cells, and no tile object sits in two slots. */
    ghost predicate Valid()
      reads this, Repr
    {
      this in Repr && tiles in Repr && tiles.Length == SlotCount && |cells| == SlotCount
      && 0 <= fallIndex
      && (forall i :: 0 <= i < SlotCount ==> (tiles[i] == null <==> cells[i].None?))
      && (forall i :: 0 <= i < SlotCount && tiles[i] != null ==>
            tiles[i] in Repr && cells[i] == Some(tiles[i].State()))
      && (forall i, j :: 0 <= i < SlotCount && 0 <= j < SlotCount && i != j && tiles[i] != null ==>
            tiles[i] != tiles[j])
    }

    /** The two globals as declared: an empty board, and a controller holding the high score read
        from the settings file. Startup.Launch then puts the first tiles on the board. */
    constructor (savedHiScore: int)
      ensures Valid() && fresh(Repr)
      ensures forall i :: 0 <= i < SlotCount ==> cells[i].None?
      ensures score == 0 && hiscore == savedHiScore && !moved && !enableMerge && fallIndex == 0
      ensures !running && message == NoMessage
    {
      tiles := new Tile?[SlotCount](_ => null);
      moved, score, hiscore, enableMerge, fallIndex := false, 0, savedHiScore, false, 0;
      running, message := false, NoMessage;
      cells := seq(SlotCount, _ => None);
      new;
      Repr := {this, tiles};
    }

    // -------------------------------------------------------------------------------------------
    // Board storage

    /** freeSpaces: the number of empty slots. */
    method FreeSpaces() returns (cnt: int)
      requires Valid()
      ensures cnt == CountNils(cells)
    {
      cnt := 0;
      for i := 0 to SlotCount
        invariant cnt == CountNils(cells[..i])
      {
        assert cells[..i + 1][..i] == cells[..i];
        if tiles[i] == null {
          cnt := cnt + 1;
        }
      }
      assert cells[..SlotCount] == cells;
    }

    /** insertTile: put t into the lowest empty slot; false when all 16 are taken. */
    method InsertTile(t: Tile) returns (ok: bool)
      requires Valid()
      requires forall i :: 0 <= i < SlotCount ==> tiles[i] != t
      modifies this, tiles
      ensures Valid() && tiles == old(tiles) && Repr == old(Repr) + (if ok then {t} else {})
      ensures (cells, ok) == Insert(old(cells), t.State())
      ensures ok ==> tiles[FirstNil(old(cells)).value] == t
      ensures forall i :: 0 <= i < SlotCount && tiles[i] != old(tiles[i]) ==> ok && i == FirstNil(old(cells)).value
      ensures unchanged(this`score, this`hiscore, this`moved, this`enableMerge, this`fallIndex)
      ensures unchanged(this`running, this`message)
    {
      for i := 0 to SlotCount
        invariant forall j :: 0 <= j < i ==> tiles[j] != null
      {
        if tiles[i] == null {
          tiles[i] := t;
          cells := cells[i := Some(t.State())];
          Repr := Repr + {t};
          return true;
        }
      }
      return false;
    }

    /** removeTile: empty the slot holding t; false when t is not on the board. */
    method RemoveTile(t: Tile) returns (ok: bool)
      requires Valid()
      modifies this, tiles
      ensures Valid() && tiles == old(tiles) && Repr == old(Repr)
      ensures ok <==> t in old(tiles[..])
      ensures forall i :: 0 <= i < SlotCount ==> tiles[i] == (if old(tiles[i]) == t then null else old(tiles[i]))
      ensures forall i :: 0 <= i < SlotCount ==> cells[i] == (if old(tiles[i]) == t then None else old(cells[i]))
      ensures unchanged(this`score, this`hiscore, this`moved, this`enableMerge, this`fallIndex)
      ensures unchanged(this`running, this`message)
    {
      for i := 0 to SlotCount
        invariant forall j :: 0 <= j < i ==> tiles[j] != t
      {
        if tiles[i] == t {
          tiles[i] := null;
          cells := cells[i := None];
          return true;
        }
      }
      return false;
    }

    /** clear: remove every tile. The loop runs over a copy of the slots, as Go's range over an
        array does. */
    method Clear()
      requires Valid()
      modifies this, tiles
      ensures Valid() && tiles == old(tiles) && Repr == old(Repr)
      ensures forall i :: 0 <= i < SlotCount ==> tiles[i] == null && cells[i].None?
      ensures unchanged(this`score, this`hiscore, this`moved, this`enableMerge, this`fallIndex)
      ensures unchanged(this`running, this`message)
    {
      var snapshot := tiles[..];
      for i := 0 to SlotCount
        invariant Valid() && tiles == old(tiles) && Repr == old(Repr)
        invariant forall j :: 0 <= j < i ==> tiles[j] == null
        invariant forall j :: i <= j < SlotCount ==> tiles[j] == snapshot[j]
        invariant unchanged(this`score, this`hiscore, this`moved, this`enableMerge, this`fallIndex)
        invariant unchanged(this`running, this`message)
      {
        var t := snapshot[i];
        if t != null {
          var _ := RemoveTile(t);
        }
      }
    }

    /** tileAt: the tile in the lowest slot standing on (x, y), or null. */
    method TileAt(x: int, y: int) returns (t: Tile?)
      requires Valid()
      ensures FirstAt(cells, Cell(x, y)).None? ==> t == null
      ensures FirstAt(cells, Cell(x, y)).Some? ==>
                t == tiles[FirstAt(cells, Cell(x, y)).value] && t != null
                && t.State() == cells[FirstAt(cells, Cell(x, y)).value].value
    {
      for i := 0 to SlotCount
        invariant forall j :: 0 <= j < i ==> !Occupies(cells, j, Cell(x, y))
      {
        var ti := tiles[i];
        if ti != null && ti.x == x && ti.y == y {
          assert Occupies(cells, i, Cell(x, y));
          return ti;
        }
      }
      return null;
    }

    /** addTileAt: create a tile and insert it (createTile's QML object is not modelled). */
    method AddTileAt(x: int, y: int, v: int) returns (ok: bool)
      requires Valid()
      modifies this, tiles
      ensures Valid() && tiles == old(tiles) && old(Repr) <= Repr && fresh(Repr - old(Repr))
      ensures (cells, ok) == Insert(old(cells), TileState(x, y, v, 0))
      ensures unchanged(this`score, this`hiscore, this`moved, this`enableMerge, this`fallIndex)
      ensures unchanged(this`running, this`message)
    {
      var t := new Tile(v, x, y);
      ok := InsertTile(t);
    }

    /**
     * addRandomTile: the draws the program takes from its random generator are parameters here:
     * v in [1, maxValue], and (x, y) the first draw that landed on a free cell (the program
     * redraws until it does, and never stops on a full board).
     */
    method AddRandomTile(maxValue: int, x: int, y: int, v: int)
      requires Valid()
      requires 1 <= v <= maxValue
      requires InBounds(Cell(x, y)) && IsFree(cells, Cell(x, y))
      modifies this, tiles
      ensures Valid() && tiles == old(tiles) && old(Repr) <= Repr && fresh(Repr - old(Repr))
      ensures cells == Insert(old(cells), TileState(x, y, v, 0)).0
      ensures unchanged(this`score, this`hiscore, this`moved, this`enableMerge, this`fallIndex)
      ensures unchanged(this`running, this`message)
    {
      var _ := AddTileAt(x, y, v);
    }

    /** newGame: clear the board and spawn two tiles of value 1 or 2 on two drawn cells. */
    method NewGame(c1: Cell, v1: int, c2: Cell, v2: int)
      requires Valid()
      requires InBounds(c1) && InBounds(c2) && c1 != c2
      requires 1 <= v1 <= 2 && 1 <= v2 <= 2
      modifies this, tiles
      ensures Valid() && tiles == old(tiles) && old(Repr) <= Repr && fresh(Repr - old(Repr))
      ensures NewBoard(cells, c1, v1, c2, v2)
      ensures unchanged(this`score, this`hiscore, this`moved, this`enableMerge, this`fallIndex)
      ensures unchanged(this`running, this`message)
    {
      Clear();
      assert cells[0].None?;
      AddRandomTile(2, c1.x, c1.y, v1);
      assert cells[0].Some? && cells[1].None?;
      AddRandomTile(2, c2.x, c2.y, v2);
    }

    // -------------------------------------------------------------------------------------------
    // Move algorithm

    /** getMoveTarget: scan from the tile's cell along d. */
    method GetMoveTarget(tile: Tile, d: Dir) returns (x: int, y: int, otherTile: Tile?)
      requires Valid()
      ensures var r := MoveTarget(cells, tile.State(), d);
        Cell(x, y) == r.0 && (if r.1.None? then otherTile == null else otherTile == tiles[r.1.value])
    {
      ghost var r := MoveTarget(cells, tile.State(), d);
      x, y := tile.x, tile.y;
      var curx, cury := x, y;
      otherTile := null;
      while true
        invariant x == curx && y == cury && otherTile == null
        invariant Probe(cells, tile.value, Cell(curx, cury), d) == r
        decreases Room(Cell(curx, cury), d)
      {
        ghost var cur := Cell(curx, cury);
        curx, cury := curx + Dx(d), cury + Dy(d);
        if curx < 0 || curx > BoardSize - 1 || cury < 0 || cury > BoardSize - 1 {
          ProbeLeaves(cells, tile.value, cur, d);
          break;
        }
        var candidate := TileAt(curx, cury);
        if candidate == null
           || (candidate.value == tile.value && tile.value < MaxTileValue && candidate.nextValue == 0) {
          x, y := curx, cury;
          otherTile := candidate;
        }
        if candidate != null {
          ProbeStops(cells, tile.value, cur, d);
          return;
        }
        ProbeSkipsFree(cells, tile.value, cur, d);
      }
    }

    /** Tile.SetPos on the tile in slot i (the QML position and animation are not modelled). */
    method SetTilePos(ghost i: int, t: Tile, x: int, y: int)
      requires Valid() && 0 <= i < SlotCount && tiles[i] == t
      modifies t, this`cells
      ensures Valid() && cells == old(cells)[i := Some(old(t.State()).(x := x, y := y))]
    {
      t.x, t.y := x, y;
      cells := cells[i := Some(t.State())];
    }

    /** Marking a merge pair: the tile in slot i will be promoted, the one in slot j absorbed. */
    method MarkMergePair(ghost i: int, t: Tile, ghost j: int, other: Tile)
      requires Valid() && 0 <= i < SlotCount && 0 <= j < SlotCount && i != j
      requires tiles[i] == t && tiles[j] == other
      modifies t, other, this`cells
      ensures Valid()
      ensures cells == old(cells)[i := Some(old(t.State()).(next := old(t.value) + 1))]
                                 [j := Some(old(other.State()).(next := -1))]
    {
      t.nextValue := t.value + 1;
      cells := cells[i := Some(t.State())];
      other.nextValue := -1;
      cells := cells[j := Some(other.State())];
    }

    /** The body of doMove's loop for a tile t found in slot i on the scan cell (x, y): slide it
        to its target and, when it found a partner, mark both. */
    method MoveTile(ghost i: nat, t: Tile, x: int, y: int, d: Dir)
      requires Valid() && i < SlotCount && tiles[i] == t && Cell(t.x, t.y) == Cell(x, y)
      modifies this, Repr - {tiles}
      ensures Valid() && tiles == old(tiles) && Repr == old(Repr)
      ensures MoveState(cells, moved, enableMerge)
              == Visit(old(MoveState(cells, moved, enableMerge)), i, MoveTarget(old(cells), old(cells)[i].value, d))
      ensures unchanged(this`score, this`hiscore, this`fallIndex, this`running, this`message)
    {
      var newx, newy, otherTile := GetMoveTarget(t, d);
      PlaceTile(i, t, x, y, newx, newy, otherTile, MoveTarget(cells, cells[i].value, d));
    }

    /** The rest of doMove's loop body once the target r is known: reposition the tile when the
        target differs from its cell and, when it found a partner, mark both. */
    method PlaceTile(ghost i: nat, t: Tile, x: int, y: int, newx: int, newy: int, otherTile: Tile?,
                     ghost r: (Cell, Option<nat>))
      requires Valid() && i < SlotCount && tiles[i] == t && Cell(t.x, t.y) == Cell(x, y)
      requires Cell(newx, newy) == r.0
      requires if r.1.None? then otherTile == null
               else r.1.value < SlotCount && r.1.value != i && otherTile == tiles[r.1.value] && otherTile != null
      modifies this, Repr - {tiles}
      ensures Valid() && tiles == old(tiles) && Repr == old(Repr)
      ensures MoveState(cells, moved, enableMerge) == Visit(old(MoveState(cells, moved, enableMerge)), i, r)
      ensures unchanged(this`score, this`hiscore, this`fallIndex, this`running, this`message)
    {
      if newx != x || newy != y {
        moved := true;
        SetTilePos(i, t, newx, newy);
      } else {
        // the slot already holds the tile at (newx, newy)
        cells := cells[i := Some(t.State())];
      }
      if otherTile != null {
        ghost var slid := cells;
        MarkMergePair(i, t, r.1.value, otherTile);
        assert cells == old(cells)[i := Some(slid[i].value.(next := slid[i].value.value + 1))]
                                  [r.1.value := Some(old(cells)[r.1.value].value.(next := -1))];
        enableMerge := true;
      }
    }

    /** One pass of doMove's loop: the tile standing first on (x, y), if any, is moved. */
    method MoveTileAt(x: int, y: int, d: Dir, ghost st0: MoveState, ghost order: seq<Cell>, ghost k: int)
      requires Valid()
      requires 0 <= k < |order| && order[k] == Cell(x, y) && MoveState(cells, moved, enableMerge) == MoveAll(st0, order[..k], d)
      modifies this, Repr - {tiles}
      ensures Valid() && tiles == old(tiles) && Repr == old(Repr)
      ensures MoveState(cells, moved, enableMerge) == MoveAll(st0, order[..k + 1], d)
      ensures unchanged(this`score, this`hiscore, this`fallIndex, this`running, this`message)
    {
      MoveAllStep(st0, order, k, d);
      var t := TileAt(x, y);
      if t != null {
        MoveTile(FirstAt(cells, Cell(x, y)).value, t, x, y, d);
      }
    }

    /**
     * doMove: visit the cells in the order the strategy gives; each tile found slides to its
     * target and, when it found a partner, marks itself for promotion and the partner for removal.
     */
    method DoMove(d: Dir, scan: Scan)
      requires Valid()
      modifies this, Repr - {tiles}
      ensures Valid() && tiles == old(tiles) && Repr == old(Repr)
      ensures var st := AfterMove(old(cells), old(enableMerge), d, scan);
        cells == st.slots && moved == st.moved && enableMerge == st.enableMerge
      ensures unchanged(this`score, this`hiscore, this`fallIndex, this`running, this`message)
    {
      ghost var st0 := MoveState(cells, false, enableMerge);
      ghost var order := Order(scan);
      ghost var k := 0;
      var first := Next(scan, -1, -1);
      var x, y, done := first.0, first.1, first.2;
      StartIsFirst(scan);
      moved := false;
      while !done
        invariant Valid() && tiles == old(tiles) && Repr == old(Repr)
        invariant unchanged(this`score, this`hiscore, this`fallIndex, this`running, this`message)
        invariant 0 <= k <= SlotCount && (done <==> k == SlotCount)
        invariant !done ==> Cell(x, y) == Nth(scan, k)
        invariant MoveState(cells, moved, enableMerge) == MoveAll(st0, order[..k], d)
        decreases SlotCount - k
      {
        MoveTileAt(x, y, d, st0, order, k);
        NextFollowsOrder(scan, k);
        var nxt := Next(scan, x, y);
        x, y, done := nxt.0, nxt.1, nxt.2;
        k := k + 1;
      }
      assert order[..SlotCount] == order;
    }

    /** The promotion branch of doMerge for the tile in slot i: SetValue(NextValue), the score gain
        1 << NextValue, and the marker cleared. */
    method PromoteTile(ghost i: int, t: Tile)
      requires Valid() && 0 <= i < SlotCount && tiles[i] == t && t.nextValue > 0
      modifies t, this`score, this`cells
      ensures Valid()
      ensures cells == old(cells)[i := MergeSlot(old(cells)[i])]
      ensures score == old(score) + SlotGain(old(cells)[i])
    {
      t.value := t.nextValue;
      score := score + Pow2(t.nextValue);
      t.nextValue := 0;
      cells := cells[i := Some(t.State())];
    }

    /** The body of doMerge's loop for the marked tile t in slot i: promote it (v > 0) or remove
        it (-1). */
    method MergeTile(ghost i: int, t: Tile)
      requires Valid() && 0 <= i < SlotCount && tiles[i] == t && t.nextValue != 0
      modifies this, tiles, t
      ensures Valid() && tiles == old(tiles) && Repr == old(Repr)
      ensures cells == old(cells)[i := MergeSlot(old(cells)[i])]
      ensures score == old(score) + SlotGain(old(cells)[i])
      ensures forall j :: 0 <= j < SlotCount ==> tiles[j] == (if j == i && cells[i].None? then null else old(tiles[j]))
      ensures unchanged(this`hiscore, this`moved, this`enableMerge, this`fallIndex, this`running, this`message)
    {
      if t.nextValue > 0 {
        PromoteTile(i, t);
      } else if t.nextValue == -1 {
        var _ := RemoveTile(t);
        assert cells == old(cells)[i := None];
      }
    }

    /**
     * doMerge: promote every tile marked v > 0 to v (adding 2^v to the score) and remove every tile
     * marked -1. The loop runs over a copy of the slots, as Go's range over an array does.
     */
    method DoMerge()
      requires Valid()
      modifies this, Repr
      ensures Valid() && tiles == old(tiles) && Repr == old(Repr)
      ensures cells == Merged(old(cells))
      ensures score == old(score) + MergeGain(old(cells))
      ensures forall i :: 0 <= i < SlotCount ==> tiles[i] == (if cells[i].None? then null else old(tiles[i]))
      ensures unchanged(this`hiscore, this`moved, this`enableMerge, this`fallIndex, this`running, this`message)
    {
      var snapshot := tiles[..];
      ghost var cells0 := cells;
      for i := 0 to SlotCount
        invariant Valid() && tiles == old(tiles) && Repr == old(Repr)
        invariant forall j :: 0 <= j < i ==> cells[j] == MergeSlot(cells0[j])
        invariant forall j :: i <= j < SlotCount ==> cells[j] == cells0[j] && tiles[j] == snapshot[j]
        invariant forall j :: 0 <= j < i ==> tiles[j] == (if cells[j].None? then null else snapshot[j])
        invariant score == old(score) + MergeGain(cells0[..i])
        invariant unchanged(this`hiscore, this`moved, this`enableMerge, this`fallIndex, this`running, this`message)
      {
        MergeGainStep(cells0, i);
        var t := snapshot[i];
        if t != null && t.nextValue != 0 {
          MergeTile(i, t);
        }
      }
      assert cells0[..SlotCount] == cells0;
    }

    // -------------------------------------------------------------------------------------------
    // Terminal detection

    /** gameOverCheck: (done, won) as the code computes it. */
    method GameOverCheck() returns (done: bool, won: bool)
      requires Valid()
      ensures (done, won) == GameOverState(cells)
    {
      done, won := false, false;
      var boardFull := true;
      for i := 0 to SlotCount
        invariant !done && !won
        invariant boardFull <==> forall j :: 0 <= j < i ==> cells[j].Some?
        invariant forall j :: 0 <= j < i && cells[j].Some? ==> cells[j].value.value != MaxTileValue
      {
        var tile := tiles[i];
        if tile == null {
          boardFull := false;
        } else if tile.value == MaxTileValue {
          won := true;
          return;
        }
      }
      if !boardFull {
        return;
      }
      for i := 0 to SlotCount
        invariant !done && !won
        invariant forall j, e :: 0 <= j < i && cells[j].Some? ==>
                    MoveTarget(cells, cells[j].value, e).0 == Pos(cells[j].value)
      {
        var tile := tiles[i];
        for n := 0 to |ProbeOrder|
          invariant forall m :: 0 <= m < n ==>
                      MoveTarget(cells, cells[i].value, ProbeOrder[m]).0 == Pos(cells[i].value)
        {
          var newx, newy, _ := GetMoveTarget(tile, ProbeOrder[n]);
          if newx != tile.x || newy != tile.y {
            return;
          }
        }
        forall e: Dir
          ensures MoveTarget(cells, cells[i].value, e).0 == Pos(cells[i].value)
        {
          assert e == ProbeOrder[match e case Left => 0 case Up => 1 case Down => 2 case Right => 3];
        }
      }
      done := true;
    }

    // -------------------------------------------------------------------------------------------
    // Control

    /** SetScore (the display is not modelled). */
    method SetScore(v: int)
      modifies this`score
      ensures score == v
    {
      score := v;
    }

    /** SetHiScore (the display and the write to the settings file are not modelled). */
    method SetHiScore(v: int)
      modifies this`hiscore
      ensures hiscore == v
    {
      hiscore := v;
    }

    /** SetRunning: starting a game clears the message. */
    method SetRunning(v: bool)
      modifies this`running, this`message
      ensures running == v && message == (if v then NoMessage else old(message))
    {
      running := v;
      if v {
        message := NoMessage;
      }
    }

    /** HandleKey: the first key starts the game; an arrow key moves in its direction with the
        scan that visits the destination edge first; any other key only starts the game. */
    method HandleKey(key: Key)
      requires Valid()
      modifies this, Repr - {tiles}
      ensures Valid() && tiles == old(tiles) && Repr == old(Repr) && tiles[..] == old(tiles[..])
      ensures running && message == (if old(running) then old(message) else NoMessage)
      ensures key == OtherKey ==> cells == old(cells) && moved == old(moved) && enableMerge == old(enableMerge)
      ensures key != OtherKey ==>
        var st := AfterMove(old(cells), old(enableMerge), KeyDir(key), ScanFor(KeyDir(key)));
        cells == st.slots && moved == st.moved && enableMerge == st.enableMerge
      ensures unchanged(this`score, this`hiscore, this`fallIndex)
    {
      if !running {
        SetRunning(true);
      }
      if key != OtherKey {
        // The switch pairs each arrow key with its (dx, dy) and the strategy that starts at the
        // edge the tiles move towards.
        var d := KeyDir(key);
        DoMove(d, ScanFor(d));
      }
    }

    /** The end of HandleMoveAnimationDone, once the new tile is placed: gameOverCheck and the
        reaction to a finished game (message, high score, the start of the falling cascade). */
    method ReactToOutcome()
      requires Valid()
      modifies this`message, this`hiscore, this`fallIndex
      ensures var (over, won) := GameOverState(cells);
        hiscore == (if (over || won) && score >= old(hiscore) then score else old(hiscore))
        && message == (if won then Congratulations
                       else if over then (if score >= old(hiscore) then NewHighScore else GameOver)
                       else old(message))
        && fallIndex == (if over && score < old(hiscore) then 0 else old(fallIndex))
    {
      var over, won := GameOverCheck();
      if over {
        if score >= hiscore {
          message := NewHighScore;
          SetHiScore(score);
        } else {
          message := GameOver;
          fallIndex := 0;
          // the board is full, so slot 0 holds the tile that starts to fall
          assert cells[0].Some?;
        }
      }
      if won {
        message := Congratulations;
        if score >= hiscore {
          SetHiScore(score);
        }
      }
    }

    /**
     * HandleMoveAnimationDone: merge what the move marked, then, if something moved, spawn a tile
     * (value v in [1, 2] on the drawn free cell spawn), check for the end of the game and react:
     * a full, blocked board ends the game (new high score, or the falling cascade from slot 0), a
     * 2048 tile wins; either way the high score only ever rises.
     */
    method HandleMoveAnimationDone(spawn: Cell, v: int)
      requires Valid()
      requires moved ==> InBounds(spawn) && IsFree(AfterMerge(cells, enableMerge), spawn) && 1 <= v <= 2
      modifies this, Repr
      ensures Valid() && tiles == old(tiles) && old(Repr) <= Repr && fresh(Repr - old(Repr))
      ensures !enableMerge && !moved && hiscore >= old(hiscore)
      ensures score == old(score) + (if old(enableMerge) then MergeGain(old(cells)) else 0)
      ensures cells == if old(moved) then Insert(AfterMerge(old(cells), old(enableMerge)), TileState(spawn.x, spawn.y, v, 0)).0
                       else AfterMerge(old(cells), old(enableMerge))
      ensures !old(moved) ==> hiscore == old(hiscore) && message == old(message) && fallIndex == old(fallIndex)
      ensures old(moved) ==>
        var (over, won) := GameOverState(cells);
        hiscore == (if (over || won) && score >= old(hiscore) then score else old(hiscore))
        && message == (if won then Congratulations
                       else if over then (if score >= old(hiscore) then NewHighScore else GameOver)
                       else old(message))
        && fallIndex == (if over && score < old(hiscore) then 0 else old(fallIndex))
      ensures unchanged(this`running)
    {
      FinishMerge();
      FinishMove(spawn, v);
    }

    /** The first half of HandleMoveAnimationDone: doMerge when the move marked a pair. */
    method FinishMerge()
      requires Valid()
      modifies this, Repr
      ensures Valid() && tiles == old(tiles) && Repr == old(Repr)
      ensures !enableMerge && cells == AfterMerge(old(cells), old(enableMerge))
      ensures score == old(score) + (if old(enableMerge) then MergeGain(old(cells)) else 0)
      ensures unchanged(this`hiscore, this`moved, this`fallIndex, this`running, this`message)
    {
      if enableMerge {
        DoMerge();
        enableMerge := false;
      }
    }

    /** The second half of HandleMoveAnimationDone: after a move, spawn a tile and react to the
        outcome. */
    method FinishMove(spawn: Cell, v: int)
      requires Valid()
      requires moved ==> InBounds(spawn) && IsFree(cells, spawn) && 1 <= v <= 2
      modifies this, Repr
      ensures Valid() && tiles == old(tiles) && old(Repr) <= Repr && fresh(Repr - old(Repr))
      ensures !moved && hiscore >= old(hiscore)
      ensures cells == if old(moved) then Insert(old(cells), TileState(spawn.x, spawn.y, v, 0)).0 else old(cells)
      ensures !old(moved) ==> hiscore == old(hiscore) && message == old(message) && fallIndex == old(fallIndex)
      ensures old(moved) ==>
        var (over, won) := GameOverState(cells);
        hiscore == (if (over || won) && score >= old(hiscore) then score else old(hiscore))
        && message == (if won then Congratulations
                       else if over then (if score >= old(hiscore) then NewHighScore else GameOver)
                       else old(message))
        && fallIndex == (if over && score < old(hiscore) then 0 else old(fallIndex))
      ensures unchanged(this`score, this`enableMerge, this`running)
    {
      if moved {
        AddRandomTile(2, spawn.x, spawn.y, v);
        ReactToOutcome();
        moved := false;
      }
    }

    /** HandleFallAnimationDone: let the tile in the next slot fall (the program dereferences that
        slot, so it must hold a tile). */
    method HandleFallAnimationDone()
      requires Valid()
      requires fallIndex + 1 < SlotCount ==> tiles[fallIndex + 1] != null
      modifies this`fallIndex
      ensures Valid() && fallIndex == old(fallIndex) + 1
    {
      fallIndex := fallIndex + 1;
      if fallIndex < SlotCount {
        assert tiles[fallIndex] != null;
      }
    }

    /** HandleRestartButton: a new game with score 0 and the message cleared; two tiles of value
        1 or 2 on the two drawn, distinct cells. */
    method HandleRestartButton(c1: Cell, v1: int, c2: Cell, v2: int)
      requires Valid()
      requires InBounds(c1) && InBounds(c2) && c1 != c2
      requires 1 <= v1 <= 2 && 1 <= v2 <= 2
      modifies this, Repr
      ensures Valid() && tiles == old(tiles) && old(Repr) <= Repr && fresh(Repr - old(Repr))
      ensures score == 0 && message == NoMessage && NewBoard(cells, c1, v1, c2, v2)
      ensures unchanged(this`hiscore, this`moved, this`enableMerge, this`fallIndex, this`running)
    {
      NewGame(c1, v1, c2, v2);
      SetScore(0);
      message := NoMessage;
    }
  }

  /** The direction of an arrow key. */
  function KeyDir(key: Key): Dir
    requires key != OtherKey
  {
    match key
    case LeftKey => Left
    case UpKey => Up
    case RightKey => Right
    case DownKey => Down
  }
}
