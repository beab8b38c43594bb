/**
 * Value-level meaning of the board. The board keeps 16 slots, each empty or holding one tile;
 * a tile records its own cell, its exponent and its pending-merge marker (NextValue), so two
 * tiles may share a cell between a move and the merge that follows it.
 */
module BoardSpec {
  import opened Geometry
  import opened ScanOrder

  datatype Option<T> = None | Some(value: T)

  /** One tile as the engine sees it: cell (x, y), exponent value and the NextValue marker
      (0 = nothing pending, -1 = absorbed by a merge, v > 0 = promoted to v by a merge). */
  datatype TileState = TileState(x: int, y: int, value: int, next: int)

  function Pos(t: TileState): Cell {
    Cell(t.x, t.y)
  }

  /** The board's slot array, slot by slot. */
  type Slots = seq<Option<TileState>>

  // ---------------------------------------------------------------------------------------------
  // Queries

  /** Slot j holds a tile standing on cell c. */
  predicate Occupies(s: Slots, j: int, c: Cell) {
    0 <= j < |s| && s[j].Some? && Pos(s[j].value) == c
  }

  predicate IsFree(s: Slots, c: Cell) {
    forall j :: 0 <= j < |s| ==> !Occupies(s, j, c)
  }

  predicate Full(s: Slots) {
    forall i :: 0 <= i < |s| ==> s[i].Some?
  }

  function FirstAtFrom(s: Slots, c: Cell, i: nat): (r: Option<nat>)
    requires i <= |s|
    decreases |s| - i
    ensures r.Some? ==> i <= r.value && Occupies(s, r.value, c)
    ensures r.Some? ==> forall j :: i <= j < r.value ==> !Occupies(s, j, c)
    ensures r.None? ==> forall j :: i <= j < |s| ==> !Occupies(s, j, c)
  {
    if i == |s| then None
    else if Occupies(s, i, c) then Some(i)
    else FirstAtFrom(s, c, i + 1)
  }

  /** tileAt: the lowest slot whose tile stands on c, if any. */
  function FirstAt(s: Slots, c: Cell): (r: Option<nat>)
    ensures r.Some? ==> Occupies(s, r.value, c) && forall j :: 0 <= j < r.value ==> !Occupies(s, j, c)
    ensures r.None? <==> IsFree(s, c)
  {
    FirstAtFrom(s, c, 0)
  }

  function FirstNilFrom(s: Slots, i: nat): (r: Option<nat>)
    requires i <= |s|
    decreases |s| - i
    ensures r.Some? ==> i <= r.value < |s| && s[r.value].None? && forall j :: i <= j < r.value ==> s[j].Some?
    ensures r.None? ==> forall j :: i <= j < |s| ==> s[j].Some?
  {
    if i == |s| then None
    else if s[i].None? then Some(i)
    else FirstNilFrom(s, i + 1)
  }

  /** The slot insertTile fills: the lowest empty one, if any. */
  function FirstNil(s: Slots): (r: Option<nat>)
    ensures r.Some? ==> r.value < |s| && s[r.value].None? && forall j :: 0 <= j < r.value ==> s[j].Some?
    ensures r.None? <==> Full(s)
  {
    FirstNilFrom(s, 0)
  }

  /** insertTile on values: the new board and whether the tile found a slot. */
  function Insert(s: Slots, t: TileState): (Slots, bool) {
    match FirstNil(s)
    case None => (s, false)
    case Some(k) => (s[k := Some(t)], true)
  }

  /** insertTile succeeds exactly when a slot is empty, fills the lowest empty slot and nothing else,
      and removing the tile again restores the board. */
  lemma InsertFacts(s: Slots, t: TileState)
    ensures Insert(s, t).1 <==> !Full(s)
    ensures !Insert(s, t).1 ==> Insert(s, t).0 == s
    ensures Insert(s, t).1 ==>
      var k := FirstNil(s).value;
      |Insert(s, t).0| == |s| && Insert(s, t).0[k] == Some(t)
      && (forall j :: 0 <= j < k ==> s[j].Some?)
      && (forall j :: 0 <= j < |s| && j != k ==> Insert(s, t).0[j] == s[j])
      && Insert(s, t).0[k := None] == s
  {
    if !Full(s) {
      var k := FirstNil(s).value;
      assert Insert(s, t).0[k := None] == s;
    }
  }

  /** Number of empty slots (freeSpaces). */
  function CountNils(s: Slots): (r: nat)
    ensures r <= |s|
  {
    if s == [] then 0
    else CountNils(s[..|s| - 1]) + (if s[|s| - 1].None? then 1 else 0)
  }

  /** freeSpaces counts exactly the empty slots; it is zero exactly on a full board. */
  lemma {:induction false} CountNilsIsEmptySlots(s: Slots)
    ensures CountNils(s) == |set i | 0 <= i < |s| && s[i].None?|
    ensures CountNils(s) == 0 <==> Full(s)
  {
    if s != [] {
      var n := |s| - 1;
      CountNilsIsEmptySlots(s[..n]);
      var prev := set i | 0 <= i < n && s[..n][i].None?;
      var all := set i | 0 <= i < |s| && s[i].None?;
      if s[n].None? {
        assert all == prev + {n};
      } else {
        assert all == prev;
      }
      if Full(s) {
        assert Full(s[..n]);
      } else {
        var i :| 0 <= i < |s| && s[i].None?;
        if i < n {
          assert s[..n][i].None?;
        }
      }
    }
  }

  // ---------------------------------------------------------------------------------------------
  // Move target (getMoveTarget)

  /** A candidate tile absorbs a moving tile of value v: equal value below the maximum, not yet claimed. */
  predicate Mergeable(cand: TileState, v: int) {
    cand.value == v && v < MaxTileValue && cand.next == 0
  }

  /** Steps left before the scan from c in direction d leaves the board. */
  function Room(c: Cell, d: Dir): int {
    match d
    case Left => c.x
    case Right => BoardSize - 1 - c.x
    case Up => c.y
    case Down => BoardSize - 1 - c.y
  }

  /**
   * The ray scan of getMoveTarget for a tile of value v, from its current scan cell cur: slide
   * through empty cells, stop on the first equal, unclaimed tile (returning its slot), stop short
   * of any other tile or of the edge. (In the source the recorded target always equals the scan
   * cell when the next step is taken, so one cell suffices here.)
   */
  function Probe(s: Slots, v: int, cur: Cell, d: Dir): (r: (Cell, Option<nat>))
    decreases Room(cur, d)
    ensures r.1.Some? ==> r.1.value < |s| && s[r.1.value].Some? && 0 < Along(cur, Pos(s[r.1.value].value), d)
  {
    var n := Step(cur, d);
    if !InBounds(n) then (cur, None)
    else match FirstAt(s, n)
      case None => Probe(s, v, n, d)
      case Some(j) => if Mergeable(s[j].value, v) then (n, Some(j)) else (cur, None)
  }

  /** The ray scan stops at the edge of the grid. */
  lemma ProbeLeaves(s: Slots, v: int, cur: Cell, d: Dir)
    requires !InBounds(Step(cur, d))
    ensures Probe(s, v, cur, d) == (cur, None)
  {
  }

  /** The ray scan passes over a free cell. */
  lemma ProbeSkipsFree(s: Slots, v: int, cur: Cell, d: Dir)
    requires InBounds(Step(cur, d)) && FirstAt(s, Step(cur, d)).None?
    ensures Probe(s, v, cur, d) == Probe(s, v, Step(cur, d), d)
  {
  }

  /** The ray scan stops at the first occupied cell, on it when its tile is mergeable. */
  lemma ProbeStops(s: Slots, v: int, cur: Cell, d: Dir)
    requires InBounds(Step(cur, d)) && FirstAt(s, Step(cur, d)).Some?
    ensures Probe(s, v, cur, d)
      == if Mergeable(s[FirstAt(s, Step(cur, d)).value].value, v) then (Step(cur, d), FirstAt(s, Step(cur, d))) else (cur, None)
  {
  }

  /** getMoveTarget: the target cell of tile t moving in direction d and the slot it merges into. */
  function MoveTarget(s: Slots, t: TileState, d: Dir): (r: (Cell, Option<nat>))
    ensures r.1.Some? ==> r.1.value < |s| && s[r.1.value].Some? && Pos(s[r.1.value].value) != Pos(t)
  {
    Probe(s, t.value, Pos(t), d)
  }

  /** What the ray scan promises: an in-bounds cell on the ray, nothing skipped on the way, a merge
      only into the first tile of its cell when that tile is mergeable, and no stop before it must. */
  predicate TargetFacts(s: Slots, v: int, p: Cell, d: Dir, r: (Cell, Option<nat>)) {
    InBounds(r.0) && OnRay(p, r.0, d)
    && (forall k :: 0 < k < Along(p, r.0, d) ==> IsFree(s, Advance(p, d, k)))
    && (r.1.None? ==> r.0 == p || IsFree(s, r.0))
    && (r.1.None? ==>
          var n := Step(r.0, d);
          !InBounds(n) || (FirstAt(s, n).Some? && !Mergeable(s[FirstAt(s, n).value].value, v)))
    && (r.1.Some? ==>
          0 < Along(p, r.0, d) && FirstAt(s, r.0) == r.1 && r.1.value < |s| && s[r.1.value].Some?
          && Mergeable(s[r.1.value].value, v))
  }

  lemma {:induction false} ProbeFacts(s: Slots, v: int, cur: Cell, d: Dir)
    requires InBounds(cur)
    ensures TargetFacts(s, v, cur, d, Probe(s, v, cur, d))
    decreases Room(cur, d)
  {
    assert Step(cur, d) == Advance(cur, d, 1);
    if InBounds(Step(cur, d)) && FirstAt(s, Step(cur, d)).None? {
      ProbeFacts(s, v, Step(cur, d), d);
      TargetFactsBack(s, v, cur, d, Probe(s, v, Step(cur, d), d));
    }
  }

  /** A target found from the free neighbour of cur is a valid target from cur itself. */
  lemma TargetFactsBack(s: Slots, v: int, cur: Cell, d: Dir, r: (Cell, Option<nat>))
    requires InBounds(cur) && InBounds(Step(cur, d)) && IsFree(s, Step(cur, d))
    requires TargetFacts(s, v, Step(cur, d), d, r)
    ensures TargetFacts(s, v, cur, d, r)
  {
    assert Step(cur, d) == Advance(cur, d, 1);
    assert Along(cur, r.0, d) == Along(Step(cur, d), r.0, d) + 1;
    forall k | 0 < k < Along(cur, r.0, d)
      ensures IsFree(s, Advance(cur, d, k))
    {
      if k > 1 {
        assert Advance(cur, d, k) == Advance(Step(cur, d), d, k - 1);
      }
    }
  }

  /** getMoveTarget's contract for a tile standing on the board. */
  lemma MoveTargetFacts(s: Slots, t: TileState, d: Dir)
    requires InBounds(Pos(t))
    ensures TargetFacts(s, t.value, Pos(t), d, MoveTarget(s, t, d))
  {
    ProbeFacts(s, t.value, Pos(t), d);
  }

  // ---------------------------------------------------------------------------------------------
  // Move execution (doMove)

  /** Board slots plus the two flags doMove writes: the board's moved and the controller's enableMerge. */
  datatype MoveState = MoveState(slots: Slots, moved: bool, enableMerge: bool)

  /** One iteration of doMove's loop: the tile standing first on c (if any) is visited. */
  function ProcessCell(st: MoveState, c: Cell, d: Dir): MoveState {
    match FirstAt(st.slots, c)
    case None => st
    case Some(i) => Visit(st, i, MoveTarget(st.slots, st.slots[i].value, d))
  }

  /** The visit of the tile in slot i once its target r is known: it slides to r.0 and, when it
      found a partner r.1, both are marked (mover v+1, partner -1). The source repositions the
      tile only when the target differs from its cell; writing the same cell back is the same
      board. */
  function Visit(st: MoveState, i: nat, r: (Cell, Option<nat>)): MoveState
    requires i < |st.slots| && st.slots[i].Some?
    requires r.1.Some? ==> r.1.value < |st.slots| && st.slots[r.1.value].Some?
  {
    var t := st.slots[i].value;
    match r.1
    case None => MoveState(st.slots[i := Some(t.(x := r.0.x, y := r.0.y))], st.moved || r.0 != Pos(t), st.enableMerge)
    case Some(j) =>
      var s1 := st.slots[i := Some(t.(x := r.0.x, y := r.0.y).(next := t.value + 1))];
      MoveState(s1[j := Some(s1[j].value.(next := -1))], st.moved || r.0 != Pos(t), true)
  }

  /** doMove's loop over a visiting order: the cells are processed first to last. */
  function MoveAll(st: MoveState, cs: seq<Cell>, d: Dir): MoveState
    decreases |cs|, 1
  {
    if cs == [] then st
    else MoveLast(st, cs, d)
  }

  /** A non-empty visiting order: everything but the last cell, then the last cell. */
  function MoveLast(st: MoveState, cs: seq<Cell>, d: Dir): MoveState
    requires cs != []
    decreases |cs|, 0
  {
    ProcessCell(MoveAll(st, cs[..|cs| - 1], d), cs[|cs| - 1], d)
  }

  /** Extending the visiting order by one cell runs one more loop iteration. */
  lemma MoveAllStep(st: MoveState, cs: seq<Cell>, k: int, d: Dir)
    requires 0 <= k < |cs|
    ensures MoveAll(st, cs[..k + 1], d) == ProcessCell(MoveAll(st, cs[..k], d), cs[k], d)
  {
    assert cs[..k + 1][..k] == cs[..k];
  }

  /** doMove(d, scan): moved starts false, enableMerge keeps its value unless a merge is found. */
  function AfterMove(s: Slots, enableMerge: bool, d: Dir, scan: Scan): MoveState {
    MoveAll(MoveState(s, false, enableMerge), Order(scan), d)
  }

  /** The slots hold tiles in the same slots and with the same values. */
  predicate SameTiles(s0: Slots, s1: Slots) {
    |s0| == |s1|
    && forall i :: 0 <= i < |s0| ==>
         s0[i].Some? == s1[i].Some? && (s0[i].Some? ==> s1[i].value.value == s0[i].value.value)
  }

  /** Every tile has moved (if at all) forward along d. */
  predicate SlidAlong(s0: Slots, s1: Slots, d: Dir)
    requires SameTiles(s0, s1)
  {
    forall i :: 0 <= i < |s0| && s0[i].Some? ==> OnRay(Pos(s0[i].value), Pos(s1[i].value), d)
  }

  /** Some tile stands on another cell than before. */
  predicate Relocated(s0: Slots, s1: Slots)
    requires SameTiles(s0, s1)
  {
    exists i :: 0 <= i < |s0| && s0[i].Some? && Pos(s1[i].value) != Pos(s0[i].value)
  }

  predicate AllInBounds(s: Slots) {
    forall i :: 0 <= i < |s| && s[i].Some? ==> InBounds(Pos(s[i].value))
  }

  /** st' follows from st by a move along d: same tiles with the same values, each slid forward
      along d and inside the board, moved reporting exactly whether some tile changed cell, and a
      raised merge flag staying raised. */
  predicate MoveKeepsTiles(st: MoveState, st': MoveState, d: Dir) {
    SameTiles(st.slots, st'.slots) && SlidAlong(st.slots, st'.slots, d) && AllInBounds(st'.slots)
    && (st'.moved <==> st.moved || Relocated(st.slots, st'.slots))
    && (st.enableMerge ==> st'.enableMerge)
  }

  lemma ProcessCellKeepsTiles(st: MoveState, c: Cell, d: Dir)
    requires AllInBounds(st.slots)
    ensures MoveKeepsTiles(st, ProcessCell(st, c, d), d)
  {
    match FirstAt(st.slots, c)
    case None =>
    case Some(i) =>
      MoveTargetFacts(st.slots, st.slots[i].value, d);
      VisitKeepsTiles(st, i, MoveTarget(st.slots, st.slots[i].value, d), d);
      VisitReportsMove(st, i, MoveTarget(st.slots, st.slots[i].value, d), d);
  }

  /** A visit moves its tile forward along d to the target cell, moves no other tile and changes
      no value. */
  lemma VisitKeepsTiles(st: MoveState, i: nat, r: (Cell, Option<nat>), d: Dir)
    requires AllInBounds(st.slots) && i < |st.slots| && st.slots[i].Some?
    requires r.1.Some? ==> r.1.value < |st.slots| && st.slots[r.1.value].Some?
    requires InBounds(r.0) && OnRay(Pos(st.slots[i].value), r.0, d)
    ensures SameTiles(st.slots, Visit(st, i, r).slots) && SlidAlong(st.slots, Visit(st, i, r).slots, d)
    ensures Pos(Visit(st, i, r).slots[i].value) == r.0
    ensures forall j :: 0 <= j < |st.slots| && j != i && st.slots[j].Some? ==>
      Pos(Visit(st, i, r).slots[j].value) == Pos(st.slots[j].value)
    ensures AllInBounds(Visit(st, i, r).slots)
    ensures st.enableMerge ==> Visit(st, i, r).enableMerge
  {
    assert Along(r.0, r.0, d) == 0;
  }

  /** A visit reports a move exactly when its tile changes cell. */
  lemma VisitReportsMove(st: MoveState, i: nat, r: (Cell, Option<nat>), d: Dir)
    requires i < |st.slots| && st.slots[i].Some?
    requires r.1.Some? ==> r.1.value < |st.slots| && st.slots[r.1.value].Some?
    ensures SameTiles(st.slots, Visit(st, i, r).slots)
    ensures Visit(st, i, r).moved <==> st.moved || Relocated(st.slots, Visit(st, i, r).slots)
  {
    if Visit(st, i, r).moved && !st.moved {
      assert Pos(Visit(st, i, r).slots[i].value) != Pos(st.slots[i].value);
    }
  }

  /** Whatever the visiting order, a move keeps every tile in its slot with its value, slides
      tiles only forward along d and only inside the board, and reports moved exactly when
      some tile changed cell. */
  lemma {:induction false} MoveAllKeepsTiles(st: MoveState, cs: seq<Cell>, d: Dir)
    requires AllInBounds(st.slots)
    ensures MoveKeepsTiles(st, MoveAll(st, cs, d), d)
    decreases |cs|
  {
    if cs != [] {
      var mid := MoveAll(st, cs[..|cs| - 1], d);
      MoveAllKeepsTiles(st, cs[..|cs| - 1], d);
      ProcessCellKeepsTiles(mid, cs[|cs| - 1], d);
      MovesCompose(st, mid, ProcessCell(mid, cs[|cs| - 1], d), d);
    }
  }

  /** Two moves along d in a row amount to one. */
  lemma MovesCompose(st: MoveState, mid: MoveState, st': MoveState, d: Dir)
    requires AllInBounds(st.slots) && MoveKeepsTiles(st, mid, d) && MoveKeepsTiles(mid, st', d)
    ensures MoveKeepsTiles(st, st', d)
  {
    forall i | 0 <= i < |st.slots| && st.slots[i].Some?
      ensures OnRay(Pos(st.slots[i].value), Pos(st'.slots[i].value), d)
      ensures Pos(mid.slots[i].value) != Pos(st.slots[i].value) ==> Pos(st'.slots[i].value) != Pos(st.slots[i].value)
      ensures Pos(st'.slots[i].value) != Pos(mid.slots[i].value) ==> Pos(st'.slots[i].value) != Pos(st.slots[i].value)
    {
      var p, q, r := Pos(st.slots[i].value), Pos(mid.slots[i].value), Pos(st'.slots[i].value);
      RayTransitive(p, q, r, d);
    }
    if st'.moved && !st.moved {
      if mid.moved {
        var i :| 0 <= i < |st.slots| && st.slots[i].Some? && Pos(mid.slots[i].value) != Pos(st.slots[i].value);
        assert Pos(st'.slots[i].value) != Pos(st.slots[i].value);
      } else {
        var i :| 0 <= i < |mid.slots| && mid.slots[i].Some? && Pos(st'.slots[i].value) != Pos(mid.slots[i].value);
        assert Pos(st'.slots[i].value) != Pos(st.slots[i].value);
      }
    }
    if Relocated(st.slots, st'.slots) {
      var i :| 0 <= i < |st.slots| && st.slots[i].Some? && Pos(st'.slots[i].value) != Pos(st.slots[i].value);
      if Pos(mid.slots[i].value) == Pos(st.slots[i].value) {
        assert Relocated(mid.slots, st'.slots);
      } else {
        assert Relocated(st.slots, mid.slots);
      }
    }
  }

  /** Two forward slides along d compose into one, and a slide that left its cell cannot come back. */
  lemma RayTransitive(p: Cell, q: Cell, r: Cell, d: Dir)
    requires OnRay(p, q, d) && OnRay(q, r, d)
    ensures OnRay(p, r, d)
    ensures q != p ==> r != p
    ensures r != q ==> r != p
  {
  }

  // ---------------------------------------------------------------------------------------------
  // Merge resolution (doMerge)

  /** What doMerge does to one slot: promote (v > 0), remove (-1), leave anything else. */
  function MergeSlot(o: Option<TileState>): Option<TileState> {
    match o
    case None => None
    case Some(t) =>
      if t.next > 0 then Some(t.(value := t.next, next := 0))
      else if t.next == -1 then None
      else o
  }

  function Merged(s: Slots): (r: Slots)
    ensures |r| == |s|
  {
    seq(|s|, i requires 0 <= i < |s| => MergeSlot(s[i]))
  }

  /** 1 << n. */
  function Pow2(n: nat): nat {
    if n == 0 then 1 else 2 * Pow2(n - 1)
  }

  /** Score a slot earns when merged: 2^v for a tile promoted to v. */
  function SlotGain(o: Option<TileState>): nat {
    if o.Some? && o.value.next > 0 then Pow2(o.value.next) else 0
  }

  /** Score doMerge adds over the slots, in slot order. */
  function MergeGain(s: Slots): nat {
    if s == [] then 0 else MergeGain(s[..|s| - 1]) + SlotGain(s[|s| - 1])
  }

  /** The score over one more slot. */
  lemma MergeGainStep(s: Slots, i: int)
    requires 0 <= i < |s|
    ensures MergeGain(s[..i + 1]) == MergeGain(s[..i]) + SlotGain(s[i])
  {
    assert s[..i + 1][..i] == s[..i];
  }

  /** The board the merge step of a turn leaves: doMerge runs only when a merge was flagged. */
  function AfterMerge(s: Slots, enableMerge: bool): Slots {
    if enableMerge then Merged(s) else s
  }

  /** The board newGame leaves: the first tile in slot 0, the second in slot 1, nothing else. */
  predicate NewBoard(s: Slots, c1: Cell, v1: int, c2: Cell, v2: int) {
    |s| == SlotCount
    && s[0] == Some(TileState(c1.x, c1.y, v1, 0)) && s[1] == Some(TileState(c2.x, c2.y, v2, 0))
    && forall i :: 2 <= i < |s| ==> s[i].None?
  }

  /** After doMerge: absorbed tiles are gone, promoted tiles carry their new value, and (when every
      marker is 0, -1 or positive) no marker is left on the board. */
  lemma MergeOutcome(s: Slots)
    ensures forall i :: 0 <= i < |s| ==>
      (Merged(s)[i].Some? <==> s[i].Some? && s[i].value.next != -1)
    ensures forall i :: 0 <= i < |s| && s[i].Some? && s[i].value.next > 0 ==>
      Merged(s)[i] == Some(s[i].value.(value := s[i].value.next, next := 0))
    ensures (forall i :: 0 <= i < |s| && s[i].Some? ==> s[i].value.next >= -1) ==>
      forall i :: 0 <= i < |s| && Merged(s)[i].Some? ==> Merged(s)[i].value.next == 0
  {
  }

  /** A board without promoted tiles earns nothing when merged. */
  lemma {:induction false} NoPromotionNoGain(s: Slots)
    requires forall i :: 0 <= i < |s| && s[i].Some? ==> s[i].value.next <= 0
    ensures MergeGain(s) == 0
  {
    if s != [] {
      NoPromotionNoGain(s[..|s| - 1]);
    }
  }

  // ---------------------------------------------------------------------------------------------
  // Terminal detection (gameOverCheck)

  predicate HasWinner(s: Slots) {
    exists i :: 0 <= i < |s| && s[i].Some? && s[i].value.value == MaxTileValue
  }

  /** No tile on the board can move in any of the four directions. */
  ghost predicate Stuck(s: Slots) {
    forall i, d :: 0 <= i < |s| && s[i].Some? ==> MoveTarget(s, s[i].value, d).0 == Pos(s[i].value)
  }

  /** gameOverCheck's answer (done, won) as the code computes it: a 2048 tile wins without ending
      the game; otherwise only a full board on which nothing can move is done. */
  ghost function GameOverState(s: Slots): (r: (bool, bool))
    ensures !(r.0 && r.1)
    ensures r.0 ==> Full(s)
  {
    if HasWinner(s) then (false, true)
    else if !Full(s) then (false, false)
    else (Stuck(s), false)
  }

  /** Every tile's neighbour in every direction is off the board or holds a tile it cannot merge with. */
  ghost predicate Blocked(s: Slots) {
    forall i, d :: 0 <= i < |s| && s[i].Some? && InBounds(Step(Pos(s[i].value), d)) ==>
      var f := FirstAt(s, Step(Pos(s[i].value), d));
      f.Some? && !Mergeable(s[f.value].value, s[i].value.value)
  }

  /** On a board whose tiles stand inside the grid, gameOverCheck reports done exactly when the board
      is full, holds no 2048 tile and every tile is blocked on all four sides. */
  lemma GameOverMeansBlocked(s: Slots)
    requires AllInBounds(s)
    ensures GameOverState(s).0 <==> Full(s) && !HasWinner(s) && Blocked(s)
    ensures GameOverState(s).1 <==> HasWinner(s)
  {
    if Full(s) && !HasWinner(s) {
      if Stuck(s) {
        forall i, d | 0 <= i < |s| && s[i].Some? && InBounds(Step(Pos(s[i].value), d))
          ensures var f := FirstAt(s, Step(Pos(s[i].value), d));
                  f.Some? && !Mergeable(s[f.value].value, s[i].value.value)
        {
          MoveTargetFacts(s, s[i].value, d);
          assert Along(Pos(s[i].value), Pos(s[i].value), d) == 0;
        }
      }
      if Blocked(s) {
        forall i, d | 0 <= i < |s| && s[i].Some?
          ensures MoveTarget(s, s[i].value, d).0 == Pos(s[i].value)
        {
        }
      }
    }
  }
}
