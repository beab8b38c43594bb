/**
 * What a move achieves, beyond keeping the board sound: under the scan order paired with its
 * direction, doMove leaves every tile pressed against the edge or against a tile it may not merge
 * with (chains collapse in one pass), and a move that changed anything leaves room for the tile
 * spawned after it.
 */
module Packing {
  import opened Geometry
  import opened ScanOrder
  import opened BoardSpec
  import opened SteadyState

  /** A tile with value v and marker next on cell p cannot slide further along d: its next cell is
      off the board or holds a tile, and an unclaimed tile's next cell holds no tile it merges with. */
  predicate HeldAt(s: Slots, p: Cell, v: int, next: int, d: Dir) {
    var n := Step(p, d);
    !InBounds(n) || (FirstAt(s, n).Some? && (next == 0 ==> !Mergeable(s[FirstAt(s, n).value].value, v)))
  }

  /** Every tile standing on one of the first k cells of the scan is held. */
  predicate PackedUpTo(s: Slots, scan: Scan, k: int, d: Dir) {
    forall i :: 0 <= i < |s| && s[i].Some? && InBounds(Pos(s[i].value)) && Rank(scan, Pos(s[i].value)) < k ==>
      HeldAt(s, Pos(s[i].value), s[i].value.value, s[i].value.next, d)
  }

  /** tileAt depends on nothing but which slots stand on the cell. */
  lemma FirstAtByOccupancy(s: Slots, s': Slots, n: Cell)
    requires forall j :: Occupies(s, j, n) <==> Occupies(s', j, n)
    ensures FirstAt(s, n) == FirstAt(s', n)
  {
    assert IsFree(s, n) == IsFree(s', n);
    if FirstAt(s, n).Some? {
      var a, b := FirstAt(s, n).value, FirstAt(s', n).value;
      assert Occupies(s', a, n) && Occupies(s, b, n);
    }
  }

  /** The cell one step ahead along d is visited earlier by the paired scan. */
  lemma StepRanksEarlier(q: Cell, d: Dir)
    requires InBounds(q) && InBounds(Step(q, d))
    ensures Rank(ScanFor(d), Step(q, d)) < Rank(ScanFor(d), q)
  {
    StepIsAdvance(q, d, 0);
    AheadIsScannedFirst(d, q, 1);
  }

  /** Stepping past a cell on the ray from c stays on it, one step further. */
  lemma StepPastRay(c: Cell, tg: Cell, d: Dir)
    requires OnRay(c, tg, d)
    ensures Along(c, Step(tg, d), d) == Along(c, tg, d) + 1 && Step(tg, d) != tg && Step(tg, d) != c
  {
  }

  /** A tile on the k-th cell of the scan stands on that very cell. */
  lemma RankPins(scan: Scan, k: int, q: Cell)
    requires 0 <= k < SlotCount && InBounds(q) && Rank(scan, q) == k
    ensures q == Nth(scan, k)
  {
    NthRank(scan, k, q);
  }

  /** A visited cell with no tile on it: nothing new is held or released. */
  lemma PackEmpty(s: Slots, scan: Scan, k: int, d: Dir)
    requires 0 <= k < SlotCount && PackedUpTo(s, scan, k, d) && IsFree(s, Nth(scan, k))
    ensures PackedUpTo(s, scan, k + 1, d)
  {
    forall i | 0 <= i < |s| && s[i].Some? && InBounds(Pos(s[i].value))
      ensures Rank(scan, Pos(s[i].value)) != k
    {
      assert !Occupies(s, i, Nth(scan, k));
      NthRank(scan, k, Pos(s[i].value));
    }
  }

  /** The visited tile i stays on its cell c because it is already held there. */
  lemma PackStay(s: Slots, scan: Scan, k: int, d: Dir, i: nat)
    requires 0 <= k < SlotCount && PackedUpTo(s, scan, k, d)
    requires Occupies(s, i, Nth(scan, k)) && forall m :: m != i ==> !Occupies(s, m, Nth(scan, k))
    requires HeldAt(s, Nth(scan, k), s[i].value.value, s[i].value.next, d)
    ensures PackedUpTo(s, scan, k + 1, d)
  {
    forall j | 0 <= j < |s| && s[j].Some? && InBounds(Pos(s[j].value)) && Rank(scan, Pos(s[j].value)) == k
      ensures j == i
    {
      RankPins(scan, k, Pos(s[j].value));
      assert Occupies(s, j, Nth(scan, k));
    }
  }

  /** The facts every visit below starts from: tile i, unclaimed, alone on the k-th cell c of the
      paired scan, every tile on an earlier cell held, and all tiles inside the grid. */
  predicate VisitContext(s: Slots, d: Dir, k: int, i: nat) {
    0 <= k < SlotCount && PackedUpTo(s, ScanFor(d), k, d) && AllInBounds(s)
    && Occupies(s, i, Nth(ScanFor(d), k)) && s[i].value.next == 0
    && (forall m :: 0 <= m < |s| && m != i ==> !Occupies(s, m, Nth(ScanFor(d), k)))
  }

  /** A tile other than the visited one, standing on a cell the scan has passed, on the board
      before the visit. */
  lemma EarlierTile(s: Slots, d: Dir, k: int, i: nat, j: nat)
    requires VisitContext(s, d, k, i)
    requires j < |s| && j != i && s[j].Some? && Rank(ScanFor(d), Pos(s[j].value)) < k + 1
    ensures Rank(ScanFor(d), Pos(s[j].value)) < k
    ensures HeldAt(s, Pos(s[j].value), s[j].value.value, s[j].value.next, d)
    ensures InBounds(Step(Pos(s[j].value), d)) ==> Step(Pos(s[j].value), d) != Nth(ScanFor(d), k)
  {
    assert !Occupies(s, j, Nth(ScanFor(d), k));
    NthRank(ScanFor(d), k, Pos(s[j].value));
    if InBounds(Step(Pos(s[j].value), d)) {
      StepRanksEarlier(Pos(s[j].value), d);
    }
  }

  /** The visited tile slides to the free cell r.0, where the scan found it held: afterwards it is
      held there and no other tile lost its hold. */
  lemma PackSlide(st: MoveState, d: Dir, k: int, i: nat, r: (Cell, Option<nat>))
    requires VisitContext(st.slots, d, k, i) && r.1.None?
    requires InBounds(r.0) && OnRay(Nth(ScanFor(d), k), r.0, d) && IsFree(st.slots, r.0)
    requires HeldAt(st.slots, r.0, st.slots[i].value.value, 0, d)
    ensures PackedUpTo(Visit(st, i, r).slots, ScanFor(d), k + 1, d)
  {
    var s' := Visit(st, i, r).slots;
    forall j | 0 <= j < |s'| && s'[j].Some? && InBounds(Pos(s'[j].value)) && Rank(ScanFor(d), Pos(s'[j].value)) < k + 1
      ensures HeldAt(s', Pos(s'[j].value), s'[j].value.value, s'[j].value.next, d)
    {
      PackSlideTile(st, d, k, i, r, j);
    }
  }

  /** PackSlide for the tile in slot j. */
  lemma PackSlideTile(st: MoveState, d: Dir, k: int, i: nat, r: (Cell, Option<nat>), j: nat)
    requires VisitContext(st.slots, d, k, i) && r.1.None?
    requires InBounds(r.0) && OnRay(Nth(ScanFor(d), k), r.0, d) && IsFree(st.slots, r.0)
    requires HeldAt(st.slots, r.0, st.slots[i].value.value, 0, d)
    requires j < |st.slots| && st.slots[j].Some? && Rank(ScanFor(d), Pos(Visit(st, i, r).slots[j].value)) < k + 1
    ensures HeldAt(Visit(st, i, r).slots, Pos(Visit(st, i, r).slots[j].value),
                   Visit(st, i, r).slots[j].value.value, Visit(st, i, r).slots[j].value.next, d)
  {
    var s, s' := st.slots, Visit(st, i, r).slots;
    if j == i {
      StepPastRay(Nth(ScanFor(d), k), r.0, d);
      FirstAtByOccupancy(s, s', Step(r.0, d));
    } else {
      assert s'[j] == s[j];
      EarlierTile(s, d, k, i, j);
      var n := Step(Pos(s[j].value), d);
      if InBounds(n) {
        assert n != r.0 by { assert Occupies(s, FirstAt(s, n).value, n); }
        FirstAtByOccupancy(s, s', n);
      }
    }
  }

  /** The merge visits below: the visited tile i meets the unclaimed tile r.1, alone on the cell
      r.0 the scan has passed. */
  predicate MergeContext(st: MoveState, d: Dir, k: int, i: nat, r: (Cell, Option<nat>)) {
    VisitContext(st.slots, d, k, i) && 1 <= st.slots[i].value.value
    && InBounds(r.0) && OnRay(Nth(ScanFor(d), k), r.0, d) && Rank(ScanFor(d), r.0) < k
    && r.1.Some? && Occupies(st.slots, r.1.value, r.0) && st.slots[r.1.value].value.next == 0
    && forall m :: 0 <= m < |st.slots| && m != r.1.value ==> !Occupies(st.slots, m, r.0)
  }

  /** The visited tile merges into the unclaimed tile on r.0: both now carry markers, the cell ahead
      of r.0 still holds a tile, and any tile held by r.0 is now held by a claimed pair. */
  lemma PackMerge(st: MoveState, d: Dir, k: int, i: nat, r: (Cell, Option<nat>))
    requires MergeContext(st, d, k, i, r)
    ensures PackedUpTo(Visit(st, i, r).slots, ScanFor(d), k + 1, d)
  {
    var s' := Visit(st, i, r).slots;
    forall j | 0 <= j < |s'| && s'[j].Some? && InBounds(Pos(s'[j].value)) && Rank(ScanFor(d), Pos(s'[j].value)) < k + 1
      ensures HeldAt(s', Pos(s'[j].value), s'[j].value.value, s'[j].value.next, d)
    {
      if j == i || j == r.1.value {
        PackMergePair(st, d, k, i, r, j);
      } else {
        PackMergeOther(st, d, k, i, r, j);
      }
    }
  }

  /** The marked pair on r.0 is held: the tile ahead of r.0 that held the partner is still there. */
  lemma PackMergePair(st: MoveState, d: Dir, k: int, i: nat, r: (Cell, Option<nat>), j: nat)
    requires MergeContext(st, d, k, i, r) && (j == i || j == r.1.value)
    ensures j < |Visit(st, i, r).slots| && Visit(st, i, r).slots[j].Some?
    ensures HeldAt(Visit(st, i, r).slots, r.0, Visit(st, i, r).slots[j].value.value, Visit(st, i, r).slots[j].value.next, d)
  {
    var s, s' := st.slots, Visit(st, i, r).slots;
    var jj := r.1.value;
    assert jj != i && s'[i].value.next > 0 && s'[jj].value.next == -1;
    StepPastRay(Nth(ScanFor(d), k), r.0, d);
    FirstAtByOccupancy(s, s', Step(r.0, d));
    assert HeldAt(s, r.0, s[jj].value.value, 0, d);
  }

  /** Any other tile keeps its hold; one held by r.0 is now held by the marked pair. */
  lemma PackMergeOther(st: MoveState, d: Dir, k: int, i: nat, r: (Cell, Option<nat>), j: nat)
    requires MergeContext(st, d, k, i, r) && j != i && j != r.1.value
    requires j < |st.slots| && st.slots[j].Some? && Rank(ScanFor(d), Pos(st.slots[j].value)) < k + 1
    ensures HeldAt(Visit(st, i, r).slots, Pos(st.slots[j].value), st.slots[j].value.value, st.slots[j].value.next, d)
  {
    var s, s' := st.slots, Visit(st, i, r).slots;
    var jj := r.1.value;
    assert s'[i].value.next > 0 && s'[jj].value.next == -1;
    EarlierTile(s, d, k, i, j);
    var n := Step(Pos(s[j].value), d);
    if InBounds(n) && n != r.0 {
      FirstAtByOccupancy(s, s', n);
    } else if InBounds(n) {
      assert Occupies(s', jj, r.0);
      var f := FirstAt(s', r.0).value;
      assert f != i && f != jj ==> s'[f] == s[f] && Occupies(s, f, r.0);
    }
  }

  /** One iteration of doMove under the paired scan keeps every visited tile held. */
  lemma PackStep(s0: Slots, st: MoveState, d: Dir, k: int)
    requires Steady(s0) && 0 <= k < SlotCount
    requires Window(st.slots) && ScannedUpTo(s0, st.slots, ScanFor(d), k)
    requires PackedUpTo(st.slots, ScanFor(d), k, d)
    ensures PackedUpTo(ProcessCell(st, Nth(ScanFor(d), k), d).slots, ScanFor(d), k + 1, d)
  {
    match FirstAt(st.slots, Nth(ScanFor(d), k))
    case None =>
      PackEmpty(st.slots, ScanFor(d), k, d);
    case Some(i) =>
      PackStepFound(s0, st, d, k, i);
  }

  /** PackStep when slot i holds the tile on the visited cell. */
  lemma PackStepFound(s0: Slots, st: MoveState, d: Dir, k: int, i: nat)
    requires Steady(s0) && 0 <= k < SlotCount
    requires Window(st.slots) && ScannedUpTo(s0, st.slots, ScanFor(d), k)
    requires PackedUpTo(st.slots, ScanFor(d), k, d)
    requires FirstAt(st.slots, Nth(ScanFor(d), k)) == Some(i)
    ensures PackedUpTo(ProcessCell(st, Nth(ScanFor(d), k), d).slots, ScanFor(d), k + 1, d)
  {
    var s, c := st.slots, Nth(ScanFor(d), k);
    VisitedTileIsOriginal(s0, s, ScanFor(d), k, i);
    AloneWhenUnclaimed(s, i);
    assert VisitContext(s, d, k, i);
    var r := MoveTarget(s, s[i].value, d);
    MoveTargetFacts(s, s[i].value, d);
    if r.0 == c {
      VisitStays(st, i, r, d);
      PackStay(s, ScanFor(d), k, d, i);
    } else if r.1.None? {
      PackSlide(st, d, k, i, r);
    } else {
      var jj := r.1.value;
      NthRank(ScanFor(d), k, c);
      AheadIsScannedFirst(d, c, Along(c, r.0, d));
      AloneWhenUnclaimed(s, jj);
      assert MergeContext(st, d, k, i, r);
      PackMerge(st, d, k, i, r);
    }
  }

  /** doMove under the paired scan, after its first k visits: every tile on a visited cell is held. */
  lemma {:induction false} PackPrefix(s0: Slots, enableMerge: bool, d: Dir, k: int)
    requires Steady(s0) && 0 <= k <= SlotCount
    ensures PackedUpTo(MoveAll(MoveState(s0, false, enableMerge), Order(ScanFor(d))[..k], d).slots, ScanFor(d), k, d)
  {
    var o := Order(ScanFor(d));
    if k > 0 {
      PackPrefix(s0, enableMerge, d, k - 1);
      ScanPrefix(s0, enableMerge, d, k - 1);
      assert o[..k][..k - 1] == o[..k - 1];
      assert o[..k][k - 1] == Nth(ScanFor(d), k - 1);
      var prev := MoveAll(MoveState(s0, false, enableMerge), o[..k - 1], d);
      PackStep(s0, prev, d, k - 1);
    }
  }

  /**
   * The whole move packs the board: from a steady board, after doMove with the scan its key pairs
   * with, no tile could slide one more cell (its next cell is off the board or taken), and no
   * unclaimed tile has a tile it could merge with right in front of it.
   */
  lemma MoveEndsPacked(s0: Slots, enableMerge: bool, d: Dir)
    requires Steady(s0)
    ensures var st := AfterMove(s0, enableMerge, d, ScanFor(d));
      forall i :: 0 <= i < |st.slots| && st.slots[i].Some? && InBounds(Step(Pos(st.slots[i].value), d)) ==>
        var n := Step(Pos(st.slots[i].value), d);
        !IsFree(st.slots, n)
        && (st.slots[i].value.next == 0 ==> !Mergeable(st.slots[FirstAt(st.slots, n).value].value, st.slots[i].value.value))
  {
    var st := AfterMove(s0, enableMerge, d, ScanFor(d));
    PackPrefix(s0, enableMerge, d, SlotCount);
    MoveEndsInWindow(s0, enableMerge, d);
    assert Order(ScanFor(d))[..SlotCount] == Order(ScanFor(d));
    forall i | 0 <= i < |st.slots| && st.slots[i].Some?
      ensures Rank(ScanFor(d), Pos(st.slots[i].value)) < SlotCount
    {
      NthRank(ScanFor(d), 0, Pos(st.slots[i].value));
    }
  }

  // ---------------------------------------------------------------------------------------------
  // Room for the spawn

  /** How far cell q lies ahead of p along d is the room p has beyond the room q has. */
  lemma RoomAlong(p: Cell, q: Cell, d: Dir)
    ensures Room(p, d) == Room(q, d) + Along(p, q, d)
  {
  }

  /**
   * Walking back from a cell no tile kept: if s1 only holds tiles of s0, each slid forward along d,
   * and cell c lost the tile that started there (or never had one) without it being free, the
   * tile now on c came from a cell behind c, which lost its tile in turn; the grid ends, so some
   * cell is free.
   */
  lemma {:induction false} VacatedDescent(s0: Slots, s1: Slots, d: Dir, c: Cell)
    requires |s1| == |s0| && Distinct(s0) && AllInBounds(s0)
    requires forall m :: 0 <= m < |s1| && s1[m].Some? ==> s0[m].Some? && OnRay(Pos(s0[m].value), Pos(s1[m].value), d)
    requires InBounds(c) && forall m :: Occupies(s1, m, c) ==> !Occupies(s0, m, c)
    ensures exists f :: InBounds(f) && IsFree(s1, f)
    decreases BoardSize - Room(c, d)
  {
    if !IsFree(s1, c) {
      var m :| 0 <= m < |s1| && Occupies(s1, m, c);
      var c' := Pos(s0[m].value);
      assert c' != c by { assert Occupies(s0, m, c'); }
      RoomAlong(c', c, d);
      forall m' | Occupies(s1, m', c')
        ensures !Occupies(s0, m', c')
      {
        assert m' != m && Occupies(s0, m, c');
      }
      VacatedDescent(s0, s1, d, c');
    }
  }

  /** A sequence without repeats has as many distinct elements as positions. */
  lemma {:induction false} DistinctElements<T>(q: seq<T>)
    requires forall a, b :: 0 <= a < b < |q| ==> q[a] != q[b]
    ensures |set x | x in q| == |q|
  {
    if q != [] {
      var n := |q| - 1;
      DistinctElements(q[..n]);
      assert (set x | x in q) == (set x | x in q[..n]) + {q[n]};
      assert q[n] !in (set x | x in q[..n]);
    }
  }

  /** Pigeonhole: a repeat-free sequence drawn from another repeat-free sequence of the same length
      uses up all of its elements. */
  lemma UsesAll<T>(q: seq<T>, r: seq<T>)
    requires |q| == |r| && forall x :: x in q ==> x in r
    requires forall a, b :: 0 <= a < b < |q| ==> q[a] != q[b]
    requires forall a, b :: 0 <= a < b < |r| ==> r[a] != r[b]
    ensures forall x :: x in r ==> x in q
  {
    DistinctElements(q);
    DistinctElements(r);
    var taken, all := set x | x in q, set x | x in r;
    assert taken <= all;
    assert all == taken + (all - taken) && taken * (all - taken) == {};
    assert |all - taken| == 0;
    forall x | x in r
      ensures x in q
    {
      assert x in all && x !in all - taken;
    }
  }

  /** Sixteen tiles on distinct cells of the grid cover every cell. */
  lemma FullCoversGrid(s: Slots, c: Cell)
    requires |s| == SlotCount && Distinct(s) && AllInBounds(s) && InBounds(c)
    ensures Full(s) ==> !IsFree(s, c)
  {
    if Full(s) {
      var cells := seq(SlotCount, i requires 0 <= i < SlotCount => Pos(s[i].value));
      OrderIsPermutationOfCells(FromLeft);
      UsesAll(cells, Order(FromLeft));
      var a :| 0 <= a < SlotCount && cells[a] == c;
      assert Occupies(s, a, c);
    }
  }

  /** So on a board of distinct in-grid tiles, a free cell means a free slot. */
  lemma FreeCellMeansFreeSlot(s: Slots, c: Cell)
    requires |s| == SlotCount && Distinct(s) && AllInBounds(s) && InBounds(c) && IsFree(s, c)
    ensures !Full(s)
  {
    FullCoversGrid(s, c);
  }

  /**
   * A move that moved something leaves room: after HandleKey's move from a steady board and the
   * merge HandleMoveAnimationDone performs, some cell of the grid is free and some slot is empty,
   * so the spawn that follows finds a cell and insertTile finds a slot.
   */
  lemma MoveLeavesRoom(s: Slots, enableMerge: bool, d: Dir)
    requires Steady(s) && |s| == SlotCount
    ensures var st := AfterMove(s, enableMerge, d, ScanFor(d));
      st.moved ==>
        (exists c :: InBounds(c) && IsFree(AfterMerge(st.slots, st.enableMerge), c))
        && !Full(AfterMerge(st.slots, st.enableMerge))
  {
    var st := AfterMove(s, enableMerge, d, ScanFor(d));
    MoveAllKeepsTiles(MoveState(s, false, enableMerge), Order(ScanFor(d)), d);
    MergeFlagIsShortcut(s, enableMerge, d);
    MoveEndsInWindow(s, enableMerge, d);
    var m := Merged(st.slots);
    MergeRestoresSteady(st.slots);
    if st.moved {
      var i :| 0 <= i < |s| && s[i].Some? && Pos(st.slots[i].value) != Pos(s[i].value);
      var c := Pos(s[i].value);
      forall j | Occupies(m, j, c)
        ensures !Occupies(s, j, c)
      {
        assert Pos(m[j].value) == Pos(st.slots[j].value);
        assert j != i && Occupies(s, i, c);
      }
      VacatedDescent(s, m, d, c);
      var f :| InBounds(f) && IsFree(m, f);
      FreeCellMeansFreeSlot(m, f);
    }
  }
}
