/**
 * The board's steady-state invariant (every tile inside the grid, exponents in [1, 11], no marker
 * pending, at most one tile per cell) and why a turn keeps it: during a move paired with its own
 * scan order, two tiles share a cell only as a marked merge pair, and the merge then removes one
 * of each pair.
 */
module SteadyState {
  import opened Geometry
  import opened ScanOrder
  import opened BoardSpec

  predicate ValuesInRange(s: Slots) {
    forall i :: 0 <= i < |s| && s[i].Some? ==> 1 <= s[i].value.value <= MaxTileValue
  }

  predicate NoMarkers(s: Slots) {
    forall i :: 0 <= i < |s| && s[i].Some? ==> s[i].value.next == 0
  }

  predicate Distinct(s: Slots) {
    forall i, j :: 0 <= i < |s| && 0 <= j < |s| && i != j && s[i].Some? && s[j].Some? ==>
      Pos(s[i].value) != Pos(s[j].value)
  }

  /** The state outside a turn: at most one tile per cell. */
  predicate Steady(s: Slots) {
    AllInBounds(s) && ValuesInRange(s) && NoMarkers(s) && Distinct(s)
  }

  /** a will absorb b: same cell, same value, a promoted to value + 1, b marked for removal. */
  predicate MergePair(a: TileState, b: TileState) {
    Pos(a) == Pos(b) && a.value == b.value && a.next == a.value + 1 && b.next == -1
  }

  predicate MarkersOk(s: Slots) {
    forall i :: 0 <= i < |s| && s[i].Some? ==>
      var t := s[i].value;
      t.next == 0 || t.next == -1 || (t.next == t.value + 1 && t.value < MaxTileValue)
  }

  predicate PairedOnly(s: Slots) {
    forall i, j :: 0 <= i < |s| && 0 <= j < |s| && i != j && s[i].Some? && s[j].Some?
                   && Pos(s[i].value) == Pos(s[j].value) ==>
      MergePair(s[i].value, s[j].value) || MergePair(s[j].value, s[i].value)
  }

  /** The state between a move and its merge: tiles share a cell only as merge pairs. */
  predicate Window(s: Slots) {
    AllInBounds(s) && ValuesInRange(s) && MarkersOk(s) && PairedOnly(s)
  }

  /** After visiting the first k cells of the scan: tiles that started on unvisited cells are
      untouched, and tiles that started on visited cells stand on visited cells. */
  predicate ScannedUpTo(s0: Slots, s: Slots, scan: Scan, k: int) {
    SameTiles(s0, s)
    && forall i :: 0 <= i < |s0| && s0[i].Some? ==>
         InBounds(Pos(s0[i].value)) && InBounds(Pos(s[i].value))
         && (Rank(scan, Pos(s0[i].value)) >= k ==> s[i] == s0[i])
         && (Rank(scan, Pos(s0[i].value)) < k ==> Rank(scan, Pos(s[i].value)) < k)
  }

  /** No tile other than slot j stands on the cell of slot j when j carries no marker. */
  lemma AloneWhenUnclaimed(s: Slots, j: int)
    requires Window(s) && 0 <= j < |s| && s[j].Some? && s[j].value.next == 0
    ensures forall m :: 0 <= m < |s| && m != j ==> !Occupies(s, m, Pos(s[j].value))
  {
  }

  /** The tile doMove finds on the k-th cell of its scan is the one that started there, untouched. */
  lemma VisitedTileIsOriginal(s0: Slots, s: Slots, scan: Scan, k: int, i: nat)
    requires 0 <= k < SlotCount && ScannedUpTo(s0, s, scan, k)
    requires Occupies(s, i, Nth(scan, k))
    ensures s[i] == s0[i] && Rank(scan, Pos(s0[i].value)) == k
  {
    NthRank(scan, k, Pos(s0[i].value));
    assert Rank(scan, Pos(s[i].value)) == k;
  }

  /** Visiting a cell that leaves the board as it is lets the scan move on. */
  lemma ScanStepUnchanged(s0: Slots, s: Slots, scan: Scan, k: int)
    requires 0 <= k < SlotCount && ScannedUpTo(s0, s, scan, k)
    ensures ScannedUpTo(s0, s, scan, k + 1)
  {
  }

  /** The visited tile i slides onto the free cell tg, which the scan has already passed. */
  lemma ScanStepSlide(s0: Slots, s: Slots, scan: Scan, k: int, i: nat, tg: Cell)
    requires Steady(s0) && 0 <= k < SlotCount && Window(s) && ScannedUpTo(s0, s, scan, k)
    requires Occupies(s, i, Nth(scan, k))
    requires InBounds(tg) && IsFree(s, tg) && Rank(scan, tg) < k
    ensures var s' := s[i := Some(s[i].value.(x := tg.x, y := tg.y))];
      Window(s') && ScannedUpTo(s0, s', scan, k + 1) && (NoMarkers(s) ==> NoMarkers(s'))
  {
    VisitedTileIsOriginal(s0, s, scan, k, i);
    var s' := s[i := Some(s[i].value.(x := tg.x, y := tg.y))];
    SlideKeepsScanned(s0, s, scan, k, i, s[i].value.(x := tg.x, y := tg.y));
    forall a, b | 0 <= a < |s'| && 0 <= b < |s'| && a != b && s'[a].Some? && s'[b].Some?
                  && Pos(s'[a].value) == Pos(s'[b].value)
      ensures MergePair(s'[a].value, s'[b].value) || MergePair(s'[b].value, s'[a].value)
    {
      assert !Occupies(s, a, tg) && !Occupies(s, b, tg);
      assert a != i && b != i;
    }
  }

  /** Marking the pair (i, j) on tg leaves a window: the two now share tg as a merge pair. */
  lemma MergeKeepsWindow(s: Slots, i: nat, j: nat, tg: Cell)
    requires Window(s) && i != j && i < |s| && s[i].Some? && s[i].value.next == 0
    requires InBounds(tg) && Occupies(s, j, tg) && Mergeable(s[j].value, s[i].value.value)
    ensures var s1 := s[i := Some(s[i].value.(x := tg.x, y := tg.y).(next := s[i].value.value + 1))];
      Window(s1[j := Some(s1[j].value.(next := -1))])
  {
    AloneWhenUnclaimed(s, j);
    var t := s[i].value;
    var s1 := s[i := Some(t.(x := tg.x, y := tg.y).(next := t.value + 1))];
    var s' := s1[j := Some(s1[j].value.(next := -1))];
    assert s'[i] == Some(t.(x := tg.x, y := tg.y).(next := t.value + 1));
    assert s'[j] == Some(s[j].value.(next := -1));
    forall a, b | 0 <= a < |s'| && 0 <= b < |s'| && a != b && s'[a].Some? && s'[b].Some?
                  && Pos(s'[a].value) == Pos(s'[b].value)
      ensures MergePair(s'[a].value, s'[b].value) || MergePair(s'[b].value, s'[a].value)
    {
      assert (a == i && b == j) || (a == j && b == i) || (a !in {i, j} && b !in {i, j});
    }
  }

  /** Marking the pair (i, j) on the already visited cell tg keeps the scan bookkeeping. */
  lemma MergeKeepsScanned(s0: Slots, s: Slots, scan: Scan, k: int, i: nat, j: nat, tg: Cell)
    requires 0 <= k < SlotCount && ScannedUpTo(s0, s, scan, k) && i != j
    requires Occupies(s, i, Nth(scan, k))
    requires InBounds(tg) && Rank(scan, tg) < k && Occupies(s, j, tg)
    ensures var s1 := s[i := Some(s[i].value.(x := tg.x, y := tg.y).(next := s[i].value.value + 1))];
      ScannedUpTo(s0, s1[j := Some(s1[j].value.(next := -1))], scan, k + 1)
  {
    var t1 := s[i].value.(x := tg.x, y := tg.y).(next := s[i].value.value + 1);
    SlideKeepsScanned(s0, s, scan, k, i, t1);
    assert s[i := Some(t1)][j] == s[j];
    MarkKeepsScanned(s0, s[i := Some(t1)], scan, k + 1, j, -1);
  }

  /** The visited tile i, moved (and possibly marked) onto a cell the scan has passed, counts as visited. */
  lemma SlideKeepsScanned(s0: Slots, s: Slots, scan: Scan, k: int, i: nat, t1: TileState)
    requires 0 <= k < SlotCount && ScannedUpTo(s0, s, scan, k)
    requires Occupies(s, i, Nth(scan, k))
    requires t1.value == s[i].value.value && InBounds(Pos(t1)) && Rank(scan, Pos(t1)) < k
    ensures ScannedUpTo(s0, s[i := Some(t1)], scan, k + 1)
  {
    VisitedTileIsOriginal(s0, s, scan, k, i);
  }

  /** Changing the marker of a tile on a visited cell keeps the scan bookkeeping. */
  lemma MarkKeepsScanned(s0: Slots, s: Slots, scan: Scan, k: int, j: nat, n: int)
    requires ScannedUpTo(s0, s, scan, k) && j < |s| && s[j].Some?
    requires InBounds(Pos(s[j].value)) && Rank(scan, Pos(s[j].value)) < k
    ensures ScannedUpTo(s0, s[j := Some(s[j].value.(next := n))], scan, k)
  {
  }

  /** One iteration of doMove, under the scan the key handler pairs with d, keeps the window invariant. */
  lemma ScanStep(s0: Slots, st: MoveState, d: Dir, k: int)
    requires Steady(s0) && 0 <= k < SlotCount
    requires Window(st.slots) && ScannedUpTo(s0, st.slots, ScanFor(d), k)
    requires NoMarkers(st.slots) || st.enableMerge
    ensures var st' := ProcessCell(st, Nth(ScanFor(d), k), d);
      Window(st'.slots) && ScannedUpTo(s0, st'.slots, ScanFor(d), k + 1)
      && (NoMarkers(st'.slots) || st'.enableMerge)
  {
    match FirstAt(st.slots, Nth(ScanFor(d), k))
    case None =>
      ScanStepUnchanged(s0, st.slots, ScanFor(d), k);
    case Some(i) =>
      ScanStepFound(s0, st, d, k, i);
  }

  /** ScanStep when slot i holds the tile on the visited cell. */
  lemma ScanStepFound(s0: Slots, st: MoveState, d: Dir, k: int, i: nat)
    requires Steady(s0) && 0 <= k < SlotCount
    requires Window(st.slots) && ScannedUpTo(s0, st.slots, ScanFor(d), k)
    requires NoMarkers(st.slots) || st.enableMerge
    requires FirstAt(st.slots, Nth(ScanFor(d), k)) == Some(i)
    ensures var st' := ProcessCell(st, Nth(ScanFor(d), k), d);
      Window(st'.slots) && ScannedUpTo(s0, st'.slots, ScanFor(d), k + 1)
      && (NoMarkers(st'.slots) || st'.enableMerge)
  {
    NthRank(ScanFor(d), k, Nth(ScanFor(d), k));
    MoveTargetFacts(st.slots, st.slots[i].value, d);
    if MoveTarget(st.slots, st.slots[i].value, d).0 == Nth(ScanFor(d), k) {
      VisitStays(st, i, MoveTarget(st.slots, st.slots[i].value, d), d);
      ScanStepUnchanged(s0, st.slots, ScanFor(d), k);
    } else if MoveTarget(st.slots, st.slots[i].value, d).1.None? {
      VisitSlides(s0, st, d, k, i, MoveTarget(st.slots, st.slots[i].value, d));
    } else {
      VisitedTileIsOriginal(s0, st.slots, ScanFor(d), k, i);
      VisitMergesInWindow(st, i, MoveTarget(st.slots, st.slots[i].value, d));
      VisitMergesScanned(s0, st, d, k, i, MoveTarget(st.slots, st.slots[i].value, d));
    }
  }

  /** A visit whose target is the tile's own cell leaves the board as it is. */
  lemma VisitStays(st: MoveState, i: nat, r: (Cell, Option<nat>), d: Dir)
    requires i < |st.slots| && st.slots[i].Some?
    requires TargetFacts(st.slots, st.slots[i].value.value, Pos(st.slots[i].value), d, r)
    requires r.0 == Pos(st.slots[i].value)
    ensures Visit(st, i, r) == st
  {
    assert st.slots[i := Some(st.slots[i].value.(x := r.0.x, y := r.0.y))] == st.slots;
  }

  /** A visited tile that slides without a partner lands on a free, already visited cell. */
  lemma VisitSlides(s0: Slots, st: MoveState, d: Dir, k: int, i: nat, r: (Cell, Option<nat>))
    requires Steady(s0) && 0 <= k < SlotCount
    requires Window(st.slots) && ScannedUpTo(s0, st.slots, ScanFor(d), k)
    requires NoMarkers(st.slots) || st.enableMerge
    requires Occupies(st.slots, i, Nth(ScanFor(d), k))
    requires InBounds(r.0) && OnRay(Nth(ScanFor(d), k), r.0, d) && r.0 != Nth(ScanFor(d), k)
    requires r.1.None? && IsFree(st.slots, r.0)
    ensures Window(Visit(st, i, r).slots) && ScannedUpTo(s0, Visit(st, i, r).slots, ScanFor(d), k + 1)
    ensures NoMarkers(Visit(st, i, r).slots) || Visit(st, i, r).enableMerge
  {
    NthRank(ScanFor(d), k, Nth(ScanFor(d), k));
    AheadIsScannedFirst(d, Nth(ScanFor(d), k), Along(Nth(ScanFor(d), k), r.0, d));
    ScanStepSlide(s0, st.slots, ScanFor(d), k, i, r.0);
  }

  /** A visited tile that finds a partner lands on that partner's cell: the pair is the only
      sharing there, so the board stays a window. */
  lemma VisitMergesInWindow(st: MoveState, i: nat, r: (Cell, Option<nat>))
    requires Window(st.slots) && i < |st.slots| && st.slots[i].Some? && st.slots[i].value.next == 0
    requires InBounds(r.0) && r.1.Some? && r.1.value != i
    requires Occupies(st.slots, r.1.value, r.0) && Mergeable(st.slots[r.1.value].value, st.slots[i].value.value)
    ensures Window(Visit(st, i, r).slots) && Visit(st, i, r).enableMerge
  {
    MergeKeepsWindow(st.slots, i, r.1.value, r.0);
  }

  /** The partner's cell lies ahead along d, so the scan has already passed it. */
  lemma VisitMergesScanned(s0: Slots, st: MoveState, d: Dir, k: int, i: nat, r: (Cell, Option<nat>))
    requires 0 <= k < SlotCount && ScannedUpTo(s0, st.slots, ScanFor(d), k)
    requires Occupies(st.slots, i, Nth(ScanFor(d), k))
    requires InBounds(r.0) && OnRay(Nth(ScanFor(d), k), r.0, d) && 0 < Along(Nth(ScanFor(d), k), r.0, d)
    requires r.1.Some? && Occupies(st.slots, r.1.value, r.0)
    ensures ScannedUpTo(s0, Visit(st, i, r).slots, ScanFor(d), k + 1)
  {
    NthRank(ScanFor(d), k, Nth(ScanFor(d), k));
    AheadIsScannedFirst(d, Nth(ScanFor(d), k), Along(Nth(ScanFor(d), k), r.0, d));
    MergeKeepsScanned(s0, st.slots, ScanFor(d), k, i, r.1.value, r.0);
  }

  /** doMove under the paired scan, after its first k visits. */
  lemma {:induction false} ScanPrefix(s0: Slots, enableMerge: bool, d: Dir, k: int)
    requires Steady(s0) && 0 <= k <= SlotCount
    ensures var st := MoveAll(MoveState(s0, false, enableMerge), Order(ScanFor(d))[..k], d);
      Window(st.slots) && ScannedUpTo(s0, st.slots, ScanFor(d), k)
      && (NoMarkers(st.slots) || st.enableMerge)
  {
    var o := Order(ScanFor(d));
    if k == 0 {
      assert o[..0] == [];
      forall i | 0 <= i < |s0| && s0[i].Some?
        ensures InBounds(Pos(s0[i].value)) && Rank(ScanFor(d), Pos(s0[i].value)) >= 0
      {
        NthRank(ScanFor(d), 0, Pos(s0[i].value));
      }
    } else {
      ScanPrefix(s0, enableMerge, d, k - 1);
      assert o[..k][..k - 1] == o[..k - 1];
      assert o[..k][k - 1] == Nth(ScanFor(d), k - 1);
      var prev := MoveAll(MoveState(s0, false, enableMerge), o[..k - 1], d);
      ScanStep(s0, prev, d, k - 1);
    }
  }

  /** Every marked tile shares its cell with some other tile. */
  predicate Partnered(s: Slots) {
    forall i :: 0 <= i < |s| && s[i].Some? && s[i].value.next != 0 ==>
      exists j :: 0 <= j < |s| && j != i && Occupies(s, j, Pos(s[i].value))
  }

  /** Every marked tile is one half of a merge pair: the other half is in the slots too. */
  predicate MarkedArePaired(s: Slots) {
    forall i :: 0 <= i < |s| && s[i].Some? && s[i].value.next != 0 ==>
      exists j :: 0 <= j < |s| && j != i && s[j].Some?
        && (MergePair(s[i].value, s[j].value) || MergePair(s[j].value, s[i].value))
  }

  /** In the window state a tile that shares its cell shares it with its merge partner. */
  lemma PartneredMeansPaired(s: Slots)
    requires Window(s) && Partnered(s)
    ensures MarkedArePaired(s)
  {
    forall i | 0 <= i < |s| && s[i].Some? && s[i].value.next != 0
      ensures exists j :: (0 <= j < |s| && j != i && s[j].Some?
                            && (MergePair(s[i].value, s[j].value) || MergePair(s[j].value, s[i].value)))
    {
      var j :| 0 <= j < |s| && j != i && Occupies(s, j, Pos(s[i].value));
      assert MergePair(s[i].value, s[j].value) || MergePair(s[j].value, s[i].value);
    }
  }

  /** An unmarked tile that slides away leaves every marked tile with the tile it shared a cell
      with: that tile was not the slider, which stood alone. */
  lemma PartnersAfterSlide(st: MoveState, i: nat, r: (Cell, Option<nat>))
    requires Window(st.slots) && Partnered(st.slots)
    requires i < |st.slots| && st.slots[i].Some? && st.slots[i].value.next == 0 && r.1.None?
    ensures Partnered(Visit(st, i, r).slots)
  {
    var s, s' := st.slots, Visit(st, i, r).slots;
    AloneWhenUnclaimed(s, i);
    forall j | 0 <= j < |s'| && s'[j].Some? && s'[j].value.next != 0
      ensures exists m :: 0 <= m < |s'| && m != j && Occupies(s', m, Pos(s'[j].value))
    {
      assert j != i && s'[j] == s[j];
      var m :| 0 <= m < |s| && m != j && Occupies(s, m, Pos(s[j].value));
      assert !Occupies(s, j, Pos(s[i].value));
      assert m != i;
      assert Occupies(s', m, Pos(s'[j].value));
    }
  }

  /** Marking a pair gives each of the two the other as cell mate, and leaves every earlier marked
      tile with its own: neither half of the new pair shared a cell before. */
  lemma PartnersAfterMerge(st: MoveState, i: nat, r: (Cell, Option<nat>))
    requires Window(st.slots) && Partnered(st.slots)
    requires i < |st.slots| && st.slots[i].Some? && st.slots[i].value.next == 0
    requires r.1.Some? && r.1.value != i && Occupies(st.slots, r.1.value, r.0)
    requires st.slots[r.1.value].value.next == 0
    ensures Partnered(Visit(st, i, r).slots)
  {
    var s, s', jj := st.slots, Visit(st, i, r).slots, r.1.value;
    AloneWhenUnclaimed(s, i);
    AloneWhenUnclaimed(s, jj);
    forall j | 0 <= j < |s'| && s'[j].Some? && s'[j].value.next != 0
      ensures exists m :: 0 <= m < |s'| && m != j && Occupies(s', m, Pos(s'[j].value))
    {
      if j == i {
        assert Occupies(s', jj, Pos(s'[j].value));
      } else if j == jj {
        assert Occupies(s', i, Pos(s'[j].value));
      } else {
        assert s'[j] == s[j];
        var m :| 0 <= m < |s| && m != j && Occupies(s, m, Pos(s[j].value));
        assert !Occupies(s, j, Pos(s[i].value)) && !Occupies(s, j, r.0);
        assert m != i && m != jj;
        assert Occupies(s', m, Pos(s'[j].value));
      }
    }
  }

  /** One iteration of doMove under the paired scan keeps every marked tile partnered. */
  lemma PartnersStep(s0: Slots, st: MoveState, d: Dir, k: int)
    requires Steady(s0) && 0 <= k < SlotCount
    requires Window(st.slots) && ScannedUpTo(s0, st.slots, ScanFor(d), k) && Partnered(st.slots)
    ensures Partnered(ProcessCell(st, Nth(ScanFor(d), k), d).slots)
  {
    match FirstAt(st.slots, Nth(ScanFor(d), k))
    case None =>
    case Some(i) =>
      VisitedTileIsOriginal(s0, st.slots, ScanFor(d), k, i);
      var r := MoveTarget(st.slots, st.slots[i].value, d);
      MoveTargetFacts(st.slots, st.slots[i].value, d);
      if r.0 == Nth(ScanFor(d), k) {
        VisitStays(st, i, r, d);
      } else if r.1.None? {
        PartnersAfterSlide(st, i, r);
      } else {
        assert Occupies(st.slots, r.1.value, r.0) && Occupies(st.slots, i, Nth(ScanFor(d), k));
        PartnersAfterMerge(st, i, r);
      }
  }

  /** doMove under the paired scan, after its first k visits, has every marked tile partnered. */
  lemma {:induction false} PartnersPrefix(s0: Slots, enableMerge: bool, d: Dir, k: int)
    requires Steady(s0) && 0 <= k <= SlotCount
    ensures Partnered(MoveAll(MoveState(s0, false, enableMerge), Order(ScanFor(d))[..k], d).slots)
  {
    var o := Order(ScanFor(d));
    if k == 0 {
      assert o[..0] == [];
    } else {
      PartnersPrefix(s0, enableMerge, d, k - 1);
      ScanPrefix(s0, enableMerge, d, k - 1);
      assert o[..k][..k - 1] == o[..k - 1];
      assert o[..k][k - 1] == Nth(ScanFor(d), k - 1);
      PartnersStep(s0, MoveAll(MoveState(s0, false, enableMerge), o[..k - 1], d), d, k - 1);
    }
  }

  /** The whole move: starting from a steady board, doMove with the paired scan ends in the window
      state, every marked tile shares its cell with its merge partner, and if it set no merge flag
      it left no marker either. */
  lemma MoveEndsInWindow(s0: Slots, enableMerge: bool, d: Dir)
    requires Steady(s0)
    ensures var st := AfterMove(s0, enableMerge, d, ScanFor(d));
      Window(st.slots) && MarkedArePaired(st.slots) && (NoMarkers(st.slots) || st.enableMerge)
  {
    ScanPrefix(s0, enableMerge, d, SlotCount);
    PartnersPrefix(s0, enableMerge, d, SlotCount);
    assert Order(ScanFor(d))[..SlotCount] == Order(ScanFor(d));
    PartneredMeansPaired(AfterMove(s0, enableMerge, d, ScanFor(d)).slots);
  }

  /** doMerge turns a window board back into a steady one. */
  lemma MergeRestoresSteady(s: Slots)
    requires Window(s)
    ensures Steady(Merged(s))
  {
    var m := Merged(s);
    forall a, b | 0 <= a < |m| && 0 <= b < |m| && a != b && m[a].Some? && m[b].Some?
      ensures Pos(m[a].value) != Pos(m[b].value)
    {
      assert m[a] == MergeSlot(s[a]) && m[b] == MergeSlot(s[b]);
      assert s[a].value.next != -1 && s[b].value.next != -1;
    }
  }

  /** Without any marker the window state is already steady and doMerge changes nothing. */
  lemma UnmarkedWindowIsSteady(s: Slots)
    requires Window(s) && NoMarkers(s)
    ensures Steady(s) && Merged(s) == s
  {
    forall a, b | 0 <= a < |s| && 0 <= b < |s| && a != b && s[a].Some? && s[b].Some?
      ensures Pos(s[a].value) != Pos(s[b].value)
    {
      assert s[a].value.next == 0 && s[b].value.next == 0;
    }
    assert Merged(s) == s;
  }

  /** With at most one tile per cell, tileAt on a tile's cell finds that very tile. */
  lemma TileAtFindsItsTile(s: Slots, k: int)
    requires Distinct(s) && 0 <= k < |s| && s[k].Some?
    ensures FirstAt(s, Pos(s[k].value)) == Some(k)
  {
    assert Occupies(s, k, Pos(s[k].value));
    var j := FirstAt(s, Pos(s[k].value)).value;
    assert !(k < j) && Occupies(s, j, Pos(s[k].value));
  }

  /** A new game starts steady: two tiles of value 1 or 2 on distinct in-grid cells. */
  lemma NewBoardIsSteady(s: Slots, c1: Cell, v1: int, c2: Cell, v2: int)
    requires NewBoard(s, c1, v1, c2, v2)
    requires InBounds(c1) && InBounds(c2) && c1 != c2 && 1 <= v1 <= 2 && 1 <= v2 <= 2
    ensures Steady(s)
  {
    forall a, b | 0 <= a < |s| && 0 <= b < |s| && a != b && s[a].Some? && s[b].Some?
      ensures Pos(s[a].value) != Pos(s[b].value)
    {
      assert a < 2 && b < 2;
    }
  }

  /** addTileAt on a free in-grid cell with an exponent in range keeps the board steady. */
  lemma SpawnKeepsSteady(s: Slots, c: Cell, v: int)
    requires Steady(s) && InBounds(c) && IsFree(s, c) && 1 <= v <= MaxTileValue
    ensures Steady(Insert(s, TileState(c.x, c.y, v, 0)).0)
  {
    InsertFacts(s, TileState(c.x, c.y, v, 0));
    var s' := Insert(s, TileState(c.x, c.y, v, 0)).0;
    if Insert(s, TileState(c.x, c.y, v, 0)).1 {
      var k := FirstNil(s).value;
      forall a, b | 0 <= a < |s'| && 0 <= b < |s'| && a != b && s'[a].Some? && s'[b].Some?
        ensures Pos(s'[a].value) != Pos(s'[b].value)
      {
        if a == k {
          assert !Occupies(s, b, c);
        } else if b == k {
          assert !Occupies(s, a, c);
        }
      }
    }
  }

  /** The second half of a turn: from the window a move leaves, the merge (when one was flagged)
      and the spawn on a free cell bring the board back to the steady state. */
  lemma SettleKeepsSteady(s: Slots, enableMerge: bool, c: Cell, v: int)
    requires Window(s) && (NoMarkers(s) || enableMerge)
    ensures Steady(AfterMerge(s, enableMerge))
    ensures InBounds(c) && IsFree(AfterMerge(s, enableMerge), c) && 1 <= v <= MaxTileValue ==>
      Steady(Insert(AfterMerge(s, enableMerge), TileState(c.x, c.y, v, 0)).0)
  {
    if enableMerge {
      MergeRestoresSteady(s);
    } else {
      UnmarkedWindowIsSteady(s);
    }
    var m := AfterMerge(s, enableMerge);
    if InBounds(c) && IsFree(m, c) && 1 <= v <= MaxTileValue {
      SpawnKeepsSteady(m, c, v);
    }
  }

  /**
   * A whole turn keeps the steady state: a move with the scan paired to its direction, the merge
   * it flagged, and the spawn on a free cell that follows when something moved.
   */
  lemma TurnKeepsSteady(s: Slots, enableMerge: bool, d: Dir, c: Cell, v: int)
    requires Steady(s)
    ensures var st := AfterMove(s, enableMerge, d, ScanFor(d));
      Steady(AfterMerge(st.slots, st.enableMerge))
      && (InBounds(c) && IsFree(AfterMerge(st.slots, st.enableMerge), c) && 1 <= v <= MaxTileValue ==>
            Steady(Insert(AfterMerge(st.slots, st.enableMerge), TileState(c.x, c.y, v, 0)).0))
  {
    var st := AfterMove(s, enableMerge, d, ScanFor(d));
    MoveEndsInWindow(s, enableMerge, d);
    SettleKeepsSteady(st.slots, st.enableMerge, c, v);
  }

  /** The merge flag is only a shortcut: after a move from a steady board, skipping doMerge when no
      merge was flagged gives the same board and the same score as running it. */
  lemma MergeFlagIsShortcut(s: Slots, enableMerge: bool, d: Dir)
    requires Steady(s)
    ensures var st := AfterMove(s, enableMerge, d, ScanFor(d));
      AfterMerge(st.slots, st.enableMerge) == Merged(st.slots)
      && (if st.enableMerge then MergeGain(st.slots) else 0) == MergeGain(st.slots)
  {
    var st := AfterMove(s, enableMerge, d, ScanFor(d));
    MoveEndsInWindow(s, enableMerge, d);
    if !st.enableMerge {
      UnmarkedWindowIsSteady(st.slots);
      NoPromotionNoGain(st.slots);
    }
  }

  /** A move that moves nothing changes nothing: no tile, no marker, no merge to do and (as the
      handler spawns only after a move) no new tile. */
  lemma {:induction false} NothingMovedNothingChanged(st: MoveState, cs: seq<Cell>, d: Dir)
    requires AllInBounds(st.slots)
    ensures !MoveAll(st, cs, d).moved ==> MoveAll(st, cs, d).slots == st.slots
    decreases |cs|
  {
    if cs != [] {
      var mid := MoveAll(st, cs[..|cs| - 1], d);
      NothingMovedNothingChanged(st, cs[..|cs| - 1], d);
      MoveAllKeepsTiles(st, cs[..|cs| - 1], d);
      var c := cs[|cs| - 1];
      match FirstAt(mid.slots, c)
      case None =>
      case Some(i) =>
        var t := mid.slots[i].value;
        MoveTargetFacts(mid.slots, t, d);
        var r := MoveTarget(mid.slots, t, d);
        if r.0 == Pos(t) {
          assert Along(Pos(t), r.0, d) == 0;
          assert mid.slots[i := Some(t)] == mid.slots;
        }
    }
  }
}
