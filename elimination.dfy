/**
 What one elimination step, one sweep and the whole `while` loop of
 `solve_sudoku` do to the dictionary of candidate lists: lists only shrink
 and keys never change; a digit leaves a cell only because a peer holds it
 as its single candidate; right after a fixed cell is handled none of its
 peers holds its digit; the loop returns only once at most 81 candidates are
 left; and a sweep that removes nothing repeats forever.
 */
module Elimination {
  import opened Exceptions
  import opened Lists
  import opened Board
  import opened Peers
  import opened Solver

  lemma ShrunkRefl(g: Grid)
    ensures Shrunk(g, g)
  {
    forall k | k in g ensures IsSubList(g[k], g[k]) {
      SubListRefl(g[k]);
    }
  }

  lemma ShrunkTrans(a: Grid, b: Grid, c: Grid)
    requires Shrunk(a, b) && Shrunk(b, c)
    ensures Shrunk(a, c)
  {
    forall k | k in c ensures IsSubList(a[k], c[k]) {
      SubListTrans(a[k], b[k], c[k]);
    }
  }

  // ---------------------------------------------------------------------
  // One iteration of the sweep

  /** A step at `elem` raises only when `elem` is fixed and one of its peers
      is missing from the dictionary, and then it raises `TypeError`. */
  lemma CellStepFails(g: Grid, elem: string)
    requires elem in g && IsCell(elem)
    ensures CellStep(g, elem).Err? <==> |g[elem]| == 1 && !(PeersOf(elem) <= g.Keys)
    ensures CellStep(g, elem).Err? ==> CellStep(g, elem).error == TypeError
  {
    RelatedOfCell(elem);
  }

  /** A step at `elem` changes no list outside the peers of `elem`, and
      none at all when `elem` is not fixed; `elem`'s own list included. */
  lemma CellStepUnchanged(g: Grid, elem: string)
    requires elem in g && IsCell(elem) && CellStep(g, elem).Ok?
    ensures var h := CellStep(g, elem).value;
      && h.Keys == g.Keys
      && h[elem] == g[elem]
      && forall k :: k in g && (|g[elem]| != 1 || k !in PeersOf(elem)) ==> h[k] == g[k]
  {
    RelatedOfCell(elem);
    PeersCount(elem);
  }

  /** When `elem` is fixed to `d`, a step at `elem` takes exactly one
      occurrence of `d` from each peer holding it, and nothing else. */
  lemma CellStepPeers(g: Grid, elem: string)
    requires elem in g && IsCell(elem) && CellStep(g, elem).Ok? && |g[elem]| == 1
    ensures var h := CellStep(g, elem).value;
      forall p :: p in PeersOf(elem) ==>
        p in g && multiset(h[p]) == multiset(g[p]) - multiset{g[elem][0]}
  {
    RelatedOfCell(elem);
    var h := CellStep(g, elem).value;
    var d := g[elem][0];
    assert h == PoppedFrom(g, PeersOf(elem), d);
    forall p | p in PeersOf(elem)
      ensures p in g && multiset(h[p]) == multiset(g[p]) - multiset{d}
    {
      if d !in g[p] {
        assert multiset(g[p])[d] == 0;
        assert multiset(g[p]) - multiset{d} == multiset(g[p]);
      }
    }
  }

  /** Two peers fixed to the same digit are not detected: the step at one of
      them empties the other's list. */
  lemma CellStepEmptiesConflict(g: Grid, elem: string, p: string)
    requires elem in g && IsCell(elem) && CellStep(g, elem).Ok?
    requires p in PeersOf(elem) && p in g && |g[elem]| == 1 && g[p] == g[elem]
    ensures CellStep(g, elem).value[p] == []
  {
    CellStepPeers(g, elem);
    var h := CellStep(g, elem).value;
    assert multiset(h[p]) == multiset{};
  }

  /** A step never adds a key or a candidate: every list becomes a sub-list
      of what it was, and lists without duplicates stay so. */
  lemma CellStepShrinks(g: Grid, elem: string)
    requires elem in g && CellStep(g, elem).Ok?
    ensures Shrunk(CellStep(g, elem).value, g)
    ensures AllNoDup(g) ==> AllNoDup(CellStep(g, elem).value)
  {
    var h := CellStep(g, elem).value;
    if |g[elem]| != 1 {
      ShrunkRefl(g);
    } else {
      var peers := RelatedOf(elem).value;
      var d := g[elem][0];
      assert h == PoppedFrom(g, peers, d);
      forall k | k in g ensures IsSubList(h[k], g[k]) && (NoDup(g[k]) ==> NoDup(h[k])) {
        if k in peers && d in g[k] {
          PopFirstSubList(g[k], d);
        } else {
          SubListRefl(g[k]);
        }
      }
    }
  }

  /** Right after a fixed cell is handled, none of its 20 peers holds its
      digit, provided the lists were free of duplicates. */
  lemma CellStepClearsPeers(g: Grid, elem: string)
    requires elem in g && IsCell(elem) && AllNoDup(g) && |g[elem]| == 1
    requires CellStep(g, elem).Ok?
    ensures var h := CellStep(g, elem).value;
      && h[elem] == g[elem]
      && forall p :: p in PeersOf(elem) ==> p in h && g[elem][0] !in h[p]
  {
    RelatedOfCell(elem);
    PeersCount(elem);
    var h := CellStep(g, elem).value;
    var d := g[elem][0];
    assert h == PoppedFrom(g, PeersOf(elem), d);
    forall p | p in PeersOf(elem) ensures p in h && d !in h[p] {
      if d in g[p] {
        PopFirstSubList(g[p], d);
      }
    }
  }

  /** A step at `elem` removes a digit `d` from a cell `c` only when `c` is
      a peer of `elem` and `elem`'s list is exactly `[d]`. */
  lemma CellStepJustified(g: Grid, elem: string, c: string, d: string)
    requires elem in g && IsCell(elem) && CellStep(g, elem).Ok?
    requires c in g && d in g[c] && d !in CellStep(g, elem).value[c]
    ensures ArePeers(c, elem) && ArePeers(elem, c)
    ensures g[elem] == [d]
  {
    RelatedOfCell(elem);
    var h := CellStep(g, elem).value;
    assert |g[elem]| == 1;
    var x := g[elem][0];
    assert h == PoppedFrom(g, PeersOf(elem), x);
    assert c in PeersOf(elem) && x in g[c];
    PopFirstKeeps(g[c], x);
  }

  // ---------------------------------------------------------------------
  // One sweep

  /** A sweep never adds a key or a candidate, and keeps lists free of duplicates. */
  lemma {:induction false} SweepShrinks(g: Grid, order: seq<string>)
    requires InGrid(order, g) && SweepFrom(g, order).Ok?
    ensures Shrunk(SweepFrom(g, order).value, g)
    ensures AllNoDup(g) ==> AllNoDup(SweepFrom(g, order).value)
    decreases |order|
  {
    if order == [] {
      ShrunkRefl(g);
    } else {
      var g1 := CellStep(g, order[0]).value;
      CellStepShrinks(g, order[0]);
      SweepShrinks(g1, order[1..]);
      ShrunkTrans(SweepFrom(g, order).value, g1, g);
    }
  }

  /** On a dictionary holding all 81 cells a sweep never raises. */
  lemma {:induction false} SweepSucceeds(g: Grid, order: seq<string>)
    requires InGrid(order, g) && CellKeys(g) && AllCells() <= g.Keys
    ensures SweepFrom(g, order).Ok?
    decreases |order|
  {
    if order != [] {
      var elem := order[0];
      CellStepFails(g, elem);
      assert PeersOf(elem) <= AllCells();
      var g1 := CellStep(g, elem).value;
      SweepSucceeds(g1, order[1..]);
    }
  }

  /** Within a sweep, a digit `d` leaves a cell `c` only at the turn of some
      peer of `c` whose list is exactly `[d]` at that moment. */
  lemma {:induction false} SweepJustified(g: Grid, order: seq<string>, c: string, d: string)
    requires InGrid(order, g) && CellKeys(g) && SweepFrom(g, order).Ok?
    requires c in g && d in g[c] && d !in SweepFrom(g, order).value[c]
    ensures exists i ::
              && 0 <= i < |order| && ArePeers(order[i], c)
              && SweepFrom(g, order[..i]).Ok? && SweepFrom(g, order[..i]).value[order[i]] == [d]
    decreases |order|
  {
    var elem := order[0];
    var g1 := CellStep(g, elem).value;
    assert order[..1][1..] == [];
    if d !in g1[c] {
      CellStepJustified(g, elem, c, d);
      assert order[..0] == [];
      assert 0 <= 0 < |order| && ArePeers(order[0], c)
        && SweepFrom(g, order[..0]).Ok? && SweepFrom(g, order[..0]).value[order[0]] == [d];
    } else {
      SweepJustified(g1, order[1..], c, d);
      var j :| 0 <= j < |order[1..]| && ArePeers(order[1..][j], c)
        && SweepFrom(g1, order[1..][..j]).Ok? && SweepFrom(g1, order[1..][..j]).value[order[1..][j]] == [d];
      assert order[..j + 1][0] == elem && order[..j + 1][1..] == order[1..][..j];
      assert SweepFrom(g, order[..j + 1]) == SweepFrom(g1, order[1..][..j]);
      assert 0 <= j + 1 < |order| && ArePeers(order[j + 1], c)
        && SweepFrom(g, order[..j + 1]).Ok? && SweepFrom(g, order[..j + 1]).value[order[j + 1]] == [d];
    }
  }

  // ---------------------------------------------------------------------
  // The candidate total

  /** Lists that only shrink give a total that only shrinks, and an equal
      total means no list in `order` changed. */
  lemma {:induction false} TotalShrinks(h: Grid, g: Grid, order: seq<string>)
    requires InGrid(order, g) && Shrunk(h, g)
    ensures Total(h, order) <= Total(g, order)
    ensures Total(h, order) == Total(g, order) ==> forall k :: k in order ==> h[k] == g[k]
    decreases |order|
  {
    if order != [] {
      SubListLength(h[order[0]], g[order[0]]);
      TotalShrinks(h, g, order[1..]);
    }
  }

  /** A sweep either strictly lowers the total or changes nothing at all. */
  lemma SweepProgress(g: Grid, order: seq<string>)
    requires IsOrder(order, g) && SweepFrom(g, order).Ok?
    ensures var h := SweepFrom(g, order).value;
      h == g || Total(h, order) < Total(g, order)
  {
    var h := SweepFrom(g, order).value;
    SweepShrinks(g, order);
    TotalShrinks(h, g, order);
    if Total(h, order) == Total(g, order) {
      assert forall k :: k in g ==> h[k] == g[k];
    }
  }

  /** When no list in `order` is empty, the total is at least the number of
      cells, and equals it exactly when every one of them is fixed. */
  lemma {:induction false} TotalLowerBound(g: Grid, order: seq<string>)
    requires InGrid(order, g) && forall k :: k in order ==> g[k] != []
    ensures Total(g, order) >= |order|
    ensures Total(g, order) == |order| <==> forall k :: k in order ==> |g[k]| == 1
    decreases |order|
  {
    if order != [] {
      TotalLowerBound(g, order[1..]);
      assert forall k :: k in order <==> k == order[0] || k in order[1..];
    }
  }

  /** On the 81-cell dictionary with no empty list, the loop guard fails
      exactly when every cell is fixed. */
  lemma ExitMeansAllFixed(g: Grid, order: seq<string>)
    requires IsOrder(order, g) && |order| == 81 && forall k :: k in g ==> g[k] != []
    ensures Total(g, order) <= 81 <==> forall k :: k in g ==> |g[k]| == 1
  {
    TotalLowerBound(g, order);
  }

  // ---------------------------------------------------------------------
  // The while loop

  /** A returned dictionary has at most 81 candidates in all, the same keys
      and only shrunk lists, still free of duplicates if they were. */
  lemma {:induction false} RunReturns(g: Grid, order: seq<string>, fuel: nat)
    requires InGrid(order, g) && Run(g, order, fuel).Returned?
    ensures var h := Run(g, order, fuel).grid;
      Total(h, order) <= 81 && Shrunk(h, g) && (AllNoDup(g) ==> AllNoDup(h))
    decreases fuel
  {
    if Total(g, order) <= 81 {
      ShrunkRefl(g);
    } else {
      assert fuel > 0 && SweepFrom(g, order).Ok?;
      var g1 := SweepFrom(g, order).value;
      RunUnfold(g, order, fuel);
      SweepShrinks(g, order);
      RunReturns(g1, order, fuel - 1);
      ShrunkTrans(Run(g1, order, fuel - 1).grid, g1, g);
    }
  }

  /** On a dictionary holding all 81 cells the loop never raises. */
  lemma {:induction false} RunNeverRaises(g: Grid, order: seq<string>, fuel: nat)
    requires InGrid(order, g) && CellKeys(g) && AllCells() <= g.Keys
    ensures !Run(g, order, fuel).Raised?
    decreases fuel
  {
    if Total(g, order) > 81 && fuel > 0 {
      SweepSucceeds(g, order);
      var g1 := SweepFrom(g, order).value;
      RunNeverRaises(g1, order, fuel - 1);
    }
  }

  /** A sweep that removes nothing while more than 81 candidates remain is
      repeated forever: no number of sweeps ends the loop. */
  lemma {:induction false} RunStalls(g: Grid, order: seq<string>, fuel: nat)
    requires InGrid(order, g) && SweepFrom(g, order) == Ok(g) && Total(g, order) > 81
    ensures Run(g, order, fuel) == OutOfSweeps(g)
    decreases fuel
  {
    if fuel > 0 {
      RunStalls(g, order, fuel - 1);
    }
  }

  /** With at least `Total - 81` sweeps allowed, running out of sweeps means
      the loop is stuck at a dictionary that a sweep leaves unchanged: the
      sweep bound is then no restriction, as the loop never ends. */
  lemma {:induction false} OutOfSweepsIsStuck(g: Grid, order: seq<string>, fuel: nat)
    requires IsOrder(order, g) && fuel >= Total(g, order) - 81
    requires Run(g, order, fuel).OutOfSweeps?
    ensures var h := Run(g, order, fuel).grid;
      SweepFrom(h, order) == Ok(h) && Total(h, order) > 81 && Shrunk(h, g)
    decreases fuel
  {
    assert Total(g, order) > 81 && fuel > 0 && SweepFrom(g, order).Ok?;
    var g1 := SweepFrom(g, order).value;
    RunUnfold(g, order, fuel);
    SweepProgress(g, order);
    if g1 == g {
      RunStalls(g, order, fuel);
      ShrunkRefl(g);
    } else {
      SweepShrinks(g, order);
      assert IsOrder(order, g1);
      OutOfSweepsIsStuck(g1, order, fuel - 1);
      ShrunkTrans(Run(g1, order, fuel - 1).grid, g1, g);
    }
  }

  // ---------------------------------------------------------------------
  // The whole solver

  /** On a dictionary keyed by exactly the 81 cells, with lists free of
      duplicates, the loop never raises; when it returns, the keys are the
      same, each list is a duplicate-free sub-list of what it was, and at
      most 81 candidates are left. */
  lemma RunFullGrid(g: Grid, order: seq<string>, fuel: nat)
    requires IsOrder(order, g) && g.Keys == AllCells() && AllNoDup(g)
    ensures !Run(g, order, fuel).Raised?
    ensures Run(g, order, fuel).Returned? ==>
      var h := Run(g, order, fuel).grid;
      Shrunk(h, g) && AllNoDup(h) && Total(h, order) <= 81
  {
    forall k | k in g ensures IsCell(k) {
      AllCellsMember(k);
    }
    RunNeverRaises(g, order, fuel);
    if Run(g, order, fuel).Returned? {
      RunReturns(g, order, fuel);
    }
  }

  /** For a full 81-entry puzzle, `solve_sudoku` never raises; when it
      returns, the dictionary still has the 81 cells as keys, each list is a
      duplicate-free sub-list of the list `set_grid` gave the cell, and at
      most 81 candidates are left. */
  lemma SolveFullPuzzle(puzzle: seq<string>, order: seq<string>, maxSweeps: nat)
    requires |puzzle| == 81 && IsOrder(order, InitialGrid(puzzle).value)
    ensures !Solve(puzzle, order, maxSweeps).Raised?
    ensures Solve(puzzle, order, maxSweeps).Returned? ==>
      var h := Solve(puzzle, order, maxSweeps).grid;
      && h.Keys == AllCells()
      && Shrunk(h, InitialGrid(puzzle).value)
      && AllNoDup(h)
      && Total(h, order) <= 81
  {
    InitialGridKeys(puzzle);
    InitialGridCandidates(puzzle);
    RunFullGrid(InitialGrid(puzzle).value, order, maxSweeps);
  }

  /** The loop only ever pops: in a returned dictionary, every candidate left
      in cell `i` was one of the candidates `set_grid` gave it, and a cell
      given a digit in the puzzle still holds that digit alone or nothing. */
  lemma SolveKeepsGivens(puzzle: seq<string>, order: seq<string>, maxSweeps: nat, i: int)
    requires |puzzle| == 81 && IsOrder(order, InitialGrid(puzzle).value) && 0 <= i < 81
    requires Solve(puzzle, order, maxSweeps).Returned?
    ensures CellName(i) in Solve(puzzle, order, maxSweeps).grid
    ensures forall d :: d in Solve(puzzle, order, maxSweeps).grid[CellName(i)] ==>
      d in InitialCandidates(puzzle[i])
    ensures puzzle[i] != "0" ==>
      || Solve(puzzle, order, maxSweeps).grid[CellName(i)] == []
      || Solve(puzzle, order, maxSweeps).grid[CellName(i)] == [puzzle[i]]
  {
    SolveFullPuzzle(puzzle, order, maxSweeps);
    var g := InitialGrid(puzzle).value;
    var h := Solve(puzzle, order, maxSweeps).grid;
    var c := CellName(i);
    assert c in g && g[c] == InitialCandidates(puzzle[i]);
    assert IsSubList(h[c], g[c]);
    forall d | d in h[c] ensures d in InitialCandidates(puzzle[i]) {
      SubListMember(h[c], g[c], d);
    }
    if puzzle[i] != "0" {
      SubListOfSingleton(h[c], puzzle[i]);
    }
  }
}
