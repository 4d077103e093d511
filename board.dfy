/**
 The board: row letters A..I, column digits 1..9, the 81 cell names
 `A1`..`I9` in row-major order, and `set_grid`, which turns a row-major
 list of puzzle entries into a dictionary from cell names to candidate lists.
 */
module Board {
  import opened Exceptions
  import opened Lists

  /** The solver's `elements_values`: cell name to list of candidate digits. */
  type Grid = map<string, seq<string>>

  const ROWS: seq<char> := ['A', 'B', 'C', 'D', 'E', 'F', 'G', 'H', 'I']
  const COLS: seq<char> := ['1', '2', '3', '4', '5', '6', '7', '8', '9']

  /** The candidates of a blank cell. */
  const ALL_DIGITS: seq<string> := ["1", "2", "3", "4", "5", "6", "7", "8", "9"]

  /** `grid_elements[i]`: the list of cell names `r + c`, rows outer and
      columns inner, holds at position `i` a cell name: a row letter
      followed by a column digit. */
  function CellName(i: int): (r: string)
    requires 0 <= i < 81
    ensures IsCell(r)
  {
    [ROWS[i / 9], COLS[i % 9]]
  }

  /** A two-character name made of a row letter and a column digit. */
  predicate IsCell(x: string)
  {
    |x| == 2 && x[0] in ROWS && x[1] in COLS
  }

  /** Position of a row letter in A..I (0 for 'A'). */
  function RowIndex(r: char): int
  {
    r as int - 'A' as int
  }

  /** Position of a column digit in 1..9 (0 for '1'). */
  function ColIndex(c: char): int
  {
    c as int - '1' as int
  }

  lemma RowsAt(k: int)
    requires 0 <= k < 9
    ensures RowIndex(ROWS[k]) == k
  {
  }

  lemma ColsAt(k: int)
    requires 0 <= k < 9
    ensures ColIndex(COLS[k]) == k
  {
  }

  lemma RowIndexRange(r: char)
    ensures r in ROWS <==> 0 <= RowIndex(r) < 9
    ensures r in ROWS ==> ROWS[RowIndex(r)] == r
  {
  }

  lemma ColIndexRange(c: char)
    ensures c in COLS <==> 0 <= ColIndex(c) < 9
    ensures c in COLS ==> COLS[ColIndex(c)] == c
  {
  }

  lemma NoDupRowsCols()
    ensures NoDup(ROWS) && NoDup(COLS)
  {
    forall i, j | 0 <= i < j < 9 ensures ROWS[i] != ROWS[j] && COLS[i] != COLS[j] {
      RowsAt(i); RowsAt(j); ColsAt(i); ColsAt(j);
    }
  }

  /** The names `r + c` for each column digit `c` in `cs`. */
  function Line(r: char, cs: seq<char>): set<string>
  {
    if cs == [] then {} else Line(r, cs[..|cs| - 1]) + {[r, cs[|cs| - 1]]}
  }

  /** The names `r + c` for each row letter `r` in `rs` and column digit `c` in `cs`. */
  function Block(rs: seq<char>, cs: seq<char>): set<string>
  {
    if rs == [] then {} else Block(rs[..|rs| - 1], cs) + Line(rs[|rs| - 1], cs)
  }

  lemma {:induction false} LineMember(r: char, cs: seq<char>, x: string)
    ensures x in Line(r, cs) <==> |x| == 2 && x[0] == r && x[1] in cs
  {
    if cs != [] {
      var init, last := cs[..|cs| - 1], cs[|cs| - 1];
      LineMember(r, init, x);
      assert cs == init + [last];
      if |x| == 2 && x[0] == r && x[1] == last {
        assert x == [r, last];
      }
    }
  }

  lemma {:induction false} BlockMember(rs: seq<char>, cs: seq<char>, x: string)
    ensures x in Block(rs, cs) <==> |x| == 2 && x[0] in rs && x[1] in cs
  {
    if rs != [] {
      var init, last := rs[..|rs| - 1], rs[|rs| - 1];
      BlockMember(init, cs, x);
      LineMember(last, cs, x);
      assert rs == init + [last];
    }
  }

  lemma {:induction false} LineCard(r: char, cs: seq<char>)
    requires NoDup(cs)
    ensures |Line(r, cs)| == |cs|
  {
    if cs != [] {
      var init, last := cs[..|cs| - 1], cs[|cs| - 1];
      assert NoDup(init);
      LineCard(r, init);
      LineMember(r, init, [r, last]);
      assert last !in init;
    }
  }

  lemma {:induction false} BlockCard(rs: seq<char>, cs: seq<char>)
    requires NoDup(rs) && NoDup(cs)
    ensures |Block(rs, cs)| == |rs| * |cs|
  {
    if rs != [] {
      var init, last := rs[..|rs| - 1], rs[|rs| - 1];
      assert NoDup(init);
      BlockCard(init, cs);
      LineCard(last, cs);
      assert last !in init;
      forall x | x in Line(last, cs) ensures x !in Block(init, cs) {
        LineMember(last, cs, x);
        BlockMember(init, cs, x);
      }
      assert Block(init, cs) * Line(last, cs) == {};
      assert |rs| * |cs| == |init| * |cs| + |cs|;
    }
  }

  /** `grid_elements[i]` is the cell in row `i / 9` and column `i % 9`: its
      row and column indices give back `i` in row-major order. */
  lemma GridElementsAt(i: int)
    requires 0 <= i < 81
    ensures 9 * RowIndex(CellName(i)[0]) + ColIndex(CellName(i)[1]) == i
  {
    RowsAt(i / 9);
    ColsAt(i % 9);
  }

  /** No cell name appears twice in `grid_elements`. */
  lemma GridElementsInjective(i: int, j: int)
    requires 0 <= i < 81 && 0 <= j < 81 && i != j
    ensures CellName(i) != CellName(j)
  {
    GridElementsAt(i);
    GridElementsAt(j);
  }

  lemma GridElementsCover(x: string)
    requires IsCell(x)
    ensures 0 <= 9 * RowIndex(x[0]) + ColIndex(x[1]) < 81
    ensures CellName(9 * RowIndex(x[0]) + ColIndex(x[1])) == x
  {
    RowIndexRange(x[0]);
    ColIndexRange(x[1]);
    var a, b := RowIndex(x[0]), ColIndex(x[1]);
    DivModNine(a, b);
    assert CellName(9 * a + b) == [x[0], x[1]];
  }

  lemma DivModNine(a: int, b: int)
    requires 0 <= a < 9 && 0 <= b < 9
    ensures (9 * a + b) / 9 == a && (9 * a + b) % 9 == b
  {
  }

  lemma GridElementsFresh(n: int)
    requires 0 <= n < 81
    ensures forall i :: 0 <= i < n ==> CellName(i) != CellName(n)
  {
    forall i | 0 <= i < n ensures CellName(i) != CellName(n) {
      GridElementsInjective(i, n);
    }
  }

  lemma CellNamesStep(n: int)
    requires 0 < n <= 81
    ensures (set i | 0 <= i < n :: CellName(i)) == (set i | 0 <= i < n - 1 :: CellName(i)) + {CellName(n - 1)}
  {
  }

  /** The candidate list `set_grid` gives an entry: all nine digits for '0',
      otherwise the entry alone. */
  function InitialCandidates(entry: string): (r: seq<string>)
    ensures r != [] && NoDup(r)
    ensures entry != "0" ==> r == [entry]
    ensures entry == "0" ==> |r| == 9 && forall d :: d in r ==> |d| == 1 && d[0] in COLS
  {
    AllDigitsDistinct();
    if entry == "0" then ALL_DIGITS else [entry]
  }

  /** The dictionary after the first `n` iterations of `set_grid`'s loop: its
      keys are the first `n` cells in row-major order. */
  function GridPrefix(puzzle: seq<string>, n: nat): (r: Grid)
    requires n <= |puzzle| && n <= 81
    ensures r.Keys == set i | 0 <= i < n :: CellName(i)
  {
    if n == 0 then map[]
    else
      CellNamesStep(n);
      GridPrefix(puzzle, n - 1)[CellName(n - 1) := InitialCandidates(puzzle[n - 1])]
  }

  /** After `n` iterations each of the first `n` cells holds the initial
      candidates of its entry: later iterations never overwrite an earlier cell. */
  lemma {:induction false} GridPrefixValues(puzzle: seq<string>, n: nat)
    requires n <= |puzzle| && n <= 81
    ensures forall i :: 0 <= i < n ==>
      CellName(i) in GridPrefix(puzzle, n) && GridPrefix(puzzle, n)[CellName(i)] == InitialCandidates(puzzle[i])
  {
    if n > 0 {
      GridPrefixValues(puzzle, n - 1);
      var g := GridPrefix(puzzle, n - 1);
      var last := CellName(n - 1);
      assert GridPrefix(puzzle, n) == g[last := InitialCandidates(puzzle[n - 1])];
      forall i | 0 <= i < n
        ensures CellName(i) in GridPrefix(puzzle, n) && GridPrefix(puzzle, n)[CellName(i)] == InitialCandidates(puzzle[i])
      {
        if i < n - 1 {
          GridElementsInjective(i, n - 1);
          assert CellName(i) in g && g[CellName(i)] == InitialCandidates(puzzle[i]);
        }
      }
    }
  }

  /** What `set_grid(puzzle)` returns: an `IndexError` for more than 81 entries,
      otherwise the first `|puzzle|` cells in row-major order, each mapped to the
      initial candidates of its entry. */
  function InitialGrid(puzzle: seq<string>): (r: Result<Grid>)
    ensures r.Err? <==> |puzzle| > 81
    ensures r.Err? ==> r.error == IndexError
    ensures r.Ok? ==> r.value.Keys == set i | 0 <= i < |puzzle| :: CellName(i)
    ensures r.Ok? ==> forall i :: 0 <= i < |puzzle| ==>
      r.value[CellName(i)] == if puzzle[i] == "0" then ALL_DIGITS else [puzzle[i]]
  {
    if |puzzle| > 81 then Err(IndexError)
    else
      GridPrefixValues(puzzle, |puzzle|);
      Ok(GridPrefix(puzzle, |puzzle|))
  }

  /** The 81 cell names, the entries of `grid_elements`. */
  function AllCells(): set<string>
  {
    set i | 0 <= i < 81 :: CellName(i)
  }

  /** The names in `grid_elements` are exactly the row-letter, column-digit pairs. */
  lemma AllCellsMember(x: string)
    ensures x in AllCells() <==> IsCell(x)
  {
    if IsCell(x) {
      GridElementsCover(x);
    }
    if x in AllCells() {
      var i :| 0 <= i < 81 && x == CellName(i);
    }
  }

  /** The first `n` positions of `grid_elements` hold `n` distinct names. */
  lemma {:induction false} CellNamesCard(n: int)
    requires 0 <= n <= 81
    ensures |set i | 0 <= i < n :: CellName(i)| == n
  {
    if n > 0 {
      CellNamesCard(n - 1);
      CellNamesStep(n);
      GridElementsFresh(n - 1);
    }
  }

  lemma AllCellsCard()
    ensures |AllCells()| == 81
  {
    CellNamesCard(81);
  }

  lemma AllDigitsDistinct()
    ensures NoDup(ALL_DIGITS)
  {
    NoDupRowsCols();
    forall i, j | 0 <= i < j < 9 ensures ALL_DIGITS[i] != ALL_DIGITS[j] {
      assert ALL_DIGITS[i][0] == COLS[i] && ALL_DIGITS[j][0] == COLS[j];
    }
  }

  /** For a full 81-entry puzzle the keys are exactly the 81 cells. */
  lemma InitialGridKeys(puzzle: seq<string>)
    requires |puzzle| == 81
    ensures InitialGrid(puzzle).Ok?
    ensures InitialGrid(puzzle).value.Keys == AllCells()
    ensures |InitialGrid(puzzle).value| == 81
  {
    var g := InitialGrid(puzzle).value;
    AllCellsCard();
    assert |g| == |g.Keys|;
  }

  /** Whatever the entries, every cell `set_grid` creates holds a non-empty
      list of distinct candidates. */
  lemma InitialGridCandidates(puzzle: seq<string>)
    requires |puzzle| <= 81
    ensures forall k :: k in InitialGrid(puzzle).value ==>
      InitialGrid(puzzle).value[k] != [] && NoDup(InitialGrid(puzzle).value[k])
  {
    var g := InitialGrid(puzzle).value;
    forall k | k in g ensures g[k] != [] && NoDup(g[k]) {
      var i :| 0 <= i < |puzzle| && k == CellName(i);
      assert g[CellName(i)] == if puzzle[i] == "0" then ALL_DIGITS else [puzzle[i]];
      assert g[k] == InitialCandidates(puzzle[i]);
    }
  }

  /** `set_grid`: fills the dictionary entry by entry; `grid_elements[i]`
      raises `IndexError` once `i` passes the 81 cell names. */
  method SetGrid(puzzle: seq<string>) returns (r: Result<Grid>)
    ensures r == InitialGrid(puzzle)
  {
    var gridElements := seq(81, i requires 0 <= i < 81 => CellName(i));
    var elementsValues: Grid := map[];
    for i := 0 to |puzzle|
      invariant i <= 81
      invariant elementsValues == GridPrefix(puzzle, i)
    {
      if i >= |gridElements| {
        assert |puzzle| > 81;
        return Err(IndexError);
      }
      ghost var next := GridPrefix(puzzle, i + 1);
      assert next == elementsValues[CellName(i) := InitialCandidates(puzzle[i])];
      if puzzle[i] == "0" {
        elementsValues := elementsValues[gridElements[i] := ALL_DIGITS];
      } else {
        elementsValues := elementsValues[gridElements[i] := [puzzle[i]]];
      }
    }
    assert InitialGrid(puzzle) == Ok(GridPrefix(puzzle, |puzzle|));
    return Ok(elementsValues);
  }
}
