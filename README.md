# Sudoku naked-single elimination, modelled in Dafny

This project models `sudoku_solver.py`, a small Python 2 Sudoku solver.
It has three parts:

- **`set_grid`** builds the solver's dictionary `elements_values`.
  It maps each cell name `A1`..`I9` (row letter, column digit, row-major) to a list of candidate digits.
  An entry `'0'` gets all nine digits `'1'`..`'9'`; any other entry gets the one-element list holding that entry.
- **`get_all_related`** returns the peers of a cell.
  It adds the cell's column, its row and its 3x3 box to a set, then removes the cell itself.
- **`solve_sudoku`** runs the elimination loop.
  While the total number of candidates exceeds 81, it sweeps every cell in dictionary order.
  A cell with exactly one candidate `d` has `d` popped from the list of every peer that holds it.

Entries, candidates and cell names are strings (`seq<char>`).
The source compares entries with the string `'0'`, and its main block feeds it the whitespace-separated tokens of a file.

Modules, one per part, plus two shared ones:

- `Exceptions` (`exceptions.dfy`): the Python exceptions the code can raise, and a `Result` type.
- `Lists` (`lists.dfy`): `s.index(x)`, `s.pop(i)`, and the sub-list relation that repeated pops produce.
- `Board` (`board.dfy`): cell names and `set_grid`.
- `Peers` (`peers.dfy`): `get_all_related`, and a reference definition of "peer" it is proved equal to.
- `Solver` (`solver.dfy`): `solve_sudoku` as specification functions plus the methods that run its loops.
- `Elimination` (`elimination.dfy`): what one step, one sweep and the whole loop do to the dictionary.

How the Python is represented:

- No two cells share a list object, because `set_grid` builds a fresh list for each key.
  So the dictionary is a `map<string, seq<string>>`, and an in-place `pop` replaces one map entry.
- The dictionary's iteration order is a parameter `order`: each key exactly once, the same on every sweep.
  Python 2 keeps this order fixed while the key set does not change, and the loop never adds or removes keys.
- The peers are a `set`. The method that pops from them picks the next peer arbitrarily.
  Its result is proved independent of the pick.
- A Python exception becomes an `Err` value:
  - `IndexError` when `set_grid` gets more than 81 entries;
  - `IndexError` or `KeyError` from `get_all_related` on a malformed name;
  - `TypeError` when a peer is missing from the dictionary. This happens for a puzzle with fewer than 81 entries: `dict.get` returns `None`, and `d in None` raises.

What the code does not do:

- Entries are strings, and nothing validates them.
  Any entry other than `'0'` becomes a one-element candidate list, so there is no `InvalidInput` error.
  A list of more than 81 entries raises `IndexError`.
- The loop stops when the candidate total is at most 81. It does not stop at a fixpoint.
  Nothing detects an emptied list (`CellStepEmptiesConflict`).
  A sweep that removes nothing repeats forever (`RunStalls`).
- There is no backtracking search and no hidden-single rule.
  No result is claimed to be a solved grid.
  `ExitMeansAllFixed` states what the exit condition does mean: when no list is empty, the total is at most 81 exactly when every cell is fixed.

## Model

| member | source | states |
|---|---|---|
| `Lists.IndexOf` | sudoku_solver.py:214 | `s.index(x)` is a position holding `x`, and no earlier position holds `x` |
| `Lists.PopFirst` | sudoku_solver.py:214 | `s.pop(s.index(x))` leaves a list one shorter, whose multiset is that of `s` minus one `x` |
| `Lists.PopFirstKeeps` | sudoku_solver.py:214 | the pop keeps every element other than `x` |
| `Lists.PopFirstSubList` | sudoku_solver.py:214 | the pop leaves a sub-list; from a duplicate-free list it removes `x` completely and the rest stays duplicate-free |
| `Board.CellName` | sudoku_solver.py:96 | every entry `r + c` of `grid_elements` is a cell name: a row letter `A`..`I` followed by a column digit `1`..`9` |
| `Board.GridElementsAt` | sudoku_solver.py:91-96 | `grid_elements[i]` lies in row `i / 9` and column `i % 9`: its row and column indices give back `i` |
| `Board.GridElementsCover` | sudoku_solver.py:91-96 | every cell name is `grid_elements[i]` for the `i` given by its row and column |
| `Board.GridElementsInjective` | sudoku_solver.py:96 | distinct positions of `grid_elements` hold distinct names |
| `Board.AllCellsMember` | sudoku_solver.py:91-96 | the names in `grid_elements` are exactly a row letter `A`..`I` followed by a column digit `1`..`9` |
| `Board.AllCellsCard` | sudoku_solver.py:96 | `grid_elements` holds 81 distinct names |
| `Board.InitialCandidates` | sudoku_solver.py:103-106 | the list an entry starts with is non-empty and duplicate-free: the entry alone for anything but `'0'`, nine one-character column digits for `'0'` |
| `Board.GridPrefix` | sudoku_solver.py:102-106 | after `n` loop iterations the dictionary's keys are the first `n` names of `grid_elements` |
| `Board.GridPrefixValues` | sudoku_solver.py:102-106 | after `n` iterations each of the first `n` cells holds the candidates of its own entry; no later iteration overwrites it |
| `Board.InitialGrid` | sudoku_solver.py:63-109 | `set_grid` raises `IndexError` exactly when given more than 81 entries; otherwise cell `i` gets `['1',…,'9']` for the entry `'0'` and `[entry]` for anything else |
| `Board.SetGrid` | sudoku_solver.py:91-109 | the loop that fills the dictionary computes `InitialGrid`, including the `IndexError` |
| `Board.InitialGridKeys` | sudoku_solver.py:96-106 | for 81 entries the keys are exactly the 81 cells `A1`..`I9` |
| `Board.InitialGridCandidates` | sudoku_solver.py:96-106 | every list `set_grid` creates is non-empty and duplicate-free, whatever the entries |
| `Peers.BoxRows` | sudoku_solver.py:153-182 | the outer if-chain picks, for a row letter `A`..`I`, three row letters including it, and for any other character none, so no box cell is added |
| `Peers.BoxCols` | sudoku_solver.py:153-182 | the inner if-chains pick, for a column digit `1`..`9`, three column digits including it, and for any other character none |
| `Peers.Added` | sudoku_solver.py:142-182 | for a cell, the names added to `related_elements` include the cell itself and are all cell names |
| `Peers.RelatedOf` | sudoku_solver.py:133-187 | `get_all_related` raises `IndexError` exactly for a name shorter than two characters, `KeyError` when the name is not among those added, and for a cell returns cell names other than the cell itself |
| `Peers.BoxRowsMember` | sudoku_solver.py:153-182 | the if-chain on the row letter picks exactly the three letters in the same third of `A`..`I` |
| `Peers.BoxColsMember` | sudoku_solver.py:153-182 | the inner if-chain on the column digit picks exactly the three digits in the same third of `1`..`9` |
| `Peers.AddedMember` | sudoku_solver.py:144-182 | the names added for a cell are exactly the cells in its column, its row or its box |
| `Peers.RelatedOfCell` | sudoku_solver.py:142-187 | for every cell `e`, `get_all_related` succeeds; `p` is returned iff `p` is a cell other than `e` sharing its row, column or box |
| `Peers.RelatedSymmetric` | sudoku_solver.py:144-185 | `p` is related to `e` iff `e` is related to `p` |
| `Peers.PeerMember` | sudoku_solver.py:43-57 | a peer is in the same row, or in the same column, or in the same box but in neither the row nor the column |
| `Peers.OthersMember` | sudoku_solver.py:43-57 | the row, column and box remainders of a cell hold exactly the cells described for them |
| `Peers.PeersSplit` | sudoku_solver.py:43-57 | the peers of a cell are the union of its row, column and box remainders |
| `Peers.OthersCard` | sudoku_solver.py:43-44 | a cell has 8 other cells in its row, 8 in its column and 4 more in its box |
| `Peers.OthersDisjoint` | sudoku_solver.py:43-57 | the three remainders do not overlap |
| `Peers.PeersCount` | sudoku_solver.py:115-118 | every cell has exactly 20 peers and is not one of them |
| `Peers.GetAllRelated` | sudoku_solver.py:133-187 | the method's loops compute `RelatedOf`, including the `IndexError` and `KeyError` cases |
| `Solver.Total` | sudoku_solver.py:205 | the candidate total the `while` guard compares with 81: the sum of the list lengths over the keys in `order` |
| `Solver.RemoveFromPeers` | sudoku_solver.py:211-214 | the peer loop raises `TypeError` exactly when some peer is missing from the dictionary; otherwise it keeps the keys, leaves every list that is not a peer's or lacks `d` as it was, and takes one `d` from each peer list holding it |
| `Solver.PoppedFrom` | sudoku_solver.py:211-214 | popping from the peers keeps the dictionary's key set |
| `Solver.PoppedFromOneMore` | sudoku_solver.py:211-214 | handling one more peer changes only that peer's list, and only when it holds the digit |
| `Solver.CellStep` | sudoku_solver.py:208-214 | one iteration of the sweep keeps the dictionary's key set |
| `Solver.SweepFrom` | sudoku_solver.py:207-214 | a sweep that does not raise keeps the key set |
| `Solver.Run` | sudoku_solver.py:205-214 | a run of the loop that does not raise keeps the key set |
| `Solver.Solve` | sudoku_solver.py:193-216 | `solve_sudoku` raises `IndexError` for more than 81 entries, and a dictionary that comes back has the keys `set_grid` gave it |
| `Solver.CountCandidates` | sudoku_solver.py:205 | the loop computes the candidate total `Total` that the `while` guard tests |
| `Solver.EliminateFromPeers` | sudoku_solver.py:211-214 | popping `d` from the peers, in any order, gives `RemoveFromPeers`; a peer missing from the dictionary raises `TypeError` |
| `Solver.Sweep` | sudoku_solver.py:207-214 | the loop over the cells in dictionary order computes `SweepFrom` |
| `Solver.Loop` | sudoku_solver.py:205-214 | the `while` loop computes `Run` |
| `Solver.SolveSudoku` | sudoku_solver.py:193-216 | `solve_sudoku` computes `Solve`: `set_grid`, then the loop |
| `Elimination.CellStepFails` | sudoku_solver.py:208-214 | a step raises only when its cell is fixed and one of its peers is missing from the dictionary, and then it raises `TypeError` |
| `Elimination.CellStepUnchanged` | sudoku_solver.py:208-214 | a step changes no list outside the peers of its cell, and none at all when the cell is not fixed; the cell's own list stays |
| `Elimination.CellStepPeers` | sudoku_solver.py:209-214 | a step at a cell fixed to `d` takes exactly one occurrence of `d` from each peer that holds it, and nothing else |
| `Elimination.CellStepEmptiesConflict` | sudoku_solver.py:209-214 | two peers fixed to the same digit are not detected: the step empties the other peer's list |
| `Elimination.CellStepShrinks` | sudoku_solver.py:214 | a step only turns lists into sub-lists and keeps them duplicate-free |
| `Elimination.CellStepClearsPeers` | sudoku_solver.py:209-214 | with duplicate-free lists, right after a fixed cell is handled none of its 20 peers holds its digit, and the cell keeps its list |
| `Elimination.CellStepJustified` | sudoku_solver.py:209-214 | a step removes `d` from `c` only if its cell is a peer of `c` whose list is exactly `[d]` |
| `Elimination.SweepShrinks` | sudoku_solver.py:207-214 | a sweep keeps the key set, only shrinks lists to sub-lists, and keeps them duplicate-free |
| `Elimination.SweepSucceeds` | sudoku_solver.py:207-214 | on a dictionary holding all 81 cells a sweep never raises |
| `Elimination.SweepJustified` | sudoku_solver.py:207-214 | within a sweep, `d` leaves `c` only at the turn of a peer of `c` whose list is exactly `[d]` at that moment |
| `Elimination.TotalShrinks` | sudoku_solver.py:205 | shrinking lists never raises the candidate total, and an equal total means no list changed |
| `Elimination.SweepProgress` | sudoku_solver.py:205-214 | a sweep either strictly lowers the total or changes nothing |
| `Elimination.TotalLowerBound` | sudoku_solver.py:205 | with no empty list, the total is at least the number of cells, and equal to it exactly when every cell is fixed |
| `Elimination.ExitMeansAllFixed` | sudoku_solver.py:205 | on 81 cells with no empty list, the loop guard fails exactly when every cell has one candidate |
| `Elimination.RunReturns` | sudoku_solver.py:205-216 | when the loop returns, at most 81 candidates are left, keys are unchanged, and lists are sub-lists of the originals, still duplicate-free |
| `Elimination.RunNeverRaises` | sudoku_solver.py:205-214 | on a dictionary holding all 81 cells the loop never raises |
| `Elimination.RunStalls` | sudoku_solver.py:205-214 | when a sweep changes nothing and the total exceeds 81, no number of sweeps ends the loop |
| `Elimination.OutOfSweepsIsStuck` | sudoku_solver.py:205-214 | given at least `Total - 81` sweeps, running out of sweeps means the loop is stuck at a dictionary that a sweep leaves unchanged, and it never ends |
| `Elimination.RunFullGrid` | sudoku_solver.py:205-216 | on the 81-cell dictionary with duplicate-free lists the loop never raises; a returned dictionary has the same keys, shrunk duplicate-free lists and at most 81 candidates |
| `Elimination.SolveFullPuzzle` | sudoku_solver.py:193-216 | for 81 entries `solve_sudoku` never raises; the returned dictionary has the 81 cells as keys, each list is a duplicate-free sub-list of its initial list, and at most 81 candidates are left |
| `Elimination.SolveKeepsGivens` | sudoku_solver.py:205-216 | the loop only pops, so every candidate left in a returned cell was one of its initial candidates, and a cell given a digit holds that digit alone or nothing |

## Left out

- The `__main__` block, which reads `sample_puzzle2.txt` and prints the result, is I/O and is not modelled.
- The `print` of the running total inside the `while` loop is I/O and is not modelled.
- `Solver.Loop`: the model allows at most `maxSweeps` sweeps and then reports `OutOfSweeps`. The source's loop need not terminate; the model bounds the number of sweeps so that every member terminates. `Elimination.OutOfSweepsIsStuck` shows that with enough sweeps this outcome occurs only where the source loops forever.
- `Solver.SolveSudoku`: takes the dictionary's iteration order as a parameter. Python 2 leaves it unspecified; no proved property depends on it.
- `Peers.GetAllRelated`: returns a `set`, not the `list(...)` of it. The order of that list is unspecified and the solver only iterates over it.
- `xrange` and the other Python 2 forms carry no behaviour of their own.
