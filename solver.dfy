/**
 `solve_sudoku`: starting from the dictionary `set_grid` builds, it sweeps
 the cells again and again while the total number of candidates exceeds 81.
 A sweep visits every cell in the dictionary's iteration order; a cell with a
 single candidate `d` has `d` popped from the list of each of its peers that
 holds it.

 The candidate lists are never shared between cells, so the dictionary is
 modelled as a map from names to list values, and an in-place `pop` as the
 replacement of one map entry.
 */
module Solver {
  import opened Exceptions
  import opened Lists
  import opened Board
  import opened Peers

  /** Every name in `order` is a key of `g`. */
  predicate InGrid(order: seq<string>, g: Grid)
  {
    forall k :: k in order ==> k in g
  }

  /** `order` is an iteration order of the dictionary: each key exactly once. */
  predicate IsOrder(order: seq<string>, g: Grid)
  {
    NoDup(order) && InGrid(order, g) && forall k :: k in g ==> k in order
  }

  /** Every key of the dictionary is a cell name, as `set_grid` makes them. */
  predicate CellKeys(g: Grid)
  {
    forall k :: k in g ==> IsCell(k)
  }

  /** No candidate list holds a digit twice. */
  predicate AllNoDup(g: Grid)
  {
    forall k :: k in g ==> NoDup(g[k])
  }

  /** Each list of `h` is a sub-list of the list of `g` under the same key,
      and the key sets agree: `h` can be reached from `g` by pops alone. */
  predicate Shrunk(h: Grid, g: Grid)
  {
    h.Keys == g.Keys && forall k :: k in g ==> IsSubList(h[k], g[k])
  }

  /** `sum(len(elements_values[elem]) for elem in elements_values)`, summed
      over the names in `order`. */
  function Total(g: Grid, order: seq<string>): int
    requires InGrid(order, g)
  {
    if order == [] then 0 else |g[order[0]]| + Total(g, order[1..])
  }

  /** The inner loop of a sweep, over the peers `peers` of a cell fixed to
      `d`: a peer missing from the dictionary makes `dict.get` return `None`,
      and `d in None` raises `TypeError`; otherwise every peer holding `d`
      loses one occurrence of it and no other list changes. */
  function RemoveFromPeers(g: Grid, peers: set<string>, d: string): (r: Result<Grid>)
    ensures r.Err? <==> exists p :: p in peers && p !in g
    ensures r.Err? ==> r.error == TypeError
    ensures r.Ok? ==> r.value.Keys == g.Keys
    ensures r.Ok? ==> forall k :: k in g && (k !in peers || d !in g[k]) ==> r.value[k] == g[k]
    ensures r.Ok? ==> forall k :: k in peers && d in g[k] ==>
      multiset(r.value[k]) == multiset(g[k]) - multiset{d}
  {
    if !(peers <= g.Keys) then Err(TypeError) else Ok(PoppedFrom(g, peers, d))
  }

  /** `g` after the first occurrence of `d` is popped from the list of each
      cell of `cells` that holds it. */
  function PoppedFrom(g: Grid, cells: set<string>, d: string): (r: Grid)
    ensures r.Keys == g.Keys
  {
    map k | k in g :: if k in cells && d in g[k] then PopFirst(g[k], d) else g[k]
  }

  /** Handling one more peer `c` pops `d` from the entry of `c`, if it holds
      `d`, and changes nothing else. */
  lemma PoppedFromOneMore(g: Grid, peers: set<string>, remaining: set<string>, d: string, c: string)
    requires c in g && c in remaining && remaining <= peers
    ensures var h := PoppedFrom(g, peers - remaining, d);
      PoppedFrom(g, peers - (remaining - {c}), d) ==
      if d in h[c] then h[c := PopFirst(h[c], d)] else h
  {
    assert peers - (remaining - {c}) == (peers - remaining) + {c};
  }

  /** One iteration of the sweep's `for elem in elements_values` loop. */
  function CellStep(g: Grid, elem: string): (r: Result<Grid>)
    requires elem in g
    ensures r.Ok? ==> r.value.Keys == g.Keys
  {
    var values := g[elem];
    if |values| != 1 then Ok(g)
    else
      match RelatedOf(elem)
      case Err(e) => Err(e)
      case Ok(peers) => RemoveFromPeers(g, peers, values[0])
  }

  /** One pass of the `for elem in elements_values` loop, visiting the cells
      in `order`; the first exception ends it. */
  function SweepFrom(g: Grid, order: seq<string>): (r: Result<Grid>)
    requires InGrid(order, g)
    ensures r.Ok? ==> r.value.Keys == g.Keys
    decreases |order|
  {
    if order == [] then Ok(g)
    else
      match CellStep(g, order[0])
      case Err(e) => Err(e)
      case Ok(g1) => SweepFrom(g1, order[1..])
  }

  /** How a run of the `while` loop ends: it returns the dictionary, it
      raises, or it is still running after the sweeps this model allows. */
  datatype Outcome = Returned(grid: Grid) | Raised(error: Error) | OutOfSweeps(grid: Grid)

  /** The `while` loop, allowed at most `fuel` sweeps: it stops as soon as
      the total number of candidates is at most 81. */
  function Run(g: Grid, order: seq<string>, fuel: nat): (r: Outcome)
    requires InGrid(order, g)
    ensures !r.Raised? ==> r.grid.Keys == g.Keys
    decreases fuel
  {
    if Total(g, order) <= 81 then Returned(g)
    else if fuel == 0 then OutOfSweeps(g)
    else
      match SweepFrom(g, order)
      case Err(e) => Raised(e)
      case Ok(g1) => Run(g1, order, fuel - 1)
  }

  /** One turn of the `while` loop: a sweep that does not raise leaves the
      rest of the run to the swept dictionary. */
  lemma RunUnfold(g: Grid, order: seq<string>, fuel: nat)
    requires InGrid(order, g) && Total(g, order) > 81 && fuel > 0 && SweepFrom(g, order).Ok?
    ensures Run(g, order, fuel) == Run(SweepFrom(g, order).value, order, fuel - 1)
  {
  }

  /** `solve_sudoku(puzzle)`, with the dictionary's iteration order `order`
      and at most `maxSweeps` sweeps: more than 81 entries raise `IndexError`,
      and a dictionary that comes back has the keys `set_grid` gave it. */
  function Solve(puzzle: seq<string>, order: seq<string>, maxSweeps: nat): (r: Outcome)
    requires |puzzle| <= 81 ==> InGrid(order, InitialGrid(puzzle).value)
    ensures |puzzle| > 81 ==> r == Raised(IndexError)
    ensures !r.Raised? ==> |puzzle| <= 81 && r.grid.Keys == InitialGrid(puzzle).value.Keys
  {
    match InitialGrid(puzzle)
    case Err(e) => Raised(e)
    case Ok(g) => Run(g, order, maxSweeps)
  }

  // ---------------------------------------------------------------------
  // The methods, as the source runs them

  /** The running sum the loop guard computes. */
  method CountCandidates(g: Grid, order: seq<string>) returns (n: int)
    requires InGrid(order, g)
    ensures n == Total(g, order)
  {
    n := 0;
    for i := 0 to |order|
      invariant n + Total(g, order[i..]) == Total(g, order)
    {
      assert order[i..][1..] == order[i + 1..];
      n := n + |g[order[i]]|;
    }
    assert order[|order|..] == [];
  }

  /** `for r_elem in related_elements: ...`: pops `d` from every peer that
      holds it, visiting the peers in an unspecified order. */
  method EliminateFromPeers(g: Grid, peers: set<string>, d: string) returns (r: Result<Grid>)
    ensures r == RemoveFromPeers(g, peers, d)
  {
    var elementsValues := g;
    var remaining := peers;
    while remaining != {}
      invariant remaining <= peers
      invariant peers - remaining <= g.Keys
      invariant elementsValues == PoppedFrom(g, peers - remaining, d)
      decreases remaining
    {
      var rElem :| rElem in remaining;
      if rElem !in elementsValues {
        assert !(peers <= g.Keys);
        return Err(TypeError);
      }
      PoppedFromOneMore(g, peers, remaining, d, rElem);
      var relatedElementValues := elementsValues[rElem];
      if d in relatedElementValues {
        elementsValues := elementsValues[rElem := PopFirst(relatedElementValues, d)];
      }
      remaining := remaining - {rElem};
    }
    assert peers - remaining == peers;
    return Ok(elementsValues);
  }

  /** One sweep of the `for elem in elements_values` loop. */
  method Sweep(g: Grid, order: seq<string>) returns (r: Result<Grid>)
    requires InGrid(order, g)
    ensures r == SweepFrom(g, order)
  {
    var elementsValues := g;
    for i := 0 to |order|
      invariant elementsValues.Keys == g.Keys
      invariant SweepFrom(g, order) == SweepFrom(elementsValues, order[i..])
    {
      assert order[i..][1..] == order[i + 1..];
      var elem := order[i];
      var values := elementsValues[elem];
      if |values| == 1 {
        var relatedElements := GetAllRelated(elem);
        if relatedElements.Err? {
          return Err(relatedElements.error);
        }
        var next := EliminateFromPeers(elementsValues, relatedElements.value, values[0]);
        if next.Err? {
          return Err(next.error);
        }
        elementsValues := next.value;
      }
    }
    assert order[|order|..] == [];
    return Ok(elementsValues);
  }

  /** The `while` loop of `solve_sudoku`: sweeps while the total number of
      candidates exceeds 81, giving up after `maxSweeps` sweeps. */
  method Loop(g: Grid, order: seq<string>, maxSweeps: nat) returns (r: Outcome)
    requires InGrid(order, g)
    ensures r == Run(g, order, maxSweeps)
  {
    var elementsValues := g;
    var sweepsLeft := maxSweeps;
    var total := CountCandidates(elementsValues, order);
    while total > 81
      invariant elementsValues.Keys == g.Keys
      invariant total == Total(elementsValues, order)
      invariant Run(g, order, maxSweeps) == Run(elementsValues, order, sweepsLeft)
      decreases sweepsLeft
    {
      assert Total(elementsValues, order) > 81;
      if sweepsLeft == 0 {
        return OutOfSweeps(elementsValues);
      }
      var swept := Sweep(elementsValues, order);
      if swept.Err? {
        assert Run(elementsValues, order, sweepsLeft) == Raised(swept.error);
        return Raised(swept.error);
      }
      RunUnfold(elementsValues, order, sweepsLeft);
      elementsValues := swept.value;
      sweepsLeft := sweepsLeft - 1;
      total := CountCandidates(elementsValues, order);
    }
    return Returned(elementsValues);
  }

  /** `solve_sudoku`: builds the dictionary with `set_grid`, then runs the
      elimination loop on it. */
  method SolveSudoku(puzzle: seq<string>, order: seq<string>, maxSweeps: nat) returns (r: Outcome)
    requires |puzzle| <= 81 ==> IsOrder(order, InitialGrid(puzzle).value)
    ensures r == Solve(puzzle, order, maxSweeps)
  {
    var elementsValues := SetGrid(puzzle);
    if elementsValues.Err? {
      return Raised(elementsValues.error);
    }
    r := Loop(elementsValues.value, order, maxSweeps);
  }
}
