/**
 The peer topology: `get_all_related`, which collects the cells in the same
 column, the same row and the same 3x3 box as a cell and then removes the
 cell itself, and the properties of the result: for every cell it is exactly
 the 20 cells sharing a row, a column or a box, and the relation is symmetric.
 */
module Peers {
  import opened Exceptions
  import opened Lists
  import opened Board

  /** The row letters of the box band that the source's if-chain picks for
      `row`; none for a letter outside A..I. */
  function BoxRows(row: char): (r: seq<char>)
    ensures row in ROWS ==> |r| == 3 && row in r && forall x :: x in r ==> x in ROWS
    ensures row !in ROWS ==> r == []
  {
    if row in ['A', 'B', 'C'] then ['A', 'B', 'C']
    else if row in ['D', 'E', 'F'] then ['D', 'E', 'F']
    else if row in ['G', 'H', 'I'] then ['G', 'H', 'I']
    else []
  }

  /** The column digits of the box stack that the source's if-chain picks
      for `digit`; none for a character outside 1..9. */
  function BoxCols(digit: char): (r: seq<char>)
    ensures digit in COLS ==> |r| == 3 && digit in r && forall x :: x in r ==> x in COLS
    ensures digit !in COLS ==> r == []
  {
    if digit in ['1', '2', '3'] then ['1', '2', '3']
    else if digit in ['4', '5', '6'] then ['4', '5', '6']
    else if digit in ['7', '8', '9'] then ['7', '8', '9']
    else []
  }

  /** Every name `get_all_related` adds for a cell with this row letter and
      column digit: its column, its row and its box. For a cell, the cell
      itself is among them and every name added is a cell. */
  function Added(row: char, digit: char): (r: set<string>)
    ensures row in ROWS && digit in COLS ==> [row, digit] in r && forall x :: x in r ==> IsCell(x)
  {
    var r := Block(ROWS, [digit]) + Block([row], COLS) + Block(BoxRows(row), BoxCols(digit));
    assert row in ROWS && digit in COLS ==> [row, digit] in r && forall x :: x in r ==> IsCell(x) by {
      if row in ROWS && digit in COLS {
        BlockMember([row], COLS, [row, digit]);
        forall x | x in r ensures IsCell(x) {
          BlockMember(ROWS, [digit], x);
          BlockMember([row], COLS, x);
          BlockMember(BoxRows(row), BoxCols(digit), x);
        }
      }
    }
    r
  }

  /** What `get_all_related(element)` returns, as a set: `IndexError` when the
      name is shorter than two characters, `KeyError` when the final `remove`
      does not find the name among those added. For a cell it always
      succeeds, with cells other than the cell itself. */
  function RelatedOf(element: string): (r: Result<set<string>>)
    ensures r == Err(IndexError) <==> |element| < 2
    ensures r.Err? ==> (r.error == KeyError <==> |element| >= 2 && element !in Added(element[0], element[1]))
    ensures IsCell(element) ==> r.Ok? && forall p :: p in r.value ==> IsCell(p) && p != element
  {
    if |element| < 2 then Err(IndexError)
    else
      var added := Added(element[0], element[1]);
      assert IsCell(element) ==> element == [element[0], element[1]];
      if element !in added then Err(KeyError)
      else Ok(added - {element})
  }

  /** The two cells lie in the same 3x3 box. */
  predicate SameBox(p: string, e: string)
    requires |p| == 2 && |e| == 2
  {
    RowIndex(p[0]) / 3 == RowIndex(e[0]) / 3 && ColIndex(p[1]) / 3 == ColIndex(e[1]) / 3
  }

  /** `p` and `e` are distinct cells that share a row, a column or a box. */
  predicate ArePeers(p: string, e: string)
  {
    IsCell(p) && IsCell(e) && p != e && (p[0] == e[0] || p[1] == e[1] || SameBox(p, e))
  }

  /** The peers of `e`: the reference definition the source's result is checked against. */
  function PeersOf(e: string): set<string>
  {
    set p | p in AllCells() && ArePeers(p, e)
  }

  /** The band of a row index: 0 for A..C, 1 for D..F, 2 for G..I. */
  lemma BandOf(k: int)
    requires 0 <= k < 9
    ensures k / 3 == if k < 3 then 0 else if k < 6 then 1 else 2
  {
  }

  lemma BoxRowsMember(row: char, x: char)
    requires row in ROWS
    ensures x in BoxRows(row) <==> x in ROWS && RowIndex(x) / 3 == RowIndex(row) / 3
    ensures |BoxRows(row)| == 3 && NoDup(BoxRows(row)) && row in BoxRows(row)
  {
    RowIndexRange(row);
    RowIndexRange(x);
    BandOf(RowIndex(row));
    if x in ROWS {
      BandOf(RowIndex(x));
    }
  }

  lemma BoxColsMember(digit: char, x: char)
    requires digit in COLS
    ensures x in BoxCols(digit) <==> x in COLS && ColIndex(x) / 3 == ColIndex(digit) / 3
    ensures |BoxCols(digit)| == 3 && NoDup(BoxCols(digit)) && digit in BoxCols(digit)
  {
    ColIndexRange(digit);
    ColIndexRange(x);
    BandOf(ColIndex(digit));
    if x in COLS {
      BandOf(ColIndex(x));
    }
  }

  /** A name added for `e` is a cell in `e`'s column, row or box. */
  lemma AddedMember(e: string, x: string)
    requires IsCell(e)
    ensures x in Added(e[0], e[1]) <==>
      IsCell(x) && (x[1] == e[1] || x[0] == e[0] || SameBox(x, e))
  {
    BlockMember(ROWS, [e[1]], x);
    BlockMember([e[0]], COLS, x);
    BlockMember(BoxRows(e[0]), BoxCols(e[1]), x);
    if |x| == 2 {
      BoxRowsMember(e[0], x[0]);
      BoxColsMember(e[1], x[1]);
    }
  }

  /** For every cell, `get_all_related` succeeds and returns exactly its peers:
      `p` is returned iff `p` is a cell other than `e` in `e`'s row, column or box. */
  lemma RelatedOfCell(e: string)
    requires IsCell(e)
    ensures RelatedOf(e) == Ok(PeersOf(e))
    ensures forall p :: p in RelatedOf(e).value <==> ArePeers(p, e)
  {
    AddedMember(e, e);
    forall x ensures x in Added(e[0], e[1]) - {e} <==> x in PeersOf(e) {
      AddedMember(e, x);
      AllCellsMember(x);
    }
    assert Added(e[0], e[1]) - {e} == PeersOf(e);
    forall p ensures p in PeersOf(e) <==> ArePeers(p, e) {
      AllCellsMember(p);
    }
  }

  /** Being peers is symmetric, so `p` is among the cells related to `e` iff
      `e` is among the cells related to `p`. */
  lemma RelatedSymmetric(p: string, e: string)
    requires IsCell(p) && IsCell(e)
    ensures RelatedOf(e).Ok? && RelatedOf(p).Ok?
    ensures p in RelatedOf(e).value <==> e in RelatedOf(p).value
  {
    RelatedOfCell(e);
    RelatedOfCell(p);
  }

  /** `s` without the occurrences of `x`. */
  function Without(s: seq<char>, x: char): seq<char>
  {
    if s == [] then [] else if s[0] == x then Without(s[1..], x) else [s[0]] + Without(s[1..], x)
  }

  lemma {:induction false} WithoutSpec(s: seq<char>, x: char)
    ensures forall y :: y in Without(s, x) <==> y in s && y != x
    ensures NoDup(s) ==> NoDup(Without(s, x))
    ensures x !in s ==> Without(s, x) == s
    ensures NoDup(s) && x in s ==> |Without(s, x)| == |s| - 1
  {
    if s != [] {
      WithoutSpec(s[1..], x);
      if NoDup(s) {
        assert NoDup(s[1..]);
        assert s[0] !in s[1..];
      }
    }
  }

  /** A peer of `e` is in its row but another column, in its column but
      another row, or in its box but in neither its row nor its column. */
  lemma PeerMember(e: string, x: string)
    requires IsCell(e)
    ensures x in PeersOf(e) <==> (|x| == 2 && (
      || (x[0] == e[0] && x[1] in COLS && x[1] != e[1])
      || (x[0] in ROWS && x[0] != e[0] && x[1] == e[1])
      || (x[0] in BoxRows(e[0]) && x[0] != e[0] && x[1] in BoxCols(e[1]) && x[1] != e[1])))
  {
    AllCellsMember(x);
    if |x| == 2 {
      BoxRowsMember(e[0], x[0]);
      BoxColsMember(e[1], x[1]);
      assert x == e <==> x[0] == e[0] && x[1] == e[1];
    }
  }

  /** The other 8 cells of `e`'s row. */
  function RowOthers(e: string): set<string>
    requires |e| == 2
  {
    Block([e[0]], Without(COLS, e[1]))
  }

  /** The other 8 cells of `e`'s column. */
  function ColOthers(e: string): set<string>
    requires |e| == 2
  {
    Block(Without(ROWS, e[0]), [e[1]])
  }

  /** The 4 cells of `e`'s box in neither its row nor its column. */
  function BoxOthers(e: string): set<string>
    requires |e| == 2
  {
    Block(Without(BoxRows(e[0]), e[0]), Without(BoxCols(e[1]), e[1]))
  }

  lemma OthersMember(e: string, x: string)
    requires IsCell(e)
    ensures x in RowOthers(e) <==> (|x| == 2 && x[0] == e[0] && x[1] in COLS && x[1] != e[1])
    ensures x in ColOthers(e) <==> (|x| == 2 && x[0] in ROWS && x[0] != e[0] && x[1] == e[1])
    ensures x in BoxOthers(e) <==>
      (|x| == 2 && x[0] in BoxRows(e[0]) && x[0] != e[0] && x[1] in BoxCols(e[1]) && x[1] != e[1])
  {
    WithoutSpec(COLS, e[1]);
    WithoutSpec(ROWS, e[0]);
    WithoutSpec(BoxRows(e[0]), e[0]);
    WithoutSpec(BoxCols(e[1]), e[1]);
    BlockMember([e[0]], Without(COLS, e[1]), x);
    BlockMember(Without(ROWS, e[0]), [e[1]], x);
    BlockMember(Without(BoxRows(e[0]), e[0]), Without(BoxCols(e[1]), e[1]), x);
  }

  lemma PeersSplitAt(e: string, x: string)
    requires IsCell(e)
    ensures x in PeersOf(e) <==> x in RowOthers(e) || x in ColOthers(e) || x in BoxOthers(e)
  {
    PeerMember(e, x);
    OthersMember(e, x);
  }

  lemma PeersSplitMembers(e: string)
    requires IsCell(e)
    ensures forall x :: x in PeersOf(e) <==> x in RowOthers(e) || x in ColOthers(e) || x in BoxOthers(e)
  {
    forall x ensures x in PeersOf(e) <==> x in RowOthers(e) || x in ColOthers(e) || x in BoxOthers(e) {
      PeersSplitAt(e, x);
    }
  }

  /** The peers of `e` are its row, column and box remainders. */
  lemma PeersSplit(e: string)
    requires IsCell(e)
    ensures PeersOf(e) == RowOthers(e) + ColOthers(e) + BoxOthers(e)
  {
    PeersSplitMembers(e);
  }

  /** A cell has 8 other cells in its row, 8 in its column and 4 more in its box. */
  lemma OthersCard(e: string)
    requires IsCell(e)
    ensures |RowOthers(e)| == 8 && |ColOthers(e)| == 8 && |BoxOthers(e)| == 4
  {
    NoDupRowsCols();
    BoxRowsMember(e[0], e[0]);
    BoxColsMember(e[1], e[1]);
    WithoutSpec(COLS, e[1]);
    WithoutSpec(ROWS, e[0]);
    WithoutSpec(BoxRows(e[0]), e[0]);
    WithoutSpec(BoxCols(e[1]), e[1]);
    BlockCard([e[0]], Without(COLS, e[1]));
    BlockCard(Without(ROWS, e[0]), [e[1]]);
    BlockCard(Without(BoxRows(e[0]), e[0]), Without(BoxCols(e[1]), e[1]));
  }

  /** The row, column and box remainders of a cell do not overlap. */
  lemma OthersDisjoint(e: string)
    requires IsCell(e)
    ensures RowOthers(e) * ColOthers(e) == {}
    ensures (RowOthers(e) + ColOthers(e)) * BoxOthers(e) == {}
  {
    forall x | x in RowOthers(e) + ColOthers(e) ensures x !in BoxOthers(e) {
      OthersMember(e, x);
    }
    forall x | x in RowOthers(e) ensures x !in ColOthers(e) {
      OthersMember(e, x);
    }
  }

  /** Every cell has exactly 20 peers, and is not one of them. */
  lemma PeersCount(e: string)
    requires IsCell(e)
    ensures |PeersOf(e)| == 20
    ensures e !in PeersOf(e)
  {
    PeersSplit(e);
    OthersCard(e);
    OthersDisjoint(e);
    var r, c, b := RowOthers(e), ColOthers(e), BoxOthers(e);
    assert |r + c| == |r| + |c|;
    assert |r + c + b| == |r + c| + |b|;
    PeerMember(e, e);
  }

  /** The related cells of `e` as `get_all_related` builds them: its column, its
      row and its box added one name at a time, then `e` itself removed. */
  method GetAllRelated(element: string) returns (r: Result<set<string>>)
    ensures r == RelatedOf(element)
  {
    if |element| < 2 {
      return Err(IndexError);
    }
    var row, digit := element[0], element[1];
    var relatedElements: set<string> := {};
    for i := 0 to |ROWS|
      invariant relatedElements == Block(ROWS[..i], [digit])
    {
      assert ROWS[..i + 1][..i] == ROWS[..i];
      assert Line(ROWS[i], [digit]) == {[ROWS[i], digit]} by {
        assert [digit][..0] == [];
      }
      relatedElements := relatedElements + {[ROWS[i], digit]};
    }
    assert ROWS[..|ROWS|] == ROWS;
    var columnPart := relatedElements;
    for j := 0 to |COLS|
      invariant relatedElements == columnPart + Line(row, COLS[..j])
    {
      assert COLS[..j + 1][..j] == COLS[..j];
      relatedElements := relatedElements + {[row, COLS[j]]};
    }
    assert COLS[..|COLS|] == COLS;
    assert Block([row], COLS) == Line(row, COLS);
    var boxRows, boxCols := BoxRows(row), BoxCols(digit);
    var linesPart := relatedElements;
    for a := 0 to |boxRows|
      invariant relatedElements == linesPart + Block(boxRows[..a], boxCols)
    {
      for b := 0 to |boxCols|
        invariant relatedElements == linesPart + Block(boxRows[..a], boxCols) + Line(boxRows[a], boxCols[..b])
      {
        assert boxCols[..b + 1][..b] == boxCols[..b];
        relatedElements := relatedElements + {[boxRows[a], boxCols[b]]};
      }
      assert boxCols[..|boxCols|] == boxCols;
      assert boxRows[..a + 1][..a] == boxRows[..a];
    }
    assert boxRows[..|boxRows|] == boxRows;
    if element !in relatedElements {
      return Err(KeyError);
    }
    relatedElements := relatedElements - {element};
    return Ok(relatedElements);
  }
}
