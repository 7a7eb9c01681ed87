/** The word-search matcher of java/4 (PatternMatcher.java, StringTable.java,
  StringPattern.java): a pattern is a set of characters at offsets from a
  start cell, and a cell matches when every one of them is on the table at
  its offset. */
module PatternMatching {
  import opened Wrappers

  datatype Cell = Cell(row: int, col: int)

  /** One character of a pattern and where it lies from the start cell. */
  datatype PatternChar = PatternChar(character: char, rowOffset: int, colOffset: int)

  /** `StringTable`: the lines, their number and the first line's length. */
  datatype StringTable = StringTable(data: seq<string>, rows: nat, cols: nat)
  {
    /** What the constructor sets up. */
    predicate Shaped()
    {
      rows == |data| && rows > 0 && cols == |data[0]|
    }

    /** No line is shorter than the first, so `at` can read every cell `has`
      admits. */
    predicate Readable()
    {
      Shaped() && forall r :: 0 <= r < |data| ==> |data[r]| >= cols
    }

    /** `has`: the cell lies on the table. */
    predicate Has(row: int, col: int)
    {
      0 <= row < rows && 0 <= col < cols
    }

    /** `at`. */
    function At(row: int, col: int): char
      requires Readable() && Has(row, col)
    {
      data[row][col]
    }
  }

  /** The constructor reads the first line, which an empty table does not
    have. */
  function NewStringTable(table: seq<string>): (t: Option<StringTable>)
    ensures t.None? <==> table == []
    ensures t.Some? ==> t.value.Shaped() && t.value.data == table
  {
    if table == [] then None else Some(StringTable(table, |table|, |table[0]|))
  }

  /** The cells of row `row` before column `n`, left to right. */
  function RowCells(row: int, n: nat): (cells: seq<Cell>)
    ensures |cells| == n
  {
    seq(n, j => Cell(row, j))
  }

  lemma RowCellsSnoc(row: int, n: nat)
    ensures RowCells(row, n + 1) == RowCells(row, n) + [Cell(row, n)]
  {
  }

  /** The cells of the first `rows` rows, row by row: the order of
    `cellsIterable`. */
  function AllCells(rows: nat, cols: nat): seq<Cell>
  {
    if rows == 0 then [] else AllCells(rows - 1, cols) + RowCells(rows - 1, cols)
  }

  lemma RowCellsMembers(row: int, n: nat, c: Cell)
    ensures c in RowCells(row, n) <==> c.row == row && 0 <= c.col < n
  {
    if c.row == row && 0 <= c.col < n {
      assert RowCells(row, n)[c.col] == c;
    }
  }

  lemma {:induction false} AllCellsMembers(rows: nat, cols: nat, c: Cell)
    ensures c in AllCells(rows, cols) <==> 0 <= c.row < rows && 0 <= c.col < cols
  {
    if rows > 0 {
      AllCellsMembers(rows - 1, cols, c);
      RowCellsMembers(rows - 1, cols, c);
      assert c in AllCells(rows, cols) <==> c in AllCells(rows - 1, cols) || c in RowCells(rows - 1, cols) by {
        ConcatMember(AllCells(rows - 1, cols), RowCells(rows - 1, cols), c);
      }
    }
  }

  lemma ConcatMember(a: seq<Cell>, b: seq<Cell>, c: Cell)
    ensures c in a + b <==> c in a || c in b
  {
  }

  /** `a` comes before `b` going row by row. */
  predicate Before(a: Cell, b: Cell)
  {
    a.row < b.row || (a.row == b.row && a.col < b.col)
  }

  predicate RowMajor(cells: seq<Cell>)
  {
    forall i, j :: 0 <= i < j < |cells| ==> Before(cells[i], cells[j])
  }

  lemma RowCellsOrdered(row: int, n: nat)
    ensures RowMajor(RowCells(row, n))
    ensures forall c :: c in RowCells(row, n) ==> c.row == row
  {
  }

  lemma {:induction false} AllCellsOrdered(rows: nat, cols: nat)
    ensures RowMajor(AllCells(rows, cols))
  {
    if rows > 0 {
      var before, last := AllCells(rows - 1, cols), RowCells(rows - 1, cols);
      assert AllCells(rows, cols) == before + last;
      AllCellsOrdered(rows - 1, cols);
      RowCellsOrdered(rows - 1, cols);
      forall c | c in before
        ensures c.row < rows - 1
      {
        AllCellsMembers(rows - 1, cols, c);
      }
      OrderedJoin(before, last);
    }
  }

  /** Two ordered runs, all of the first before all of the second, make an
    ordered run. */
  lemma OrderedJoin(a: seq<Cell>, b: seq<Cell>)
    requires RowMajor(a) && RowMajor(b)
    requires forall x, y :: x in a && y in b ==> Before(x, y)
    ensures RowMajor(a + b)
  {
    forall i, j | 0 <= i < j < |a + b|
      ensures Before((a + b)[i], (a + b)[j])
    {
      if j < |a| {
        assert (a + b)[i] == a[i] && (a + b)[j] == a[j];
      } else if i >= |a| {
        assert (a + b)[i] == b[i - |a|] && (a + b)[j] == b[j - |a|];
      } else {
        assert (a + b)[i] in a && (a + b)[j] in b;
      }
    }
  }

  /** `StringPattern`: the set of pattern characters `addChar` grows. */
  class StringPattern {
    var pattern: set<PatternChar>

    constructor()
      ensures pattern == {}
    {
      pattern := {};
    }

    method AddChar(c: char, rowOffset: int, colOffset: int)
      modifies this
      ensures pattern == old(pattern) + {PatternChar(c, rowOffset, colOffset)}
    {
      pattern := pattern + {PatternChar(c, rowOffset, colOffset)};
    }
  }

  /** Pattern character `p` is on the table at its offset from `start`. */
  predicate CharMatches(table: StringTable, p: PatternChar, start: Cell)
    requires table.Readable()
  {
    var row, col := start.row + p.rowOffset, start.col + p.colOffset;
    table.Has(row, col) && p.character == table.At(row, col)
  }

  /** What `matches` decides: every pattern character is in place. */
  predicate MatchesAt(table: StringTable, pattern: set<PatternChar>, start: Cell)
    requires table.Readable()
  {
    forall p :: p in pattern ==> CharMatches(table, p, start)
  }

  /** An empty pattern matches everywhere. */
  lemma EmptyPatternMatches(table: StringTable, start: Cell)
    requires table.Readable()
    ensures MatchesAt(table, {}, start)
  {
  }

  /** The cells of `cells` where the pattern matches, in their order. */
  function Matching(table: StringTable, pattern: set<PatternChar>, cells: seq<Cell>): seq<Cell>
    requires table.Readable()
  {
    if cells == [] then []
    else
      var front := Matching(table, pattern, cells[..|cells| - 1]);
      if MatchesAt(table, pattern, cells[|cells| - 1]) then front + [cells[|cells| - 1]] else front
  }

  lemma {:induction false} MatchingMembers(table: StringTable, pattern: set<PatternChar>, cells: seq<Cell>, c: Cell)
    requires table.Readable()
    ensures c in Matching(table, pattern, cells) <==> c in cells && MatchesAt(table, pattern, c)
  {
    if cells != [] {
      var front := cells[..|cells| - 1];
      MatchingMembers(table, pattern, front, c);
      assert cells == front + [cells[|cells| - 1]];
    }
  }

  /** Filtering keeps the cells' order: a subsequence of an ordered run. */
  lemma {:induction false} MatchingOrdered(table: StringTable, pattern: set<PatternChar>, cells: seq<Cell>)
    requires table.Readable() && RowMajor(cells)
    ensures RowMajor(Matching(table, pattern, cells))
  {
    if cells != [] {
      var front, last := cells[..|cells| - 1], cells[|cells| - 1];
      MatchingOrdered(table, pattern, front);
      if MatchesAt(table, pattern, last) {
        forall x | x in Matching(table, pattern, front)
          ensures Before(x, last)
        {
          MatchingMembers(table, pattern, front, x);
        }
        OrderedJoin(Matching(table, pattern, front), [last]);
      }
    }
  }

  lemma PrefixSnoc(cells: seq<Cell>, k: int)
    requires 0 <= k < |cells|
    ensures cells[..k + 1][..k] == cells[..k] && cells[..k + 1][k] == cells[k]
  {
  }

  /** `PatternMatcher`: the matcher over one table. */
  datatype PatternMatcher = PatternMatcher(table: StringTable)
  {
    /** `cellsIterable`: every cell of the table, row by row. */
    method CellsIterable() returns (cells: seq<Cell>)
      ensures cells == AllCells(table.rows, table.cols)
    {
      cells := [];
      for row := 0 to table.rows
        invariant cells == AllCells(row, table.cols)
      {
        for col := 0 to table.cols
          invariant cells == AllCells(row, table.cols) + RowCells(row, col)
        {
          RowCellsSnoc(row, col);
          cells := cells + [Cell(row, col)];
        }
      }
    }

    /** `matches`: look at each pattern character in turn and stop at the
      first one that is off the table or a different character. */
    method Matches(pattern: StringPattern, start: Cell) returns (b: bool)
      requires table.Readable()
      ensures b <==> MatchesAt(table, pattern.pattern, start)
    {
      var rest := pattern.pattern;
      while rest != {}
        invariant rest <= pattern.pattern
        invariant forall p :: p in pattern.pattern - rest ==> CharMatches(table, p, start)
        decreases |rest|
      {
        var patternChar :| patternChar in rest;
        var row := start.row + patternChar.rowOffset;
        var col := start.col + patternChar.colOffset;
        if !table.Has(row, col) {
          return false;
        }
        if patternChar.character != table.At(row, col) {
          return false;
        }
        rest := rest - {patternChar};
      }
      return true;
    }

    /** `findMatches`: the cells where the pattern matches, row by row. */
    method FindMatches(pattern: StringPattern) returns (matches: seq<Cell>)
      requires table.Readable()
      ensures matches == Matching(table, pattern.pattern, AllCells(table.rows, table.cols))
    {
      matches := [];
      var cells := CellsIterable();
      for k := 0 to |cells|
        invariant matches == Matching(table, pattern.pattern, cells[..k])
      {
        var cell := cells[k];
        PrefixSnoc(cells, k);
        var isMatch := Matches(pattern, cell);
        if isMatch {
          matches := matches + [cell];
        }
      }
      assert cells[..|cells|] == cells;
    }
  }

  /** The matches are exactly the cells on the table where the pattern
    matches, each once, in row-major order. */
  lemma FindMatchesExact(table: StringTable, pattern: set<PatternChar>, c: Cell)
    requires table.Readable()
    ensures c in Matching(table, pattern, AllCells(table.rows, table.cols)) <==>
      (table.Has(c.row, c.col) && MatchesAt(table, pattern, c))
    ensures RowMajor(Matching(table, pattern, AllCells(table.rows, table.cols)))
  {
    MatchingMembers(table, pattern, AllCells(table.rows, table.cols), c);
    AllCellsMembers(table.rows, table.cols, c);
    AllCellsOrdered(table.rows, table.cols);
    MatchingOrdered(table, pattern, AllCells(table.rows, table.cols));
  }
}
