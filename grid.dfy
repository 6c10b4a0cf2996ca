/** The plant grid of one block: 22 lettered rows of `plantsPerRow` cells, each
    with a display name such as "C4" and a plant id such as "S1-Row3-C4". */
module Grid {
  import opened Wrappers

  const RowCount := 22

  /** The r-th uppercase letter: row 0 is 'A', row 21 is 'V'. */
  function RowLetter(r: nat): char
    requires r < RowCount
  {
    ('A' as int + r) as char
  }

  predicate IsDigit(c: char) {
    '0' <= c <= '9'
  }

  predicate AllDigits(s: string) {
    forall i :: 0 <= i < |s| ==> IsDigit(s[i])
  }

  function Digit(d: nat): char
    requires d < 10
  {
    ('0' as int + d) as char
  }

  function DigitValue(c: char): nat
    requires IsDigit(c)
  {
    c as int - '0' as int
  }

  /** The decimal string of n, as Python's `str` writes a non-negative integer:
      only digits, and a leading zero only for zero itself. */
  function Decimal(n: nat): (s: string)
    ensures |s| >= 1 && AllDigits(s)
    ensures (s[0] == '0') == (n == 0)
  {
    if n < 10 then [Digit(n)] else Decimal(n / 10) + [Digit(n % 10)]
  }

  /** The number a digit string denotes. */
  function Value(s: string): nat
    requires AllDigits(s)
  {
    if s == [] then 0 else Value(s[..|s| - 1]) * 10 + DigitValue(s[|s| - 1])
  }

  lemma DivMod10(a: nat, d: nat)
    requires d < 10
    ensures (a * 10 + d) / 10 == a && (a * 10 + d) % 10 == d
  {
  }

  lemma {:induction false} ValueOfDecimal(n: nat)
    ensures Value(Decimal(n)) == n
  {
    if n >= 10 {
      ValueOfDecimal(n / 10);
      var s := Decimal(n);
      assert s[..|s| - 1] == Decimal(n / 10);
    }
  }

  /** Every canonical digit string (no leading zero unless it is "0") is the
      decimal string of its value. */
  lemma {:induction false} DecimalOfValue(s: string)
    requires |s| >= 1 && AllDigits(s)
    requires s[0] == '0' ==> |s| == 1
    ensures Decimal(Value(s)) == s
  {
    var front := s[..|s| - 1];
    if |s| == 1 {
      assert front == [];
    } else {
      DecimalOfValue(front);
      assert Value(front) != 0;
      var v := Value(s);
      assert v == Value(front) * 10 + DigitValue(s[|s| - 1]);
      DivMod10(Value(front), DigitValue(s[|s| - 1]));
      assert s == front + [s[|s| - 1]];
    }
  }

  /** The display name of cell p of row r: the row letter, then the 1-based
      position in decimal. */
  function CellName(r: nat, p: nat): string
    requires r < RowCount
  {
    [RowLetter(r)] + Decimal(p + 1)
  }

  /** The id of the plant named `name` in row r of the block labelled `blockLabel`. */
  function IdOf(blockLabel: string, r: nat, name: string): string {
    blockLabel + "-Row" + Decimal(r + 1) + "-" + name
  }

  function PlantId(blockLabel: string, r: nat, p: nat): string
    requires r < RowCount
  {
    IdOf(blockLabel, r, CellName(r, p))
  }

  /** Reads a cell name back into its (row, position) pair; accepts exactly the
      names CellName produces. */
  function ParseCellName(name: string): Option<(nat, nat)> {
    if |name| >= 2 && 'A' <= name[0] <= RowLetter(RowCount - 1)
       && AllDigits(name[1..]) && name[1] != '0' && Value(name[1..]) >= 1
    then Some((name[0] as int - 'A' as int, Value(name[1..]) - 1))
    else None
  }

  lemma CellNameRoundTrip(r: nat, p: nat)
    requires r < RowCount
    ensures ParseCellName(CellName(r, p)) == Some((r, p))
  {
    var name := CellName(r, p);
    assert name[1..] == Decimal(p + 1);
    ValueOfDecimal(p + 1);
  }

  lemma ParsedCellName(name: string, r: nat, p: nat)
    requires ParseCellName(name) == Some((r, p))
    ensures r < RowCount && name == CellName(r, p)
  {
    DecimalOfValue(name[1..]);
    assert name == [name[0]] + name[1..];
  }

  /** A digit string followed by a dash starts with the dash exactly when it is empty. */
  lemma DashFirst(a: string, u: string)
    requires AllDigits(a)
    ensures (a + "-" + u)[0] == '-' <==> a == []
  {
    if a != [] {
      assert (a + "-" + u)[0] == a[0];
    }
  }

  /** A digit string followed by a dash splits uniquely. */
  lemma {:induction false} SplitAtDash(a: string, u: string, b: string, v: string)
    requires AllDigits(a) && AllDigits(b)
    requires a + "-" + u == b + "-" + v
    ensures a == b && u == v
  {
    var x, y := a + "-" + u, b + "-" + v;
    DashFirst(a, u);
    DashFirst(b, v);
    if a == [] {
      assert u == x[1..] && v == y[1..];
    } else {
      assert a[0] == x[0] == y[0] == b[0];
      assert x[1..] == a[1..] + "-" + u && y[1..] == b[1..] + "-" + v;
      SplitAtDash(a[1..], u, b[1..], v);
      assert a == [a[0]] + a[1..] && b == [b[0]] + b[1..];
    }
  }

  /** Within one block, an id determines its row and its plant name. */
  lemma IdOfInjective(blockLabel: string, r1: nat, n1: string, r2: nat, n2: string)
    requires IdOf(blockLabel, r1, n1) == IdOf(blockLabel, r2, n2)
    ensures r1 == r2 && n1 == n2
  {
    var prefix := blockLabel + "-Row";
    var s1, s2 := Decimal(r1 + 1) + "-" + n1, Decimal(r2 + 1) + "-" + n2;
    assert IdOf(blockLabel, r1, n1) == prefix + s1 && IdOf(blockLabel, r2, n2) == prefix + s2;
    assert s1 == (prefix + s1)[|prefix|..] && s2 == (prefix + s2)[|prefix|..];
    SplitAtDash(Decimal(r1 + 1), n1, Decimal(r2 + 1), n2);
    ValueOfDecimal(r1 + 1);
    ValueOfDecimal(r2 + 1);
  }

  /** Distinct cells of one block have distinct plant ids. */
  lemma PlantIdInjective(blockLabel: string, r1: nat, p1: nat, r2: nat, p2: nat)
    requires r1 < RowCount && r2 < RowCount
    requires PlantId(blockLabel, r1, p1) == PlantId(blockLabel, r2, p2)
    ensures r1 == r2 && p1 == p2
  {
    IdOfInjective(blockLabel, r1, CellName(r1, p1), r2, CellName(r2, p2));
    CellNameRoundTrip(r1, p1);
    CellNameRoundTrip(r2, p2);
  }

  /** One button of the grid: the row index it records, its name and its key. */
  datatype Cell = Cell(rowIndex: nat, name: string, id: string)

  function CellAt(blockLabel: string, r: nat, p: nat): Cell
    requires r < RowCount
  {
    Cell(r, CellName(r, p), PlantId(blockLabel, r, p))
  }

  /** The number of cells in a grid of rows. */
  function CellCount(grid: seq<seq<Cell>>): nat {
    if grid == [] then 0 else CellCount(grid[..|grid| - 1]) + |grid[|grid| - 1]|
  }

  lemma {:induction false} CellCountUniform(grid: seq<seq<Cell>>, n: nat)
    requires forall i :: 0 <= i < |grid| ==> |grid[i]| == n
    ensures CellCount(grid) == |grid| * n
  {
    if grid != [] {
      CellCountUniform(grid[..|grid| - 1], n);
      assert (|grid| - 1) * n + n == |grid| * n;
    }
  }

  /** Builds the cells of the block labelled `blockLabel`, row by row. */
  method BuildGrid(blockLabel: string, plantsPerRow: nat) returns (grid: seq<seq<Cell>>)
    requires plantsPerRow >= 1
    ensures |grid| == RowCount
    ensures forall r :: 0 <= r < RowCount ==> |grid[r]| == plantsPerRow
    ensures forall r, p :: 0 <= r < RowCount && 0 <= p < plantsPerRow ==>
      grid[r][p] == CellAt(blockLabel, r, p) && ParseCellName(grid[r][p].name) == Some((r, p))
    ensures CellCount(grid) == RowCount * plantsPerRow
    ensures forall r1, p1, r2, p2 ::
      0 <= r1 < |grid| && 0 <= p1 < |grid[r1]| && 0 <= r2 < |grid| && 0 <= p2 < |grid[r2]| &&
      grid[r1][p1].id == grid[r2][p2].id
      ==> r1 == r2 && p1 == p2
  {
    grid := [];
    var r := 0;
    while r < RowCount
      invariant 0 <= r <= RowCount && |grid| == r
      invariant forall i :: 0 <= i < r ==> |grid[i]| == plantsPerRow
      invariant forall i, p :: 0 <= i < r && 0 <= p < plantsPerRow ==> grid[i][p] == CellAt(blockLabel, i, p)
    {
      var row := [];
      var p := 0;
      while p < plantsPerRow
        invariant 0 <= p <= plantsPerRow && |row| == p
        invariant forall j :: 0 <= j < p ==> row[j] == CellAt(blockLabel, r, j)
      {
        row := row + [CellAt(blockLabel, r, p)];
        p := p + 1;
      }
      grid := grid + [row];
      r := r + 1;
    }
    CellCountUniform(grid, plantsPerRow);
    forall r, p | 0 <= r < RowCount && 0 <= p < plantsPerRow
      ensures ParseCellName(grid[r][p].name) == Some((r, p))
    {
      CellNameRoundTrip(r, p);
    }
    forall r1, p1, r2, p2 |
      0 <= r1 < |grid| && 0 <= p1 < |grid[r1]| && 0 <= r2 < |grid| && 0 <= p2 < |grid[r2]| &&
      grid[r1][p1].id == grid[r2][p2].id
      ensures r1 == r2 && p1 == p2
    {
      PlantIdInjective(blockLabel, r1, p1, r2, p2);
    }
  }
}
