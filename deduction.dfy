/** Constraint propagation (deduce). Each pass rebuilds the candidate table
    Maybe from the grid, prunes the candidates of empty cells in place with
    the box check, and commits the first empty cell left with a lone
    candidate; passes repeat until one commits nothing. */
module Deduction {
  import opened Board
  import opened Wrappers
  import opened State

  /** Maybe[x][y][z] in the C++ layout bool[9][9][10]: index (x * 9 + y) * 10 + z.
      Ascending index is the x-outer, y-middle, z-inner order of every pass. */
  function Flat(x: int, y: int, z: int): (n: nat)
    requires InGrid(x, y) && 0 <= z < 10
    ensures n < 810
  {
    90 * x + 10 * y + z
  }

  /** The cell and value coordinates of table entry n. */
  function TableX(n: int): int { n / 90 }
  function TableY(n: int): int { (n % 90) / 10 }
  function TableZ(n: int): int { n % 10 }

  lemma TableCoordinates(n: int)
    requires 0 <= n < 810
    ensures InGrid(TableX(n), TableY(n)) && 0 <= TableZ(n) < 10
    ensures Flat(TableX(n), TableY(n), TableZ(n)) == n
  {
  }

  lemma FlatInverse(x: int, y: int, z: int)
    requires InGrid(x, y) && 0 <= z < 10
    ensures TableX(Flat(x, y, z)) == x && TableY(Flat(x, y, z)) == y && TableZ(Flat(x, y, z)) == z
  {
    var n := Flat(x, y, z);
    assert n == 90 * x + (10 * y + z) && 0 <= 10 * y + z < 90;
    assert n % 90 == 10 * y + z;
  }

  // ------------------------------------------------------------ first pass

  /** Before pruning: a filled cell has its own value, an empty cell every
      value placeOK admits; index 0 is never a candidate. */
  predicate InitialCandidate(g: Grid, x: int, y: int, z: int)
    requires InGrid(x, y)
  {
    1 <= z <= 9 && (z == Get(g, x, y) || PlaceOK(g, x, y, z))
  }

  lemma InitialCandidates(g: Grid, x: int, y: int, z: int)
    requires InGrid(x, y)
    ensures Get(g, x, y) > 0 ==> (InitialCandidate(g, x, y, z) <==> z == Get(g, x, y) && z <= 9)
    ensures Get(g, x, y) <= 0 ==> (InitialCandidate(g, x, y, z) <==> 1 <= z <= 9 && PlaceOK(g, x, y, z))
  {
  }

  ghost function InitialTable(g: Grid): (t: seq<bool>)
    ensures |t| == 810
  {
    seq(810, n requires 0 <= n < 810 => TableCoordinates(n); InitialCandidate(g, TableX(n), TableY(n), TableZ(n)))
  }

  /** Fill in the initial Maybe values. */
  method FillCandidates(maybe: array<bool>, state: SudokuState)
    requires maybe.Length == 810 && state.Valid()
    modifies maybe
    ensures maybe[..] == InitialTable(state.Cells())
  {
    ghost var t := InitialTable(state.Cells());
    for x := 0 to 9
      invariant forall n :: 0 <= n < 90 * x ==> maybe[n] == t[n]
    {
      for y := 0 to 9
        invariant forall n :: 0 <= n < 90 * x + 10 * y ==> maybe[n] == t[n]
      {
        FillCell(maybe, state, x, y);
        forall n | Flat(x, y, 0) <= n < Flat(x, y, 0) + 10
          ensures maybe[n] == t[n]
        {
          var z := n - Flat(x, y, 0);
          assert n == Flat(x, y, z);
          FlatInverse(x, y, z);
        }
      }
    }
    assert maybe[..] == t;
  }

  /** Fill in the initial Maybe values of cell (x, y): entries 1..9 as
      InitialCandidate says, entry 0 false, the rest of the table as it was. */
  method FillCell(maybe: array<bool>, state: SudokuState, x: int, y: int)
    requires maybe.Length == 810 && state.Valid() && InGrid(x, y)
    modifies maybe
    ensures forall n :: 0 <= n < 810 && (n < Flat(x, y, 0) || Flat(x, y, 0) + 10 <= n) ==> maybe[n] == old(maybe[n])
    ensures forall z :: 0 <= z < 10 ==> maybe[Flat(x, y, z)] == InitialCandidate(state.Cells(), x, y, z)
  {
    for z := 0 to 10
      invariant forall n :: 0 <= n < 810 && (n < Flat(x, y, 0) || Flat(x, y, 0) + 10 <= n) ==> maybe[n] == old(maybe[n])
      invariant forall z2 :: 0 <= z2 < z ==> !maybe[Flat(x, y, z2)]
    {
      maybe[Flat(x, y, z)] := false;
    }
    MarkCandidates(maybe, state, x, y);
  }

  /** With the entries of cell (x, y) all false, set entry z for each value
      z in 1..9 that is the cell's own or that placeOK admits. */
  method MarkCandidates(maybe: array<bool>, state: SudokuState, x: int, y: int)
    requires maybe.Length == 810 && state.Valid() && InGrid(x, y)
    requires forall z :: 0 <= z < 10 ==> !maybe[Flat(x, y, z)]
    modifies maybe
    ensures forall n :: 0 <= n < 810 && (n < Flat(x, y, 0) || Flat(x, y, 0) + 10 <= n) ==> maybe[n] == old(maybe[n])
    ensures forall z :: 0 <= z < 10 ==> maybe[Flat(x, y, z)] == InitialCandidate(state.Cells(), x, y, z)
  {
    for z := 1 to 10
      invariant forall n :: 0 <= n < 810 && (n < Flat(x, y, 0) || Flat(x, y, 0) + 10 <= n) ==> maybe[n] == old(maybe[n])
      invariant forall z2 :: 0 <= z2 < z ==> maybe[Flat(x, y, z2)] == InitialCandidate(state.Cells(), x, y, z2)
      invariant forall z2 :: z <= z2 < 10 ==> !maybe[Flat(x, y, z2)]
    {
      if z == state.GetNum(x, y) {
        maybe[Flat(x, y, z)] := true;
      } else {
        var ok := state.PlaceOK(x, y, z);
        if ok {
          maybe[Flat(x, y, z)] := true;
        }
      }
    }
  }

  // ------------------------------------------------------------ box check

  /** Cell (x2, y2) lies off line `line` (a column when column holds,
      otherwise a row) and still has candidate num. */
  ghost predicate OffLine(t: seq<bool>, x2: int, y2: int, line: int, column: bool, num: int)
    requires |t| == 810 && InGrid(x2, y2) && 0 <= num < 10
  {
    (if column then x2 else y2) != line && t[Flat(x2, y2, num)]
  }

  /** One of the first k cells of the box centred (cx, cy), scanned rows
      outer and columns inner, lies off the line and has candidate num. */
  ghost predicate Scan(t: seq<bool>, line: int, column: bool, cx: int, cy: int, num: int, k: nat)
    requires |t| == 810 && 1 <= cx <= 7 && 1 <= cy <= 7 && 0 <= num < 10 && k <= 9
  {
    k > 0 &&
    (Scan(t, line, column, cx, cy, num, k - 1) || OffLine(t, cx - 1 + (k - 1) % 3, cy - 1 + (k - 1) / 3, line, column, num))
  }

  /** columnCheck: some cell of the box centred (cx, cy) outside column col
      still has candidate num. */
  ghost predicate ColumnCheckSpec(t: seq<bool>, col: int, cx: int, cy: int, num: int)
    requires |t| == 810 && 1 <= cx <= 7 && 1 <= cy <= 7 && 0 <= num < 10
  {
    Scan(t, col, true, cx, cy, num, 9)
  }

  /** rowCheck: some cell of the box centred (cx, cy) outside row row still
      has candidate num. */
  ghost predicate RowCheckSpec(t: seq<bool>, row: int, cx: int, cy: int, num: int)
    requires |t| == 810 && 1 <= cx <= 7 && 1 <= cy <= 7 && 0 <= num < 10
  {
    Scan(t, row, false, cx, cy, num, 9)
  }

  lemma {:induction false} ScanGrows(t: seq<bool>, line: int, column: bool, cx: int, cy: int, num: int, k: nat, j: nat)
    requires |t| == 810 && 1 <= cx <= 7 && 1 <= cy <= 7 && 0 <= num < 10 && k <= j <= 9
    requires Scan(t, line, column, cx, cy, num, k)
    ensures Scan(t, line, column, cx, cy, num, j)
    decreases j
  {
    if j > k {
      ScanGrows(t, line, column, cx, cy, num, k, j - 1);
    }
  }

  /** Scanning one more cell, (x, y), adds exactly that cell. */
  lemma ScanStep(t: seq<bool>, line: int, column: bool, cx: int, cy: int, num: int, x: int, y: int)
    requires |t| == 810 && 1 <= cx <= 7 && 1 <= cy <= 7 && 0 <= num < 10
    requires cx - 1 <= x <= cx + 1 && cy - 1 <= y <= cy + 1
    ensures Scan(t, line, column, cx, cy, num, 3 * (y - cy + 1) + (x - cx + 1) + 1) <==>
            Scan(t, line, column, cx, cy, num, 3 * (y - cy + 1) + (x - cx + 1)) || OffLine(t, x, y, line, column, num)
  {
    var k := 3 * (y - cy + 1) + (x - cx + 1);
    assert k % 3 == x - cx + 1 && k / 3 == y - cy + 1;
  }

  /** The scan of k cells finds exactly the cells before k that qualify. */
  lemma {:induction false} ScanMeaning(t: seq<bool>, line: int, column: bool, cx: int, cy: int, num: int, k: nat)
    requires |t| == 810 && 1 <= cx <= 7 && 1 <= cy <= 7 && 0 <= num < 10 && k <= 9
    ensures Scan(t, line, column, cx, cy, num, k) <==>
      exists j :: 0 <= j < k && OffLine(t, cx - 1 + j % 3, cy - 1 + j / 3, line, column, num)
  {
    if k > 0 {
      ScanMeaning(t, line, column, cx, cy, num, k - 1);
      if !OffLine(t, cx - 1 + (k - 1) % 3, cy - 1 + (k - 1) / 3, line, column, num) {
        forall j | 0 <= j < k && OffLine(t, cx - 1 + j % 3, cy - 1 + j / 3, line, column, num)
          ensures j < k - 1
        {
        }
      }
    }
  }

  /** The column half of boxCheck: the column check passes for the boxes
      three and six rows above and below, skipping centres off the grid. */
  ghost predicate ColumnChecks(t: seq<bool>, x: int, y: int, num: int)
    requires |t| == 810 && InGrid(x, y) && 0 <= num < 10
  {
    var cx, cy := Centre(x), Centre(y);
    && (cy - 6 >= 0 ==> ColumnCheckSpec(t, x, cx, cy - 6, num))
    && (cy - 3 >= 0 ==> ColumnCheckSpec(t, x, cx, cy - 3, num))
    && (cy + 6 < 9 ==> ColumnCheckSpec(t, x, cx, cy + 6, num))
    && (cy + 3 < 9 ==> ColumnCheckSpec(t, x, cx, cy + 3, num))
  }

  /** The row half of boxCheck: the row check passes for the boxes three and
      six columns left and right, skipping centres off the grid. */
  ghost predicate RowChecks(t: seq<bool>, x: int, y: int, num: int)
    requires |t| == 810 && InGrid(x, y) && 0 <= num < 10
  {
    var cx, cy := Centre(x), Centre(y);
    && (cx - 6 >= 0 ==> RowCheckSpec(t, y, cx - 6, cy, num))
    && (cx - 3 >= 0 ==> RowCheckSpec(t, y, cx - 3, cy, num))
    && (cx + 6 < 9 ==> RowCheckSpec(t, y, cx + 6, cy, num))
    && (cx + 3 < 9 ==> RowCheckSpec(t, y, cx + 3, cy, num))
  }

  /** boxCheck: num may stay a candidate at (x, y) only if both halves pass. */
  ghost predicate BoxCheckSpec(t: seq<bool>, x: int, y: int, num: int)
    requires |t| == 810 && InGrid(x, y) && 0 <= num < 10
  {
    ColumnChecks(t, x, y, num) && RowChecks(t, x, y, num)
  }

  /** Some cell of box (bx, band) lies off the line and has candidate num. */
  ghost predicate InBoxOff(t: seq<bool>, bx: int, band: int, line: int, column: bool, num: int)
    requires |t| == 810 && 0 <= num < 10
  {
    exists x2, y2 :: InGrid(x2, y2) && x2 / 3 == bx && y2 / 3 == band && OffLine(t, x2, y2, line, column, num)
  }

  /** Cell j of the scan of box (bx, band) is the cell of the box at
      column offset j % 3 and row offset j / 3. */
  ghost predicate ScanHit(t: seq<bool>, line: int, column: bool, bx: int, band: int, num: int)
    requires |t| == 810 && 0 <= bx < 3 && 0 <= band < 3 && 0 <= num < 10
  {
    exists j :: 0 <= j < 9 && OffLine(t, 3 * bx + j % 3, 3 * band + j / 3, line, column, num)
  }

  lemma ScanHitInBox(t: seq<bool>, line: int, column: bool, bx: int, band: int, num: int)
    requires |t| == 810 && 0 <= bx < 3 && 0 <= band < 3 && 0 <= num < 10
    requires ScanHit(t, line, column, bx, band, num)
    ensures InBoxOff(t, bx, band, line, column, num)
  {
    var j :| 0 <= j < 9 && OffLine(t, 3 * bx + j % 3, 3 * band + j / 3, line, column, num);
    var x2, y2 := 3 * bx + j % 3, 3 * band + j / 3;
    assert x2 / 3 == bx && y2 / 3 == band;
  }

  lemma InBoxScanHit(t: seq<bool>, line: int, column: bool, bx: int, band: int, num: int)
    requires |t| == 810 && 0 <= bx < 3 && 0 <= band < 3 && 0 <= num < 10
    requires InBoxOff(t, bx, band, line, column, num)
    ensures ScanHit(t, line, column, bx, band, num)
  {
    var x2, y2 :| InGrid(x2, y2) && x2 / 3 == bx && y2 / 3 == band && OffLine(t, x2, y2, line, column, num);
    var j := (x2 - 3 * bx) + 3 * (y2 - 3 * band);
    assert j % 3 == x2 - 3 * bx && j / 3 == y2 - 3 * band;
    assert OffLine(t, 3 * bx + j % 3, 3 * band + j / 3, line, column, num);
  }

  /** A full scan of box (bx, band) finds a qualifying cell exactly when the
      box has one. */
  lemma ScanBox(t: seq<bool>, line: int, column: bool, bx: int, band: int, num: int)
    requires |t| == 810 && 0 <= bx < 3 && 0 <= band < 3 && 0 <= num < 10
    ensures Scan(t, line, column, 3 * bx + 1, 3 * band + 1, num, 9) <==> InBoxOff(t, bx, band, line, column, num)
  {
    ScanMeaning(t, line, column, 3 * bx + 1, 3 * band + 1, num, 9);
    assert Scan(t, line, column, 3 * bx + 1, 3 * band + 1, num, 9) <==> ScanHit(t, line, column, bx, band, num);
    if ScanHit(t, line, column, bx, band, num) {
      ScanHitInBox(t, line, column, bx, band, num);
    }
    if InBoxOff(t, bx, band, line, column, num) {
      InBoxScanHit(t, line, column, bx, band, num);
    }
  }

  lemma ColumnChecksMeaning(t: seq<bool>, x: int, y: int, num: int)
    requires |t| == 810 && InGrid(x, y) && 0 <= num < 10
    ensures ColumnChecks(t, x, y, num) <==>
      forall band :: 0 <= band < 3 && band != y / 3 ==> InBoxOff(t, x / 3, band, x, true, num)
  {
    var bx := x / 3;
    assert Centre(x) == 3 * bx + 1;
    ScanBox(t, x, true, bx, 0, num);
    ScanBox(t, x, true, bx, 1, num);
    ScanBox(t, x, true, bx, 2, num);
    var others := forall band :: 0 <= band < 3 && band != y / 3 ==> InBoxOff(t, bx, band, x, true, num);
    if y / 3 == 0 {
      assert Centre(y) == 1;
      assert others <==> InBoxOff(t, bx, 1, x, true, num) && InBoxOff(t, bx, 2, x, true, num);
    } else if y / 3 == 1 {
      assert Centre(y) == 4;
      assert others <==> InBoxOff(t, bx, 0, x, true, num) && InBoxOff(t, bx, 2, x, true, num);
    } else {
      assert Centre(y) == 7;
      assert others <==> InBoxOff(t, bx, 0, x, true, num) && InBoxOff(t, bx, 1, x, true, num);
    }
  }

  lemma RowChecksMeaning(t: seq<bool>, x: int, y: int, num: int)
    requires |t| == 810 && InGrid(x, y) && 0 <= num < 10
    ensures RowChecks(t, x, y, num) <==>
      forall bx :: 0 <= bx < 3 && bx != x / 3 ==> InBoxOff(t, bx, y / 3, y, false, num)
  {
    var band := y / 3;
    assert Centre(y) == 3 * band + 1;
    ScanBox(t, y, false, 0, band, num);
    ScanBox(t, y, false, 1, band, num);
    ScanBox(t, y, false, 2, band, num);
    var others := forall bx :: 0 <= bx < 3 && bx != x / 3 ==> InBoxOff(t, bx, band, y, false, num);
    if x / 3 == 0 {
      assert Centre(x) == 1;
      assert others <==> InBoxOff(t, 1, band, y, false, num) && InBoxOff(t, 2, band, y, false, num);
    } else if x / 3 == 1 {
      assert Centre(x) == 4;
      assert others <==> InBoxOff(t, 0, band, y, false, num) && InBoxOff(t, 2, band, y, false, num);
    } else {
      assert Centre(x) == 7;
      assert others <==> InBoxOff(t, 0, band, y, false, num) && InBoxOff(t, 1, band, y, false, num);
    }
  }

  /** boxCheck holds exactly when each of the other two boxes of the same box
      column has a cell off column x with candidate num, and each of the
      other two boxes of the same box row has a cell off row y with it. */
  lemma BoxCheckMeaning(t: seq<bool>, x: int, y: int, num: int)
    requires |t| == 810 && InGrid(x, y) && 0 <= num < 10
    ensures BoxCheckSpec(t, x, y, num) <==>
      && (forall band :: 0 <= band < 3 && band != y / 3 ==> InBoxOff(t, x / 3, band, x, true, num))
      && (forall bx :: 0 <= bx < 3 && bx != x / 3 ==> InBoxOff(t, bx, y / 3, y, false, num))
  {
    ColumnChecksMeaning(t, x, y, num);
    RowChecksMeaning(t, x, y, num);
  }

  /** Check if num can be in the box centred (cx, cy) other than in column col. */
  method ColumnCheck(maybe: array<bool>, col: int, cx: int, cy: int, num: int) returns (r: bool)
    requires maybe.Length == 810 && 1 <= cx <= 7 && 1 <= cy <= 7 && 0 <= num < 10
    ensures r == ColumnCheckSpec(maybe[..], col, cx, cy, num)
  {
    for y := cy - 1 to cy + 2
      invariant !Scan(maybe[..], col, true, cx, cy, num, 3 * (y - cy + 1))
    {
      for x := cx - 1 to cx + 2
        invariant !Scan(maybe[..], col, true, cx, cy, num, 3 * (y - cy + 1) + (x - cx + 1))
      {
        ScanStep(maybe[..], col, true, cx, cy, num, x, y);
        if x != col && maybe[Flat(x, y, num)] {
          ScanGrows(maybe[..], col, true, cx, cy, num, 3 * (y - cy + 1) + (x - cx + 1) + 1, 9);
          return true;
        }
      }
    }
    return false;
  }

  /** Check if num can be in the box centred (cx, cy) other than in row row. */
  method RowCheck(maybe: array<bool>, row: int, cx: int, cy: int, num: int) returns (r: bool)
    requires maybe.Length == 810 && 1 <= cx <= 7 && 1 <= cy <= 7 && 0 <= num < 10
    ensures r == RowCheckSpec(maybe[..], row, cx, cy, num)
  {
    for y := cy - 1 to cy + 2
      invariant !Scan(maybe[..], row, false, cx, cy, num, 3 * (y - cy + 1))
    {
      for x := cx - 1 to cx + 2
        invariant !Scan(maybe[..], row, false, cx, cy, num, 3 * (y - cy + 1) + (x - cx + 1))
      {
        ScanStep(maybe[..], row, false, cx, cy, num, x, y);
        if y != row && maybe[Flat(x, y, num)] {
          ScanGrows(maybe[..], row, false, cx, cy, num, 3 * (y - cy + 1) + (x - cx + 1) + 1, 9);
          return true;
        }
      }
    }
    return false;
  }

  /** Check num at (x, y) against the other boxes. */
  method BoxCheck(maybe: array<bool>, x: int, y: int, num: int) returns (r: bool)
    requires maybe.Length == 810 && InGrid(x, y) && 0 <= num < 10
    ensures r == BoxCheckSpec(maybe[..], x, y, num)
  {
    var cx := (x / 3) * 3 + 1;
    var cy := (y / 3) * 3 + 1;
    assert cx == Centre(x) && cy == Centre(y) && (cx == 1 || cx == 4 || cx == 7) && (cy == 1 || cy == 4 || cy == 7);
    var cx2, cy2, ok := cx, cy - 6, false;
    if cy2 >= 0 {
      ok := ColumnCheck(maybe, x, cx2, cy2, num);
      if !ok { return false; }
    }
    cy2 := cy - 3;
    if cy2 >= 0 {
      ok := ColumnCheck(maybe, x, cx2, cy2, num);
      if !ok { return false; }
    }
    cy2 := cy + 6;
    if cy2 < 9 {
      ok := ColumnCheck(maybe, x, cx2, cy2, num);
      if !ok { return false; }
    }
    cy2 := cy + 3;
    if cy2 < 9 {
      ok := ColumnCheck(maybe, x, cx2, cy2, num);
      if !ok { return false; }
    }
    cx2, cy2 := cx - 6, cy;
    if cx2 >= 0 {
      ok := RowCheck(maybe, y, cx2, cy2, num);
      if !ok { return false; }
    }
    cx2 := cx - 3;
    if cx2 >= 0 {
      ok := RowCheck(maybe, y, cx2, cy2, num);
      if !ok { return false; }
    }
    cx2 := cx + 6;
    if cx2 < 9 {
      ok := RowCheck(maybe, y, cx2, cy2, num);
      if !ok { return false; }
    }
    cx2 := cx + 3;
    if cx2 < 9 {
      ok := RowCheck(maybe, y, cx2, cy2, num);
      if !ok { return false; }
    }
    return true;
  }

  // ------------------------------------------------------------ pruning

  /** The z loop of the pruning pass over cell (x, y): values 1..z-1 have
      been visited, each candidate replaced in place by boxCheck on the table
      as refined so far. */
  ghost function PrunedValues(p: seq<bool>, x: int, y: int, z: int): (r: seq<bool>)
    requires |p| == 810 && InGrid(x, y) && 1 <= z <= 10
    ensures |r| == 810
    ensures forall x2, y2, z2 :: InGrid(x2, y2) && 0 <= z2 < 10 && r[Flat(x2, y2, z2)] ==> p[Flat(x2, y2, z2)]
    ensures forall x2, y2, z2 :: InGrid(x2, y2) && 0 <= z2 < 10 && (x2 != x || y2 != y || z2 == 0) ==>
      r[Flat(x2, y2, z2)] == p[Flat(x2, y2, z2)]
  {
    if z == 1 then p
    else
      var q := PrunedValues(p, x, y, z - 1);
      if q[Flat(x, y, z - 1)] then
        SetEntry(q, x, y, z - 1, BoxCheckSpec(q, x, y, z - 1));
        q[Flat(x, y, z - 1) := BoxCheckSpec(q, x, y, z - 1)]
      else q
  }

  /** Writing table entry (x, y, z) leaves every other entry as it was. */
  lemma SetEntry(q: seq<bool>, x: int, y: int, z: int, b: bool)
    requires |q| == 810 && InGrid(x, y) && 0 <= z < 10
    ensures forall x2, y2, z2 :: InGrid(x2, y2) && 0 <= z2 < 10 && (x2 != x || y2 != y || z2 != z) ==>
      q[Flat(x, y, z) := b][Flat(x2, y2, z2)] == q[Flat(x2, y2, z2)]
  {
    forall x2, y2, z2 | InGrid(x2, y2) && 0 <= z2 < 10 && (x2 != x || y2 != y || z2 != z)
      ensures q[Flat(x, y, z) := b][Flat(x2, y2, z2)] == q[Flat(x2, y2, z2)]
    {
      FlatInverse(x, y, z);
      FlatInverse(x2, y2, z2);
    }
  }

  /** One cell of the pruning pass: a filled cell is skipped. */
  ghost function PrunedCell(p: seq<bool>, g: Grid, x: int, y: int): (r: seq<bool>)
    requires |p| == 810 && InGrid(x, y)
    ensures |r| == 810
  {
    if Get(g, x, y) > 0 then p else PrunedValues(p, x, y, 10)
  }

  /** The table once the pruning pass has visited every cell with x-index
      below x (x is the outer loop). */
  ghost function PrunedRows(t: seq<bool>, g: Grid, x: int): (r: seq<bool>)
    requires |t| == 810 && 0 <= x <= 9
    ensures |r| == 810
    decreases 11 * x
  {
    if x == 0 then t else PrunedCols(t, g, x - 1, 9)
  }

  /** The table once the pruning pass has also visited cells (x, 0)..(x, y-1). */
  ghost function PrunedCols(t: seq<bool>, g: Grid, x: int, y: int): (r: seq<bool>)
    requires |t| == 810 && 0 <= x < 9 && 0 <= y <= 9
    ensures |r| == 810
    decreases 11 * x + y + 1
  {
    if y == 0 then PrunedRows(t, g, x) else PrunedCell(PrunedCols(t, g, x, y - 1), g, x, y - 1)
  }

  /** The table the whole pruning pass leaves. */
  ghost function Pruned(t: seq<bool>, g: Grid): (r: seq<bool>)
    requires |t| == 810
    ensures |r| == 810
  {
    PrunedRows(t, g, 9)
  }

  /** Entry (x2, y2, z2) is one the pruning pass may change: a value index
      1..9 of an empty cell. */
  ghost predicate Visited(g: Grid, x2: int, y2: int, z2: int)
    requires InGrid(x2, y2)
  {
    z2 != 0 && Get(g, x2, y2) <= 0
  }

  lemma {:induction false} PrunedCellClears(p: seq<bool>, g: Grid, x: int, y: int)
    requires |p| == 810 && InGrid(x, y)
    ensures forall x2, y2, z2 :: InGrid(x2, y2) && 0 <= z2 < 10 && PrunedCell(p, g, x, y)[Flat(x2, y2, z2)] ==>
      p[Flat(x2, y2, z2)]
    ensures forall x2, y2, z2 :: InGrid(x2, y2) && 0 <= z2 < 10 && !Visited(g, x2, y2, z2) ==>
      PrunedCell(p, g, x, y)[Flat(x2, y2, z2)] == p[Flat(x2, y2, z2)]
  {
  }

  /** Pruning only turns candidates off, and only at entries it visits. */
  lemma {:induction false} PrunedRowsClears(t: seq<bool>, g: Grid, x: int)
    requires |t| == 810 && 0 <= x <= 9
    ensures forall x2, y2, z2 :: InGrid(x2, y2) && 0 <= z2 < 10 && PrunedRows(t, g, x)[Flat(x2, y2, z2)] ==>
      t[Flat(x2, y2, z2)]
    ensures forall x2, y2, z2 :: InGrid(x2, y2) && 0 <= z2 < 10 && !Visited(g, x2, y2, z2) ==>
      PrunedRows(t, g, x)[Flat(x2, y2, z2)] == t[Flat(x2, y2, z2)]
    decreases 11 * x
  {
    if x > 0 {
      PrunedColsClears(t, g, x - 1, 9);
    }
  }

  lemma {:induction false} PrunedColsClears(t: seq<bool>, g: Grid, x: int, y: int)
    requires |t| == 810 && 0 <= x < 9 && 0 <= y <= 9
    ensures forall x2, y2, z2 :: InGrid(x2, y2) && 0 <= z2 < 10 && PrunedCols(t, g, x, y)[Flat(x2, y2, z2)] ==>
      t[Flat(x2, y2, z2)]
    ensures forall x2, y2, z2 :: InGrid(x2, y2) && 0 <= z2 < 10 && !Visited(g, x2, y2, z2) ==>
      PrunedCols(t, g, x, y)[Flat(x2, y2, z2)] == t[Flat(x2, y2, z2)]
    decreases 11 * x + y + 1
  {
    if y == 0 {
      PrunedRowsClears(t, g, x);
    } else {
      PrunedColsClears(t, g, x, y - 1);
      PrunedCellClears(PrunedCols(t, g, x, y - 1), g, x, y - 1);
    }
  }

  /** The z loop of the pruning pass over one empty cell. */
  method PruneCell(maybe: array<bool>, x: int, y: int)
    requires maybe.Length == 810 && InGrid(x, y)
    modifies maybe
    ensures maybe[..] == PrunedValues(old(maybe[..]), x, y, 10)
  {
    ghost var p := maybe[..];
    for z := 1 to 10
      invariant maybe[..] == PrunedValues(p, x, y, z)
    {
      if maybe[Flat(x, y, z)] {
        var b := BoxCheck(maybe, x, y, z);
        maybe[Flat(x, y, z)] := b;
      }
    }
  }

  /** Eliminate incompatible Maybe values, in place, x outer and y inner. */
  method PruneCandidates(maybe: array<bool>, state: SudokuState)
    requires maybe.Length == 810 && state.Valid()
    modifies maybe
    ensures maybe[..] == Pruned(old(maybe[..]), state.Cells())
  {
    ghost var t := maybe[..];
    ghost var g := state.Cells();
    for x := 0 to 9
      invariant maybe[..] == PrunedRows(t, g, x)
    {
      for y := 0 to 9
        invariant maybe[..] == PrunedCols(t, g, x, y)
      {
        ghost var before := maybe[..];
        state.GetNumCell(x, y);
        if state.GetNum(x, y) <= 0 {
          PruneCell(maybe, x, y);
        }
        assert maybe[..] == PrunedCell(before, g, x, y);
      }
    }
  }

  // ------------------------------------------------------------ commit

  datatype Commit = Commit(x: int, y: int, v: int)

  /** Number of candidates among values 1..z-1 of cell (x, y). */
  ghost function CandidateCount(t: seq<bool>, x: int, y: int, z: int): (c: nat)
    requires |t| == 810 && InGrid(x, y) && 1 <= z <= 10
    ensures c < z
  {
    if z == 1 then 0 else CandidateCount(t, x, y, z - 1) + (if t[Flat(x, y, z - 1)] then 1 else 0)
  }

  /** The largest candidate below z, or 0 when there is none. */
  ghost function LastCandidate(t: seq<bool>, x: int, y: int, z: int): (v: int)
    requires |t| == 810 && InGrid(x, y) && 1 <= z <= 10
    ensures 0 <= v < z
  {
    if z == 1 then 0 else if t[Flat(x, y, z - 1)] then z - 1 else LastCandidate(t, x, y, z - 1)
  }

  lemma {:induction false} NoCandidate(t: seq<bool>, x: int, y: int, z: int)
    requires |t| == 810 && InGrid(x, y) && 1 <= z <= 10 && CandidateCount(t, x, y, z) == 0
    ensures forall w :: 1 <= w < z ==> !t[Flat(x, y, w)]
  {
    if z > 1 {
      NoCandidate(t, x, y, z - 1);
    }
  }

  /** A lone candidate is a true candidate, and the only one. */
  lemma {:induction false} LoneCandidate(t: seq<bool>, x: int, y: int, z: int)
    requires |t| == 810 && InGrid(x, y) && 1 <= z <= 10 && CandidateCount(t, x, y, z) == 1
    ensures 1 <= LastCandidate(t, x, y, z) < z && t[Flat(x, y, LastCandidate(t, x, y, z))]
    ensures forall w :: 1 <= w < z && t[Flat(x, y, w)] ==> w == LastCandidate(t, x, y, z)
  {
    if t[Flat(x, y, z - 1)] {
      NoCandidate(t, x, y, z - 1);
    } else {
      LoneCandidate(t, x, y, z - 1);
    }
  }

  /** Cell (x, y) is empty and has exactly one candidate. */
  ghost predicate IsLone(t: seq<bool>, g: Grid, x: int, y: int)
    requires |t| == 810 && InGrid(x, y)
  {
    Get(g, x, y) <= 0 && CandidateCount(t, x, y, 10) == 1
  }

  /** Scan order of the commit pass: x outer, y inner. */
  predicate Before(x1: int, y1: int, x2: int, y2: int) {
    x1 < x2 || (x1 == x2 && y1 < y2)
  }

  /** The first lone-candidate cell at or after scan position (x, y), with
      its value; position (x, 9) is the start of x + 1. */
  ghost function FirstLone(t: seq<bool>, g: Grid, x: int, y: int): (r: Option<Commit>)
    requires |t| == 810 && 0 <= x <= 9 && 0 <= y <= 9
    ensures r.Some? ==> var c := r.value;
      InGrid(c.x, c.y) && IsLone(t, g, c.x, c.y) && 1 <= c.v <= 9 && t[Flat(c.x, c.y, c.v)]
    decreases 9 - x, 9 - y
  {
    if x == 9 then None
    else if y == 9 then FirstLone(t, g, x + 1, 0)
    else if IsLone(t, g, x, y) then
      LoneCandidate(t, x, y, 10);
      Some(Commit(x, y, LastCandidate(t, x, y, 10)))
    else FirstLone(t, g, x, y + 1)
  }

  /** The scan finds nothing exactly when no cell from (x, y) on is lone;
      otherwise it finds the first lone cell in scan order, with the only
      candidate that cell has. */
  lemma {:induction false} FirstLoneMeaning(t: seq<bool>, g: Grid, x: int, y: int)
    requires |t| == 810 && 0 <= x <= 9 && 0 <= y <= 9
    ensures FirstLone(t, g, x, y).None? <==>
      forall x2, y2 :: InGrid(x2, y2) && !Before(x2, y2, x, y) ==> !IsLone(t, g, x2, y2)
    ensures FirstLone(t, g, x, y).Some? ==> var c := FirstLone(t, g, x, y).value;
      && !Before(c.x, c.y, x, y)
      && (forall x2, y2 :: InGrid(x2, y2) && !Before(x2, y2, x, y) && Before(x2, y2, c.x, c.y) ==> !IsLone(t, g, x2, y2))
      && (forall w :: 1 <= w <= 9 && t[Flat(c.x, c.y, w)] ==> w == c.v)
    decreases 9 - x, 9 - y
  {
    if x == 9 {
    } else if y == 9 {
      FirstLoneMeaning(t, g, x + 1, 0);
    } else if IsLone(t, g, x, y) {
      LoneCandidate(t, x, y, 10);
    } else {
      FirstLoneMeaning(t, g, x, y + 1);
    }
  }

  lemma FirstLoneStep(t: seq<bool>, g: Grid, x: int, y: int)
    requires |t| == 810 && InGrid(x, y)
    ensures !IsLone(t, g, x, y) ==> FirstLone(t, g, x, y) == FirstLone(t, g, x, y + 1)
    ensures IsLone(t, g, x, y) ==> FirstLone(t, g, x, y) == Some(Commit(x, y, LastCandidate(t, x, y, 10)))
  {
  }

  /** How many candidates cell (x, y) has, and the last of them. */
  method CountCandidates(maybe: array<bool>, x: int, y: int) returns (c: int, i: int)
    requires maybe.Length == 810 && InGrid(x, y)
    ensures c == CandidateCount(maybe[..], x, y, 10) && i == LastCandidate(maybe[..], x, y, 10)
  {
    c, i := 0, 0;
    for z := 1 to 10
      invariant c == CandidateCount(maybe[..], x, y, z) && i == LastCandidate(maybe[..], x, y, z)
    {
      if maybe[Flat(x, y, z)] {
        c := c + 1;
        i := z;
      }
    }
  }

  /** One cell of the commit pass: a blank cell with exactly one
      candidate gets that candidate, and the pass stops (done is false). */
  method CommitCell(maybe: array<bool>, state: SudokuState, x: int, y: int) returns (done: bool)
    requires maybe.Length == 810 && state.Valid() && InGrid(x, y)
    modifies state.grid
    ensures done <==> !IsLone(maybe[..], old(state.Cells()), x, y)
    ensures done ==> state.Cells() == old(state.Cells())
    ensures !done ==> state.Cells() == SetCell(old(state.Cells()), x, y, LastCandidate(maybe[..], x, y, 10))
  {
    done := true;
    state.GetNumCell(x, y);
    if state.GetNum(x, y) <= 0 {
      var c, i := CountCandidates(maybe, x, y);
      if c == 1 {
        state.SetNum(x, y, i);
        done := false;
      }
    }
  }

  /** The inner loop of the commit pass, over the cells (x, 0)..(x, 8). */
  method CommitLoneInColumn(maybe: array<bool>, state: SudokuState, x: int) returns (done: bool)
    requires maybe.Length == 810 && state.Valid() && 0 <= x < 9
    modifies state.grid
    ensures done ==> state.Cells() == old(state.Cells())
    ensures done ==> FirstLone(maybe[..], old(state.Cells()), x, 0) == FirstLone(maybe[..], old(state.Cells()), x + 1, 0)
    ensures !done ==> FirstLone(maybe[..], old(state.Cells()), x, 0).Some?
    ensures !done ==> var c := FirstLone(maybe[..], old(state.Cells()), x, 0).value;
      state.Cells() == SetCell(old(state.Cells()), c.x, c.y, c.v)
  {
    ghost var t := maybe[..];
    ghost var g := state.Cells();
    ghost var first := FirstLone(t, g, x, 0);
    done := true;
    var y := 0;
    while y < 9 && done
      invariant 0 <= y <= 9 && maybe[..] == t && state.Valid()
      invariant done ==> state.Cells() == g
      invariant done ==> first == FirstLone(t, g, x, y)
      invariant !done ==> first.Some? && state.Cells() == SetCell(g, first.value.x, first.value.y, first.value.v)
    {
      FirstLoneStep(t, g, x, y);
      done := CommitCell(maybe, state, x, y);
      y := y + 1;
    }
  }

  /** Lone Maybe values become new grid values: the first one found in
      scan order is written and the scan stops (done becomes false). */
  method CommitLone(maybe: array<bool>, state: SudokuState) returns (done: bool)
    requires maybe.Length == 810 && state.Valid()
    modifies state.grid
    ensures done <==> FirstLone(maybe[..], old(state.Cells()), 0, 0).None?
    ensures done ==> state.Cells() == old(state.Cells())
    ensures !done ==> var c := FirstLone(maybe[..], old(state.Cells()), 0, 0).value;
      state.Cells() == SetCell(old(state.Cells()), c.x, c.y, c.v)
  {
    ghost var t := maybe[..];
    ghost var g := state.Cells();
    ghost var first := FirstLone(t, g, 0, 0);
    done := true;
    var x := 0;
    while x < 9 && done
      invariant 0 <= x <= 9
      invariant done ==> state.Cells() == g
      invariant done ==> first == FirstLone(t, g, x, 0)
      invariant !done ==> first.Some? && state.Cells() == SetCell(g, first.value.x, first.value.y, first.value.v)
    {
      done := CommitLoneInColumn(maybe, state, x);
      x := x + 1;
    }
  }

  // ------------------------------------------------------------ deduce

  /** The cell and value one pass commits, if any. */
  ghost function NextCommit(g: Grid): Option<Commit>
  {
    FirstLone(Pruned(InitialTable(g), g), g, 0, 0)
  }

  /** What one pass commits is a value placeOK admits in an empty cell. */
  lemma CommitIsPlaceable(g: Grid)
    requires NextCommit(g).Some?
    ensures var c := NextCommit(g).value;
      InGrid(c.x, c.y) && 1 <= c.v <= 9 && Get(g, c.x, c.y) <= 0 && PlaceOK(g, c.x, c.y, c.v)
  {
    var t := InitialTable(g);
    var c := NextCommit(g).value;
    assert Pruned(t, g)[Flat(c.x, c.y, c.v)];
    PrunedRowsClears(t, g, 9);
    assert t[Flat(c.x, c.y, c.v)];
    FlatInverse(c.x, c.y, c.v);
    assert InitialCandidate(g, c.x, c.y, c.v);
  }

  /** The grid deduce leaves: passes repeat until one commits nothing. */
  ghost function Deduced(g: Grid): (r: Grid)
    ensures Extends(r, g) && Filled(r) >= Filled(g)
    decreases 81 - Filled(g)
  {
    match NextCommit(g)
    case None => g
    case Some(c) =>
      CommitIsPlaceable(g);
      PlaceFillsOne(g, c.x, c.y, c.v);
      PlaceExtends(g, c.x, c.y, c.v);
      var r := Deduced(SetCell(g, c.x, c.y, c.v));
      ExtendsTrans(r, SetCell(g, c.x, c.y, c.v), g);
      r
  }

  /** deduce writes only values placeOK admits, so a valid grid stays valid. */
  lemma {:induction false} DeducedValid(g: Grid)
    requires Valid(g)
    ensures Valid(Deduced(g))
    decreases 81 - Filled(g)
  {
    match NextCommit(g)
    case None =>
    case Some(c) =>
      CommitIsPlaceable(g);
      PlaceFillsOne(g, c.x, c.y, c.v);
      PlaceKeepsValid(g, c.x, c.y, c.v);
      DeducedValid(SetCell(g, c.x, c.y, c.v));
  }

  /** Where deduce ends, one more pass commits nothing. */
  lemma {:induction false} DeducedIsFixed(g: Grid)
    ensures NextCommit(Deduced(g)).None?
    decreases 81 - Filled(g)
  {
    match NextCommit(g)
    case None =>
    case Some(c) =>
      CommitIsPlaceable(g);
      PlaceFillsOne(g, c.x, c.y, c.v);
      DeducedIsFixed(SetCell(g, c.x, c.y, c.v));
  }

  /** Running deduce on its own output changes nothing. */
  lemma DeducedIdempotent(g: Grid)
    ensures Deduced(Deduced(g)) == Deduced(g)
  {
    DeducedIsFixed(g);
  }

  /** One pass either commits nothing and deduce stops, or commits one
      value and fills one more cell without changing where deduce ends. */
  lemma DeducedStep(g: Grid)
    ensures NextCommit(g).None? ==> Deduced(g) == g
    ensures NextCommit(g).Some? ==> var c := NextCommit(g).value;
      && InGrid(c.x, c.y)
      && Deduced(SetCell(g, c.x, c.y, c.v)) == Deduced(g)
      && Filled(SetCell(g, c.x, c.y, c.v)) == Filled(g) + 1
  {
    if NextCommit(g).Some? {
      var c := NextCommit(g).value;
      CommitIsPlaceable(g);
      PlaceFillsOne(g, c.x, c.y, c.v);
    }
  }

  /** One pass of deduce's loop: fill the candidates, prune them, commit the
      first lone one. */
  method DeducePass(maybe: array<bool>, state: SudokuState) returns (done: bool)
    requires maybe.Length == 810 && state.Valid()
    modifies maybe, state.grid
    ensures done <==> NextCommit(old(state.Cells())).None?
    ensures done ==> state.Cells() == old(state.Cells())
    ensures !done ==> var c := NextCommit(old(state.Cells())).value;
      InGrid(c.x, c.y) && state.Cells() == SetCell(old(state.Cells()), c.x, c.y, c.v)
  {
    FillCandidates(maybe, state);
    PruneCandidates(maybe, state);
    done := CommitLone(maybe, state);
  }

  /** Deduce missing numbers in the grid. */
  method Deduce(state: SudokuState)
    requires state.Valid()
    modifies state.grid
    ensures state.Cells() == Deduced(old(state.Cells()))
  {
    var maybe := new bool[810];
    var done := false;
    while !done
      invariant Deduced(state.Cells()) == Deduced(old(state.Cells()))
      invariant done ==> NextCommit(state.Cells()).None?
      decreases 81 - Filled(state.Cells()), if done then 0 else 1
    {
      ghost var g := state.Cells();
      DeducedStep(g);
      done := DeducePass(maybe, state);
    }
    DeducedStep(state.Cells());
  }
}
