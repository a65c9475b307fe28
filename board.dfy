/** The 81-cell Sudoku grid as a value: row-major storage, the row, column
    and 3x3 box views that SudokuState's counting queries scan, placement
    legality and grid validity. */
module Board {

  /** A grid: 81 cell values, cell (x, y) at index x + 9 * y; 0 is empty. */
  type Grid = g: seq<int> | |g| == 81 witness seq(81, _ => 0)

  predicate InGrid(x: int, y: int) {
    0 <= x < 9 && 0 <= y < 9
  }

  /** Storage index of cell (x, y); it is a bijection onto 0..80. */
  function Idx(x: int, y: int): (i: nat)
    requires InGrid(x, y)
    ensures i < 81 && i % 9 == x && i / 9 == y
  {
    x + 9 * y
  }

  function Get(g: Grid, x: int, y: int): int
    requires InGrid(x, y)
  {
    g[Idx(x, y)]
  }

  /** The grid after setNum(x, y, n): exactly cell (x, y) changes. */
  function SetCell(g: Grid, x: int, y: int, n: int): (r: Grid)
    requires InGrid(x, y)
    ensures Get(r, x, y) == n
    ensures forall x2, y2 :: InGrid(x2, y2) && (x2 != x || y2 != y) ==> Get(r, x2, y2) == Get(g, x2, y2)
  {
    g[Idx(x, y) := n]
  }

  /** Centre coordinate of the box containing coordinate i. */
  function Centre(i: int): int
  {
    (i / 3) * 3 + 1
  }

  /** The row, column and box views, in the order the source scans them. */
  function Row(g: Grid, y: int): (r: seq<int>)
    requires 0 <= y < 9
  {
    seq(9, x requires 0 <= x < 9 => Get(g, x, y))
  }

  function Col(g: Grid, x: int): (r: seq<int>)
    requires 0 <= x < 9
  {
    seq(9, y requires 0 <= y < 9 => Get(g, x, y))
  }

  /** k-th cell of the box scan: rows centre-1..centre+1 outer, columns inner. */
  function BoxX(x: int, k: int): (r: int)
    requires 0 <= x < 9 && 0 <= k < 9
    ensures 0 <= r < 9
  {
    Centre(x) - 1 + k % 3
  }

  function BoxY(y: int, k: int): (r: int)
    requires 0 <= y < 9 && 0 <= k < 9
    ensures 0 <= r < 9
  {
    Centre(y) - 1 + k / 3
  }

  predicate SameBox(x1: int, y1: int, x2: int, y2: int) {
    x1 / 3 == x2 / 3 && y1 / 3 == y2 / 3
  }

  lemma BoxCell(x: int, y: int, k: int)
    requires InGrid(x, y) && 0 <= k < 9
    ensures InGrid(BoxX(x, k), BoxY(y, k)) && SameBox(BoxX(x, k), BoxY(y, k), x, y)
    ensures BoxX(x, k) % 3 == k % 3 && BoxY(y, k) % 3 == k / 3
  {
    var bx, bz := x / 3, y / 3;
    assert BoxX(x, k) == 3 * bx + k % 3;
    assert BoxY(y, k) == 3 * bz + k / 3;
  }

  /** Step (i, j) of the source's box loops is entry 3 * j + i of the scan. */
  lemma BoxScanAt(x: int, y: int, i: int, j: int)
    requires InGrid(x, y) && 0 <= i < 3 && 0 <= j < 3
    ensures BoxX(x, 3 * j + i) == Centre(x) - 1 + i && BoxY(y, 3 * j + i) == Centre(y) - 1 + j
    ensures InGrid(Centre(x) - 1 + i, Centre(y) - 1 + j)
  {
    var k := 3 * j + i;
    assert k % 3 == i && k / 3 == j;
  }

  /** The box scan of numInBox / boxCount visits exactly the nine cells of
      the box containing (x, y), each once. */
  lemma BoxScan(x: int, y: int)
    requires InGrid(x, y)
    ensures forall k :: 0 <= k < 9 ==> InGrid(BoxX(x, k), BoxY(y, k)) && SameBox(BoxX(x, k), BoxY(y, k), x, y)
    ensures forall k1, k2 :: 0 <= k1 < 9 && 0 <= k2 < 9 && k1 != k2 ==>
              BoxX(x, k1) != BoxX(x, k2) || BoxY(y, k1) != BoxY(y, k2)
    ensures forall x2, y2 :: InGrid(x2, y2) && SameBox(x2, y2, x, y) ==>
              BoxX(x, x2 % 3 + 3 * (y2 % 3)) == x2 && BoxY(y, x2 % 3 + 3 * (y2 % 3)) == y2
  {
    forall k | 0 <= k < 9
      ensures InGrid(BoxX(x, k), BoxY(y, k)) && SameBox(BoxX(x, k), BoxY(y, k), x, y)
    {
      BoxCell(x, y, k);
    }
    forall k1, k2 | 0 <= k1 < 9 && 0 <= k2 < 9 && k1 != k2
      ensures BoxX(x, k1) != BoxX(x, k2) || BoxY(y, k1) != BoxY(y, k2)
    {
      BoxCell(x, y, k1);
      BoxCell(x, y, k2);
      assert k1 == 3 * (k1 / 3) + k1 % 3 && k2 == 3 * (k2 / 3) + k2 % 3;
    }
    forall x2, y2 | InGrid(x2, y2) && SameBox(x2, y2, x, y)
      ensures BoxX(x, x2 % 3 + 3 * (y2 % 3)) == x2 && BoxY(y, x2 % 3 + 3 * (y2 % 3)) == y2
    {
      var k := x2 % 3 + 3 * (y2 % 3);
      assert k % 3 == x2 % 3 && k / 3 == y2 % 3;
      assert x2 == 3 * (x2 / 3) + x2 % 3 && y2 == 3 * (y2 / 3) + y2 % 3;
    }
  }

  function Box(g: Grid, x: int, y: int): (r: seq<int>)
    requires InGrid(x, y)
  {
    seq(9, k requires 0 <= k < 9 => Get(g, BoxX(x, k), BoxY(y, k)))
  }

  lemma BoxIndex(g: Grid, x: int, y: int, k: int)
    requires InGrid(x, y) && 0 <= k < 9
    ensures Box(g, x, y)[k] == Get(g, BoxX(x, k), BoxY(y, k))
  {
  }

  /** One step of the box loops of boxCount and numInBox: cell (x2, y2)
      is entry k of the scan. */
  lemma BoxStep(g: Grid, x: int, y: int, x2: int, y2: int, k: int, num: int)
    requires InGrid(x, y)
    requires Centre(x) - 1 <= x2 <= Centre(x) + 1 && Centre(y) - 1 <= y2 <= Centre(y) + 1
    requires k == 3 * (y2 - Centre(y) + 1) + (x2 - Centre(x) + 1)
    ensures InGrid(x2, y2) && 0 <= k < 9
    ensures Filled(Box(g, x, y)[..k + 1]) == Filled(Box(g, x, y)[..k]) + (if Get(g, x2, y2) > 0 then 1 else 0)
    ensures Count(Box(g, x, y)[..k + 1], num) == Count(Box(g, x, y)[..k], num) + (if Get(g, x2, y2) == num then 1 else 0)
  {
    BoxScanAt(x, y, x2 - Centre(x) + 1, y2 - Centre(y) + 1);
    BoxIndex(g, x, y, k);
    FilledSnoc(Box(g, x, y), k);
    CountSnoc(Box(g, x, y), k, num);
  }

  /** Position of a cell of the same box within Box(g, x, y). */
  lemma BoxAt(g: Grid, x: int, y: int, x2: int, y2: int)
    requires InGrid(x, y) && InGrid(x2, y2) && SameBox(x2, y2, x, y)
    ensures Box(g, x, y)[x2 % 3 + 3 * (y2 % 3)] == Get(g, x2, y2)
  {
    BoxScan(x, y);
  }

  /** Number of occurrences of v in s (numInRow / numInCol / numInBox). */
  function Count(s: seq<int>, v: int): (c: nat)
    ensures c <= |s|
  {
    if s == [] then 0 else Count(s[..|s| - 1], v) + (if s[|s| - 1] == v then 1 else 0)
  }

  /** Number of filled (positive) cells of s (gridCount / rowCount / ...). */
  function Filled(s: seq<int>): (c: nat)
    ensures c <= |s|
  {
    if s == [] then 0 else Filled(s[..|s| - 1]) + (if s[|s| - 1] > 0 then 1 else 0)
  }

  lemma CountSnoc(s: seq<int>, k: int, v: int)
    requires 0 <= k < |s|
    ensures Count(s[..k + 1], v) == Count(s[..k], v) + (if s[k] == v then 1 else 0)
  {
    assert s[..k + 1][..k] == s[..k];
  }

  lemma FilledSnoc(s: seq<int>, k: int)
    requires 0 <= k < |s|
    ensures Filled(s[..k + 1]) == Filled(s[..k]) + (if s[k] > 0 then 1 else 0)
  {
    assert s[..k + 1][..k] == s[..k];
  }

  /** A count is zero exactly when the value does not occur. */
  lemma {:induction false} CountZero(s: seq<int>, v: int)
    ensures Count(s, v) == 0 <==> v !in s
  {
    if s != [] {
      CountZero(s[..|s| - 1], v);
      assert s == s[..|s| - 1] + [s[|s| - 1]];
    }
  }

  /** A count of at most one means no two positions hold the value. */
  lemma {:induction false} CountAtMostOne(s: seq<int>, v: int)
    ensures Count(s, v) <= 1 <==> forall i, j :: 0 <= i < j < |s| && s[i] == v ==> s[j] != v
  {
    if s != [] {
      var t := s[..|s| - 1];
      CountAtMostOne(t, v);
      CountZero(t, v);
      if Count(s, v) > 1 {
        if s[|s| - 1] == v {
          assert v in t;
          var i :| 0 <= i < |t| && t[i] == v;
          assert s[i] == v && s[|s| - 1] == v;
        } else {
          var i, j :| 0 <= i < j < |t| && t[i] == v && t[j] == v;
          assert s[i] == v && s[j] == v;
        }
      } else {
        forall i, j | 0 <= i < j < |s| && s[i] == v
          ensures s[j] != v
        {
          if j == |s| - 1 {
            assert t[i] == v;
          } else {
            assert t[i] == v;
          }
        }
      }
    }
  }

  lemma NotTwice(s: seq<int>, v: int, i: int, j: int)
    requires Count(s, v) <= 1 && 0 <= i < |s| && 0 <= j < |s| && i != j && s[i] == v
    ensures s[j] != v
  {
    CountAtMostOne(s, v);
  }

  /** The whole grid has all 81 cells filled exactly when every cell is positive. */
  lemma {:induction false} FilledAll(s: seq<int>)
    ensures Filled(s) == |s| <==> forall i :: 0 <= i < |s| ==> s[i] > 0
  {
    if s != [] {
      FilledAll(s[..|s| - 1]);
      assert forall i :: 0 <= i < |s| - 1 ==> s[..|s| - 1][i] == s[i];
    }
  }

  /** Overwriting one cell changes the filled count by at most that cell. */
  lemma {:induction false} FilledUpdate(s: seq<int>, i: int, n: int)
    requires 0 <= i < |s|
    ensures Filled(s[i := n]) == Filled(s) - (if s[i] > 0 then 1 else 0) + (if n > 0 then 1 else 0)
  {
    var t := s[i := n];
    if i == |s| - 1 {
      assert t[..|t| - 1] == s[..|s| - 1];
    } else {
      FilledUpdate(s[..|s| - 1], i, n);
      assert t[..|t| - 1] == s[..|s| - 1][i := n];
    }
  }

  /** placeOK: the cell is empty and v is absent from its row, column and box. */
  predicate PlaceOK(g: Grid, x: int, y: int, v: int)
    requires InGrid(x, y)
  {
    Get(g, x, y) <= 0 && v !in Row(g, y) && v !in Col(g, x) && v !in Box(g, x, y)
  }

  predicate SameUnit(x1: int, y1: int, x2: int, y2: int) {
    x1 == x2 || y1 == y2 || SameBox(x1, y1, x2, y2)
  }

  predicate InRange(g: Grid) {
    forall i :: 0 <= i < 81 ==> 0 <= g[i] <= 9
  }

  /** A valid grid: cells in 0..9 and no digit shared by two cells of one
      row, column or box. */
  ghost predicate Valid(g: Grid) {
    && InRange(g)
    && forall x1, y1, x2, y2 ::
         (InGrid(x1, y1) && InGrid(x2, y2) && (x1 != x2 || y1 != y2) &&
          SameUnit(x1, y1, x2, y2) && Get(g, x1, y1) != 0) ==> Get(g, x1, y1) != Get(g, x2, y2)
  }

  /** What isValid checks at cell (x, y): the cell is in 0..9 and no digit
      occurs twice in its row, column or box. */
  ghost predicate CellOK(g: Grid, x: int, y: int)
    requires InGrid(x, y)
  {
    && 0 <= Get(g, x, y) <= 9
    && forall v :: 1 <= v <= 9 ==>
         Count(Row(g, y), v) <= 1 && Count(Col(g, x), v) <= 1 && Count(Box(g, x, y), v) <= 1
  }

  /** The counting test at (x1, y1) rules out a clash with any peer cell. */
  lemma CellOKNoClash(g: Grid, x1: int, y1: int, x2: int, y2: int)
    requires InGrid(x1, y1) && InGrid(x2, y2) && (x1 != x2 || y1 != y2)
    requires SameUnit(x1, y1, x2, y2) && Get(g, x1, y1) != 0 && CellOK(g, x1, y1)
    ensures Get(g, x1, y1) != Get(g, x2, y2)
  {
    var v := Get(g, x1, y1);
    if y1 == y2 {
      NotTwice(Row(g, y1), v, x1, x2);
    } else if x1 == x2 {
      NotTwice(Col(g, x1), v, y1, y2);
    } else {
      BoxAt(g, x1, y1, x1, y1);
      BoxAt(g, x1, y1, x2, y2);
      NotTwice(Box(g, x1, y1), v, x1 % 3 + 3 * (y1 % 3), x2 % 3 + 3 * (y2 % 3));
    }
  }

  /** Validity instantiated at two distinct peer cells. */
  lemma ValidPeers(g: Grid, x1: int, y1: int, x2: int, y2: int)
    requires Valid(g) && InGrid(x1, y1) && InGrid(x2, y2) && (x1 != x2 || y1 != y2)
    requires SameUnit(x1, y1, x2, y2) && Get(g, x1, y1) != 0
    ensures Get(g, x1, y1) != Get(g, x2, y2)
  {
  }

  /** In a valid grid no digit occurs twice in row y. */
  lemma ValidRowOnce(g: Grid, y: int, v: int)
    requires Valid(g) && 0 <= y < 9 && 1 <= v <= 9
    ensures Count(Row(g, y), v) <= 1
  {
    var r := Row(g, y);
    forall i, j | 0 <= i < j < 9 && r[i] == v ensures r[j] != v {
      assert r[i] == Get(g, i, y) && r[j] == Get(g, j, y);
      ValidPeers(g, i, y, j, y);
    }
    CountAtMostOne(r, v);
  }

  /** In a valid grid no digit occurs twice in column x. */
  lemma ValidColOnce(g: Grid, x: int, v: int)
    requires Valid(g) && 0 <= x < 9 && 1 <= v <= 9
    ensures Count(Col(g, x), v) <= 1
  {
    var c := Col(g, x);
    forall i, j | 0 <= i < j < 9 && c[i] == v ensures c[j] != v {
      assert c[i] == Get(g, x, i) && c[j] == Get(g, x, j);
      ValidPeers(g, x, i, x, j);
    }
    CountAtMostOne(c, v);
  }

  /** In a valid grid no digit occurs twice in the box of (x, y). */
  lemma ValidBoxOnce(g: Grid, x: int, y: int, v: int)
    requires Valid(g) && InGrid(x, y) && 1 <= v <= 9
    ensures Count(Box(g, x, y), v) <= 1
  {
    var b := Box(g, x, y);
    BoxScan(x, y);
    forall i, j | 0 <= i < j < 9 && b[i] == v ensures b[j] != v {
      assert Get(g, BoxX(x, i), BoxY(y, i)) != Get(g, BoxX(x, j), BoxY(y, j));
    }
    CountAtMostOne(b, v);
  }

  /** In a valid grid the counting test of isValid passes at every cell. */
  lemma ValidCellOK(g: Grid, x: int, y: int)
    requires Valid(g) && InGrid(x, y)
    ensures CellOK(g, x, y)
  {
    forall v | 1 <= v <= 9
      ensures Count(Row(g, y), v) <= 1 && Count(Col(g, x), v) <= 1 && Count(Box(g, x, y), v) <= 1
    {
      ValidRowOnce(g, y, v);
      ValidColOnce(g, x, v);
      ValidBoxOnce(g, x, y, v);
    }
  }

  /** isValid's per-cell counting test over all cells is exactly validity. */
  lemma ValidIffCellsOK(g: Grid)
    ensures Valid(g) <==> forall x, y :: InGrid(x, y) ==> CellOK(g, x, y)
  {
    if forall x, y :: InGrid(x, y) ==> CellOK(g, x, y) {
      forall i | 0 <= i < 81 ensures 0 <= g[i] <= 9 {
        assert CellOK(g, i % 9, i / 9);
      }
      forall x1, y1, x2, y2 |
        InGrid(x1, y1) && InGrid(x2, y2) && (x1 != x2 || y1 != y2) &&
        SameUnit(x1, y1, x2, y2) && Get(g, x1, y1) != 0
        ensures Get(g, x1, y1) != Get(g, x2, y2)
      {
        CellOKNoClash(g, x1, y1, x2, y2);
      }
    }
    if Valid(g) {
      forall x, y | InGrid(x, y) ensures CellOK(g, x, y) {
        ValidCellOK(g, x, y);
      }
    }
  }

  /** Placing a digit that placeOK admits into a valid grid keeps it valid. */
  lemma PlaceKeepsValid(g: Grid, x: int, y: int, v: int)
    requires Valid(g) && InGrid(x, y) && PlaceOK(g, x, y, v) && 1 <= v <= 9
    ensures Valid(SetCell(g, x, y, v))
  {
    var h := SetCell(g, x, y, v);
    forall x2, y2 | InGrid(x2, y2) && (x2 != x || y2 != y) && SameUnit(x, y, x2, y2)
      ensures Get(g, x2, y2) != v
    {
      if y2 == y {
        assert Row(g, y)[x2] == Get(g, x2, y2);
      } else if x2 == x {
        assert Col(g, x)[y2] == Get(g, x2, y2);
      } else {
        BoxAt(g, x, y, x2, y2);
      }
    }
    forall i | 0 <= i < 81 ensures 0 <= h[i] <= 9 {
      assert Get(h, i % 9, i / 9) == h[i];
    }
  }

  /** Placing a positive value into an empty cell fills exactly one more cell. */
  lemma PlaceFillsOne(g: Grid, x: int, y: int, v: int)
    requires InGrid(x, y) && Get(g, x, y) <= 0 && v > 0
    ensures Filled(SetCell(g, x, y, v)) == Filled(g) + 1
  {
    FilledUpdate(g, Idx(x, y), v);
  }

  predicate Complete(g: Grid) {
    forall i :: 0 <= i < 81 ==> g[i] > 0
  }

  /** g keeps every filled cell of h. */
  ghost predicate Extends(g: Grid, h: Grid) {
    forall i :: 0 <= i < 81 && h[i] > 0 ==> g[i] == h[i]
  }

  /** Writing into an empty cell keeps every filled cell. */
  lemma PlaceExtends(g: Grid, x: int, y: int, v: int)
    requires InGrid(x, y) && Get(g, x, y) <= 0
    ensures Extends(SetCell(g, x, y, v), g)
  {
  }

  lemma ExtendsTrans(f: Grid, g: Grid, h: Grid)
    requires Extends(f, g) && Extends(g, h)
    ensures Extends(f, h)
  {
  }

  /** Number of values 1..n-1 that placeOK admits at (x, y). */
  function LegalCount(g: Grid, x: int, y: int, n: int): (c: nat)
    requires InGrid(x, y) && 1 <= n <= 10
    ensures c < n
  {
    if n == 1 then 0 else LegalCount(g, x, y, n - 1) + (if PlaceOK(g, x, y, n - 1) then 1 else 0)
  }
}
