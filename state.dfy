/** SudokuState: a mutable 81-cell grid with a heuristic value. The
    counting queries are read-only loops, each proved equal to its pure
    specification in module Board. */
module State {
  import opened Board

  class SudokuState {
    /** The number grid, cell (x, y) at index x + 9 * y. */
    const grid: array<int>
    /** The evaluated value; every value the search assigns is an integer. */
    var value: int

    ghost predicate Valid() {
      grid.Length == 81
    }

    ghost function Cells(): Grid
      reads grid
      requires Valid()
    {
      grid[..]
    }

    /** The empty state: every cell 0, value 0. */
    constructor ()
      ensures Valid() && fresh(grid) && value == 0
      ensures forall i :: 0 <= i < 81 ==> grid[i] == 0
    {
      grid := new int[81];
      value := 0;
      new;
      var i := 0;
      while i < 81
        invariant 0 <= i <= 81 && value == 0
        invariant forall j :: 0 <= j < i ==> grid[j] == 0
      {
        grid[i] := 0;
        i := i + 1;
      }
    }

    function GetNum(x: int, y: int): int
      reads grid
      requires Valid() && InGrid(x, y)
    {
      grid[x + 9 * y]
    }

    /** getNum reads the cell's entry of the grid. */
    lemma GetNumCell(x: int, y: int)
      requires Valid() && InGrid(x, y)
      ensures GetNum(x, y) == Get(Cells(), x, y)
    {
    }

    /** Writes cell (x, y) and nothing else. */
    method SetNum(x: int, y: int, num: int)
      requires Valid() && InGrid(x, y)
      modifies grid
      ensures Cells() == SetCell(old(Cells()), x, y, num)
      ensures GetNum(x, y) == num
      ensures forall x2, y2 :: InGrid(x2, y2) && (x2 != x || y2 != y) ==> GetNum(x2, y2) == old(GetNum(x2, y2))
    {
      grid[x + 9 * y] := num;
    }

    /** How many cells of the grid are filled. */
    method GridCount() returns (c: int)
      requires Valid()
      ensures c == Filled(Cells()) && 0 <= c <= 81
    {
      ghost var g := Cells();
      c := 0;
      var y := 0;
      while y < 9
        invariant 0 <= y <= 9
        invariant c == Filled(g[..9 * y])
      {
        var x := 0;
        while x < 9
          invariant 0 <= x <= 9
          invariant c == Filled(g[..9 * y + x])
        {
          FilledSnoc(g, 9 * y + x);
          if GetNum(x, y) > 0 {
            c := c + 1;
          }
          x := x + 1;
        }
        y := y + 1;
      }
      assert g[..81] == g;
    }

    /** How many cells of row y are filled. */
    method RowCount(y: int) returns (c: int)
      requires Valid() && 0 <= y < 9
      ensures c == Filled(Row(Cells(), y)) && 0 <= c <= 9
    {
      ghost var r := Row(Cells(), y);
      c := 0;
      var x := 0;
      while x < 9
        invariant 0 <= x <= 9
        invariant c == Filled(r[..x])
      {
        FilledSnoc(r, x);
        if GetNum(x, y) > 0 {
          c := c + 1;
        }
        x := x + 1;
      }
      assert r[..9] == r;
    }

    /** How many cells of column x are filled. */
    method ColCount(x: int) returns (c: int)
      requires Valid() && 0 <= x < 9
      ensures c == Filled(Col(Cells(), x)) && 0 <= c <= 9
    {
      ghost var s := Col(Cells(), x);
      c := 0;
      var y := 0;
      while y < 9
        invariant 0 <= y <= 9
        invariant c == Filled(s[..y])
      {
        FilledSnoc(s, y);
        if GetNum(x, y) > 0 {
          c := c + 1;
        }
        y := y + 1;
      }
      assert s[..9] == s;
    }

    /** How many cells of the box containing (x, y) are filled. */
    method BoxCount(x: int, y: int) returns (c: int)
      requires Valid() && InGrid(x, y)
      ensures c == Filled(Box(Cells(), x, y)) && 0 <= c <= 9
    {
      ghost var b := Box(Cells(), x, y);
      var cx := (x / 3) * 3 + 1;
      var cy := (y / 3) * 3 + 1;
      assert cx == Centre(x) && cy == Centre(y);
      c := 0;
      ghost var k := 0;
      var y2 := cy - 1;
      while y2 <= cy + 1
        invariant cy - 1 <= y2 <= cy + 2 && k == 3 * (y2 - cy + 1)
        invariant c == Filled(b[..k])
      {
        var x2 := cx - 1;
        while x2 <= cx + 1
          invariant cx - 1 <= x2 <= cx + 2 && k == 3 * (y2 - cy + 1) + (x2 - cx + 1)
          invariant c == Filled(b[..k])
        {
          BoxStep(Cells(), x, y, x2, y2, k, 0);
          GetNumCell(x2, y2);
          if GetNum(x2, y2) > 0 {
            c := c + 1;
          }
          x2 := x2 + 1;
          k := k + 1;
        }
        y2 := y2 + 1;
      }
      assert b[..9] == b;
    }

    /** Occurrences of num in row y. */
    method NumInRow(y: int, num: int) returns (c: int)
      requires Valid() && 0 <= y < 9
      ensures c == Count(Row(Cells(), y), num) && 0 <= c <= 9
    {
      ghost var r := Row(Cells(), y);
      c := 0;
      var x := 0;
      while x < 9
        invariant 0 <= x <= 9
        invariant c == Count(r[..x], num)
      {
        CountSnoc(r, x, num);
        if GetNum(x, y) == num {
          c := c + 1;
        }
        x := x + 1;
      }
      assert r[..9] == r;
    }

    /** Occurrences of num in column x. */
    method NumInCol(x: int, num: int) returns (c: int)
      requires Valid() && 0 <= x < 9
      ensures c == Count(Col(Cells(), x), num) && 0 <= c <= 9
    {
      ghost var s := Col(Cells(), x);
      c := 0;
      var y := 0;
      while y < 9
        invariant 0 <= y <= 9
        invariant c == Count(s[..y], num)
      {
        CountSnoc(s, y, num);
        if GetNum(x, y) == num {
          c := c + 1;
        }
        y := y + 1;
      }
      assert s[..9] == s;
    }

    /** Occurrences of num in the box containing (x, y). */
    method NumInBox(x: int, y: int, num: int) returns (c: int)
      requires Valid() && InGrid(x, y)
      ensures c == Count(Box(Cells(), x, y), num) && 0 <= c <= 9
    {
      ghost var b := Box(Cells(), x, y);
      var cx := (x / 3) * 3 + 1;
      var cy := (y / 3) * 3 + 1;
      assert cx == Centre(x) && cy == Centre(y);
      c := 0;
      ghost var k := 0;
      var y2 := cy - 1;
      while y2 <= cy + 1
        invariant cy - 1 <= y2 <= cy + 2 && k == 3 * (y2 - cy + 1)
        invariant c == Count(b[..k], num)
      {
        var x2 := cx - 1;
        while x2 <= cx + 1
          invariant cx - 1 <= x2 <= cx + 2 && k == 3 * (y2 - cy + 1) + (x2 - cx + 1)
          invariant c == Count(b[..k], num)
        {
          BoxStep(Cells(), x, y, x2, y2, k, num);
          GetNumCell(x2, y2);
          if GetNum(x2, y2) == num {
            c := c + 1;
          }
          x2 := x2 + 1;
          k := k + 1;
        }
        y2 := y2 + 1;
      }
      assert b[..9] == b;
    }

    /** Can num be placed at (x, y)? Exactly when the cell is empty and num
        is absent from its row, column and box. */
    method PlaceOK(x: int, y: int, num: int) returns (ok: bool)
      requires Valid() && InGrid(x, y)
      ensures ok == Board.PlaceOK(Cells(), x, y, num)
    {
      ghost var g := Cells();
      if GetNum(x, y) > 0 {
        return false;
      }
      var n := NumInRow(y, num);
      CountZero(Row(g, y), num);
      if n > 0 {
        return false;
      }
      n := NumInCol(x, num);
      CountZero(Col(g, x), num);
      if n > 0 {
        return false;
      }
      n := NumInBox(x, y, num);
      CountZero(Box(g, x, y), num);
      if n > 0 {
        return false;
      }
      return true;
    }

    /** Is this a valid state? Exactly when no cell lies outside 0..9 and no
        digit repeats in a row, column or box. */
    method IsValid() returns (ok: bool)
      requires Valid()
      ensures ok == Board.Valid(Cells())
    {
      ghost var g := Cells();
      ValidIffCellsOK(g);
      var y := 0;
      while y < 9
        invariant 0 <= y <= 9
        invariant forall x2, y2 :: InGrid(x2, y2) && y2 < y ==> CellOK(g, x2, y2)
      {
        var x := 0;
        while x < 9
          invariant 0 <= x <= 9
          invariant forall x2, y2 :: InGrid(x2, y2) && (y2 < y || (y2 == y && x2 < x)) ==> CellOK(g, x2, y2)
        {
          var i := GetNum(x, y);
          if i < 0 || i > 9 {
            return false;
          }
          i := 1;
          while i <= 9
            invariant 1 <= i <= 10
            invariant forall v :: 1 <= v < i ==>
                        Count(Row(g, y), v) <= 1 && Count(Col(g, x), v) <= 1 && Count(Box(g, x, y), v) <= 1
          {
            var n := NumInRow(y, i);
            if n > 1 {
              return false;
            }
            n := NumInCol(x, i);
            if n > 1 {
              return false;
            }
            n := NumInBox(x, y, i);
            if n > 1 {
              return false;
            }
            i := i + 1;
          }
          x := x + 1;
        }
        y := y + 1;
      }
      return true;
    }

    /** Is state a duplicate of this one? Exactly when all 81 cells match. */
    method IsDuplicate(state: SudokuState) returns (dup: bool)
      requires Valid() && state.Valid()
      ensures dup <==> state.Cells() == Cells()
    {
      var i := 0;
      while i < 81
        invariant 0 <= i <= 81
        invariant state.grid[..i] == grid[..i]
      {
        if state.grid[i] != grid[i] {
          return false;
        }
        assert state.grid[..i + 1] == state.grid[..i] + [state.grid[i]];
        assert grid[..i + 1] == grid[..i] + [grid[i]];
        i := i + 1;
      }
      assert state.grid[..] == state.grid[..81];
      return true;
    }

    /** A deep copy: fresh storage with an equal grid; the value is not
        copied and starts at 0. */
    method CloneState() returns (state: SudokuState)
      requires Valid()
      ensures fresh(state) && fresh(state.grid) && state.Valid()
      ensures state.Cells() == Cells() && state.value == 0
    {
      state := new SudokuState();
      var i := 0;
      while i < 81
        invariant 0 <= i <= 81 && state.value == 0
        invariant state.grid[..i] == grid[..i]
      {
        state.grid[i] := grid[i];
        assert state.grid[..i + 1] == state.grid[..i] + [grid[i]];
        i := i + 1;
      }
      assert state.grid[..] == state.grid[..81];
    }
  }
}
