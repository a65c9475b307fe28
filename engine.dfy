/** The search engine: an open list of states waiting to be expanded, a
    closed list of expanded states, and the strategy that orders the open
    list. A state is expanded by branching on every legal value of every
    empty cell; each child is deduced, returned if complete, and otherwise
    queued unless the closed list already holds its grid. */
module Engine {
  import opened Board
  import opened Wrappers
  import opened State
  import opened Deduction
  import opened Merging

  /** A child as the search queues it: its grid after deduce and its value. */
  datatype Entry = Entry(grid: Grid, value: int)

  /** The child for value v at cell (x, y): set, then deduced, and valued
      ten per filled cell plus the number of values the cell rules out. */
  ghost function Child(g: Grid, x: int, y: int, v: int): (k: Entry)
    requires InGrid(x, y)
  {
    var h := Deduced(SetCell(g, x, y, v));
    Entry(h, 10 * Filled(h) + (9 - LegalCount(g, x, y, 10)))
  }

  /** A child of a valid grid that keeps the clues is valid, keeps the
      clues, and is complete exactly when all 81 cells are filled. */
  lemma ChildGood(g: Grid, x: int, y: int, v: int, puzzle: Grid)
    requires InGrid(x, y) && 1 <= v <= 9 && PlaceOK(g, x, y, v)
    requires Valid(g) && Extends(g, puzzle)
    ensures Valid(Child(g, x, y, v).grid) && Extends(Child(g, x, y, v).grid, puzzle)
    ensures Filled(Child(g, x, y, v).grid) == 81 <==> Complete(Child(g, x, y, v).grid)
  {
    ChildIsChild(g, x, y, v);
    ExtendsTrans(Child(g, x, y, v).grid, g, puzzle);
    FilledAll(Child(g, x, y, v).grid);
  }

  /** The children of cell (x, y) for the values 1..v-1, ascending: one per
      value placeOK admits. */
  ghost function CellKids(g: Grid, x: int, y: int, v: int): (r: seq<Entry>)
    requires InGrid(x, y) && 1 <= v <= 10
  {
    if v == 1 then []
    else CellKids(g, x, y, v - 1) + (if PlaceOK(g, x, y, v - 1) then [Child(g, x, y, v - 1)] else [])
  }

  /** The children of cells (0, y) .. (x-1, y), in that order. */
  ghost function RowKids(g: Grid, y: int, x: int): (r: seq<Entry>)
    requires 0 <= y < 9 && 0 <= x <= 9
  {
    if x == 0 then [] else RowKids(g, y, x - 1) + CellKids(g, x - 1, y, 10)
  }

  /** The children of rows 0 .. y-1: the generation order of search is y
      outer, x inner, values ascending. */
  ghost function GridKids(g: Grid, y: int): (r: seq<Entry>)
    requires 0 <= y <= 9
  {
    if y == 0 then [] else GridKids(g, y - 1) + RowKids(g, y - 1, 9)
  }

  /** A cell has a child for each value placeOK admits, so at most nine. */
  lemma {:induction false} CellKidsLength(g: Grid, x: int, y: int, v: int)
    requires InGrid(x, y) && 1 <= v <= 10
    ensures |CellKids(g, x, y, v)| == LegalCount(g, x, y, v) < v
  {
    if v > 1 {
      CellKidsLength(g, x, y, v - 1);
      var ok := PlaceOK(g, x, y, v - 1);
      assert |CellKids(g, x, y, v)| == |CellKids(g, x, y, v - 1)| + (if ok then 1 else 0);
    }
  }

  lemma {:induction false} RowKidsLength(g: Grid, y: int, x: int)
    requires 0 <= y < 9 && 0 <= x <= 9
    ensures |RowKids(g, y, x)| <= 9 * x
  {
    if x > 0 {
      RowKidsLength(g, y, x - 1);
      CellKidsLength(g, x - 1, y, 10);
    }
  }

  /** An expansion generates at most 729 children. */
  lemma {:induction false} GridKidsLength(g: Grid, y: int)
    requires 0 <= y <= 9
    ensures |GridKids(g, y)| <= 81 * y
  {
    if y > 0 {
      GridKidsLength(g, y - 1);
      RowKidsLength(g, y - 1, 9);
    }
  }

  lemma CellKidsNext(g: Grid, x: int, y: int, v: int)
    requires InGrid(x, y) && 1 <= v <= 9
    ensures CellKids(g, x, y, v + 1) == CellKids(g, x, y, v) + (if PlaceOK(g, x, y, v) then [Child(g, x, y, v)] else [])
  {
  }

  /** A complete child among the first values is the cell's first. */
  lemma CellFirstComplete(g: Grid, x: int, y: int, v: int)
    requires InGrid(x, y) && 1 <= v <= 10
    ensures FirstComplete(CellKids(g, x, y, v)).Some? ==> FirstComplete(CellKids(g, x, y, 10)) == FirstComplete(CellKids(g, x, y, v))
  {
    CellKidsPrefix(g, x, y, v);
    if FirstComplete(CellKids(g, x, y, v)).Some? {
      FirstCompletePrefix(CellKids(g, x, y, v), CellKids(g, x, y, 10));
    }
  }

  lemma CellKidsPrefix(g: Grid, x: int, y: int, v: int)
    requires InGrid(x, y) && 1 <= v <= 10
    ensures CellKids(g, x, y, v) <= CellKids(g, x, y, 10)
  {
    CellKidsMono(g, x, y, v, 10);
  }

  lemma {:induction false} CellKidsMono(g: Grid, x: int, y: int, v: int, n: int)
    requires InGrid(x, y) && 1 <= v <= n <= 10
    ensures CellKids(g, x, y, v) <= CellKids(g, x, y, n)
    decreases n - v
  {
    if v < n {
      CellKidsMono(g, x, y, v, n - 1);
      PrefixTrans(CellKids(g, x, y, v), CellKids(g, x, y, n - 1), CellKids(g, x, y, n));
    }
  }

  lemma RowKidsPrefix(g: Grid, y: int, x: int)
    requires 0 <= y < 9 && 0 <= x <= 9
    ensures RowKids(g, y, x) <= RowKids(g, y, 9)
  {
    RowKidsMono(g, y, x, 9);
  }

  lemma {:induction false} RowKidsMono(g: Grid, y: int, x: int, n: int)
    requires 0 <= y < 9 && 0 <= x <= n <= 9
    ensures RowKids(g, y, x) <= RowKids(g, y, n)
    decreases n - x
  {
    if x < n {
      RowKidsMono(g, y, x, n - 1);
      PrefixTrans(RowKids(g, y, x), RowKids(g, y, n - 1), RowKids(g, y, n));
    }
  }

  lemma GridKidsPrefix(g: Grid, y: int)
    requires 0 <= y <= 9
    ensures GridKids(g, y) <= GridKids(g, 9)
  {
    GridKidsMono(g, y, 9);
  }

  /** The children of the first rows only grow as rows are added. */
  lemma {:induction false} GridKidsMono(g: Grid, y: int, n: int)
    requires 0 <= y <= n <= 9
    ensures GridKids(g, y) <= GridKids(g, n)
    decreases n - y
  {
    if y < n {
      GridKidsMono(g, y, n - 1);
      PrefixTrans(GridKids(g, y), GridKids(g, n - 1), GridKids(g, n));
    }
  }

  /** A prefix of a prefix is a prefix. */
  lemma PrefixTrans(a: seq<Entry>, b: seq<Entry>, c: seq<Entry>)
    requires a <= b && b <= c
    ensures a <= c
  {
    assert a == b[..|a|] && b == c[..|b|];
  }

  /** A child keeps every filled cell of its parent, fills at least one more,
      is valid when the parent is, and is valued by its filled count. */
  ghost predicate ChildOf(k: Entry, g: Grid) {
    && Extends(k.grid, g)
    && Filled(k.grid) > Filled(g)
    && (Valid(g) ==> Valid(k.grid))
    && 10 * Filled(k.grid) <= k.value <= 10 * Filled(k.grid) + 9
  }

  lemma ChildIsChild(g: Grid, x: int, y: int, v: int)
    requires InGrid(x, y) && 1 <= v <= 9 && PlaceOK(g, x, y, v)
    ensures ChildOf(Child(g, x, y, v), g)
  {
    var h := SetCell(g, x, y, v);
    PlaceFillsOne(g, x, y, v);
    PlaceExtends(g, x, y, v);
    ExtendsTrans(Deduced(h), h, g);
    if Valid(g) {
      PlaceKeepsValid(g, x, y, v);
      DeducedValid(h);
    }
  }

  lemma {:induction false} CellKidsAreChildren(g: Grid, x: int, y: int, v: int)
    requires InGrid(x, y) && 1 <= v <= 10
    ensures forall k :: k in CellKids(g, x, y, v) ==> ChildOf(k, g)
  {
    if v > 1 {
      CellKidsAreChildren(g, x, y, v - 1);
      if PlaceOK(g, x, y, v - 1) {
        ChildIsChild(g, x, y, v - 1);
      }
    }
  }

  lemma {:induction false} RowKidsAreChildren(g: Grid, y: int, x: int)
    requires 0 <= y < 9 && 0 <= x <= 9
    ensures forall k :: k in RowKids(g, y, x) ==> ChildOf(k, g)
  {
    if x > 0 {
      RowKidsAreChildren(g, y, x - 1);
      CellKidsAreChildren(g, x - 1, y, 10);
    }
  }

  /** Every state search generates from g is a proper child of g. */
  lemma {:induction false} KidsAreChildren(g: Grid, y: int)
    requires 0 <= y <= 9
    ensures forall k :: k in GridKids(g, y) ==> ChildOf(k, g)
  {
    if y > 0 {
      KidsAreChildren(g, y - 1);
      RowKidsAreChildren(g, y - 1, 9);
    }
  }

  /** The grid of the first complete child, if there is one. */
  ghost function FirstComplete(kids: seq<Entry>): (r: Option<Grid>)
    ensures r.Some? ==> Complete(r.value)
  {
    if kids == [] then None
    else if FirstComplete(kids[..|kids| - 1]).Some? then FirstComplete(kids[..|kids| - 1])
    else if Complete(kids[|kids| - 1].grid) then Some(kids[|kids| - 1].grid)
    else None
  }

  /** FirstComplete finds nothing exactly when no child is complete, and
      otherwise a child with no complete child before it. */
  lemma {:induction false} FirstCompleteMeaning(kids: seq<Entry>)
    ensures FirstComplete(kids).None? <==> forall k :: 0 <= k < |kids| ==> !Complete(kids[k].grid)
    ensures FirstComplete(kids).Some? ==>
              exists j :: 0 <= j < |kids| && kids[j].grid == FirstComplete(kids).value &&
                          forall k :: 0 <= k < j ==> !Complete(kids[k].grid)
  {
    if kids != [] {
      var init := kids[..|kids| - 1];
      FirstCompleteMeaning(init);
      assert forall k :: 0 <= k < |init| ==> init[k] == kids[k];
      if FirstComplete(init).Some? {
        var j :| 0 <= j < |init| && init[j].grid == FirstComplete(init).value &&
                 forall k :: 0 <= k < j ==> !Complete(init[k].grid);
        assert kids[j].grid == FirstComplete(kids).value;
      } else if Complete(kids[|kids| - 1].grid) {
        assert kids[|kids| - 1].grid == FirstComplete(kids).value;
      }
    }
  }

  lemma {:induction false} FirstCompleteConcat(a: seq<Entry>, b: seq<Entry>)
    ensures FirstComplete(a + b) == if FirstComplete(a).Some? then FirstComplete(a) else FirstComplete(b)
    decreases |b|
  {
    if b == [] {
      assert a + b == a;
    } else {
      var b' := b[..|b| - 1];
      FirstCompleteConcat(a, b');
      assert (a + b)[..|a + b| - 1] == a + b';
    }
  }

  lemma FirstCompleteSnoc(kids: seq<Entry>, k: Entry)
    ensures FirstComplete(kids + [k]) ==
            if FirstComplete(kids).Some? then FirstComplete(kids)
            else if Complete(k.grid) then Some(k.grid) else None
  {
    assert (kids + [k])[..|kids|] == kids;
  }

  /** One more child, after none complete: it is the first complete child
      if it is complete, and it is queued after the others. */
  lemma NextChild(done: seq<Entry>, k: Entry, next: seq<Entry>, closed: seq<Grid>, check: bool)
    requires next == done + [k] && FirstComplete(done) == None
    ensures FirstComplete(next) == if Complete(k.grid) then Some(k.grid) else None
    ensures Queued(next, closed, check) == Queued(done, closed, check) + Queued([k], closed, check)
  {
    FirstCompleteSnoc(done, k);
    QueuedConcat(done, [k], closed, check);
  }

  /** Queuing one child merges it unless it repeats a closed grid. */
  lemma QueuedOne(strategy: Strategy, open: seq<Entry>, q: seq<Entry>, kid: Entry, closed: seq<Grid>, check: bool)
    ensures check && kid.grid in closed ==> MergeKids(strategy, open, q + Queued([kid], closed, check)) == MergeKids(strategy, open, q)
    ensures !(check && kid.grid in closed) ==> MergeKids(strategy, open, q + Queued([kid], closed, check)) == MergeKids(strategy, open, q + [kid])
  {
    assert q + [] == q;
  }

  /** The first complete child of a prefix is the first of the whole list. */
  lemma FirstCompletePrefix(a: seq<Entry>, b: seq<Entry>)
    requires a <= b && FirstComplete(a).Some?
    ensures FirstComplete(b) == FirstComplete(a)
  {
    assert b == a + b[|a|..];
    FirstCompleteConcat(a, b[|a|..]);
  }

  /** The children that are queued: those the repeat check does not find
      among the closed grids, in generation order. */
  function Queued(kids: seq<Entry>, closed: seq<Grid>, check: bool): (r: seq<Entry>)
    ensures |r| <= |kids|
  {
    if kids == [] then []
    else
      var last := kids[|kids| - 1];
      Queued(kids[..|kids| - 1], closed, check) + (if check && last.grid in closed then [] else [last])
  }

  /** Queued keeps exactly the children the repeat check lets through. */
  lemma {:induction false} QueuedMembers(kids: seq<Entry>, closed: seq<Grid>, check: bool)
    ensures forall k :: k in Queued(kids, closed, check) <==> k in kids && !(check && k.grid in closed)
    decreases |kids|
  {
    if kids != [] {
      var init := kids[..|kids| - 1];
      QueuedMembers(init, closed, check);
      assert kids == init + [kids[|kids| - 1]];
    }
  }

  lemma {:induction false} QueuedConcat(a: seq<Entry>, b: seq<Entry>, closed: seq<Grid>, check: bool)
    ensures Queued(a + b, closed, check) == Queued(a, closed, check) + Queued(b, closed, check)
    decreases |b|
  {
    if b == [] {
      assert a + b == a;
    } else {
      var b' := b[..|b| - 1];
      QueuedConcat(a, b', closed, check);
      assert (a + b)[..|a + b| - 1] == a + b';
    }
  }

  /** The values of the queued states, in queue order. */
  ghost function Values(open: seq<SudokuState>): (r: seq<int>)
    reads open
    ensures |r| == |open|
  {
    if open == [] then [] else Values(open[..|open| - 1]) + [open[|open| - 1].value]
  }

  /** The grids of a list of states. */
  ghost function Grids(states: seq<SudokuState>): (r: seq<Grid>)
    reads set s | s in states :: s.grid
    requires forall s :: s in states ==> s.Valid()
    ensures |r| == |states|
  {
    if states == [] then [] else Grids(states[..|states| - 1]) + [states[|states| - 1].Cells()]
  }

  /** The grids and values of a list of states. */
  ghost function Summary(states: seq<SudokuState>): (r: seq<Entry>)
    reads states, set s | s in states :: s.grid
    requires forall s :: s in states ==> s.Valid()
    ensures |r| == |states|
  {
    if states == [] then []
    else Summary(states[..|states| - 1]) + [Entry(states[|states| - 1].Cells(), states[|states| - 1].value)]
  }

  lemma {:induction false} ValuesAt(open: seq<SudokuState>)
    ensures forall k :: 0 <= k < |open| ==> Values(open)[k] == open[k].value
    decreases |open|
  {
    if open != [] {
      ValuesAt(open[..|open| - 1]);
    }
  }

  lemma {:induction false} GridsAt(states: seq<SudokuState>)
    requires forall s :: s in states ==> s.Valid()
    ensures forall k :: 0 <= k < |states| ==> Grids(states)[k] == states[k].Cells()
    decreases |states|
  {
    if states != [] {
      GridsAt(states[..|states| - 1]);
    }
  }

  lemma {:induction false} SummaryAt(states: seq<SudokuState>)
    requires forall s :: s in states ==> s.Valid()
    ensures forall k :: 0 <= k < |states| ==> Summary(states)[k] == Entry(states[k].Cells(), states[k].value)
    decreases |states|
  {
    if states != [] {
      SummaryAt(states[..|states| - 1]);
    }
  }

  /** Popping the front state drops the front grid and value. */
  lemma StatesTail(states: seq<SudokuState>)
    requires states != [] && forall s :: s in states ==> s.Valid()
    ensures Values(states[1..]) == Values(states)[1..]
    ensures Summary(states[1..]) == Summary(states)[1..]
    ensures Summary(states)[0] == Entry(states[0].Cells(), states[0].value)
  {
    ValuesAt(states);
    ValuesAt(states[1..]);
    SummaryAt(states);
    SummaryAt(states[1..]);
  }

  /** The values of a list of children. */
  function KidValues(kids: seq<Entry>): seq<int> {
    seq(|kids|, k requires 0 <= k < |kids| => kids[k].value)
  }

  /** An open list (as grids and values) after merging news one after the
      other, each at the strategy's position. */
  function MergeKids(strategy: Strategy, open: seq<Entry>, news: seq<Entry>): (r: seq<Entry>)
    ensures |r| == |open| + |news|
  {
    if news == [] then open
    else
      var r0 := MergeKids(strategy, open, news[..|news| - 1]);
      var last := news[|news| - 1];
      InsertAt(r0, Position(strategy, KidValues(r0), last.value), last)
  }

  /** Merging neither loses nor duplicates a state: the merged list holds
      the old entries and the newcomers, each as often as before. */
  lemma {:induction false} MergeKidsMultiset(strategy: Strategy, open: seq<Entry>, news: seq<Entry>)
    ensures multiset(MergeKids(strategy, open, news)) == multiset(open) + multiset(news)
    decreases |news|
  {
    if news != [] {
      var init := news[..|news| - 1];
      var last := news[|news| - 1];
      assert news == init + [last];
      MergeKidsMultiset(strategy, open, init);
      var r0 := MergeKids(strategy, open, init);
      MergeKidsSnoc(strategy, open, init, last);
      InsertAtMultiset(r0, Position(strategy, KidValues(r0), last.value), last);
    }
  }

  lemma InsertValid(open: seq<SudokuState>, i: int, x: SudokuState)
    requires 0 <= i <= |open| && x.Valid() && forall s :: s in open ==> s.Valid()
    ensures forall s :: s in InsertAt(open, i, x) ==> s.Valid()
  {
    InsertAtMultiset(open, i, x);
    assert forall s :: s in InsertAt(open, i, x) ==> s in multiset(open) + multiset{x};
  }

  lemma SummaryInsertAt(open: seq<SudokuState>, i: int, x: SudokuState, k: int)
    requires 0 <= i <= |open| && x.Valid() && forall s :: s in open ==> s.Valid()
    requires forall s :: s in InsertAt(open, i, x) ==> s.Valid()
    requires 0 <= k <= |open|
    ensures Summary(InsertAt(open, i, x))[k] == InsertAt(Summary(open), i, Entry(x.Cells(), x.value))[k]
  {
    var r := InsertAt(open, i, x);
    SummaryAt(open);
    SummaryAt(r);
    InsertAtIndex(open, i, x);
    InsertAtIndex(Summary(open), i, Entry(x.Cells(), x.value));
    if k < i {
      assert r[k] == open[k];
    } else if k > i {
      assert r[k] == open[k - 1];
    }
  }

  /** Merging a state adds its grid and value at the same position. */
  lemma SummaryInsert(open: seq<SudokuState>, i: int, x: SudokuState)
    requires 0 <= i <= |open| && x.Valid() && forall s :: s in open ==> s.Valid()
    ensures forall s :: s in InsertAt(open, i, x) ==> s.Valid()
    ensures Summary(InsertAt(open, i, x)) == InsertAt(Summary(open), i, Entry(x.Cells(), x.value))
  {
    InsertValid(open, i, x);
    var a := Summary(InsertAt(open, i, x));
    var b := InsertAt(Summary(open), i, Entry(x.Cells(), x.value));
    assert |a| == |open| + 1 == |b|;
    forall k | 0 <= k < |a|
      ensures a[k] == b[k]
    {
      SummaryInsertAt(open, i, x, k);
    }
    assert a == b;
  }

  lemma ValuesInsert(open: seq<SudokuState>, i: int, x: SudokuState)
    requires 0 <= i <= |open|
    ensures Values(InsertAt(open, i, x)) == InsertAt(Values(open), i, x.value)
  {
    var r := InsertAt(open, i, x);
    ValuesAt(open);
    ValuesAt(r);
    var a := Values(r);
    var b := InsertAt(Values(open), i, x.value);
    InsertAtIndex(open, i, x);
    InsertAtIndex(Values(open), i, x.value);
    forall k | 0 <= k < |a|
      ensures a[k] == b[k]
    {
      if k < i {
        assert a[k] == r[k].value == open[k].value;
      } else if k > i {
        assert a[k] == r[k].value == open[k - 1].value;
      }
    }
  }

  lemma ValuesOfSummary(open: seq<SudokuState>)
    requires forall s :: s in open ==> s.Valid()
    ensures Values(open) == KidValues(Summary(open))
  {
    ValuesAt(open);
    SummaryAt(open);
    assert forall k :: 0 <= k < |open| ==> Values(open)[k] == KidValues(Summary(open))[k];
  }

  /** The summary of states whose grids and values have not changed is
      the same as before. */
  twostate lemma {:induction false} SummaryFrame(states: seq<SudokuState>)
    requires forall s :: s in states ==> old(allocated(s)) && old(allocated(s.grid)) && s.Valid() && unchanged(s) && unchanged(s.grid)
    ensures Summary(states) == old(Summary(states))
    decreases |states|
  {
    if states != [] {
      var init := states[..|states| - 1];
      forall s | s in init
        ensures old(allocated(s)) && old(allocated(s.grid)) && s.Valid() && unchanged(s) && unchanged(s.grid)
      {
        assert s in states;
      }
      SummaryFrame(init);
      var last := states[|states| - 1];
      assert last in states;
      assert last.Cells() == old(last.Cells()) && last.value == old(last.value);
    }
  }

  /** The grids of states whose grids have not changed are the same as before. */
  twostate lemma {:induction false} ValuesFrame(open: seq<SudokuState>)
    requires forall s :: s in open ==> old(allocated(s)) && unchanged(s)
    ensures Values(open) == old(Values(open))
    decreases |open|
  {
    if open != [] {
      var init := open[..|open| - 1];
      forall s | s in init
        ensures old(allocated(s)) && unchanged(s)
      {
        assert s in open;
      }
      ValuesFrame(init);
      assert open[|open| - 1] in open;
    }
  }

  twostate lemma GridsFrame(states: seq<SudokuState>)
    requires forall s :: s in states ==> s.Valid() && old(allocated(s.grid)) && unchanged(s.grid)
    ensures Grids(states) == old(Grids(states))
  {
  }

  /** A step that leaves a state's grid alone keeps its cells. */
  twostate lemma CellsFrame(s: SudokuState)
    requires s.Valid() && old(allocated(s.grid)) && unchanged(s.grid)
    ensures s.Cells() == old(s.Cells())
  {
  }

  /** A step that leaves the engine, its queued states and its closed grids
      alone keeps both lists' contents. */
  twostate lemma Untouched(e: Sudoku)
    requires unchanged(e) && forall s :: s in e.openList ==> s.Valid()
    requires forall s :: s in e.openList ==> old(allocated(s)) && old(allocated(s.grid)) && unchanged(s) && unchanged(s.grid)
    requires forall s :: s in e.closedList ==> s.Valid() && old(allocated(s.grid)) && unchanged(s.grid)
    ensures Summary(e.openList) == old(Summary(e.openList)) && Grids(e.closedList) == old(Grids(e.closedList))
  {
    SummaryFrame(e.openList);
    GridsFrame(e.closedList);
  }

  /** sol is the first complete child generated when g is expanded. */
  ghost predicate SolvedFrom(g: Grid, sol: Grid) {
    FirstComplete(GridKids(g, 9)) == Some(sol)
  }

  /** A queued state: a valid grid that keeps every clue of the puzzle. */
  ghost predicate Admissible(s: SudokuState, puzzle: Grid)
    reads s.grid
  {
    s.Valid() && Valid(s.Cells()) && Extends(s.Cells(), puzzle)
  }

  /** Every grid of the list is valid and keeps every clue of the puzzle. */
  ghost predicate AllGood(ks: seq<Entry>, puzzle: Grid) {
    forall k :: k in ks ==> Valid(k.grid) && Extends(k.grid, puzzle)
  }

  lemma InsertGood(ks: seq<Entry>, i: int, k: Entry, puzzle: Grid)
    requires 0 <= i <= |ks| && AllGood(ks, puzzle) && Valid(k.grid) && Extends(k.grid, puzzle)
    ensures AllGood(InsertAt(ks, i, k), puzzle)
  {
    InsertAtMembers(ks, i, k);
  }

  /** Merging one more newcomer inserts it at the strategy's position in
      the list merged so far. */
  lemma MergeKidsSnoc(strategy: Strategy, open: seq<Entry>, news: seq<Entry>, k: Entry)
    ensures var r := MergeKids(strategy, open, news);
            MergeKids(strategy, open, news + [k]) == InsertAt(r, Position(strategy, KidValues(r), k.value), k)
  {
    assert (news + [k])[..|news|] == news;
  }
  /** Merging a then b is merging a + b: the open list is a left fold of
      merge over the newcomers. */
  lemma {:induction false} MergeKidsConcat(strategy: Strategy, open: seq<Entry>, a: seq<Entry>, b: seq<Entry>)
    ensures MergeKids(strategy, MergeKids(strategy, open, a), b) == MergeKids(strategy, open, a + b)
    decreases |b|
  {
    if b == [] {
      assert a + b == a;
    } else {
      var b' := b[..|b| - 1];
      MergeKidsConcat(strategy, open, a, b');
      assert (a + b)[..|a + b| - 1] == a + b';
      assert (a + b)[|a + b| - 1] == b[|b| - 1];
    }
  }

  /** Queuing the children of a and then those of b queues those of a + b. */
  lemma QueueBoth(strategy: Strategy, open: seq<Entry>, a: seq<Entry>, b: seq<Entry>, closed: seq<Grid>, check: bool)
    ensures MergeKids(strategy, MergeKids(strategy, open, Queued(a, closed, check)), Queued(b, closed, check)) ==
            MergeKids(strategy, open, Queued(a + b, closed, check))
  {
    MergeKidsConcat(strategy, open, Queued(a, closed, check), Queued(b, closed, check));
    QueuedConcat(a, b, closed, check);
  }


  /** The queued states are admissible exactly when their grids are good. */
  lemma AdmissibleSummary(open: seq<SudokuState>, puzzle: Grid)
    requires forall s :: s in open ==> s.Valid()
    ensures AllGood(Summary(open), puzzle) <==> forall s :: s in open ==> Admissible(s, puzzle)
  {
    var r := Summary(open);
    SummaryAt(open);
    if AllGood(r, puzzle) {
      forall s | s in open
        ensures Admissible(s, puzzle)
      {
        var j :| 0 <= j < |open| && open[j] == s;
        assert r[j] in r;
      }
    }
    if forall s :: s in open ==> Admissible(s, puzzle) {
      forall k | k in r
        ensures Valid(k.grid) && Extends(k.grid, puzzle)
      {
        var j :| 0 <= j < |r| && r[j] == k;
        assert open[j] in open;
      }
    }
  }

  /** 730 to the power e. A state can have at most 729 children, so a state
      of cost 730^(81 - filled) outweighs all of its children together. */
  function Pow(e: nat): (p: nat)
    ensures p >= 1
  {
    if e == 0 then 1 else 730 * Pow(e - 1)
  }

  lemma {:induction false} PowMono(a: nat, b: nat)
    requires a <= b
    ensures Pow(a) <= Pow(b)
    decreases b
  {
    if a < b {
      PowMono(a, b - 1);
    }
  }

  /** The cost of a grid: a state with more empty cells costs more. */
  ghost function EntryCost(k: Entry): nat {
    Pow(81 - Filled(k.grid))
  }

  /** The cost of a state: its grid's cost. */
  ghost function Cost(s: SudokuState): nat
    reads s.grid
    requires s.Valid()
  {
    Pow(81 - Filled(s.Cells()))
  }

  lemma EntryOfState(s: SudokuState)
    requires s.Valid()
    ensures EntryCost(Entry(s.Cells(), s.value)) == Cost(s)
  {
  }

  /** The termination measure of search: the total cost of the open list,
      taken on its grids and values. */
  ghost function OpenCost(ks: seq<Entry>): nat {
    if ks == [] then 0 else EntryCost(ks[0]) + OpenCost(ks[1..])
  }

  /** Taking the front off a list of children: the cost drops by the
      front's cost, and a good or non-increasing list stays so. */
  lemma KidsTail(ks: seq<Entry>, puzzle: Grid)
    requires ks != []
    ensures OpenCost(ks) == EntryCost(ks[0]) + OpenCost(ks[1..])
    ensures AllGood(ks, puzzle) ==> AllGood(ks[1..], puzzle) && Valid(ks[0].grid) && Extends(ks[0].grid, puzzle)
    ensures NonIncreasing(KidValues(ks)) ==> NonIncreasing(KidValues(ks[1..]))
  {
    assert ks[0] in ks;
    assert forall k :: k in ks[1..] ==> k in ks;
    assert KidValues(ks[1..]) == KidValues(ks)[1..];
    if NonIncreasing(KidValues(ks)) {
      NonIncreasingTail(KidValues(ks));
    }
  }


  lemma {:induction false} OpenCostInsert(ks: seq<Entry>, i: int, k: Entry)
    requires 0 <= i <= |ks|
    ensures OpenCost(InsertAt(ks, i, k)) == OpenCost(ks) + EntryCost(k)
    decreases i
  {
    var r := InsertAt(ks, i, k);
    if i == 0 {
      assert r[1..] == ks;
    } else {
      OpenCostInsert(ks[1..], i - 1, k);
      assert r[1..] == InsertAt(ks[1..], i - 1, k);
    }
  }

  /** Merging adds the cost of every newcomer, whatever the strategy. */
  lemma {:induction false} OpenCostMerge(strategy: Strategy, open: seq<Entry>, news: seq<Entry>)
    ensures OpenCost(MergeKids(strategy, open, news)) == OpenCost(open) + OpenCost(news)
    decreases |news|
  {
    if news != [] {
      var init := news[..|news| - 1];
      var last := news[|news| - 1];
      assert init + [last] == news;
      OpenCostMerge(strategy, open, init);
      var r0 := MergeKids(strategy, open, init);
      var p := Position(strategy, KidValues(r0), last.value);
      assert MergeKids(strategy, open, news) == InsertAt(r0, p, last);
      OpenCostInsert(r0, p, last);
      OpenCostAppend(init, [last]);
    }
  }

  lemma {:induction false} OpenCostAppend(a: seq<Entry>, b: seq<Entry>)
    ensures OpenCost(a + b) == OpenCost(a) + OpenCost(b)
    decreases |a|
  {
    if a == [] {
      assert a + b == b;
    } else {
      OpenCostAppend(a[1..], b);
      assert (a + b)[1..] == a[1..] + b;
    }
  }

  /** A list of children each costing at most bound costs at most its
      length times bound. */
  lemma {:induction false} OpenCostBound(ks: seq<Entry>, bound: nat)
    requires forall k :: k in ks ==> EntryCost(k) <= bound
    ensures OpenCost(ks) <= |ks| * bound
    decreases |ks|
  {
    if ks != [] {
      assert ks[0] in ks;
      assert forall k :: k in ks[1..] ==> k in ks;
      OpenCostBound(ks[1..], bound);
      MulSucc(|ks| - 1, bound);
    }
  }

  lemma MulSucc(n: nat, b: nat)
    ensures (n + 1) * b == n * b + b
  {
  }

  /** The most a child of a state with f filled cells can cost. */
  function ChildBound(f: int): nat {
    if 0 <= f < 81 then Pow(80 - f) else 0
  }

  /** A state outweighs the most its expansion can queue. */
  lemma ExpansionLighter(f: nat, n: nat)
    requires f <= 81 && n <= 729
    ensures n * ChildBound(f) < Pow(81 - f)
  {
    if f < 81 {
      assert n * ChildBound(f) <= 729 * ChildBound(f);
    }
  }

  /** Everything an expansion of g can queue together costs less than g. */
  lemma QueuedCostBound(g: Grid, closed: seq<Grid>, check: bool)
    ensures OpenCost(Queued(GridKids(g, 9), closed, check)) < Pow(81 - Filled(g))
  {
    var q := Queued(GridKids(g, 9), closed, check);
    KidsAreChildren(g, 9);
    GridKidsLength(g, 9);
    QueuedMembers(GridKids(g, 9), closed, check);
    forall k | k in q
      ensures EntryCost(k) <= ChildBound(Filled(g))
    {
      assert ChildOf(k, g);
      PowMono(81 - Filled(k.grid), 80 - Filled(g));
    }
    OpenCostBound(q, ChildBound(Filled(g)));
    ExpansionLighter(Filled(g), |q|);
  }
  /** Merging the children an expansion queues raises the open list's cost
      by less than the cost of the expanded state. */
  lemma ExpansionCost(strategy: Strategy, open: seq<Entry>, g: Grid, closed: seq<Grid>, check: bool)
    ensures OpenCost(MergeKids(strategy, open, Queued(GridKids(g, 9), closed, check))) < OpenCost(open) + Pow(81 - Filled(g))
  {
    QueuedCostBound(g, closed, check);
    OpenCostMerge(strategy, open, Queued(GridKids(g, 9), closed, check));
  }


  /** The grids of a list of entries. */
  function EntryGrids(ks: seq<Entry>): (r: seq<Grid>)
    ensures |r| == |ks|
  {
    if ks == [] then [] else EntryGrids(ks[..|ks| - 1]) + [ks[|ks| - 1].grid]
  }

  lemma EntryGridsSnoc(ks: seq<Entry>, k: Entry)
    ensures EntryGrids(ks + [k]) == EntryGrids(ks) + [k.grid]
  {
    AppendParts(ks, [k]);
  }

  /** The open list, as grids and values, after expanding a state with grid
      g into open, once the closed grids are closed (g's among them): the
      children the repeat check lets through, merged at the strategy's
      positions in generation order. */
  ghost function Expanded(strategy: Strategy, check: bool, closed: seq<Grid>, open: seq<Entry>, g: Grid): seq<Entry>
  {
    MergeKids(strategy, open, Queued(GridKids(g, 9), closed, check))
  }

  /** The search loop replayed on values. trace[0] has just been taken off
      the open list, leaving open, with closed the grids already closed.
      Each state of trace but the last in turn is closed and expanded; it
      must have no complete child, and the front of the merged open list
      must be the next state of trace, which is popped. The result is the
      open list left after the last pop, or None when trace is not the
      order search takes. */
  ghost function Replay(strategy: Strategy, check: bool, closed: seq<Grid>, open: seq<Entry>, trace: seq<Entry>)
    : Option<seq<Entry>>
    requires trace != []
    decreases |trace|
  {
    if |trace| == 1 then Some(open)
    else
      var prev := trace[..|trace| - 1];
      var r := Replay(strategy, check, closed, open, prev);
      var g := prev[|prev| - 1].grid;
      if r.None? then None
      else
        var m := Expanded(strategy, check, closed + EntryGrids(prev), r.value, g);
        if FirstComplete(GridKids(g, 9)).None? && m != [] && m[0] == trace[|trace| - 1]
        then Some(m[1..])
        else None
  }

  /** Two lists of one length that agree but for the last element, and on
      that too, are equal. */
  lemma SameLast<T>(a: seq<T>, b: seq<T>)
    requires |a| == |b| > 0 && a[..|a| - 1] == b[..|b| - 1] && a[|a| - 1] == b[|b| - 1]
    ensures a == b
  {
    assert a == a[..|a| - 1] + [a[|a| - 1]] && b == b[..|b| - 1] + [b[|b| - 1]];
  }

  lemma AppendAssoc<T>(a: seq<T>, b: seq<T>, c: seq<T>)
    ensures a + b + c == a + (b + c)
  {
  }

  lemma AppendParts<T>(a: seq<T>, b: seq<T>)
    ensures (a + b)[..|a|] == a && (a + b)[|a|..] == b
  {
  }

  /** trace is a whole run of the loop that ends with an empty open list:
      it is the order search takes, and expanding its last state yields no
      complete child and leaves nothing to pop. */
  ghost predicate Exhausts(strategy: Strategy, check: bool, closed: seq<Grid>, open: seq<Entry>, trace: seq<Entry>)
    requires trace != []
  {
    var r := Replay(strategy, check, closed, open, trace);
    var last := trace[|trace| - 1].grid;
    && r.Some?
    && FirstComplete(GridKids(last, 9)).None?
    && Expanded(strategy, check, closed + EntryGrids(trace), r.value, last) == []
  }

  /** One more round of the loop extends the replay: once every state of
      trace is closed, expanding the last one without a complete child and
      popping the front of the merged list appends that front to trace. */
  lemma ReplayStep(strategy: Strategy, check: bool, closed: seq<Grid>, open: seq<Entry>,
                   trace: seq<Entry>, rest: seq<Entry>)
    requires trace != [] && Replay(strategy, check, closed, open, trace) == Some(rest)
    requires FirstComplete(GridKids(trace[|trace| - 1].grid, 9)).None?
    requires Expanded(strategy, check, closed + EntryGrids(trace), rest, trace[|trace| - 1].grid) != []
    ensures var m := Expanded(strategy, check, closed + EntryGrids(trace), rest, trace[|trace| - 1].grid);
      Replay(strategy, check, closed, open, trace + [m[0]]) == Some(m[1..])
  {
    var m := Expanded(strategy, check, closed + EntryGrids(trace), rest, trace[|trace| - 1].grid);
    AppendParts(trace, [m[0]]);
  }

  /** The last state of a trace that replays is the front of the list
      merged by expanding the state before it. */
  lemma ReplayLast(strategy: Strategy, check: bool, closed: seq<Grid>, open: seq<Entry>, t: seq<Entry>)
    requires |t| > 1 && Replay(strategy, check, closed, open, t).Some?
    ensures var prev := t[..|t| - 1];
      var r := Replay(strategy, check, closed, open, prev);
      r.Some? && var m := Expanded(strategy, check, closed + EntryGrids(prev), r.value, prev[|prev| - 1].grid);
      m != [] && m[0] == t[|t| - 1]
  {
  }

  /** Two traces that replay and agree but for their last states agree on
      those too: the front of the merged list is determined. */
  lemma ReplayLastAgree(strategy: Strategy, check: bool, closed: seq<Grid>, open: seq<Entry>, s: seq<Entry>, t: seq<Entry>)
    requires |s| == |t| > 1 && s[..|s| - 1] == t[..|t| - 1]
    requires Replay(strategy, check, closed, open, s).Some? && Replay(strategy, check, closed, open, t).Some?
    ensures s == t
  {
    ReplayLast(strategy, check, closed, open, s);
    ReplayLast(strategy, check, closed, open, t);
    SameLast(s, t);
  }

  /** A prefix of a trace that replays replays too. */
  lemma {:induction false} ReplayPrefix(strategy: Strategy, check: bool, closed: seq<Grid>, open: seq<Entry>,
                                        t: seq<Entry>, k: int)
    requires 1 <= k <= |t| && Replay(strategy, check, closed, open, t).Some?
    ensures Replay(strategy, check, closed, open, t[..k]).Some?
    decreases |t|
  {
    if k < |t| {
      var prev := t[..|t| - 1];
      ReplayPrefix(strategy, check, closed, open, prev, k);
      assert prev[..k] == t[..k];
    } else {
      assert t[..k] == t;
    }
  }

  /** The order search takes is determined by where it starts: two traces
      from the same start that both replay agree on every common step. */
  lemma {:induction false} ReplayDetermined(strategy: Strategy, check: bool, closed: seq<Grid>, open: seq<Entry>,
                                            a: seq<Entry>, b: seq<Entry>)
    requires a != [] && b != [] && |a| <= |b| && a[0] == b[0]
    requires Replay(strategy, check, closed, open, a).Some? && Replay(strategy, check, closed, open, b).Some?
    ensures a == b[..|a|]
    decreases |a|
  {
    var n := |a|;
    if n == 1 {
      assert a == [a[0]] && b[..1] == [b[0]];
    } else {
      var pa := a[..n - 1];
      var bn := b[..n];
      assert Replay(strategy, check, closed, open, pa).Some? by {
        ReplayLast(strategy, check, closed, open, a);
      }
      assert Replay(strategy, check, closed, open, bn).Some? by {
        ReplayPrefix(strategy, check, closed, open, b, n);
      }
      assert bn[..n - 1] == pa by {
        ReplayDetermined(strategy, check, closed, open, pa, b);
      }
      ReplayLastAgree(strategy, check, closed, open, a, bn);
    }
  }

  /** What the search loop keeps, on values: prior lists the states
      expanded so far and cur is the current state; the closed list, as
      grids and as grids and values, is the start's followed by prior; and
      prior then cur replays to the open list left now. */
  ghost predicate Progress(strategy: Strategy, check: bool, closed0: seq<Grid>, open0: seq<Entry>,
                           prior: seq<Entry>, cur: Entry, closed: seq<Grid>, open: seq<Entry>)
  {
    && closed == closed0 + EntryGrids(prior)
    && Replay(strategy, check, closed0, open0, prior + [cur]) == Some(open)
  }

  /** Closing and expanding the current state without a complete child,
      then popping the front of the merged list, keeps the record. */
  lemma ProgressStep(strategy: Strategy, check: bool, closed0: seq<Grid>, open0: seq<Entry>,
                     prior: seq<Entry>, cur: Entry, closed: seq<Grid>, open: seq<Entry>,
                     merged: seq<Entry>, next: Entry)
    requires Progress(strategy, check, closed0, open0, prior, cur, closed, open)
    requires FirstComplete(GridKids(cur.grid, 9)).None?
    requires merged == Expanded(strategy, check, closed + [cur.grid], open, cur.grid)
    requires merged != [] && merged[0] == next
    ensures Progress(strategy, check, closed0, open0, prior + [cur], next, closed + [cur.grid], merged[1..])
  {
    EntryGridsSnoc(prior, cur);
    AppendAssoc(closed0, EntryGrids(prior), [cur.grid]);
    assert (prior + [cur])[|prior + [cur]| - 1] == cur;
    ReplayStep(strategy, check, closed0, open0, prior + [cur], open);
  }

  /** When the loop stops, all of prior then cur is closed; if it stops
      because nothing is left to pop, that run exhausts the open list. */
  lemma ProgressEnd(strategy: Strategy, check: bool, closed0: seq<Grid>, open0: seq<Entry>,
                    prior: seq<Entry>, cur: Entry, closed: seq<Grid>, open: seq<Entry>,
                    merged: seq<Entry>)
    requires Progress(strategy, check, closed0, open0, prior, cur, closed, open)
    ensures closed + [cur.grid] == closed0 + EntryGrids(prior + [cur])
    ensures FirstComplete(GridKids(cur.grid, 9)).None? && merged == [] &&
            merged == Expanded(strategy, check, closed + [cur.grid], open, cur.grid) ==>
            Exhausts(strategy, check, closed0, open0, prior + [cur])
  {
    EntryGridsSnoc(prior, cur);
    AppendAssoc(closed0, EntryGrids(prior), [cur.grid]);
    assert (prior + [cur])[|prior + [cur]| - 1] == cur;
  }

  class Sudoku {
    const strategy: Strategy
    /** Discard a child whose grid is already on the closed list? */
    const repeatCheck: bool
    var openList: seq<SudokuState>
    var closedList: seq<SudokuState>
    var expandCount: int

    /** What every step of the search keeps: queued grids are valid and keep the puzzle's clues,
        expanded states have 81 cells, and under best-first a queue that
        started sorted stays sorted. */
    ghost predicate Inv(puzzle: Grid, sorted: bool)
      reads this`openList, this`closedList, openList, set s | s in openList :: s.grid
    {
      && (forall s :: s in openList ==> s.Valid())
      && (forall s :: s in closedList ==> s.Valid())
      && AllGood(Summary(openList), puzzle)
      && (sorted ==> strategy == Best && NonIncreasing(KidValues(Summary(openList))))
    }

    /** Empty open and closed lists. */
    constructor (strategy: Strategy, repeatCheck: bool)
      ensures this.strategy == strategy && this.repeatCheck == repeatCheck
      ensures openList == [] && closedList == [] && expandCount == 0
    {
      this.strategy := strategy;
      this.repeatCheck := repeatCheck;
      openList := [];
      closedList := [];
      expandCount := 0;
    }

    /** Merge a state into the open list at the strategy's position. */
    method Merge(state: SudokuState)
      modifies this`openList
      ensures openList == InsertAt(old(openList), Position(strategy, Values(old(openList)), state.value), state)
      ensures strategy == Best && NonIncreasing(Values(old(openList))) ==> NonIncreasing(Values(openList))
    {
      ghost var vals := Values(openList);
      if strategy == Depth {
        DepthAndBreadth(openList, vals, state.value, state);
        openList := [state] + openList;
      } else if strategy == Breadth {
        DepthAndBreadth(openList, vals, state.value, state);
        openList := openList + [state];
      } else {
        var i := BestIndex(state.value);
        openList := InsertAt(openList, i, state);
        ValuesInsert(old(openList), i, state);
        ghost var nvals := InsertAt(vals, i, state.value);
        assert Values(openList) == nvals;
        if NonIncreasing(vals) {
          BestKeepsSorted(vals, state.value);
          assert NonIncreasing(nvals);
        }
      }
    }

    /** Where best-first merge inserts a state of value v: before the first
        queued state whose value v is at least, or at the end. */
    method BestIndex(v: int) returns (i: int)
      ensures i == BestPosition(Values(openList), v)
    {
      i := 0;
      while i < |openList| && v < openList[i].value
        invariant 0 <= i <= |openList|
        invariant forall j :: 0 <= j < i ==> openList[j].value > v
      {
        i := i + 1;
      }
      ValuesAt(openList);
      BestPositionUnique(Values(openList), v, i);
    }

    /** Is the state's grid already on the closed list? Never, when the
        repeat check is off; the open list is not consulted. */
    method Repeat(state: SudokuState, ghost closed: seq<Grid>) returns (r: bool)
      requires state.Valid() && (forall s :: s in closedList ==> s.Valid()) && closed == Grids(closedList)
      ensures r <==> repeatCheck && state.Cells() in closed
    {
      if !repeatCheck {
        return false;
      }
      GridsAt(closedList);
      var i := 0;
      while i < |closedList|
        invariant 0 <= i <= |closedList|
        invariant state.Cells() !in closed[..i]
      {
        var dup := state.IsDuplicate(closedList[i]);
        if dup {
          assert closed[i] == state.Cells();
          return true;
        }
        assert closed[..i + 1] == closed[..i] + [closed[i]];
        i := i + 1;
      }
      assert closed[..i] == closed;
      return false;
    }

    /** Value v at cell (x, y) of state, whose grid is g and which has c
        legal values there: if placeOK admits it, build the deduced child
        and return it if it is complete, otherwise merge it unless its grid
        is among the closed grids. The expansion has generated the children
        done and merged those it queued into the open list it started from,
        open0; next is done with this value's child, if any. */
    method PlaceValue(state: SudokuState, x: int, y: int, v: int, c: int, ghost g: Grid, ghost closed: seq<Grid>,
                    ghost puzzle: Grid, ghost sorted: bool, ghost done: seq<Entry>, ghost next: seq<Entry>, ghost open0: seq<Entry>)
        returns (solution: SudokuState?)
      requires InGrid(x, y) && 1 <= v <= 9 && Inv(puzzle, sorted)
      requires state.Valid() && state.Cells() == g && Valid(g) && Extends(g, puzzle) && Grids(closedList) == closed
      requires c == LegalCount(g, x, y, 10)
      requires next == done + (if PlaceOK(g, x, y, v) then [Child(g, x, y, v)] else [])
      requires FirstComplete(done) == None
      requires Summary(openList) == MergeKids(strategy, open0, Queued(done, closed, repeatCheck))
      modifies this`openList
      ensures Inv(puzzle, sorted) && state.Cells() == g && Grids(closedList) == closed
      ensures solution != null ==> Admissible(solution, puzzle) && solution.value == 0 &&
                                   FirstComplete(next) == Some(solution.Cells())
      ensures solution == null ==> FirstComplete(next) == None
      ensures solution == null ==> Summary(openList) == MergeKids(strategy, open0, Queued(next, closed, repeatCheck))
    {
      solution := null;
      label Before:
      var ok := state.PlaceOK(x, y, v);
      SummaryFrame@Before(openList);
      assert state.Cells() == g && Grids(closedList) == closed;
      if !ok {
        assert next == done + [] == done;
        return;
      }
      NextChild(done, Child(g, x, y, v), next, closed, repeatCheck);
      solution := TryChild(state, x, y, v, c, g, closed, puzzle, sorted, open0, Queued(done, closed, repeatCheck));
    }

    /** Build the child for a legal value: return it when it is complete,
        otherwise queue it unless the repeat check finds it closed. */
    method TryChild(state: SudokuState, x: int, y: int, v: int, c: int, ghost g: Grid, ghost closed: seq<Grid>,
                    ghost puzzle: Grid, ghost sorted: bool, ghost open0: seq<Entry>, ghost q: seq<Entry>)
        returns (solution: SudokuState?)
      requires InGrid(x, y) && 1 <= v <= 9 && Inv(puzzle, sorted)
      requires state.Valid() && state.Cells() == g && Valid(g) && Extends(g, puzzle) && Grids(closedList) == closed
      requires c == LegalCount(g, x, y, 10) && PlaceOK(g, x, y, v)
      requires Summary(openList) == MergeKids(strategy, open0, q)
      modifies this`openList
      ensures Inv(puzzle, sorted) && state.Cells() == g && Grids(closedList) == closed
      ensures solution != null ==> Admissible(solution, puzzle) && Complete(Child(g, x, y, v).grid) &&
                                   solution.Cells() == Child(g, x, y, v).grid && solution.value == 0
      ensures solution == null ==> !Complete(Child(g, x, y, v).grid) &&
                                   Summary(openList) == MergeKids(strategy, open0, q + Queued([Child(g, x, y, v)], closed, repeatCheck))
    {
      ghost var sum := Summary(openList);
      label Before:
      var child, count := MakeChild(state, x, y, v, c, g, puzzle);
      Untouched@Before(this);
      assert state.Cells() == g;
      if count == 81 {
        return child;
      }
      assert Entry(child.Cells(), child.value) == Child(g, x, y, v);
      solution := null;
      QueuedOne(strategy, open0, q, Child(g, x, y, v), closed, repeatCheck);
      label Queue:
      Enqueue(child, Child(g, x, y, v), closed, puzzle, sorted, open0, q);
      CellsFrame@Queue(state);
    }

    method Enqueue(child: SudokuState, ghost kid: Entry, ghost closed: seq<Grid>, ghost puzzle: Grid, ghost sorted: bool,
                   ghost open0: seq<Entry>, ghost q: seq<Entry>)
      requires Inv(puzzle, sorted) && Admissible(child, puzzle) && kid == Entry(child.Cells(), child.value)
      requires Grids(closedList) == closed
      requires Summary(openList) == MergeKids(strategy, open0, q)
      modifies this`openList
      ensures Inv(puzzle, sorted) && Grids(closedList) == closed
      ensures repeatCheck && kid.grid in closed ==> Summary(openList) == MergeKids(strategy, open0, q)
      ensures !(repeatCheck && kid.grid in closed) ==> Summary(openList) == MergeKids(strategy, open0, q + [kid])
    {
      var rep := Repeat(child, closed);
      if !rep {
        MergeKid(child, puzzle, open0, q);
        InvFromParts(puzzle, sorted);
      }
    }

    /** The invariant, from its parts. */
    lemma InvFromParts(puzzle: Grid, sorted: bool)
      requires forall s :: s in openList ==> s.Valid()
      requires forall s :: s in closedList ==> s.Valid()
      requires AllGood(Summary(openList), puzzle)
      requires sorted ==> strategy == Best && NonIncreasing(KidValues(Summary(openList)))
      ensures Inv(puzzle, sorted)
    {
    }

    /** Merge a state: as grids and values, the open list gains it at the
        strategy's position, and stays good and sorted. */
    method MergeKid(child: SudokuState, ghost puzzle: Grid, ghost open0: seq<Entry>, ghost q: seq<Entry>)
      requires Admissible(child, puzzle) && forall s :: s in openList ==> s.Valid()
      requires forall s :: s in closedList ==> s.Valid()
      requires AllGood(Summary(openList), puzzle)
      requires Summary(openList) == MergeKids(strategy, open0, q)
      modifies this`openList
      ensures forall s :: s in openList ==> s.Valid()
      ensures Grids(closedList) == old(Grids(closedList))
      ensures AllGood(Summary(openList), puzzle)
      ensures Summary(openList) == MergeKids(strategy, open0, q + [Entry(child.Cells(), child.value)])
      ensures strategy == Best && NonIncreasing(KidValues(old(Summary(openList)))) ==> NonIncreasing(KidValues(Summary(openList)))
    {
      ghost var before := openList;
      ghost var kid := Entry(child.Cells(), child.value);
      ghost var sum := Summary(openList);
      ghost var p := Position(strategy, Values(openList), child.value);
      ValuesOfSummary(openList);
      assert p == Position(strategy, KidValues(sum), kid.value);
      MergeKidsSnoc(strategy, open0, q, kid);
      assert MergeKids(strategy, open0, q + [kid]) == InsertAt(sum, p, kid);
      InsertGood(sum, p, kid, puzzle);
      Merge(child);
      assert Summary(before) == sum;
      SummaryInsert(before, p, child);
      ValuesOfSummary(openList);
    }

    /** Branch on cell (x, y) of state, whose grid is g: count the legal
        values, then try each of them. On entry the open list, as grids
        and values, is base. */
    method ExpandCell(state: SudokuState, x: int, y: int, ghost g: Grid, ghost closed: seq<Grid>,
                      ghost puzzle: Grid, ghost sorted: bool, ghost base: seq<Entry>)
        returns (solution: SudokuState?)
      requires InGrid(x, y) && Inv(puzzle, sorted)
      requires state.Valid() && state.Cells() == g && Valid(g) && Extends(g, puzzle) && Grids(closedList) == closed
      requires Summary(openList) == base
      modifies this`openList
      ensures Inv(puzzle, sorted) && state.Cells() == g && Grids(closedList) == closed
      ensures solution != null ==> Admissible(solution, puzzle) && solution.value == 0
      ensures solution != null ==> FirstComplete(CellKids(g, x, y, 10)) == Some(solution.Cells())
      ensures solution == null ==> FirstComplete(CellKids(g, x, y, 10)) == None
      ensures solution == null ==> Summary(openList) == MergeKids(strategy, base, Queued(CellKids(g, x, y, 10), closed, repeatCheck))
    {
      label Count:
      var c := CountChoices(state, x, y);
      Untouched@Count(this);
      CellsFrame@Count(state);
      solution := TryValues(state, x, y, c, g, closed, puzzle, sorted, base);
    }

    /** Try value v at cell (x, y), the values below it having been tried:
        on entry the open list, as grids and values, is base merged with
        the queued children of those values. */
    method TryValue(state: SudokuState, x: int, y: int, v: int, c: int, ghost g: Grid, ghost closed: seq<Grid>,
                    ghost puzzle: Grid, ghost sorted: bool, ghost base: seq<Entry>)
        returns (solution: SudokuState?)
      requires InGrid(x, y) && 1 <= v <= 9 && Inv(puzzle, sorted) && c == LegalCount(g, x, y, 10)
      requires state.Valid() && state.Cells() == g && Valid(g) && Extends(g, puzzle) && Grids(closedList) == closed
      requires FirstComplete(CellKids(g, x, y, v)) == None
      requires Summary(openList) == MergeKids(strategy, base, Queued(CellKids(g, x, y, v), closed, repeatCheck))
      modifies this`openList
      ensures Inv(puzzle, sorted) && state.Cells() == g && Grids(closedList) == closed
      ensures solution != null ==> Admissible(solution, puzzle) && solution.value == 0
      ensures solution != null ==> FirstComplete(CellKids(g, x, y, 10)) == Some(solution.Cells())
      ensures solution == null ==> FirstComplete(CellKids(g, x, y, v + 1)) == None
      ensures solution == null ==>
                Summary(openList) == MergeKids(strategy, base, Queued(CellKids(g, x, y, v + 1), closed, repeatCheck))
    {
      CellKidsNext(g, x, y, v);
      CellFirstComplete(g, x, y, v + 1);
      solution := PlaceValue(state, x, y, v, c, g, closed, puzzle, sorted, CellKids(g, x, y, v), CellKids(g, x, y, v + 1), base);
    }

    /** Try the values 1..9 at cell (x, y) in ascending order; c is the
        number of legal values there. On entry the open list, as grids and
        values, is base. */
    method TryValues(state: SudokuState, x: int, y: int, c: int, ghost g: Grid, ghost closed: seq<Grid>,
                     ghost puzzle: Grid, ghost sorted: bool, ghost base: seq<Entry>)
        returns (solution: SudokuState?)
      requires InGrid(x, y) && Inv(puzzle, sorted) && c == LegalCount(g, x, y, 10)
      requires state.Valid() && state.Cells() == g && Valid(g) && Extends(g, puzzle) && Grids(closedList) == closed
      requires Summary(openList) == base
      modifies this`openList
      ensures Inv(puzzle, sorted) && state.Cells() == g && Grids(closedList) == closed
      ensures solution != null ==> Admissible(solution, puzzle) && solution.value == 0
      ensures solution != null ==> FirstComplete(CellKids(g, x, y, 10)) == Some(solution.Cells())
      ensures solution == null ==> FirstComplete(CellKids(g, x, y, 10)) == None
      ensures solution == null ==> Summary(openList) == MergeKids(strategy, base, Queued(CellKids(g, x, y, 10), closed, repeatCheck))
    {
      solution := null;
      var i := 1;
      assert CellKids(g, x, y, 1) == [];
      while i <= 9
        invariant 1 <= i <= 10 && solution == null
        invariant Inv(puzzle, sorted) && state.Cells() == g && Grids(closedList) == closed
        invariant FirstComplete(CellKids(g, x, y, i)) == None
        invariant Summary(openList) == MergeKids(strategy, base, Queued(CellKids(g, x, y, i), closed, repeatCheck))
      {
        solution := TryValue(state, x, y, i, c, g, closed, puzzle, sorted, base);
        if solution != null {
          return;
        }
        i := i + 1;
      }
    }

    /** Branch on the cells of row y, left to right. On entry the open
        list, as grids and values, is base. */
    method ExpandRow(state: SudokuState, y: int, ghost g: Grid, ghost closed: seq<Grid>,
                     ghost puzzle: Grid, ghost sorted: bool, ghost base: seq<Entry>)
        returns (solution: SudokuState?)
      requires 0 <= y < 9 && Inv(puzzle, sorted)
      requires state.Valid() && state.Cells() == g && Valid(g) && Extends(g, puzzle) && Grids(closedList) == closed
      requires Summary(openList) == base
      modifies this`openList
      ensures Inv(puzzle, sorted) && state.Cells() == g && Grids(closedList) == closed
      ensures solution != null ==> Admissible(solution, puzzle) && solution.value == 0
      ensures solution != null ==> FirstComplete(RowKids(g, y, 9)) == Some(solution.Cells())
      ensures solution == null ==> FirstComplete(RowKids(g, y, 9)) == None
      ensures solution == null ==> Summary(openList) == MergeKids(strategy, base, Queued(RowKids(g, y, 9), closed, repeatCheck))
    {
      solution := null;
      var x := 0;
      assert MergeKids(strategy, base, Queued(RowKids(g, y, 0), closed, repeatCheck)) == base;
      while x < 9
        invariant 0 <= x <= 9 && solution == null
        invariant Inv(puzzle, sorted) && state.Cells() == g && Grids(closedList) == closed
        invariant FirstComplete(RowKids(g, y, x)) == None
        invariant Summary(openList) == MergeKids(strategy, base, Queued(RowKids(g, y, x), closed, repeatCheck))
      {
        ghost var mid := Summary(openList);
        solution := ExpandCell(state, x, y, g, closed, puzzle, sorted, mid);
        FirstCompleteConcat(RowKids(g, y, x), CellKids(g, x, y, 10));
        if solution != null {
          RowKidsPrefix(g, y, x + 1);
          FirstCompletePrefix(RowKids(g, y, x + 1), RowKids(g, y, 9));
          return;
        }
        QueueBoth(strategy, base, RowKids(g, y, x), CellKids(g, x, y, 10), closed, repeatCheck);
        x := x + 1;
      }
    }

    /** Branch on the rows of a state whose grid is g, top to bottom. On
        entry the open list, as grids and values, is base. */
    method ExpandRows(state: SudokuState, ghost g: Grid, ghost closed: seq<Grid>,
                      ghost puzzle: Grid, ghost sorted: bool, ghost base: seq<Entry>)
        returns (solution: SudokuState?)
      requires Inv(puzzle, sorted)
      requires state.Valid() && state.Cells() == g && Valid(g) && Extends(g, puzzle) && Grids(closedList) == closed
      requires Summary(openList) == base
      modifies this`openList
      ensures Inv(puzzle, sorted) && state.Cells() == g && Grids(closedList) == closed
      ensures solution != null ==> Admissible(solution, puzzle) && solution.value == 0
      ensures solution != null ==> FirstComplete(GridKids(g, 9)) == Some(solution.Cells())
      ensures solution == null ==> FirstComplete(GridKids(g, 9)) == None
      ensures solution == null ==> Summary(openList) == MergeKids(strategy, base, Queued(GridKids(g, 9), closed, repeatCheck))
    {
      solution := null;
      var y := 0;
      assert MergeKids(strategy, base, Queued(GridKids(g, 0), closed, repeatCheck)) == base;
      while y < 9
        invariant 0 <= y <= 9 && solution == null
        invariant Inv(puzzle, sorted) && state.Cells() == g && Grids(closedList) == closed
        invariant FirstComplete(GridKids(g, y)) == None
        invariant Summary(openList) == MergeKids(strategy, base, Queued(GridKids(g, y), closed, repeatCheck))
      {
        ghost var mid := Summary(openList);
        solution := ExpandRow(state, y, g, closed, puzzle, sorted, mid);
        FirstCompleteConcat(GridKids(g, y), RowKids(g, y, 9));
        if solution != null {
          GridKidsPrefix(g, y + 1);
          FirstCompletePrefix(GridKids(g, y + 1), GridKids(g, 9));
          return;
        }
        QueueBoth(strategy, base, GridKids(g, y), RowKids(g, y, 9), closed, repeatCheck);
        y := y + 1;
      }
    }

    /** Expand a state: branch on its cells in row-major order (y outer,
        x inner). Either the first complete child is returned, or every
        child that does not repeat has been merged into the open list, in
        generation order, and the open list costs less than it did with
        the state on it. */
    method Expand(state: SudokuState, ghost puzzle: Grid, ghost sorted: bool) returns (solution: SudokuState?)
      requires Inv(puzzle, sorted) && Admissible(state, puzzle)
      modifies this`openList
      ensures Inv(puzzle, sorted)
      ensures solution != null ==> Admissible(solution, puzzle) && solution.value == 0
      ensures solution != null ==> FirstComplete(GridKids(state.Cells(), 9)) == Some(solution.Cells())
      ensures solution == null ==> FirstComplete(GridKids(state.Cells(), 9)) == None
      ensures solution == null ==>
                Summary(openList) ==
                MergeKids(strategy, old(Summary(openList)), Queued(GridKids(state.Cells(), 9), Grids(closedList), repeatCheck))
      ensures solution == null ==> OpenCost(Summary(openList)) < old(OpenCost(Summary(openList)) + Cost(state))
    {
      ghost var g := state.Cells();
      ghost var closed := Grids(closedList);
      ghost var open0 := Summary(openList);
      solution := ExpandRows(state, g, closed, puzzle, sorted, open0);
      if solution == null {
        ExpansionCost(strategy, open0, g, closed, repeatCheck);
      }
    }

    /** Deduce a state just taken off the open list and count its filled
        cells. A queued state sharing its grid stays admissible, since the
        deduced grid is valid and keeps the puzzle's clues. */
    method DeduceFront(state: SudokuState, ghost puzzle: Grid, ghost sorted: bool) returns (count: int)
      requires Inv(puzzle, sorted) && Admissible(state, puzzle)
      modifies state.grid
      ensures unchanged(this) && Inv(puzzle, sorted)
      ensures state.Cells() == Deduced(old(state.Cells())) && Admissible(state, puzzle)
      ensures count == Filled(state.Cells())
    {
      ghost var g0 := state.Cells();
      ghost var vals := Values(openList);
      AdmissibleSummary(openList, puzzle);
      ValuesOfSummary(openList);
      label Deducing:
      Deduce(state);
      count := state.GridCount();
      ValuesFrame@Deducing(openList);
      DeducedValid(g0);
      ExtendsTrans(state.Cells(), g0, puzzle);
      forall s | s in openList
        ensures Admissible(s, puzzle)
      {
        if s.grid == state.grid {
          assert s.Cells() == state.Cells();
        }
      }
      AdmissibleSummary(openList, puzzle);
      ValuesOfSummary(openList);
    }

    /** The start of search: clear the expansion count, take the front
        state off the open list, deduce it and count its filled cells. */
    method Start(ghost puzzle: Grid, ghost sorted: bool) returns (state: SudokuState, count: int)
      requires Inv(puzzle, sorted) && openList != []
      modifies this`openList, this`expandCount, openList[0].grid
      ensures expandCount == 0 && closedList == old(closedList)
      ensures state == old(openList[0]) && openList == old(openList[1..]) && state.Valid()
      ensures state.Cells() == Deduced(old(state.Cells())) && Admissible(state, puzzle)
      ensures Inv(puzzle, sorted) == true
      ensures count == Filled(state.Cells())
    {
      expandCount := 0;
      state := PopFront(puzzle, sorted);
      count := DeduceFront(state, puzzle, sorted);
    }

    /** Put state on the closed list and count the expansion. */
    method Close(state: SudokuState, ghost puzzle: Grid, ghost sorted: bool)
      requires Inv(puzzle, sorted) && Admissible(state, puzzle)
      modifies this`closedList, this`expandCount
      ensures Inv(puzzle, sorted) && Summary(openList) == old(Summary(openList))
      ensures closedList == old(closedList) + [state] && expandCount == old(expandCount) + 1
      ensures Grids(closedList) == old(Grids(closedList)) + [state.Cells()]
    {
      expandCount := expandCount + 1;
      ghost var closed0 := closedList;
      closedList := closedList + [state];
      assert closedList[..|closed0|] == closed0;
    }

    /** Take the front state off a non-empty open list. The list's cost
        drops by exactly the cost of that state. */
    method PopFront(ghost puzzle: Grid, ghost sorted: bool) returns (next: SudokuState)
      requires Inv(puzzle, sorted) && openList != []
      modifies this`openList
      ensures Inv(puzzle, sorted) && Admissible(next, puzzle)
      ensures openList == old(openList[1..]) && next == old(openList[0]) && closedList == old(closedList)
      ensures OpenCost(Summary(openList)) + Cost(next) == old(OpenCost(Summary(openList)))
      ensures Summary(openList) == old(Summary(openList))[1..] && old(Summary(openList))[0] == Entry(next.Cells(), next.value)
    {
      ghost var ks := Summary(openList);
      next := openList[0];
      var tail := openList[1..];
      StatesTail(openList);
      KidsTail(ks, puzzle);
      EntryOfState(next);
      label Pop:
      openList := tail;
      SummaryFrame@Pop(openList);
      assert Summary(openList) == ks[1..];
    }

    /** Close state and expand it. */
    method CloseAndExpand(state: SudokuState, ghost puzzle: Grid, ghost sorted: bool) returns (solution: SudokuState?)
      requires Inv(puzzle, sorted) && Admissible(state, puzzle)
      modifies this`openList, this`closedList, this`expandCount
      ensures Inv(puzzle, sorted)
      ensures closedList == old(closedList) + [state] && expandCount == old(expandCount) + 1
      ensures Grids(closedList) == old(Grids(closedList)) + [state.Cells()]
      ensures solution != null ==> Admissible(solution, puzzle) && Complete(solution.Cells()) && solution.value == 0
      ensures solution != null ==> FirstComplete(GridKids(state.Cells(), 9)) == Some(solution.Cells())
      ensures solution == null ==> FirstComplete(GridKids(state.Cells(), 9)) == None
      ensures solution == null ==>
                Summary(openList) == Expanded(strategy, repeatCheck, Grids(closedList), old(Summary(openList)), state.Cells())
      ensures solution == null ==> OpenCost(Summary(openList)) < old(OpenCost(Summary(openList)) + Cost(state))
    {
      label Closing:
      Close(state, puzzle, sorted);
      CellsFrame@Closing(state);
      solution := Expand(state, puzzle, sorted);
    }

    /** One round of the search loop: close state, expand it, and unless a
        child is complete take the next state off the front of the open
        list (none when it is empty). merged is the open list, as grids and
        values, right after the expansion. The open list's cost plus the
        next state's cost is below what it was with state. */
    method ExpandNext(state: SudokuState, ghost puzzle: Grid, ghost sorted: bool)
        returns (solution: SudokuState?, next: SudokuState?, ghost merged: seq<Entry>)
      requires Inv(puzzle, sorted) && Admissible(state, puzzle)
      modifies this`openList, this`closedList, this`expandCount
      ensures Inv(puzzle, sorted) == true
      ensures closedList == old(closedList) + [state] && expandCount == old(expandCount) + 1
      ensures Grids(closedList) == old(Grids(closedList)) + [state.Cells()]
      ensures solution != null ==>
                next == null && Admissible(solution, puzzle) && Complete(solution.Cells()) && solution.value == 0 &&
                FirstComplete(GridKids(state.Cells(), 9)) == Some(solution.Cells())
      ensures solution == null ==>
                FirstComplete(GridKids(state.Cells(), 9)) == None &&
                merged == Expanded(strategy, repeatCheck, Grids(closedList), old(Summary(openList)), state.Cells())
      ensures solution == null && next == null ==> merged == [] && openList == []
      ensures solution == null && next != null ==>
                merged != [] && next.Valid() && merged[0] == Entry(next.Cells(), next.value) && Summary(openList) == merged[1..]
      ensures solution == null && next != null ==>
                Admissible(next, puzzle) &&
                OpenCost(Summary(openList)) + Cost(next) <
                old(OpenCost(Summary(openList)) + Cost(state))
    {
      solution := CloseAndExpand(state, puzzle, sorted);
      merged := Summary(openList);
      if solution == null && openList != [] {
        label Popping:
        next := PopFront(puzzle, sorted);
        GridsFrame@Popping(closedList);
      } else {
        next := null;
      }
    }

    /** How the search loop ends, run from state with closed the closed
        list it started with (closed0 and open0 are that list's grids and
        the open list's grids and values then): trace lists the states
        expanded, as grids and values, the first being state; they follow
        closed on the closed list and replay from closed0 and open0. A
        solution is the first complete child of the last of them; without
        one, the run has exhausted the open list. */
    ghost predicate Ended(puzzle: Grid, sorted: bool, closed: seq<SudokuState>, closed0: seq<Grid>, open0: seq<Entry>,
                          state: SudokuState, solution: SudokuState?, trace: seq<Entry>)
      reads this, openList, set s | s in openList :: s.grid, set s | s in closedList :: s.grid
      reads if solution == null then {} else {solution, solution.grid}
    {
      && Inv(puzzle, sorted)
      && (solution == null ==> openList == [])
      && |trace| == expandCount > 0 && |closedList| == |closed| + expandCount
      && closedList[..|closed|] == closed && closedList[|closed|] == state
      && Grids(closedList) == closed0 + EntryGrids(trace)
      && Replay(strategy, repeatCheck, closed0, open0, trace).Some?
      && (solution == null ==> Exhausts(strategy, repeatCheck, closed0, open0, trace))
      && (solution != null ==>
            Admissible(solution, puzzle) && Complete(solution.Cells()) && solution.value == 0 &&
            SolvedFrom(trace[|trace| - 1].grid, solution.Cells()))
      && (sorted ==> NonIncreasing(Values(openList)))
    }

    /** A round of the search loop that keeps the record of the states
        expanded so far: prior, then cur for current, replays from the
        loop's starting lists to the open list now, and expanded, the same
        states, follow closed on the closed list. If the round stops the
        loop, the run has Ended; otherwise the popped state follows cur. */
    method Advance(current: SudokuState, ghost puzzle: Grid, ghost sorted: bool, ghost closed: seq<SudokuState>,
                   ghost closed0: seq<Grid>, ghost open0: seq<Entry>, ghost state: SudokuState,
                   ghost prior: seq<Entry>, ghost cur: Entry, ghost expanded: seq<SudokuState>)
        returns (solution: SudokuState?, next: SudokuState?)
      requires Inv(puzzle, sorted) && Admissible(current, puzzle) && cur == Entry(current.Cells(), current.value)
      requires closedList == closed + expanded && expandCount == |expanded| == |prior|
      requires if expanded == [] then current == state && prior == [] else expanded[0] == state
      requires Progress(strategy, repeatCheck, closed0, open0, prior, cur, Grids(closedList), Summary(openList))
      modifies this`openList, this`closedList, this`expandCount
      ensures Inv(puzzle, sorted) == true
      ensures closedList == closed + (expanded + [current]) && expandCount == old(expandCount) + 1
      ensures solution != null || next == null ==> Ended(puzzle, sorted, closed, closed0, open0, state, solution, prior + [cur])
      ensures next != null ==>
                solution == null && Admissible(next, puzzle) &&
                Progress(strategy, repeatCheck, closed0, open0, prior + [cur], Entry(next.Cells(), next.value),
                         Grids(closedList), Summary(openList)) &&
                OpenCost(Summary(openList)) + Cost(next) < old(OpenCost(Summary(openList)) + Cost(current))
    {
      ghost var merged;
      label Head:
      solution, next, merged := ExpandNext(current, puzzle, sorted);
      ProgressEnd(strategy, repeatCheck, closed0, open0, prior, cur,
                  old@Head(Grids(closedList)), old@Head(Summary(openList)), merged);
      if solution == null && next != null {
        ProgressStep(strategy, repeatCheck, closed0, open0, prior, cur,
                     old@Head(Grids(closedList)), old@Head(Summary(openList)),
                     merged, Entry(next.Cells(), next.value));
      }
      ValuesOfSummary(openList);
      AppendAssoc(closed, expanded, [current]);
      AppendParts(closed, expanded + [current]);
      assert (prior + [cur])[|prior + [cur]| - 1] == cur;
    }

    /** The loop of search: close and expand state, then the next front
        state, until a child is complete or the open list runs out. trace
        lists the states expanded, as grids and values, in order; it
        replays from the open and closed lists the loop started with. */
    method Explore(state: SudokuState, ghost puzzle: Grid, ghost sorted: bool)
        returns (solution: SudokuState?, ghost trace: seq<Entry>)
      requires Inv(puzzle, sorted) && Admissible(state, puzzle) && expandCount == 0
      modifies this`openList, this`closedList, this`expandCount
      ensures Ended(puzzle, sorted, old(closedList), old(Grids(closedList)), old(Summary(openList)), state, solution, trace)
    {
      ghost var closed := closedList;
      ghost var closed0 := Grids(closedList);
      ghost var open0 := Summary(openList);
      var current: SudokuState := state;
      ghost var cur := Entry(state.Cells(), state.value);
      ghost var prior: seq<Entry> := [];
      ghost var expanded: seq<SudokuState> := [];
      assert Replay(strategy, repeatCheck, closed0, open0, [cur]) == Some(open0);
      while true
        invariant Inv(puzzle, sorted) && Admissible(current, puzzle) && cur == Entry(current.Cells(), current.value)
        invariant closedList == closed + expanded && expandCount == |expanded| == |prior|
        invariant if expanded == [] then current == state && prior == [] else expanded[0] == state
        invariant Progress(strategy, repeatCheck, closed0, open0, prior, cur, Grids(closedList), Summary(openList))
        decreases OpenCost(Summary(openList)) + Cost(current)
      {
        var next: SudokuState?;
        solution, next := Advance(current, puzzle, sorted, closed, closed0, open0, state, prior, cur, expanded);
        if solution != null || next == null {
          trace := prior + [cur];
          break;
        }
        prior := prior + [cur];
        expanded := expanded + [current];
        current := next;
        cur := Entry(current.Cells(), current.value);
      }
    }

    /** From the deduced front state with count filled cells: return it
        if complete, otherwise run the search loop from it. */
    method Solve(state: SudokuState, count: int, ghost puzzle: Grid, ghost sorted: bool,
                 ghost closed0: seq<Grid>, ghost open0: seq<Entry>)
        returns (solution: SudokuState?, ghost trace: seq<Entry>)
      requires Inv(puzzle, sorted) && Admissible(state, puzzle)
      requires expandCount == 0 && count == Filled(state.Cells())
      requires closed0 == Grids(closedList) && open0 == Summary(openList)
      modifies this`openList, this`closedList, this`expandCount
      ensures Inv(puzzle, sorted) == true
      ensures solution == null ==> openList == []
      ensures solution != null ==> Admissible(solution, puzzle) && Complete(solution.Cells())
      ensures |trace| == expandCount && |closedList| == |old(closedList)| + expandCount
      ensures closedList[..|old(closedList)|] == old(closedList) && Grids(closedList)[..|old(closedList)|] == closed0
      ensures Grids(closedList)[|old(closedList)|..] == EntryGrids(trace)
      ensures expandCount > 0 ==>
                closedList[|old(closedList)|] == state && Replay(strategy, repeatCheck, closed0, open0, trace).Some?
      ensures solution == null ==> expandCount > 0 && Exhausts(strategy, repeatCheck, closed0, open0, trace)
      ensures Summary(old(openList)) == open0
      ensures count == 81 ==> expandCount == 0 && solution == state
      ensures count != 81 ==> expandCount > 0
      ensures solution != null && expandCount == 0 ==> solution == state && state.Cells() == old(state.Cells())
      ensures solution != null && expandCount > 0 ==>
                solution.value == 0 && SolvedFrom(trace[|trace| - 1].grid, solution.Cells())
      ensures sorted ==> NonIncreasing(Values(openList))
    {
      if count == 81 {
        FilledAll(state.Cells());
        ValuesOfSummary(openList);
        solution, trace := state, [];
        assert expandCount == 0 && closedList[..|old(closedList)|] == old(closedList);
        assert Grids(closedList)[..|old(closedList)|] == closed0;
      } else {
        label Explored:
        solution, trace := Explore(state, puzzle, sorted);
        SummaryFrame@Explored(old(openList));
        AppendParts(closed0, EntryGrids(trace));
      }
    }

    /** Admissible open states and valid closed ones give the invariant,
        sorted exactly when best-first starts from a non-increasing list. */
    lemma Establish(puzzle: Grid)
      requires forall s :: s in openList ==> Admissible(s, puzzle)
      requires forall s :: s in closedList ==> s.Valid()
      ensures Inv(puzzle, strategy == Best && NonIncreasing(Values(openList)))
    {
      AdmissibleSummary(openList, puzzle);
      ValuesOfSummary(openList);
    }

    /** Search: pop the front state, deduce it and return it if complete;
        otherwise expand states (closing each one first) until a child is
        complete or the open list runs out. trace lists the states expanded,
        as grids and values: the first is the one first popped, and the
        run replays from the closed grids and the rest of the open list, so
        each later state is the front of the open list the strategy's merges
        left, and a run that returns nothing has emptied it. closed0 and
        rest are the closed grids and the open list, as grids and values,
        just after the first pop. */
    method Search(ghost puzzle: Grid)
        returns (solution: SudokuState?, ghost trace: seq<Entry>, ghost closed0: seq<Grid>, ghost rest: seq<Entry>)
      requires forall s :: s in openList ==> Admissible(s, puzzle)
      requires forall s :: s in closedList ==> s.Valid()
      modifies this`openList, this`closedList, this`expandCount
      modifies if openList == [] then {} else {openList[0].grid}
      ensures solution == null ==> openList == []
      ensures solution != null ==> Admissible(solution, puzzle) && Complete(solution.Cells())
      ensures expandCount >= 0 && |closedList| == |old(closedList)| + expandCount && closedList[..|old(closedList)|] == old(closedList)
      ensures (forall s :: s in closedList ==> s.Valid()) && (forall s :: s in old(openList) ==> s.Valid())
      ensures |trace| == expandCount && Grids(closedList)[|old(closedList)|..] == EntryGrids(trace)
      ensures old(openList) == [] ==> solution == null && expandCount == 0
      ensures expandCount > 0 ==> old(openList) != [] && closedList[|old(closedList)|] == old(openList)[0]
      ensures old(openList) != [] ==> closed0 == Grids(closedList)[..|old(closedList)|] && rest == Summary(old(openList)[1..])
      ensures old(openList) != [] ==> old(openList)[0].Cells() == Deduced(old(openList[0].Cells()))
      ensures old(openList) != [] ==>
                (Complete(Deduced(old(openList[0].Cells()))) <==> expandCount == 0 && solution == old(openList)[0])
      ensures expandCount > 0 ==> Replay(strategy, repeatCheck, closed0, rest, trace).Some?
      ensures solution == null && old(openList) != [] ==> expandCount > 0 && Exhausts(strategy, repeatCheck, closed0, rest, trace)
      ensures solution != null && expandCount == 0 ==>
                old(openList) != [] && solution == old(openList)[0] && solution.Cells() == Deduced(old(solution.Cells()))
      ensures solution != null && expandCount > 0 ==>
                solution.value == 0 && SolvedFrom(trace[|trace| - 1].grid, solution.Cells())
      ensures strategy == Best && old(NonIncreasing(Values(openList))) ==> NonIncreasing(Values(openList))
    {
      ghost var sorted := strategy == Best && NonIncreasing(Values(openList));
      if openList == [] {
        expandCount := 0;
        solution, trace, closed0, rest := null, [], [], [];
      } else {
        Establish(puzzle);
        var state, count := Start(puzzle, sorted);
        FilledAll(state.Cells());
        closed0, rest := Grids(closedList), Summary(openList);
        solution, trace := Solve(state, count, puzzle, sorted, closed0, rest);
      }
    }
  }

  /** A copy of state with v written at (x, y), then deduced, with the
      number of its filled cells. A complete copy is left with value 0;
      any other is valued from its filled cells and from c, the number of
      legal values the cell had. */
  method MakeChild(state: SudokuState, x: int, y: int, v: int, c: int, ghost g: Grid, ghost puzzle: Grid)
      returns (child: SudokuState, count: int)
    requires state.Valid() && state.Cells() == g && InGrid(x, y) && 1 <= v <= 9 && c == LegalCount(g, x, y, 10)
    requires Valid(g) && Extends(g, puzzle) && PlaceOK(g, x, y, v)
    ensures fresh(child) && fresh(child.grid) && Admissible(child, puzzle)
    ensures child.Cells() == Child(g, x, y, v).grid
    ensures count == 81 <==> Complete(child.Cells())
    ensures count == 81 ==> child.value == 0
    ensures count != 81 ==> child.value == Child(g, x, y, v).value
  {
    ghost var kid := Child(g, x, y, v);
    assert kid.value == 10 * Filled(kid.grid) + (9 - c);
    child, count := DeducedChild(state, x, y, v, g, puzzle);
    if count != 81 {
      label Valuing:
      child.value := count * 10 + (9 - c);
      CellsFrame@Valuing(child);
    }
  }

  /** A copy of state with value v written at (x, y), then deduced, and
      the number of its filled cells. */
  method DeducedChild(state: SudokuState, x: int, y: int, v: int, ghost g: Grid, ghost puzzle: Grid)
      returns (child: SudokuState, count: int)
    requires state.Valid() && state.Cells() == g && InGrid(x, y) && 1 <= v <= 9
    requires Valid(g) && Extends(g, puzzle) && PlaceOK(g, x, y, v)
    ensures fresh(child) && fresh(child.grid) && Admissible(child, puzzle)
    ensures child.Cells() == Child(g, x, y, v).grid && count == Filled(child.Cells()) && child.value == 0
    ensures count == 81 <==> Complete(child.Cells())
  {
    child := state.CloneState();
    child.SetNum(x, y, v);
    Deduce(child);
    count := child.GridCount();
    ChildGood(g, x, y, v, puzzle);
  }


  /** The number of values 1..9 that placeOK admits at (x, y). */
  method CountChoices(state: SudokuState, x: int, y: int) returns (c: int)
    requires state.Valid() && InGrid(x, y)
    ensures c == LegalCount(state.Cells(), x, y, 10)
  {
    c := 0;
    var i := 1;
    while i <= 9
      invariant 1 <= i <= 10 && c == LegalCount(state.Cells(), x, y, i)
    {
      var ok := state.PlaceOK(x, y, i);
      if ok {
        c := c + 1;
      }
      i := i + 1;
    }
  }
}
