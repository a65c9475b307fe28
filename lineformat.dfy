/** The text form of a grid: nine lines of nine characters. Loading maps
    '1'..'9' to that digit and every other character to 0; saving writes 0
    as a space and any other value in decimal. The Java loader reads whole
    lines and fails on a line shorter than nine characters; the C++ loader
    reads with fgets into a buffer pre-filled with '0', so a short line
    yields empty cells, and only a missing line is an error. */
module LineFormat {
  import opened Board
  import opened Wrappers

  datatype LoadError = UnexpectedEof | ShortLine(y: nat)

  /** load's mapping of one character to a cell value. */
  function DigitOf(c: char): (n: int)
    ensures 0 <= n <= 9
    ensures n != 0 <==> '1' <= c <= '9'
  {
    if c < '1' || c > '9' then 0 else c as int - '0' as int
  }

  function DigitChar(d: int): char
    requires 0 <= d <= 9
  {
    ('0' as int + d) as char
  }

  /** Decimal text of n, as "%d" and "" + n write it. */
  function Decimal(n: int): (s: string)
    ensures |s| >= 1
    decreases if n < 0 then -n + 1 else n
  {
    if n < 0 then "-" + Decimal(-n)
    else if n < 10 then [DigitChar(n)]
    else Decimal(n / 10) + [DigitChar(n % 10)]
  }

  /** save's text for one cell: 0 is a space. */
  function Render(n: int): string
  {
    if n == 0 then " " else Decimal(n)
  }

  /** A cell in 0..9 is written as one character that loads back as itself. */
  lemma RenderRoundTrip(n: int)
    requires 0 <= n <= 9
    ensures |Render(n)| == 1 && Render(n) != "\n" && DigitOf(Render(n)[0]) == n
  {
  }

  /** The characters save writes for a sequence of cells. */
  function RenderCells(s: seq<int>): string
  {
    if s == [] then "" else RenderCells(s[..|s| - 1]) + Render(s[|s| - 1])
  }

  lemma {:induction false} RenderCellsAt(s: seq<int>)
    requires forall i :: 0 <= i < |s| ==> 0 <= s[i] <= 9
    ensures |RenderCells(s)| == |s|
    ensures forall i :: 0 <= i < |s| ==> RenderCells(s)[i] != '\n' && DigitOf(RenderCells(s)[i]) == s[i]
  {
    if s != [] {
      var t := s[..|s| - 1];
      RenderCellsAt(t);
      RenderRoundTrip(s[|s| - 1]);
    }
  }

  /** Line y of a saved grid, without its line terminator. */
  function SaveLine(g: Grid, y: int): string
    requires 0 <= y < 9
  {
    RenderCells(Row(g, y))
  }

  // ---------------------------------------------------------------- Java

  /** Row of cells from one line read by readLine; getChars(0, 9, ...)
      throws on a line shorter than nine characters. */
  function LineCells(s: string): seq<int>
    requires |s| >= 9
  {
    seq(9, x requires 0 <= x < 9 => DigitOf(s[x]))
  }

  /** The first n rows loaded from lines, or the first error. */
  function LoadRows(lines: seq<string>, n: nat): (r: Result<seq<int>, LoadError>)
    requires n <= 9
    ensures r.Success? <==> n <= |lines| && forall y :: 0 <= y < n ==> |lines[y]| >= 9
    ensures r.Success? ==> |r.value| == 9 * n
    ensures r.Success? ==> forall x, y :: 0 <= x < 9 && 0 <= y < n ==> r.value[x + 9 * y] == DigitOf(lines[y][x])
  {
    if n == 0 then Success([])
    else match LoadRows(lines, n - 1)
      case Failure(e) => Failure(e)
      case Success(cells) =>
        if n - 1 >= |lines| then Failure(UnexpectedEof)
        else if |lines[n - 1]| < 9 then Failure(ShortLine(n - 1))
        else Success(cells + LineCells(lines[n - 1]))
  }

  /** load(String): the grid read from the file's lines. */
  function Load(lines: seq<string>): Result<Grid, LoadError>
  {
    match LoadRows(lines, 9)
    case Failure(e) => Failure(e)
    case Success(cells) => Success(cells)
  }

  /** save(String): the nine lines written (println adds the terminator). */
  function Save(g: Grid): seq<string>
  {
    seq(9, y requires 0 <= y < 9 => SaveLine(g, y))
  }

  /** Each saved line of a grid with cells in 0..9 has nine characters,
      and the x-th loads back as cell (x, y). */
  lemma SavedLines(g: Grid)
    requires InRange(g)
    ensures |Save(g)| == 9
    ensures forall y :: 0 <= y < 9 ==> |Save(g)[y]| == 9
    ensures forall x, y :: 0 <= x < 9 && 0 <= y < 9 ==> DigitOf(Save(g)[y][x]) == Get(g, x, y)
  {
    forall y | 0 <= y < 9
      ensures |Save(g)[y]| == 9 && forall x :: 0 <= x < 9 ==> DigitOf(Save(g)[y][x]) == Get(g, x, y)
    {
      RenderCellsAt(Row(g, y));
    }
  }

  /** Saving a grid whose cells are all in 0..9 and loading it back
      reproduces the grid. */
  lemma SaveLoadRoundTrip(g: Grid)
    requires InRange(g)
    ensures Load(Save(g)) == Success(g)
  {
    var lines := Save(g);
    SavedLines(g);
    var r := LoadRows(lines, 9);
    assert r.Success?;
    forall i | 0 <= i < 81 ensures r.value[i] == g[i] {
      var x, y := i % 9, i / 9;
      assert 0 <= x < 9 && 0 <= y < 9 && i == x + 9 * y;
      assert r.value[x + 9 * y] == DigitOf(lines[y][x]) == Get(g, x, y);
    }
    assert r.value == g;
  }

  // ---------------------------------------------------------------- C++

  /** Characters fgets(buf, 49, fp) takes from s: up to and including the
      first newline, at most limit (48) of them. */
  function LineLength(s: string, limit: nat): (n: nat)
    ensures n <= |s| && n <= limit
    ensures |s| > 0 && limit > 0 ==> n > 0
  {
    if s == [] || limit == 0 then 0
    else if s[0] == '\n' then 1
    else 1 + LineLength(s[1..], limit - 1)
  }

  /** fgets: the line read and the rest of the input, or None at end of input. */
  function Fgets(input: string): Option<(string, string)>
  {
    if input == [] then None
    else
      var n := LineLength(input, 48);
      Some((input[..n], input[n..]))
  }

  /** Row of cells from the buffer: fgets copies the line and a '\0' over a
      buffer of '0's, and none of those fill characters is a digit 1..9. */
  function BufferCells(line: string): seq<int>
  {
    seq(9, x requires 0 <= x < 9 => if x < |line| then DigitOf(line[x]) else 0)
  }

  /** A line shorter than nine characters leaves the rest of its row empty. */
  lemma ShortLinePadded(line: string, x: int)
    requires |line| <= x < 9
    ensures BufferCells(line)[x] == 0
  {
  }

  /** The number of lines fgets reads from input before it runs out. */
  function Lines(input: string): nat
    decreases |input|
  {
    if input == [] then 0 else 1 + Lines(input[LineLength(input, 48)..])
  }

  /** Reads k rows; reading fails exactly when the input holds fewer than
      k lines, and a missing line is the only error. */
  function ReadRows(input: string, k: nat): (r: Result<(seq<int>, string), LoadError>)
    ensures r.Success? <==> Lines(input) >= k
    ensures r.Success? ==> |r.value.0| == 9 * k
    ensures r.Failure? ==> r.error == UnexpectedEof
  {
    if k == 0 then Success(([], input))
    else match Fgets(input)
      case None => Failure(UnexpectedEof)
      case Some((line, rest)) =>
        match ReadRows(rest, k - 1)
        case Failure(e) => Failure(e)
        case Success((cells, rest2)) => Success((BufferCells(line) + cells, rest2))
  }

  /** load(FILE*): the grid read from the input stream. */
  function LoadStream(input: string): (r: Result<Grid, LoadError>)
    ensures r.Success? <==> Lines(input) >= 9
    ensures r.Failure? ==> r.error == UnexpectedEof
  {
    match ReadRows(input, 9)
    case Failure(e) => Failure(e)
    case Success((cells, _)) => Success(cells)
  }

  /** save(FILE*) from row y on: each row then "\n". */
  function SaveStreamFrom(g: Grid, y: nat): string
    requires y <= 9
    decreases 9 - y
  {
    if y == 9 then "" else SaveLine(g, y) + "\n" + SaveStreamFrom(g, y + 1)
  }

  function SaveStream(g: Grid): string
  {
    SaveStreamFrom(g, 0)
  }

  /** A saved line of a grid in 0..9 is nine non-newline characters, ends in
      a newline, and fills its buffer with row y of the grid. */
  lemma SavedLine(g: Grid, y: int)
    requires InRange(g) && 0 <= y < 9
    ensures var line := SaveLine(g, y) + "\n";
      && |line| == 10 && line[9] == '\n'
      && (forall i :: 0 <= i < 9 ==> line[i] != '\n')
      && BufferCells(line) == g[9 * y..9 * y + 9]
  {
    var line := SaveLine(g, y) + "\n";
    forall x | 0 <= x < 9 ensures 0 <= Row(g, y)[x] <= 9 {
      assert Row(g, y)[x] == g[x + 9 * y];
    }
    RenderCellsAt(Row(g, y));
    forall x | 0 <= x < 9 ensures BufferCells(line)[x] == g[9 * y + x] {
      assert Row(g, y)[x] == g[x + 9 * y];
    }
  }

  /** fgets takes row y of a saved grid off the saved stream, and its
      buffer holds that row. */
  lemma SavedRowFgets(g: Grid, y: nat)
    requires InRange(g) && y < 9
    ensures var line := SaveLine(g, y) + "\n";
      && Fgets(SaveStreamFrom(g, y)) == Some((line, SaveStreamFrom(g, y + 1)))
      && BufferCells(line) == g[9 * y..9 * y + 9]
  {
    var line := SaveLine(g, y) + "\n";
    var rest := SaveStreamFrom(g, y + 1);
    assert SaveStreamFrom(g, y) == line + rest;
    SavedLine(g, y);
    LineLengthOfLine(line, rest);
    assert (line + rest)[..10] == line && (line + rest)[10..] == rest;
  }

  /** Reading k rows takes one line and then k - 1 rows. */
  lemma ReadRowsCons(input: string, line: string, rest: string, k: nat, cells: seq<int>, rest2: string)
    requires k > 0 && Fgets(input) == Some((line, rest))
    requires ReadRows(rest, k - 1) == Success((cells, rest2))
    ensures ReadRows(input, k) == Success((BufferCells(line) + cells, rest2))
  {
  }

  lemma {:induction false} ReadSavedRows(g: Grid, y: nat)
    requires InRange(g) && y <= 9
    ensures ReadRows(SaveStreamFrom(g, y), 9 - y) == Success((g[9 * y..], ""))
    decreases 9 - y
  {
    if y < 9 {
      var line := SaveLine(g, y) + "\n";
      SavedRowFgets(g, y);
      ReadSavedRows(g, y + 1);
      ReadRowsCons(SaveStreamFrom(g, y), line, SaveStreamFrom(g, y + 1), 9 - y, g[9 * (y + 1)..], "");
      assert g[9 * y..] == g[9 * y..9 * y + 9] + g[9 * (y + 1)..];
    } else {
      assert g[9 * y..] == [];
    }
  }

  /** fgets takes exactly a short newline-terminated line off the input. */
  lemma {:induction false} LineLengthOfLine(line: string, rest: string)
    requires 1 <= |line| <= 48 && line[|line| - 1] == '\n'
    requires forall i :: 0 <= i < |line| - 1 ==> line[i] != '\n'
    ensures LineLength(line + rest, 48) == |line|
  {
    LineLengthPrefix(line, rest, 48);
  }

  lemma {:induction false} LineLengthPrefix(line: string, rest: string, limit: nat)
    requires 1 <= |line| <= limit && line[|line| - 1] == '\n'
    requires forall i :: 0 <= i < |line| - 1 ==> line[i] != '\n'
    ensures LineLength(line + rest, limit) == |line|
  {
    if |line| > 1 {
      assert (line + rest)[1..] == line[1..] + rest;
      LineLengthPrefix(line[1..], rest, limit - 1);
    }
  }

  /** Saving a grid whose cells are all in 0..9 to a stream and loading it
      back reproduces the grid. */
  lemma SaveLoadStreamRoundTrip(g: Grid)
    requires InRange(g)
    ensures LoadStream(SaveStream(g)) == Success(g)
  {
    ReadSavedRows(g, 0);
  }
}
