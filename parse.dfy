/**
 * Building a grid from rows of tiles (`From<&[Row]>`), parsing one from text
 * (`try_from`), and rendering one as text (`Display`). Text lists the top row first;
 * the grid's row 0 is the bottom one.
 */
module Parse {
  import opened Points
  import opened Wrappers
  import opened Grid
  import opened Arith
  import opened Tiles

  /**
   * `MapConversionErr`. `E` is the tile parser's own error; a read error carries no
   * payload here.
   */
  datatype MapConversionErr<E> =
    | TileConversion(err: E, chunk: string)
    | NotRectangular
    | Io

  /** Every row has the length of the first. */
  predicate Rectangular<T>(rows: seq<seq<T>>) {
    forall i :: 0 <= i < |rows| ==> |rows[i]| == |rows[0]|
  }

  function Reversed<T>(s: seq<T>): (r: seq<T>)
    ensures |r| == |s|
    ensures forall i :: 0 <= i < |s| ==> r[i] == s[|s| - 1 - i]
  {
    seq(|s|, i requires 0 <= i < |s| => s[|s| - 1 - i])
  }

  // ----------------------------------------------------------------------------------
  // From<&[Row]>

  /**
   * The grid whose row `y` is `rows[y]`, bottom row first, with its lower-left corner
   * at the origin. No rows give the empty grid.
   */
  function RowsToMap<Tile>(rows: seq<seq<Tile>>): (m: Map<Tile>)
    requires Rectangular(rows)
    ensures m.Valid() && m.offset == Point(0, 0) && m.height == |rows|
    ensures m.width == if |rows| == 0 then 0 else |rows[0]|
    ensures forall x, y {:trigger rows[y][x]} :: 0 <= y < |rows| && 0 <= x < |rows[y]| ==> m.At(Point(x, y)) == rows[y][x]
  {
    if |rows| == 0 then Map([], 0, 0, Point(0, 0))
    else
      MapOfRows(rows, |rows[0]|);
      Map(Concat(rows), |rows[0]|, |rows|, Point(0, 0))
  }

  /** Equal-length rows, concatenated, are the buffer of the grid whose row `y` is `rows[y]`. */
  lemma MapOfRows<Tile>(rows: seq<seq<Tile>>, width: nat)
    requires forall i :: 0 <= i < |rows| ==> |rows[i]| == width
    ensures Map(Concat(rows), width, |rows|, Point(0, 0)).Valid()
    ensures forall x, y {:trigger rows[y][x]} :: 0 <= y < |rows| && 0 <= x < width ==>
      Map(Concat(rows), width, |rows|, Point(0, 0)).At(Point(x, y)) == rows[y][x]
  {
    var m := Map(Concat(rows), width, |rows|, Point(0, 0));
    ConcatLength(rows, width);
    forall x, y | 0 <= y < |rows| && 0 <= x < width
      ensures m.At(Point(x, y)) == rows[y][x]
    {
      ConcatCell(rows, width, x, y);
    }
  }

  /** Row `y`, column `x` of equal-length rows sits at `x + RowStart(y, width)` of their concatenation. */
  lemma {:induction false} ConcatCell<T>(rows: seq<seq<T>>, width: nat, x: nat, y: nat)
    requires forall i :: 0 <= i < |rows| ==> |rows[i]| == width
    requires y < |rows| && x < width
    ensures x + RowStart(y, width) < |Concat(rows)|
    ensures Concat(rows)[x + RowStart(y, width)] == rows[y][x]
    decreases |rows|
  {
    var init := rows[..|rows| - 1];
    ConcatLength(init, width);
    assert Concat(rows) == Concat(init) + rows[|rows| - 1];
    if y < |init| {
      ConcatCell(init, width, x, y);
      assert rows[y] == init[y];
    } else {
      assert RowStart(y, width) == |Concat(init)|;
    }
  }

  /** `From<&[Row]>`: the tiles row after row. Rows of unequal length make the source panic. */
  method FromRows<Tile>(rows: seq<seq<Tile>>) returns (m: Map<Tile>)
    requires Rectangular(rows)
    ensures m == RowsToMap(rows)
  {
    var height := |rows|;
    if height == 0 {
      return Map([], 0, 0, Point(0, 0));
    }
    var width := |rows[0]|;
    var tiles := [];
    for y := 0 to height
      invariant tiles == Concat(rows[..y])
    {
      for x := 0 to |rows[y]|
        invariant tiles == Concat(rows[..y]) + rows[y][..x]
      {
        tiles := tiles + [rows[y][x]];
      }
      assert rows[..y + 1][..y] == rows[..y];
    }
    assert rows[..height] == rows;
    m := Map(tiles, width, height, Point(0, 0));
  }

  // ----------------------------------------------------------------------------------
  // try_from

  /** The tiles of a line's chunks, in order, or the first chunk that does not parse. */
  function ParseRow<Tile, E>(chunks: seq<string>, parse: string -> Result<Tile, E>): (r: Result<seq<Tile>, MapConversionErr<E>>)
    ensures r.Success? ==> |r.value| == |chunks|
    ensures r.Failure? ==> r.error.TileConversion?
    decreases |chunks|
  {
    if |chunks| == 0 then Success([])
    else
      match ParseRow(chunks[..|chunks| - 1], parse)
      case Failure(e) => Failure(e)
      case Success(row) =>
        match parse(chunks[|chunks| - 1])
        case Failure(err) => Failure(TileConversion(err, chunks[|chunks| - 1]))
        case Success(t) => Success(row + [t])
  }

  /** One line of input: a read error, or the tiles of its whole chunks. */
  function ParseLine<Tile, E>(line: Result<string, ()>, width: nat, parse: string -> Result<Tile, E>): Result<seq<Tile>, MapConversionErr<E>>
    requires width >= 1
  {
    match line
    case Failure(_) => Failure(Io)
    case Success(text) => ParseRow(ChunksOf(text, width), parse)
  }

  /** The non-empty rows of the lines read so far, first line first, or the first error. */
  function ParseLines<Tile, E>(lines: seq<Result<string, ()>>, width: nat, parse: string -> Result<Tile, E>): (r: Result<seq<seq<Tile>>, MapConversionErr<E>>)
    requires width >= 1
    ensures r.Success? ==> |r.value| <= |lines| && forall i :: 0 <= i < |r.value| ==> r.value[i] != []
    ensures r.Failure? ==> !r.error.NotRectangular?
    decreases |lines|
  {
    if |lines| == 0 then Success([])
    else
      match ParseLines(lines[..|lines| - 1], width, parse)
      case Failure(e) => Failure(e)
      case Success(rows) =>
        match ParseLine(lines[|lines| - 1], width, parse)
        case Failure(e) => Failure(e)
        case Success(row) => Success(if row == [] then rows else rows + [row])
  }

  /** What `try_from` produces from a reader's lines, for a tile type of display width `width`. */
  function TryFromSpec<Tile, E>(lines: seq<Result<string, ()>>, width: nat, parse: string -> Result<Tile, E>): Result<Map<Tile>, MapConversionErr<E>>
    requires width >= 1
  {
    match ParseLines(lines, width, parse)
    case Failure(e) => Failure(e)
    case Success(rows) =>
      if !Rectangular(rows) then Failure(NotRectangular) else Success(RowsToMap(Reversed(rows)))
  }

  lemma {:induction false} ParseRowSticky<Tile, E>(chunks: seq<string>, more: seq<string>, parse: string -> Result<Tile, E>)
    requires ParseRow(chunks, parse).Failure?
    ensures ParseRow(chunks + more, parse) == ParseRow(chunks, parse)
    decreases |more|
  {
    if |more| == 0 {
      assert chunks + more == chunks;
    } else {
      var all := chunks + more;
      ParseRowSticky(chunks, more[..|more| - 1], parse);
      assert all[..|all| - 1] == chunks + more[..|more| - 1];
    }
  }

  lemma {:induction false} ParseLinesSticky<Tile, E>(lines: seq<Result<string, ()>>, more: seq<Result<string, ()>>, width: nat, parse: string -> Result<Tile, E>)
    requires width >= 1
    requires ParseLines(lines, width, parse).Failure?
    ensures ParseLines(lines + more, width, parse) == ParseLines(lines, width, parse)
    decreases |more|
  {
    if |more| == 0 {
      assert lines + more == lines;
    } else {
      var all := lines + more;
      ParseLinesSticky(lines, more[..|more| - 1], width, parse);
      assert all[..|all| - 1] == lines + more[..|more| - 1];
    }
  }

  /**
   * `try_from`: read line by line, parse each line's chunks, keep the non-empty rows,
   * check they are rectangular, and put the last line at the bottom.
   */
  method TryFromLines<Tile, E>(lines: seq<Result<string, ()>>, width: nat, parse: string -> Result<Tile, E>) returns (r: Result<Map<Tile>, MapConversionErr<E>>)
    requires width >= 1
    ensures r == TryFromSpec(lines, width, parse)
  {
    var arr: seq<seq<Tile>> := [];
    for k := 0 to |lines|
      invariant ParseLines(lines[..k], width, parse) == Success(arr)
    {
      assert lines[..k + 1][..k] == lines[..k];
      if lines[k].Failure? {
        ParseLinesSticky(lines[..k + 1], lines[k + 1..], width, parse);
        assert lines[..k + 1] + lines[k + 1..] == lines;
        return Failure(Io);
      }
      var line := lines[k].value;
      var row := [];
      var chunks := CollectChunks(line, width);
      for i := 0 to |chunks|
        invariant ParseRow(chunks[..i], parse) == Success(row)
      {
        assert chunks[..i + 1][..i] == chunks[..i];
        match parse(chunks[i]) {
          case Failure(err) =>
            ParseRowSticky(chunks[..i + 1], chunks[i + 1..], parse);
            assert chunks[..i + 1] + chunks[i + 1..] == chunks;
            ParseLinesSticky(lines[..k + 1], lines[k + 1..], width, parse);
            assert lines[..k + 1] + lines[k + 1..] == lines;
            return Failure(TileConversion(err, chunks[i]));
          case Success(t) =>
            row := row + [t];
        }
      }
      assert chunks[..|chunks|] == chunks;
      if row != [] {
        arr := arr + [row];
      }
    }
    assert lines[..|lines|] == lines;
    if arr != [] {
      var w := |arr[0]|;
      if !(forall i :: 0 <= i < |arr| ==> |arr[i]| == w) {
        return Failure(NotRectangular);
      }
    }
    arr := Reversed(arr);
    var m := FromRows(arr);
    return Success(m);
  }

  /** A parse succeeds exactly when every chunk parses; otherwise it names the first chunk that does not. */
  lemma {:induction false} ParseRowFirstFailure<Tile, E>(chunks: seq<string>, parse: string -> Result<Tile, E>)
    ensures ParseRow(chunks, parse).Success? <==> forall i :: 0 <= i < |chunks| ==> parse(chunks[i]).Success?
    ensures ParseRow(chunks, parse).Success? ==> forall i :: 0 <= i < |chunks| ==> ParseRow(chunks, parse).value[i] == parse(chunks[i]).value
    ensures ParseRow(chunks, parse).Failure? ==>
      exists i :: 0 <= i < |chunks| && (forall j :: 0 <= j < i ==> parse(chunks[j]).Success?)
        && parse(chunks[i]).Failure? && ParseRow(chunks, parse).error == TileConversion(parse(chunks[i]).error, chunks[i])
    decreases |chunks|
  {
    if |chunks| > 0 {
      var init := chunks[..|chunks| - 1];
      ParseRowFirstFailure(init, parse);
      if ParseRow(init, parse).Failure? {
        var i :| 0 <= i < |init| && (forall j :: 0 <= j < i ==> parse(init[j]).Success?)
          && parse(init[i]).Failure? && ParseRow(init, parse).error == TileConversion(parse(init[i]).error, init[i]);
        assert chunks[i] == init[i];
      } else if parse(chunks[|chunks| - 1]).Failure? {
        assert forall j :: 0 <= j < |chunks| - 1 ==> parse(chunks[j]).Success? by {
          forall j | 0 <= j < |chunks| - 1 ensures parse(chunks[j]).Success? {
            assert chunks[j] == init[j];
          }
        }
      } else {
        forall i | 0 <= i < |chunks| ensures parse(chunks[i]).Success? {
          if i < |init| {
            assert chunks[i] == init[i];
          }
        }
      }
    }
  }

  /** A line with less than one whole chunk (an empty line in particular) contributes nothing. */
  lemma ShortLineDropped<Tile, E>(lines: seq<Result<string, ()>>, line: string, width: nat, parse: string -> Result<Tile, E>)
    requires width >= 1 && |line| < width
    ensures ParseLines(lines + [Success(line)], width, parse) == ParseLines(lines, width, parse)
  {
    var all := lines + [Success(line)];
    assert all[..|all| - 1] == lines;
    assert ChunksOf(line, width) == [];
  }

  /** A successful parse: row `y` of the grid is the `y`-th non-empty line counted from the last. */
  lemma TryFromRows<Tile, E>(lines: seq<Result<string, ()>>, width: nat, parse: string -> Result<Tile, E>)
    requires width >= 1
    requires TryFromSpec(lines, width, parse).Success?
    ensures ParseLines(lines, width, parse).Success?
    ensures var rows := ParseLines(lines, width, parse).value;
      var m := TryFromSpec(lines, width, parse).value;
      && m.Valid() && m.offset == Point(0, 0) && m.height == |rows|
      && (forall y :: 0 <= y < |rows| ==> |rows[y]| == m.width)
      && forall x, y {:trigger rows[|rows| - 1 - y][x]} :: 0 <= y < |rows| && 0 <= x < m.width ==>
        m.At(Point(x, y)) == rows[|rows| - 1 - y][x]
  {
    var rows := ParseLines(lines, width, parse).value;
    var reversed := Reversed(rows);
    var m := RowsToMap(reversed);
    assert TryFromSpec(lines, width, parse).value == m;
    forall y | 0 <= y < |rows|
      ensures |rows[y]| == m.width
    {
      assert |reversed[0]| == |rows[|rows| - 1]| == |rows[0]|;
    }
    forall x, y | 0 <= y < |rows| && 0 <= x < m.width
      ensures m.At(Point(x, y)) == rows[|rows| - 1 - y][x]
    {
      assert reversed[y][x] == rows[|rows| - 1 - y][x];
    }
  }

  /** Rows of unequal length are refused as a whole. */
  lemma NotRectangularIff<Tile, E>(lines: seq<Result<string, ()>>, width: nat, parse: string -> Result<Tile, E>)
    requires width >= 1
    ensures TryFromSpec(lines, width, parse) == Failure(NotRectangular) <==>
      ParseLines(lines, width, parse).Success? && !Rectangular(ParseLines(lines, width, parse).value)
  {
  }

  // ----------------------------------------------------------------------------------
  // Display

  /** The tiles of row `y`, left to right. */
  function Row<Tile>(m: Map<Tile>, y: int): (r: seq<Tile>)
    requires m.Valid() && m.LowY() <= y <= m.HighY()
    ensures |r| == m.width
    ensures forall i {:trigger r[i]} :: 0 <= i < m.width ==> r[i] == m.At(Point(m.LowX() + i, y))
  {
    seq(m.width, i requires 0 <= i < m.width => m.At(Point(m.LowX() + i, y)))
  }

  function Shown<Tile>(tiles: seq<Tile>, show: Tile -> string): (r: seq<string>)
    ensures |r| == |tiles|
    ensures forall i {:trigger r[i]} :: 0 <= i < |tiles| ==> r[i] == show(tiles[i])
  {
    seq(|tiles|, i requires 0 <= i < |tiles| => show(tiles[i]))
  }

  /** Row `y` as text: each tile formatted by `show` (at its display width), left to right. */
  function RowText<Tile>(m: Map<Tile>, y: int, show: Tile -> string): string
    requires m.Valid() && m.LowY() <= y <= m.HighY()
  {
    Concat(Shown(Row(m, y), show))
  }

  /** The text lines of a grid, top row first. */
  function DisplayLines<Tile>(m: Map<Tile>, show: Tile -> string): (r: seq<string>)
    requires m.Valid()
    ensures |r| == m.height
    ensures forall k {:trigger r[k]} :: 0 <= k < m.height ==> r[k] == RowText(m, m.HighY() - k, show)
  {
    seq(m.height, k requires 0 <= k < m.height => RowText(m, m.HighY() - k, show))
  }

  /** The lines as one text, each followed by a newline. */
  function Unlines(lines: seq<string>): string {
    if |lines| == 0 then "" else Unlines(lines[..|lines| - 1]) + lines[|lines| - 1] + "\n"
  }

  /**
   * `Display`: the rows from the top, each tile formatted by `show`, each row ended by a
   * newline. `Index<Point>` requires the cells to be in the positive quadrant.
   */
  method Display<Tile>(m: Map<Tile>, show: Tile -> string) returns (text: string)
    requires m.Valid() && m.NonNegative()
    ensures text == Unlines(DisplayLines(m, show))
  {
    ghost var lines := DisplayLines(m, show);
    text := "";
    for y := m.HighY() + 1 downto m.LowY()
      invariant text == Unlines(lines[..m.HighY() + 1 - y])
    {
      ghost var done := m.HighY() - y;
      assert lines[done] == RowText(m, y, show);
      text := WriteRow(m, y, show, text);
      text := text + "\n";
      assert lines[..done + 1][..done] == lines[..done];
      assert Unlines(lines[..done + 1]) == Unlines(lines[..done]) + lines[done] + "\n";
    }
    assert lines[..m.height] == lines;
  }

  lemma ConcatPrefixStep<T>(parts: seq<seq<T>>, n: nat)
    requires n < |parts|
    ensures Concat(parts[..n + 1]) == Concat(parts[..n]) + parts[n]
  {
    assert parts[..n + 1][..n] == parts[..n];
  }

  /** The inner loop of `Display`: the tiles of row `y`, left to right, appended to `text`. */
  method WriteRow<Tile>(m: Map<Tile>, y: int, show: Tile -> string, text: string) returns (r: string)
    requires m.Valid() && m.NonNegative() && m.LowY() <= y <= m.HighY()
    ensures r == text + RowText(m, y, show)
  {
    ghost var row := Row(m, y);
    ghost var shown := Shown(row, show);
    r := text;
    for x := m.LowX() to m.HighX() + 1
      invariant r == text + Concat(shown[..x - m.LowX()])
    {
      ghost var i := x - m.LowX();
      ConcatPrefixStep(shown, i);
      assert shown[i] == show(row[i]);
      r := r + show(m.At(Point(x, y)));
    }
    assert shown[..m.width] == shown;
  }

  /** The reader's lines for a text made of these lines. */
  function AsRead(lines: seq<string>): (r: seq<Result<string, ()>>)
    ensures |r| == |lines|
    ensures forall k {:trigger r[k]} :: 0 <= k < |lines| ==> r[k] == Success(lines[k])
  {
    seq(|lines|, k requires 0 <= k < |lines| => Success(lines[k]))
  }

  lemma {:induction false} ParseShown<Tile, E>(tiles: seq<Tile>, show: Tile -> string, parse: string -> Result<Tile, E>)
    requires forall t {:trigger show(t)} :: parse(show(t)) == Success(t)
    ensures ParseRow(Shown(tiles, show), parse) == Success(tiles)
    decreases |tiles|
  {
    if |tiles| > 0 {
      var init := tiles[..|tiles| - 1];
      ParseShown(init, show, parse);
      assert Shown(tiles, show)[..|tiles| - 1] == Shown(init, show);
      assert tiles == init + [tiles[|tiles| - 1]];
    }
  }

  lemma {:induction false} ParseNonEmptyRows<Tile, E>(lines: seq<Result<string, ()>>, rows: seq<seq<Tile>>, width: nat, parse: string -> Result<Tile, E>)
    requires width >= 1 && |lines| == |rows|
    requires forall k :: 0 <= k < |lines| ==> rows[k] != [] && ParseLine(lines[k], width, parse) == Success(rows[k])
    ensures ParseLines(lines, width, parse) == Success(rows)
    decreases |lines|
  {
    if |lines| > 0 {
      ParseNonEmptyRows(lines[..|lines| - 1], rows[..|rows| - 1], width, parse);
      assert rows == rows[..|rows| - 1] + [rows[|rows| - 1]];
    }
  }

  /** A row's text, cut into chunks and parsed, gives the row back. */
  lemma ParseRowText<Tile, E>(m: Map<Tile>, y: int, width: nat, show: Tile -> string, parse: string -> Result<Tile, E>)
    requires m.Valid() && m.LowY() <= y <= m.HighY() && m.width >= 1
    requires width >= 1
    requires forall t {:trigger show(t)} :: |show(t)| == width && parse(show(t)) == Success(t)
    ensures Row(m, y) != [] && ParseLine(Success(RowText(m, y, show)), width, parse) == Success(Row(m, y))
  {
    var shown := Shown(Row(m, y), show);
    ChunksOfConcat(shown, width);
    ParseShown(Row(m, y), show, parse);
  }

  /** The rows of a grid, top row first. */
  function TopRows<Tile>(m: Map<Tile>): (r: seq<seq<Tile>>)
    requires m.Valid()
    ensures |r| == m.height
    ensures forall k {:trigger r[k]} :: 0 <= k < m.height ==> r[k] == Row(m, m.HighY() - k)
  {
    seq(m.height, k requires 0 <= k < m.height => Row(m, m.HighY() - k))
  }

  /** The rows of a grid, top row first, read back bottom row first, give the grid again. */
  lemma RowsOfMap<Tile>(m: Map<Tile>)
    requires m.Valid() && m.offset == Point(0, 0) && m.width >= 1 && m.height >= 1
    ensures Rectangular(TopRows(m)) && Rectangular(Reversed(TopRows(m)))
    ensures RowsToMap(Reversed(TopRows(m))) == m
  {
    var rows := TopRows(m);
    assert Rectangular(rows) by {
      forall k | 0 <= k < |rows| ensures |rows[k]| == |rows[0]| {
      }
    }
    var back := RowsToMap(Reversed(rows));
    assert back.width == |rows[m.height - 1]| == m.width;
    forall p | m.InBounds(p)
      ensures m.At(p) == back.At(p)
    {
      var k := m.height - 1 - p.y;
      assert Reversed(rows)[p.y] == rows[k] == Row(m, p.y);
      assert Reversed(rows)[p.y][p.x] == m.At(Point(p.x, p.y));
    }
    MapExt(m, back);
  }

  /** Each line of a grid's text parses back to its row, and no row is empty. */
  lemma ParseDisplayLines<Tile, E>(m: Map<Tile>, width: nat, show: Tile -> string, parse: string -> Result<Tile, E>)
    requires m.Valid() && m.width >= 1
    requires width >= 1
    requires forall t {:trigger show(t)} :: |show(t)| == width && parse(show(t)) == Success(t)
    ensures ParseLines(AsRead(DisplayLines(m, show)), width, parse) == Success(TopRows(m))
  {
    var lines := AsRead(DisplayLines(m, show));
    var rows := TopRows(m);
    forall k | 0 <= k < m.height
      ensures rows[k] != [] && ParseLine(lines[k], width, parse) == Success(rows[k])
    {
      ParseRowText(m, m.HighY() - k, width, show, parse);
    }
    ParseNonEmptyRows(lines, rows, width, parse);
  }

  /**
   * Rendering and parsing are inverse line by line: a grid with its corner at the origin
   * and at least one row and column is read back from its own row lines, for a tile type
   * whose text is `width` characters long and parses back to the tile.
   */
  lemma DisplayedRowsThenParse<Tile, E>(m: Map<Tile>, width: nat, show: Tile -> string, parse: string -> Result<Tile, E>)
    requires m.Valid() && m.offset == Point(0, 0) && m.width >= 1 && m.height >= 1
    requires width >= 1
    requires forall t {:trigger show(t)} :: |show(t)| == width && parse(show(t)) == Success(t)
    ensures TryFromSpec(AsRead(DisplayLines(m, show)), width, parse) == Success(m)
  {
    ParseDisplayLines(m, width, show, parse);
    RowsOfMap(m);
  }

  // ----------------------------------------------------------------------------------
  // Reading the text back line by line

  /** The position of the first newline in `text`, or its length when there is none. */
  function LineLength(text: string): (n: nat)
    ensures n <= |text|
    ensures forall k :: 0 <= k < n ==> text[k] != '\n'
    ensures n < |text| ==> text[n] == '\n'
    decreases |text|
  {
    if text == [] || text[0] == '\n' then 0 else 1 + LineLength(text[1..])
  }

  /** A line ended by `\r\n` loses the `\r` as well as the newline. */
  function DropCr(line: string): string {
    if line != [] && line[|line| - 1] == '\r' then line[..|line| - 1] else line
  }

  /**
   * `BufRead::lines` over an in-memory text: the text cut at each newline, each line
   * without its newline or the carriage return just before it. A final newline starts no
   * further line, and a last line without a newline keeps a trailing carriage return.
   */
  function Lines(text: string): (r: seq<string>)
    ensures forall k {:trigger r[k]} :: 0 <= k < |r| ==> '\n' !in r[k]
    decreases |text|
  {
    if text == [] then []
    else
      var n := LineLength(text);
      if n == |text| then [text]
      else [DropCr(text[..n])] + Lines(text[n + 1..])
  }

  /** A line that reads back as itself: no newline, and no carriage return at its end. */
  predicate PlainLine(line: string) {
    '\n' !in line && (line == [] || line[|line| - 1] != '\r')
  }

  /** A plain line followed by a newline is read as that line, then the rest. */
  lemma LinesOfLine(line: string, rest: string)
    requires PlainLine(line)
    ensures Lines(line + "\n" + rest) == [line] + Lines(rest)
  {
    var text := line + "\n" + rest;
    var n := LineLength(text);
    assert text[|line|] == '\n';
    assert n == |line| by {
      assert forall k :: 0 <= k < |line| ==> text[k] == line[k];
    }
    assert text[..n] == line;
    assert text[n + 1..] == rest;
  }

  /** `Unlines` taken from the front. */
  lemma {:induction false} UnlinesFront(lines: seq<string>)
    requires |lines| > 0
    ensures Unlines(lines) == lines[0] + "\n" + Unlines(lines[1..])
    decreases |lines|
  {
    var n := |lines|;
    if n > 1 {
      UnlinesFront(lines[..n - 1]);
      assert lines[..n - 1][0] == lines[0];
      assert lines[..n - 1][1..] == lines[1..][..n - 2];
      assert lines[1..][n - 2] == lines[n - 1];
    }
  }

  /** Reading back the text of plain lines gives the lines. */
  lemma {:induction false} LinesUnlines(lines: seq<string>)
    requires forall k :: 0 <= k < |lines| ==> PlainLine(lines[k])
    ensures Lines(Unlines(lines)) == lines
    decreases |lines|
  {
    if |lines| > 0 {
      UnlinesFront(lines);
      LinesOfLine(lines[0], Unlines(lines[1..]));
      LinesUnlines(lines[1..]);
      assert lines == [lines[0]] + lines[1..];
    }
  }

  /** Plain pieces concatenate to a plain line. */
  lemma {:induction false} ConcatPlain(parts: seq<string>)
    requires forall k :: 0 <= k < |parts| ==> PlainLine(parts[k])
    ensures PlainLine(Concat(parts))
    decreases |parts|
  {
    if |parts| > 0 {
      var init := parts[..|parts| - 1];
      var last := parts[|parts| - 1];
      ConcatPlain(init);
      var c := Concat(init) + last;
      assert Concat(parts) == c;
      forall k | 0 <= k < |c|
        ensures c[k] != '\n'
      {
        if k < |Concat(init)| {
          assert c[k] == Concat(init)[k];
        } else {
          assert c[k] == last[k - |Concat(init)|];
        }
      }
      if last != [] {
        assert c[|c| - 1] == last[|last| - 1];
      }
    }
  }

  /** The row lines of a grid whose tiles show as plain text are plain. */
  lemma DisplayLinesPlain<Tile>(m: Map<Tile>, show: Tile -> string)
    requires m.Valid()
    requires forall t {:trigger show(t)} :: PlainLine(show(t))
    ensures forall k :: 0 <= k < m.height ==> PlainLine(DisplayLines(m, show)[k])
  {
    forall k | 0 <= k < m.height
      ensures PlainLine(DisplayLines(m, show)[k])
    {
      var shown := Shown(Row(m, m.HighY() - k), show);
      ConcatPlain(shown);
    }
  }

  /**
   * `try_from(display(m)) == m`: the text `Display` writes, read back line by line and
   * parsed, is the grid again. The grid has its corner at the origin and at least one row
   * and column; each tile's text is `width` characters long, holds no newline, does not
   * end in a carriage return, and parses back to the tile.
   */
  lemma DisplayThenParse<Tile, E>(m: Map<Tile>, width: nat, show: Tile -> string, parse: string -> Result<Tile, E>)
    requires m.Valid() && m.offset == Point(0, 0) && m.width >= 1 && m.height >= 1
    requires width >= 1
    requires forall t {:trigger show(t)} :: |show(t)| == width && PlainLine(show(t)) && parse(show(t)) == Success(t)
    ensures TryFromSpec(AsRead(Lines(Unlines(DisplayLines(m, show)))), width, parse) == Success(m)
  {
    DisplayLinesPlain(m, show);
    LinesUnlines(DisplayLines(m, show));
    DisplayedRowsThenParse(m, width, show, parse);
  }
}
