/**
 * Record splitting over a line reader. The reader is the sequence of results its
 * successive `read_line` calls give: `Success(text)` is a line as read, terminator
 * included, and `Failure(())` a read error; past the end it reports end of input (a
 * read of zero bytes).
 */
module Input {
  import opened Wrappers

  // ----------------------------------------------------------------------------------
  // Trimming

  /** `char::is_whitespace`: the characters with the Unicode White_Space property. */
  predicate IsWhitespace(c: char) {
    c in Whitespace
  }

  const Whitespace: set<char> := {
    '\t', '\n', '\U{000B}', '\U{000C}', '\r', ' ', '\U{0085}', '\U{00A0}', '\U{1680}',
    '\U{2000}', '\U{2001}', '\U{2002}', '\U{2003}', '\U{2004}', '\U{2005}', '\U{2006}',
    '\U{2007}', '\U{2008}', '\U{2009}', '\U{200A}',
    '\U{2028}', '\U{2029}', '\U{202F}', '\U{205F}', '\U{3000}'
  }

  /** The number of whitespace characters at the start of `s`. */
  function Leading(s: string): (n: nat)
    ensures n <= |s|
    ensures forall k :: 0 <= k < n ==> IsWhitespace(s[k])
    ensures n < |s| ==> !IsWhitespace(s[n])
  {
    if s == [] || !IsWhitespace(s[0]) then 0 else 1 + Leading(s[1..])
  }

  /** The number of whitespace characters at the end of `s`. */
  function Trailing(s: string): (n: nat)
    ensures n <= |s|
    ensures forall k :: |s| - n <= k < |s| ==> IsWhitespace(s[k])
    ensures n < |s| ==> !IsWhitespace(s[|s| - 1 - n])
  {
    if s == [] || !IsWhitespace(s[|s| - 1]) then 0 else 1 + Trailing(s[..|s| - 1])
  }

  /** `str::trim`: `s` without its leading and trailing whitespace. */
  function Trim(s: string): (r: string)
    ensures Leading(s) + |r| <= |s| && r == s[Leading(s)..Leading(s) + |r|]
  {
    var rest := s[Leading(s)..];
    rest[..|rest| - Trailing(rest)]
  }

  /** All that trimming cuts off, before and after what it keeps, is whitespace. */
  lemma TrimCutsWhitespace(s: string)
    ensures var r := Trim(s); var i := Leading(s);
      && (forall k :: 0 <= k < i ==> IsWhitespace(s[k]))
      && (forall k :: i + |r| <= k < |s| ==> IsWhitespace(s[k]))
  {
    var i := Leading(s);
    var rest := s[i..];
    var n := Trailing(rest);
    assert |Trim(s)| == |rest| - n;
    forall k | i + |rest| - n <= k < |s|
      ensures IsWhitespace(s[k])
    {
      assert s[k] == rest[k - i];
    }
  }

  /** What trimming leaves neither starts nor ends with whitespace. */
  lemma TrimEnds(s: string)
    ensures var r := Trim(s); r == [] || (!IsWhitespace(r[0]) && !IsWhitespace(r[|r| - 1]))
  {
    var i := Leading(s);
    var rest := s[i..];
    var n := Trailing(rest);
    var r := rest[..|rest| - n];
    assert r == Trim(s);
    if r != [] {
      assert r[0] == s[i];
      assert r[|r| - 1] == rest[|rest| - 1 - n];
    }
  }

  /** Trimming twice is trimming once. */
  lemma TrimIdempotent(s: string)
    ensures Trim(Trim(s)) == Trim(s)
  {
    var r := Trim(s);
    TrimEnds(s);
    assert Leading(r) == 0;
    assert r[0..] == r;
    assert Trailing(r) == 0;
  }

  /** A line of nothing but whitespace, a bare terminator included, trims to the empty string. */
  lemma TrimBlank(s: string)
    requires forall k :: 0 <= k < |s| ==> IsWhitespace(s[k])
    ensures Trim(s) == ""
  {
  }

  // ----------------------------------------------------------------------------------
  // One record per line

  /**
   * What `parse_reader` yields for the reads `lines`: each line, trimmed, parsed in turn,
   * until the end of input, a read error or the first line that fails to parse.
   */
  function LineRecords<T, E>(lines: seq<Result<string, ()>>, parse: string -> Result<T, E>): seq<T>
    decreases |lines|
  {
    match FirstRecord(lines, parse)
    case None => []
    case Some(t) => [t] + LineRecords(lines[1..], parse)
  }

  /** The record the first line gives, or nothing when the iterator stops there. */
  function FirstRecord<T, E>(lines: seq<Result<string, ()>>, parse: string -> Result<T, E>): (r: Option<T>)
    ensures r.Some? ==> lines != []
  {
    if lines == [] then None
    else match lines[0]
      case Failure(_) => None
      case Success(text) =>
        if text == "" then None
        else match parse(Trim(text))
          case Success(t) => Some(t)
          case Failure(_) => None
  }

  /**
   * The records are the leading lines of the input, each trimmed and parsed; the one
   * after the last record, if there is one, is a read error, an end of input or a line
   * that does not parse.
   */
  lemma {:induction false} LineRecordsAreLines<T, E>(lines: seq<Result<string, ()>>, parse: string -> Result<T, E>)
    ensures var records := LineRecords(lines, parse);
      && |records| <= |lines|
      && (forall i :: 0 <= i < |records| ==>
            lines[i].Success? && lines[i].value != "" && parse(Trim(lines[i].value)) == Success(records[i]))
      && (|records| < |lines| ==>
            || lines[|records|].Failure? || lines[|records|].value == ""
            || parse(Trim(lines[|records|].value)).Failure?)
    decreases |lines|
  {
    if lines != [] && lines[0].Success? && lines[0].value != "" && parse(Trim(lines[0].value)).Success? {
      LineRecordsAreLines(lines[1..], parse);
    }
  }

  lemma AppendOne<T>(done: seq<T>, t: T, later: seq<T>)
    ensures done + ([t] + later) == (done + [t]) + later
  {
  }

  /**
   * The iterator `parse_reader` returns: `from_fn` over a closure owning the reader and a
   * line counter, behind `fuse`. `Yielded` is what it has produced so far.
   */
  class LineReader<T, E> {
    const parse: string -> Result<T, E>
    var lines: seq<Result<string, ()>>
    var line: nat
    var fused: bool

    ghost const Input: seq<Result<string, ()>>
    ghost var Yielded: seq<T>

    /** Until the iterator ends it has read `line` lines and yielded their records; afterwards, all of them. */
    ghost predicate Valid()
      reads this
    {
      && (!fused ==> line <= |Input| && lines == Input[line..] && Yielded + LineRecords(lines, parse) == LineRecords(Input, parse))
      && (fused ==> Yielded == LineRecords(Input, parse))
    }

    /** `parse_reader(reader, _)`. */
    constructor (input: seq<Result<string, ()>>, parse: string -> Result<T, E>)
      ensures Valid() && Input == input && this.parse == parse && Yielded == [] && !fused
    {
      this.parse := parse;
      lines := input;
      line := 0;
      fused := false;
      Input := input;
      Yielded := [];
    }

    /**
     * `next`: read a line; at the end of input or on a read error stop, otherwise hand
     * the trimmed line to the parser and yield the record, stopping on a parse error.
     * Once it has returned `None` it always does.
     */
    method Next() returns (r: Option<T>)
      requires Valid()
      modifies this
      ensures Valid()
      ensures old(fused) ==> r == None
      ensures r.Some? ==> Yielded == old(Yielded) + [r.value] && !fused && |lines| < old(|lines|)
      ensures r.None? ==> Yielded == old(Yielded) && fused
    {
      if fused {
        return None;
      }
      var read := if lines == [] then Success("") else lines[0];
      r := None;
      if read.Success? {
        line := line + 1;
        var buf := read.value;
        if buf != "" {
          match parse(Trim(buf))
          case Success(t) => r := Some(t);
          case Failure(_) =>
        }
      }
      assert r == FirstRecord(lines, parse);
      if r.None? {
        assert LineRecords(lines, parse) == [];
        fused := true;
      } else {
        ghost var later := LineRecords(lines[1..], parse);
        assert LineRecords(lines, parse) == [r.value] + later;
        AppendOne(Yielded, r.value, later);
        Yielded := Yielded + [r.value];
        lines := lines[1..];
      }
    }
  }

  /** Draining the iterator gives exactly `LineRecords` of its input. */
  method CollectLines<T, E>(input: seq<Result<string, ()>>, parse: string -> Result<T, E>) returns (records: seq<T>)
    ensures records == LineRecords(input, parse)
  {
    var reader := new LineReader(input, parse);
    records := [];
    while true
      invariant reader.Valid() && reader.Input == input && reader.parse == parse && records == reader.Yielded
      invariant !reader.fused
      decreases |reader.lines|
    {
      var r := reader.Next();
      if r.None? {
        return;
      }
      records := records + [r.value];
    }
  }

  // ----------------------------------------------------------------------------------
  // One record per cluster of lines

  /** `buf`, read backwards, agrees with `pat` for as long as both last. */
  predicate EndsLike(buf: string, pat: string) {
    forall k :: 0 <= k < |buf| && k < |pat| ==> buf[|buf| - 1 - k] == pat[k]
  }

  /**
   * `is_new_field`: `buf` ends a cluster. The source compares bytes; for these ASCII
   * patterns that is the same as comparing characters.
   */
  predicate IsNewField(buf: string)
    ensures IsNewField(buf) ==> buf == [] || buf[|buf| - 1] == '\n'
    ensures |buf| >= 2 && buf[|buf| - 2] == '\n' && buf[|buf| - 1] == '\n' ==> IsNewField(buf)
  {
    var n := |buf|;
    n == 0 || (buf[n - 1] == '\n' && (n == 1 || buf[n - 2] == '\n' || (buf[n - 2] == '\r' && (n == 2 || buf[n - 3] == '\n'))))
  }

  /** `IsNewField` is the source's comparison of `buf`, backwards, with either pattern. */
  lemma IsNewFieldMatchesPatterns(buf: string)
    ensures IsNewField(buf) <==> EndsLike(buf, "\n\n") || EndsLike(buf, "\n\r\n")
  {
    var n := |buf|;
    assert EndsLike(buf, "\n\n") <==> (n >= 1 ==> buf[n - 1] == '\n') && (n >= 2 ==> buf[n - 2] == '\n') by {
      if n >= 1 && buf[n - 1] != '\n' {
        assert buf[n - 1 - 0] != "\n\n"[0];
      } else if n >= 2 && buf[n - 2] != '\n' {
        assert buf[n - 1 - 1] != "\n\n"[1];
      }
    }
    assert EndsLike(buf, "\n\r\n") <==>
      (n >= 1 ==> buf[n - 1] == '\n') && (n >= 2 ==> buf[n - 2] == '\r') && (n >= 3 ==> buf[n - 3] == '\n') by {
      if n >= 1 && buf[n - 1] != '\n' {
        assert buf[n - 1 - 0] != "\n\r\n"[0];
      } else if n >= 2 && buf[n - 2] != '\r' {
        assert buf[n - 1 - 1] != "\n\r\n"[1];
      } else if n >= 3 && buf[n - 3] != '\n' {
        assert buf[n - 1 - 2] != "\n\r\n"[2];
      }
    }
  }

  /**
   * Because only the shorter length is compared, a buffer that is just a line
   * terminator also ends a cluster, besides one that ends in a blank line.
   */
  lemma IsNewFieldCases(buf: string)
    ensures IsNewField(buf) <==>
      || buf == "" || buf == "\n" || buf == "\r\n"
      || (|buf| >= 2 && buf[|buf| - 2..] == "\n\n")
      || (|buf| >= 3 && buf[|buf| - 3..] == "\n\r\n")
  {
    var n := |buf|;
    if n == 1 {
      assert buf == [buf[0]];
    } else if n == 2 {
      assert buf == [buf[0], buf[1]];
      assert buf[n - 2..] == buf;
    } else if n >= 3 {
      assert buf[n - 2..] == [buf[n - 2], buf[n - 1]];
      assert buf[n - 3..] == [buf[n - 3], buf[n - 2], buf[n - 1]];
    }
  }

  /** Where gathering one cluster ended: with the text gathered and the lines left, or on a read error. */
  datatype Gathered = Gathered(buf: string, rest: seq<Result<string, ()>>) | ReadFailed

  /** The text of the lines read successfully, one after the other. */
  function Texts(lines: seq<Result<string, ()>>): string {
    if lines == [] then ""
    else (if lines[0].Success? then lines[0].value else "") + Texts(lines[1..])
  }

  lemma Associative(a: string, b: string, c: string)
    ensures a + (b + c) == (a + b) + c
  {
  }

  /** The text of the first `j` lines is the text of the first line, then the text of the next `j - 1`. */
  lemma TextsPrefix(lines: seq<Result<string, ()>>, j: nat)
    requires 1 <= j <= |lines|
    ensures Texts(lines[..j]) == Texts(lines[..1]) + Texts(lines[1..][..j - 1])
  {
    assert lines[..j][1..] == lines[1..][..j - 1];
    assert lines[..1][1..] == [];
  }

  /**
   * The inner loop of `parse_newline_sep_reader`: append lines to `buf` until it is
   * non-empty and ends a cluster, or a read returns nothing; a read error abandons the
   * cluster.
   */
  function Gather(buf: string, lines: seq<Result<string, ()>>): (g: Gathered)
    ensures g.Gathered? ==> |g.rest| <= |lines| && (|g.buf| > |buf| ==> |g.rest| < |lines|)
    decreases |lines|
  {
    if buf != "" && IsNewField(buf) then Gathered(buf, lines)
    else if lines == [] then Gathered(buf, [])
    else match lines[0]
      case Failure(_) => ReadFailed
      case Success(text) => if text == "" then Gathered(buf, lines[1..]) else Gather(buf + text, lines[1..])
  }

  /**
   * A gathered cluster is the text of the lines it consumed, all read successfully,
   * appended untouched: blank line, terminators and whitespace included.
   */
  lemma {:induction false} GatherIsText(buf: string, lines: seq<Result<string, ()>>)
    requires Gather(buf, lines).Gathered?
    ensures var g := Gather(buf, lines); var used := |lines| - |g.rest|;
      && (forall i :: 0 <= i < used ==> lines[i].Success?)
      && g.buf == buf + Texts(lines[..used])
    decreases |lines|
  {
    var g := Gather(buf, lines);
    var used := |lines| - |g.rest|;
    if used == 0 {
      assert g.buf == buf;
      assert lines[..0] == [];
      Associative(buf, "", "");
    } else {
      assert !(buf != "" && IsNewField(buf)) && lines != [] && lines[0].Success?;
      var text := lines[0].value;
      assert Texts(lines[..1]) == text by {
        assert lines[..1] == [Success(text)];
      }
      if text == "" || (buf + text != "" && IsNewField(buf + text)) {
        assert used == 1;
        Associative(buf, text, "");
      } else {
        assert g == Gather(buf + text, lines[1..]);
        GatherIsText(buf + text, lines[1..]);
        forall i | 1 <= i < used
          ensures lines[i].Success?
        {
          assert lines[i] == lines[1..][i - 1];
        }
        TextsPrefix(lines, used);
        Associative(buf, text, Texts(lines[1..][..used - 1]));
      }
    }
  }

  /** A gathered cluster that does not end in a field separator was cut short by a read of nothing. */
  lemma {:induction false} GatherEnds(buf: string, lines: seq<Result<string, ()>>)
    requires Gather(buf, lines).Gathered?
    ensures var g := Gather(buf, lines); var used := |lines| - |g.rest|;
      g.buf == "" || IsNewField(g.buf) || g.rest == [] || (used >= 1 && lines[used - 1] == Success(""))
    decreases |lines|
  {
    if buf != "" && IsNewField(buf) {
    } else if lines != [] && lines[0].Success? && lines[0].value != "" {
      GatherEnds(buf + lines[0].value, lines[1..]);
    }
  }

  /** No shorter run of the lines a cluster consumed already ended a cluster. */
  lemma {:induction false} GatherIsShortest(buf: string, lines: seq<Result<string, ()>>, j: nat)
    requires Gather(buf, lines).Gathered?
    requires j < |lines| - |Gather(buf, lines).rest|
    ensures var b := buf + Texts(lines[..j]); b == "" || !IsNewField(b)
    decreases |lines|
  {
    var g := Gather(buf, lines);
    assert !(buf != "" && IsNewField(buf)) && lines != [] && lines[0].Success?;
    var text := lines[0].value;
    if j == 0 {
      assert lines[..0] == [];
      assert buf + Texts(lines[..j]) == buf;
    } else {
      assert text != "" && !(buf + text != "" && IsNewField(buf + text));
      assert g == Gather(buf + text, lines[1..]);
      GatherIsShortest(buf + text, lines[1..], j - 1);
      assert Texts(lines[..1]) == text by {
        assert lines[..1] == [Success(text)];
      }
      TextsPrefix(lines, j);
      var later := Texts(lines[1..][..j - 1]);
      assert Texts(lines[..j]) == text + later;
      Associative(buf, text, later);
    }
  }

  /**
   * The record the next cluster gives and the lines after it; no record when a read
   * fails, the cluster is empty or it does not parse.
   */
  function NextCluster<T, E>(lines: seq<Result<string, ()>>, parse: string -> Result<T, E>): (r: (Option<T>, seq<Result<string, ()>>))
    ensures r.0.Some? ==> |r.1| < |lines|
  {
    match Gather("", lines)
    case ReadFailed => (None, lines)
    case Gathered(buf, rest) =>
      if buf == "" then (None, rest)
      else match parse(buf)
        case Success(t) => (Some(t), rest)
        case Failure(_) => (None, rest)
  }

  /**
   * What `parse_newline_sep_reader` yields for the reads `lines`: each cluster of lines,
   * untrimmed, parsed in turn, until a read error, an empty cluster at the end of input
   * or the first cluster that fails to parse.
   */
  function ClusterRecords<T, E>(lines: seq<Result<string, ()>>, parse: string -> Result<T, E>): seq<T>
    decreases |lines|
  {
    var (record, rest) := NextCluster(lines, parse);
    match record
    case None => []
    case Some(t) => [t] + ClusterRecords(rest, parse)
  }

  /** Two paragraphs separated by a blank line are two clusters, each with its terminators, the first with the blank line. */
  lemma ClusterExample()
    ensures ClusterRecords<string, ()>([Success("a\n"), Success("b\n"), Success("\n"), Success("c\n")], (s: string) => Success(s))
      == ["a\nb\n\n", "c\n"]
  {
    var parse: string -> Result<string, ()> := (s: string) => Success(s);
    var lines: seq<Result<string, ()>> := [Success("a\n"), Success("b\n"), Success("\n"), Success("c\n")];
    var last := lines[3..];
    assert Gather("a\nb\n", lines[2..]) == Gathered("a\nb\n\n", last) by {
      assert lines[2..][0] == Success("\n") && lines[2..][1..] == last;
      assert "a\nb\n" + "\n" == "a\nb\n\n";
      assert IsNewField("a\nb\n\n");
    }
    assert Gather("a\n", lines[1..]) == Gather("a\nb\n", lines[2..]) by {
      assert lines[1..][0] == Success("b\n") && lines[1..][1..] == lines[2..];
      assert "a\n" + "b\n" == "a\nb\n";
      assert !IsNewField("a\n");
    }
    assert Gather("", lines) == Gathered("a\nb\n\n", last) by {
      assert lines[0] == Success("a\n") && lines[1..] == lines[1..];
      assert "" + "a\n" == "a\n";
    }
    assert Gather("", last) == Gathered("c\n", []) by {
      assert last == [Success("c\n")];
      assert "" + "c\n" == "c\n";
      assert !IsNewField("c\n");
    }
    assert ClusterRecords([], parse) == [] by {
      assert Gather("", []) == Gathered("", []);
    }
    assert ClusterRecords(last, parse) == ["c\n"];
  }

  /** A blank line that starts a cluster is a cluster on its own. */
  lemma LoneBlankLine(rest: seq<Result<string, ()>>)
    ensures Gather("", [Success("\n")] + rest) == Gathered("\n", rest)
  {
    assert ([Success("\n")] + rest)[1..] == rest;
  }

  /** The iterator `parse_newline_sep_reader` returns, built like `LineReader`. */
  class ClusterReader<T, E> {
    const parse: string -> Result<T, E>
    var lines: seq<Result<string, ()>>
    var line: nat
    var fused: bool

    ghost const Input: seq<Result<string, ()>>
    ghost var Yielded: seq<T>

    /** Until the iterator ends it has yielded the records of the clusters before `lines`; afterwards, all of them. */
    ghost predicate Valid()
      reads this
    {
      && (!fused ==> Yielded + ClusterRecords(lines, parse) == ClusterRecords(Input, parse))
      && (fused ==> Yielded == ClusterRecords(Input, parse))
    }

    /** `parse_newline_sep_reader(reader, _)`. */
    constructor (input: seq<Result<string, ()>>, parse: string -> Result<T, E>)
      ensures Valid() && Input == input && this.parse == parse && Yielded == [] && !fused
    {
      this.parse := parse;
      lines := input;
      line := 0;
      fused := false;
      Input := input;
      Yielded := [];
    }

    /**
     * The `while` loop of `next`: read lines into `buf` until it ends a cluster or a
     * read returns nothing; a read error makes `next` return at once.
     */
    method ReadCluster() returns (buf: string, failed: bool)
      modifies this
      ensures failed ==> Gather("", old(lines)) == ReadFailed
      ensures !failed ==> Gather("", old(lines)) == Gathered(buf, lines)
      ensures Yielded == old(Yielded) && fused == old(fused)
    {
      ghost var start := lines;
      buf := "";
      failed := false;
      while buf == "" || !IsNewField(buf)
        invariant Gather(buf, lines) == Gather("", start)
        invariant Yielded == old(Yielded) && fused == old(fused)
        decreases |lines|
      {
        line := line + 1;
        if lines == [] {
          break;
        }
        var read := lines[0];
        lines := lines[1..];
        if read.Failure? {
          failed := true;
          return;
        }
        if read.value == "" {
          assert Gather("", start) == Gathered(buf, lines);
          break;
        }
        buf := buf + read.value;
      }
    }

    /**
     * `next`: gather the next cluster; if a read failed or the cluster is empty, stop;
     * otherwise hand it to the parser as it is and yield the record, stopping on a
     * parse error. Once it has returned `None` it always does.
     */
    method Next() returns (r: Option<T>)
      requires Valid()
      modifies this
      ensures Valid()
      ensures old(fused) ==> r == None
      ensures r.Some? ==> Yielded == old(Yielded) + [r.value] && !fused && |lines| < old(|lines|)
      ensures r.None? ==> Yielded == old(Yielded) && fused
    {
      if fused {
        return None;
      }
      ghost var start := lines;
      var buf, failed := ReadCluster();
      r := None;
      if !failed && buf != "" {
        match parse(buf)
        case Success(t) => r := Some(t);
        case Failure(_) =>
      }
      assert r == NextCluster(start, parse).0;
      if r.None? {
        assert ClusterRecords(start, parse) == [];
        fused := true;
      } else {
        ghost var later := ClusterRecords(lines, parse);
        assert ClusterRecords(start, parse) == [r.value] + later;
        AppendOne(Yielded, r.value, later);
        Yielded := Yielded + [r.value];
      }
    }
  }

  /** Draining the iterator gives exactly `ClusterRecords` of its input. */
  method CollectClusters<T, E>(input: seq<Result<string, ()>>, parse: string -> Result<T, E>) returns (records: seq<T>)
    ensures records == ClusterRecords(input, parse)
  {
    var reader := new ClusterReader(input, parse);
    records := [];
    while true
      invariant reader.Valid() && reader.Input == input && reader.parse == parse && records == reader.Yielded
      invariant !reader.fused
      decreases |reader.lines|
    {
      var r := reader.Next();
      if r.None? {
        return;
      }
      records := records + [r.value];
    }
  }

  // ----------------------------------------------------------------------------------
  // Comma-separated records

  /** `str::split(sep)`: the pieces between the separators, none of which holds one. */
  function Split(s: string, sep: char): (r: seq<string>)
    ensures |r| >= 1
    ensures forall i :: 0 <= i < |r| ==> sep !in r[i]
  {
    if s == [] then [[]]
    else
      var rest := Split(s[1..], sep);
      if s[0] == sep then [[]] + rest else [[s[0]] + rest[0]] + rest[1..]
  }

  /** `n` separators give `n + 1` pieces. */
  lemma {:induction false} SplitCount(s: string, sep: char)
    ensures |Split(s, sep)| == multiset(s)[sep] + 1
    decreases |s|
  {
    if s != [] {
      SplitCount(s[1..], sep);
      assert s == [s[0]] + s[1..];
    }
  }

  /** The pieces with `sep` between each two. */
  function JoinWith(parts: seq<string>, sep: char): string
    requires |parts| >= 1
  {
    if |parts| == 1 then parts[0] else parts[0] + [sep] + JoinWith(parts[1..], sep)
  }

  /** Joining the pieces with the separator gives back the string that was split. */
  lemma {:induction false} JoinSplit(s: string, sep: char)
    ensures JoinWith(Split(s, sep), sep) == s
    decreases |s|
  {
    if s != [] {
      var rest := Split(s[1..], sep);
      JoinSplit(s[1..], sep);
      assert s == [s[0]] + s[1..];
      if s[0] == sep {
        assert ([[]] + rest)[1..] == rest;
        Associative([], [sep], JoinWith(rest, sep));
      } else {
        var r := [[s[0]] + rest[0]] + rest[1..];
        assert r[1..] == rest[1..];
        if |rest| > 1 {
          Associative([s[0]], rest[0], [sep]);
          Associative([s[0]], rest[0] + [sep], JoinWith(rest[1..], sep));
        }
      }
    }
  }

  /** Splitting undoes joining pieces that hold no separator. */
  lemma {:induction false} SplitJoin(parts: seq<string>, sep: char)
    requires |parts| >= 1 && forall i :: 0 <= i < |parts| ==> sep !in parts[i]
    ensures Split(JoinWith(parts, sep), sep) == parts
    decreases |JoinWith(parts, sep)|
  {
    var s := JoinWith(parts, sep);
    if parts[0] == [] {
      if |parts| > 1 {
        assert s[0] == sep && s[1..] == JoinWith(parts[1..], sep) by {
          Associative([], [sep], JoinWith(parts[1..], sep));
        }
        SplitJoin(parts[1..], sep);
        assert parts == [[]] + parts[1..];
      }
    } else {
      var c := parts[0][0];
      var tail := [parts[0][1..]] + parts[1..];
      assert s[0] == c && s[1..] == JoinWith(tail, sep) by {
        assert parts[0] == [c] + parts[0][1..];
        assert tail[1..] == parts[1..];
        if |parts| > 1 {
          var later := JoinWith(parts[1..], sep);
          Associative([c], parts[0][1..], [sep]);
          Associative([c], parts[0][1..] + [sep], later);
        }
      }
      assert c != sep;
      SplitJoin(tail, sep);
      assert parts == [[c] + tail[0]] + tail[1..] by {
        assert parts[0] == [c] + tail[0];
        assert tail[1..] == parts[1..];
      }
    }
  }

  /** The pieces hold every character of the line but the separators, in order. */
  lemma SplitRoundTrip(s: string, sep: char, parts: seq<string>)
    requires |parts| >= 1 && forall i :: 0 <= i < |parts| ==> sep !in parts[i]
    ensures Split(s, sep) == parts <==> JoinWith(parts, sep) == s
  {
    JoinSplit(s, sep);
    SplitJoin(parts, sep);
  }

  /** The index of the first failure among `rs`, or `|rs|` when there is none. */
  function FirstFailure<T, E>(rs: seq<Result<T, E>>): (k: nat)
    ensures k <= |rs|
    ensures forall j :: 0 <= j < k ==> rs[j].Success?
    ensures k < |rs| ==> rs[k].Failure?
  {
    if rs == [] || rs[0].Failure? then 0 else 1 + FirstFailure(rs[1..])
  }

  /**
   * `collect::<Result<Vec<_>, _>>()`: all the values when every result is a success,
   * else the first failure.
   */
  function CollectResults<T, E>(rs: seq<Result<T, E>>): (r: Result<seq<T>, E>)
    ensures r.Success? <==> forall i :: 0 <= i < |rs| ==> rs[i].Success?
    ensures r.Success? ==> |r.value| == |rs| && forall i :: 0 <= i < |rs| ==> rs[i] == Success(r.value[i])
    ensures r.Failure? ==> FirstFailure(rs) < |rs| && rs[FirstFailure(rs)] == Failure(r.error)
  {
    if rs == [] then Success([])
    else match rs[0]
      case Failure(e) => Failure(e)
      case Success(v) =>
        match CollectResults(rs[1..])
        case Failure(e) => Failure(e)
        case Success(vs) => Success([v] + vs)
  }

  /** Each piece run through the parser. */
  function ParseAll<T, E>(pieces: seq<string>, parse: string -> Result<T, E>): (rs: seq<Result<T, E>>)
    ensures |rs| == |pieces| && forall i :: 0 <= i < |pieces| ==> rs[i] == parse(pieces[i])
  {
    seq(|pieces|, i requires 0 <= i < |pieces| => parse(pieces[i]))
  }

  /** A line of comma-separated items; `into_iter` yields `items` in order. */
  datatype CommaSep<T> = CommaSep(items: seq<T>)

  /**
   * `CommaSep::from_str`: split on every comma and parse each piece; all the items in
   * order when every piece parses, else the error of the first piece that does not.
   */
  function CommaSepFromStr<T, E>(s: string, parse: string -> Result<T, E>): (r: Result<CommaSep<T>, E>)
    ensures var pieces := Split(s, ',');
      && (r.Success? <==> forall i :: 0 <= i < |pieces| ==> parse(pieces[i]).Success?)
      && (r.Success? ==> |r.value.items| == |pieces| && forall i :: 0 <= i < |pieces| ==> parse(pieces[i]) == Success(r.value.items[i]))
      && (r.Failure? ==> var k := FirstFailure(ParseAll(pieces, parse)); k < |pieces| && parse(pieces[k]) == Failure(r.error))
  {
    match CollectResults(ParseAll(Split(s, ','), parse))
    case Success(items) => Success(CommaSep(items))
    case Failure(e) => Failure(e)
  }
}
