/**
 * The in-memory part of the per-year configuration: for each year, optional paths to
 * the input files, the implementation directory and the day template, each with a
 * fallback when unset. The current directory and the data directory are parameters.
 */
module Configuration {
  import opened Wrappers

  newtype u32 = v: int | 0 <= v < 0x1_0000_0000
  newtype u8 = v: int | 0 <= v < 0x100

  /** A path as its components; `PathBuf::join` with a relative component appends it. */
  type Path = seq<string>

  function Join(p: Path, component: string): (r: Path)
    ensures |r| == |p| + 1 && r[..|p|] == p && r[|p|] == component
  {
    p + [component]
  }

  /** One decimal digit. */
  function DigitChar(n: nat): (c: char)
    requires n < 10
    ensures '0' <= c <= '9' && (c as int) - ('0' as int) == n
  {
    ('0' as int + n) as char
  }

  /** `n.to_string()`: the decimal digits of `n`, without leading zeros. */
  function Decimal(n: nat): (r: string)
    ensures |r| >= 1 && (forall i :: 0 <= i < |r| ==> '0' <= r[i] <= '9')
    ensures |r| > 1 ==> r[0] != '0'
    decreases n
  {
    if n < 10 then [DigitChar(n)] else Decimal(n / 10) + [DigitChar(n % 10)]
  }

  /** The number a string of decimal digits stands for. */
  function DigitsValue(s: string): nat
    requires forall i :: 0 <= i < |s| ==> '0' <= s[i] <= '9'
  {
    if s == [] then 0 else 10 * DigitsValue(s[..|s| - 1]) + ((s[|s| - 1] as int) - ('0' as int))
  }

  /** `to_string` can be read back. */
  lemma {:induction false} DecimalValue(n: nat)
    ensures DigitsValue(Decimal(n)) == n
    decreases n
  {
    if n >= 10 {
      DecimalValue(n / 10);
      var r := Decimal(n);
      assert r[..|r| - 1] == Decimal(n / 10);
    }
  }

  /** `format!("{:02}", n)`: the decimal digits of `n`, padded with a leading zero to at least two. */
  function ZeroPad2(n: nat): (r: string)
    ensures |r| == if n < 10 then 2 else |Decimal(n)|
    ensures forall i :: 0 <= i < |r| ==> '0' <= r[i] <= '9'
    ensures DigitsValue(r) == n
  {
    DecimalValue(n);
    if n < 10 then "0" + Decimal(n) else Decimal(n)
  }

  /**
   * `name` is `input-`, then at least two decimal digits that read as `day`, then `.txt`;
   * more than two digits only when `day` needs them.
   */
  ghost predicate InputName(name: string, day: nat) {
    && |name| >= 12
    && name[..6] == "input-" && name[|name| - 4..] == ".txt"
    && var digits := name[6..|name| - 4];
    && (forall i :: 0 <= i < |digits| ==> '0' <= digits[i] <= '9')
    && DigitsValue(digits) == day
    && (|digits| > 2 ==> digits[0] != '0')
  }

  /** The configured paths of one year; `Paths::default` has none. */
  datatype Paths = Paths(inputFiles: Option<Path>, implementation: Option<Path>, dayTemplate: Option<Path>)

  class Config {
    var session: string
    var paths: map<u32, Paths>

    /** `Config::default`. */
    constructor ()
      ensures session == "" && paths == map[]
    {
      session := "";
      paths := map[];
    }

    /** `paths.entry(year).or_default()`, read without inserting. */
    function Entry(year: u32): Paths
      reads this
    {
      if year in paths then paths[year] else Paths(None, None, None)
    }

    /**
     * `input_files`: the configured input directory, else the `inputs` directory of the
     * year's implementation directory.
     */
    function InputFiles(year: u32, currentDir: Path): (r: Path)
      reads this
      ensures Entry(year).inputFiles.Some? ==> r == Entry(year).inputFiles.value
      ensures Entry(year).inputFiles.None? ==> r == Join(Implementation(year, currentDir), "inputs")
    {
      match Entry(year).inputFiles
      case Some(inputFiles) => inputFiles
      case None => Join(Implementation(year, currentDir), "inputs")
    }

    /** `input_for`: `input-DD.txt` in the year's input directory, the day zero-padded to two digits. */
    function InputFor(year: u32, day: u8, currentDir: Path): (r: Path)
      reads this
      ensures var dir := InputFiles(year, currentDir);
        && |r| == |dir| + 1 && r[..|dir|] == dir
        && InputName(r[|dir|], day as nat)
    {
      var name := "input-" + ZeroPad2(day as nat) + ".txt";
      assert name[6..|name| - 4] == ZeroPad2(day as nat);
      Join(InputFiles(year, currentDir), name)
    }

    /** `implementation`: the configured implementation directory, else the current directory. */
    function Implementation(year: u32, currentDir: Path): (r: Path)
      reads this
      ensures Entry(year).implementation.Some? ==> r == Entry(year).implementation.value
      ensures Entry(year).implementation.None? ==> r == currentDir
    {
      match Entry(year).implementation
      case Some(implementation) => implementation
      case None => currentDir
    }

    /** `day_template`: the configured template directory, else `<data>/<year>/day-template`. */
    function DayTemplate(year: u32, dataDir: Path): (r: Path)
      reads this
      ensures Entry(year).dayTemplate.Some? ==> r == Entry(year).dayTemplate.value
      ensures Entry(year).dayTemplate.None? ==> r == dataDir + [Decimal(year as nat), "day-template"]
    {
      match Entry(year).dayTemplate
      case Some(dayTemplate) => dayTemplate
      case None => Join(Join(dataDir, Decimal(year as nat)), "day-template")
    }

    /**
     * `set_input_files`: the year's entry (created with nothing set if absent) gets the
     * input directory; its other paths and every other year stay as they were.
     */
    method SetInputFiles(year: u32, path: Path)
      modifies this
      ensures paths == old(paths)[year := old(Entry(year)).(inputFiles := Some(path))]
      ensures session == old(session)
      ensures forall currentDir :: InputFiles(year, currentDir) == path
      ensures forall y, currentDir :: Implementation(y, currentDir) == old(Implementation(y, currentDir))
      ensures forall y, dataDir :: DayTemplate(y, dataDir) == old(DayTemplate(y, dataDir))
      ensures forall y, currentDir :: y != year ==> InputFiles(y, currentDir) == old(InputFiles(y, currentDir))
    {
      var entry := Entry(year);
      paths := paths[year := entry.(inputFiles := Some(path))];
    }

    /** `set_implementation`, likewise for the implementation directory. */
    method SetImplementation(year: u32, path: Path)
      modifies this
      ensures paths == old(paths)[year := old(Entry(year)).(implementation := Some(path))]
      ensures session == old(session)
      ensures forall currentDir :: Implementation(year, currentDir) == path
      ensures forall y, currentDir :: y != year ==> Implementation(y, currentDir) == old(Implementation(y, currentDir))
      ensures forall y, dataDir :: DayTemplate(y, dataDir) == old(DayTemplate(y, dataDir))
      ensures forall y :: Entry(y).inputFiles == old(Entry(y).inputFiles)
    {
      var entry := Entry(year);
      paths := paths[year := entry.(implementation := Some(path))];
    }

    /** `set_day_template`, likewise for the day template directory. */
    method SetDayTemplate(year: u32, path: Path)
      modifies this
      ensures paths == old(paths)[year := old(Entry(year)).(dayTemplate := Some(path))]
      ensures session == old(session)
      ensures forall dataDir :: DayTemplate(year, dataDir) == path
      ensures forall y, dataDir :: y != year ==> DayTemplate(y, dataDir) == old(DayTemplate(y, dataDir))
      ensures forall y, currentDir :: InputFiles(y, currentDir) == old(InputFiles(y, currentDir))
      ensures forall y, currentDir :: Implementation(y, currentDir) == old(Implementation(y, currentDir))
    {
      var entry := Entry(year);
      paths := paths[year := entry.(dayTemplate := Some(path))];
    }
  }
}
