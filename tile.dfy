/**
 * Fixed-width tiles: splitting a line into chunks of a tile's display width, and the
 * three stock tile types `Bool`, `Digit` and `TwoDigits` with their conversions.
 */
module Tiles {
  import opened Wrappers
  import Arith

  newtype u8 = v: int | 0 <= v < 256

  /** Concatenation of a sequence of sequences (of strings, of tile rows). */
  function Concat<T>(parts: seq<seq<T>>): seq<T> {
    if |parts| == 0 then [] else Concat(parts[..|parts| - 1]) + parts[|parts| - 1]
  }

  /** The chunks a line splits into: consecutive pieces of exactly `width` characters. */
  function ChunksOf(s: string, width: nat): seq<string>
    requires width >= 1
    decreases |s|
  {
    if |s| < width then [] else [s[..width]] + ChunksOf(s[width..], width)
  }

  /**
   * The `Chunks` iterator: it owns the remaining characters of the line it was
   * created from, and each `Next` takes the next `width` of them.
   */
  class Chunks {
    var chars: string
    const width: nat

    constructor (s: string, width: nat)
      ensures this.chars == s && this.width == width
    {
      this.chars := s;
      this.width := width;
    }

    /** A full chunk, or `None` once fewer than `width` characters remain (those are consumed). */
    method Next() returns (r: Option<string>)
      modifies this
      ensures |old(chars)| >= width ==> r == Some(old(chars)[..width]) && chars == old(chars)[width..]
      ensures |old(chars)| < width ==> r == None && chars == []
    {
      var s := "";
      for i := 0 to width
        invariant i <= |old(chars)|
        invariant s == old(chars)[..i] && chars == old(chars)[i..]
      {
        if chars == [] {
          return None;
        }
        s := s + [chars[0]];
        chars := chars[1..];
      }
      return Some(s);
    }
  }

  /** Drains a `Chunks` iterator over `s`, as a `for chunk in chunks(s)` loop does. */
  method CollectChunks(s: string, width: nat) returns (chunks: seq<string>)
    requires width >= 1
    ensures chunks == ChunksOf(s, width)
  {
    var it := new Chunks(s, width);
    chunks := [];
    while true
      invariant chunks + ChunksOf(it.chars, width) == ChunksOf(s, width)
      decreases |it.chars|
    {
      var next := it.Next();
      match next {
        case None =>
          return;
        case Some(chunk) =>
          chunks := chunks + [chunk];
      }
    }
  }

  /** The number of chunks is the character count divided by the width, rounded down. */
  lemma {:induction false} ChunksCount(s: string, width: nat)
    requires width >= 1
    ensures |ChunksOf(s, width)| == |s| / width
    ensures forall i :: 0 <= i < |ChunksOf(s, width)| ==> |ChunksOf(s, width)[i]| == width
    decreases |s|
  {
    if |s| >= width {
      ChunksCount(s[width..], width);
      DivStep(|s|, width);
    }
  }

  lemma DivStep(n: nat, width: nat)
    requires 1 <= width <= n
    ensures (n - width) / width + 1 == n / width
  {
    var q := (n - width) / width;
    var m := (n - width) % width;
    assert n == (q + 1) * width + m;
    Arith.DivModUnique(n, width, q + 1, m);
  }

  lemma {:induction false} ConcatAppend<T>(parts: seq<seq<T>>, more: seq<seq<T>>)
    ensures Concat(parts + more) == Concat(parts) + Concat(more)
    decreases |more|
  {
    if |more| == 0 {
      assert parts + more == parts;
    } else {
      var init, last := more[..|more| - 1], more[|more| - 1];
      ConcatAppend(parts, init);
      var all := parts + more;
      assert all[..|all| - 1] == parts + init && all[|all| - 1] == last;
      calc {
        Concat(all);
        Concat(parts + init) + last;
        Concat(parts) + Concat(init) + last;
        Concat(parts) + (Concat(init) + last);
        Concat(parts) + Concat(more);
      }
    }
  }

  /** The chunks, put back together, are a prefix of the line. */
  lemma {:induction false} ChunksArePrefix(s: string, width: nat)
    requires width >= 1
    ensures Concat(ChunksOf(s, width)) <= s
    decreases |s|
  {
    if |s| >= width {
      var rest := ChunksOf(s[width..], width);
      ChunksArePrefix(s[width..], width);
      ConcatAppend([s[..width]], rest);
      assert Concat([s[..width]]) == s[..width] by {
        assert [s[..width]][..0] == [];
      }
      assert ChunksOf(s, width) == [s[..width]] + rest;
      assert s == s[..width] + s[width..];
    }
  }

  lemma {:induction false} ConcatLength<T>(parts: seq<seq<T>>, width: nat)
    requires forall i :: 0 <= i < |parts| ==> |parts[i]| == width
    ensures |Concat(parts)| == |parts| * width
    decreases |parts|
  {
    if |parts| > 0 {
      ConcatLength(parts[..|parts| - 1], width);
      assert |parts| * width == (|parts| - 1) * width + width;
    }
  }

  /** The chunks, put back together, give the line up to its last whole chunk. */
  lemma ChunksConcat(s: string, width: nat)
    requires width >= 1
    ensures Concat(ChunksOf(s, width)) == s[..(|s| / width) * width]
  {
    ChunksCount(s, width);
    ChunksArePrefix(s, width);
    ConcatLength(ChunksOf(s, width), width);
  }

  /** Pieces of exactly `width` characters are recovered from their concatenation. */
  lemma {:induction false} ChunksOfConcat(parts: seq<string>, width: nat)
    requires width >= 1
    requires forall i :: 0 <= i < |parts| ==> |parts[i]| == width
    ensures ChunksOf(Concat(parts), width) == parts
    decreases |parts|
  {
    if |parts| > 0 {
      var rest := parts[1..];
      ChunksOfConcat(rest, width);
      assert parts == [parts[0]] + rest;
      ConcatAppend([parts[0]], rest);
      assert Concat([parts[0]]) == parts[0] by {
        assert [parts[0]][..0] == [];
      }
      var s := Concat(parts);
      assert s == parts[0] + Concat(rest);
      assert s[..width] == parts[0];
      assert s[width..] == Concat(rest);
    }
  }

  // ---------------------------------------------------------------------------------
  // Display widths

  const BoolDisplayWidth: nat := 1
  const DigitDisplayWidth: nat := 1
  const TwoDigitsDisplayWidth: nat := 3

  // ---------------------------------------------------------------------------------
  // Bool

  /** A tile compatible with booleans; displayed as `#` (true) and `.` (false). */
  datatype Bool = True | False

  const DefaultBool: Bool := False

  /** `bool::from`: undone by `Bool::from`. */
  function BoolToBool(b: Bool): (r: bool)
    ensures BoolFromBool(r) == b
  {
    b == True
  }

  /** `Bool::from`: the tile is True exactly for `true`. */
  function BoolFromBool(b: bool): (r: Bool)
    ensures r == True <==> b
  {
    if b then True else False
  }

  function Not(b: Bool): (r: Bool)
    ensures BoolToBool(r) == !BoolToBool(b)
    ensures r != b
  {
    match b
    case True => False
    case False => True
  }

  /** `PartialEq<bool> for Bool`. */
  function EqBool(b: Bool, other: bool): (r: bool)
    ensures r <==> b == BoolFromBool(other)
  {
    (b == True) == other
  }

  function BoolToRgb(b: Bool): (r: seq<u8>)
    ensures |r| == 3
    ensures BoolToBool(b) <==> r != [0, 0, 0]
  {
    if BoolToBool(b) then [253, 244, 220] else [0, 0, 0]
  }

  lemma BoolRoundTrips(b: Bool, v: bool)
    ensures BoolFromBool(BoolToBool(b)) == b
    ensures BoolToBool(BoolFromBool(v)) == v
    ensures Not(Not(b)) == b
    ensures EqBool(b, v) <==> b == BoolFromBool(v)
  {
  }

  // ---------------------------------------------------------------------------------
  // Digit and TwoDigits

  /** A single decimal digit. Its constructors only ever store values below 10. */
  datatype Digit = Digit(value: u8)
  {
    ghost predicate Valid() { value < 10 }
  }

  /** Two decimal digits. Its constructors only ever store values below 100. */
  datatype TwoDigits = TwoDigits(value: u8)
  {
    ghost predicate Valid() { value < 100 }
  }

  const DefaultDigit: Digit := Digit(0)
  const DefaultTwoDigits: TwoDigits := TwoDigits(0)

  function DigitTryFrom(v: u8): (r: Result<Digit, ()>)
    ensures r.Success? <==> v < 10
    ensures r.Success? ==> r.value.Valid() && r.value.value == v
  {
    if v < 10 then Success(Digit(v)) else Failure(())
  }

  /** `u8::from`: undone by `try_from` for every valid digit. */
  function DigitToU8(d: Digit): (r: u8)
    ensures d.Valid() ==> r < 10 && DigitTryFrom(r) == Success(d)
  {
    d.value
  }

  /** A grey ramp: `u8::MAX / 9` per step, which cannot overflow for a valid digit. */
  function DigitToRgb(d: Digit): (r: seq<u8>)
    requires d.Valid()
    ensures |r| == 3 && r[0] == r[1] == r[2]
    ensures r[0] as int == 28 * d.value as int <= 252
  {
    var step: u8 := 255 / 9;
    var value := d.value * step;
    [value, value, value]
  }

  function TwoDigitsTryFrom(v: u8): (r: Result<TwoDigits, ()>)
    ensures r.Success? <==> v < 100
    ensures r.Success? ==> r.value.Valid() && r.value.value == v
  {
    if v < 100 then Success(TwoDigits(v)) else Failure(())
  }

  /** `u8::from`: undone by `try_from` for every valid pair of digits. */
  function TwoDigitsToU8(d: TwoDigits): (r: u8)
    ensures d.Valid() ==> r < 100 && TwoDigitsTryFrom(r) == Success(d)
  {
    d.value
  }

  /** A grey ramp: `u8::MAX / 99` (that is, 2) per step, at most 198. */
  function TwoDigitsToRgb(d: TwoDigits): (r: seq<u8>)
    requires d.Valid()
    ensures |r| == 3 && r[0] == r[1] == r[2]
    ensures r[0] as int == 2 * d.value as int <= 198
  {
    var step: u8 := 255 / 99;
    var value := d.value * step;
    [value, value, value]
  }

  lemma DigitRoundTrips(d: Digit, t: TwoDigits)
    requires d.Valid() && t.Valid()
    ensures DigitTryFrom(DigitToU8(d)) == Success(d)
    ensures TwoDigitsTryFrom(TwoDigitsToU8(t)) == Success(t)
  {
  }
}
