/**
 * Directions on a hexagonal grid whose major orientation is horizontal, and the parser
 * for a line of them written without separators: `e`, `se`, `sw`, `w`, `nw`, `ne`.
 */
module HexDirections {
  import opened Wrappers

  datatype Direction = East | Southeast | Southwest | West | Northwest | Northeast

  /** The step given to `successors`: the next direction clockwise, none after Northeast. */
  function Successor(d: Direction): (r: Option<Direction>)
    ensures r.None? <==> Remaining(d) == 0
    ensures r.Some? ==> Remaining(r.value) + 1 == Remaining(d)
  {
    match d
    case East => Some(Southeast)
    case Southeast => Some(Southwest)
    case Southwest => Some(West)
    case West => Some(Northwest)
    case Northwest => Some(Northeast)
    case Northeast => None
  }

  /** How many directions come after `d`, clockwise from East. */
  function Remaining(d: Direction): nat {
    match d
    case East => 5
    case Southeast => 4
    case Southwest => 3
    case West => 2
    case Northwest => 1
    case Northeast => 0
  }

  /** `successors(Some(d), Successor)`: `d` and every direction after it, in order. */
  function Successors(d: Direction): (r: seq<Direction>)
    ensures |r| == Remaining(d) + 1 && r[0] == d
    ensures forall i :: 0 <= i < |r| ==> Remaining(r[i]) == Remaining(d) - i
    decreases Remaining(d)
  {
    match Successor(d)
    case None => [d]
    case Some(next) => [d] + Successors(next)
  }

  /** `Direction::iter`: every direction once, clockwise from East. */
  function Iter(): (r: seq<Direction>)
    ensures r == [East, Southeast, Southwest, West, Northwest, Northeast]
    ensures forall d: Direction :: d in r
    ensures forall i, j :: 0 <= i < j < |r| ==> r[i] != r[j]
  {
    var r := Successors(East);
    assert r[1] == Southeast && r[2] == Southwest && r[3] == West && r[4] == Northwest && r[5] == Northeast;
    forall d: Direction
      ensures d in r
    {
      assert d == r[5 - Remaining(d)];
    }
    r
  }

  /** How each direction is written. */
  function Token(d: Direction): string {
    match d
    case East => "e"
    case Southeast => "se"
    case Southwest => "sw"
    case West => "w"
    case Northwest => "nw"
    case Northeast => "ne"
  }

  /** A line of directions written one after the other. */
  function Tokens(ds: seq<Direction>): string {
    if ds == [] then "" else Token(ds[0]) + Tokens(ds[1..])
  }

  /**
   * `Direction::try_parse`: the direction written at the head of `s` and the rest of
   * `s`, or no direction and `s` unchanged when no token starts it.
   */
  function TryParse(s: string): (r: (Option<Direction>, string))
    ensures r.0.None? ==> r.1 == s
    ensures r.0.Some? ==> s == Token(r.0.value) + r.1
  {
    var first := if |s| >= 1 then Some(s[0]) else None;
    var second := if |s| >= 2 then Some(s[1]) else None;
    match (first, second)
    case (Some('e'), _) => (Some(East), s[1..])
    case (Some('s'), Some('e')) => (Some(Southeast), s[2..])
    case (Some('s'), Some('w')) => (Some(Southwest), s[2..])
    case (Some('w'), _) => (Some(West), s[1..])
    case (Some('n'), Some('w')) => (Some(Northwest), s[2..])
    case (Some('n'), Some('e')) => (Some(Northeast), s[2..])
    case _ => (None, s)
  }

  /** `try_parse` finds no direction exactly when no token starts `s`. */
  lemma TryParseNone(s: string)
    ensures TryParse(s).0.None? <==> forall d :: !(Token(d) <= s)
  {
  }

  /** A token followed by anything parses back to its direction and leaves the rest. */
  lemma TryParseToken(d: Direction, rest: string)
    ensures TryParse(Token(d) + rest) == (Some(d), rest)
  {
    var s := Token(d) + rest;
    assert s[..|Token(d)|] == Token(d);
    assert s[|Token(d)|..] == rest;
  }

  /** The tokens form a prefix-free code: a line of them starts with only one. */
  lemma TokenPrefixFree(d: Direction, e: Direction, x: string, y: string)
    requires Token(d) + x == Token(e) + y
    ensures d == e && x == y
  {
    TryParseToken(d, x);
    TryParseToken(e, y);
  }

  /** A line of directions is written by exactly one sequence of them. */
  lemma {:induction false} TokensInjective(ds: seq<Direction>, es: seq<Direction>)
    requires Tokens(ds) == Tokens(es)
    ensures ds == es
  {
    if ds != [] && es != [] {
      TokenPrefixFree(ds[0], es[0], Tokens(ds[1..]), Tokens(es[1..]));
      TokensInjective(ds[1..], es[1..]);
    }
  }

  /** No line of directions starts with `Tokens(done)` and continues with a head no token matches. */
  lemma NoTokensAfter(done: seq<Direction>, rest: string)
    requires rest != [] && TryParse(rest).0.None?
    ensures forall ds :: Tokens(ds) != Tokens(done) + rest
  {
    forall ds
      ensures Tokens(ds) != Tokens(done) + rest
    {
      NotTokensAfter(ds, done, rest);
    }
  }

  lemma {:induction false} NotTokensAfter(ds: seq<Direction>, done: seq<Direction>, rest: string)
    requires rest != [] && TryParse(rest).0.None?
    ensures Tokens(ds) != Tokens(done) + rest
  {
    if ds == [] {
      assert |Tokens(done) + rest| > 0;
    } else if done == [] {
      assert Tokens(done) + rest == rest;
      TryParseToken(ds[0], Tokens(ds[1..]));
    } else if Tokens(ds) == Tokens(done) + rest {
      assert Tokens(done) + rest == Token(done[0]) + (Tokens(done[1..]) + rest);
      TokenPrefixFree(ds[0], done[0], Tokens(ds[1..]), Tokens(done[1..]) + rest);
      NotTokensAfter(ds[1..], done[1..], rest);
    }
  }

  lemma TokensAppend(ds: seq<Direction>, d: Direction)
    ensures Tokens(ds + [d]) == Tokens(ds) + Token(d)
  {
    if ds != [] {
      assert (ds + [d])[1..] == ds[1..] + [d];
      TokensAppend(ds[1..], d);
    }
  }

  /** Moving a parsed token from the rest of the line onto the directions read leaves the line as it was. */
  lemma ParsedStep(ds: seq<Direction>, d: Direction, tail: string)
    ensures Tokens(ds + [d]) + tail == Tokens(ds) + (Token(d) + tail)
  {
    TokensAppend(ds, d);
  }

  datatype ParseDirectionsError = ParseDirectionsError

  /**
   * `Directions::from_str`: read directions off the head of `s` until it is used up,
   * failing as soon as the head is not a token. It succeeds exactly when `s` is a line of
   * directions, and then returns the (only) directions it spells.
   */
  method ParseDirections(s: string) returns (r: Result<seq<Direction>, ParseDirectionsError>)
    ensures r.Success? ==> Tokens(r.value) == s
    ensures r.Failure? ==> forall ds :: Tokens(ds) != s
  {
    var directions := [];
    var rest := s;
    while rest != []
      invariant Tokens(directions) + rest == s
      decreases |rest|
    {
      var (parsed, tail) := TryParse(rest);
      if parsed.None? {
        NoTokensAfter(directions, rest);
        return Failure(ParseDirectionsError);
      }
      ParsedStep(directions, parsed.value, tail);
      directions := directions + [parsed.value];
      rest := tail;
    }
    assert Tokens(directions) + rest == Tokens(directions);
    return Success(directions);
  }
}
