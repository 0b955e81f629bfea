/**
 * The opening detail board: an index over the plies of the opening's move
 * list, the four navigation buttons, the rule that picks the FEN shown for an
 * index, and the caption under the board.
 */
module DetailView {
  import opened Wrappers
  import opened Text
  import opened Openings
  import opened ChessUtils

  /** The standard starting position, shown at index -1. */
  const InitialFen: string := "rnbqkbnr/pppppppp/8/8/8/8/PPPPPPPP/RNBQKBNR w KQkq - 0 1"

  // ---------------------------------------------------------------------------
  // Index arithmetic
  // ---------------------------------------------------------------------------

  /** The index is -1 (starting position) or the index of a ply. */
  predicate InRange(index: int, count: nat) {
    -1 <= index <= count - 1
  }

  /** `stepBack`: move one ply back unless already at the starting position. */
  function StepBackIndex(index: int): (j: int)
    ensures j == index - 1 <==> index > -1
    ensures j == index <==> index <= -1
  {
    if index > -1 then index - 1 else index
  }

  /** `stepForward`: move one ply on unless already at the last ply. */
  function StepForwardIndex(index: int, count: nat): (j: int)
    ensures j == index + 1 <==> index < count - 1
    ensures j == index <==> index >= count - 1
  {
    if index < count - 1 then index + 1 else index
  }

  /** Every button keeps the index inside [-1, count - 1]. */
  lemma NavigationKeepsRange(index: int, count: nat)
    requires InRange(index, count)
    ensures InRange(StepBackIndex(index), count)
    ensures InRange(StepForwardIndex(index, count), count)
    ensures InRange(-1, count) && InRange(count - 1, count)
  {
  }

  /** Stepping back and then forward returns to the same ply. */
  lemma BackThenForward(index: int, count: nat)
    requires -1 < index <= count - 1
    ensures StepForwardIndex(StepBackIndex(index), count) == index
  {
  }

  /** Stepping forward and then back returns to the same ply. */
  lemma ForwardThenBack(index: int, count: nat)
    requires -1 <= index < count - 1
    ensures StepBackIndex(StepForwardIndex(index, count)) == index
  {
  }

  // ---------------------------------------------------------------------------
  // Position selection
  // ---------------------------------------------------------------------------

  /**
   * The FEN `calculatePosition` shows: the fixed initial position at -1, the
   * opening's own FEN at the last ply, and the replayed position in between.
   */
  function DisplayedPosition<B>(moves: seq<string>, index: int, openingFen: string, engine: Option<Rules<B>>): (fen: string)
    ensures index == -1 ==> fen == InitialFen
    ensures index != -1 ==> fen == PositionAt(moves, index, openingFen, engine)
  {
    if index == -1 then InitialFen
    else if index == |moves| - 1 then openingFen
    else PositionAt(moves, index, openingFen, engine)
  }

  /**
   * The two special cases agree with replay: with an engine whose start
   * position is the standard one, the board shows exactly the position
   * `getPositionAfterMoves` computes, at every index.
   */
  lemma DisplayedIsReplayed<B>(moves: seq<string>, index: int, openingFen: string, rules: Rules<B>)
    requires |moves| > 0 && InRange(index, |moves|)
    requires rules.fen(rules.start) == InitialFen
    ensures DisplayedPosition(moves, index, openingFen, Some(rules)) == PositionAt(moves, index, openingFen, Some(rules))
  {
    if index == -1 {
      assert ReplayUpTo(rules, moves, 0) == Replay(rules.start, false);
    }
  }

  /**
   * The two ends never consult the engine: index -1 shows the initial FEN and
   * the last ply the opening's FEN, whatever engine is supplied.
   */
  lemma DisplayedEnds<B>(moves: seq<string>, openingFen: string, engine: Option<Rules<B>>, other: Option<Rules<B>>)
    requires |moves| > 0
    ensures DisplayedPosition(moves, -1, openingFen, engine) == InitialFen
    ensures DisplayedPosition(moves, |moves| - 1, openingFen, engine) == DisplayedPosition(moves, |moves| - 1, openingFen, other)
    ensures DisplayedPosition(moves, |moves| - 1, openingFen, engine) == openingFen
  {
  }

  // ---------------------------------------------------------------------------
  // Move caption
  // ---------------------------------------------------------------------------

  /** The character of a decimal digit. */
  function DigitChar(d: nat): (c: char)
    requires d < 10
    ensures IsDigit(c) && DigitValue(c) == d
  {
    (48 + d) as char
  }

  /** Every character is a decimal digit. */
  predicate AllDigits(s: string) {
    forall i :: 0 <= i < |s| ==> IsDigit(s[i])
  }

  /** The decimal numeral of `n`, as a template literal prints a number. */
  function NatToDecimal(n: nat): (r: string)
    ensures |r| > 0 && AllDigits(r)
    ensures n > 0 ==> r[0] != '0'
    decreases n
  {
    if n < 10 then [DigitChar(n)] else NatToDecimal(n / 10) + [DigitChar(n % 10)]
  }

  /** The value of a numeral. */
  function DecimalValue(s: string): nat
    requires AllDigits(s)
    decreases |s|
  {
    if s == [] then 0 else 10 * DecimalValue(s[..|s| - 1]) + DigitValue(s[|s| - 1])
  }

  /** Reading a printed number back gives the number. */
  lemma {:induction false} DecimalRoundTrip(n: nat)
    ensures DecimalValue(NatToDecimal(n)) == n
    decreases n
  {
    if n >= 10 {
      DecimalRoundTrip(n / 10);
      var r := NatToDecimal(n);
      assert r[..|r| - 1] == NatToDecimal(n / 10);
    }
  }

  /** A run of digits ends where a non-digit begins. */
  lemma {:induction false} DigitRunOfNumeral(d: string, rest: string)
    requires AllDigits(d)
    requires rest != [] && !IsDigit(rest[0])
    ensures DigitRun(d + rest) == |d|
    decreases |d|
  {
    if d != [] {
      assert (d + rest)[1..] == d[1..] + rest;
      DigitRunOfNumeral(d[1..], rest);
    } else {
      assert d + rest == rest;
    }
  }

  /**
   * The caption of ply `index` with move `m`: move number floor(index / 2) + 1,
   * then "." for a White move (even index) or "..." for a Black move, a space
   * and the move.
   */
  function MoveLabel(index: nat, m: string): string
  {
    NatToDecimal(index / 2 + 1) + (if index % 2 == 0 then "." else "...") + " " + m
  }

  /**
   * Reads the ply index and the move back from a caption, if it is one. A
   * printed move number has no leading zero, so a caption with one is refused.
   */
  function ReadLabel(caption: string): Option<(nat, string)>
  {
    var k := DigitRun(caption);
    var number := DecimalValue(caption[..k]);
    if k == 0 || caption[0] == '0' || number == 0 then None
    else if StartsWith(caption[k..], "... ") then Some((2 * (number - 1) + 1, caption[k + 4..]))
    else if StartsWith(caption[k..], ". ") then Some((2 * (number - 1), caption[k + 2..]))
    else None
  }

  /** A caption names its ply and its move unambiguously: both can be read back from it. */
  lemma LabelRoundTrip(index: nat, m: string)
    ensures ReadLabel(MoveLabel(index, m)) == Some((index, m))
  {
    var d := NatToDecimal(index / 2 + 1);
    var dots := if index % 2 == 0 then "." else "...";
    var tail := dots + " " + m;
    var caption := MoveLabel(index, m);
    assert caption == d + tail;
    DigitRunOfNumeral(d, tail);
    assert caption[0] == d[0] != '0';
    assert caption[..|d|] == d;
    assert caption[|d|..] == tail;
    DecimalRoundTrip(index / 2 + 1);
    if index % 2 == 0 {
      assert tail[1] == ' ';
      assert !StartsWith(tail, "... ");
      assert tail[..2] == ". ";
      assert caption[|d| + 2..] == m;
    } else {
      assert tail[..4] == "... ";
      assert caption[|d| + 4..] == m;
    }
  }

  /**
   * `getCurrentMoveText`: a progress note while a position is being computed,
   * fixed captions at the two ends, and the move caption in between.
   */
  function MoveText(moves: seq<string>, index: int, isCalculating: bool): (text: string)
    requires InRange(index, |moves|)
    ensures isCalculating ==> text == "Calculating position..."
    ensures !isCalculating && 0 <= index < |moves| - 1 ==> ReadLabel(text) == Some((index, moves[index]))
    ensures !isCalculating && index == -1 ==> text == "Starting position"
    ensures !isCalculating && index == |moves| - 1 && index != -1 ==> text == "Final position"
  {
    if isCalculating then "Calculating position..."
    else if index == -1 then "Starting position"
    else if index == |moves| - 1 then "Final position"
    else
      LabelRoundTrip(index, moves[index]);
      MoveLabel(index, moves[index])
  }

  // ---------------------------------------------------------------------------
  // The component's state
  // ---------------------------------------------------------------------------

  /** The state of one detail view: the opening, its plies, the index and the FEN shown. */
  class Navigator {
    var opening: Opening
    var moves: seq<string>
    var currentMoveIndex: int
    var currentPosition: string

    /** The index always addresses a ply or the starting position. */
    predicate Valid()
      reads this
    {
      InRange(currentMoveIndex, |moves|)
    }

    /** The component's initial state, before the opening effect has run. */
    constructor(o: Opening)
      ensures Valid()
      ensures opening == o && moves == [] && currentMoveIndex == -1 && currentPosition == ""
    {
      opening := o;
      moves := [];
      currentMoveIndex := -1;
      currentPosition := "";
    }

    /** The effect on a new opening: parse its moves and show its final position. */
    method SelectOpening(o: Opening)
      modifies this
      ensures Valid()
      ensures opening == o && moves == ParsePGN(o.pgn)
      ensures currentMoveIndex == |moves| - 1 && currentPosition == o.fen
    {
      opening := o;
      moves := ParsePGN(o.pgn);
      currentMoveIndex := |moves| - 1;
      currentPosition := o.fen;
    }

    /** `goToStart`. */
    method GoToStart()
      modifies this
      requires Valid()
      ensures Valid()
      ensures currentMoveIndex == -1
      ensures opening == old(opening) && moves == old(moves) && currentPosition == old(currentPosition)
    {
      currentMoveIndex := -1;
    }

    /** `stepBack`. */
    method StepBack()
      modifies this
      requires Valid()
      ensures Valid()
      ensures currentMoveIndex == StepBackIndex(old(currentMoveIndex))
      ensures opening == old(opening) && moves == old(moves) && currentPosition == old(currentPosition)
    {
      currentMoveIndex := StepBackIndex(currentMoveIndex);
    }

    /** `stepForward`. */
    method StepForward()
      modifies this
      requires Valid()
      ensures Valid()
      ensures currentMoveIndex == StepForwardIndex(old(currentMoveIndex), |moves|)
      ensures opening == old(opening) && moves == old(moves) && currentPosition == old(currentPosition)
    {
      currentMoveIndex := StepForwardIndex(currentMoveIndex, |moves|);
    }

    /** `goToEnd`. */
    method GoToEnd()
      modifies this
      requires Valid()
      ensures Valid()
      ensures currentMoveIndex == |moves| - 1
      ensures opening == old(opening) && moves == old(moves) && currentPosition == old(currentPosition)
    {
      currentMoveIndex := |moves| - 1;
    }

    /**
     * `calculatePosition`: with no moves nothing is recomputed; otherwise the
     * FEN for the current index is shown.
     */
    method CalculatePosition<B>(engine: Option<Rules<B>>)
      modifies this
      requires Valid()
      ensures Valid()
      ensures opening == old(opening) && moves == old(moves) && currentMoveIndex == old(currentMoveIndex)
      ensures |moves| == 0 ==> currentPosition == old(currentPosition)
      ensures |moves| > 0 ==> currentPosition == DisplayedPosition(moves, currentMoveIndex, opening.fen, engine)
    {
      if |moves| == 0 {
        return;
      }
      if currentMoveIndex == -1 {
        currentPosition := InitialFen;
      } else if currentMoveIndex == |moves| - 1 {
        currentPosition := opening.fen;
      } else {
        currentPosition := GetPositionAfterMoves(moves, currentMoveIndex, opening.fen, engine);
      }
    }

    /** The caption for the current state. */
    function CurrentMoveText(isCalculating: bool): (text: string)
      reads this
      requires Valid()
      ensures isCalculating ==> text == "Calculating position..."
      ensures !isCalculating && 0 <= currentMoveIndex < |moves| - 1 ==>
        ReadLabel(text) == Some((currentMoveIndex, moves[currentMoveIndex]))
      ensures !isCalculating && currentMoveIndex == -1 ==> text == "Starting position"
      ensures !isCalculating && currentMoveIndex == |moves| - 1 && currentMoveIndex != -1 ==> text == "Final position"
    {
      MoveText(moves, currentMoveIndex, isCalculating)
    }
  }
}
