/**
 * The move-list parser, the opening classifier and position replay over a
 * rules engine supplied by the caller (the chess.js library in the application).
 */
module ChessUtils {
  import opened Wrappers
  import opened Text
  import opened Lists
  import opened Openings

  // ---------------------------------------------------------------------------
  // parsePGN

  /** Length of the run of decimal digits at the front of `s`. */
  function DigitRun(s: string): (k: nat)
    ensures k <= |s|
    ensures forall i :: 0 <= i < k ==> IsDigit(s[i])
    ensures k < |s| ==> !IsDigit(s[k])
    decreases |s|
  {
    if s != [] && IsDigit(s[0]) then 1 + DigitRun(s[1..]) else 0
  }

  /** `s` begins with a move-number indication, digits followed by a period. */
  predicate StartsWithMoveNumber(s: string) {
    var k := DigitRun(s);
    0 < k < |s| && s[k] == '.'
  }

  /** No digit of `s` is directly followed by a period: no move number is left. */
  predicate NoMoveNumbers(s: string) {
    forall i :: 0 <= i < |s| - 1 && IsDigit(s[i]) ==> s[i + 1] != '.'
  }

  /** Where the scan resumes after a leading move number: past the period and the white space after it. */
  function NumberEnd(s: string): (k: nat)
    requires StartsWithMoveNumber(s)
    ensures DigitRun(s) + 1 <= k <= |s|
  {
    DigitRun(s) + 1 + SpaceRun(s[DigitRun(s) + 1..])
  }

  /**
   * `s.replace(/\d+\.\s*\/g, '')`: scanning left to right, every move-number
   * indication is deleted together with the white space after it.
   */
  function StripMoveNumbers(s: string): (r: string)
    ensures |r| <= |s|
    ensures NoMoveNumbers(r)
    ensures |s| > 0 && !StartsWithMoveNumber(s) ==> |r| > 0 && r[0] == s[0]
    decreases |s|
  {
    if s == [] then []
    else if StartsWithMoveNumber(s) then StripMoveNumbers(s[NumberEnd(s)..])
    else
      DigitNotNumber(s);
      [s[0]] + StripMoveNumbers(s[1..])
  }

  /** A digit that does not start a move number is not followed by a period nor by a move number. */
  lemma DigitNotNumber(s: string)
    requires s != [] && !StartsWithMoveNumber(s)
    ensures IsDigit(s[0]) && |s| > 1 ==> !StartsWithMoveNumber(s[1..]) && s[1] != '.'
  {
    if IsDigit(s[0]) && |s| > 1 {
      assert DigitRun(s) == 1 + DigitRun(s[1..]);
    }
  }

  /** Text without move numbers is left as it is. */
  lemma {:induction false} StripClean(s: string)
    requires NoMoveNumbers(s)
    ensures StripMoveNumbers(s) == s
    decreases |s|
  {
    if s != [] {
      StripClean(s[1..]);
      assert s == [s[0]] + s[1..];
    }
  }

  /** Deleting move numbers twice deletes nothing more. */
  lemma StripIdempotent(s: string)
    ensures StripMoveNumbers(StripMoveNumbers(s)) == StripMoveNumbers(s)
  {
    StripClean(StripMoveNumbers(s));
  }

  /** `move => move && move !== ''`. */
  predicate IsToken(move: string) {
    move != []
  }

  /** Splitting on the plain space and dropping empty parts finds the words. */
  lemma {:induction false} SplitOnSpaces(s: string)
    requires OnlyPlainSpaces(s)
    ensures Filter(Split(s, ' '), IsToken) == Words(s)
    decreases |s|
  {
    if s != [] {
      var rest := Split(s[1..], ' ');
      SplitOnSpaces(s[1..]);
      var parts := Split(s, ' ');
      if s[0] == ' ' {
        assert parts == [[]] + rest;
        assert parts[1..] == rest;
      } else {
        assert parts == [[s[0]] + rest[0]] + rest[1..];
        assert parts[1..] == rest[1..];
        assert Filter(parts, IsToken) == [[s[0]] + rest[0]] + Filter(rest[1..], IsToken);
        if |s| > 1 && !IsSpace(s[1]) {
          assert Filter(rest, IsToken) == [rest[0]] + Filter(rest[1..], IsToken);
        } else {
          assert rest[0] == [];
          assert Filter(rest, IsToken) == Filter(rest[1..], IsToken);
          assert [s[0]] + rest[0] == [s[0]];
        }
      }
    }
  }

  /**
   * `parsePGN`: the half-move tokens of the move text in playing order.  They are
   * exactly the words left once the move numbers are deleted, so the spacing
   * of the move text does not matter.
   */
  function ParsePGN(pgn: string): (moves: seq<string>)
    ensures moves == Words(StripMoveNumbers(pgn))
    ensures forall k :: 0 <= k < |moves| ==> moves[k] != [] && NoSpace(moves[k])
  {
    if pgn == "" then []
    else
      var stripped := StripMoveNumbers(pgn);
      var clean := Trim(CollapseSpaces(stripped));
      TrimKeepsPlainSpaces(CollapseSpaces(stripped));
      SplitOnSpaces(clean);
      WordsTrim(CollapseSpaces(stripped));
      WordsCollapse(stripped);
      Filter(Split(clean, ' '), IsToken)
  }

  /** Deleting move numbers passes over leading white space. */
  lemma {:induction false} StripLeadingSpaces(w: string, x: string)
    requires forall i :: 0 <= i < |w| ==> IsSpace(w[i])
    ensures StripMoveNumbers(w + x) == w + StripMoveNumbers(x)
    decreases |w|
  {
    if w != [] {
      calc {
        StripMoveNumbers(w + x);
      == { assert DigitRun(w + x) == 0; StripCopyStep(w + x); }
        [(w + x)[0]] + StripMoveNumbers((w + x)[1..]);
      == { assert (w + x)[1..] == w[1..] + x; }
        [w[0]] + StripMoveNumbers(w[1..] + x);
      == { StripLeadingSpaces(w[1..], x); }
        [w[0]] + (w[1..] + StripMoveNumbers(x));
      == { assert w == [w[0]] + w[1..]; }
        w + StripMoveNumbers(x);
      }
    } else {
      assert w + x == x;
    }
  }

  /** A character that does not start a move number is kept, and the scan moves on by one. */
  lemma StripCopyStep(s: string)
    requires s != [] && !StartsWithMoveNumber(s)
    ensures StripMoveNumbers(s) == [s[0]] + StripMoveNumbers(s[1..])
  {
  }

  /** Deleting a leading move number also swallows the white space after it. */
  lemma StripLeadingNumber(n: char, after: string, rest: string)
    requires IsDigit(n)
    requires forall i :: 0 <= i < |after| ==> IsSpace(after[i])
    requires rest == [] || !IsSpace(rest[0])
    ensures StripMoveNumbers([n, '.'] + after + rest) == StripMoveNumbers(rest)
  {
    var tail := after + rest;
    SpaceRunOf(after, rest);
    assert tail[SpaceRun(tail)..] == rest;
    assert [n, '.'] + after + rest == [n, '.'] + tail;
    StripAfterNumber(n, tail);
  }

  /** A one-digit move number at the front is deleted with the white space after it. */
  lemma StripAfterNumber(n: char, tail: string)
    requires IsDigit(n)
    ensures StripMoveNumbers([n, '.'] + tail) == StripMoveNumbers(tail[SpaceRun(tail)..])
  {
    var s := [n, '.'] + tail;
    calc {
      StripMoveNumbers(s);
    == { OneDigitNumber(n, tail); StripNumberStep(s); }
      StripMoveNumbers(s[NumberEnd(s)..]);
    == { OneDigitNumber(n, tail); assert s[2 + SpaceRun(tail)..] == tail[SpaceRun(tail)..]; }
      StripMoveNumbers(tail[SpaceRun(tail)..]);
    }
  }

  /** A single digit and a period make a move number, which ends after the white space that follows. */
  lemma OneDigitNumber(n: char, tail: string)
    requires IsDigit(n)
    ensures StartsWithMoveNumber([n, '.'] + tail) && NumberEnd([n, '.'] + tail) == 2 + SpaceRun(tail)
  {
    var s := [n, '.'] + tail;
    assert s[1..] == ['.'] + tail;
    assert DigitRun(s[1..]) == 0;
    assert s[2..] == tail;
  }

  /** A leading move number is deleted, and the scan resumes after the white space that follows it. */
  lemma StripNumberStep(s: string)
    requires StartsWithMoveNumber(s)
    ensures StripMoveNumbers(s) == StripMoveNumbers(s[NumberEnd(s)..])
  {
  }

  /** Two words separated and followed by white space hold no move number. */
  lemma TwoWordsClean(a: string, gap: string, b: string, trail: string)
    requires forall i :: 0 <= i < |gap| ==> IsSpace(gap[i])
    requires forall i :: 0 <= i < |trail| ==> IsSpace(trail[i])
    requires |gap| > 0 && a != [] && NoMoveNumbers(a) && NoMoveNumbers(b)
    ensures NoMoveNumbers(a + gap + b + trail)
  {
    var rest := a + gap + b + trail;
    forall i | 0 <= i < |rest| - 1 && IsDigit(rest[i]) ensures rest[i + 1] != '.' {
      if i < |a| - 1 {
        assert rest[i] == a[i] && rest[i + 1] == a[i + 1];
      } else if i == |a| - 1 {
        assert rest[i + 1] == gap[0];
      } else if i < |a| + |gap| {
      } else if i < |a| + |gap| + |b| - 1 {
        var k := i - |a| - |gap|;
        assert rest[i] == b[k] && rest[i + 1] == b[k + 1];
      } else if i == |a| + |gap| + |b| - 1 {
        assert rest[i + 1] == trail[0];
      }
    }
  }

  /** A word followed only by white space is the only word. */
  lemma WordThenSpaces(b: string, trail: string)
    requires forall i :: 0 <= i < |trail| ==> IsSpace(trail[i])
    requires b != [] && NoSpace(b)
    ensures Words(b + trail) == [b]
  {
    if trail == [] {
      assert b + trail == b;
      WordsOfWord(b);
    } else {
      assert b + trail == b + [trail[0]] + trail[1..];
      WordsOfWords(b, trail[0], trail[1..]);
      WordsLeadingSpaces(trail[1..], []);
      assert trail[1..] + [] == trail[1..];
    }
  }

  lemma PairIsConcat(a: string, b: string)
    ensures [a] + [b] == [a, b]
  {
  }

  /** A word followed by a run of white space is the first word. */
  lemma WordThenGap(a: string, gap: string, x: string)
    requires |gap| > 0 && forall i :: 0 <= i < |gap| ==> IsSpace(gap[i])
    requires a != [] && NoSpace(a)
    ensures Words(a + gap + x) == [a] + Words(x)
  {
    var afterGap := gap[1..] + x;
    assert a + gap + x == a + [gap[0]] + afterGap by {
      assert gap == [gap[0]] + gap[1..];
    }
    WordsOfWords(a, gap[0], afterGap);
    WordsLeadingSpaces(gap[1..], x);
  }

  /** The words of two words separated and followed by white space. */
  lemma WordsOfTwo(a: string, gap: string, b: string, trail: string)
    requires |gap| > 0 && forall i :: 0 <= i < |gap| ==> IsSpace(gap[i])
    requires forall i :: 0 <= i < |trail| ==> IsSpace(trail[i])
    requires a != [] && NoSpace(a) && b != [] && NoSpace(b)
    ensures Words(a + gap + b + trail) == [a, b]
  {
    assert a + gap + b + trail == a + gap + (b + trail);
    WordThenGap(a, gap, b + trail);
    WordThenSpaces(b, trail);
    PairIsConcat(a, b);
  }

  /**
   * Every spelling of the first move pair parses to the same two tokens: any
   * white space around the text, none or any after "1.", any run between the
   * moves ("1.e4 e5", "1. e4  e5" and " 1.e4   e5 " all give ["e4", "e5"]).
   */
  lemma ParseFirstMovePair(lead: string, after: string, a: string, gap: string, b: string, trail: string)
    requires forall i :: 0 <= i < |lead| ==> IsSpace(lead[i])
    requires forall i :: 0 <= i < |after| ==> IsSpace(after[i])
    requires |gap| > 0 && forall i :: 0 <= i < |gap| ==> IsSpace(gap[i])
    requires forall i :: 0 <= i < |trail| ==> IsSpace(trail[i])
    requires a != [] && NoSpace(a) && NoMoveNumbers(a)
    requires b != [] && NoSpace(b) && NoMoveNumbers(b)
    ensures ParsePGN(lead + "1." + after + a + gap + b + trail) == [a, b]
  {
    var rest := a + gap + b + trail;
    var numbered := ['1', '.'] + after + rest;
    assert lead + "1." + after + a + gap + b + trail == lead + numbered;
    StripLeadingSpaces(lead, numbered);
    StripLeadingNumber('1', after, rest);
    TwoWordsClean(a, gap, b, trail);
    StripClean(rest);
    WordsLeadingSpaces(lead, rest);
    WordsOfTwo(a, gap, b, trail);
  }

  /** Text holding only move numbers has no moves. */
  lemma ParseOnlyNumbers(lead: string, n: char, after: string)
    requires forall i :: 0 <= i < |lead| ==> IsSpace(lead[i])
    requires forall i :: 0 <= i < |after| ==> IsSpace(after[i])
    requires IsDigit(n)
    ensures ParsePGN(lead + [n, '.'] + after) == []
  {
    var numbered := [n, '.'] + after;
    assert lead + [n, '.'] + after == lead + numbered;
    StripLeadingSpaces(lead, numbered);
    assert DigitRun(numbered) == 1 by {
      assert DigitRun(numbered) == 1 + DigitRun(numbered[1..]);
    }
    assert numbered[2..] == after + [];
    SpaceRunOf(after, []);
    assert StripMoveNumbers(numbered) == [];
    WordsLeadingSpaces(lead, []);
    assert lead + [] == lead;
  }

  // ---------------------------------------------------------------------------
  // categorizeOpening

  /** The closed set of categories the classifier returns. */
  datatype Category = Unknown | WhiteE4 | BlackVsE4 | WhiteD4 | BlackVsD4 | WhiteOther

  /** White's first move is `m`: "1. m" at the start, or "1.m" anywhere. */
  predicate OpensWith(pgn: string, normalized: string, m: string) {
    StartsWith(pgn, "1. " + m) || Includes(normalized, "1." + m)
  }

  /** Black's first reply is `m`, written "1... m" or "1...m". */
  predicate RepliesWith(normalized: string, m: string) {
    Includes(normalized, "1... " + m) || Includes(normalized, "1..." + m)
  }

  /** The category of an opening whose first move is 1.e4, from its reply, name and code. */
  function CategoryAfterE4(np: string, eco: string, name: string): (c: Category)
    ensures c == WhiteE4 || c == BlackVsE4
    ensures RepliesWith(np, "e5") ==> c == WhiteE4
  {
    if RepliesWith(np, "e5") then WhiteE4
    else if RepliesWith(np, "c5") || Includes(name, "sicilian") || StartsWith(eco, "B") then BlackVsE4
    else if RepliesWith(np, "e6") || Includes(name, "french") || (StartsWith(eco, "C") && Includes(name, "french")) then BlackVsE4
    else if RepliesWith(np, "c6") || Includes(name, "caro") || Includes(name, "kann") then BlackVsE4
    else if RepliesWith(np, "d5") || Includes(name, "scandinavian") || Includes(name, "center counter") then BlackVsE4
    else if RepliesWith(np, "d6") || RepliesWith(np, "g6") || RepliesWith(np, "nf6")
      || Includes(name, "pirc") || Includes(name, "modern") || Includes(name, "alekhine") then BlackVsE4
    else if RepliesWith(np, "nc6") || Includes(name, "nimzowitsch") then BlackVsE4
    else WhiteE4
  }

  /** The category of an opening whose first move is 1.d4. */
  function CategoryAfterD4(np: string, eco: string, name: string): (c: Category)
    ensures c == WhiteD4 || c == BlackVsD4
    ensures RepliesWith(np, "d5") ==> c == WhiteD4
  {
    if RepliesWith(np, "d5") then WhiteD4
    else if RepliesWith(np, "nf6") || Includes(name, "indian") || Includes(name, "nimzo")
      || Includes(name, "king's indian") || Includes(name, "grunfeld") || StartsWith(eco, "E") then BlackVsD4
    else if RepliesWith(np, "e6") || Includes(name, "queen's indian") || Includes(name, "nimzo-indian") then BlackVsD4
    else if RepliesWith(np, "c5") || Includes(name, "benoni") || Includes(name, "benko") then BlackVsD4
    else if RepliesWith(np, "f5") || Includes(name, "dutch") then BlackVsD4
    else if RepliesWith(np, "nc6") || RepliesWith(np, "g6") then BlackVsD4
    else WhiteD4
  }

  /**
   * `categorizeOpening`.  "unknown" exactly when there is no move text; otherwise
   * the first move decides between the 1.e4 pair, the 1.d4 pair and "white-other".
   */
  function CategorizeOpening(o: Opening): (c: Category)
    ensures c == Unknown <==> o.pgn == ""
    ensures o.pgn != "" ==>
      var pgn := Trim(ToLower(o.pgn));
      var np := CollapseSpaces(pgn);
      && (OpensWith(pgn, np, "e4") ==> c == WhiteE4 || c == BlackVsE4)
      && (OpensWith(pgn, np, "e4") && RepliesWith(np, "e5") ==> c == WhiteE4)
      && (!OpensWith(pgn, np, "e4") && OpensWith(pgn, np, "d4") ==> c == WhiteD4 || c == BlackVsD4)
      && (!OpensWith(pgn, np, "e4") && OpensWith(pgn, np, "d4") && RepliesWith(np, "d5") ==> c == WhiteD4)
      && (!OpensWith(pgn, np, "e4") && !OpensWith(pgn, np, "d4") ==> c == WhiteOther)
  {
    if o.pgn == "" then Unknown
    else
      var pgn := Trim(ToLower(o.pgn));
      var eco := o.eco;
      var name := ToLower(o.name);
      var np := CollapseSpaces(pgn);
      if OpensWith(pgn, np, "e4") then CategoryAfterE4(np, eco, name)
      else if OpensWith(pgn, np, "d4") then CategoryAfterD4(np, eco, name)
      else if OpensWith(pgn, np, "nf3") then WhiteOther
      else if OpensWith(pgn, np, "c4") then WhiteOther
      else if OpensWith(pgn, np, "f4") then WhiteOther
      else if StartsWith(pgn, "1. b3") || StartsWith(pgn, "1. g3") || StartsWith(pgn, "1. nc3")
        || Includes(np, "1.b3") || Includes(np, "1.g3") || Includes(np, "1.nc3") then WhiteOther
      else WhiteOther
  }

  /** The letter case of the move text and of the name does not affect the category. */
  lemma CategoryIgnoresCase(o: Opening)
    ensures CategorizeOpening(o) == CategorizeOpening(o.(pgn := ToLower(o.pgn), name := ToLower(o.name)))
  {
    ToLowerIdempotent(o.pgn);
    ToLowerIdempotent(o.name);
  }

  // ---------------------------------------------------------------------------
  // getPositionAfterMoves

  /**
   * The rules engine, as the caller supplies it: the starting position, a move
   * function that returns None when it rejects a token (chess.js `move`, which
   * returns null), and the FEN of a position.
   */
  datatype Rules<!B> = Rules(start: B, move: (B, string) -> Option<B>, fen: B -> string)

  /** A replay in progress: the current position, and whether a move was rejected. */
  datatype Replay<B> = Replay(board: B, halted: bool)

  /** `moves[i]`; beyond the list JavaScript reads `undefined`, which is skipped like "". */
  function PlyToken(moves: seq<string>, i: nat): (t: string)
    ensures i < |moves| ==> t == moves[i]
    ensures i >= |moves| ==> t == ""
  {
    if i < |moves| then moves[i] else ""
  }

  /** One iteration of the replay loop: an empty token is skipped, a rejected one halts. */
  function Step<B>(rules: Rules<B>, r: Replay<B>, token: string): (r': Replay<B>)
    ensures r.halted || token == "" ==> r' == r
    ensures r' != r ==> r'.halted || rules.move(r.board, token) == Some(r'.board)
  {
    if r.halted || token == "" then r
    else
      match rules.move(r.board, token)
      case None => Replay(r.board, true)
      case Some(b) => Replay(b, false)
  }

  /** The replay after the loop has visited plies 0 .. n-1. */
  function ReplayUpTo<B>(rules: Rules<B>, moves: seq<string>, n: nat): Replay<B>
    decreases n
  {
    if n == 0 then Replay(rules.start, false)
    else Step(rules, ReplayUpTo(rules, moves, n - 1), PlyToken(moves, n - 1))
  }

  /**
   * Reference reading of "play the moves in order from a position, stopping at
   * the first one that is rejected".
   */
  function PlayFrom<B>(rules: Rules<B>, board: B, tokens: seq<string>): Replay<B>
    decreases |tokens|
  {
    if tokens == [] then Replay(board, false)
    else if tokens[0] == "" then PlayFrom(rules, board, tokens[1..])
    else
      match rules.move(board, tokens[0])
      case None => Replay(board, true)
      case Some(b) => PlayFrom(rules, b, tokens[1..])
  }

  /** Playing one more token extends a play by one step. */
  lemma {:induction false} PlayFromSnoc<B>(rules: Rules<B>, board: B, tokens: seq<string>, t: string)
    ensures PlayFrom(rules, board, tokens + [t]) == Step(rules, PlayFrom(rules, board, tokens), t)
    decreases |tokens|
  {
    if tokens == [] {
      assert [] + [t] == [t];
      assert [t][1..] == [];
    } else {
      assert (tokens + [t])[1..] == tokens[1..] + [t];
      if tokens[0] != "" && rules.move(board, tokens[0]).Some? {
        PlayFromSnoc(rules, rules.move(board, tokens[0]).value, tokens[1..], t);
      } else if tokens[0] == "" {
        PlayFromSnoc(rules, board, tokens[1..], t);
      }
    }
  }

  /**
   * Incremental and direct replay agree: the loop's position after n plies is
   * the position reached by playing the first n tokens in order from the start.
   */
  lemma {:induction false} ReplayIsPlay<B>(rules: Rules<B>, moves: seq<string>, n: nat)
    requires n <= |moves|
    ensures ReplayUpTo(rules, moves, n) == PlayFrom(rules, rules.start, moves[..n])
    decreases n
  {
    if n > 0 {
      ReplayIsPlay(rules, moves, n - 1);
      assert moves[..n] == moves[..n - 1] + [moves[n - 1]];
      PlayFromSnoc(rules, rules.start, moves[..n - 1], moves[n - 1]);
    }
  }

  /** Once a move is rejected, later plies change nothing. */
  lemma {:induction false} HaltedStays<B>(rules: Rules<B>, moves: seq<string>, n: nat, m: nat)
    requires n <= m && ReplayUpTo(rules, moves, n).halted
    ensures ReplayUpTo(rules, moves, m) == ReplayUpTo(rules, moves, n)
    decreases m
  {
    if m > n {
      HaltedStays(rules, moves, n, m - 1);
    }
  }

  /**
   * The position `getPositionAfterMoves` returns: the trusted final FEN for the
   * last ply or when the engine is unavailable, otherwise the FEN after replaying
   * plies 0 .. moveIndex.
   */
  function PositionAt<B>(moves: seq<string>, moveIndex: int, finalFen: string, engine: Option<Rules<B>>): string
  {
    if moveIndex == |moves| - 1 then finalFen
    else
      match engine
      case None => finalFen
      case Some(rules) => rules.fen(ReplayUpTo(rules, moves, if moveIndex < 0 then 0 else moveIndex + 1).board)
  }

  /**
   * `getPositionAfterMoves`: a fresh game advanced move by move; the first
   * rejected move ends the replay with the last good position.
   */
  method GetPositionAfterMoves<B>(moves: seq<string>, moveIndex: int, finalFen: string, engine: Option<Rules<B>>)
    returns (fen: string)
    ensures fen == PositionAt(moves, moveIndex, finalFen, engine)
  {
    if moveIndex == |moves| - 1 {
      return finalFen;
    }
    if engine.None? {
      return finalFen;
    }
    var rules := engine.value;
    var game := rules.start;
    var i := 0;
    while i <= moveIndex
      invariant 0 <= i <= if moveIndex < 0 then 0 else moveIndex + 1
      invariant ReplayUpTo(rules, moves, i) == Replay(game, false)
    {
      var token := if i < |moves| then moves[i] else "";
      if token != "" {
        var next := rules.move(game, token);
        if next.None? {
          HaltedStays(rules, moves, i + 1, moveIndex + 1);
          return rules.fen(game);
        }
        game := next.value;
      }
      i := i + 1;
    }
    return rules.fen(game);
  }

  /**
   * How plies are addressed: the last ply is the trusted FEN whatever the engine,
   * index -1 is the engine's starting position, and an empty token is skipped.
   */
  lemma PositionAddressing<B>(moves: seq<string>, finalFen: string, rules: Rules<B>, other: Option<Rules<B>>)
    requires |moves| > 0
    ensures PositionAt(moves, |moves| - 1, finalFen, Some(rules)) == finalFen
    ensures PositionAt(moves, |moves| - 1, finalFen, other) == finalFen
    ensures PositionAt(moves, -1, finalFen, Some(rules)) == rules.fen(rules.start)
    ensures forall k :: 0 <= k < |moves| - 1 ==> PositionAt<B>(moves, k, finalFen, None) == finalFen
    ensures forall k :: 0 <= k < |moves| - 1 && moves[k] == "" ==>
      PositionAt(moves, k, finalFen, Some(rules)) == PositionAt(moves, k - 1, finalFen, Some(rules))
  {
  }

  /**
   * Replay equals playing the prefix: for every index below the last, the
   * position is that of moves[0 .. moveIndex] played in order from the start.
   */
  lemma PositionIsPlayedPrefix<B>(moves: seq<string>, moveIndex: nat, finalFen: string, rules: Rules<B>)
    requires moveIndex < |moves| - 1
    ensures PositionAt(moves, moveIndex, finalFen, Some(rules))
         == rules.fen(PlayFrom(rules, rules.start, moves[..moveIndex + 1]).board)
  {
    ReplayIsPlay(rules, moves, moveIndex + 1);
  }

  /**
   * Graceful degradation: when move k is the first one rejected, every index from
   * k on (below the last) shows the position after moves 0 .. k-1.
   */
  lemma RejectedMoveFreezes<B>(moves: seq<string>, finalFen: string, rules: Rules<B>, k: nat, j: int)
    requires k <= j < |moves| - 1
    requires moves[k] != "" && !ReplayUpTo(rules, moves, k).halted
    requires rules.move(ReplayUpTo(rules, moves, k).board, moves[k]).None?
    ensures PositionAt(moves, j, finalFen, Some(rules)) == PositionAt(moves, k - 1, finalFen, Some(rules))
  {
    assert ReplayUpTo(rules, moves, k + 1).halted;
    HaltedStays(rules, moves, k + 1, j + 1);
  }
}
