/**
 * The catalogue search: which fields of an opening are searched, how the query
 * is normalised (lower-cased, and a loosely written first move such as "1.e4"
 * or "1.   nf3" rewritten to the catalogue's "1. e4" form), and the
 * substring test.
 */
module SearchUtils {
  import opened Text
  import opened Lists
  import opened Openings

  // ---------------------------------------------------------------------------
  // Fields searched
  // ---------------------------------------------------------------------------

  /** The six fields the search looks at, in order. */
  function FieldValues(o: Opening): seq<string> {
    [o.name, o.eco, o.pgn, o.parentName, o.description, o.strategy]
  }

  /** A field is searched when it is truthy, i.e. present and non-empty. */
  predicate Present(field: string) {
    field != ""
  }

  /** Lower-cases every string of a list. */
  function LowerAll(fields: seq<string>): (r: seq<string>)
    ensures |r| == |fields|
    ensures forall i :: 0 <= i < |r| ==> r[i] == ToLower(fields[i])
  {
    seq(|fields|, i requires 0 <= i < |fields| => ToLower(fields[i]))
  }

  /**
   * `searchFields`: the present fields, lower-cased. Each is non-empty and
   * lower-case, every present field contributes, and nothing else does.
   */
  function SearchFields(o: Opening): (fields: seq<string>)
    ensures |fields| <= 6
    ensures forall i :: 0 <= i < |fields| ==> fields[i] != "" && IsLower(fields[i])
    ensures forall f :: f in FieldValues(o) && Present(f) ==> ToLower(f) in fields
    ensures forall i :: 0 <= i < |fields| ==> exists f :: f in FieldValues(o) && Present(f) && fields[i] == ToLower(f)
  {
    var present := Filter(FieldValues(o), Present);
    var fields := LowerAll(present);
    forall f | f in FieldValues(o) && Present(f)
      ensures ToLower(f) in fields
    {
      var j :| 0 <= j < |FieldValues(o)| && FieldValues(o)[j] == f;
      assert f in present;
      var k :| 0 <= k < |present| && present[k] == f;
      assert fields[k] == ToLower(f);
    }
    forall i | 0 <= i < |fields|
      ensures exists f :: f in FieldValues(o) && Present(f) && fields[i] == ToLower(f)
    {
      assert present[i] in FieldValues(o) && Present(present[i]);
    }
    fields
  }

  // ---------------------------------------------------------------------------
  // Query normalisation
  // ---------------------------------------------------------------------------

  /** No character of `s` is the digit one. */
  predicate NoOne(s: string) {
    forall i :: 0 <= i < |s| ==> s[i] != '1'
  }

  /**
   * A move the normaliser looks for: lower-case, free of the digit one, and not
   * starting with white space.
   */
  predicate MoveOk(m: string) {
    |m| > 0 && IsLower(m) && NoOne(m) && !IsSpace(m[0])
  }

  /** The first-move patterns rewritten, in the order the rewrites are applied. */
  const E4: string := "e4"
  const D4: string := "d4"
  const NF3: string := "nf3"
  const C4: string := "c4"

  /** The four patterns are moves the normaliser can look for, with distinct first letters. */
  lemma PatternsOk()
    ensures MoveOk(E4) && MoveOk(D4) && MoveOk(NF3) && MoveOk(C4)
    ensures E4[0] != D4[0] && E4[0] != NF3[0] && E4[0] != C4[0]
    ensures D4[0] != NF3[0] && D4[0] != C4[0] && NF3[0] != C4[0]
  {
  }

  /** `s` begins with "1.", a possibly empty run of white space and then `m`. */
  predicate MoveMatchAt(s: string, m: string) {
    |s| >= 2 && s[0] == '1' && s[1] == '.' && StartsWith(s[2 + SpaceRun(s[2..])..], m)
  }

  /**
   * `s.replace(/1\.\s*m/g, '1. ' + m)`: scanning left to right, each match
   * becomes "1. " + m and scanning resumes after it; other characters are kept.
   */
  function ReplaceMove(s: string, m: string): (r: string)
    requires MoveOk(m)
    ensures |r| > 0 <==> |s| > 0
    ensures s != [] ==> r[0] == s[0]
    decreases |s|
  {
    if s == [] then []
    else if MoveMatchAt(s, m) then "1. " + m + ReplaceMove(s[2 + SpaceRun(s[2..]) + |m|..], m)
    else [s[0]] + ReplaceMove(s[1..], m)
  }

  /** Rewriting lower-case text gives lower-case text. */
  lemma {:induction false} ReplaceKeepsLower(s: string, m: string)
    requires MoveOk(m) && IsLower(s)
    ensures IsLower(ReplaceMove(s, m))
    decreases |s|
  {
    if s != [] {
      if MoveMatchAt(s, m) {
        ReplaceKeepsLower(s[2 + SpaceRun(s[2..]) + |m|..], m);
      } else {
        ReplaceKeepsLower(s[1..], m);
      }
    }
  }

  /** `query.toLowerCase()` followed by the four rewrites. */
  function Normalize(query: string): (q: string)
    ensures IsLower(q)
  {
    var x := ToLower(query);
    PatternsOk();
    ReplaceKeepsLower(x, E4);
    var e := ReplaceMove(x, E4);
    ReplaceKeepsLower(e, D4);
    var d := ReplaceMove(e, D4);
    ReplaceKeepsLower(d, NF3);
    var n := ReplaceMove(d, NF3);
    ReplaceKeepsLower(n, C4);
    ReplaceMove(n, C4)
  }

  /** A loosely spaced first move is rewritten to the catalogue's spacing. */
  lemma RewritesLooseMove(w: string, m: string, rest: string)
    requires MoveOk(m)
    requires forall i :: 0 <= i < |w| ==> IsSpace(w[i])
    ensures ReplaceMove("1." + w + m + rest, m) == "1. " + m + ReplaceMove(rest, m)
  {
    var s := "1." + w + m + rest;
    assert s[2..] == w + (m + rest);
    SpaceRunOf(w, m + rest);
    assert s[2 + |w|..] == m + rest;
    assert s[2 + |w| + |m|..] == rest;
  }

  /** The catalogue's own spelling "1. " + m is rewritten to itself. */
  lemma NormalSpellingKept(m: string, y: string)
    requires MoveOk(m)
    ensures ReplaceMove("1. " + m + y, m) == "1. " + m + ReplaceMove(y, m)
  {
    var s := "1. " + m + y;
    assert s[2..] == [' '] + (m + y);
    SpaceRunOf([' '], m + y);
    assert s[3..] == m + y;
    assert s[3 + |m|..] == y;
  }

  /** A character other than the digit one is copied through. */
  lemma CopyChar(c: char, y: string, m: string)
    requires MoveOk(m) && c != '1'
    ensures ReplaceMove([c] + y, m) == [c] + ReplaceMove(y, m)
  {
    assert ([c] + y)[1..] == y;
  }

  /** Text free of the digit one is copied through unchanged. */
  lemma {:induction false} CopyPrefix(p: string, y: string, m: string)
    requires MoveOk(m) && NoOne(p)
    ensures ReplaceMove(p + y, m) == p + ReplaceMove(y, m)
    decreases |p|
  {
    if p == [] {
      assert p + y == y;
    } else {
      var ry := ReplaceMove(y, m);
      assert p + y == [p[0]] + (p[1..] + y);
      CopyChar(p[0], p[1..] + y, m);
      CopyPrefix(p[1..], y, m);
      assert [p[0]] + (p[1..] + ry) == p + ry;
    }
  }

  /** The rewrite never creates a prefix free of the digit one that was not there. */
  lemma {:induction false} PrefixPreserved(t: string, p: string, m: string)
    requires MoveOk(m) && NoOne(p)
    requires StartsWith(ReplaceMove(t, m), p)
    ensures StartsWith(t, p)
    decreases |p|
  {
    if p != [] {
      var r := ReplaceMove(t, m);
      assert t != [] && t[0] == r[0] == p[0];
      CopyChar(t[0], t[1..], m);
      assert t == [t[0]] + t[1..];
      assert r[1..] == ReplaceMove(t[1..], m);
      assert StartsWith(r[1..], p[1..]);
      PrefixPreserved(t[1..], p[1..], m);
    }
  }

  /**
   * Where `s` starts with neither pattern, copying its first character and
   * rewriting the rest for `b` does not make it start with pattern `a`.
   */
  lemma NoMatchKept(s: string, a: string, b: string)
    requires MoveOk(a) && MoveOk(b) && s != []
    requires !MoveMatchAt(s, a) && !MoveMatchAt(s, b)
    ensures !MoveMatchAt([s[0]] + ReplaceMove(s[1..], b), a)
  {
    if |s| >= 2 && s[0] == '1' && s[1] == '.' {
      NoMatchKeptAtNumber(s, a, b);
    } else {
      FrontKept(s, b);
    }
  }

  /** The first two characters survive copying the first and rewriting the rest. */
  lemma FrontKept(s: string, b: string)
    requires MoveOk(b) && s != []
    ensures var out := [s[0]] + ReplaceMove(s[1..], b);
      out[0] == s[0] && (|s| < 2 ==> |out| == 1) && (|s| >= 2 ==> |out| >= 2 && out[1] == s[1])
  {
  }

  /** The case where `s` starts with "1." but with neither move after it. */
  lemma NoMatchKeptAtNumber(s: string, a: string, b: string)
    requires MoveOk(a) && MoveOk(b) && |s| >= 2 && s[0] == '1' && s[1] == '.'
    requires !MoveMatchAt(s, a) && !MoveMatchAt(s, b)
    ensures !MoveMatchAt([s[0]] + ReplaceMove(s[1..], b), a)
  {
    var x := s[2..];
    var out := [s[0]] + ReplaceMove(s[1..], b);
    assert s[1..] == ['.'] + x;
    CopyChar('.', x, b);
    assert out[2..] == ReplaceMove(x, b);
    SpacesThenNoMove(x, a, b);
  }

  /**
   * If `a` does not follow the leading white space of `x`, it does not follow
   * the leading white space of its rewrite either.
   */
  lemma SpacesThenNoMove(x: string, a: string, b: string)
    requires MoveOk(a) && MoveOk(b)
    requires !StartsWith(x[SpaceRun(x)..], a)
    ensures !StartsWith(ReplaceMove(x, b)[SpaceRun(ReplaceMove(x, b))..], a)
  {
    var k := SpaceRun(x);
    var w := x[..k];
    var t := x[k..];
    var rt := ReplaceMove(t, b);
    assert x == w + t;
    CopyPrefix(w, t, b);
    SpaceRunOf(w, rt);
    assert (w + rt)[k..] == rt;
    if StartsWith(rt, a) {
      PrefixPreserved(t, a, b);
    }
  }

  /** Rewriting twice for the same move is rewriting once. */
  lemma {:induction false} ReplaceIdempotent(s: string, m: string)
    requires MoveOk(m)
    ensures ReplaceMove(ReplaceMove(s, m), m) == ReplaceMove(s, m)
    decreases |s|
  {
    if s == [] {
    } else if MoveMatchAt(s, m) {
      ReplaceIdempotent(MatchRest(s, m), m);
      IdempotentAtMatch(s, m);
    } else {
      ReplaceIdempotent(s[1..], m);
      IdempotentAtCopy(s, m);
    }
  }

  /** The step of the idempotence proof at a match. */
  lemma IdempotentAtMatch(s: string, m: string)
    requires MoveOk(m) && MoveMatchAt(s, m)
    requires ReplaceMove(ReplaceMove(MatchRest(s, m), m), m) == ReplaceMove(MatchRest(s, m), m)
    ensures ReplaceMove(ReplaceMove(s, m), m) == ReplaceMove(s, m)
  {
    var rr := ReplaceMove(MatchRest(s, m), m);
    calc {
      ReplaceMove(ReplaceMove(s, m), m);
    == { UnfoldMatch(s, m); }
      ReplaceMove("1. " + m + rr, m);
    == { NormalSpellingKept(m, rr); }
      "1. " + m + ReplaceMove(rr, m);
    == { UnfoldMatch(s, m); }
      ReplaceMove(s, m);
    }
  }

  /** The step of the idempotence proof where the first character is copied. */
  lemma IdempotentAtCopy(s: string, m: string)
    requires MoveOk(m) && s != [] && !MoveMatchAt(s, m)
    requires ReplaceMove(ReplaceMove(s[1..], m), m) == ReplaceMove(s[1..], m)
    ensures ReplaceMove(ReplaceMove(s, m), m) == ReplaceMove(s, m)
  {
    var t := [s[0]] + ReplaceMove(s[1..], m);
    calc {
      ReplaceMove(ReplaceMove(s, m), m);
    == { NoMatchStep(s, m); }
      ReplaceMove(t, m);
    == { NoMatchKept(s, m, m); NoMatchStep(t, m); assert t[1..] == ReplaceMove(s[1..], m); }
      [s[0]] + ReplaceMove(ReplaceMove(s[1..], m), m);
    == { NoMatchStep(s, m); }
      ReplaceMove(s, m);
    }
  }

  /** What follows a match of `m` at the front of `s`. */
  function MatchRest(s: string, m: string): (rest: string)
    requires MoveMatchAt(s, m)
    ensures |rest| + 2 + |m| <= |s|
  {
    s[2 + SpaceRun(s[2..]) + |m|..]
  }

  /** A match of `m` at the front is replaced by "1. " + m. */
  lemma UnfoldMatch(s: string, m: string)
    requires MoveOk(m) && MoveMatchAt(s, m)
    ensures ReplaceMove(s, m) == "1. " + m + ReplaceMove(MatchRest(s, m), m)
  {
  }

  /** The catalogue's own spelling of a different move is copied through. */
  lemma OtherRegionCopied(x: string, y: string, m: string)
    requires MoveOk(x) && MoveOk(m) && x[0] != m[0]
    ensures ReplaceMove("1. " + x + y, m) == "1. " + x + ReplaceMove(y, m)
  {
    var s := "1. " + x + y;
    assert s[2..] == [' '] + (x + y);
    SpaceRunOf([' '], x + y);
    assert s[3..] == x + y;
    assert !MoveMatchAt(s, m) by {
      assert s[3] == x[0];
    }
    assert NoOne(". " + x);
    CopyPrefix(". " + x, y, m);
    assert s[1..] == (". " + x) + y;
  }

  /** A match of `m` at the front is "1.", a run of white space, `m` and what follows. */
  lemma MatchShape(s: string, m: string)
    requires MoveOk(m) && MoveMatchAt(s, m)
    ensures var w := s[2..2 + SpaceRun(s[2..])];
      (forall i :: 0 <= i < |w| ==> IsSpace(w[i])) && s == "1." + w + m + MatchRest(s, m)
  {
    var k := SpaceRun(s[2..]);
    var w := s[2..2 + k];
    forall i | 0 <= i < |w|
      ensures IsSpace(w[i])
    {
      assert w[i] == s[2..][i];
    }
    assert s[..2] == "1.";
    assert s[2 + k..2 + k + |m|] == m;
    assert s == s[..2] + w + s[2 + k..2 + k + |m|] + s[2 + k + |m|..];
  }

  /** The catalogue's dot and white space, followed by a move, hold no digit one. */
  lemma MatchBodyNoOne(w: string, b: string)
    requires MoveOk(b) && forall i :: 0 <= i < |w| ==> IsSpace(w[i])
    ensures NoOne("." + w + b)
  {
    var body := "." + w + b;
    forall i | 0 <= i < |body|
      ensures body[i] != '1'
    {
      if 1 <= i <= |w| {
        assert body[i] == w[i - 1];
      } else if i > |w| {
        assert body[i] == b[i - 1 - |w|];
      }
    }
  }

  /** After "1." and white space comes `b`, so a move with another first letter does not match. */
  lemma OtherMoveNoMatch(w: string, b: string, rest: string, a: string)
    requires MoveOk(a) && MoveOk(b) && a[0] != b[0]
    requires forall i :: 0 <= i < |w| ==> IsSpace(w[i])
    ensures !MoveMatchAt("1." + w + b + rest, a)
  {
    var s := "1." + w + b + rest;
    assert s[2..] == w + (b + rest);
    SpaceRunOf(w, b + rest);
    assert s[2 + |w|..][0] == b[0];
  }

  /** A match of `b` is copied through by the rewrite for a move with another first letter. */
  lemma MatchOtherCopied(w: string, b: string, rest: string, a: string)
    requires MoveOk(a) && MoveOk(b) && a[0] != b[0]
    requires forall i :: 0 <= i < |w| ==> IsSpace(w[i])
    ensures ReplaceMove("1." + w + b + rest, a) == "1." + w + b + ReplaceMove(rest, a)
  {
    var s := "1." + w + b + rest;
    var body := "." + w + b;
    calc {
      ReplaceMove(s, a);
    == { OtherMoveNoMatch(w, b, rest, a); NoMatchStep(s, a); }
      [s[0]] + ReplaceMove(s[1..], a);
    == { assert s[1..] == body + rest; }
      ['1'] + ReplaceMove(body + rest, a);
    == { MatchBodyNoOne(w, b); CopyPrefix(body, rest, a); }
      ['1'] + (body + ReplaceMove(rest, a));
    == { assert ['1'] + (body + ReplaceMove(rest, a)) == "1." + w + b + ReplaceMove(rest, a); }
      "1." + w + b + ReplaceMove(rest, a);
    }
  }

  /** Where `m` does not match at the front, the first character is copied. */
  lemma NoMatchStep(s: string, m: string)
    requires MoveOk(m) && s != [] && !MoveMatchAt(s, m)
    ensures ReplaceMove(s, m) == [s[0]] + ReplaceMove(s[1..], m)
  {
  }

  /** Text in normal form for `a` that starts with a match spells it "1. " + a. */
  lemma FixedMatchShape(s: string, a: string)
    requires MoveOk(a) && MoveMatchAt(s, a) && ReplaceMove(s, a) == s
    ensures s == "1. " + a + MatchRest(s, a)
    ensures ReplaceMove(MatchRest(s, a), a) == MatchRest(s, a)
  {
    var ra := ReplaceMove(MatchRest(s, a), a);
    UnfoldMatch(s, a);
    assert s == "1. " + a + ra;
    assert s[2..] == [' '] + (a + ra);
    SpaceRunOf([' '], a + ra);
    assert MatchRest(s, a) == s[3 + |a|..] == ra;
  }

  /**
   * Rewriting for move `b` keeps text that is already in normal form for a
   * different move `a` in that form.
   */
  lemma {:induction false} PreservesFixed(s: string, a: string, b: string)
    requires MoveOk(a) && MoveOk(b) && a[0] != b[0]
    requires ReplaceMove(s, a) == s
    ensures ReplaceMove(ReplaceMove(s, b), a) == ReplaceMove(s, b)
    decreases |s|
  {
    if s == [] {
    } else if MoveMatchAt(s, b) {
      FixedBeforeMatch(s, a, b);
      PreservesFixed(MatchRest(s, b), a, b);
      PreservedAtMatch(s, a, b);
    } else if MoveMatchAt(s, a) {
      FixedMatchShape(s, a);
      PreservesFixed(MatchRest(s, a), a, b);
      PreservedAtFixedMatch(s, a, b);
    } else {
      FixedAfterFirst(s, a);
      PreservesFixed(s[1..], a, b);
      PreservedAtCopy(s, a, b);
    }
  }

  /** Normal form for `a` carries over to what follows a match of `b`. */
  lemma FixedBeforeMatch(s: string, a: string, b: string)
    requires MoveOk(a) && MoveOk(b) && a[0] != b[0] && MoveMatchAt(s, b)
    requires ReplaceMove(s, a) == s
    ensures ReplaceMove(MatchRest(s, b), a) == MatchRest(s, b)
  {
    var rest := MatchRest(s, b);
    var w := s[2..2 + SpaceRun(s[2..])];
    MatchShape(s, b);
    MatchOtherCopied(w, b, rest, a);
    var front := "1." + w + b;
    assert (front + ReplaceMove(rest, a))[|front|..] == ReplaceMove(rest, a);
    assert (front + rest)[|front|..] == rest;
  }

  /** Normal form for `a` carries over to the tail when the front is copied. */
  lemma FixedAfterFirst(s: string, a: string)
    requires MoveOk(a) && s != [] && !MoveMatchAt(s, a)
    requires ReplaceMove(s, a) == s
    ensures ReplaceMove(s[1..], a) == s[1..]
  {
    NoMatchStep(s, a);
    assert ReplaceMove(s, a)[1..] == ReplaceMove(s[1..], a);
  }

  /** The preservation step at a match of `b`. */
  lemma PreservedAtMatch(s: string, a: string, b: string)
    requires MoveOk(a) && MoveOk(b) && a[0] != b[0] && MoveMatchAt(s, b)
    requires ReplaceMove(ReplaceMove(MatchRest(s, b), b), a) == ReplaceMove(MatchRest(s, b), b)
    ensures ReplaceMove(ReplaceMove(s, b), a) == ReplaceMove(s, b)
  {
    var rb := ReplaceMove(MatchRest(s, b), b);
    calc {
      ReplaceMove(ReplaceMove(s, b), a);
    == { UnfoldMatch(s, b); }
      ReplaceMove("1. " + b + rb, a);
    == { OtherRegionCopied(b, rb, a); }
      "1. " + b + ReplaceMove(rb, a);
    == { UnfoldMatch(s, b); }
      ReplaceMove(s, b);
    }
  }

  /** The preservation step at a match of `a` already in normal form. */
  lemma PreservedAtFixedMatch(s: string, a: string, b: string)
    requires MoveOk(a) && MoveOk(b) && a[0] != b[0] && MoveMatchAt(s, a)
    requires s == "1. " + a + MatchRest(s, a)
    requires ReplaceMove(ReplaceMove(MatchRest(s, a), b), a) == ReplaceMove(MatchRest(s, a), b)
    ensures ReplaceMove(ReplaceMove(s, b), a) == ReplaceMove(s, b)
  {
    var rest := MatchRest(s, a);
    var rb := ReplaceMove(rest, b);
    calc {
      ReplaceMove(ReplaceMove(s, b), a);
    == { OtherRegionCopied(a, rest, b); }
      ReplaceMove("1. " + a + rb, a);
    == { NormalSpellingKept(a, rb); }
      "1. " + a + ReplaceMove(rb, a);
    == { OtherRegionCopied(a, rest, b); }
      ReplaceMove(s, b);
    }
  }

  /** The preservation step where the first character is copied by both rewrites. */
  lemma PreservedAtCopy(s: string, a: string, b: string)
    requires MoveOk(a) && MoveOk(b) && s != [] && !MoveMatchAt(s, a) && !MoveMatchAt(s, b)
    requires ReplaceMove(ReplaceMove(s[1..], b), a) == ReplaceMove(s[1..], b)
    ensures ReplaceMove(ReplaceMove(s, b), a) == ReplaceMove(s, b)
  {
    var t := [s[0]] + ReplaceMove(s[1..], b);
    calc {
      ReplaceMove(ReplaceMove(s, b), a);
    == { NoMatchStep(s, b); }
      ReplaceMove(t, a);
    == { NoMatchKept(s, a, b); NoMatchStep(t, a); assert t[1..] == ReplaceMove(s[1..], b); }
      [s[0]] + ReplaceMove(ReplaceMove(s[1..], b), a);
    == { NoMatchStep(s, b); }
      ReplaceMove(s, b);
    }
  }

  /** Normalising an already normalised query leaves it unchanged. */
  lemma NormalizeIdempotent(query: string)
    ensures Normalize(Normalize(query)) == Normalize(query)
  {
    var x := ToLower(query);
    PatternsOk();
    var e := ReplaceMove(x, E4);
    var d := ReplaceMove(e, D4);
    var n := ReplaceMove(d, NF3);
    var c := ReplaceMove(n, C4);
    assert c == Normalize(query);
    ToLowerOfLower(c);
    ReplaceIdempotent(x, E4);
    PreservesFixed(e, E4, D4);
    PreservesFixed(d, E4, NF3);
    PreservesFixed(n, E4, C4);
    ReplaceIdempotent(e, D4);
    PreservesFixed(d, D4, NF3);
    PreservesFixed(n, D4, C4);
    ReplaceIdempotent(d, NF3);
    PreservesFixed(n, NF3, C4);
    ReplaceIdempotent(n, C4);
  }

  // ---------------------------------------------------------------------------
  // The search
  // ---------------------------------------------------------------------------

  /** `fields.some(field => field.includes(q))`. */
  function AnyIncludes(fields: seq<string>, q: string): (found: bool)
    ensures found <==> exists i :: 0 <= i < |fields| && Includes(fields[i], q)
    decreases |fields|
  {
    if fields == [] then false
    else Includes(fields[0], q) || AnyIncludes(fields[1..], q)
  }

  /** `searchInOpening`. */
  function SearchInOpening(o: Opening, query: string): bool {
    AnyIncludes(SearchFields(o), Normalize(query))
  }

  /**
   * The search holds exactly when some present field, lower-cased, contains
   * the normalised query.
   */
  lemma SearchMeaning(o: Opening, query: string)
    ensures SearchInOpening(o, query) <==>
      exists f :: f in FieldValues(o) && Present(f) && Includes(ToLower(f), Normalize(query))
  {
    FieldsMeaning(o, Normalize(query));
  }

  /** The same for an already normalised query `q`. */
  lemma FieldsMeaning(o: Opening, q: string)
    ensures AnyIncludes(SearchFields(o), q) <==>
      exists f :: f in FieldValues(o) && Present(f) && Includes(ToLower(f), q)
  {
    var fields := SearchFields(o);
    if AnyIncludes(fields, q) {
      var i :| 0 <= i < |fields| && Includes(fields[i], q);
      var f :| f in FieldValues(o) && Present(f) && fields[i] == ToLower(f);
      assert Includes(ToLower(f), q);
    }
    if exists f :: f in FieldValues(o) && Present(f) && Includes(ToLower(f), q) {
      var f :| f in FieldValues(o) && Present(f) && Includes(ToLower(f), q);
      var i :| 0 <= i < |fields| && fields[i] == ToLower(f);
      assert Includes(fields[i], q);
    }
  }

  /** An opening with no present field never matches, not even the empty query. */
  lemma NoFieldsNoMatch(o: Opening, query: string)
    requires forall f :: f in FieldValues(o) ==> !Present(f)
    ensures !SearchInOpening(o, query)
  {
    SearchMeaning(o, query);
  }

  /** The empty query matches every opening that has some present field. */
  lemma EmptyQueryMatchesAnyField(o: Opening, f: string)
    requires f in FieldValues(o) && Present(f)
    ensures SearchInOpening(o, "")
  {
    SearchMeaning(o, "");
    assert Normalize("") == "";
    IncludesEmpty(ToLower(f));
  }

  /** The query's case does not matter. */
  lemma SearchIgnoresQueryCase(o: Opening, query: string)
    ensures SearchInOpening(o, query) == SearchInOpening(o, ToLower(query))
  {
    ToLowerIdempotent(query);
  }
}
