/**
 * String primitives with the meaning the catalogue's JavaScript gives them:
 * the `\s` character class, `trim`, `toLowerCase`, `startsWith`, `includes`,
 * `split(sep)` and `join(sep)`.
 */
module Text {

  /** JavaScript's `\s` class; `String.prototype.trim` strips exactly this set too. */
  predicate IsSpace(c: char) {
    || c == ' ' || c == '\t' || c == '\n' || c == '\U{B}' || c == '\U{C}' || c == '\r'
    || c == '\U{A0}' || c == '\U{1680}' || ('\U{2000}' <= c <= '\U{200A}')
    || c == '\U{2028}' || c == '\U{2029}' || c == '\U{202F}' || c == '\U{205F}'
    || c == '\U{3000}' || c == '\U{FEFF}'
  }

  /** JavaScript's `\d` class. */
  predicate IsDigit(c: char) {
    '0' <= c <= '9'
  }

  function DigitValue(c: char): (d: nat)
    requires IsDigit(c)
    ensures d <= 9
  {
    c as int - '0' as int
  }

  /** No character of `s` is white space. */
  predicate NoSpace(s: string) {
    forall i :: 0 <= i < |s| ==> !IsSpace(s[i])
  }

  /** Length of the run of white space at the front of `s`. */
  function SpaceRun(s: string): (k: nat)
    ensures k <= |s|
    ensures forall i :: 0 <= i < k ==> IsSpace(s[i])
    ensures k < |s| ==> !IsSpace(s[k])
    decreases |s|
  {
    if s != [] && IsSpace(s[0]) then 1 + SpaceRun(s[1..]) else 0
  }

  /** A run of white space followed by a non-space is measured exactly. */
  lemma {:induction false} SpaceRunOf(w: string, x: string)
    requires forall i :: 0 <= i < |w| ==> IsSpace(w[i])
    requires x == [] || !IsSpace(x[0])
    ensures SpaceRun(w + x) == |w|
    decreases |w|
  {
    if w != [] {
      assert (w + x)[1..] == w[1..] + x;
      SpaceRunOf(w[1..], x);
    } else {
      assert w + x == x;
    }
  }
  /** Every white-space character of `s` is the plain space. */
  predicate OnlyPlainSpaces(s: string) {
    forall i :: 0 <= i < |s| && IsSpace(s[i]) ==> s[i] == ' '
  }

  predicate IsUpper(c: char) {
    'A' <= c <= 'Z'
  }

  /** `toLowerCase` on one character (ASCII letters only). */
  function LowerChar(c: char): (r: char)
    ensures !IsUpper(r)
    ensures IsUpper(c) ==> r as int == c as int + 32
    ensures !IsUpper(c) ==> r == c
  {
    if IsUpper(c) then (c as int + 32) as char else c
  }

  /** No ASCII capital letter occurs in `s`. */
  predicate IsLower(s: string) {
    forall i :: 0 <= i < |s| ==> !IsUpper(s[i])
  }

  /** `s.toLowerCase()`. */
  function ToLower(s: string): (r: string)
    ensures |r| == |s| && IsLower(r)
    ensures forall i :: 0 <= i < |s| ==> r[i] == LowerChar(s[i])
  {
    seq(|s|, i requires 0 <= i < |s| => LowerChar(s[i]))
  }

  /** Lower-casing is the identity on lower-case text, hence idempotent. */
  lemma ToLowerOfLower(s: string)
    requires IsLower(s)
    ensures ToLower(s) == s
  {
  }

  lemma ToLowerIdempotent(s: string)
    ensures ToLower(ToLower(s)) == ToLower(s)
  {
    ToLowerOfLower(ToLower(s));
  }

  /** `s.startsWith(p)`. */
  predicate StartsWith(s: string, p: string) {
    |p| <= |s| && s[..|p|] == p
  }

  /** `s.includes(q)`: some suffix of `s` starts with `q`. */
  predicate Includes(s: string, q: string)
    decreases |s|
  {
    StartsWith(s, q) || (|s| > 0 && Includes(s[1..], q))
  }

  /** `includes` holds exactly when `q` occurs at some position of `s`. */
  lemma {:induction false} IncludesAt(s: string, q: string, i: nat)
    requires i + |q| <= |s| && s[i..i + |q|] == q
    ensures Includes(s, q)
    decreases i
  {
    if i > 0 {
      assert s[1..][i - 1..i - 1 + |q|] == s[i..i + |q|];
      IncludesAt(s[1..], q, i - 1);
    }
  }

  lemma {:induction false} IncludesWitness(s: string, q: string) returns (i: nat)
    requires Includes(s, q)
    ensures i + |q| <= |s| && s[i..i + |q|] == q
    decreases |s|
  {
    if StartsWith(s, q) {
      i := 0;
    } else {
      var j := IncludesWitness(s[1..], q);
      assert s[1..][j..j + |q|] == s[j + 1..j + 1 + |q|];
      i := j + 1;
    }
  }

  /** Every string includes the empty string, as in JavaScript. */
  lemma IncludesEmpty(s: string)
    ensures Includes(s, "")
  {
    assert StartsWith(s, "");
  }

  /** `s.split(sep)`: one part more than there are separators, none holding `sep`. */
  function Split(s: string, sep: char): (parts: seq<string>)
    ensures |parts| >= 1
    ensures forall k :: 0 <= k < |parts| ==> sep !in parts[k]
    ensures (|s| == 0 || s[0] == sep) ==> parts[0] == []
    ensures |s| > 0 && s[0] != sep ==> parts[0] != [] && parts[0][0] == s[0]
    decreases |s|
  {
    if s == [] then [[]]
    else
      var rest := Split(s[1..], sep);
      if s[0] == sep then [[]] + rest else [[s[0]] + rest[0]] + rest[1..]
  }

  /** `parts.join(sep)`. */
  function Join(parts: seq<string>, sep: char): string
    decreases |parts|
  {
    if |parts| == 0 then []
    else if |parts| == 1 then parts[0]
    else parts[0] + [sep] + Join(parts[1..], sep)
  }

  /** Splitting on a character and joining on the same character gives the string back. */
  lemma {:induction false} JoinSplit(s: string, sep: char)
    ensures Join(Split(s, sep), sep) == s
    decreases |s|
  {
    if s != [] {
      var rest := Split(s[1..], sep);
      JoinSplit(s[1..], sep);
      if s[0] == sep {
        assert Split(s, sep) == [[]] + rest;
        assert (([[]] + rest)[1..]) == rest;
      } else {
        var parts := Split(s, sep);
        assert parts == [[s[0]] + rest[0]] + rest[1..];
        if |rest| > 1 {
          assert parts[1..] == rest[1..];
        }
      }
    }
  }

  /** A string without the separator splits into itself alone. */
  lemma {:induction false} SplitNoSeparator(s: string, sep: char)
    requires sep !in s
    ensures Split(s, sep) == [s]
    decreases |s|
  {
    if s != [] {
      assert sep !in s[1..] by {
        forall c | c in s[1..] ensures c != sep { assert c in s; }
      }
      SplitNoSeparator(s[1..], sep);
      assert s == [s[0]] + s[1..];
    }
  }

  /** The first part of `p + [sep] + rest` is `p` when `p` holds no separator. */
  lemma {:induction false} SplitFirstPart(p: string, sep: char, rest: string)
    requires sep !in p
    ensures Split(p + [sep] + rest, sep)[0] == p
    decreases |p|
  {
    var s := p + [sep] + rest;
    if p != [] {
      assert s[1..] == p[1..] + [sep] + rest;
      SplitFirstPart(p[1..], sep, rest);
    }
  }

  /** Splitting after a part free of the separator yields that part, then the rest's parts. */
  lemma {:induction false} SplitAfterPart(p: string, sep: char, rest: string)
    requires sep !in p
    ensures Split(p + [sep] + rest, sep) == [p] + Split(rest, sep)
    decreases |p|
  {
    var s := p + [sep] + rest;
    if p == [] {
      assert s == [sep] + rest;
      assert s[1..] == rest;
    } else {
      assert s[1..] == p[1..] + [sep] + rest;
      SplitAfterPart(p[1..], sep, rest);
      assert p == [p[0]] + p[1..];
    }
  }

  /** Joining parts free of the separator and splitting again gives the parts back. */
  lemma {:induction false} SplitJoin(parts: seq<string>, sep: char)
    requires |parts| >= 1
    requires forall k :: 0 <= k < |parts| ==> sep !in parts[k]
    ensures Split(Join(parts, sep), sep) == parts
    decreases |parts|
  {
    if |parts| == 1 {
      SplitNoSeparator(parts[0], sep);
    } else {
      SplitJoin(parts[1..], sep);
      SplitAfterPart(parts[0], sep, Join(parts[1..], sep));
      assert parts == [parts[0]] + parts[1..];
    }
  }

  /** Joining a prefix of the parts gives a prefix of the joined string. */
  lemma {:induction false} JoinPrefix(parts: seq<string>, k: nat, sep: char)
    requires 1 <= k < |parts|
    ensures Join(parts, sep) == Join(parts[..k], sep) + [sep] + Join(parts[k..], sep)
    decreases k
  {
    if k > 1 {
      JoinPrefix(parts[1..], k - 1, sep);
      assert parts[1..][..k - 1] == parts[..k][1..];
      assert parts[1..][k - 1..] == parts[k..];
    }
  }

  // ---------------------------------------------------------------------------
  // White-space runs: `replace(/\s+/g, ' ')`, `trim()` and word boundaries.

  /**
   * `s.replace(/\s+/g, ' ')`: each maximal run of white space becomes one plain
   * space.  A white-space character emits the space when it ends its run.
   */
  function CollapseSpaces(s: string): (r: string)
    ensures |r| <= |s|
    ensures OnlyPlainSpaces(r)
    ensures |s| > 0 ==> |r| > 0 && (IsSpace(r[0]) <==> IsSpace(s[0]))
    ensures |s| > 0 && !IsSpace(s[0]) ==> r[0] == s[0]
    ensures forall i :: 0 <= i < |r| - 1 && IsSpace(r[i]) ==> !IsSpace(r[i + 1])
    decreases |s|
  {
    if s == [] then []
    else if IsSpace(s[0]) then
      if |s| > 1 && IsSpace(s[1]) then CollapseSpaces(s[1..]) else " " + CollapseSpaces(s[1..])
    else [s[0]] + CollapseSpaces(s[1..])
  }

  /** A whole run of white space in front of text collapses to a single space. */
  lemma {:induction false} CollapseRun(w: string, x: string)
    requires |w| > 0 && forall i :: 0 <= i < |w| ==> IsSpace(w[i])
    requires x == [] || !IsSpace(x[0])
    ensures CollapseSpaces(w + x) == " " + CollapseSpaces(x)
    decreases |w|
  {
    assert (w + x)[1..] == w[1..] + x;
    if |w| > 1 {
      CollapseRun(w[1..], x);
    }
  }

  /** Leading white space removed. */
  function TrimStart(s: string): (r: string)
    ensures |r| <= |s| && r == s[|s| - |r|..]
    ensures forall i :: 0 <= i < |s| - |r| ==> IsSpace(s[i])
    ensures r == [] || !IsSpace(r[0])
    decreases |s|
  {
    if s != [] && IsSpace(s[0]) then TrimStart(s[1..]) else s
  }

  /** Trailing white space removed. */
  function TrimEnd(s: string): (r: string)
    ensures |r| <= |s| && r == s[..|r|]
    ensures forall i :: |r| <= i < |s| ==> IsSpace(s[i])
    ensures r == [] || !IsSpace(r[|r| - 1])
    decreases |s|
  {
    if s != [] && IsSpace(s[|s| - 1]) then TrimEnd(s[..|s| - 1]) else s
  }

  /** `s.trim()`. */
  function Trim(s: string): (r: string)
    ensures r == [] || (!IsSpace(r[0]) && !IsSpace(r[|r| - 1]))
  {
    TrimEnd(TrimStart(s))
  }

  /** Trimming keeps the plain-space property: its result is a slice of its input. */
  lemma TrimKeepsPlainSpaces(s: string)
    requires OnlyPlainSpaces(s)
    ensures OnlyPlainSpaces(Trim(s))
  {
    var t := TrimStart(s);
    var r := TrimEnd(t);
    forall k | 0 <= k < |r| && IsSpace(r[k]) ensures r[k] == ' ' {
      assert r[k] == t[k] == s[|s| - |t| + k];
    }
  }

  /**
   * The maximal runs of non-space characters of `s`, in order: the reference
   * reading of "the words of a text", insensitive to how the words are spaced.
   */
  function Words(s: string): (ws: seq<string>)
    ensures forall k :: 0 <= k < |ws| ==> ws[k] != [] && NoSpace(ws[k])
    ensures |s| > 0 && !IsSpace(s[0]) ==> |ws| > 0 && ws[0][0] == s[0]
    decreases |s|
  {
    if s == [] then []
    else if IsSpace(s[0]) then Words(s[1..])
    else
      var rest := Words(s[1..]);
      if |s| > 1 && !IsSpace(s[1]) then [[s[0]] + rest[0]] + rest[1..]
      else [[s[0]]] + rest
  }

  /** A single word is its own only word. */
  lemma {:induction false} WordsOfWord(w: string)
    requires w != [] && NoSpace(w)
    ensures Words(w) == [w]
    decreases |w|
  {
    if |w| > 1 {
      WordsOfWord(w[1..]);
      var rest := Words(w[1..]);
      assert rest == [w[1..]];
      assert [w[0]] + rest[0] == w;
      assert !IsSpace(w[1]);
      assert Words(w) == [[w[0]] + rest[0]] + rest[1..];
    } else {
      assert w == [w[0]] && w[1..] == [];
      assert Words(w) == [[w[0]]] + Words(w[1..]);
    }
  }

  /** Leading white space does not change the words. */
  lemma {:induction false} WordsLeadingSpaces(w: string, x: string)
    requires forall i :: 0 <= i < |w| ==> IsSpace(w[i])
    ensures Words(w + x) == Words(x)
    decreases |w|
  {
    if w != [] {
      assert (w + x)[1..] == w[1..] + x;
      WordsLeadingSpaces(w[1..], x);
    } else {
      assert w + x == x;
    }
  }

  /** A word followed by white space is the first word. */
  lemma {:induction false} WordsOfWords(w: string, c: char, x: string)
    requires w != [] && NoSpace(w) && IsSpace(c)
    ensures Words(w + [c] + x) == [w] + Words(x)
    decreases |w|
  {
    var s := w + [c] + x;
    assert s[1..] == w[1..] + [c] + x;
    if |w| > 1 {
      WordsOfWords(w[1..], c, x);
      var rest := Words(s[1..]);
      assert !IsSpace(s[1]);
      assert Words(s) == [[w[0]] + rest[0]] + rest[1..];
      assert w == [w[0]] + w[1..];
    } else {
      assert s[1..] == [c] + x;
      WordsLeadingSpaces([c], x);
      assert Words(s) == [[w[0]]] + Words(s[1..]);
      assert w == [w[0]];
    }
  }

  /** Collapsing white-space runs does not change the words. */
  lemma {:induction false} WordsCollapse(s: string)
    ensures Words(CollapseSpaces(s)) == Words(s)
    decreases |s|
  {
    if s != [] {
      var c := CollapseSpaces(s[1..]);
      WordsCollapse(s[1..]);
      if IsSpace(s[0]) {
        if !(|s| > 1 && IsSpace(s[1])) {
          assert (" " + c)[1..] == c;
        }
      } else {
        assert ([s[0]] + c)[1..] == c;
      }
    }
  }

  /** A trailing white-space character does not change the words. */
  lemma {:induction false} WordsTrailingSpace(t: string, c: char)
    requires IsSpace(c)
    ensures Words(t + [c]) == Words(t)
    decreases |t|
  {
    if t == [] {
      assert Words([c]) == Words([c][1..]);
    } else {
      assert (t + [c])[1..] == t[1..] + [c];
      WordsTrailingSpace(t[1..], c);
    }
  }

  lemma {:induction false} WordsTrimStart(s: string)
    ensures Words(TrimStart(s)) == Words(s)
    decreases |s|
  {
    if s != [] && IsSpace(s[0]) {
      WordsTrimStart(s[1..]);
    }
  }

  lemma {:induction false} WordsTrimEnd(s: string)
    ensures Words(TrimEnd(s)) == Words(s)
    decreases |s|
  {
    if s != [] && IsSpace(s[|s| - 1]) {
      WordsTrimEnd(s[..|s| - 1]);
      assert s == s[..|s| - 1] + [s[|s| - 1]];
      WordsTrailingSpace(s[..|s| - 1], s[|s| - 1]);
    }
  }

  /** Trimming does not change the words. */
  lemma WordsTrim(s: string)
    ensures Words(Trim(s)) == Words(s)
  {
    WordsTrimStart(s);
    WordsTrimEnd(TrimStart(s));
  }
}
