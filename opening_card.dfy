/**
 * The opening card: the move text it shows (the first fifteen space-separated
 * parts of the opening's PGN, with " ..." when there are more), and whether
 * the opening belongs to the repertoire being viewed.
 */
module OpeningCard {
  import opened Wrappers
  import opened Text
  import opened Openings
  import opened AuthUtils

  /** How many space-separated parts of the PGN a card shows. */
  const ShownParts: nat := 15

  /** `opening.pgn ? opening.pgn.split(' ') : []`; joining them again gives the PGN back. */
  function PgnParts(pgn: string): (parts: seq<string>)
    ensures pgn == "" <==> parts == []
    ensures Join(parts, ' ') == pgn
    ensures forall k :: 0 <= k < |parts| ==> ' ' !in parts[k]
  {
    if pgn == "" then []
    else
      JoinSplit(pgn, ' ');
      Split(pgn, ' ')
  }

  /** `pgnParts.slice(0, 15).join(' ')`. */
  function Notation(parts: seq<string>): string {
    Join(parts[..if |parts| < ShownParts then |parts| else ShownParts], ' ')
  }

  /**
   * `truncatedNotation`: the PGN itself when it has at most fifteen parts;
   * otherwise its beginning up to (not including) the fifteenth space,
   * followed by " ...". A missing PGN shows nothing.
   */
  function TruncatedNotation(pgn: string): (text: string)
    ensures pgn == "" ==> text == ""
    ensures |PgnParts(pgn)| <= ShownParts ==> text == pgn
    ensures |PgnParts(pgn)| > ShownParts ==>
      exists n :: 0 <= n < |pgn| && pgn[n] == ' ' && text == pgn[..n] + " ..."
        && Split(pgn[..n], ' ') == PgnParts(pgn)[..ShownParts]
  {
    var parts := PgnParts(pgn);
    var notation := Notation(parts);
    if |parts| > ShownParts then
      JoinPrefix(parts, ShownParts, ' ');
      var n := |notation|;
      assert pgn == notation + [' '] + Join(parts[ShownParts..], ' ');
      assert pgn[..n] == notation;
      SplitJoin(parts[..ShownParts], ' ');
      assert pgn[n] == ' ';
      notation + " ..."
    else
      assert parts[..|parts|] == parts;
      notation
  }

  /** The ellipsis is added exactly when parts are left out. */
  lemma EllipsisIffTruncated(pgn: string)
    ensures |PgnParts(pgn)| > ShownParts <==>
      TruncatedNotation(pgn) == Notation(PgnParts(pgn)) + " ..."
  {
    var parts := PgnParts(pgn);
    if |parts| <= ShownParts {
      assert parts[..|parts|] == parts;
    }
  }

  /**
   * `isInCurrentRepertoire`: a repertoire is being viewed and its openings
   * hold the opening's id.
   */
  predicate IsInCurrentRepertoire(current: Option<Repertoire>, o: Opening) {
    current.Some? && o.uniqueId in current.value.openings
  }

  /** After a successful add, the card of that opening shows it as in the repertoire. */
  lemma InRepertoireAfterAdd(reps: seq<Repertoire>, k: nat, o: Opening)
    requires k < |reps|
    requires AddOpening(Some(reps), reps[k].id, o.uniqueId).Success?
    ensures IsInCurrentRepertoire(Some(AddOpening(Some(reps), reps[k].id, o.uniqueId).value[k]), o)
  {
    var r := AddOpening(Some(reps), reps[k].id, o.uniqueId).value;
    assert r == Appended(reps, reps[k].id, o.uniqueId);
    assert r[k].openings == reps[k].openings + [o.uniqueId];
  }

  /** After a remove, the card of that opening no longer shows it as in the repertoire. */
  lemma NotInRepertoireAfterRemove(reps: seq<Repertoire>, k: nat, o: Opening)
    requires k < |reps|
    ensures !IsInCurrentRepertoire(Some(RemoveOpening(Some(reps), reps[k].id, o.uniqueId).value[k]), o)
  {
  }
}
