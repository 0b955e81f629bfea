/**
 * A signed-in user's repertoires: named lists of opening ids kept in the
 * user's document, with at most 10 repertoires per user and 100 openings per
 * repertoire. Each operation reads the list, transforms it and writes it back;
 * the transforms are the functions below and `UserDocument` holds the stored
 * list between calls.
 */
module AuthUtils {
  import opened Wrappers
  import opened Lists

  /** `LIMITS.MAX_REPERTOIRES_PER_USER`. */
  const MaxRepertoiresPerUser: nat := 10

  /** `LIMITS.MAX_OPENINGS_PER_REPERTOIRE`. */
  const MaxOpeningsPerRepertoire: nat := 100

  /** A repertoire; its creation and update timestamps are not modelled. */
  datatype Repertoire = Repertoire(id: string, name: string, description: string, openings: seq<string>)

  /** The errors the operations throw. */
  datatype Error =
    | UserNotFound
    | TooManyRepertoires
    | RepertoireNotFound
    | RepertoireFull
    | AlreadyInRepertoire

  /** The stored list of a user, or None when the user has no document. */
  type Document = Option<seq<Repertoire>>

  /** No two repertoires share an id. */
  predicate UniqueIds(reps: seq<Repertoire>) {
    forall i, j :: 0 <= i < j < |reps| ==> reps[i].id != reps[j].id
  }

  /** The limits hold, ids are unique and no repertoire holds an opening twice. */
  predicate Valid(reps: seq<Repertoire>) {
    && |reps| <= MaxRepertoiresPerUser
    && UniqueIds(reps)
    && forall i :: 0 <= i < |reps| ==>
         |reps[i].openings| <= MaxOpeningsPerRepertoire && NoDuplicates(reps[i].openings)
  }

  /** `repertoires.find(rep => rep.id === repertoireId)`, as the index of the first match. */
  function FindRepertoire(reps: seq<Repertoire>, repertoireId: string): (r: Option<nat>)
    ensures r.Some? ==>
      r.value < |reps| && reps[r.value].id == repertoireId && forall j :: 0 <= j < r.value ==> reps[j].id != repertoireId
    ensures r.None? ==> forall j :: 0 <= j < |reps| ==> reps[j].id != repertoireId
    decreases |reps|
  {
    if reps == [] then None
    else if reps[0].id == repertoireId then Some(0)
    else
      match FindRepertoire(reps[1..], repertoireId)
      case None => None
      case Some(k) => Some(k + 1)
  }

  /** With unique ids, the match found is the only one. */
  lemma FindUnique(reps: seq<Repertoire>, repertoireId: string, i: nat)
    requires UniqueIds(reps) && i < |reps| && reps[i].id == repertoireId
    ensures FindRepertoire(reps, repertoireId) == Some(i)
  {
  }

  // ---------------------------------------------------------------------------
  // The transforms
  // ---------------------------------------------------------------------------

  /**
   * `createRepertoire`: fails for a missing user or one who already has the
   * maximum number of repertoires; otherwise appends an empty repertoire. The
   * id, made from the clock in the source, is a parameter.
   */
  function CreateRepertoire(doc: Document, newId: string, name: string, description: string): (r: Result<seq<Repertoire>, Error>)
    ensures doc.None? ==> r == Failure(UserNotFound)
    ensures doc.Some? && |doc.value| >= MaxRepertoiresPerUser ==> r == Failure(TooManyRepertoires)
    ensures doc.Some? && |doc.value| < MaxRepertoiresPerUser ==>
      r == Success(doc.value + [Repertoire(newId, name, description, [])])
  {
    match doc
    case None => Failure(UserNotFound)
    case Some(reps) =>
      if |reps| >= MaxRepertoiresPerUser then Failure(TooManyRepertoires)
      else Success(reps + [Repertoire(newId, name, description, [])])
  }

  /** `updateRepertoireName`: every repertoire with the id gets the new name; nothing else changes. */
  function UpdateRepertoireName(doc: Document, repertoireId: string, newName: string): (r: Result<seq<Repertoire>, Error>)
    ensures doc.None? <==> r == Failure(UserNotFound)
    ensures doc.Some? ==> r.Success?
    ensures r.Success? ==> |r.value| == |doc.value| && forall i :: 0 <= i < |r.value| ==>
      r.value[i] == (if doc.value[i].id == repertoireId then doc.value[i].(name := newName) else doc.value[i])
  {
    match doc
    case None => Failure(UserNotFound)
    case Some(reps) =>
      Success(seq(|reps|, i requires 0 <= i < |reps| =>
        if reps[i].id == repertoireId then reps[i].(name := newName) else reps[i]))
  }

  /** The repertoire with the id, extended by the opening. */
  function Appended(reps: seq<Repertoire>, repertoireId: string, openingId: string): (r: seq<Repertoire>)
    ensures |r| == |reps|
    ensures forall i :: 0 <= i < |r| ==> r[i].id == reps[i].id
    ensures forall i :: 0 <= i < |r| ==>
      r[i] == (if reps[i].id == repertoireId then reps[i].(openings := reps[i].openings + [openingId]) else reps[i])
  {
    seq(|reps|, i requires 0 <= i < |reps| =>
      if reps[i].id == repertoireId then reps[i].(openings := reps[i].openings + [openingId]) else reps[i])
  }

  /**
   * `addOpeningToRepertoire`: the checks look at the first repertoire with the
   * id — unknown id, full repertoire, opening already present, in that order —
   * and on success the opening is appended to every repertoire with the id.
   */
  function AddOpening(doc: Document, repertoireId: string, openingId: string): (r: Result<seq<Repertoire>, Error>)
    ensures doc.None? ==> r == Failure(UserNotFound)
    ensures doc.Some? && FindRepertoire(doc.value, repertoireId).None? ==> r == Failure(RepertoireNotFound)
    ensures doc.Some? && FindRepertoire(doc.value, repertoireId).Some? ==>
      var found := doc.value[FindRepertoire(doc.value, repertoireId).value].openings;
      && (|found| >= MaxOpeningsPerRepertoire ==> r == Failure(RepertoireFull))
      && (|found| < MaxOpeningsPerRepertoire && openingId in found ==> r == Failure(AlreadyInRepertoire))
      && (|found| < MaxOpeningsPerRepertoire && openingId !in found ==> r == Success(Appended(doc.value, repertoireId, openingId)))
  {
    match doc
    case None => Failure(UserNotFound)
    case Some(reps) =>
      match FindRepertoire(reps, repertoireId)
      case None => Failure(RepertoireNotFound)
      case Some(k) =>
        if |reps[k].openings| >= MaxOpeningsPerRepertoire then Failure(RepertoireFull)
        else if openingId in reps[k].openings then Failure(AlreadyInRepertoire)
        else Success(Appended(reps, repertoireId, openingId))
  }

  /**
   * `removeOpeningFromRepertoire`: every occurrence of the opening leaves every
   * repertoire with the id; an absent opening or id is not an error.
   */
  function RemoveOpening(doc: Document, repertoireId: string, openingId: string): (r: Result<seq<Repertoire>, Error>)
    ensures doc.None? <==> r == Failure(UserNotFound)
    ensures doc.Some? ==> r.Success?
    ensures r.Success? ==> |r.value| == |doc.value| && forall i :: 0 <= i < |r.value| ==>
      r.value[i].id == doc.value[i].id && r.value[i].name == doc.value[i].name
      && r.value[i].description == doc.value[i].description
      && (doc.value[i].id == repertoireId ==>
            && openingId !in r.value[i].openings
            && IsSubsequence(r.value[i].openings, doc.value[i].openings)
            && forall x :: x != openingId ==> multiset(r.value[i].openings)[x] == multiset(doc.value[i].openings)[x])
      && (doc.value[i].id != repertoireId ==> r.value[i] == doc.value[i])
  {
    match doc
    case None => Failure(UserNotFound)
    case Some(reps) =>
      var kept := seq(|reps|, i requires 0 <= i < |reps| =>
        if reps[i].id == repertoireId then reps[i].(openings := Remove(reps[i].openings, openingId)) else reps[i]);
      assert forall i :: 0 <= i < |reps| && reps[i].id == repertoireId ==>
        forall x :: x != openingId ==> multiset(kept[i].openings)[x] == multiset(reps[i].openings)[x] by {
        forall i | 0 <= i < |reps| && reps[i].id == repertoireId {
          RemoveCounts(reps[i].openings, openingId);
        }
      }
      Success(kept)
  }

  /** `deleteRepertoire`: the repertoires with the id are dropped, the others keep their order. */
  function DeleteRepertoire(doc: Document, repertoireId: string): (r: Result<seq<Repertoire>, Error>)
    ensures doc.None? <==> r == Failure(UserNotFound)
    ensures doc.Some? ==> r.Success?
    ensures r.Success? ==>
      IsSubsequence(r.value, doc.value)
      && (forall i :: 0 <= i < |r.value| ==> r.value[i].id != repertoireId)
      && (forall i :: 0 <= i < |doc.value| && doc.value[i].id != repertoireId ==> doc.value[i] in r.value)
      && (forall rep: Repertoire :: rep.id != repertoireId ==> multiset(r.value)[rep] == multiset(doc.value)[rep])
  {
    match doc
    case None => Failure(UserNotFound)
    case Some(reps) =>
      var keep := (rep: Repertoire) => rep.id != repertoireId;
      FilterCounts(reps, keep);
      Success(Filter(reps, keep))
  }

  // ---------------------------------------------------------------------------
  // The invariant
  // ---------------------------------------------------------------------------

  /** Creating a repertoire with a fresh id keeps the invariant; in particular at most 10 exist. */
  lemma CreateKeepsValid(reps: seq<Repertoire>, newId: string, name: string, description: string)
    requires Valid(reps)
    requires forall i :: 0 <= i < |reps| ==> reps[i].id != newId
    ensures var r := CreateRepertoire(Some(reps), newId, name, description);
      r.Success? ==> Valid(r.value)
  {
  }

  /** Renaming keeps the invariant. */
  lemma RenameKeepsValid(reps: seq<Repertoire>, repertoireId: string, newName: string)
    requires Valid(reps)
    ensures Valid(UpdateRepertoireName(Some(reps), repertoireId, newName).value)
  {
  }

  /** A successful add keeps the invariant: lists stay duplicate-free and within 100. */
  lemma AddKeepsValid(reps: seq<Repertoire>, repertoireId: string, openingId: string)
    requires Valid(reps)
    ensures var r := AddOpening(Some(reps), repertoireId, openingId);
      r.Success? ==> Valid(r.value)
  {
    var r := AddOpening(Some(reps), repertoireId, openingId);
    if r.Success? {
      var k := FindRepertoire(reps, repertoireId).value;
      forall i | 0 <= i < |reps| && reps[i].id == repertoireId
        ensures i == k
      {
        FindUnique(reps, repertoireId, i);
      }
    }
  }

  /** Removing keeps the invariant. */
  lemma RemoveKeepsValid(reps: seq<Repertoire>, repertoireId: string, openingId: string)
    requires Valid(reps)
    ensures Valid(RemoveOpening(Some(reps), repertoireId, openingId).value)
  {
    var r := RemoveOpening(Some(reps), repertoireId, openingId).value;
    forall i | 0 <= i < |r| && reps[i].id == repertoireId
      ensures |r[i].openings| <= MaxOpeningsPerRepertoire && NoDuplicates(r[i].openings)
    {
      SubsequenceNoDuplicates(r[i].openings, reps[i].openings);
    }
  }

  /** Deleting keeps the invariant. */
  lemma DeleteKeepsValid(reps: seq<Repertoire>, repertoireId: string)
    requires Valid(reps)
    ensures Valid(DeleteRepertoire(Some(reps), repertoireId).value)
  {
    var r := DeleteRepertoire(Some(reps), repertoireId).value;
    SubsequenceNoDuplicates(r, reps);
    SubsequenceMembers(r, reps);
    forall i | 0 <= i < |r|
      ensures |r[i].openings| <= MaxOpeningsPerRepertoire && NoDuplicates(r[i].openings)
    {
      assert r[i] in reps;
    }
  }

  /** A successful add followed by a remove of the same opening restores the list. */
  lemma AddThenRemove(reps: seq<Repertoire>, repertoireId: string, openingId: string)
    requires UniqueIds(reps)
    requires AddOpening(Some(reps), repertoireId, openingId).Success?
    ensures RemoveOpening(Some(AddOpening(Some(reps), repertoireId, openingId).value), repertoireId, openingId) == Success(reps)
  {
    var added := AddOpening(Some(reps), repertoireId, openingId).value;
    var k := FindRepertoire(reps, repertoireId).value;
    var r := RemoveOpening(Some(added), repertoireId, openingId).value;
    forall i | 0 <= i < |reps|
      ensures r[i] == reps[i]
    {
      if reps[i].id == repertoireId {
        FindUnique(reps, repertoireId, i);
        RemoveAppended(reps[i].openings, openingId);
      }
    }
    assert r == reps;
  }

  // ---------------------------------------------------------------------------
  // Migration of the favourites
  // ---------------------------------------------------------------------------

  /** The name and description of the repertoire the favourites move into. */
  const MigratedName: string := "My Favorites"
  const MigratedDescription: string := "Migrated from favorites"

  /** Adding each opening in turn, skipping the ones whose add fails. */
  function AddEach(reps: seq<Repertoire>, repertoireId: string, openingIds: seq<string>): seq<Repertoire>
    decreases |openingIds|
  {
    if openingIds == [] then reps
    else
      var before := AddEach(reps, repertoireId, openingIds[..|openingIds| - 1]);
      match AddOpening(Some(before), repertoireId, openingIds[|openingIds| - 1])
      case Success(after) => after
      case Failure(_) => before
  }

  /**
   * What the migration collects: the repertoire at index k (the new one, with
   * a unique id) ends up holding only favourites, each at most once, and every
   * favourite is in it unless it is full. Nothing else changes and the
   * invariant holds.
   */
  lemma {:induction false} AddEachCollects(reps: seq<Repertoire>, k: nat, openingIds: seq<string>)
    requires Valid(reps) && k < |reps| && reps[k].openings == []
    ensures var r := AddEach(reps, reps[k].id, openingIds);
      && Valid(r) && |r| == |reps|
      && (forall i :: 0 <= i < |reps| && i != k ==> r[i] == reps[i])
      && r[k].id == reps[k].id
      && (forall x :: x in r[k].openings ==> x in openingIds)
      && (forall x :: x in openingIds ==> x in r[k].openings || |r[k].openings| == MaxOpeningsPerRepertoire)
    decreases |openingIds|
  {
    var id := reps[k].id;
    if openingIds == [] {
    } else {
      var last := openingIds[|openingIds| - 1];
      var init := openingIds[..|openingIds| - 1];
      assert openingIds == init + [last];
      AddEachCollects(reps, k, init);
      var before := AddEach(reps, id, init);
      FindUnique(before, id, k);
      AddKeepsValid(before, id, last);
    }
  }

  /**
   * The migration end to end, for a user within the limits and a fresh id:
   * the earlier repertoires are unchanged, the new last one holds only
   * favourites, each once, and every favourite unless it filled up, and the
   * invariant still holds.
   */
  lemma MigrationCollectsFavorites(reps: seq<Repertoire>, newId: string, favorites: seq<string>)
    requires Valid(reps) && |reps| < MaxRepertoiresPerUser
    requires forall i :: 0 <= i < |reps| ==> reps[i].id != newId
    ensures var created := CreateRepertoire(Some(reps), newId, MigratedName, MigratedDescription);
      created.Success? &&
      var r := AddEach(created.value, newId, favorites);
      && Valid(r) && |r| == |reps| + 1 && r[..|reps|] == reps
      && r[|reps|].id == newId && r[|reps|].name == MigratedName
      && (forall x :: x in r[|reps|].openings ==> x in favorites)
      && (forall x :: x in favorites ==> x in r[|reps|].openings || |r[|reps|].openings| == MaxOpeningsPerRepertoire)
  {
    var created := CreateRepertoire(Some(reps), newId, MigratedName, MigratedDescription).value;
    CreateKeepsValid(reps, newId, MigratedName, MigratedDescription);
    AddEachCollects(created, |reps|, favorites);
    AddEachKeepsName(created, |reps|, favorites);
    var r := AddEach(created, newId, favorites);
    assert r[..|reps|] == reps;
  }

  /** Adding openings never renames a repertoire. */
  lemma {:induction false} AddEachKeepsName(reps: seq<Repertoire>, k: nat, openingIds: seq<string>)
    requires k < |reps|
    ensures var r := AddEach(reps, reps[k].id, openingIds);
      |r| == |reps| && r[k].name == reps[k].name
    decreases |openingIds|
  {
    if openingIds != [] {
      AddEachKeepsName(reps, k, openingIds[..|openingIds| - 1]);
    }
  }

  // ---------------------------------------------------------------------------
  // The stored document
  // ---------------------------------------------------------------------------

  /** The user's stored document, read and written back by each operation. */
  class UserDocument {
    var document: Document

    constructor(initial: Document)
      ensures document == initial
    {
      document := initial;
    }

    /** Stores the new list on success; the document is untouched on failure. */
    method Commit(r: Result<seq<Repertoire>, Error>) returns (error: Option<Error>)
      modifies this
      ensures r.Success? ==> document == Some(r.value) && error == None
      ensures r.Failure? ==> document == old(document) && error == Some(r.error)
    {
      if r.Success? {
        document := Some(r.value);
        error := None;
      } else {
        error := Some(r.error);
      }
    }

    /** `createRepertoire`, returning the new repertoire. */
    method Create(newId: string, name: string, description: string) returns (result: Result<Repertoire, Error>)
      modifies this
      ensures var r := CreateRepertoire(old(document), newId, name, description);
        && (r.Success? ==> document == Some(r.value) && result == Success(Repertoire(newId, name, description, [])))
        && (r.Failure? ==> document == old(document) && result == Failure(r.error))
    {
      var r := CreateRepertoire(document, newId, name, description);
      var error := Commit(r);
      if error.None? {
        result := Success(Repertoire(newId, name, description, []));
      } else {
        result := Failure(error.value);
      }
    }

    /** `updateRepertoireName`. */
    method UpdateName(repertoireId: string, newName: string) returns (error: Option<Error>)
      modifies this
      ensures var r := UpdateRepertoireName(old(document), repertoireId, newName);
        (r.Success? ==> document == Some(r.value) && error == None)
        && (r.Failure? ==> document == old(document) && error == Some(r.error))
    {
      error := Commit(UpdateRepertoireName(document, repertoireId, newName));
    }

    /** `addOpeningToRepertoire`. */
    method Add(repertoireId: string, openingId: string) returns (error: Option<Error>)
      modifies this
      ensures var r := AddOpening(old(document), repertoireId, openingId);
        (r.Success? ==> document == Some(r.value) && error == None)
        && (r.Failure? ==> document == old(document) && error == Some(r.error))
    {
      error := Commit(AddOpening(document, repertoireId, openingId));
    }

    /** `removeOpeningFromRepertoire`. */
    method RemoveFrom(repertoireId: string, openingId: string) returns (error: Option<Error>)
      modifies this
      ensures var r := RemoveOpening(old(document), repertoireId, openingId);
        (r.Success? ==> document == Some(r.value) && error == None)
        && (r.Failure? ==> document == old(document) && error == Some(r.error))
    {
      error := Commit(RemoveOpening(document, repertoireId, openingId));
    }

    /** `deleteRepertoire`. */
    method Delete(repertoireId: string) returns (error: Option<Error>)
      modifies this
      ensures var r := DeleteRepertoire(old(document), repertoireId);
        (r.Success? ==> document == Some(r.value) && error == None)
        && (r.Failure? ==> document == old(document) && error == Some(r.error))
    {
      error := Commit(DeleteRepertoire(document, repertoireId));
    }

    /**
     * `migrateFavoritesToRepertoire`: nothing for no favourites; otherwise a
     * new repertoire (a failure here ends the migration), then each favourite
     * is added in order and a failing add is skipped.
     */
    method MigrateFavorites(favorites: seq<string>, newId: string) returns (result: Result<Option<Repertoire>, Error>)
      modifies this
      ensures favorites == [] ==> document == old(document) && result == Success(None)
      ensures favorites != [] ==>
        var created := CreateRepertoire(old(document), newId, MigratedName, MigratedDescription);
        && (created.Failure? ==> document == old(document) && result == Failure(created.error))
        && (created.Success? ==>
              document == Some(AddEach(created.value, newId, favorites))
              && result == Success(Some(Repertoire(newId, MigratedName, MigratedDescription, []))))
    {
      if |favorites| == 0 {
        return Success(None);
      }
      var created := Create(newId, MigratedName, MigratedDescription);
      if created.Failure? {
        return Failure(created.error);
      }
      ghost var start := document.value;
      for k := 0 to |favorites|
        invariant document == Some(AddEach(start, newId, favorites[..k]))
      {
        assert favorites[..k + 1][..k] == favorites[..k];
        var _ := Add(newId, favorites[k]);
      }
      assert favorites[..|favorites|] == favorites;
      return Success(Some(created.value));
    }
  }
}
