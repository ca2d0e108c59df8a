/**
 * The in-memory anime table of AnimeService as a value: a sequence of
 * `Anime(id, name)` records and the list operations the service performs
 * on it, with the properties the service relies on.
 */
module AnimeList {
  import opened Wrappers
  import opened Http

  /** The `Anime` entity; Lombok's `@Data` gives it equality on both fields. */
  datatype Anime = Anime(id: int, name: string)

  /** Spring's `ResponseStatusException(status, reason)`. */
  datatype ResponseStatusError = ResponseStatusError(status: HttpStatus, reason: string)

  /** What `findById` throws when no record carries the id. */
  const NotFound := ResponseStatusError(BAD_REQUEST, "Anime not found")

  /** The two records the static initializer puts into the list, in this order. */
  const InitialList: seq<Anime> := [Anime(1, "Boku No Hero"), Anime(2, "Berserk")]

  /** `save` draws ids with `nextLong(3, 100000)`: lower bound inclusive, upper bound exclusive. */
  const RandomIdOrigin: int := 3
  const RandomIdBound: int := 100000

  predicate HasId(s: seq<Anime>, id: int)
  {
    exists k :: 0 <= k < |s| && s[k].id == id
  }

  /** The position of the first record whose id is `id`, as `filter(...).findFirst()` finds it. */
  function FirstIndex(s: seq<Anime>, id: int): (r: Option<nat>)
    ensures r.Some? <==> HasId(s, id)
    ensures r.Some? ==> r.value < |s| && s[r.value].id == id
    ensures r.Some? ==> forall k :: 0 <= k < r.value ==> s[k].id != id
  {
    if s == [] then None
    else if s[0].id == id then Some(0)
    else
      match FirstIndex(s[1..], id)
      case None =>
        assert forall k :: 1 <= k < |s| ==> s[k] == s[1..][k - 1];
        None
      case Some(i) =>
        assert forall k :: 1 <= k < i + 1 ==> s[k] == s[1..][k - 1];
        Some(i + 1)
  }

  /** `findById`: the first record with the id, or the not-found error. */
  function Find(s: seq<Anime>, id: int): (r: Result<Anime, ResponseStatusError>)
    ensures r.Err? <==> !HasId(s, id)
    ensures r.Err? ==> r.error == NotFound
    ensures r.Ok? ==> r.value.id == id && r.value in s
  {
    match FirstIndex(s, id)
    case Some(i) => Ok(s[i])
    case None => Err(NotFound)
  }

  /** `ArrayList.remove(Object)`: drop the first element equal to `x`, if there is one. */
  function RemoveFirst(s: seq<Anime>, x: Anime): (r: seq<Anime>)
    ensures x in s ==> |r| == |s| - 1
    ensures x !in s ==> r == s
  {
    if s == [] then []
    else if s[0] == x then s[1..]
    else [s[0]] + RemoveFirst(s[1..], x)
  }

  /** The list without its element at index `i`, the others in their old order. */
  function RemoveAt(s: seq<Anime>, i: nat): seq<Anime>
    requires i < |s|
  {
    s[..i] + s[i + 1..]
  }

  /** `delete(id)`: look the record up, then remove it from the list. */
  function Deleted(s: seq<Anime>, id: int): (r: Result<seq<Anime>, ResponseStatusError>)
    ensures r.Err? <==> !HasId(s, id)
    ensures r.Err? ==> r.error == NotFound
    ensures r.Ok? ==> |r.value| == |s| - 1
  {
    match Find(s, id)
    case Ok(found) => Ok(RemoveFirst(s, found))
    case Err(e) => Err(e)
  }

  /** `replace(anime)`: delete by the record's id, then append the record. */
  function Replaced(s: seq<Anime>, anime: Anime): (r: Result<seq<Anime>, ResponseStatusError>)
    ensures r.Err? <==> !HasId(s, anime.id)
    ensures r.Err? ==> r.error == NotFound
    ensures r.Ok? ==> |r.value| == |s| && r.value[|s| - 1] == anime
  {
    match Deleted(s, anime.id)
    case Ok(t) => Ok(t + [anime])
    case Err(e) => Err(e)
  }

  /** How many records carry the id. */
  function CountId(s: seq<Anime>, id: int): nat
  {
    if s == [] then 0 else (if s[0].id == id then 1 else 0) + CountId(s[1..], id)
  }

  /**
   * `remove(Object)` applied to the first record with some id removes exactly
   * that position: no earlier element can be equal to it, since equal records
   * have equal ids.
   */
  lemma {:induction false} RemoveFirstAtFirstMatch(s: seq<Anime>, i: nat)
    requires i < |s|
    requires forall k :: 0 <= k < i ==> s[k] != s[i]
    ensures RemoveFirst(s, s[i]) == RemoveAt(s, i)
  {
    if i > 0 {
      var t := s[1..];
      assert t[i - 1] == s[i];
      assert forall k :: 0 <= k < i - 1 ==> t[k] == s[k + 1];
      RemoveFirstAtFirstMatch(t, i - 1);
      assert RemoveAt(s, i) == [s[0]] + RemoveAt(t, i - 1);
    }
  }

  /** `findById` yields the first record whose id matches, and fails exactly when there is none. */
  lemma FindIsFirstMatch(s: seq<Anime>, id: int)
    ensures Find(s, id).Ok? <==> HasId(s, id)
    ensures Find(s, id).Ok? ==>
      exists i :: 0 <= i < |s| && Find(s, id).value == s[i] && s[i].id == id &&
        forall k :: 0 <= k < i ==> s[k].id != id
  {
    if HasId(s, id) {
      var i := FirstIndex(s, id).value;
      assert Find(s, id).value == s[i];
    }
  }

  /**
   * `delete(id)` succeeds exactly when the id is present; it then removes the
   * first record with that id and nothing else, keeping the order of the rest.
   * On an absent id it fails with the not-found error.
   */
  lemma DeletedRemovesFirstMatch(s: seq<Anime>, id: int)
    ensures Deleted(s, id).Err? <==> !HasId(s, id)
    ensures Deleted(s, id).Err? ==> Deleted(s, id).error == NotFound
    ensures Deleted(s, id).Ok? ==>
      var i := FirstIndex(s, id).value;
      Deleted(s, id).value == RemoveAt(s, i) && |Deleted(s, id).value| == |s| - 1
  {
    if HasId(s, id) {
      var i := FirstIndex(s, id).value;
      assert forall k :: 0 <= k < i ==> s[k] != s[i];
      RemoveFirstAtFirstMatch(s, i);
    }
  }

  lemma {:induction false} CountIdAppend(s: seq<Anime>, t: seq<Anime>, id: int)
    ensures CountId(s + t, id) == CountId(s, id) + CountId(t, id)
  {
    if s != [] {
      assert (s + t)[1..] == s[1..] + t;
      CountIdAppend(s[1..], t, id);
    } else {
      assert s + t == t;
    }
  }

  /** An id is present exactly when at least one record carries it. */
  lemma {:induction false} CountIdPositive(s: seq<Anime>, id: int)
    ensures CountId(s, id) > 0 <==> HasId(s, id)
  {
    if s != [] {
      CountIdPositive(s[1..], id);
      if HasId(s[1..], id) {
        var k :| 0 <= k < |s[1..]| && s[1..][k].id == id;
        assert s[k + 1].id == id;
      }
      if HasId(s, id) && s[0].id != id {
        var k :| 0 <= k < |s| && s[k].id == id;
        assert s[1..][k - 1].id == id;
      }
    }
  }

  /**
   * A successful delete lowers the count of its id by one and leaves the count
   * of every other id as it was.
   */
  lemma DeletedCounts(s: seq<Anime>, id: int, other: int)
    requires Deleted(s, id).Ok?
    ensures CountId(Deleted(s, id).value, id) == CountId(s, id) - 1
    ensures other != id ==> CountId(Deleted(s, id).value, other) == CountId(s, other)
  {
    DeletedRemovesFirstMatch(s, id);
    var i := FirstIndex(s, id).value;
    assert s == s[..i] + ([s[i]] + s[i + 1..]);
    CountIdAppend(s[..i], [s[i]] + s[i + 1..], id);
    CountIdAppend(s[..i], [s[i]] + s[i + 1..], other);
    CountIdAppend([s[i]], s[i + 1..], id);
    CountIdAppend([s[i]], s[i + 1..], other);
    CountIdAppend(s[..i], s[i + 1..], id);
    CountIdAppend(s[..i], s[i + 1..], other);
  }

  /**
   * Deleting is not idempotent in the service: once the only record with an
   * id has been deleted, a second delete of that id fails with not-found.
   */
  lemma SecondDeleteFails(s: seq<Anime>, id: int)
    requires CountId(s, id) == 1
    ensures Deleted(s, id).Ok?
    ensures Deleted(Deleted(s, id).value, id) == Err(NotFound)
  {
    CountIdPositive(s, id);
    DeletedRemovesFirstMatch(s, id);
    DeletedCounts(s, id, id);
    CountIdPositive(Deleted(s, id).value, id);
    DeletedRemovesFirstMatch(Deleted(s, id).value, id);
  }

  /**
   * `replace(anime)` succeeds exactly when `anime.id` is present. It keeps the
   * length, drops the first old record with that id, keeps the others in
   * order and puts `anime` last. On an absent id it fails before any change.
   */
  lemma ReplacedMovesToEnd(s: seq<Anime>, anime: Anime)
    ensures Replaced(s, anime).Err? <==> !HasId(s, anime.id)
    ensures Replaced(s, anime).Err? ==> Replaced(s, anime).error == NotFound
    ensures Replaced(s, anime).Ok? ==>
      var i := FirstIndex(s, anime.id).value;
      var r := Replaced(s, anime).value;
      |r| == |s| && r == RemoveAt(s, i) + [anime] && r[|r| - 1] == anime
  {
    DeletedRemovesFirstMatch(s, anime.id);
  }

  /** A replace keeps the number of records carrying the replaced id. */
  lemma ReplacedKeepsCount(s: seq<Anime>, anime: Anime)
    requires Replaced(s, anime).Ok?
    ensures CountId(Replaced(s, anime).value, anime.id) == CountId(s, anime.id)
  {
    var t := Deleted(s, anime.id).value;
    DeletedCounts(s, anime.id, anime.id);
    CountIdAppend(t, [anime], anime.id);
    assert [anime][1..] == [];
  }
}
