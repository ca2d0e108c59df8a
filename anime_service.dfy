/**
 * AnimeService: the static `ArrayList` of anime records, held here as one
 * object's `lista` field and changed in place by `save`, `delete` and `replace`.
 */
module Service {
  import opened Wrappers
  import opened AnimeList

  class AnimeService {
    /** The table; the Java field is a static list shared by every instance. */
    var lista: seq<Anime>

    /** The static initializer: the table starts with two records. */
    constructor ()
      ensures lista == InitialList
      ensures |lista| == 2 && lista[0] == Anime(1, "Boku No Hero") && lista[1] == Anime(2, "Berserk")
    {
      lista := InitialList;
    }

    /** `listAll`: the current contents, as they are. */
    method ListAll() returns (r: seq<Anime>)
      ensures r == lista
    {
      r := lista;
    }

    /**
     * `findById`: a linear search for the first record with the id. It fails
     * with BAD_REQUEST "Anime not found" exactly when no record carries it, and
     * it changes nothing.
     */
    method FindById(id: int) returns (r: Result<Anime, ResponseStatusError>)
      ensures r.Err? <==> !HasId(lista, id)
      ensures r.Err? ==> r.error == NotFound
      ensures r.Ok? ==> exists i :: 0 <= i < |lista| && r.value == lista[i] && lista[i].id == id &&
                                    forall k :: 0 <= k < i ==> lista[k].id != id
      ensures r == Find(lista, id)
    {
      var i := 0;
      while i < |lista|
        invariant 0 <= i <= |lista|
        invariant forall k :: 0 <= k < i ==> lista[k].id != id
      {
        if lista[i].id == id {
          return Ok(lista[i]);
        }
        i := i + 1;
      }
      return Err(NotFound);
    }

    /**
     * `save`: stamp a random id in [3, 100000) onto the record and append it.
     * Nothing checks that the id is unused.
     */
    method Save(anime: Anime) returns (saved: Anime)
      modifies this
      ensures RandomIdOrigin <= saved.id < RandomIdBound
      ensures saved.name == anime.name
      ensures lista == old(lista) + [saved]
    {
      var v :| RandomIdOrigin <= v < RandomIdBound;
      saved := anime.(id := v);
      lista := lista + [saved];
    }

    /**
     * `delete`: find the record, then `remove(Object)` it. An absent id fails
     * with not-found and leaves the list as it was.
     */
    method Delete(id: int) returns (r: Outcome<ResponseStatusError>)
      modifies this
      ensures r.Fail? <==> !HasId(old(lista), id)
      ensures r.Fail? ==> r.error == NotFound && lista == old(lista)
      ensures r.Pass? ==> Deleted(old(lista), id) == Ok(lista)
      ensures r.Pass? ==> lista == RemoveAt(old(lista), FirstIndex(old(lista), id).value)
    {
      var found := FindById(id);
      match found
      case Err(e) =>
        r := Fail(e);
      case Ok(a) =>
        DeletedRemovesFirstMatch(lista, id);
        lista := RemoveFirst(lista, a);
        r := Pass;
    }

    /**
     * `replace`: delete by the record's id, then append the record. An absent id
     * fails inside the delete, before the list changes.
     */
    method Replace(anime: Anime) returns (r: Outcome<ResponseStatusError>)
      modifies this
      ensures r.Fail? <==> !HasId(old(lista), anime.id)
      ensures r.Fail? ==> r.error == NotFound && lista == old(lista)
      ensures r.Pass? ==> Replaced(old(lista), anime) == Ok(lista)
      ensures r.Pass? ==> lista == RemoveAt(old(lista), FirstIndex(old(lista), anime.id).value) + [anime]
      ensures r.Pass? ==> |lista| == |old(lista)| && lista[|lista| - 1] == anime
    {
      r := Delete(anime.id);
      if r.Pass? {
        lista := lista + [anime];
        ReplacedMovesToEnd(old(lista), anime);
      }
    }
  }
}
