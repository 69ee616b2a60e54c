/** The `/anime/{anime_id}` endpoint: the first catalog row with a given id. */
module AnimeLookup {
  import opened Wrappers
  import opened Catalog

  datatype HttpError = NotFound

  /** Linear search for the first row whose id is `id`. */
  function FindById(data: seq<Anime>, id: int): (r: Option<Anime>)
    ensures r.Some? ==> r.value.id == id
    ensures r.Some? ==> exists k :: 0 <= k < |data| && data[k] == r.value
                                    && forall j :: 0 <= j < k ==> data[j].id != id
    ensures r.None? <==> forall k :: 0 <= k < |data| ==> data[k].id != id
  {
    if |data| == 0 then None
    else if data[0].id == id then Some(data[0])
    else
      var r := FindById(data[1..], id);
      assert forall k :: 1 <= k < |data| ==> data[k] == data[1..][k - 1];
      r
  }

  /** `get_anime`: the row, or a 404 when no row carries that id. */
  function GetAnime(data: seq<Anime>, animeId: int): (r: Result<Anime, HttpError>)
    ensures r.Success? ==> r.value.id == animeId && r.value in data
    ensures r.Failure? <==> forall k :: 0 <= k < |data| ==> data[k].id != animeId
  {
    match FindById(data, animeId)
    case Some(a) => Success(a)
    case None => Failure(NotFound)
  }
}
