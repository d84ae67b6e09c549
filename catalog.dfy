/**
 * The media entity, the actor entity as the media service sees it, the
 * commands and responses of `MidiaService`, and
 * `DetailedMidiaResponseDTO` with its actor projection.
 */
module Catalog {
  import opened Outcomes

  /** `Midiatype`. */
  datatype MidiaType = Movie | Series

  /** `Actor` (newer model): the media service reads actors and never writes them. */
  datatype Actor = Actor(id: int, name: string, birthDate: Option<int>, enabled: bool)

  /** `Midia`; the many-to-many link is kept as the ordered list of linked actor ids. */
  datatype Midia = Midia(
    id: int,
    title: string,
    midiaType: MidiaType,
    releaseYear: Option<int>,
    director: Option<string>,
    synopsis: Option<string>,
    genre: Option<string>,
    posterUrl: Option<string>,
    actorIds: seq<int>)

  /** `MidiaRegistrationDTO` and `MidiaUpdateDTO`: every field may be null. */
  datatype MidiaCommand = MidiaCommand(
    title: Option<string>,
    midiaType: Option<MidiaType>,
    releaseYear: Option<int>,
    director: Option<string>,
    synopsis: Option<string>,
    genre: Option<string>,
    posterUrl: Option<string>,
    actorIds: Option<seq<int>>)

  /** `MidiaResponseDTO`. */
  datatype MidiaResponse = MidiaResponse(id: int, title: string, midiaType: MidiaType)

  /** `ActorSimpleDTO`. */
  datatype ActorSimple = ActorSimple(id: int, name: string)

  /** `DetailedMidiaResponseDTO`. */
  datatype DetailedMidiaResponse = DetailedMidiaResponse(
    id: int,
    title: string,
    midiaType: MidiaType,
    releaseYear: Option<int>,
    director: Option<string>,
    synopsis: Option<string>,
    genre: Option<string>,
    posterUrl: Option<string>,
    actors: seq<ActorSimple>)

  function SummaryOf(m: Midia): MidiaResponse
  {
    MidiaResponse(m.id, m.title, m.midiaType)
  }

  /** `actors.stream().map(actor -> new ActorSimpleDTO(actor.getId(), actor.getName()))`: one entry per actor, in order. */
  function ProjectActors(actors: seq<Actor>): (r: seq<ActorSimple>)
    ensures |r| == |actors|
    ensures forall i :: 0 <= i < |actors| ==> r[i] == ActorSimple(actors[i].id, actors[i].name)
    decreases |actors|
  {
    if |actors| == 0 then [] else [ActorSimple(actors[0].id, actors[0].name)] + ProjectActors(actors[1..])
  }

  /**
   * The nine-argument `DetailedMidiaResponseDTO` constructor: the scalar
   * fields are copied as given, and a null actor list leaves the field's
   * default, the empty list.
   */
  function Detailed(
    id: int, title: string, midiaType: MidiaType, releaseYear: Option<int>,
    director: Option<string>, synopsis: Option<string>, genre: Option<string>,
    posterUrl: Option<string>, actors: Option<seq<Actor>>): (r: DetailedMidiaResponse)
    ensures r.id == id && r.title == title && r.midiaType == midiaType && r.releaseYear == releaseYear
    ensures r.director == director && r.synopsis == synopsis && r.genre == genre && r.posterUrl == posterUrl
    ensures actors.None? ==> r.actors == []
    ensures actors.Some? ==> |r.actors| == |actors.value|
    ensures actors.Some? ==> forall i :: 0 <= i < |actors.value| ==>
      r.actors[i].id == actors.value[i].id && r.actors[i].name == actors.value[i].name
  {
    var projected := if actors.None? then [] else ProjectActors(actors.value);
    DetailedMidiaResponse(id, title, midiaType, releaseYear, director, synopsis, genre, posterUrl, projected)
  }

  /** The actors stored under the given ids, in the order of the ids. */
  function ActorsAt(ids: seq<int>, actors: map<int, Actor>): (r: seq<Actor>)
    requires forall i :: 0 <= i < |ids| ==> ids[i] in actors
    ensures |r| == |ids| && forall i :: 0 <= i < |ids| ==> r[i] == actors[ids[i]]
    decreases |ids|
  {
    if |ids| == 0 then [] else [actors[ids[0]]] + ActorsAt(ids[1..], actors)
  }
}
