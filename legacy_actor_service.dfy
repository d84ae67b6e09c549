/**
 * The older `ActorService`: `registerActor` checks the name, then the birth
 * date against the current date, failing at the first problem, and saves a
 * new enabled actor with no media.
 */
module LegacyActors {
  import opened Outcomes
  import opened Store

  const ACTOR_NAME_REQUIRED := "Actor name must be informed"
  const BIRTH_DATE_IN_FUTURE := "Birth date cannot be in the future"

  /** The older `Actor` entity; dates are day numbers. */
  datatype Actor = Actor(id: int, name: string, birthDate: int, midiaIds: seq<int>, enabled: bool)

  /** The older `ActorDTO`: id and name may be null; the media list defaults to empty. */
  datatype ActorDto = ActorDto(id: Option<int>, name: Option<string>, birthDate: int, midiaIds: seq<int>)

  /** The first problem `registerActor` finds, if any. */
  function RegisterActorError(dto: ActorDto, today: int): (r: Option<string>)
    ensures r.None? <==> dto.name.Some? && dto.name.value != "" && dto.birthDate <= today
    ensures r == Some(ACTOR_NAME_REQUIRED) <==> dto.name.None? || dto.name.value == ""
    ensures r == Some(BIRTH_DATE_IN_FUTURE) <==> dto.name.Some? && dto.name.value != "" && dto.birthDate > today
  {
    if dto.name.None? || dto.name.value == "" then Some(ACTOR_NAME_REQUIRED)
    else if dto.birthDate > today then Some(BIRTH_DATE_IN_FUTURE)
    else None
  }

  /** Every stored actor sits under its own id and has a non-empty name. */
  ghost predicate ActorsValid(actors: map<int, Actor>)
  {
    forall id :: id in actors ==> actors[id].id == id && actors[id].name != ""
  }

  class ActorService {
    var actors: map<int, Actor>
    var order: seq<int>
    var nextId: int

    ghost predicate Valid()
      reads this
    {
      ActorsValid(actors) && Lists(order, actors.Keys, nextId)
    }

    constructor ()
      ensures Valid() && actors == map[] && order == []
    {
      actors := map[];
      order := [];
      nextId := 1;
    }

    /** `registerActor`, with the clock's current day passed in as `today`. */
    method RegisterActor(dto: ActorDto, today: int) returns (r: Outcome<ActorDto>)
      requires Valid()
      modifies this
      ensures Valid()
      ensures r.Validation? <==> RegisterActorError(dto, today).Some?
      ensures r.Validation? ==> r.errors == [RegisterActorError(dto, today).value] && unchanged(this)
      ensures r.Ok? ==>
        var id := old(nextId);
        && id !in old(actors)
        && actors == old(actors)[id := Actor(id, dto.name.value, dto.birthDate, [], true)]
        && order == old(order) + [id] && nextId == id + 1
        && r.value == ActorDto(None, dto.name, dto.birthDate, [])
      ensures !r.NotFound?
    {
      if dto.name.None? || dto.name.value == "" {
        return Validation([ACTOR_NAME_REQUIRED]);
      }
      if dto.birthDate > today {
        return Validation([BIRTH_DATE_IN_FUTURE]);
      }
      var actor := Actor(nextId, dto.name.value, dto.birthDate, [], true);
      ListsInsert(order, actors.Keys, nextId);
      actors := actors[nextId := actor];
      order := order + [nextId];
      nextId := nextId + 1;
      r := Ok(ActorDto(None, Some(actor.name), actor.birthDate, []));
    }
  }
}
