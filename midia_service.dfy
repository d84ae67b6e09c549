/**
 * `MidiaService`: register, remove, update, getMidia and getAllMidias over
 * an in-memory media store, resolving actor ids against the actor store.
 */
module Midias {
  import opened Outcomes
  import opened JavaText
  import opened Store
  import opened Catalog

  const MIDIA_DATA_REQUIRED := "Midia data must be informed."
  const TITLE_REQUIRED := "Midia title must be informed."
  const TYPE_REQUIRED := "Midia type must be informed."
  const ACTORS_NOT_FOUND := "The following actor IDs were not found: "
  const MIDIA_ID_REQUIRED := "Midia ID must be informed."
  const NO_MIDIA_FOR_ID := "No midia found for this ID."
  const GET_ID_REQUIRED := "Midia id must be informed."
  const MIDIA_NOT_FOUND := "Midia not found."
  /** The empty-page message `getAllMidias` shares with `getAllUsers`, word for word. */
  const NO_MIDIAS := "No users found in database."

  // ------------------------------------------------------- actor resolution

  /** The ids the actor store lacks, in input order, repeats included. */
  function MissingIds(ids: seq<int>, actors: map<int, Actor>): (r: seq<int>)
    ensures |r| <= |ids|
    ensures forall i :: 0 <= i < |r| ==> r[i] !in actors
    decreases |ids|
  {
    if |ids| == 0 then []
    else MissingIds(ids[..|ids| - 1], actors) + (if ids[|ids| - 1] in actors then [] else [ids[|ids| - 1]])
  }

  /** The actors the store holds for the ids, in input order, repeats included. */
  function FoundActors(ids: seq<int>, actors: map<int, Actor>): (r: seq<Actor>)
    ensures |r| + |MissingIds(ids, actors)| == |ids|
    decreases |ids|
  {
    if |ids| == 0 then []
    else FoundActors(ids[..|ids| - 1], actors) + (if ids[|ids| - 1] in actors then [actors[ids[|ids| - 1]]] else [])
  }

  /** Exactly the ids absent from the store are reported missing. */
  lemma {:induction false} MissingIdsMembers(ids: seq<int>, actors: map<int, Actor>)
    ensures forall x :: x in MissingIds(ids, actors) <==> x in ids && x !in actors
    decreases |ids|
  {
    if |ids| > 0 {
      var init := ids[..|ids| - 1];
      MissingIdsMembers(init, actors);
      assert ids == init + [ids[|ids| - 1]];
    }
  }

  /** Nothing is missing exactly when every id resolves. */
  lemma NothingMissing(ids: seq<int>, actors: map<int, Actor>)
    ensures MissingIds(ids, actors) == [] <==> forall i :: 0 <= i < |ids| ==> ids[i] in actors
  {
    MissingIdsMembers(ids, actors);
    if MissingIds(ids, actors) != [] {
      assert MissingIds(ids, actors)[0] in MissingIds(ids, actors);
    }
  }

  /** When every id resolves, the found actors are the stored actors of the ids, one per id, in order. */
  lemma {:induction false} FoundAllActors(ids: seq<int>, actors: map<int, Actor>)
    requires forall i :: 0 <= i < |ids| ==> ids[i] in actors
    ensures FoundActors(ids, actors) == ActorsAt(ids, actors)
    decreases |ids|
  {
    if |ids| > 0 {
      var init := ids[..|ids| - 1];
      FoundAllActors(init, actors);
      var f := FoundActors(ids, actors);
      var a := ActorsAt(ids, actors);
      assert |f| == |a|;
      forall i | 0 <= i < |ids| ensures f[i] == a[i] {
        if i < |ids| - 1 {
          assert f[i] == ActorsAt(init, actors)[i];
        }
      }
    }
  }

  /** The ids of the actors, in order. */
  function IdsOf(actors: seq<Actor>): (r: seq<int>)
    ensures |r| == |actors| && forall i :: 0 <= i < |actors| ==> r[i] == actors[i].id
    decreases |actors|
  {
    if |actors| == 0 then [] else [actors[0].id] + IdsOf(actors[1..])
  }

  /** The actor store files every actor under its own id. */
  ghost predicate ActorsIndexed(actors: map<int, Actor>)
  {
    forall k :: k in actors ==> actors[k].id == k
  }

  /** The linked ids of a media all name stored actors. */
  ghost predicate LinksResolve(ids: seq<int>, actors: map<int, Actor>)
  {
    forall i :: 0 <= i < |ids| ==> ids[i] in actors
  }

  /** Resolving a fully present id list and keeping the ids of what was found gives back the list itself. */
  lemma ResolvedIdsAreInput(ids: seq<int>, actors: map<int, Actor>)
    requires ActorsIndexed(actors) && MissingIds(ids, actors) == []
    ensures LinksResolve(ids, actors)
    ensures IdsOf(FoundActors(ids, actors)) == ids
  {
    NothingMissing(ids, actors);
    FoundAllActors(ids, actors);
    var r := IdsOf(FoundActors(ids, actors));
    assert |r| == |ids|;
    forall i | 0 <= i < |ids| ensures r[i] == ids[i] {
      assert FoundActors(ids, actors)[i] == actors[ids[i]];
    }
  }

  /** The not-found message: the prefix, then the missing ids as `List.toString` prints them. */
  function ActorsNotFoundMessage(missing: seq<int>): (r: string)
    ensures |r| > |ACTORS_NOT_FOUND| + 1 && r[..|ACTORS_NOT_FOUND| + 1] == ACTORS_NOT_FOUND + "["
    ensures r[|r| - 1] == ']'
  {
    ACTORS_NOT_FOUND + LongListToString(missing)
  }

  /** The not-found message names every id the actor store lacks. */
  lemma NotFoundMessageNamesEachMissing(ids: seq<int>, actors: map<int, Actor>, x: int)
    requires x in ids && x !in actors
    ensures exists k :: OccursAt(ActorsNotFoundMessage(MissingIds(ids, actors)), LongToString(x), k)
  {
    var missing := MissingIds(ids, actors);
    MissingIdsMembers(ids, actors);
    var i :| 0 <= i < |missing| && missing[i] == x;
    LongListMentionsEach(missing, i);
    var k :| OccursAt(LongListToString(missing), LongToString(x), k);
    OccursWithin(ACTORS_NOT_FOUND, LongListToString(missing), "", LongToString(x), k);
    assert ActorsNotFoundMessage(missing) == ACTORS_NOT_FOUND + LongListToString(missing) + "";
  }

  // ------------------------------------------------------------- validation

  /** The messages `register` collects: title, then type. */
  function RegisterErrors(c: MidiaCommand): (errs: seq<string>)
    ensures |errs| <= 2
    ensures TITLE_REQUIRED in errs <==> c.title.None? || TrimEmpty(c.title.value)
    ensures TYPE_REQUIRED in errs <==> c.midiaType.None?
  {
    (if c.title.None? || TrimEmpty(c.title.value) then [TITLE_REQUIRED] else [])
    + (if c.midiaType.None? then [TYPE_REQUIRED] else [])
  }

  /** `register` collects nothing exactly when a non-blank title and a type are given; a command with neither collects both messages, title first. */
  lemma RegisterErrorsCharacterised(c: MidiaCommand)
    ensures RegisterErrors(c) == [] <==> c.title.Some? && !TrimEmpty(c.title.value) && c.midiaType.Some?
    ensures c.title.None? && c.midiaType.None? ==> RegisterErrors(c) == [TITLE_REQUIRED, TYPE_REQUIRED]
  {
  }

  /** The detailed response for a stored media, its actors looked up in the actor store. */
  function DetailedOf(m: Midia, actors: map<int, Actor>): (r: DetailedMidiaResponse)
    requires LinksResolve(m.actorIds, actors)
    ensures r.id == m.id && r.title == m.title && r.midiaType == m.midiaType
    ensures r.releaseYear == m.releaseYear && r.director == m.director && r.synopsis == m.synopsis
    ensures r.genre == m.genre && r.posterUrl == m.posterUrl
    ensures |r.actors| == |m.actorIds|
    ensures forall i :: 0 <= i < |m.actorIds| ==> r.actors[i] == ActorSimple(actors[m.actorIds[i]].id, actors[m.actorIds[i]].name)
  {
    Detailed(m.id, m.title, m.midiaType, m.releaseYear, m.director, m.synopsis, m.genre, m.posterUrl,
             Some(ActorsAt(m.actorIds, actors)))
  }

  /** The setters `update` applies in turn: a non-blank title, then every other scalar field that is not null. */
  method PatchScalars(before: Midia, c: MidiaCommand) returns (m: Midia)
    ensures m.id == before.id && m.actorIds == before.actorIds
    ensures m.title == (if c.title.Some? && !TrimEmpty(c.title.value) then c.title.value else before.title)
    ensures m.midiaType == (if c.midiaType.Some? then c.midiaType.value else before.midiaType)
    ensures m.releaseYear == (if c.releaseYear.Some? then c.releaseYear else before.releaseYear)
    ensures m.director == (if c.director.Some? then c.director else before.director)
    ensures m.synopsis == (if c.synopsis.Some? then c.synopsis else before.synopsis)
    ensures m.genre == (if c.genre.Some? then c.genre else before.genre)
    ensures m.posterUrl == (if c.posterUrl.Some? then c.posterUrl else before.posterUrl)
  {
    m := before;
    if c.title.Some? && !TrimEmpty(c.title.value) {
      m := m.(title := c.title.value);
    }
    if c.midiaType.Some? {
      m := m.(midiaType := c.midiaType.value);
    }
    if c.releaseYear.Some? {
      m := m.(releaseYear := c.releaseYear);
    }
    if c.director.Some? {
      m := m.(director := c.director);
    }
    if c.synopsis.Some? {
      m := m.(synopsis := c.synopsis);
    }
    if c.genre.Some? {
      m := m.(genre := c.genre);
    }
    if c.posterUrl.Some? {
      m := m.(posterUrl := c.posterUrl);
    }
  }

  class MidiaService {
    var midias: map<int, Midia>
    var order: seq<int>
    var nextId: int
    /** The actor repository, which this service only reads. */
    const actors: map<int, Actor>

    ghost predicate Valid()
      reads this
    {
      && Lists(order, midias.Keys, nextId)
      && ActorsIndexed(actors)
      && (forall id :: id in midias ==> midias[id].id == id && LinksResolve(midias[id].actorIds, actors))
    }

    constructor (actors: map<int, Actor>)
      requires ActorsIndexed(actors)
      ensures Valid() && midias == map[] && order == [] && this.actors == actors
    {
      midias := map[];
      order := [];
      nextId := 1;
      this.actors := actors;
    }

    /** The loop `register` and `update` share: look every id up, keeping the found actors and the missing ids apart. */
    method ResolveActors(ids: seq<int>) returns (found: seq<Actor>, missing: seq<int>)
      ensures found == FoundActors(ids, actors)
      ensures missing == MissingIds(ids, actors)
    {
      found, missing := [], [];
      var i := 0;
      while i < |ids|
        invariant 0 <= i <= |ids|
        invariant found == FoundActors(ids[..i], actors)
        invariant missing == MissingIds(ids[..i], actors)
      {
        assert ids[..i + 1][..i] == ids[..i];
        var actorId := ids[i];
        if actorId in actors {
          found := found + [actors[actorId]];
        } else {
          missing := missing + [actorId];
        }
        i := i + 1;
      }
      assert ids[..i] == ids;
    }

    /** The ids the actor loop saves: when no id is missing, the supplied ids themselves, each naming a stored actor. */
    method LinkedIds(ids: seq<int>) returns (links: seq<int>, missing: seq<int>)
      requires ActorsIndexed(actors)
      ensures missing == MissingIds(ids, actors)
      ensures missing == [] ==> links == ids && LinksResolve(ids, actors)
    {
      var found;
      found, missing := ResolveActors(ids);
      links := [];
      if missing == [] {
        ResolvedIdsAreInput(ids, actors);
        links := IdsOf(found);
      }
    }

    /** The actor part of `update`: an empty list unlinks every actor, any other list is resolved and, when nothing is missing, replaces the links. */
    method Relink(m: Midia, ids: seq<int>) returns (relinked: Midia, missing: seq<int>)
      requires ActorsIndexed(actors)
      ensures missing == MissingIds(ids, actors)
      ensures missing == [] ==> relinked == m.(actorIds := ids) && LinksResolve(ids, actors)
    {
      if ids == [] {
        return m.(actorIds := []), [];
      }
      var links;
      links, missing := LinkedIds(ids);
      relinked := m.(actorIds := links);
    }

    /** `midiaRepository.save` of a new media item: it is stored under the next fresh id. */
    method SaveNew(midia: Midia)
      requires Valid() && midia.id == nextId && LinksResolve(midia.actorIds, actors)
      modifies this
      ensures Valid()
      ensures old(nextId) !in old(midias)
      ensures midias == old(midias)[old(nextId) := midia]
      ensures order == old(order) + [old(nextId)] && nextId == old(nextId) + 1
    {
      ListsInsert(order, midias.Keys, nextId);
      midias := midias[nextId := midia];
      order := order + [nextId];
      nextId := nextId + 1;
    }

    /** `register`. */
    method Register(cmd: Option<MidiaCommand>) returns (r: Outcome<MidiaResponse>)
      requires Valid()
      modifies this
      ensures Valid()
      ensures cmd.None? ==> r == Validation([MIDIA_DATA_REQUIRED]) && unchanged(this)
      ensures cmd.Some? && RegisterErrors(cmd.value) != [] ==> r == Validation(RegisterErrors(cmd.value)) && unchanged(this)
      ensures cmd.Some? && RegisterErrors(cmd.value) == [] && cmd.value.actorIds.Some?
              && MissingIds(cmd.value.actorIds.value, actors) != [] ==>
        r == NotFound(ActorsNotFoundMessage(MissingIds(cmd.value.actorIds.value, actors))) && unchanged(this)
      ensures r.Ok? ==>
        var c := cmd.value;
        var id := old(nextId);
        && cmd.Some? && c.title.Some? && c.midiaType.Some?
        && id !in old(midias)
        && midias == old(midias)[id := Midia(id, c.title.value, c.midiaType.value, c.releaseYear, c.director,
                                             c.synopsis, c.genre, c.posterUrl,
                                             if c.actorIds.Some? then c.actorIds.value else [])]
        && nextId == id + 1
        && r.value == MidiaResponse(id, c.title.value, c.midiaType.value)
      ensures (&& cmd.Some? && RegisterErrors(cmd.value) == []
               && (cmd.value.actorIds.None? || MissingIds(cmd.value.actorIds.value, actors) == [])) ==> r.Ok?
    {
      if cmd.None? {
        return Validation([MIDIA_DATA_REQUIRED]);
      }
      var c := cmd.value;
      var errors: seq<string> := [];
      if c.title.None? || TrimEmpty(c.title.value) {
        errors := errors + [TITLE_REQUIRED];
      }
      if c.midiaType.None? {
        errors := errors + [TYPE_REQUIRED];
      }
      assert errors == RegisterErrors(c);
      if errors != [] {
        return Validation(errors);
      }
      var links: seq<int> := [];
      if c.actorIds.Some? && c.actorIds.value != [] {
        var missing;
        links, missing := LinkedIds(c.actorIds.value);
        if missing != [] {
          return NotFound(ActorsNotFoundMessage(missing));
        }
      }
      var midia := Midia(nextId, c.title.value, c.midiaType.value, c.releaseYear, c.director,
                         c.synopsis, c.genre, c.posterUrl, links);
      SaveNew(midia);
      r := Ok(SummaryOf(midia));
    }

    /** `remove`. */
    method Remove(id: Option<int>) returns (r: Outcome<MidiaResponse>)
      requires Valid()
      modifies this
      ensures Valid()
      ensures id.None? ==> r == Validation([MIDIA_ID_REQUIRED]) && unchanged(this)
      ensures id.Some? && id.value !in old(midias) ==> r == NotFound(NO_MIDIA_FOR_ID) && unchanged(this)
      ensures id.Some? && id.value in old(midias) ==>
        && r == Ok(SummaryOf(old(midias)[id.value]))
        && midias == old(midias) - {id.value}
        && id.value !in midias
        && nextId == old(nextId)
    {
      if id.None? {
        return Validation([MIDIA_ID_REQUIRED]);
      }
      if id.value !in midias {
        return NotFound(NO_MIDIA_FOR_ID);
      }
      var midia := midias[id.value];
      ListsRemove(order, midias.Keys, nextId, id.value);
      midias := midias - {id.value};
      order := Without(order, id.value);
      r := Ok(SummaryOf(midia));
    }

    /** `update`. */
    method Update(id: Option<int>, info: Option<MidiaCommand>) returns (r: Outcome<MidiaResponse>)
      requires Valid()
      modifies this
      ensures Valid()
      ensures id.None? ==> r == Validation([MIDIA_ID_REQUIRED]) && unchanged(this)
      ensures id.Some? && info.None? ==> r == Validation([MIDIA_DATA_REQUIRED]) && unchanged(this)
      ensures id.Some? && info.Some? && id.value !in old(midias) ==> r == NotFound(NO_MIDIA_FOR_ID) && unchanged(this)
      ensures id.Some? && info.Some? && id.value in old(midias)
              && info.value.actorIds.Some? && MissingIds(info.value.actorIds.value, actors) != [] ==>
        r == NotFound(ActorsNotFoundMessage(MissingIds(info.value.actorIds.value, actors))) && unchanged(this)
      ensures r.Ok? ==>
        var key := id.value;
        var c := info.value;
        var before := old(midias)[key];
        && id.Some? && info.Some? && key in old(midias) && key in midias
        && midias.Keys == old(midias).Keys
        && (forall k :: k in midias && k != key ==> midias[k] == old(midias)[k])
        && order == old(order) && nextId == old(nextId)
        && midias[key].id == key
        && midias[key].title == (if c.title.Some? && !TrimEmpty(c.title.value) then c.title.value else before.title)
        && midias[key].midiaType == (if c.midiaType.Some? then c.midiaType.value else before.midiaType)
        && midias[key].releaseYear == (if c.releaseYear.Some? then c.releaseYear else before.releaseYear)
        && midias[key].director == (if c.director.Some? then c.director else before.director)
        && midias[key].synopsis == (if c.synopsis.Some? then c.synopsis else before.synopsis)
        && midias[key].genre == (if c.genre.Some? then c.genre else before.genre)
        && midias[key].posterUrl == (if c.posterUrl.Some? then c.posterUrl else before.posterUrl)
        && midias[key].actorIds == (if c.actorIds.Some? then c.actorIds.value else before.actorIds)
        && r.value == SummaryOf(midias[key])
      ensures (&& id.Some? && info.Some? && id.value in old(midias)
               && (info.value.actorIds.None? || MissingIds(info.value.actorIds.value, actors) == [])) ==> r.Ok?
    {
      if id.None? {
        return Validation([MIDIA_ID_REQUIRED]);
      }
      if info.None? {
        return Validation([MIDIA_DATA_REQUIRED]);
      }
      if id.value !in midias {
        return NotFound(NO_MIDIA_FOR_ID);
      }
      var c := info.value;
      var midia := PatchScalars(midias[id.value], c);
      if c.actorIds.Some? {
        var missing;
        midia, missing := Relink(midia, c.actorIds.value);
        if missing != [] {
          return NotFound(ActorsNotFoundMessage(missing));
        }
      }
      midias := midias[id.value := midia];
      r := Ok(SummaryOf(midia));
    }

    /** `getMidia`. */
    method GetMidia(id: Option<int>) returns (r: Outcome<DetailedMidiaResponse>)
      requires Valid()
      ensures id.None? ==> r == Validation([GET_ID_REQUIRED])
      ensures id.Some? && id.value !in midias ==> r == NotFound(MIDIA_NOT_FOUND)
      ensures id.Some? && id.value in midias ==>
        var m := midias[id.value];
        && r.Ok? && r.value.id == id.value && r.value.title == m.title && r.value.midiaType == m.midiaType
        && r.value.releaseYear == m.releaseYear && r.value.director == m.director && r.value.synopsis == m.synopsis
        && r.value.genre == m.genre && r.value.posterUrl == m.posterUrl
        && |r.value.actors| == |m.actorIds|
        && forall i :: 0 <= i < |m.actorIds| ==> r.value.actors[i] == ActorSimple(m.actorIds[i], actors[m.actorIds[i]].name)
    {
      if id.None? {
        return Validation([GET_ID_REQUIRED]);
      }
      if id.value !in midias {
        return NotFound(MIDIA_NOT_FOUND);
      }
      var m := midias[id.value];
      assert m.id == id.value && LinksResolve(m.actorIds, actors);
      r := Ok(Detailed(m.id, m.title, m.midiaType, m.releaseYear, m.director, m.synopsis, m.genre, m.posterUrl,
                       Some(ActorsAt(m.actorIds, actors))));
    }

    /** `getAllMidias(PageRequest.of(page, size))`: an empty page is reported as not found. */
    method GetAllMidias(page: nat, size: nat) returns (r: Outcome<seq<DetailedMidiaResponse>>)
      requires Valid() && size > 0
      ensures PageOf(order, page, size) == [] ==> r == NotFound(NO_MIDIAS)
      ensures PageOf(order, page, size) != [] ==>
        var ids := PageOf(order, page, size);
        && r.Ok? && |r.value| == |ids|
        && forall i :: 0 <= i < |ids| ==> ids[i] in midias && r.value[i] == DetailedOf(midias[ids[i]], actors)
    {
      var ids := PageOf(order, page, size);
      forall i | 0 <= i < |ids| ensures ids[i] in midias {
        var start := page * size;
        assert ids[i] == order[start + i];
      }
      if ids == [] {
        return NotFound(NO_MIDIAS);
      }
      var store, known := midias, actors;
      r := Ok(seq(|ids|, i requires 0 <= i < |ids| && ids[i] in store && LinksResolve(store[ids[i]].actorIds, known) =>
                          DetailedOf(store[ids[i]], known)));
    }
  }
}
