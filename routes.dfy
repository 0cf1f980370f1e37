/** The rules of the six favourite route handlers, stated on the current user's
    favourite list as a value. Each rule looks the entity up in its catalogue,
    applies the handler's guards and gives the response together with the list
    the handler leaves behind. */
module Routes {
  import opened Wrappers
  import opened Json
  import opened Tables
  import opened Models

  /** What a handler hands back: a JSON body with a status code, or a raised
      `APIException` carrying a message and a status code. */
  datatype Response =
    | Reply(body: Json, status: int)
    | Raised(message: string, status: int)

  /** A handler's response and the favourite list after it. */
  datatype Step<T> = Step(response: Response, favorites: seq<T>)

  /** `POST /favorite/planet/<id>`. */
  function AddFavPlanetStep(planets: seq<Planet>, favs: seq<Planet>, planetId: int): (s: Step<Planet>)
    ensures s.response.Reply? && s.response.status in {404, 400, 201}
    ensures s.response.status == 404 <==> forall k :: 0 <= k < |planets| ==> planets[k].id != planetId
    ensures s.response.status == 404 ==> s.response.body == Message("Planet not found")
    ensures s.response.status == 400 ==>
              s.response.body == Message("Planet already in favorites") &&
              exists p :: p in favs && p.id == planetId
    ensures s.response.status != 201 ==> s.favorites == favs
    ensures s.response.status == 201 ==>
              |s.favorites| == |favs| + 1 && s.favorites[..|favs|] == favs &&
              var p := s.favorites[|favs|];
              p in planets && p !in favs && p.id == planetId &&
              s.response.body == JObject([("message", JString("Planet added to favorites")),
                                          ("planet", p.Serialize())])
  {
    match Get(planets, PlanetId, planetId)
    case None => Step(Reply(Message("Planet not found"), 404), favs)
    case Some(p) =>
      if p in favs then Step(Reply(Message("Planet already in favorites"), 400), favs)
      else
        Step(Reply(JObject([("message", JString("Planet added to favorites")), ("planet", p.Serialize())]), 201),
             favs + [p])
  }

  /** `DELETE /favorite/planet/<id>`: an unknown planet and a planet that is not a
      favourite are rejected alike, with 404. */
  function RemoveFavPlanetStep(planets: seq<Planet>, favs: seq<Planet>, planetId: int): (s: Step<Planet>)
    ensures s.response.Reply? && s.response.status in {404, 200}
    ensures s.response.status == 404 <==>
              (forall k :: 0 <= k < |planets| ==> planets[k].id != planetId) ||
              Get(planets, PlanetId, planetId).value !in favs
    ensures s.response.status == 404 ==>
              s == Step(Reply(Message("Planet not in favorites"), 404), favs)
    ensures s.response.status == 200 ==>
              var p := Get(planets, PlanetId, planetId).value;
              p in favs && p.id == planetId && s.favorites == RemoveFirst(favs, p) &&
              s.response.body == JObject([("message", JString("Planet removed from favorites")),
                                          ("planet", p.Serialize())])
  {
    var found := Get(planets, PlanetId, planetId);
    if found.None? || found.value !in favs then Step(Reply(Message("Planet not in favorites"), 404), favs)
    else
      var p := found.value;
      Step(Reply(JObject([("message", JString("Planet removed from favorites")), ("planet", p.Serialize())]), 200),
           RemoveFirst(favs, p))
  }

  /** `POST /favorite/people/<id>`. */
  function AddFavoritePeopleStep(people: seq<People>, favs: seq<People>, peopleId: int): (s: Step<People>)
    ensures s.response.Reply? && s.response.status in {404, 400, 201}
    ensures s.response.status == 404 <==> forall k :: 0 <= k < |people| ==> people[k].id != peopleId
    ensures s.response.status == 404 ==> s.response.body == Message("Character not found")
    ensures s.response.status == 400 ==>
              s.response.body == Message("Character already in favorites") &&
              exists p :: p in favs && p.id == peopleId
    ensures s.response.status != 201 ==> s.favorites == favs
    ensures s.response.status == 201 ==>
              |s.favorites| == |favs| + 1 && s.favorites[..|favs|] == favs &&
              var p := s.favorites[|favs|];
              p in people && p !in favs && p.id == peopleId &&
              s.response.body == JObject([("message", JString(p.name + " added to favorites")),
                                          ("character", p.Serialize())])
  {
    match Get(people, PeopleId, peopleId)
    case None => Step(Reply(Message("Character not found"), 404), favs)
    case Some(p) =>
      if p in favs then Step(Reply(Message("Character already in favorites"), 400), favs)
      else
        Step(Reply(JObject([("message", JString(p.name + " added to favorites")), ("character", p.Serialize())]), 201),
             favs + [p])
  }

  /** `DELETE /favorite/people/<id>`: unlike the planet and starship handlers it tells
      an unknown character (404) from one that is not a favourite (400). */
  function DeleteFavoritePeopleStep(people: seq<People>, favs: seq<People>, peopleId: int): (s: Step<People>)
    ensures s.response.Reply? && s.response.status in {404, 400, 200}
    ensures s.response.status == 404 <==> forall k :: 0 <= k < |people| ==> people[k].id != peopleId
    ensures s.response.status == 404 ==> s == Step(Reply(Message("Character not found"), 404), favs)
    ensures s.response.status == 400 <==>
              s.response.status != 404 && Get(people, PeopleId, peopleId).value !in favs
    ensures s.response.status == 400 ==> s == Step(Reply(Message("Character not in favorites"), 400), favs)
    ensures s.response.status == 200 ==>
              var p := Get(people, PeopleId, peopleId).value;
              p in favs && p.id == peopleId && s.favorites == RemoveFirst(favs, p) &&
              s.response.body == JObject([("message", JString(p.name + " removed from favorites")),
                                          ("character", p.Serialize())])
  {
    match Get(people, PeopleId, peopleId)
    case None => Step(Reply(Message("Character not found"), 404), favs)
    case Some(p) =>
      if p !in favs then Step(Reply(Message("Character not in favorites"), 400), favs)
      else
        Step(Reply(JObject([("message", JString(p.name + " removed from favorites")), ("character", p.Serialize())]), 200),
             RemoveFirst(favs, p))
  }

  /** `POST /favorite/starship/<id>`. */
  function AddFavStarshipStep(starships: seq<Starship>, favs: seq<Starship>, starshipId: int): (s: Step<Starship>)
    ensures s.response.Reply? && s.response.status in {404, 400, 201}
    ensures s.response.status == 404 <==> forall k :: 0 <= k < |starships| ==> starships[k].id != starshipId
    ensures s.response.status == 404 ==> s.response.body == Message("Starship not found")
    ensures s.response.status == 400 ==>
              s.response.body == Message("Starship already in favorites") &&
              exists p :: p in favs && p.id == starshipId
    ensures s.response.status != 201 ==> s.favorites == favs
    ensures s.response.status == 201 ==>
              |s.favorites| == |favs| + 1 && s.favorites[..|favs|] == favs &&
              var p := s.favorites[|favs|];
              p in starships && p !in favs && p.id == starshipId &&
              s.response.body == JObject([("message", JString("Starship added to favorites")),
                                          ("starship", p.Serialize())])
  {
    match Get(starships, StarshipId, starshipId)
    case None => Step(Reply(Message("Starship not found"), 404), favs)
    case Some(p) =>
      if p in favs then Step(Reply(Message("Starship already in favorites"), 400), favs)
      else
        Step(Reply(JObject([("message", JString("Starship added to favorites")), ("starship", p.Serialize())]), 201),
             favs + [p])
  }

  /** `DELETE /favorite/starship/<id>`: like the planet handler, 404 in both failure cases. */
  function RemoveFavStarshipStep(starships: seq<Starship>, favs: seq<Starship>, starshipId: int): (s: Step<Starship>)
    ensures s.response.Reply? && s.response.status in {404, 200}
    ensures s.response.status == 404 <==>
              (forall k :: 0 <= k < |starships| ==> starships[k].id != starshipId) ||
              Get(starships, StarshipId, starshipId).value !in favs
    ensures s.response.status == 404 ==>
              s == Step(Reply(Message("Starship not in favorites"), 404), favs)
    ensures s.response.status == 200 ==>
              var p := Get(starships, StarshipId, starshipId).value;
              p in favs && p.id == starshipId && s.favorites == RemoveFirst(favs, p) &&
              s.response.body == JObject([("message", JString("Starship removed from favorites")),
                                          ("starship", p.Serialize())])
  {
    var found := Get(starships, StarshipId, starshipId);
    if found.None? || found.value !in favs then Step(Reply(Message("Starship not in favorites"), 404), favs)
    else
      var p := found.value;
      Step(Reply(JObject([("message", JString("Starship removed from favorites")), ("starship", p.Serialize())]), 200),
           RemoveFirst(favs, p))
  }

  // Laws of the planet handlers.

  /** Both planet handlers keep the favourite list valid: only catalogue rows, no repeats. */
  lemma PlanetStepsKeepValid(planets: seq<Planet>, favs: seq<Planet>, planetId: int)
    requires FavoritesValid(planets, favs)
    ensures FavoritesValid(planets, AddFavPlanetStep(planets, favs, planetId).favorites)
    ensures FavoritesValid(planets, RemoveFavPlanetStep(planets, favs, planetId).favorites)
  {
    var found := Get(planets, PlanetId, planetId);
    if found.Some? {
      if found.value !in favs {
        NoDuplicatesAppend(favs, found.value);
      } else {
        NoDuplicatesRemoveFirst(favs, found.value);
      }
    }
  }

  /** A successful add followed by a remove of the same planet succeeds and gives back
      exactly the original list. */
  lemma AddThenRemovePlanet(planets: seq<Planet>, favs: seq<Planet>, planetId: int)
    ensures var a := AddFavPlanetStep(planets, favs, planetId);
            a.response.status == 201 ==>
              var d := RemoveFavPlanetStep(planets, a.favorites, planetId);
              d.response.status == 200 && d.favorites == favs
  {
    var a := AddFavPlanetStep(planets, favs, planetId);
    if a.response.status == 201 {
      var p := Get(planets, PlanetId, planetId).value;
      assert a.favorites == favs + [p];
      RemoveFirstOfAppend(favs, p);
      assert p in a.favorites;
    }
  }

  /** Adding the same planet twice: the second add is rejected with 400 and changes nothing. */
  lemma AddPlanetTwice(planets: seq<Planet>, favs: seq<Planet>, planetId: int)
    ensures var a := AddFavPlanetStep(planets, favs, planetId);
            a.response.status == 201 ==>
              AddFavPlanetStep(planets, a.favorites, planetId) ==
                Step(Reply(Message("Planet already in favorites"), 400), a.favorites)
  {
    var a := AddFavPlanetStep(planets, favs, planetId);
    if a.response.status == 201 {
      assert a.favorites[|favs|] in a.favorites;
    }
  }

  /** Removing the same planet twice from a list without repeats: the second remove is
      rejected with 404 and changes nothing. */
  lemma RemovePlanetTwice(planets: seq<Planet>, favs: seq<Planet>, planetId: int)
    requires NoDuplicates(favs)
    ensures var d := RemoveFavPlanetStep(planets, favs, planetId);
            d.response.status == 200 ==>
              RemoveFavPlanetStep(planets, d.favorites, planetId) ==
                Step(Reply(Message("Planet not in favorites"), 404), d.favorites)
  {
    var found := Get(planets, PlanetId, planetId);
    if found.Some? && found.value in favs {
      NoDuplicatesRemoveFirst(favs, found.value);
    }
  }

  // Laws of the people handlers.

  /** Both people handlers keep the favourite list valid. */
  lemma PeopleStepsKeepValid(people: seq<People>, favs: seq<People>, peopleId: int)
    requires FavoritesValid(people, favs)
    ensures FavoritesValid(people, AddFavoritePeopleStep(people, favs, peopleId).favorites)
    ensures FavoritesValid(people, DeleteFavoritePeopleStep(people, favs, peopleId).favorites)
  {
    var found := Get(people, PeopleId, peopleId);
    if found.Some? {
      if found.value !in favs {
        NoDuplicatesAppend(favs, found.value);
      } else {
        NoDuplicatesRemoveFirst(favs, found.value);
      }
    }
  }

  /** A successful add followed by a delete of the same character succeeds and gives back
      exactly the original list. */
  lemma AddThenDeletePeople(people: seq<People>, favs: seq<People>, peopleId: int)
    ensures var a := AddFavoritePeopleStep(people, favs, peopleId);
            a.response.status == 201 ==>
              var d := DeleteFavoritePeopleStep(people, a.favorites, peopleId);
              d.response.status == 200 && d.favorites == favs
  {
    var a := AddFavoritePeopleStep(people, favs, peopleId);
    if a.response.status == 201 {
      var p := Get(people, PeopleId, peopleId).value;
      assert a.favorites == favs + [p];
      RemoveFirstOfAppend(favs, p);
      assert p in a.favorites;
    }
  }

  /** Adding the same character twice: the second add is rejected with 400 and changes nothing. */
  lemma AddPeopleTwice(people: seq<People>, favs: seq<People>, peopleId: int)
    ensures var a := AddFavoritePeopleStep(people, favs, peopleId);
            a.response.status == 201 ==>
              AddFavoritePeopleStep(people, a.favorites, peopleId) ==
                Step(Reply(Message("Character already in favorites"), 400), a.favorites)
  {
    var a := AddFavoritePeopleStep(people, favs, peopleId);
    if a.response.status == 201 {
      assert a.favorites[|favs|] in a.favorites;
    }
  }

  /** Deleting the same character twice from a list without repeats: the second delete
      is rejected with 400 and changes nothing. */
  lemma DeletePeopleTwice(people: seq<People>, favs: seq<People>, peopleId: int)
    requires NoDuplicates(favs)
    ensures var d := DeleteFavoritePeopleStep(people, favs, peopleId);
            d.response.status == 200 ==>
              DeleteFavoritePeopleStep(people, d.favorites, peopleId) ==
                Step(Reply(Message("Character not in favorites"), 400), d.favorites)
  {
    var found := Get(people, PeopleId, peopleId);
    if found.Some? && found.value in favs {
      NoDuplicatesRemoveFirst(favs, found.value);
    }
  }

  // Laws of the starship handlers.

  /** Both starship handlers keep the favourite list valid. */
  lemma StarshipStepsKeepValid(starships: seq<Starship>, favs: seq<Starship>, starshipId: int)
    requires FavoritesValid(starships, favs)
    ensures FavoritesValid(starships, AddFavStarshipStep(starships, favs, starshipId).favorites)
    ensures FavoritesValid(starships, RemoveFavStarshipStep(starships, favs, starshipId).favorites)
  {
    var found := Get(starships, StarshipId, starshipId);
    if found.Some? {
      if found.value !in favs {
        NoDuplicatesAppend(favs, found.value);
      } else {
        NoDuplicatesRemoveFirst(favs, found.value);
      }
    }
  }

  /** A successful add followed by a remove of the same starship succeeds and gives back
      exactly the original list. */
  lemma AddThenRemoveStarship(starships: seq<Starship>, favs: seq<Starship>, starshipId: int)
    ensures var a := AddFavStarshipStep(starships, favs, starshipId);
            a.response.status == 201 ==>
              var d := RemoveFavStarshipStep(starships, a.favorites, starshipId);
              d.response.status == 200 && d.favorites == favs
  {
    var a := AddFavStarshipStep(starships, favs, starshipId);
    if a.response.status == 201 {
      var p := Get(starships, StarshipId, starshipId).value;
      assert a.favorites == favs + [p];
      RemoveFirstOfAppend(favs, p);
      assert p in a.favorites;
    }
  }

  /** Adding the same starship twice: the second add is rejected with 400 and changes nothing. */
  lemma AddStarshipTwice(starships: seq<Starship>, favs: seq<Starship>, starshipId: int)
    ensures var a := AddFavStarshipStep(starships, favs, starshipId);
            a.response.status == 201 ==>
              AddFavStarshipStep(starships, a.favorites, starshipId) ==
                Step(Reply(Message("Starship already in favorites"), 400), a.favorites)
  {
    var a := AddFavStarshipStep(starships, favs, starshipId);
    if a.response.status == 201 {
      assert a.favorites[|favs|] in a.favorites;
    }
  }

  /** Removing the same starship twice from a list without repeats: the second remove is
      rejected with 404 and changes nothing. */
  lemma RemoveStarshipTwice(starships: seq<Starship>, favs: seq<Starship>, starshipId: int)
    requires NoDuplicates(favs)
    ensures var d := RemoveFavStarshipStep(starships, favs, starshipId);
            d.response.status == 200 ==>
              RemoveFavStarshipStep(starships, d.favorites, starshipId) ==
                Step(Reply(Message("Starship not in favorites"), 404), d.favorites)
  {
    var found := Get(starships, StarshipId, starshipId);
    if found.Some? && found.value in favs {
      NoDuplicatesRemoveFirst(favs, found.value);
    }
  }
}
