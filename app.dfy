/** The database as the route handlers see it, and the handlers themselves. The
    read handlers are functions of the stored tables; the six favourite handlers
    mutate the current user's favourite lists in place, each proved against its
    rule in module Routes. */
module App {
  import opened Wrappers
  import opened Json
  import opened Tables
  import opened Models
  import opened Routes

  /** The fixed identifier that stands in for authentication. */
  const CURRENT_USER_ID := 1

  /** The body of `GET /users/favorites` for the given lists: each list serialised
      under its own key, in stored order. */
  function FavoritesBody(planets: seq<Planet>, people: seq<People>, starships: seq<Starship>): (j: Json)
    ensures j.JObject? && Keys(j.members) == ["favorite_planets", "favorite_people", "favorite_starships"]
    ensures DecodeArray(Member(j, "favorite_planets"), DecodePlanet) == Some(planets)
    ensures DecodeArray(Member(j, "favorite_people"), DecodePeople) == Some(people)
    ensures DecodeArray(Member(j, "favorite_starships"), DecodeStarship) == Some(starships)
    ensures Member(j, "favorite_planets") == Some(JArray(SerializeAll(planets, PlanetJson)))
    ensures Member(j, "favorite_people") == Some(JArray(SerializeAll(people, PeopleJson)))
    ensures Member(j, "favorite_starships") == Some(JArray(SerializeAll(starships, StarshipJson)))
  {
    var pa := JArray(SerializeAll(planets, PlanetJson));
    var ea := JArray(SerializeAll(people, PeopleJson));
    var sa := JArray(SerializeAll(starships, StarshipJson));
    var members := [("favorite_planets", pa), ("favorite_people", ea), ("favorite_starships", sa)];
    FindAt(members, 0);
    FindAt(members, 1);
    FindAt(members, 2);
    assert Member(JObject(members), "favorite_planets") == Some(pa);
    assert Member(JObject(members), "favorite_people") == Some(ea);
    assert Member(JObject(members), "favorite_starships") == Some(sa);
    PlanetListRoundTrip(planets);
    PeopleListRoundTrip(people);
    StarshipListRoundTrip(starships);
    assert DecodeArray(Some(pa), DecodePlanet) == Some(planets);
    assert DecodeArray(Some(ea), DecodePeople) == Some(people);
    assert DecodeArray(Some(sa), DecodeStarship) == Some(starships);
    assert Keys(members) == ["favorite_planets", "favorite_people", "favorite_starships"];
    JObject(members)
  }

  class Store {
    var people: seq<People>
    var planets: seq<Planet>
    var starships: seq<Starship>
    var users: seq<User>

    /** The database constraints: primary keys, the unique email, and the foreign and
        composite primary keys of the three favourites join tables. */
    ghost predicate Valid()
      reads this, users
    {
      UniqueKeys(people, PeopleId) && UniqueKeys(planets, PlanetId) &&
      UniqueKeys(starships, StarshipId) && UniqueKeys(users, UserId) && UniqueEmails(users) &&
      forall u :: u in users ==>
        FavoritesValid(people, u.peopleFavorite) && FavoritesValid(planets, u.planetFavorite) &&
        FavoritesValid(starships, u.starshipFavorite)
    }

    /** Each user's id paired with that user's list, for the three relations. */
    ghost function PeopleOwners(): seq<(int, seq<People>)>
      reads this, users
    {
      seq(|users|, k reads this, users requires 0 <= k < |users| => (users[k].id, users[k].peopleFavorite))
    }

    ghost function PlanetOwners(): seq<(int, seq<Planet>)>
      reads this, users
    {
      seq(|users|, k reads this, users requires 0 <= k < |users| => (users[k].id, users[k].planetFavorite))
    }

    ghost function StarshipOwners(): seq<(int, seq<Starship>)>
      reads this, users
    {
      seq(|users|, k reads this, users requires 0 <= k < |users| => (users[k].id, users[k].starshipFavorite))
    }

    /** In a valid store none of the three join tables `favorites_people`,
        `favorites_planet`, `favorites_starship` holds a (user, entity) pair twice. */
    lemma JoinTablesUnique()
      requires Valid()
      ensures NoDuplicates(JoinTable(PeopleOwners(), PeopleId))
      ensures NoDuplicates(JoinTable(PlanetOwners(), PlanetId))
      ensures NoDuplicates(JoinTable(StarshipOwners(), StarshipId))
    {
      assert forall k :: 0 <= k < |users| ==> users[k] in users;
      JoinTableUnique(PeopleOwners(), people, PeopleId);
      JoinTableUnique(PlanetOwners(), planets, PlanetId);
      JoinTableUnique(StarshipOwners(), starships, StarshipId);
    }

    /** The unique constraint on `user.email`: in a valid store an email names at most one user. */
    lemma EmailIdentifiesUser(u: User, v: User)
      requires Valid() && u in users && v in users
      ensures u.email == v.email <==> u == v
    {
      var i :| 0 <= i < |users| && users[i] == u;
      var j :| 0 <= j < |users| && users[j] == v;
      assert u.email == v.email ==> i == j;
    }

    /** `get_current_user`: the user whose id is 1, or the raised "User not found" (404). */
    function GetCurrentUser(): (r: Result<User, Response>)
      reads this
      ensures r.Ok? ==> r.value in users && r.value.id == CURRENT_USER_ID
      ensures r.Fail? <==> forall k :: 0 <= k < |users| ==> users[k].id != CURRENT_USER_ID
      ensures r.Fail? ==> r.error == Raised("User not found", 404)
    {
      match Get(users, UserId, CURRENT_USER_ID)
      case Some(u) => Ok(u)
      case None => Fail(Raised("User not found", 404))
    }

    /** The objects a favourite handler may change: the current user, if there is one. */
    function CurrentUserFrame(): set<User>
      reads this
    {
      set u | u in users && u.id == CURRENT_USER_ID
    }

    /** `GET /people`: every People row, serialised, in the order the table is listed. */
    function GetAllPeople(): (r: Response)
      reads this
      ensures r.Reply? && r.status == 200 && r.body.JArray?
      ensures DecodeAll(r.body.items, DecodePeople) == Some(people)
      ensures |r.body.items| == |people| &&
              forall k :: 0 <= k < |people| ==> r.body.items[k] == people[k].Serialize()
    {
      PeopleListRoundTrip(people);
      Reply(JArray(SerializeAll(people, PeopleJson)), 200)
    }

    /** `GET /people/<id>`. */
    function GetOnePerson(peopleId: int): (r: Response)
      reads this
      ensures r.Reply? && r.status in {200, 404}
      ensures r.status == 404 <==> forall k :: 0 <= k < |people| ==> people[k].id != peopleId
      ensures r.status == 404 ==> r.body == Message("Person not found")
      ensures r.status == 200 ==>
                var d := DecodePeople(r.body);
                d.Some? && d.value in people && d.value.id == peopleId
      ensures r.status == 200 ==> exists x :: x in people && x.id == peopleId && r.body == x.Serialize()
    {
      match Get(people, PeopleId, peopleId)
      case None => Reply(Message("Person not found"), 404)
      case Some(p) =>
        PeopleRoundTrip(p);
        Reply(p.Serialize(), 200)
    }

    /** `GET /planets`: every Planet row, serialised, in the order the table is listed. */
    function GetAllPlanets(): (r: Response)
      reads this
      ensures r.Reply? && r.status == 200 && r.body.JArray?
      ensures DecodeAll(r.body.items, DecodePlanet) == Some(planets)
      ensures |r.body.items| == |planets| &&
              forall k :: 0 <= k < |planets| ==> r.body.items[k] == planets[k].Serialize()
    {
      PlanetListRoundTrip(planets);
      Reply(JArray(SerializeAll(planets, PlanetJson)), 200)
    }

    /** `GET /planets/<id>`. */
    function GetOnePlanet(planetId: int): (r: Response)
      reads this
      ensures r.Reply? && r.status in {200, 404}
      ensures r.status == 404 <==> forall k :: 0 <= k < |planets| ==> planets[k].id != planetId
      ensures r.status == 404 ==> r.body == Message("Planet not found")
      ensures r.status == 200 ==>
                var d := DecodePlanet(r.body);
                d.Some? && d.value in planets && d.value.id == planetId
      ensures r.status == 200 ==> exists x :: x in planets && x.id == planetId && r.body == x.Serialize()
    {
      match Get(planets, PlanetId, planetId)
      case None => Reply(Message("Planet not found"), 404)
      case Some(p) =>
        PlanetRoundTrip(p);
        Reply(p.Serialize(), 200)
    }

    /** `GET /starships`: every Starship row, serialised, in the order the table is listed. */
    function GetAllStarships(): (r: Response)
      reads this
      ensures r.Reply? && r.status == 200 && r.body.JArray?
      ensures DecodeAll(r.body.items, DecodeStarship) == Some(starships)
      ensures |r.body.items| == |starships| &&
              forall k :: 0 <= k < |starships| ==> r.body.items[k] == starships[k].Serialize()
    {
      StarshipListRoundTrip(starships);
      Reply(JArray(SerializeAll(starships, StarshipJson)), 200)
    }

    /** `GET /starships/<id>`. */
    function GetOneStarship(starshipId: int): (r: Response)
      reads this
      ensures r.Reply? && r.status in {200, 404}
      ensures r.status == 404 <==> forall k :: 0 <= k < |starships| ==> starships[k].id != starshipId
      ensures r.status == 404 ==> r.body == Message("Starship not found")
      ensures r.status == 200 ==>
                var d := DecodeStarship(r.body);
                d.Some? && d.value in starships && d.value.id == starshipId
      ensures r.status == 200 ==> exists x :: x in starships && x.id == starshipId && r.body == x.Serialize()
    {
      match Get(starships, StarshipId, starshipId)
      case None => Reply(Message("Starship not found"), 404)
      case Some(s) =>
        StarshipRoundTrip(s);
        Reply(s.Serialize(), 200)
    }

    /** `GET /users`: every user's public columns, in table order; no element carries a
        password or an active flag. */
    function GetAllUsers(): (r: Response)
      reads this
      ensures r.Reply? && r.status == 200 && r.body.JArray? && |r.body.items| == |users|
      ensures forall k :: 0 <= k < |users| ==>
                r.body.items[k] == users[k].Serialize() &&
                Member(r.body.items[k], "id") == Some(JInt(users[k].id)) &&
                Member(r.body.items[k], "email") == Some(JString(users[k].email)) &&
                Member(r.body.items[k], "password") == None &&
                Member(r.body.items[k], "is_active") == None
    {
      var items := SerializeAll(users, UserJson);
      assert forall k :: 0 <= k < |users| ==> items[k] == users[k].Serialize();
      forall k | 0 <= k < |users| {
        UserSerializeExposes(users[k]);
      }
      Reply(JArray(items), 200)
    }

    /** `GET /users/favorites`: the current user's three favourite lists as they stand,
        each in stored order. */
    function GetUserFavorites(): (r: Response)
      reads this, users
      ensures GetCurrentUser().Fail? ==> r == Raised("User not found", 404)
      ensures GetCurrentUser().Ok? ==>
                var u := GetCurrentUser().value;
                r.Reply? && r.status == 200 && r.body.JObject? &&
                Keys(r.body.members) == ["favorite_planets", "favorite_people", "favorite_starships"] &&
                DecodeArray(Member(r.body, "favorite_planets"), DecodePlanet) == Some(u.planetFavorite) &&
                DecodeArray(Member(r.body, "favorite_people"), DecodePeople) == Some(u.peopleFavorite) &&
                DecodeArray(Member(r.body, "favorite_starships"), DecodeStarship) == Some(u.starshipFavorite) &&
                Member(r.body, "favorite_planets") == Some(JArray(SerializeAll(u.planetFavorite, PlanetJson))) &&
                Member(r.body, "favorite_people") == Some(JArray(SerializeAll(u.peopleFavorite, PeopleJson))) &&
                Member(r.body, "favorite_starships") == Some(JArray(SerializeAll(u.starshipFavorite, StarshipJson)))
    {
      match GetCurrentUser()
      case Fail(e) => e
      case Ok(u) => Reply(FavoritesBody(u.planetFavorite, u.peopleFavorite, u.starshipFavorite), 200)
    }

    /** `POST /favorite/planet/<id>`: appends the planet to the current user's planet list. */
    method AddFavPlanet(planetId: int) returns (r: Response)
      requires Valid()
      modifies CurrentUserFrame()
      ensures Valid()
      ensures people == old(people) && planets == old(planets) && starships == old(starships)
      ensures users == old(users)
      ensures forall u :: u in users && u.id != CURRENT_USER_ID ==> unchanged(u)
      ensures GetCurrentUser().Fail? ==> r == Raised("User not found", 404)
      ensures GetCurrentUser().Ok? ==>
                var u := GetCurrentUser().value;
                Step(r, u.planetFavorite) == AddFavPlanetStep(planets, old(u.planetFavorite), planetId) &&
                u.peopleFavorite == old(u.peopleFavorite) && u.starshipFavorite == old(u.starshipFavorite)
    {
      var current := GetCurrentUser();
      if current.Fail? {
        return current.error;
      }
      var user := current.value;
      var planet := Get(planets, PlanetId, planetId);
      if planet.None? {
        return Reply(Message("Planet not found"), 404);
      }
      if planet.value in user.planetFavorite {
        return Reply(Message("Planet already in favorites"), 400);
      }
      PlanetStepsKeepValid(planets, user.planetFavorite, planetId);
      user.planetFavorite := user.planetFavorite + [planet.value];
      r := Reply(JObject([("message", JString("Planet added to favorites")),
                          ("planet", planet.value.Serialize())]), 201);
    }

    /** `DELETE /favorite/planet/<id>`: removes the planet from the current user's planet list. */
    method RemoveFavPlanet(planetId: int) returns (r: Response)
      requires Valid()
      modifies CurrentUserFrame()
      ensures Valid()
      ensures people == old(people) && planets == old(planets) && starships == old(starships)
      ensures users == old(users)
      ensures forall u :: u in users && u.id != CURRENT_USER_ID ==> unchanged(u)
      ensures GetCurrentUser().Fail? ==> r == Raised("User not found", 404)
      ensures GetCurrentUser().Ok? ==>
                var u := GetCurrentUser().value;
                Step(r, u.planetFavorite) == RemoveFavPlanetStep(planets, old(u.planetFavorite), planetId) &&
                u.peopleFavorite == old(u.peopleFavorite) && u.starshipFavorite == old(u.starshipFavorite)
    {
      var current := GetCurrentUser();
      if current.Fail? {
        return current.error;
      }
      var user := current.value;
      var planet := Get(planets, PlanetId, planetId);
      if planet.None? || planet.value !in user.planetFavorite {
        return Reply(Message("Planet not in favorites"), 404);
      }
      PlanetStepsKeepValid(planets, user.planetFavorite, planetId);
      user.planetFavorite := RemoveFirst(user.planetFavorite, planet.value);
      r := Reply(JObject([("message", JString("Planet removed from favorites")),
                          ("planet", planet.value.Serialize())]), 200);
    }

    /** `POST /favorite/people/<id>`: appends the character to the current user's people list. */
    method AddFavoritePeople(peopleId: int) returns (r: Response)
      requires Valid()
      modifies CurrentUserFrame()
      ensures Valid()
      ensures people == old(people) && planets == old(planets) && starships == old(starships)
      ensures users == old(users)
      ensures forall u :: u in users && u.id != CURRENT_USER_ID ==> unchanged(u)
      ensures GetCurrentUser().Fail? ==> r == Raised("User not found", 404)
      ensures GetCurrentUser().Ok? ==>
                var u := GetCurrentUser().value;
                Step(r, u.peopleFavorite) == AddFavoritePeopleStep(people, old(u.peopleFavorite), peopleId) &&
                u.planetFavorite == old(u.planetFavorite) && u.starshipFavorite == old(u.starshipFavorite)
    {
      var current := GetCurrentUser();
      if current.Fail? {
        return current.error;
      }
      var user := current.value;
      var character := Get(people, PeopleId, peopleId);
      if character.None? {
        return Reply(Message("Character not found"), 404);
      }
      if character.value in user.peopleFavorite {
        return Reply(Message("Character already in favorites"), 400);
      }
      PeopleStepsKeepValid(people, user.peopleFavorite, peopleId);
      user.peopleFavorite := user.peopleFavorite + [character.value];
      r := Reply(JObject([("message", JString(character.value.name + " added to favorites")),
                          ("character", character.value.Serialize())]), 201);
    }

    /** `DELETE /favorite/people/<id>`: removes the character from the current user's people list. */
    method DeleteFavoritePeople(peopleId: int) returns (r: Response)
      requires Valid()
      modifies CurrentUserFrame()
      ensures Valid()
      ensures people == old(people) && planets == old(planets) && starships == old(starships)
      ensures users == old(users)
      ensures forall u :: u in users && u.id != CURRENT_USER_ID ==> unchanged(u)
      ensures GetCurrentUser().Fail? ==> r == Raised("User not found", 404)
      ensures GetCurrentUser().Ok? ==>
                var u := GetCurrentUser().value;
                Step(r, u.peopleFavorite) == DeleteFavoritePeopleStep(people, old(u.peopleFavorite), peopleId) &&
                u.planetFavorite == old(u.planetFavorite) && u.starshipFavorite == old(u.starshipFavorite)
    {
      var current := GetCurrentUser();
      if current.Fail? {
        return current.error;
      }
      var user := current.value;
      var character := Get(people, PeopleId, peopleId);
      if character.None? {
        return Reply(Message("Character not found"), 404);
      }
      if character.value !in user.peopleFavorite {
        return Reply(Message("Character not in favorites"), 400);
      }
      PeopleStepsKeepValid(people, user.peopleFavorite, peopleId);
      user.peopleFavorite := RemoveFirst(user.peopleFavorite, character.value);
      r := Reply(JObject([("message", JString(character.value.name + " removed from favorites")),
                          ("character", character.value.Serialize())]), 200);
    }

    /** `POST /favorite/starship/<id>`: appends the starship to the current user's starship list. */
    method AddFavStarship(starshipId: int) returns (r: Response)
      requires Valid()
      modifies CurrentUserFrame()
      ensures Valid()
      ensures people == old(people) && planets == old(planets) && starships == old(starships)
      ensures users == old(users)
      ensures forall u :: u in users && u.id != CURRENT_USER_ID ==> unchanged(u)
      ensures GetCurrentUser().Fail? ==> r == Raised("User not found", 404)
      ensures GetCurrentUser().Ok? ==>
                var u := GetCurrentUser().value;
                Step(r, u.starshipFavorite) == AddFavStarshipStep(starships, old(u.starshipFavorite), starshipId) &&
                u.peopleFavorite == old(u.peopleFavorite) && u.planetFavorite == old(u.planetFavorite)
    {
      var current := GetCurrentUser();
      if current.Fail? {
        return current.error;
      }
      var user := current.value;
      var starship := Get(starships, StarshipId, starshipId);
      if starship.None? {
        return Reply(Message("Starship not found"), 404);
      }
      if starship.value in user.starshipFavorite {
        return Reply(Message("Starship already in favorites"), 400);
      }
      StarshipStepsKeepValid(starships, user.starshipFavorite, starshipId);
      user.starshipFavorite := user.starshipFavorite + [starship.value];
      r := Reply(JObject([("message", JString("Starship added to favorites")),
                          ("starship", starship.value.Serialize())]), 201);
    }

    /** `DELETE /favorite/starship/<id>`: removes the starship from the current user's starship list. */
    method RemoveFavStarship(starshipId: int) returns (r: Response)
      requires Valid()
      modifies CurrentUserFrame()
      ensures Valid()
      ensures people == old(people) && planets == old(planets) && starships == old(starships)
      ensures users == old(users)
      ensures forall u :: u in users && u.id != CURRENT_USER_ID ==> unchanged(u)
      ensures GetCurrentUser().Fail? ==> r == Raised("User not found", 404)
      ensures GetCurrentUser().Ok? ==>
                var u := GetCurrentUser().value;
                Step(r, u.starshipFavorite) == RemoveFavStarshipStep(starships, old(u.starshipFavorite), starshipId) &&
                u.peopleFavorite == old(u.peopleFavorite) && u.planetFavorite == old(u.planetFavorite)
    {
      var current := GetCurrentUser();
      if current.Fail? {
        return current.error;
      }
      var user := current.value;
      var starship := Get(starships, StarshipId, starshipId);
      if starship.None? || starship.value !in user.starshipFavorite {
        return Reply(Message("Starship not in favorites"), 404);
      }
      StarshipStepsKeepValid(starships, user.starshipFavorite, starshipId);
      user.starshipFavorite := RemoveFirst(user.starshipFavorite, starship.value);
      r := Reply(JObject([("message", JString("Starship removed from favorites")),
                          ("starship", starship.value.Serialize())]), 200);
    }
  }
}
