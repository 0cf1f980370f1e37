# Star Wars favourites API — a Dafny model

The repository is a small Flask/SQLAlchemy REST backend. It has read-only catalogue
endpoints for People, Planets and Starships, a user listing, and a favourites feature.
The current user is always the user row with id 1. That user owns three favourite lists,
and six route handlers add entries to them and remove entries from them.

This project models that core:

- the four entities and their `serialize` methods;
- the three composite-key join tables;
- the read handlers;
- the six favourite handlers as guard-then-mutate steps on one store.

Modules:

- `Wrappers` (`wrappers.dfy`): `Option` and `Result`.
- `Json` (`json.dfy`): JSON values. Objects keep their members in insertion order. `Find` and
  `Member` look up keys, and `Message` builds the `{"message": …}` body returned on every failure.
- `Tables` (`tables.dfy`): a database table is the sequence of its rows in the order `query.all()` yields them.
  `Get` is `Model.query.get(id)`, a lookup by primary key. `UniqueKeys` is the primary-key
  constraint. `RemoveFirst` is Python's `list.remove`, and `NoDuplicates` is the "no repeated
  favourite" condition.
- `Models` (`models.py`, in `models.dfy`): `People`, `Planet` and `Starship` are datatypes,
  each with a `Serialize` member and a decoder that reads its JSON back. `User` is a class:
  its columns are constants, and its three favourite relationships are mutable `seq` fields.
  The join tables appear as `JoinRows`/`JoinTable`, the `(user_id, entity_id)` pairs a set of
  favourite lists stands for.
- `Routes` (`app.py`, in `routes.dfy`): the rule of each favourite handler as a function on
  the current user's list. Each rule gives back a `Step`: the response, plus the list after
  the handler has run. The laws relating the handlers live here too: add then remove, add
  twice, remove twice, and keeping the list valid.
- `App` (`app.py`, in `app.dfy`): the class `Store` holds the four tables.
  - `Valid()` is the set of database constraints: primary keys, unique email, and the foreign
    keys and composite primary keys of the join tables.
  - `GetCurrentUser` and the read handlers are functions of the store.
  - The six favourite handlers are methods. Each one changes only the current user's object
    (`modifies CurrentUserFrame()`), assigns the one list it owns, and is proved equal to its
    `Routes` rule. Each also keeps `Valid()`, and its contract says that the other two lists,
    the catalogues and every other user stay unchanged.

A handler returns a `Response`. `Reply(body, status)` is the `jsonify(...)`/status pair.
`Raised(message, status)` is the `APIException` that `get_current_user` raises. Every favourite
handler looks up the current user first, so "User not found" (404) comes before any check on
the entity.

`DELETE /favorite/people/<id>` answers 400 "Character not in favorites" when the character
exists but is not a favourite. `DELETE /favorite/planet/<id>` and `DELETE /favorite/starship/<id>`
answer 404 "… not in favorites" both when the entity is unknown and when it is not a favourite.
The planet and starship handlers differ from the people handler here; the model keeps the
code's behaviour: see `DeleteFavoritePeopleStep` against `RemoveFavPlanetStep`.

## Model

| member | source | states |
|---|---|---|
| `Tables.Get` | src/app.py:53 | `query.get(id)` returns a row of the table whose key is `id`; it returns None exactly when no row has that key |
| `Tables.GetUnique` | src/models.py:63 | With unique primary keys, looking up a row's own key returns exactly that row |
| `Tables.IndexOf` | src/app.py:121 | The position of the first occurrence of `x`: it holds `x`, and no earlier position does |
| `Tables.RemoveFirst` | src/app.py:121 | `list.remove(x)` on a list holding `x` removes one occurrence of `x`: it drops exactly one element, and the multiset loses exactly one `x` |
| `Tables.RemoveFirstAt` | src/app.py:121 | `list.remove(x)` deletes exactly the first occurrence of `x`; the elements before and after it keep their order |
| `Tables.RemoveFirstOfAppend` | src/app.py:110-121 | Appending an absent element and then removing it gives back the original list |
| `Tables.NoDuplicatesAppend` | src/app.py:107-110 | Appending an element that is not in the list keeps the list free of repeats |
| `Tables.NoDuplicatesRemoveFirst` | src/app.py:118-121 | In a list without repeats, `remove(x)` keeps it without repeats and leaves exactly the elements other than `x` |
| `Models.People.Serialize` | src/models.py:70-75 | The keys are exactly `id`, `name`, `age`, in that order |
| `Models.Planet.Serialize` | src/models.py:89-95 | The keys are exactly `id`, `name`, `gravity`, `temperature` |
| `Models.Starship.Serialize` | src/models.py:110-116 | The keys are exactly `id`, `name`, `model`, `manufacturer` |
| `Models.User.Serialize` | src/models.py:51-57 | The keys are exactly `id`, `email`, `name`, `suscription_date`; `password` and `is_active` are never keys |
| `Models.User.constructor` | src/models.py:31-49 | A new user, created outside the handlers, has the given columns and three empty favourite lists |
| `Models.PeopleRoundTrip` | src/models.py:70-75 | Every People column can be read back from its serialised form |
| `Models.PlanetRoundTrip` | src/models.py:89-95 | Every Planet column can be read back from its serialised form |
| `Models.StarshipRoundTrip` | src/models.py:110-116 | Every Starship column can be read back from its serialised form |
| `Models.UserSerializeExposes` | src/models.py:51-57 | The serialised user carries the id, the email and the name (null when unset) and `suscription_date` (null exactly when unset, otherwise its ISO text); it has no password and no active flag |
| `Models.UserSerializeHidesCredentials` | src/models.py:38-57 | Two users serialise identically if and only if they agree on id, email, name and subscription date, whatever their passwords and active flags |
| `Models.JoinRowsUnique` | src/models.py:9-28 | A valid favourite list puts no (user, entity) pair into its join table twice |
| `Models.JoinTableUnique` | src/models.py:9-28 | Given distinct user ids and valid lists, a whole join table holds each (user, entity) pair at most once: the composite primary key |
| `Models.DecodeSerializeAll` | src/app.py:49 | A list comprehension of `serialize` calls loses no element and keeps the order, whenever each element survives its own round trip |
| `Models.PeopleListRoundTrip` | src/app.py:49 | A list of People records can be read back in full and in order from its serialised list |
| `Models.PlanetListRoundTrip` | src/app.py:62 | A list of Planet records can be read back in full and in order from its serialised list |
| `Models.StarshipListRoundTrip` | src/app.py:75 | A list of Starship records can be read back in full and in order from its serialised list |
| `Routes.AddFavPlanetStep` | src/app.py:101-112 | 404 "Planet not found" exactly when no planet has the id; 400 "Planet already in favorites" when it is already a favourite; on any failure the list is unchanged. Otherwise 201: the catalogue planet with that id is appended at the end and returned under `planet` |
| `Routes.RemoveFavPlanetStep` | src/app.py:114-123 | 404 "Planet not in favorites" exactly when the planet is unknown or is not a favourite, with the list unchanged; otherwise 200, the planet is removed and returned under `planet` |
| `Routes.AddFavoritePeopleStep` | src/app.py:126-137 | 404 "Character not found" exactly when the id is unknown; 400 "Character already in favorites"; otherwise 201, the character is appended and the message is its name followed by " added to favorites" |
| `Routes.DeleteFavoritePeopleStep` | src/app.py:139-150 | 404 "Character not found" exactly when the id is unknown; 400 "Character not in favorites" exactly when the character exists but is not a favourite; the list is unchanged in both cases. Otherwise 200 with the character removed |
| `Routes.AddFavStarshipStep` | src/app.py:153-164 | 404 "Starship not found" exactly when the id is unknown; 400 "Starship already in favorites"; otherwise 201 with the starship appended at the end |
| `Routes.RemoveFavStarshipStep` | src/app.py:166-175 | 404 "Starship not in favorites" exactly when the starship is unknown or is not a favourite, with the list unchanged; otherwise 200 with it removed |
| `Routes.PlanetStepsKeepValid` | src/app.py:107-121 | Both planet handlers keep the list made of catalogue rows only and free of repeats |
| `Routes.PeopleStepsKeepValid` | src/app.py:132-148 | Both people handlers keep the list made of catalogue rows only and free of repeats |
| `Routes.StarshipStepsKeepValid` | src/app.py:159-173 | Both starship handlers keep the list made of catalogue rows only and free of repeats |
| `Routes.AddThenRemovePlanet` | src/app.py:110-121 | After a successful add (201), removing the same planet succeeds (200) and gives back exactly the original list |
| `Routes.AddThenDeletePeople` | src/app.py:135-148 | After a successful add (201), deleting the same character succeeds (200) and gives back exactly the original list |
| `Routes.AddThenRemoveStarship` | src/app.py:162-173 | After a successful add (201), removing the same starship succeeds (200) and gives back exactly the original list |
| `Routes.AddPlanetTwice` | src/app.py:107-110 | Adding the same planet again after a successful add gives 400 "Planet already in favorites" and changes nothing |
| `Routes.AddPeopleTwice` | src/app.py:132-135 | Adding the same character again after a successful add gives 400 "Character already in favorites" and changes nothing |
| `Routes.AddStarshipTwice` | src/app.py:159-162 | Adding the same starship again after a successful add gives 400 "Starship already in favorites" and changes nothing |
| `Routes.RemovePlanetTwice` | src/app.py:118-121 | On a list without repeats, removing the same planet again after a successful remove gives 404 "Planet not in favorites" and changes nothing |
| `Routes.DeletePeopleTwice` | src/app.py:145-148 | On a list without repeats, deleting the same character again after a successful delete gives 400 "Character not in favorites" and changes nothing |
| `Routes.RemoveStarshipTwice` | src/app.py:170-173 | On a list without repeats, removing the same starship again after a successful remove gives 404 "Starship not in favorites" and changes nothing |
| `App.Store.GetCurrentUser` | src/app.py:29-33 | Returns a stored user whose id is 1; fails with the raised "User not found" (404) exactly when no such user exists |
| `App.Store.GetAllPeople` | src/app.py:46-49 | 200 with an array whose k-th element is the k-th People row's `serialize()`, one per row, in the order the table yields; every row can be read back from it |
| `App.Store.GetOnePerson` | src/app.py:51-56 | 404 "Person not found" exactly when no row has the id; otherwise 200 with a body that is exactly the `serialize()` of the stored row with that id, and decodes back to it |
| `App.Store.GetAllPlanets` | src/app.py:59-62 | 200 with an array whose k-th element is the k-th Planet row's `serialize()`, one per row, in the order the table yields; every row can be read back from it |
| `App.Store.GetOnePlanet` | src/app.py:64-69 | 404 "Planet not found" exactly when no row has the id; otherwise 200 with a body that is exactly the `serialize()` of the stored row with that id, and decodes back to it |
| `App.Store.GetAllStarships` | src/app.py:72-75 | 200 with an array whose k-th element is the k-th Starship row's `serialize()`, one per row, in the order the table yields; every row can be read back from it |
| `App.Store.GetOneStarship` | src/app.py:77-82 | 404 "Starship not found" exactly when no row has the id; otherwise 200 with a body that is exactly the `serialize()` of the stored row with that id, and decodes back to it |
| `App.Store.GetAllUsers` | src/app.py:85-88 | 200 with one serialised user per row, in table order; each carries its user's id and email and has no password and no active flag |
| `App.Store.GetUserFavorites` | src/app.py:90-97 | Raised 404 "User not found" without a current user. Otherwise 200 with exactly the keys `favorite_planets`, `favorite_people`, `favorite_starships`; each holds the array of the `serialize()` of that list's elements, element by element in list order, and reads back to the list |
| `App.FavoritesBody` | src/app.py:93-97 | The body has exactly the keys `favorite_planets`, `favorite_people`, `favorite_starships`; each holds the serialisations of the given list's elements in order, and reads back to that list |
| `App.Store.JoinTablesUnique` | src/models.py:9-28 | In a valid store, none of the three join tables holds a (user, entity) pair twice |
| `App.Store.EmailIdentifiesUser` | src/models.py:36-37 | In a valid store, two users have the same email if and only if they are the same user |
| `App.Store.AddFavPlanet` | src/app.py:101-112 | Raises "User not found" without a current user. Otherwise it behaves as `AddFavPlanetStep` on the current user's planet list. The store stays valid, with no repeated favourite. The other two lists, the catalogues and all other users are unchanged |
| `App.Store.RemoveFavPlanet` | src/app.py:114-123 | Raises "User not found" without a current user. Otherwise it behaves as `RemoveFavPlanetStep`. The store stays valid, and only the planet list changes |
| `App.Store.AddFavoritePeople` | src/app.py:126-137 | Raises "User not found" without a current user. Otherwise it behaves as `AddFavoritePeopleStep`. The store stays valid, and only the people list changes |
| `App.Store.DeleteFavoritePeople` | src/app.py:139-150 | Raises "User not found" without a current user. Otherwise it behaves as `DeleteFavoritePeopleStep`. The store stays valid, and only the people list changes |
| `App.Store.AddFavStarship` | src/app.py:153-164 | Raises "User not found" without a current user. Otherwise it behaves as `AddFavStarshipStep`. The store stays valid, and only the starship list changes |
| `App.Store.RemoveFavStarship` | src/app.py:166-175 | Raises "User not found" without a current user. Otherwise it behaves as `RemoveFavStarshipStep`. The store stays valid, and only the starship list changes |

## Left out

- Flask application setup is not modelled: the database URL and sqlite fallback, `Migrate`, `CORS`, `setup_admin` and the `__main__` server start (src/app.py:13-26, 178-180). This is framework and I/O plumbing.
- The sitemap route and the `APIException` error handler are not modelled (src/app.py:36-43). `utils` and `admin` are not part of this model, so the JSON envelope that `APIException.to_dict()` renders is not modelled either. A raised exception is kept as `Raised(message, status)`.
- `jsonify` and the HTTP transport are not modelled. Bodies are `Json` values, and object members are kept in the order the source writes them; the key order on the wire is not modelled.
- `db.session.commit()` is not modelled. The in-memory update is the committed state, and a failed commit is not modelled.
- Session semantics, lazy loading and the `back_populates` side of each relationship (`People.user_favorites` and the like) are not modelled. A favourite relation is the user-side list only.
- A join-table row is written as `(user_id, entity_id)`. `favorites_planet` declares its columns in the other order, which does not change its key.
- `Tables.RemoveFirst` requires the element to be present. Python's `list.remove` raises `ValueError` otherwise, and every handler checks membership before it calls `remove`.
- `datetime.utcnow` and `isoformat` are not modelled (src/models.py:40-41, 56). A timestamp is an opaque value carrying its ISO text, and the column default is passed in as a constructor argument.
- `String(120)` length limits and `nullable=False` are not modelled; most non-null columns simply have non-optional types. `suscription_date` is NOT NULL in the schema and is filled by its default on insert. The model still lets it be unset (`Option<Timestamp>`), so that the `else None` branch of `User.serialize` is covered.
- `query.all()` has no `order_by`, so the database picks the order of its rows. The model takes the order `query.all()` yields as given, as the order of the table's sequence.
- The handlers never create or delete rows. `Models.User.constructor` stands for a user created outside them, for instance by a migration or the admin interface.
- Routes.AddFavPlanetStep, Routes.AddFavoritePeopleStep, Routes.AddFavStarshipStep, Routes.AddThenRemovePlanet, Routes.AddThenDeletePeople, Routes.AddThenRemoveStarship, App.Store.GetUserFavorites, App.FavoritesBody and the six handler methods treat a favourite list as one list that keeps its order from request to request. The source's relationships (src/models.py:43-49) have no `order_by`, and each request loads the list afresh from a join table whose rows are unordered. "Appended at the end", "in stored order" and "gives back exactly the original list" therefore hold within one session's list; across requests the source promises only the same set of favourites.
- Path ids come through Flask's `<int:…>` converter, which matches digits only. For a negative id, such as `/planets/-1`, the source answers with Flask's own 404 page before any handler runs. The model's handlers accept any `int`, and for an id that no row has they give the handler's own 404 message. On SQLite an id of 2^63 or more makes the lookup raise, so the source answers 500 where the model gives the handler's 404. A stored row with a negative id cannot be reached through a route, yet the model serves it like any other. The model treats every `int` id alike.
- Concurrent requests are not modelled. Two simultaneous adds of the same favourite race on the database's uniqueness constraint, and that race is concurrency, outside this sequential model.
