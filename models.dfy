/** The schema: the four entities, what each one serialises to, and the three
    favourites join tables. */
module Models {
  import opened Wrappers
  import opened Json
  import opened Tables

  /** A stored `DateTime`. Its content is opaque to the model; `iso` is the text
      that `isoformat()` renders for it. */
  datatype Timestamp = Timestamp(iso: string)

  /** A row of the `people` table. */
  datatype People = People(id: int, name: string, age: int)
  {
    /** `People.serialize`. */
    function Serialize(): (j: Json)
      ensures j.JObject? && Keys(j.members) == ["id", "name", "age"]
    {
      JObject([("id", JInt(id)), ("name", JString(name)), ("age", JInt(age))])
    }
  }

  /** A row of the `planet` table. */
  datatype Planet = Planet(id: int, name: string, gravity: bool, temperature: int)
  {
    /** `Planet.serialize`. */
    function Serialize(): (j: Json)
      ensures j.JObject? && Keys(j.members) == ["id", "name", "gravity", "temperature"]
    {
      JObject([("id", JInt(id)), ("name", JString(name)), ("gravity", JBool(gravity)),
               ("temperature", JInt(temperature))])
    }
  }

  /** A row of the `starship` table. */
  datatype Starship = Starship(id: int, name: string, model: string, manufacturer: string)
  {
    /** `Starship.serialize`. */
    function Serialize(): (j: Json)
      ensures j.JObject? && Keys(j.members) == ["id", "name", "model", "manufacturer"]
    {
      JObject([("id", JInt(id)), ("name", JString(name)), ("model", JString(model)),
               ("manufacturer", JString(manufacturer))])
    }
  }

  function PeopleId(p: People): int { p.id }
  function PlanetId(p: Planet): int { p.id }
  function StarshipId(s: Starship): int { s.id }

  function PeopleJson(p: People): Json { p.Serialize() }
  function PlanetJson(p: Planet): Json { p.Serialize() }
  function StarshipJson(s: Starship): Json { s.Serialize() }

  /** Reads a serialised People record back. */
  function DecodePeople(j: Json): Option<People>
  {
    var id, name, age := Member(j, "id"), Member(j, "name"), Member(j, "age");
    if id.Some? && id.value.JInt? && name.Some? && name.value.JString? && age.Some? && age.value.JInt?
    then Some(People(id.value.i, name.value.s, age.value.i))
    else None
  }

  /** Reads a serialised Planet record back. */
  function DecodePlanet(j: Json): Option<Planet>
  {
    var id, name := Member(j, "id"), Member(j, "name");
    var gravity, temperature := Member(j, "gravity"), Member(j, "temperature");
    if id.Some? && id.value.JInt? && name.Some? && name.value.JString? &&
       gravity.Some? && gravity.value.JBool? && temperature.Some? && temperature.value.JInt?
    then Some(Planet(id.value.i, name.value.s, gravity.value.b, temperature.value.i))
    else None
  }

  /** Reads a serialised Starship record back. */
  function DecodeStarship(j: Json): Option<Starship>
  {
    var id, name := Member(j, "id"), Member(j, "name");
    var model, manufacturer := Member(j, "model"), Member(j, "manufacturer");
    if id.Some? && id.value.JInt? && name.Some? && name.value.JString? &&
       model.Some? && model.value.JString? && manufacturer.Some? && manufacturer.value.JString?
    then Some(Starship(id.value.i, name.value.s, model.value.s, manufacturer.value.s))
    else None
  }

  /** Serialising a People record loses nothing: every column is recovered from its key. */
  lemma PeopleRoundTrip(p: People)
    ensures DecodePeople(p.Serialize()) == Some(p)
  {
    var m := p.Serialize().members;
    FindAt(m, 0);
    FindAt(m, 1);
    FindAt(m, 2);
  }

  /** Serialising a Planet record loses nothing. */
  lemma PlanetRoundTrip(p: Planet)
    ensures DecodePlanet(p.Serialize()) == Some(p)
  {
    var m := p.Serialize().members;
    FindAt(m, 0);
    FindAt(m, 1);
    FindAt(m, 2);
    FindAt(m, 3);
  }

  /** Serialising a Starship record loses nothing. */
  lemma StarshipRoundTrip(s: Starship)
    ensures DecodeStarship(s.Serialize()) == Some(s)
  {
    var m := s.Serialize().members;
    FindAt(m, 0);
    FindAt(m, 1);
    FindAt(m, 2);
    FindAt(m, 3);
  }

  /** A row of the `user` table. The columns never change in this core; the three
      favourite relationships are the user-side lists that the handlers mutate. */
  class User {
    const id: int
    const name: Option<string>        // nullable
    const email: string               // unique, not null
    const password: string
    const isActive: bool
    const suscriptionDate: Option<Timestamp>

    var peopleFavorite: seq<People>
    var planetFavorite: seq<Planet>
    var starshipFavorite: seq<Starship>

    /** A new user with no favourites; `suscriptionDate` is the insertion time that the
        column default supplies. The column is NOT NULL, but the model also admits None so
        that `Serialize` covers its null branch. */
    constructor (id: int, name: Option<string>, email: string, password: string, isActive: bool,
                 suscriptionDate: Option<Timestamp>)
      ensures this.id == id && this.name == name && this.email == email
      ensures this.password == password && this.isActive == isActive
      ensures this.suscriptionDate == suscriptionDate
      ensures peopleFavorite == [] && planetFavorite == [] && starshipFavorite == []
    {
      this.id, this.name, this.email := id, name, email;
      this.password, this.isActive, this.suscriptionDate := password, isActive, suscriptionDate;
      peopleFavorite, planetFavorite, starshipFavorite := [], [], [];
    }

    /** `User.serialize`: the public columns; an unset name or date is null. */
    function Serialize(): (j: Json)
      ensures j.JObject? && Keys(j.members) == ["id", "email", "name", "suscription_date"]
      ensures "password" !in Keys(j.members) && "is_active" !in Keys(j.members)
    {
      JObject([("id", JInt(id)), ("email", JString(email)),
               ("name", if name.Some? then JString(name.value) else JNull),
               ("suscription_date",
                if suscriptionDate.Some? then JString(suscriptionDate.value.iso) else JNull)])
    }
  }

  function UserId(u: User): int { u.id }
  function UserJson(u: User): Json { u.Serialize() }

  /** What a user's serialised form exposes, exactly: the id, the email, the name and
      the subscription date, each null when unset; the password and active flag play no part. */
  lemma UserSerializeExposes(u: User)
    ensures Member(u.Serialize(), "id") == Some(JInt(u.id))
    ensures Member(u.Serialize(), "email") == Some(JString(u.email))
    ensures Member(u.Serialize(), "name") == Some(if u.name.Some? then JString(u.name.value) else JNull)
    ensures u.suscriptionDate.None? <==> Member(u.Serialize(), "suscription_date") == Some(JNull)
    ensures u.suscriptionDate.Some? ==>
              Member(u.Serialize(), "suscription_date") == Some(JString(u.suscriptionDate.value.iso))
    ensures Member(u.Serialize(), "password") == None && Member(u.Serialize(), "is_active") == None
  {
    var m := u.Serialize().members;
    assert Find(m, "id") == Some(JInt(u.id));
    assert Find(m, "email") == Some(JString(u.email));
    assert Find(m, "name") == Some(m[2].1);
    assert Find(m, "suscription_date") == Some(m[3].1);
  }

  /** Two users that agree on the public columns serialise identically, whatever their
      passwords and active flags, and two users that serialise identically agree on them. */
  lemma UserSerializeHidesCredentials(u: User, v: User)
    ensures u.Serialize() == v.Serialize() <==>
              u.id == v.id && u.email == v.email && u.name == v.name &&
              u.suscriptionDate == v.suscriptionDate
  {
    if u.Serialize() == v.Serialize() {
      UserSerializeExposes(u);
      UserSerializeExposes(v);
      if u.suscriptionDate.Some? && v.suscriptionDate.Some? {
        assert u.suscriptionDate.value.iso == v.suscriptionDate.value.iso;
      }
    }
  }

  /** The `unique=True` constraint on `user.email`. */
  ghost predicate UniqueEmails(users: seq<User>)
  {
    forall i, j :: 0 <= i < j < |users| ==> users[i].email != users[j].email
  }

  /** A user-side favourite list as the join table backing it requires: every entry is a
      row of the catalogue (the foreign key) and none repeats (the composite primary key). */
  ghost predicate FavoritesValid<T>(catalog: seq<T>, favs: seq<T>)
  {
    NoDuplicates(favs) && forall x :: x in favs ==> x in catalog
  }

  /** The rows `(user_id, entity_id)` that a user's favourite list stands for in its join table. */
  function JoinRows<T>(userId: int, favs: seq<T>, key: T -> int): (rows: seq<(int, int)>)
    ensures |rows| == |favs|
    ensures forall k :: 0 <= k < |rows| ==> rows[k] == (userId, key(favs[k]))
  {
    seq(|favs|, k requires 0 <= k < |favs| => (userId, key(favs[k])))
  }

  /** A valid favourite list never puts the same (user, entity) pair into its join table twice. */
  lemma JoinRowsUnique<T>(userId: int, catalog: seq<T>, favs: seq<T>, key: T -> int)
    requires UniqueKeys(catalog, key) && FavoritesValid(catalog, favs)
    ensures NoDuplicates(JoinRows(userId, favs, key))
  {
    var rows := JoinRows(userId, favs, key);
    forall i, j | 0 <= i < j < |rows|
      ensures rows[i] != rows[j]
    {
      assert favs[i] in favs && favs[j] in favs;
      var a :| 0 <= a < |catalog| && catalog[a] == favs[i];
      var b :| 0 <= b < |catalog| && catalog[b] == favs[j];
      assert a != b;
    }
  }

  /** A whole join table: the rows of every owner's favourite list, owner by owner;
      `owners` pairs each user id with that user's list. */
  function JoinTable<T>(owners: seq<(int, seq<T>)>, key: T -> int): seq<(int, int)>
  {
    if owners == [] then [] else JoinRows(owners[0].0, owners[0].1, key) + JoinTable(owners[1..], key)
  }

  /** Every row of a join table belongs to one of its owners. */
  lemma {:induction false} JoinTableOwners<T>(owners: seq<(int, seq<T>)>, key: T -> int, row: (int, int))
    requires row in JoinTable(owners, key)
    ensures exists k :: 0 <= k < |owners| && owners[k].0 == row.0
  {
    var head := JoinRows(owners[0].0, owners[0].1, key);
    if row !in head {
      JoinTableOwners(owners[1..], key, row);
      var k :| 0 <= k < |owners[1..]| && owners[1..][k].0 == row.0;
      assert owners[k + 1].0 == row.0;
    }
  }

  /** With distinct user ids and valid favourite lists, the join table never holds the
      same (user, entity) pair twice: the composite primary key of the relation. */
  lemma {:induction false} JoinTableUnique<T>(owners: seq<(int, seq<T>)>, catalog: seq<T>, key: T -> int)
    requires UniqueKeys(catalog, key)
    requires forall i, j :: 0 <= i < j < |owners| ==> owners[i].0 != owners[j].0
    requires forall k :: 0 <= k < |owners| ==> FavoritesValid(catalog, owners[k].1)
    ensures NoDuplicates(JoinTable(owners, key))
  {
    if owners != [] {
      var head := JoinRows(owners[0].0, owners[0].1, key);
      var tail := JoinTable(owners[1..], key);
      JoinRowsUnique(owners[0].0, catalog, owners[0].1, key);
      JoinTableUnique(owners[1..], catalog, key);
      forall row | row in tail
        ensures row !in head
      {
        JoinTableOwners(owners[1..], key, row);
      }
      NoDuplicatesConcat(head, tail);
    }
  }

  /** A list comprehension `[x.serialize() for x in rows]`, with `ser` standing for `serialize`. */
  function SerializeAll<T>(rows: seq<T>, ser: T -> Json): (items: seq<Json>)
    ensures |items| == |rows| && forall k :: 0 <= k < |rows| ==> items[k] == ser(rows[k])
  {
    seq(|rows|, k requires 0 <= k < |rows| => ser(rows[k]))
  }

  /** Reads a JSON array of serialised records back, failing if any element does not decode. */
  function DecodeAll<T>(items: seq<Json>, decode: Json -> Option<T>): Option<seq<T>>
  {
    if items == [] then Some([])
    else
      match (decode(items[0]), DecodeAll(items[1..], decode))
      case (Some(x), Some(xs)) => Some([x] + xs)
      case _ => None
  }

  /** Reads back the array stored under a member of a JSON object. */
  function DecodeArray<T>(j: Option<Json>, decode: Json -> Option<T>): Option<seq<T>>
  {
    if j.Some? && j.value.JArray? then DecodeAll(j.value.items, decode) else None
  }

  /** Serialising a list element by element loses neither an element nor the order,
      as long as each element survives its own round trip. */
  lemma {:induction false} DecodeSerializeAll<T>(rows: seq<T>, ser: T -> Json, decode: Json -> Option<T>)
    requires forall x :: decode(ser(x)) == Some(x)
    ensures DecodeAll(SerializeAll(rows, ser), decode) == Some(rows)
  {
    if rows != [] {
      assert SerializeAll(rows, ser)[1..] == SerializeAll(rows[1..], ser);
      DecodeSerializeAll(rows[1..], ser, decode);
      assert rows == [rows[0]] + rows[1..];
    }
  }

  /** A list of People records survives serialisation. */
  lemma PeopleListRoundTrip(rows: seq<People>)
    ensures DecodeAll(SerializeAll(rows, PeopleJson), DecodePeople) == Some(rows)
  {
    forall p: People
      ensures DecodePeople(p.Serialize()) == Some(p)
    {
      PeopleRoundTrip(p);
    }
    DecodeSerializeAll(rows, PeopleJson, DecodePeople);
  }

  /** A list of Planet records survives serialisation. */
  lemma PlanetListRoundTrip(rows: seq<Planet>)
    ensures DecodeAll(SerializeAll(rows, PlanetJson), DecodePlanet) == Some(rows)
  {
    forall p: Planet
      ensures DecodePlanet(p.Serialize()) == Some(p)
    {
      PlanetRoundTrip(p);
    }
    DecodeSerializeAll(rows, PlanetJson, DecodePlanet);
  }

  /** A list of Starship records survives serialisation. */
  lemma StarshipListRoundTrip(rows: seq<Starship>)
    ensures DecodeAll(SerializeAll(rows, StarshipJson), DecodeStarship) == Some(rows)
  {
    forall s: Starship
      ensures DecodeStarship(s.Serialize()) == Some(s)
    {
      StarshipRoundTrip(s);
    }
    DecodeSerializeAll(rows, StarshipJson, DecodeStarship);
  }
}
