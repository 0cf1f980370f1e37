/** The JSON values that the route handlers hand to the transport layer. */
module Json {
  import opened Wrappers

  /** A JSON value. Objects keep their members in insertion order, as Python dictionaries do. */
  datatype Json =
    | JNull
    | JBool(b: bool)
    | JInt(i: int)
    | JString(s: string)
    | JArray(items: seq<Json>)
    | JObject(members: seq<(string, Json)>)

  /** The keys of an object's members, in order. */
  function Keys(members: seq<(string, Json)>): seq<string>
  {
    seq(|members|, k requires 0 <= k < |members| => members[k].0)
  }

  /** The value of the first member named `key`. */
  function Find(members: seq<(string, Json)>, key: string): (r: Option<Json>)
    ensures r.None? <==> key !in Keys(members)
    ensures r.Some? ==> (key, r.value) in members
  {
    if members == [] then None
    else if members[0].0 == key then
      assert Keys(members)[0] == key;
      Some(members[0].1)
    else
      assert Keys(members) == [members[0].0] + Keys(members[1..]);
      Find(members[1..], key)
  }

  /** The value stored under `key` when `j` is an object that has such a member. */
  function Member(j: Json, key: string): Option<Json>
  {
    if j.JObject? then Find(j.members, key) else None
  }

  /** The body `{"message": text}` that the handlers return with every failure status. */
  function Message(text: string): (j: Json)
    ensures j.JObject? && Keys(j.members) == ["message"]
    ensures Member(j, "message") == Some(JString(text))
  {
    JObject([("message", JString(text))])
  }

  /** The member at position `k` is the one found under its key when no earlier member
      has that key. */
  lemma {:induction false} FindAt(members: seq<(string, Json)>, k: nat)
    requires k < |members|
    requires forall i :: 0 <= i < k ==> members[i].0 != members[k].0
    ensures Find(members, members[k].0) == Some(members[k].1)
  {
    if k > 0 {
      FindAt(members[1..], k - 1);
    }
  }
}
