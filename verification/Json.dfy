// The tree that cJSON parses to and prints from (3rdParty/libcjson/cJSON.h): a value is
// distinguished by its type field, and the child chain of an array or object is a sequence.
module Json {
  import opened CText

  datatype Json =
    | Null
    | False
    | True
    | Number(valuedouble: real)
    | String(valuestring: string)
    | Array(items: seq<Json>)
    | Object(members: seq<Member>)

  datatype Member = Member(name: string, value: Json)

  const INT_MAX := 0x7fff_ffff
  const INT_MIN := -0x8000_0000

  // The numbers that print_number renders with "%d".
  predicate IsInt(d: real) {
    d == d.Floor as real && INT_MIN <= d.Floor <= INT_MAX
  }

  // Trees of null, booleans, 32-bit integers, C strings, arrays and objects.
  predicate Plain(v: Json)
  {
    match v
    case Number(d) => IsInt(d)
    case String(s) => NulFree(s)
    case Array(items) => PlainItems(items)
    case Object(members) => PlainMembers(members)
    case _ => true
  }

  predicate PlainItems(items: seq<Json>)
  {
    items == [] || (Plain(items[0]) && PlainItems(items[1..]))
  }

  predicate PlainMembers(members: seq<Member>)
  {
    members == [] ||
    (NulFree(members[0].name) && Plain(members[0].value) && PlainMembers(members[1..]))
  }

  lemma PlainItemAt(items: seq<Json>, k: nat)
    requires PlainItems(items) && k < |items|
    ensures Plain(items[k])
  {
    if k > 0 {
      PlainItemAt(items[1..], k - 1);
    }
  }

  lemma PlainMemberAt(members: seq<Member>, k: nat)
    requires PlainMembers(members) && k < |members|
    ensures NulFree(members[k].name) && Plain(members[k].value)
  {
    if k > 0 {
      PlainMemberAt(members[1..], k - 1);
    }
  }
}
