/** The key-case rewriters of backend/src/middleware/versionTransformer.js. */
module VersionModel {

  predicate IsUpper(c: char) { 'A' <= c <= 'Z' }

  predicate IsLower(c: char) { 'a' <= c <= 'z' }

  /** The class \w of the regular expression. */
  predicate IsWord(c: char) { IsUpper(c) || IsLower(c) || '0' <= c <= '9' || c == '_' }

  function ToUpper(c: char): char {
    if IsLower(c) then (c as int - 32) as char else c
  }

  function ToLower(c: char): char {
    if IsUpper(c) then (c as int + 32) as char else c
  }

  /** contract_id becomes contractId: every leftmost match of _\w is replaced by its letter in upper case. */
  function KeyToV1(key: string): string {
    if key == "" then ""
    else if key[0] == '_' && 1 < |key| && IsWord(key[1]) then [ToUpper(key[1])] + KeyToV1(key[2..])
    else [key[0]] + KeyToV1(key[1..])
  }

  /** contractId becomes contract_id: every ASCII capital is replaced by an underscore and its lower case. */
  function KeyToV2(key: string): string {
    if key == "" then ""
    else if IsUpper(key[0]) then ['_', ToLower(key[0])] + KeyToV2(key[1..])
    else [key[0]] + KeyToV2(key[1..])
  }

  datatype Json =
    | Null
    | Bool(b: bool)
    | Num(n: real)
    | Str(s: string)
    | Arr(items: seq<Json>)
    | Obj(fields: seq<Field>)

  /** The fields of an object, in the order of its keys. */
  datatype Field = Field(key: string, value: Json)

  /** newObj[key] = value: an existing key keeps its place, a new one goes last. */
  function Assign(fields: seq<Field>, key: string, value: Json): seq<Field> {
    if fields == [] then [Field(key, value)]
    else if fields[0].key == key then [Field(key, value)] + fields[1..]
    else [fields[0]] + Assign(fields[1..], key, value)
  }

  function Rewrite(x: Json, rename: string -> string): Json
    decreases x, 0
  {
    match x
    case Arr(items) => Arr(RewriteAll(items, rename))
    case Obj(fields) => Obj(RewriteFields(fields, [], rename))
    case _ => x
  }

  function RewriteAll(items: seq<Json>, rename: string -> string): (r: seq<Json>)
    decreases items, 1
    ensures |r| == |items|
  {
    if items == [] then [] else [Rewrite(items[0], rename)] + RewriteAll(items[1..], rename)
  }

  function RewriteFields(fields: seq<Field>, done: seq<Field>, rename: string -> string): seq<Field>
    decreases fields, 1
  {
    if fields == [] then done
    else RewriteFields(fields[1..], Assign(done, rename(fields[0].key), Rewrite(fields[0].value, rename)), rename)
  }

  function ToV1(x: Json): Json { Rewrite(x, KeyToV1) }

  function ToV2(x: Json): Json { Rewrite(x, KeyToV2) }
}
