/** The JavaScript values a member record holds, their truthiness and text form,
    and records as ordered key/value lists with the object-spread update. */
module Js {
  import Text

  datatype Option<+T> = None | Some(value: T)

  /** A field value as it arrives from the data service or a form control. */
  datatype Value = Undefined | Null | Bool(b: bool) | Num(n: int) | Str(s: string)

  /** JavaScript truthiness: `undefined`, `null`, `false`, `0` and `''` are falsy. */
  predicate Truthy(v: Value) {
    match v
    case Undefined => false
    case Null => false
    case Bool(b) => b
    case Num(n) => n != 0
    case Str(s) => s != ""
  }

  /** `String(v)`. */
  function ToString(v: Value): string {
    match v
    case Undefined => "undefined"
    case Null => "null"
    case Bool(b) => if b then "true" else "false"
    case Num(n) => Text.IntToString(n)
    case Str(s) => s
  }

  /** `v.toString()`: a TypeError (None) on `null` and `undefined`, `String(v)` otherwise. */
  function MethodToString(v: Value): (r: Option<string>)
    ensures r.None? <==> v.Undefined? || v.Null?
    ensures r.Some? ==> r.value == ToString(v)
  {
    if v.Undefined? || v.Null? then None else Some(ToString(v))
  }

  /** A truthy value is never `null` or `undefined`, so calling `toString` on it succeeds. */
  lemma TruthyHasToString(v: Value)
    requires Truthy(v)
    ensures MethodToString(v) == Some(ToString(v))
  {
  }

  datatype Field = Field(key: string, value: Value)

  /** A plain object: its own enumerable properties in enumeration order. */
  type Record = seq<Field>

  function Keys(r: Record): seq<string> {
    if r == [] then [] else [r[0].key] + Keys(r[1..])
  }

  /** `r[k]`: the value of the key, `undefined` when the key is absent. */
  function Get(r: Record, k: string): Value {
    if r == [] then Undefined else if r[0].key == k then r[0].value else Get(r[1..], k)
  }

  /** `{ ...r, [k]: v }`: an existing key keeps its place and takes the new value,
      a new key goes last. */
  function Put(r: Record, k: string, v: Value): Record {
    if r == [] then [Field(k, v)]
    else if r[0].key == k then [Field(k, v)] + r[1..]
    else [r[0]] + Put(r[1..], k, v)
  }

  /** The spread update sets exactly one key and leaves every other key's value alone;
      the key list grows only when the key was new. */
  lemma {:induction false} PutLaws(r: Record, k: string, v: Value)
    ensures Get(Put(r, k, v), k) == v
    ensures forall k' :: k' != k ==> Get(Put(r, k, v), k') == Get(r, k')
    ensures Keys(Put(r, k, v)) == if k in Keys(r) then Keys(r) else Keys(r) + [k]
  {
    if r != [] && r[0].key != k {
      PutLaws(r[1..], k, v);
      var p := Put(r, k, v);
      assert p[1..] == Put(r[1..], k, v);
      forall k' | k' != k
        ensures Get(p, k') == Get(r, k')
      {
      }
    }
  }
}
