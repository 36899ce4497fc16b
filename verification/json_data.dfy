/**
 * The data objects the template engine consumes: JSON values whose objects
 * keep their keys in enumeration order. An array is an object whose keys
 * are its indices, as `for…in` sees it.
 */
module JsonData {
  import opened Wrappers

  datatype Value =
    | Str(s: string)
    | Obj(fields: seq<Field>)
    | Num(n: real)
    | Bool(b: bool)
    | Null

  datatype Field = Field(key: string, value: Value)

  /** Position of the property `k` of an object (its keys are distinct). */
  function FindKey(fs: seq<Field>, k: string): (r: Option<nat>)
    ensures r.Some? ==> r.value < |fs| && fs[r.value].key == k
    ensures r.Some? ==> forall j :: 0 <= j < r.value ==> fs[j].key != k
    ensures r.None? <==> forall j :: 0 <= j < |fs| ==> fs[j].key != k
  {
    if fs == [] then None
    else if fs[0].key == k then Some(0)
    else match FindKey(fs[1..], k)
      case None => None
      case Some(j) => Some(j + 1)
  }

  /** `obj[k]`: `None` stands for `undefined`. */
  function Get(fs: seq<Field>, k: string): (r: Option<Value>)
    ensures r.Some? <==> exists j :: 0 <= j < |fs| && fs[j].key == k
  {
    match FindKey(fs, k)
    case None => None
    case Some(j) => Some(fs[j].value)
  }

  /** Reading the first property with a given key yields its value. */
  lemma GetFirst(fs: seq<Field>, j: nat)
    requires j < |fs|
    requires forall i :: 0 <= i < j ==> fs[i].key != fs[j].key
    ensures Get(fs, fs[j].key) == Some(fs[j].value)
  {
    var r := FindKey(fs, fs[j].key);
    assert r.Some?;
    assert r.value == j;
  }

  /** JavaScript truthiness of a property read (`undefined` is falsy). */
  predicate Truthy(v: Option<Value>) {
    match v
    case None => false
    case Some(Str(s)) => s != []
    case Some(Obj(_)) => true
    case Some(Num(n)) => n != 0.0
    case Some(Bool(b)) => b
    case Some(Null) => false
  }

  /** An object's keys in enumeration order. */
  function Keys(fs: seq<Field>): seq<string> {
    seq(|fs|, i requires 0 <= i < |fs| => fs[i].key)
  }
}
