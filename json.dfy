/** Decoded JSON values as the Python code sees them: the config dictionary and the rating API
    responses. */
module Json {
  import opened Wrappers

  /** A decoded value. Objects keep their entries in order; keys are values too, because the code
      checks their type. Floats are kept only as a tag, since nothing here reads them. */
  datatype Json =
    | JNull
    | JBool(b: bool)
    | JInt(i: int)
    | JFloat
    | JStr(s: string)
    | JList(items: seq<Json>)
    | JObject(entries: seq<(Json, Json)>)

  /** Python's runtime types of decoded values. */
  datatype PyType = NoneType | Bool | Int | Float | Str | List | Dict

  /** `type(value)`. */
  function TypeOf(j: Json): (t: PyType)
    ensures t == NoneType <==> j.JNull?
    ensures t == Str <==> j.JStr?
    ensures t == List <==> j.JList?
    ensures t == Dict <==> j.JObject?
  {
    match j
    case JNull => NoneType
    case JBool(_) => Bool
    case JInt(_) => Int
    case JFloat => Float
    case JStr(_) => Str
    case JList(_) => List
    case JObject(_) => Dict
  }

  /** `isinstance(value, t)`: exact type, except that a bool is also an int. */
  predicate IsInstance(j: Json, t: PyType)
  {
    TypeOf(j) == t || (t == Int && TypeOf(j) == Bool)
  }

  /** `key in d` followed by `d[key]`: the value bound to the key, if any. Decoding a repeated key
      keeps the last value given for it, so the last entry with the key decides. */
  function Lookup(entries: seq<(Json, Json)>, key: Json): (r: Option<Json>)
    ensures r.None? <==> forall i :: 0 <= i < |entries| ==> entries[i].0 != key
    ensures r.Some? ==> exists i :: 0 <= i < |entries| && entries[i] == (key, r.value) &&
                                    forall j :: i < j < |entries| ==> entries[j].0 != key
  {
    if entries == [] then None
    else if entries[|entries| - 1].0 == key then Some(entries[|entries| - 1].1)
    else Lookup(entries[..|entries| - 1], key)
  }

  /** An entry added at the end binds its key, replacing an earlier value, and leaves every other
      key as it was. */
  lemma LookupLastWins(entries: seq<(Json, Json)>, key: Json, value: Json, other: Json)
    ensures Lookup(entries + [(key, value)], key) == Some(value)
    ensures other != key ==> Lookup(entries + [(key, value)], other) == Lookup(entries, other)
  {
    assert (entries + [(key, value)])[..|entries|] == entries;
  }

  /** `obj.get(key)` on a value known to be a dictionary. */
  function Get(obj: Json, key: string): Option<Json>
    requires obj.JObject?
  {
    Lookup(obj.entries, JStr(key))
  }

  /** `obj.get(key)` treated as absent when the value is null, as `is None` does. */
  function GetNonNull(obj: Json, key: string): (r: Option<Json>)
    requires obj.JObject?
    ensures r.Some? ==> !r.value.JNull? && Get(obj, key) == r
    ensures r.None? ==> Get(obj, key).None? || Get(obj, key) == Some(JNull)
  {
    match Get(obj, key)
    case Some(v) => if v.JNull? then None else Some(v)
    case None => None
  }

  /** Python truthiness of a decoded value. */
  predicate Truthy(j: Json)
  {
    match j
    case JNull => false
    case JBool(b) => b
    case JInt(i) => i != 0
    case JFloat => true
    case JStr(s) => s != ""
    case JList(items) => items != []
    case JObject(entries) => entries != []
  }
  /** What `for item in value` visits: list elements, a string's characters or a dictionary's keys
      (each once); other values cannot be iterated. */
  function Items(j: Json): Option<seq<Json>>
  {
    match j
    case JList(items) => Some(items)
    case JStr(s) => Some(seq(|s|, i requires 0 <= i < |s| => JStr([s[i]])))
    case JObject(entries) => Some(Keys(entries))
    case _ => None
  }

  /** A decoded dictionary's keys, each once, in the order they first appear. */
  function Keys(entries: seq<(Json, Json)>): (r: seq<Json>)
    ensures forall k :: k in r <==> exists i :: 0 <= i < |entries| && entries[i].0 == k
    ensures forall i, j :: 0 <= i < j < |r| ==> r[i] != r[j]
  {
    if entries == [] then []
    else
      var keys := Keys(entries[..|entries| - 1]);
      var k := entries[|entries| - 1].0;
      assert forall i :: 0 <= i < |entries| - 1 ==> entries[..|entries| - 1][i] == entries[i];
      if k in keys then keys else keys + [k]
  }

  /** `d.items()`: each key once, in first-appearance order, with the value decoding kept for it. */
  function DictItems(entries: seq<(Json, Json)>): (r: seq<(Json, Json)>)
    ensures |r| == |Keys(entries)|
    ensures forall i :: 0 <= i < |r| ==> r[i].0 == Keys(entries)[i] && Lookup(entries, r[i].0) == Some(r[i].1)
  {
    var keys := Keys(entries);
    assert forall i :: 0 <= i < |keys| ==> keys[i] in keys && Lookup(entries, keys[i]).Some?;
    seq(|keys|, i requires 0 <= i < |keys| => (keys[i], Lookup(entries, keys[i]).value))
  }

  /** A pair is among the items exactly when the dictionary binds that key to that value, and no
      key appears twice. */
  lemma DictItemsMembers(entries: seq<(Json, Json)>, key: Json, value: Json)
    ensures (key, value) in DictItems(entries) <==> Lookup(entries, key) == Some(value)
    ensures forall i, j :: 0 <= i < j < |DictItems(entries)| ==> DictItems(entries)[i].0 != DictItems(entries)[j].0
  {
    var r := DictItems(entries);
    var keys := Keys(entries);
    if Lookup(entries, key) == Some(value) {
      assert key in keys;
      var i :| 0 <= i < |keys| && keys[i] == key;
      assert r[i] == (key, value);
    }
  }

  predicate OccursAt(key: string, s: string, i: int)
  {
    0 <= i && i + |key| <= |s| && s[i..i + |key|] == key
  }

  /** `key in v`: a key test on a dictionary, a substring test on a string, a membership test on a
      list; None where Python raises TypeError. */
  function In(key: string, v: Json): (r: Option<bool>)
    ensures v.JObject? ==> r == Some(Lookup(v.entries, JStr(key)).Some?)
  {
    match v
    case JObject(entries) => Some(Lookup(entries, JStr(key)).Some?)
    case JStr(s) => Some(exists i | 0 <= i <= |s| :: OccursAt(key, s, i))
    case JList(items) => Some(JStr(key) in items)
    case _ => None
  }
}
