/** A parsed TOML document as the readers of layout files see it. A table
    is its list of entries in iteration order, with distinct keys. */
module Toml {
  import opened Common
  import opened Primitives

  /** A value; `Float` holds a finite double as the real it denotes. */
  datatype Value =
    | Integer(n: i64)
    | Float(x: real)
    | String(s: string)
    | Boolean(b: bool)
    | Datetime
    | Array(items: seq<Value>)
    | Table(entries: seq<(string, Value)>)

  /** `table.get(key)` */
  function Get(entries: seq<(string, Value)>, key: string): (r: Option<Value>)
    ensures r.Some? ==> exists i :: 0 <= i < |entries| && entries[i] == (key, r.value)
    ensures r.None? <==> forall i :: 0 <= i < |entries| ==> entries[i].0 != key
  {
    if entries == [] then None
    else if entries[0].0 == key then Some(entries[0].1)
    else
      var r := Get(entries[1..], key);
      assert forall i :: 1 <= i < |entries| ==> entries[i] == entries[1..][i - 1];
      r
  }

  predicate ContainsKey(entries: seq<(string, Value)>, key: string) { Get(entries, key).Some? }

  /** `value.get(key)`: the entry of a table; nothing for any other value. */
  function GetIn(v: Value, key: string): Option<Value>
  {
    if v.Table? then Get(v.entries, key) else None
  }

  /** `table.insert(key, value)`: the entry with that key takes the new
      value in place, or a new entry is added; no other key changes. */
  function Insert(entries: seq<(string, Value)>, key: string, v: Value): (r: seq<(string, Value)>)
    ensures Get(r, key) == Some(v)
    ensures forall k :: k != key ==> Get(r, k) == Get(entries, k)
    ensures |r| == if ContainsKey(entries, key) then |entries| else |entries| + 1
  {
    if entries == [] then [(key, v)]
    else if entries[0].0 == key then [(key, v)] + entries[1..]
    else
      var rest := Insert(entries[1..], key, v);
      assert ([entries[0]] + rest)[1..] == rest;
      [entries[0]] + rest
  }
}
