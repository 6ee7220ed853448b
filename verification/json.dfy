/** The JSON data model the classifier works on, and serde_json's indexing of it.

    An object keeps its members in the order they were written, duplicates
    included, so that the same value can stand for a JSON text being decoded
    member by member (as serde's derived struct decoding does) and for a
    `serde_json::Value` (where a later member replaces an earlier one).
 */
module Json {

  import opened Wrappers

  /** A JSON value. A number is kept as `mantissa * 10^exponent`, which is
      exact for every decimal literal; the model never computes with numbers. */
  datatype Json =
    | Null
    | Bool(b: bool)
    | Num(mantissa: int, exponent: int)
    | Str(s: string)
    | Arr(items: seq<Json>)
    | Obj(members: seq<(string, Json)>)

  /** True when some member of `ms` is named `key`. */
  predicate HasKey(ms: seq<(string, Json)>, key: string)
  {
    exists i :: 0 <= i < |ms| && ms[i].0 == key
  }

  /** No two members of `ms` share a name (what a `serde_json::Map` guarantees). */
  predicate DistinctKeys(ms: seq<(string, Json)>)
  {
    forall i, j :: 0 <= i < j < |ms| ==> ms[i].0 != ms[j].0
  }

  /** The value of the last member of `ms` named `key`, or `Null` when there is none. */
  function LastValue(ms: seq<(string, Json)>, key: string): (r: Json)
    ensures !HasKey(ms, key) ==> r == Null
    ensures HasKey(ms, key) ==> (key, r) in ms
  {
    if |ms| == 0 then Null
    else if ms[|ms| - 1].0 == key then ms[|ms| - 1].1
    else
      var r' := LastValue(ms[..|ms| - 1], key);
      assert HasKey(ms[..|ms| - 1], key) ==> (key, r') in ms[..|ms| - 1];
      r'
  }

  /** The member `LastValue` returns is the last one with that name: any member
      named `key` that no later member shadows carries the result. */
  lemma {:induction false} LastValueIsLast(ms: seq<(string, Json)>, key: string, i: nat)
    requires i < |ms| && ms[i].0 == key
    requires forall j :: i < j < |ms| ==> ms[j].0 != key
    ensures LastValue(ms, key) == ms[i].1
    decreases |ms|
  {
    if i < |ms| - 1 {
      var init := ms[..|ms| - 1];
      assert init[i] == ms[i];
      forall j | i < j < |init| ensures init[j].0 != key {
        assert init[j] == ms[j];
      }
      LastValueIsLast(init, key, i);
    }
  }

  /** serde_json's `value[key]` on a shared reference: the member's value when
      `v` is an object holding `key` (the last one written, since building a
      `Value` lets a later member overwrite an earlier one), and `Null` for a
      missing key or a value that is not an object. It never fails. */
  function Get(v: Json, key: string): (r: Json)
    ensures !v.Obj? ==> r == Null
    ensures v.Obj? && !HasKey(v.members, key) ==> r == Null
    ensures v.Obj? && HasKey(v.members, key) ==> (key, r) in v.members
  {
    match v
    case Obj(ms) => LastValue(ms, key)
    case _ => Null
  }

  /** serde_json's `value[i]`: the element when `v` is an array longer than `i`,
      and `Null` otherwise. It never fails. */
  function At(v: Json, i: nat): Json
  {
    if v.Arr? && i < |v.items| then v.items[i] else Null
  }

  /** In an object with distinct member names, indexing finds the one member
      with that name. */
  lemma GetDistinct(ms: seq<(string, Json)>, i: nat)
    requires DistinctKeys(ms)
    requires i < |ms|
    ensures Get(Obj(ms), ms[i].0) == ms[i].1
  {
    LastValueIsLast(ms, ms[i].0, i);
  }

  /** A string array holding `ss` in order. */
  function StrArray(ss: seq<string>): (r: Json)
    ensures r.Arr? && |r.items| == |ss|
    ensures forall i :: 0 <= i < |ss| ==> r.items[i] == Str(ss[i])
  {
    Arr(seq(|ss|, i requires 0 <= i < |ss| => Str(ss[i])))
  }

  /** Reads a JSON array whose elements are all strings back into the strings. */
  function AsStrings(v: Json): (r: Option<seq<string>>)
  {
    if v.Arr? && forall i :: 0 <= i < |v.items| ==> v.items[i].Str? then
      Some(seq(|v.items|, i requires 0 <= i < |v.items| => v.items[i].s))
    else
      None
  }
}
