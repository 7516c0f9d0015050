/**
 * JSON values as the backend holds them after decoding a request body or a
 * JSON column. Objects keep their keys in insertion order, as Python dicts do.
 */
module Json {
  import opened Wrappers
  import Strings
  import Sequences

  datatype Value =
    | JNull
    | JBool(b: bool)
    | JNum(n: int)
    | JStr(s: string)
    | JArray(items: seq<Value>)
    | JObject(fields: seq<(string, Value)>)

  /** `key in d` for a decoded dict. */
  predicate HasKey(fields: seq<(string, Value)>, key: string)
  {
    exists k :: 0 <= k < |fields| && fields[k].0 == key
  }

  /** The keys of a dict in insertion order. */
  function Keys(fs: seq<(string, Value)>): (ks: seq<string>)
    ensures |ks| == |fs| && forall i :: 0 <= i < |fs| ==> ks[i] == fs[i].0
  {
    if fs == [] then [] else Keys(fs[..|fs| - 1]) + [fs[|fs| - 1].0]
  }

  lemma KeysHasKey(fs: seq<(string, Value)>, key: string)
    ensures HasKey(fs, key) <==> key in Keys(fs)
  {
    if key in Keys(fs) {
      var i :| 0 <= i < |fs| && Keys(fs)[i] == key;
      assert fs[i].0 == key;
    }
  }

  /** A key all of whose entries hold the same value is looked up to that value. */
  lemma GetUniform(fields: seq<(string, Value)>, key: string, v: Value)
    requires HasKey(fields, key)
    requires forall i :: 0 <= i < |fields| && fields[i].0 == key ==> fields[i].1 == v
    ensures Get(fields, key) == Some(v)
  {
    KeysHasKey(fields, key);
  }

  /** `d.get(key)`: the value stored under the key (the last one wins, as in a JSON decoder). */
  function Get(fields: seq<(string, Value)>, key: string): (r: Option<Value>)
    ensures r.Some? <==> HasKey(fields, key)
    ensures r.Some? ==> (key, r.value) in fields
  {
    if fields == [] then None
    else if fields[|fields| - 1].0 == key then Some(fields[|fields| - 1].1)
    else
      var r := Get(fields[..|fields| - 1], key);
      assert HasKey(fields, key) ==> HasKey(fields[..|fields| - 1], key) by {
        if HasKey(fields, key) {
          var k :| 0 <= k < |fields| && fields[k].0 == key;
          assert k < |fields| - 1 && fields[..|fields| - 1][k].0 == key;
        }
      }
      assert r.Some? ==> HasKey(fields, key) by {
        if r.Some? {
          var k :| 0 <= k < |fields| - 1 && fields[..|fields| - 1][k].0 == key;
          assert fields[k].0 == key;
        }
      }
      r
  }

  /** A key that no later entry repeats is looked up to its own value. */
  lemma {:induction false} GetAt(fields: seq<(string, Value)>, i: nat)
    requires i < |fields|
    requires forall j :: i < j < |fields| ==> fields[j].0 != fields[i].0
    ensures Get(fields, fields[i].0) == Some(fields[i].1)
  {
    if i < |fields| - 1 {
      var init := fields[..|fields| - 1];
      assert init[i] == fields[i];
      GetAt(init, i);
    }
  }

  /** `d.get(key, default)`. */
  function GetOr(fields: seq<(string, Value)>, key: string, default: Value): (r: Value)
    ensures !HasKey(fields, key) ==> r == default
    ensures HasKey(fields, key) ==> (key, r) in fields
  {
    Get(fields, key).GetOr(default)
  }

  /** The first of `keys` missing or falsy in the dict, if any. */
  function FirstMissing(body: seq<(string, Value)>, keys: seq<string>): (r: Option<string>)
    ensures r.Some? ==> r.value in keys && !Truthy(GetOr(body, r.value, JNull))
    ensures r.None? ==> forall f :: f in keys ==> Truthy(GetOr(body, f, JNull))
  {
    if keys == [] then None
    else if !Truthy(GetOr(body, keys[0], JNull)) then Some(keys[0])
    else FirstMissing(body, keys[1..])
  }

  /** Every one of `keys` is present and truthy: the loop over required fields finds nothing missing. */
  predicate AllGiven(body: seq<(string, Value)>, keys: seq<string>)
  {
    forall f :: f in keys ==> Truthy(GetOr(body, f, JNull))
  }

  /** A value the database driver can bind as a column parameter: a list or a dict cannot be bound. */
  predicate Bindable(v: Value)
  {
    !v.JArray? && !v.JObject?
  }

  /**
   * The text SQLite keeps when a scalar is bound to a TEXT-affinity column,
   * or compared with one: a string as itself, an integer by its decimal
   * text, a boolean as the integer 1 or 0 it is bound as. `None` for null,
   * and for the lists and dicts that cannot be bound.
   */
  function ColumnText(v: Value): (r: Option<string>)
    ensures r.Some? <==> Bindable(v) && !v.JNull?
    ensures v.JStr? ==> r == Some(v.s)
    ensures v.JBool? ==> r == Some(if v.b then "1" else "0")
  {
    match v
    case JStr(s) => Some(s)
    case JNum(n) => Some(Strings.IntToString(n))
    case JBool(b) => Some(if b then "1" else "0")
    case _ => None
  }

  /** A TEXT column read back after a bindable value was written to it: null stays null, a scalar comes back as its text. */
  function StoredText(v: Value): (r: Value)
    requires Bindable(v)
    ensures r.JNull? || r.JStr?
    ensures ColumnText(r) == ColumnText(v)
  {
    if v.JNull? then JNull else JStr(ColumnText(v).value)
  }

  /**
   * The integer an INTEGER-affinity column compares a bound scalar as: a
   * number as itself, a boolean as 1 or 0, a text that reads as an integer
   * as that integer. `None` when it equals no integer.
   */
  function IntegerKey(v: Value): (r: Option<int>)
    ensures v.JNum? ==> r == Some(v.n)
    ensures v.JStr? ==> r == Strings.IntegerText(v.s)
    ensures r.Some? ==> v.JNum? || v.JBool? || v.JStr?
  {
    match v
    case JNum(n) => Some(n)
    case JBool(b) => Some(if b then 1 else 0)
    case JStr(s) => Strings.IntegerText(s)
    case _ => None
  }

  /** Python `len(v)`; `None` is the TypeError of `len` on a number or a bool. */
  function PyLen(v: Value): Option<nat>
  {
    match v
    case JArray(xs) => Some(|xs|)
    case JObject(fs) => Some(DictSize(fs))
    case JStr(s) => Some(|s|)
    case _ => None
  }

  /**
   * Python `key in v` for a string key: a key of a dict, an element of a
   * list, a substring of a string. `None` is the TypeError of `in` on null,
   * a number or a boolean.
   */
  function PyIn(v: Value, key: string): (r: Option<bool>)
    ensures r.None? <==> v.JNull? || v.JBool? || v.JNum?
    ensures v.JObject? ==> r == Some(HasKey(v.fields, key))
    ensures v.JArray? ==> (r == Some(true) <==> exists i :: 0 <= i < |v.items| && v.items[i] == JStr(key))
  {
    match v
    case JObject(fs) => Some(HasKey(fs, key))
    case JArray(xs) => Some(JStr(key) in xs)
    case JStr(s) => Some(Strings.Contains(s, key))
    case _ => None
  }

  /** The number of keys of a decoded dict (a later duplicate key overwrites an earlier one). */
  function DictSize(fs: seq<(string, Value)>): nat
  {
    |Sequences.Distinct(Keys(fs))|
  }

  /** Python truthiness of a decoded value. */
  predicate Truthy(v: Value)
  {
    match v
    case JNull => false
    case JBool(b) => b
    case JNum(n) => n != 0
    case JStr(s) => s != ""
    case JArray(xs) => xs != []
    case JObject(fs) => fs != []
  }

  /**
   * `str(v)` in Python for the decoded value. Strings nested inside lists and
   * dicts are quoted with single quotes and not escaped.
   */
  function PyStr(v: Value): (r: string)
    ensures v.JStr? ==> r == v.s
  {
    match v
    case JStr(s) => s
    case _ => Repr(v)
  }

  function Repr(v: Value): string
  {
    match v
    case JNull => "None"
    case JBool(b) => if b then "True" else "False"
    case JNum(n) => Strings.IntToString(n)
    case JStr(s) => "'" + s + "'"
    case JArray(xs) => "[" + ReprItems(xs) + "]"
    case JObject(fs) => "{" + ReprFields(fs) + "}"
  }

  function ReprItems(xs: seq<Value>): string
    decreases xs
  {
    if xs == [] then ""
    else if |xs| == 1 then Repr(xs[0])
    else Repr(xs[0]) + ", " + ReprItems(xs[1..])
  }

  function ReprFields(fs: seq<(string, Value)>): string
    decreases fs
  {
    if fs == [] then ""
    else
      var (key, value) := fs[0];
      assert value < fs[0];
      var entry := "'" + key + "': " + Repr(value);
      if |fs| == 1 then entry else entry + ", " + ReprFields(fs[1..])
  }
}
