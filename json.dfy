/** The optional value used for lookups that may find nothing. */
module Wrappers {
  datatype Option<+T> = None | Some(value: T)
}

/**
 * JSON values as Python's json module hands them to the processor, and the
 * few Python rules about them that the processor relies on: truth values,
 * `dict.get` with a default, iteration and `len`, and dictionary keys.
 * JSON does not distinguish integers from floats, so every number is a `real`.
 */
module Json {
  import opened Wrappers

  datatype Value =
    | Null
    | Bool(b: bool)
    | Num(n: real)
    | Str(s: string)
    | List(items: seq<Value>)
    | Obj(fields: map<string, Value>)

  /** Python's truth value of a JSON value: `not v` is `!Truthy(v)`. */
  predicate Truthy(v: Value) {
    match v
    case Null => false
    case Bool(b) => b
    case Num(n) => n != 0.0
    case Str(s) => s != ""
    case List(xs) => xs != []
    case Obj(m) => m != map[]
  }

  /**
   * `d.get(k0, d.get(k1, ... default))`, and equally the chain
   * `if k0 in d: ... elif k1 in d: ... else default`: the value stored under
   * the first of `keys` that is present, whatever that value is.
   */
  function FirstPresent(d: map<string, Value>, keys: seq<string>, default: Value): Value
  {
    if keys == [] then default
    else if keys[0] in d then d[keys[0]]
    else FirstPresent(d, keys[1..], default)
  }

  /** The first present alias wins, even when a later alias is present too. */
  lemma {:induction false} FirstPresentAt(d: map<string, Value>, keys: seq<string>, default: Value, i: nat)
    requires i < |keys| && keys[i] in d
    requires forall j :: 0 <= j < i ==> keys[j] !in d
    ensures FirstPresent(d, keys, default) == d[keys[i]]
  {
    if i > 0 {
      assert keys[0] !in d;
      FirstPresentAt(d, keys[1..], default, i - 1);
    }
  }

  /** With no alias present, the default is returned. */
  lemma {:induction false} FirstPresentAbsent(d: map<string, Value>, keys: seq<string>, default: Value)
    requires forall j :: 0 <= j < |keys| ==> keys[j] !in d
    ensures FirstPresent(d, keys, default) == default
  {
    if keys != [] {
      assert keys[0] !in d;
      FirstPresentAbsent(d, keys[1..], default);
    }
  }

  /** The one-, two- and three-alias chains the processor uses, unfolded. */
  lemma Aliases1(d: map<string, Value>, a: string, default: Value)
    ensures FirstPresent(d, [a], default) == if a in d then d[a] else default
  {
    assert [a][1..] == [];
  }

  lemma Aliases2(d: map<string, Value>, a: string, b: string, default: Value)
    ensures FirstPresent(d, [a, b], default) == if a in d then d[a] else if b in d then d[b] else default
  {
    assert [a, b][1..] == [b];
    Aliases1(d, b, default);
  }

  lemma Aliases3(d: map<string, Value>, a: string, b: string, c: string, default: Value)
    ensures FirstPresent(d, [a, b, c], default) ==
      if a in d then d[a] else if b in d then d[b] else if c in d then d[c] else default
  {
    assert [a, b, c][1..] == [b, c];
    Aliases2(d, b, c, default);
  }

  /**
   * What `for x in v` visits when `len(v)` has been taken first, as both
   * processing steps do: a list yields its items, an empty string or object
   * yields nothing; anything else raises, either in `len` (null, booleans,
   * numbers) or because its elements are strings without a `.get` method
   * (a non-empty string or object). `None` stands for the exception.
   */
  function Entries(v: Value): (r: Option<seq<Value>>)
    ensures r.Some? && r.value != [] <==> v.List? && v.items != []
    ensures r == Some([]) <==> v == List([]) || v == Str("") || v == Obj(map[])
    ensures v.List? ==> r == Some(v.items)
  {
    match v
    case List(xs) => Some(xs)
    case Str(s) => if s == "" then Some([]) else None
    case Obj(m) => if m == map[] then Some([]) else None
    case _ => None
  }

  /**
   * The dictionary key a value stands for. Python's `True == 1` and
   * `False == 0` hash alike, so they share the numeric key; lists and
   * objects are unhashable and make the lookup or store raise (`None`).
   */
  function HashKey(v: Value): (r: Option<Value>)
    ensures r.None? <==> v.List? || v.Obj?
    ensures r.Some? ==> !r.value.Bool?
    ensures v.Bool? ==> r == Some(Num(if v.b then 1.0 else 0.0))
    ensures v.Null? || v.Num? || v.Str? ==> r == Some(v)
  {
    match v
    case Bool(b) => Some(Num(if b then 1.0 else 0.0))
    case List(_) => None
    case Obj(_) => None
    case _ => Some(v)
  }

  /** Python's `sub in s` on strings. */
  predicate Contains(s: string, sub: string) {
    exists i :: 0 <= i <= |s| && sub <= s[i..]
  }
}
