/**
  The dynamic values the processor handles: the host's environment values, the
  installer dictionaries it iterates over, and the manifest record it builds.
  Only strings, lists and dictionaries are modelled; a dictionary keeps its
  insertion order, as Python's does.
 */
module Values {
  import opened Wrappers

  datatype Value =
    | Str(s: string)
    | List(items: seq<Value>)
    | Dict(fields: Fields)

  /**
    An insertion-ordered dictionary. A Python dictionary never holds a key
    twice; the type does not enforce this, so dictionaries taken as input are
    assumed to have distinct keys (on a duplicate, `Find` would return the
    first entry where Python keeps the last write). The records the processor
    builds are proved to have distinct keys.
   */
  type Fields = seq<(string, Value)>

  /** The processor's environment (`self.env`). */
  type Env = map<string, Value>

  /** Python truthiness: an empty string, list or dictionary is false. */
  predicate Truthy(v: Value) {
    match v
    case Str(s) => s != ""
    case List(xs) => xs != []
    case Dict(fs) => fs != []
  }

  /** The keys of a dictionary, in insertion order. */
  function Keys(fields: Fields): seq<string> {
    seq(|fields|, i requires 0 <= i < |fields| => fields[i].0)
  }

  /** The value stored under `key`, if any. */
  function Find(fields: Fields, key: string): Option<Value>
  {
    if fields == [] then None
    else if fields[0].0 == key then Some(fields[0].1)
    else Find(fields[1..], key)
  }

  /** `d.get(key, default)` on a dictionary value. */
  function DictGet(fields: Fields, key: string, default: Value): Value {
    match Find(fields, key)
    case Some(v) => v
    case None => default
  }

  /** `self.env.get(key, default)`. */
  function EnvGet(env: Env, key: string, default: Value): Value {
    if key in env then env[key] else default
  }

  /** The two environments hold the same entries (or lack them alike) for every key in `keys`. */
  predicate AgreeOn(env1: Env, env2: Env, keys: set<string>) {
    forall k :: k in keys ==> (k in env1 <==> k in env2) && (k in env1 ==> env1[k] == env2[k])
  }

  /** Setting one key leaves `get` on every other key as it was. */
  lemma EnvGetOther(env: Env, k: string, v: Value, other: string, default: Value)
    requires k != other
    ensures EnvGet(env[k := v], other, default) == EnvGet(env, other, default)
  {
  }

  /** Setting a key outside `keys` leaves the environment as it was on `keys`. */
  lemma AgreeOnUpdate(env: Env, k: string, v: Value, keys: set<string>)
    requires k !in keys
    ensures AgreeOn(env, env[k := v], keys)
  {
  }

  /** Agreeing environments give the same `get` on a key they agree on. */
  lemma AgreeOnGet(env1: Env, env2: Env, keys: set<string>, k: string, default: Value)
    requires AgreeOn(env1, env2, keys) && k in keys
    ensures EnvGet(env1, k, default) == EnvGet(env2, k, default)
  {
  }

  /**
    The elements a Python `for` loop visits: the items of a list, the
    one-character strings of a string, the keys of a dictionary. Only list
    elements can be dictionaries.
   */
  function Iterate(v: Value): (items: seq<Value>)
    ensures |items| == 0 <==> !Truthy(v)
    ensures v.List? ==> items == v.items
    ensures !v.List? ==> forall i :: 0 <= i < |items| ==> items[i].Str?
  {
    match v
    case Str(s) => seq(|s|, i requires 0 <= i < |s| => Str([s[i]]))
    case List(xs) => xs
    case Dict(fs) => seq(|fs|, i requires 0 <= i < |fs| => Str(fs[i].0))
  }

  /** A key is found exactly when it is one of the dictionary's keys. */
  lemma {:induction false} FindSomeIff(fields: Fields, key: string)
    ensures Find(fields, key).Some? <==> key in Keys(fields)
  {
    if fields != [] {
      assert Keys(fields) == [fields[0].0] + Keys(fields[1..]);
      FindSomeIff(fields[1..], key);
    }
  }

  /** Looking a key up in a concatenation searches the first part first. */
  lemma {:induction false} FindAppend(a: Fields, b: Fields, key: string)
    ensures Find(a + b, key) == if Find(a, key).Some? then Find(a, key) else Find(b, key)
  {
    if a == [] {
      assert a + b == b;
    } else {
      assert (a + b)[0] == a[0];
      assert (a + b)[1..] == a[1..] + b;
      FindAppend(a[1..], b, key);
    }
  }

  /** The keys of a concatenation are the keys of its parts. */
  lemma {:induction false} KeysAppend(a: Fields, b: Fields)
    ensures Keys(a + b) == Keys(a) + Keys(b)
  {
    if a != [] {
      assert (a + b)[1..] == a[1..] + b;
      KeysAppend(a[1..], b);
    }
  }

  /** No string occurs twice. */
  predicate Distinct(ks: seq<string>) {
    forall p, q :: 0 <= p < q < |ks| ==> ks[p] != ks[q]
  }

  /** No key occurs twice. */
  predicate DistinctKeys(fields: Fields) {
    Distinct(Keys(fields))
  }

  /** Two duplicate-free sequences with no common element concatenate to a duplicate-free one. */
  lemma DistinctAppend(a: seq<string>, b: seq<string>)
    requires Distinct(a) && Distinct(b)
    requires forall x :: x in a ==> x !in b
    ensures Distinct(a + b)
  {
    forall p, q | 0 <= p < q < |a + b| ensures (a + b)[p] != (a + b)[q] {
      if q >= |a| && p < |a| {
        assert (a + b)[p] in a && (a + b)[q] in b;
      }
    }
  }

  /** In a dictionary whose keys are distinct, `Find` returns the entry at the key's position. */
  lemma {:induction false} FindDistinct(fields: Fields, i: nat)
    requires i < |fields|
    requires DistinctKeys(fields)
    ensures Find(fields, fields[i].0) == Some(fields[i].1)
  {
    if i > 0 {
      assert Keys(fields)[0] != Keys(fields)[i];
      assert Keys(fields[1..]) == Keys(fields)[1..];
      FindDistinct(fields[1..], i - 1);
    }
  }
}
