/**
 * JSON values as Python's `json` module produces them, and Python dicts with
 * string keys as ordered association lists: lookup finds the key, assignment
 * replaces the value in place or appends a new key at the end (the insertion
 * order that `dict.items()` and `json.dump` follow).
 */
module Json {
  import opened Wrappers

  datatype Value =
    | Null
    | Bool(b: bool)
    | Int(i: int)
    | Float(r: real)
    | Str(s: string)
    | Arr(items: seq<Value>)
    | Obj(fields: seq<Field>)

  datatype Field = Field(key: string, val: Value)

  /** A Python dict with string keys, in insertion order. */
  type Dict = seq<Field>

  /** Python truthiness: `None`, `False`, zero, and empty strings, lists and dicts are false. */
  predicate Truthy(v: Value) {
    match v
    case Null => false
    case Bool(b) => b
    case Int(i) => i != 0
    case Float(r) => r != 0.0
    case Str(s) => s != []
    case Arr(items) => items != []
    case Obj(fields) => fields != []
  }

  function Keys(d: Dict): (ks: seq<string>)
    ensures |ks| == |d| && forall i :: 0 <= i < |d| ==> ks[i] == d[i].key
  {
    if d == [] then [] else [d[0].key] + Keys(d[1..])
  }

  lemma KeysCons(f: Field, d: Dict)
    ensures Keys([f] + d) == [f.key] + Keys(d)
  {
    assert ([f] + d)[1..] == d;
  }

  lemma GetCons(f: Field, d: Dict, j: string)
    ensures Get([f] + d, j) == if f.key == j then Some(f.val) else Get(d, j)
  {
    assert ([f] + d)[1..] == d;
  }

  lemma GetConsAll(f: Field, d: Dict)
    ensures forall j :: Get([f] + d, j) == if f.key == j then Some(f.val) else Get(d, j)
  {
    assert ([f] + d)[1..] == d;
  }

  /** `k in d`. */
  predicate HasKey(d: Dict, k: string) {
    k in Keys(d)
  }

  predicate Distinct(xs: seq<string>) {
    forall i, j :: 0 <= i < j < |xs| ==> xs[i] != xs[j]
  }

  /** Every dict the source builds has distinct keys. */
  predicate DistinctKeys(d: Dict) {
    Distinct(Keys(d))
  }

  /** `d.get(k)`, as an option: the value of the first field named `k`. */
  function Get(d: Dict, k: string): (r: Option<Value>)
    ensures r.Some? <==> HasKey(d, k)
  {
    if d == [] then None
    else if d[0].key == k then Some(d[0].val)
    else Get(d[1..], k)
  }

  /** `d.get(k, default)`. */
  function GetOr(d: Dict, k: string, default: Value): Value {
    Get(d, k).GetOr(default)
  }

  /** What `d[k] = v` promises: `k` now maps to `v`, every other key keeps its value, and the
      key order is unchanged when `k` was present and gains `k` at the end otherwise. */
  ghost predicate Assigned(d: Dict, k: string, v: Value, r: Dict) {
    && Get(r, k) == Some(v)
    && (forall j :: j != k ==> Get(r, j) == Get(d, j))
    && Keys(r) == if HasKey(d, k) then Keys(d) else Keys(d) + [k]
  }

  /** `d[k] = v`: replaces the value of an existing key in place, or appends the key. */
  function Set(d: Dict, k: string, v: Value): (r: Dict)
    ensures Assigned(d, k, v, r)
  {
    if d == [] then [Field(k, v)]
    else if d[0].key == k then
      AssignedHead(d, k, v);
      [Field(k, v)] + d[1..]
    else
      var t := Set(d[1..], k, v);
      assert d == [d[0]] + d[1..];
      AssignedCons(d[0], d[1..], k, v, t);
      [d[0]] + t
  }

  lemma AssignedHead(d: Dict, k: string, v: Value)
    requires d != [] && d[0].key == k
    ensures Assigned(d, k, v, [Field(k, v)] + d[1..])
  {
    assert d == [d[0]] + d[1..];
    KeysCons(d[0], d[1..]);
    KeysCons(Field(k, v), d[1..]);
    GetConsAll(d[0], d[1..]);
    GetConsAll(Field(k, v), d[1..]);
  }

  lemma AssignedCons(f: Field, rest: Dict, k: string, v: Value, t: Dict)
    requires f.key != k
    requires Assigned(rest, k, v, t)
    ensures Assigned([f] + rest, k, v, [f] + t)
  {
    ConsKeys(f, rest, k, t);
    GetCons(f, t, k);
    ConsGets(f, rest, k, t);
  }

  lemma ConsGets(f: Field, rest: Dict, k: string, t: Dict)
    requires forall j :: j != k ==> Get(t, j) == Get(rest, j)
    ensures forall j :: j != k ==> Get([f] + t, j) == Get([f] + rest, j)
  {
    forall j | j != k
      ensures Get([f] + t, j) == Get([f] + rest, j)
    {
      GetCons(f, t, j);
      GetCons(f, rest, j);
    }
  }

  lemma ConsKeys(f: Field, rest: Dict, k: string, t: Dict)
    requires f.key != k
    requires Keys(t) == if HasKey(rest, k) then Keys(rest) else Keys(rest) + [k]
    ensures HasKey([f] + rest, k) == HasKey(rest, k)
    ensures Keys([f] + t) == if HasKey([f] + rest, k) then Keys([f] + rest) else Keys([f] + rest) + [k]
  {
    KeysCons(f, rest);
    KeysCons(f, t);
    if !HasKey(rest, k) {
      assert [f.key] + (Keys(rest) + [k]) == ([f.key] + Keys(rest)) + [k];
    }
  }

  /** `for key, value in p.items(): d[key] = value`. */
  function Merge(d: Dict, p: Dict): Dict
    decreases |p|
  {
    if p == [] then d else Merge(Set(d, p[0].key, p[0].val), p[1..])
  }

  /** The keys of `ks` that are not in `seen`, in order. */
  function Unseen(seen: seq<string>, ks: seq<string>): (r: seq<string>)
    ensures forall k :: k in r <==> k in ks && k !in seen
  {
    if ks == [] then []
    else if ks[0] in seen then Unseen(seen, ks[1..])
    else [ks[0]] + Unseen(seen, ks[1..])
  }

  /** After a merge, a key has the payload's value if the payload has it, and its old value otherwise. */
  lemma {:induction false} GetMerge(d: Dict, p: Dict, k: string)
    requires DistinctKeys(p)
    ensures Get(Merge(d, p), k) == if HasKey(p, k) then Get(p, k) else Get(d, k)
    decreases |p|
  {
    if p != [] {
      var d' := Set(d, p[0].key, p[0].val);
      assert Keys(p) == [p[0].key] + Keys(p[1..]);
      assert DistinctKeys(p[1..]) by {
        assert Keys(p[1..]) == Keys(p)[1..];
      }
      GetMerge(d', p[1..], k);
    }
  }

  /** A merge keeps the old keys in place and appends the payload's new keys in payload order. */
  lemma {:induction false} KeysMerge(d: Dict, p: Dict)
    requires DistinctKeys(p)
    ensures Keys(Merge(d, p)) == Keys(d) + Unseen(Keys(d), Keys(p))
    decreases |p|
  {
    if p != [] {
      var k, rest := p[0].key, p[1..];
      var d' := Set(d, k, p[0].val);
      assert p == [p[0]] + rest;
      KeysCons(p[0], rest);
      assert DistinctKeys(rest) by {
        assert Keys(rest) == Keys(p)[1..];
      }
      KeysMerge(d', rest);
      KeysMergeStep(Keys(d), Keys(d'), k, Keys(rest), Keys(p));
    }
  }

  lemma KeysMergeStep(ks: seq<string>, ks': seq<string>, k: string, rest: seq<string>, all: seq<string>)
    requires all == [k] + rest && Distinct(all)
    requires ks' == if k in ks then ks else ks + [k]
    ensures ks' + Unseen(ks', rest) == ks + Unseen(ks, all)
  {
    assert all[0] == k && all[1..] == rest;
    if k in ks {
      assert Unseen(ks, all) == Unseen(ks, rest);
    } else {
      assert k !in rest by {
        forall i | 0 <= i < |rest|
          ensures rest[i] != k
        {
          assert rest[i] == all[i + 1];
        }
      }
      assert Unseen(ks, all) == [k] + Unseen(ks, rest);
      UnseenSkips(ks, k, rest);
      assert (ks + [k]) + Unseen(ks, rest) == ks + ([k] + Unseen(ks, rest));
    }
  }

  lemma {:induction false} UnseenSkips(seen: seq<string>, k: string, ks: seq<string>)
    requires k !in ks
    ensures Unseen(seen + [k], ks) == Unseen(seen, ks)
  {
    if ks != [] {
      UnseenSkips(seen, k, ks[1..]);
    }
  }

  /** Assignment keeps the keys of a dict distinct. */
  lemma SetKeepsDistinct(d: Dict, k: string, v: Value)
    requires DistinctKeys(d)
    ensures DistinctKeys(Set(d, k, v))
  {
  }

  lemma {:induction false} MergeKeepsDistinct(d: Dict, p: Dict)
    requires DistinctKeys(d)
    ensures DistinctKeys(Merge(d, p))
    decreases |p|
  {
    if p != [] {
      SetKeepsDistinct(d, p[0].key, p[0].val);
      MergeKeepsDistinct(Set(d, p[0].key, p[0].val), p[1..]);
    }
  }

  /** A JSON text, represented by the value it encodes (`json.dumps` / `json.loads`). */
  datatype Blob = Blob(doc: Value)

  function Dumps(v: Value): Blob {
    Blob(v)
  }

  function Loads(b: Blob): Value {
    b.doc
  }
}
