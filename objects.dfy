/** JavaScript plain objects as the engine uses them: own properties in enumeration order, read
    with `o[k]`, written with `o[k] = v`, copied and merged with object spread; and the
    primitive values props carry, with JavaScript's truthiness and string conversion. */
module Objects {
  import opened Strings

  /** The own properties of an object, in the order `Object.keys` lists them: no key twice. */
  type Object<V> = o: seq<(string, V)> | DistinctKeys(o) witness []

  ghost predicate DistinctKeys<V>(o: seq<(string, V)>) {
    forall i, j :: 0 <= i < j < |o| ==> o[i].0 != o[j].0
  }

  /** `Object.keys(o)`. */
  function Keys<V>(o: seq<(string, V)>): (ks: seq<string>)
    ensures |ks| == |o|
    ensures forall i :: 0 <= i < |o| ==> ks[i] == o[i].0
  {
    if |o| == 0 then [] else [o[0].0] + Keys(o[1..])
  }

  /** `o.hasOwnProperty(k)`. */
  predicate Has<V>(o: seq<(string, V)>, k: string) {
    k in Keys(o)
  }

  /** `o[k]`: `None` stands for `undefined`. */
  function Get<V>(o: seq<(string, V)>, k: string): (r: Option<V>)
    ensures r.Some? <==> Has(o, k)
  {
    if |o| == 0 then None
    else if o[0].0 == k then Some(o[0].1)
    else Get(o[1..], k)
  }

  /** `o[k] = v`: an existing key keeps its place, a new key goes last. */
  function Put<V>(o: Object<V>, k: string, v: V): (r: Object<V>)
    ensures Keys(r) == if Has(o, k) then Keys(o) else Keys(o) + [k]
    ensures forall k' :: Get(r, k') == if k' == k then Some(v) else Get(o, k')
    decreases |o|
  {
    if |o| == 0 then [(k, v)]
    else if o[0].0 == k then
      var r := [(k, v)] + o[1..];
      assert r[1..] == o[1..];
      r
    else
      var tail := Put(o[1..], k, v);
      assert Keys(o) == [o[0].0] + Keys(o[1..]);
      FirstKeyNotInRest(o);
      DistinctCons(o[0], tail);
      var r := [o[0]] + tail;
      assert r[1..] == tail;
      r
  }

  lemma FirstKeyNotInRest<V>(o: Object<V>)
    requires |o| > 0
    ensures o[0].0 !in Keys(o[1..])
  {
    forall i | 0 <= i < |o| - 1
      ensures Keys(o[1..])[i] != o[0].0
    {
      assert o[1..][i] == o[i + 1];
    }
  }

  lemma DistinctCons<V>(x: (string, V), t: Object<V>)
    requires x.0 !in Keys(t)
    ensures DistinctKeys([x] + t)
  {
    var r := [x] + t;
    forall i, j | 0 <= i < j < |r|
      ensures r[i].0 != r[j].0
    {
      if i == 0 {
        assert Keys(t)[j - 1] == r[j].0;
      } else {
        assert r[i] == t[i - 1] && r[j] == t[j - 1];
      }
    }
  }

  /** `{ ...o, ...p }`: the properties of `p` override those of `o`; the keys of `o` keep
      their places and new keys follow in `p`'s order. */
  function Spread<V>(o: Object<V>, p: Object<V>): (r: Object<V>)
    ensures forall k :: Get(r, k) == if Has(p, k) then Get(p, k) else Get(o, k)
    ensures Keys(o) <= Keys(r)
    decreases |p|
  {
    if |p| == 0 then o
    else
      var r := Spread(Put(o, p[0].0, p[0].1), p[1..]);
      assert Keys(p) == [p[0].0] + Keys(p[1..]);
      r
  }

  /** Reading the key at index `i` yields the value stored there. */
  lemma {:induction false} GetAt<V>(o: Object<V>, i: nat)
    requires i < |o|
    ensures Get(o, Keys(o)[i]) == Some(o[i].1)
    decreases i
  {
    if i > 0 {
      var t: Object<V> := o[1..];
      assert t[i - 1] == o[i];
      GetAt(t, i - 1);
    }
  }

  /** The primitive values props carry: strings, numbers (integers only), booleans, and `null`,
      which also stands for `undefined`. */
  datatype Value = Str(s: string) | Num(n: int) | Bool(b: bool) | Null

  /** JavaScript truthiness. */
  predicate Truthy(v: Value) {
    match v
    case Str(s) => s != ""
    case Num(n) => n != 0
    case Bool(b) => b
    case Null => false
  }

  /** `o[k]` in a boolean context: a missing property is `undefined`, which is falsy. */
  predicate TruthyAt(o: seq<(string, Value)>, k: string) {
    match Get(o, k)
    case Some(v) => Truthy(v)
    case None => false
  }

  /** `String(v)`. */
  function ToText(v: Value): string {
    match v
    case Str(s) => s
    case Num(n) => if n < 0 then "-" + NatText(-n) else NatText(n)
    case Bool(b) => if b then "true" else "false"
    case Null => "null"
  }

  /** The decimal digits of `n`. */
  function NatText(n: nat): (r: string)
    ensures |r| > 0
    decreases n
  {
    var d := ['0' + (n % 10) as char];
    if n < 10 then d else NatText(n / 10) + d
  }

  /** `v || ''` as inserted into text: a falsy value shows as the empty string. */
  function Display(v: Value): (r: string)
    ensures !Truthy(v) ==> r == ""
    ensures Truthy(v) ==> r == ToText(v)
  {
    if Truthy(v) then ToText(v) else ""
  }
}
