/** The parameter list of a partial reference, `key="value"`, `key='value'` or `key=source`,
    scanned with the expression
    `([a-zA-Z0-9_-]+)=(['"])(.*?)\2|([a-zA-Z0-9_-]+)=([a-zA-Z0-9_-]+)`, and the parameter set it
    builds from the parent's. */
module Params {
  import opened Strings
  import opened Objects

  /** One match of the parameter expression: a quoted literal, or an alias that copies the
      parent's parameter `source` into `target`. */
  datatype Entry = Literal(key: string, value: string) | Alias(target: string, source: string)

  /** The closing quote of the lazy `(.*?)\2`: the first `q` from `k` on, provided no line
      terminator comes before it. */
  function CloseQuote(s: string, k: nat, q: char): (r: Option<nat>)
    requires k <= |s|
    ensures r.Some? ==> k <= r.value < |s| && s[r.value] == q
    ensures r.Some? ==> forall i :: k <= i < r.value ==> s[i] != q && !IsLineTerminator(s[i])
    ensures r.None? ==> forall i :: k <= i < |s| && s[i] == q ==>
                          exists j :: k <= j < i && IsLineTerminator(s[j])
    decreases |s| - k
  {
    if k == |s| then None
    else if s[k] == q then Some(k)
    else if IsLineTerminator(s[k]) then None
    else CloseQuote(s, k + 1, q)
  }

  /** The match that starts exactly at `p`, with the index after it. Both alternatives take the
      longest run of key characters before `=`; the first needs a quote after `=`, the second a
      key character, so at most one of them applies. */
  function EntryAt(s: string, p: nat): (r: Option<(Entry, nat)>)
    ensures r.Some? ==> p < r.value.1 <= |s|
  {
    if p >= |s| then None
    else
      var eq := Span(s, p, IsIdentChar);
      if eq == p || eq + 1 >= |s| || s[eq] != '=' then None
      else if IsQuote(s[eq + 1]) then
        match CloseQuote(s, eq + 2, s[eq + 1])
        case Some(g) => Some((Literal(s[p..eq], s[eq + 2..g]), g + 1))
        case None => None
      else
        var t := Span(s, eq + 1, IsIdentChar);
        if t == eq + 1 then None else Some((Alias(s[p..eq], s[eq + 1..t]), t))
  }

  /** `exec` from `lastIndex = p`: the leftmost match at or after `p`. */
  function NextEntry(s: string, p: nat): (r: Option<(nat, Entry, nat)>)
    requires p <= |s|
    ensures r.Some? ==> p <= r.value.0 && EntryAt(s, r.value.0) == Some((r.value.1, r.value.2))
    ensures r.Some? ==> forall k :: p <= k < r.value.0 ==> EntryAt(s, k).None?
    ensures r.None? ==> forall k :: p <= k ==> EntryAt(s, k).None?
    decreases |s| - p
  {
    if p == |s| then None
    else match EntryAt(s, p)
      case Some((e, end)) => Some((p, e, end))
      case None => NextEntry(s, p + 1)
  }

  /** Every match from `p` on, in order. */
  function Entries(s: string, p: nat): seq<Entry>
    requires p <= |s|
    decreases |s| - p
  {
    match NextEntry(s, p)
    case None => []
    case Some((_, e, end)) => [e] + Entries(s, end)
  }

  /** The effect of one match on the parameter set: a literal is stored; an alias copies the
      parent's property when the parent has it and otherwise does nothing. */
  function Apply(params: Object<string>, parent: Object<string>, e: Entry): Object<string> {
    match e
    case Literal(k, v) => Put(params, k, v)
    case Alias(t, src) =>
      match Get(parent, src)
      case Some(v) => Put(params, t, v)
      case None => params
  }

  function ApplyAll(params: Object<string>, parent: Object<string>, es: seq<Entry>): Object<string>
    decreases |es|
  {
    if |es| == 0 then params else ApplyAll(Apply(params, parent, es[0]), parent, es[1..])
  }

  /** The parameters a partial is expanded with: `{ ...parentParams }` updated by every match
      of the parameter string in turn. */
  function Merged(paramsString: string, parent: Object<string>): Object<string> {
    ApplyAll(parent, parent, Entries(paramsString, 0))
  }

  /** The value an entry gives to key `k`, if it gives one. */
  function Binds(e: Entry, parent: Object<string>, k: string): Option<string> {
    match e
    case Literal(key, v) => if key == k then Some(v) else None
    case Alias(t, src) => if t == k then Get(parent, src) else None
  }

  /** Reference definition: the value bound to `k` by the last entry that binds it. */
  function LastBinding(es: seq<Entry>, parent: Object<string>, k: string): Option<string>
    decreases |es|
  {
    if |es| == 0 then None
    else match Binds(es[|es| - 1], parent, k)
      case Some(v) => Some(v)
      case None => LastBinding(es[..|es| - 1], parent, k)
  }

  /** `while ((m = re.exec(paramsString)) !== null) { ... }` starting from `{ ...parentParams }`. */
  method ParseParams(paramsString: string, parent: Object<string>) returns (params: Object<string>)
    ensures params == Merged(paramsString, parent)
  {
    params := parent;
    var last: nat := 0;
    while true
      invariant last <= |paramsString|
      invariant ApplyAll(params, parent, Entries(paramsString, last)) == Merged(paramsString, parent)
      decreases |paramsString| - last
    {
      var m := NextEntry(paramsString, last);
      if m.None? {
        break;
      }
      var (_, entry, end) := m.value;
      match entry {
        case Literal(k, v) =>
          params := Put(params, k, v);
        case Alias(target, source) =>
          if Has(parent, source) {
            params := Put(params, target, Get(parent, source).value);
          }
      }
      last := end;
    }
  }

  lemma {:induction false} ApplyAllSnoc(params: Object<string>, parent: Object<string>, es: seq<Entry>, e: Entry)
    ensures ApplyAll(params, parent, es + [e]) == Apply(ApplyAll(params, parent, es), parent, e)
    decreases |es|
  {
    if |es| == 0 {
      assert (es + [e])[1..] == [];
    } else {
      assert (es + [e])[1..] == es[1..] + [e];
      ApplyAllSnoc(Apply(params, parent, es[0]), parent, es[1..], e);
    }
  }

  lemma ApplyLookup(params: Object<string>, parent: Object<string>, e: Entry, k: string)
    ensures Get(Apply(params, parent, e), k) ==
            match Binds(e, parent, k) case Some(v) => Some(v) case None => Get(params, k)
  {
  }

  /** The parameter set holds, for every key, the value of the last match that binds it, and
      otherwise what it held before. */
  lemma {:induction false} ApplyAllLookup(params: Object<string>, parent: Object<string>, es: seq<Entry>, k: string)
    ensures Get(ApplyAll(params, parent, es), k) ==
            match LastBinding(es, parent, k) case Some(v) => Some(v) case None => Get(params, k)
    decreases |es|
  {
    if |es| > 0 {
      var init := es[..|es| - 1];
      var e := es[|es| - 1];
      assert es == init + [e];
      ApplyAllSnoc(params, parent, init, e);
      ApplyAllLookup(params, parent, init, k);
      ApplyLookup(ApplyAll(params, parent, init), parent, e, k);
    }
  }

  /** The partial sees the parent's parameters, overridden by the last binding in its own list. */
  lemma MergedLookup(paramsString: string, parent: Object<string>, k: string)
    ensures Get(Merged(paramsString, parent), k) ==
            match LastBinding(Entries(paramsString, 0), parent, k)
            case Some(v) => Some(v)
            case None => Get(parent, k)
  {
    ApplyAllLookup(parent, parent, Entries(paramsString, 0), k);
  }

  /** Keys already present keep their places; the parameter set only grows. */
  lemma {:induction false} ApplyAllKeys(params: Object<string>, parent: Object<string>, es: seq<Entry>)
    ensures Keys(params) <= Keys(ApplyAll(params, parent, es))
    decreases |es|
  {
    if |es| > 0 {
      ApplyAllKeys(Apply(params, parent, es[0]), parent, es[1..]);
    }
  }

  /** A quoted value is read up to its closing quote, whatever it contains besides that quote
      and line terminators. */
  lemma LiteralAt(s: string, p: nat, key: string, q: char, value: string)
    requires IsIdentifier(key) && IsQuote(q) && StartsAt(s, p, key)
    requires p + |key| + 2 + |value| < |s|
    requires s[p + |key|] == '=' && s[p + |key| + 1] == q && s[p + |key| + 2 + |value|] == q
    requires StartsAt(s, p + |key| + 2, value)
    requires forall i :: 0 <= i < |value| ==> value[i] != q && !IsLineTerminator(value[i])
    ensures EntryAt(s, p) == Some((Literal(key, value), p + |key| + |value| + 3))
  {
    var eq := p + |key|;
    var g := eq + 2 + |value|;
    SpanOver(s, p, key, IsIdentChar);
    StartsAtSlice(s, p, key);
    StartsAtSlice(s, eq + 2, value);
    forall i | eq + 2 <= i < g
      ensures s[i] != q && !IsLineTerminator(s[i])
    {
      assert s[i] == value[i - (eq + 2)];
    }
    CloseQuoteExact(s, eq + 2, q, |value|);
    LiteralFromParts(s, p, eq, g);
  }

  lemma LiteralFromParts(s: string, p: nat, eq: nat, g: nat)
    requires p < eq && eq + 1 < |s| && s[eq] == '=' && IsQuote(s[eq + 1])
    requires Span(s, p, IsIdentChar) == eq && CloseQuote(s, eq + 2, s[eq + 1]) == Some(g)
    ensures EntryAt(s, p) == Some((Literal(s[p..eq], s[eq + 2..g]), g + 1))
  {
  }

  /** An unquoted value names a parameter of the parent. */
  lemma AliasAt(s: string, p: nat, target: string, source: string)
    requires IsIdentifier(target) && IsIdentifier(source) && StartsAt(s, p, target)
    requires p + |target| < |s| && s[p + |target|] == '='
    requires StartsAt(s, p + |target| + 1, source)
    requires p + |target| + 1 + |source| == |s| || !IsIdentChar(s[p + |target| + 1 + |source|])
    ensures EntryAt(s, p) == Some((Alias(target, source), p + |target| + 1 + |source|))
  {
    var eq := p + |target|;
    StartsAtFirst(s, eq + 1, source);
    SpanOver(s, p, target, IsIdentChar);
    SpanOver(s, eq + 1, source, IsIdentChar);
    StartsAtSlice(s, p, target);
    StartsAtSlice(s, eq + 1, source);
    AliasFromParts(s, p, eq, eq + 1 + |source|);
  }

  lemma AliasFromParts(s: string, p: nat, eq: nat, t: nat)
    requires p < eq && eq + 1 < t <= |s| && s[eq] == '=' && !IsQuote(s[eq + 1])
    requires Span(s, p, IsIdentChar) == eq && Span(s, eq + 1, IsIdentChar) == t
    ensures EntryAt(s, p) == Some((Alias(s[p..eq], s[eq + 1..t]), t))
  {
  }

  lemma {:induction false} CloseQuoteExact(s: string, k: nat, q: char, n: nat)
    requires k + n < |s| && s[k + n] == q
    requires forall i :: k <= i < k + n ==> s[i] != q && !IsLineTerminator(s[i])
    ensures CloseQuote(s, k, q) == Some(k + n)
    decreases n
  {
    if n > 0 {
      CloseQuoteExact(s, k + 1, q, n - 1);
    }
  }

  /** The last of two literals for the same key wins. */
  lemma LaterLiteralWins(s: string, parent: Object<string>)
    requires s == "a=\"1\" a=\"2\""
    ensures Get(Merged(s, parent), "a") == Some("2")
  {
    TwoLiterals(s);
    MergedLookup(s, parent, "a");
  }

  lemma TwoLiterals(s: string)
    requires s == "a=\"1\" a=\"2\""
    ensures Entries(s, 0) == [Literal("a", "1"), Literal("a", "2")]
  {
    LiteralAt(s, 0, "a", '"', "1");
    LiteralAt(s, 6, "a", '"', "2");
    assert EntryAt(s, 5).None? by {
      assert Span(s, 5, IsIdentChar) == 5;
    }
    assert NextEntry(s, 5) == Some((6, Literal("a", "2"), 11));
    assert Entries(s, 11) == [];
  }

  /** An alias whose source the parent lacks leaves the parameters as the parent's. */
  lemma MissingAliasIgnored(parent: Object<string>, target: string, source: string)
    requires IsIdentifier(target) && IsIdentifier(source) && !Has(parent, source)
    ensures Merged(target + "=" + source, parent) == parent
  {
    var s := target + "=" + source;
    assert StartsAt(s, 0, s);
    AliasAt(s, 0, target, source);
    assert Entries(s, |s|) == [];
    assert Entries(s, 0) == [Alias(target, source)];
    assert Apply(parent, parent, Alias(target, source)) == parent;
    assert [Alias(target, source)][1..] == [];
    assert ApplyAll(parent, parent, [Alias(target, source)]) == ApplyAll(parent, parent, []);
  }
}
