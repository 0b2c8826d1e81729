/** `createHtml` of the emitted runtime: the directive stage, then the finalisation that
    substitutes every prop, removes attributes left empty and sweeps the placeholders that are
    still in the text. */
module Runtime {
  import opened Strings
  import opened Objects
  import opened Tokens
  import opened Directives

  /** What the substitution loop inserts, key by key in `Object.keys` order: `props[key] || ''`. */
  function Shown(props: seq<(string, Value)>): (r: seq<(string, string)>)
    ensures |r| == |props|
    ensures forall i :: 0 <= i < |props| ==> r[i].0 == props[i].0 && r[i].1 == Display(props[i].1)
  {
    if |props| == 0 then [] else [(props[0].0, Display(props[0].1))] + Shown(props[1..])
  }

  /** The prop substitution loop: every `{{ key }}` of every prop replaced by its shown value. */
  method SubstituteProps(template: string, props: Object<Value>) returns (out: string)
    ensures out == Substituted(template, Shown(props))
  {
    out := template;
    var keys := Keys(props);
    var shown := Shown(props);
    for i := 0 to |keys|
      invariant Substituted(out, shown[i..]) == Substituted(template, shown)
    {
      var key := keys[i];
      GetAt(props, i);
      assert shown[i..][1..] == shown[i + 1..];
      out := Substitute(out, key, Display(Get(props, key).value));
    }
  }

  /** A match of `\s[a-zA-Z0-9_-]+=['"]\s*['"]` at `p`: a white-space character, an attribute
      name, `=`, a quote, white space and a quote (either quote at either end). The name and the
      spaces are maximal runs: the character after each run is what the expression needs next,
      and no shorter run is followed by it. The match is removed. */
  function EmptyAttrAt(s: string, p: nat): (r: Option<Hit>)
    ensures r.Some? ==> p + 5 <= r.value.end <= |s| && r.value.output == "" && IsSpace(s[p])
  {
    if p >= |s| || !IsSpace(s[p]) then None
    else
      var n := Span(s, p + 1, IsIdentChar);
      if n == p + 1 || n + 1 >= |s| || s[n] != '=' || !IsQuote(s[n + 1]) then None
      else
        var w := Span(s, n + 2, IsSpace);
        if w < |s| && IsQuote(s[w]) then Some(Hit(w + 1, "")) else None
  }

  function EmptyAttr(): (m: Matcher)
    ensures Advances(m)
  {
    (t: string, q: nat) => EmptyAttrAt(t, q)
  }

  /** `template.replace(/\s[a-zA-Z0-9_-]+=['"]\s*['"]/g, '')`. */
  function StripEmptyAttrs(s: string): string {
    ReplaceAll(s, EmptyAttr())
  }

  /** A match of `\{\{[^}]+?\}\}` at `p`: the lazy interior cannot hold `}`, so it runs to the
      first `}`, which must start the closing braces and must not be the first character. The
      match is removed. */
  function LeftoverAt(s: string, p: nat): (r: Option<Hit>)
    ensures r.Some? ==> p + 5 <= r.value.end <= |s| && r.value.output == "" && StartsAt(s, p, "{{")
  {
    if !StartsAt(s, p, "{{") then None
    else
      match FindFrom(s, p + 2, "}")
      case None => None
      case Some(f) => if f > p + 2 && StartsAt(s, f, "}}") then Some(Hit(f + 2, "")) else None
  }

  function Leftover(): (m: Matcher)
    ensures Advances(m)
  {
    (t: string, q: nat) => LeftoverAt(t, q)
  }

  /** `template.replace(/\{\{[^}]+?\}\}/g, '')`. */
  function Sweep(s: string): string {
    ReplaceAll(s, Leftover())
  }

  /** The finalisation of lines 95-101. */
  function Finalize(s: string, props: Object<Value>): string {
    Sweep(StripEmptyAttrs(Substituted(s, Shown(props))))
  }

  /** What `createHtml(props)` returns for the source template. */
  function Html(template: string, props: Object<Value>): string {
    Finalize(Evaluate(template, props, MaxPasses), props)
  }

  /** `createHtml`, step by step as the runtime runs it. */
  method CreateHtml(template: string, props: Object<Value>) returns (html: string)
    ensures html == Html(template, props)
  {
    var t := EvaluateDirectives(template, props);
    t := SubstituteProps(t, props);
    t := StripEmptyAttrs(t);
    html := Sweep(t);
  }

  /** The shape the sweep removes: `{{`, at least one character other than `}`, `}}`. */
  lemma LeftoverToken(s: string, p: nat, f: nat)
    requires StartsAt(s, p, "{{") && p + 2 < f && StartsAt(s, f, "}}")
    requires forall k :: p + 2 <= k < f ==> s[k] != '}'
    ensures LeftoverAt(s, p) == Some(Hit(f + 2, ""))
  {
    assert StartsAt(s, f, "}") by {
      assert s[f + 0] == "}}"[0];
    }
    FindFirstChar(s, p + 2, "}", f);
  }

  lemma NoLeftoverWithoutBrace(s: string, p: nat)
    ensures p < |s| && s[p] != '{' ==> LeftoverAt(s, p).None?
  {
    if LeftoverAt(s, p).Some? {
      StartsAtFirst(s, p, "{{");
    }
  }

  /** Text without an opening brace is left alone by the sweep. */
  lemma SweepNoBrace(s: string)
    requires '{' !in s
    ensures Sweep(s) == s
  {
    forall k | 0 <= k < |s|
      ensures Leftover()(s, k).None?
    {
      NoLeftoverWithoutBrace(s, k);
    }
    ReplaceNoMatch(s, Leftover());
  }

  /** One placeholder between stretches without opening braces is removed and the rest kept. */
  lemma SweepOne(s: string, p: nat, f: nat)
    requires StartsAt(s, p, "{{") && p + 2 < f && StartsAt(s, f, "}}")
    requires forall k :: p + 2 <= k < f ==> s[k] != '}'
    requires '{' !in s[..p] && '{' !in s[f + 2..]
    ensures Sweep(s) == s[..p] + s[f + 2..]
  {
    LeftoverToken(s, p, f);
    forall k | 0 <= k < p
      ensures Leftover()(s, k).None?
    {
      assert s[k] == s[..p][k];
      NoLeftoverWithoutBrace(s, k);
    }
    forall k | f + 2 <= k < |s|
      ensures Leftover()(s, k).None?
    {
      assert s[k] == s[f + 2..][k - f - 2];
      NoLeftoverWithoutBrace(s, k);
    }
    ReplaceSplice(s, p, f + 2, Leftover(), "");
  }

  /** A stray `{{else}}` that no rule consumed is swept away. */
  lemma SweepElseTag(s: string, p: nat)
    requires StartsAt(s, p, "{{else}}")
    requires '{' !in s[..p] && '{' !in s[p + 8..]
    ensures Sweep(s) == s[..p] + s[p + 8..]
  {
    assert StartsAt(s, p, "{{") by {
      assert s[p + 0] == "{{else}}"[0] && s[p + 1] == "{{else}}"[1];
    }
    assert StartsAt(s, p + 6, "}}") by {
      assert s[p + 6] == "{{else}}"[6] && s[p + 7] == "{{else}}"[7];
    }
    forall k | p + 2 <= k < p + 6
      ensures s[k] != '}'
    {
      assert s[p + (k - p)] == "{{else}}"[k - p];
    }
    SweepOne(s, p, p + 6);
  }

  /** A stray `{{/if}}` that no rule consumed is swept away. */
  lemma SweepCloseTag(s: string, p: nat)
    requires StartsAt(s, p, "{{/if}}")
    requires '{' !in s[..p] && '{' !in s[p + 7..]
    ensures Sweep(s) == s[..p] + s[p + 7..]
  {
    assert StartsAt(s, p, "{{") by {
      assert s[p + 0] == "{{/if}}"[0] && s[p + 1] == "{{/if}}"[1];
    }
    assert StartsAt(s, p + 5, "}}") by {
      assert s[p + 5] == "{{/if}}"[5] && s[p + 6] == "{{/if}}"[6];
    }
    forall k | p + 2 <= k < p + 5
      ensures s[k] != '}'
    {
      assert s[p + (k - p)] == "{{/if}}"[k - p];
    }
    SweepOne(s, p, p + 5);
  }

  /** No empty attribute starts before `p` when the text before it holds no `=` and `s[p]` is
      white space: the name would have to run across `s[p]`. */
  lemma NoAttrBefore(s: string, k: nat, p: nat)
    ensures k < p < |s| && IsSpace(s[p]) && '=' !in s[..p] ==> EmptyAttrAt(s, k).None?
  {
    if k < p < |s| && EmptyAttrAt(s, k).Some? {
      var n := Span(s, k + 1, IsIdentChar);
      SpanAll(s, k + 1, IsIdentChar);
      if n < p {
        assert s[..p][n] == s[n];
      }
    }
  }

  /** No empty attribute starts from `e` on when the text from `e` holds no `=`. */
  lemma NoAttrAfter(s: string, k: nat, e: nat)
    ensures e <= k < |s| && '=' !in s[e..] ==> EmptyAttrAt(s, k).None?
  {
    if e <= k < |s| && EmptyAttrAt(s, k).Some? {
      var n := Span(s, k + 1, IsIdentChar);
      assert s[e..][n - e] == s[n];
    }
  }

  /** One empty attribute, in text with no other `=`, is removed with its leading white space. */
  lemma StripOneAttr(s: string, p: nat, e: nat)
    requires EmptyAttrAt(s, p) == Some(Hit(e, ""))
    requires '=' !in s[..p] && '=' !in s[e..]
    ensures StripEmptyAttrs(s) == s[..p] + s[e..]
  {
    forall k | 0 <= k < p
      ensures EmptyAttr()(s, k).None?
    {
      NoAttrBefore(s, k, p);
    }
    forall k | e <= k < |s|
      ensures EmptyAttr()(s, k).None?
    {
      NoAttrAfter(s, k, e);
    }
    ReplaceSplice(s, p, e, EmptyAttr(), "");
  }

  /** The parts of an empty attribute: white space, a name, `=`, a quote, white space, a quote. */
  lemma EmptyAttrShape(s: string, p: nat, n: nat, w: nat)
    requires p + 1 < n && n + 1 < w < |s|
    requires IsSpace(s[p]) && (forall k :: p + 1 <= k < n ==> IsIdentChar(s[k]))
    requires s[n] == '=' && IsQuote(s[n + 1])
    requires (forall k :: n + 2 <= k < w ==> IsSpace(s[k])) && IsQuote(s[w])
    ensures EmptyAttrAt(s, p) == Some(Hit(w + 1, ""))
  {
    SpanTo(s, p + 1, n, IsIdentChar);
    SpanTo(s, n + 2, w, IsSpace);
  }

  /** Every substitution leaves text without braces unchanged. */
  lemma {:induction false} SubstitutedNoBrace(s: string, params: seq<(string, string)>)
    requires '{' !in s
    ensures Substituted(s, params) == s
    decreases |params|
  {
    if |params| > 0 {
      SubstituteNoBrace(s, params[0].0, params[0].1);
      SubstitutedNoBrace(s, params[1..]);
    }
  }

  /** Removing empty attributes adds no brace. */
  lemma StripKeepsNoBrace(s: string)
    requires '{' !in s
    ensures '{' !in StripEmptyAttrs(s)
  {
    assert s[0..] == s;
    ReplaceKeepsAbsent(s, 0, EmptyAttr(), '{');
  }

  /** A template without braces loses only its empty attributes, whatever the props. */
  lemma HtmlNoBrace(template: string, props: Object<Value>)
    requires '{' !in template
    ensures Html(template, props) == StripEmptyAttrs(template)
  {
    NoBraceNoDirective(template);
    assert Evaluate(template, props, MaxPasses) == template;
    SubstitutedNoBrace(template, Shown(props));
    StripKeepsNoBrace(template);
    SweepNoBrace(StripEmptyAttrs(template));
  }
}
