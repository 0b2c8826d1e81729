/** The placeholder `{{ key }}`: the expression `\{\{\s*key\s*\}\}` that both the partial resolver
    and the runtime build from a key, and its global replacement by a value. */
module Tokens {
  import opened Strings

  /** Where a placeholder for `key` starting at `p` ends. Both `\s*` are greedy; for a key that
      does not begin with white space no other split of the spaces can match. */
  function TokenEnd(s: string, p: nat, key: string): (r: Option<nat>)
    ensures r.Some? ==> p < r.value <= |s| && StartsAt(s, p, "{{")
  {
    if !StartsAt(s, p, "{{") then None
    else
      var a := Span(s, p + 2, IsSpace);
      if !StartsAt(s, a, key) then None
      else
        var b := Span(s, a + |key|, IsSpace);
        if StartsAt(s, b, "}}") then Some(b + 2) else None
  }

  /** The placeholder at `p`, replaced by `value`. */
  function TokenHit(key: string, value: string, s: string, p: nat): (r: Option<Hit>)
    ensures r.Some? ==> p < r.value.end <= |s| && StartsAt(s, p, "{{")
  {
    match TokenEnd(s, p, key)
    case Some(e) => Some(Hit(e, value))
    case None => None
  }

  /** The matcher of the placeholder for `key`, replaced by `value`. */
  function Token(key: string, value: string): (m: Matcher)
    ensures Advances(m)
  {
    (t: string, q: nat) => TokenHit(key, value, t, q)
  }

  /** `s.replace(new RegExp('\\{\\{\\s*' + key + '\\s*\\}\\}', 'g'), value)`. */
  function Substitute(s: string, key: string, value: string): string {
    ReplaceAll(s, Token(key, value))
  }

  /** Every placeholder of every key replaced in turn, in the order of `keys`:
      `Object.keys(o).forEach(key => text = text.replace(token(key), value(key)))`. */
  function Substituted(text: string, params: seq<(string, string)>): string
    decreases |params|
  {
    if |params| == 0 then text else Substituted(Substitute(text, params[0].0, params[0].1), params[1..])
  }

  /** No placeholder can start where there is no opening brace. */
  lemma NoTokenWithoutBrace(s: string, key: string, value: string, p: nat)
    ensures p < |s| && s[p] != '{' ==> Token(key, value)(s, p).None?
  {
    if TokenHit(key, value, s, p).Some? {
      StartsAtFirst(s, p, "{{");
    }
  }

  /** No placeholder starts in the stretches before `p` and from `e` on when they hold no
      opening brace. */
  lemma NoTokenOutside(s: string, p: nat, e: nat, key: string, value: string)
    requires p <= e <= |s|
    requires '{' !in s[..p] && '{' !in s[e..]
    ensures forall k :: 0 <= k < p ==> Token(key, value)(s, k).None?
    ensures forall k :: e <= k < |s| ==> Token(key, value)(s, k).None?
  {
    forall k | 0 <= k < p
      ensures Token(key, value)(s, k).None?
    {
      assert s[k] == s[..p][k];
      NoTokenWithoutBrace(s, key, value, k);
    }
    forall k | e <= k < |s|
      ensures Token(key, value)(s, k).None?
    {
      assert s[k] == s[e..][k - e];
      NoTokenWithoutBrace(s, key, value, k);
    }
  }

  /** A text without an opening brace has nothing to substitute. */
  lemma SubstituteNoBrace(s: string, key: string, value: string)
    requires '{' !in s
    ensures Substitute(s, key, value) == s
  {
    forall k | 0 <= k < |s|
      ensures Token(key, value)(s, k).None?
    {
      NoTokenWithoutBrace(s, key, value, k);
    }
    ReplaceNoMatch(s, Token(key, value));
  }

  /** A placeholder between two stretches without opening braces is replaced by the value and
      the text around it is kept. */
  lemma SubstituteOne(s: string, p: nat, e: nat, key: string, value: string)
    requires TokenEnd(s, p, key) == Some(e)
    requires '{' !in s[..p] && '{' !in s[e..]
    ensures Substitute(s, key, value) == s[..p] + value + s[e..]
  {
    NoTokenOutside(s, p, e, key, value);
    ReplaceSplice(s, p, e, Token(key, value), value);
  }

  /** The placeholder's shape: braces, any spaces, the key, any spaces, braces. */
  lemma TokenAt(s: string, p: nat, w1: string, key: string, w2: string)
    requires StartsAt(s, p, "{{")
    requires StartsAt(s, p + 2, w1) && forall i :: 0 <= i < |w1| ==> IsSpace(w1[i])
    requires IsIdentifier(key) && StartsAt(s, p + 2 + |w1|, key)
    requires StartsAt(s, p + 2 + |w1| + |key|, w2) && forall i :: 0 <= i < |w2| ==> IsSpace(w2[i])
    requires StartsAt(s, p + 2 + |w1| + |key| + |w2|, "}}")
    ensures TokenEnd(s, p, key) == Some(p + 4 + |w1| + |key| + |w2|)
  {
    var a := p + 2 + |w1|;
    var b := a + |key| + |w2|;
    StartsAtFirst(s, a, key);
    SpanOver(s, p + 2, w1, IsSpace);
    StartsAtFirst(s, b, "}}");
    SpanOver(s, a + |key|, w2, IsSpace);
    TokenFromParts(s, p, key, a, b);
  }

  lemma TokenFromParts(s: string, p: nat, key: string, a: nat, b: nat)
    requires StartsAt(s, p, "{{") && Span(s, p + 2, IsSpace) == a && StartsAt(s, a, key)
    requires Span(s, a + |key|, IsSpace) == b && StartsAt(s, b, "}}")
    ensures TokenEnd(s, p, key) == Some(b + 2)
  {
  }
}
