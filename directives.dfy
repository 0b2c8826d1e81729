/** The directive stage of `createHtml`: at most ten passes, each rewriting the template with the
    four block rules in a fixed order, while the template still contains `{{#if`. */
module Directives {
  import opened Strings
  import opened Objects

  /** `maxIterations`. */
  const MaxPasses: nat := 10

  /** The closing tag `tag\s*\}\}` at `k` (`tag` is `{{else` or `{{/if`), with the index after
      it. The spaces are all taken, since `}` is not a space. */
  function TagEnd(s: string, k: nat, tag: string): (r: Option<nat>)
    ensures r.Some? ==> k + |tag| + 2 <= r.value <= |s| && StartsAt(s, k, tag)
  {
    if !StartsAt(s, k, tag) then None else TagRest(s, k + |tag|)
  }

  /** The `\s*\}\}` that ends a closing tag, from `i`. */
  function TagRest(s: string, i: nat): (r: Option<nat>)
    requires i <= |s|
    ensures r.Some? ==> i + 2 <= r.value <= |s|
    decreases |s| - i
  {
    if i + 1 < |s| && s[i] == '}' && s[i + 1] == '}' then Some(i + 2)
    else if i < |s| && IsSpace(s[i]) then TagRest(s, i + 1)
    else None
  }

  /** The lazy body `(.*?)\{\{\/if\s*\}\}` from `k`: the first `{{/if}}` tag, with the body's end
      and the match's end. Without `dotAll` (the `.` class) the body cannot cross a line
      terminator; with it (the class `[\s\S]`) it can. */
  function LazyClose(s: string, k: nat, dotAll: bool): (r: Option<(nat, nat)>)
    requires k <= |s|
    ensures r.Some? ==> k <= r.value.0 && r.value.0 + 7 <= r.value.1 <= |s|
    decreases |s| - k
  {
    match TagEnd(s, k, "{{/if")
    case Some(e) => Some((k, e))
    case None =>
      if k == |s| || (!dotAll && IsLineTerminator(s[k])) then None else LazyClose(s, k + 1, dotAll)
  }

  /** The rest of an if-else block when the first body ends at `j`: the `{{else}}` tag there and
      the lazy second body. The result is the first body's end, the second body's start and end,
      and the match's end. */
  function ElseTail(s: string, j: nat, dotAll: bool): (r: Option<(nat, nat, nat, nat)>)
    requires j <= |s|
    ensures r.Some? ==> r.value.0 == j && j + 8 <= r.value.1 <= r.value.2 && r.value.2 + 7 <= r.value.3 <= |s|
  {
    match TagEnd(s, j, "{{else")
    case None => None
    case Some(e1) =>
      match LazyClose(s, e1, dotAll)
      case None => None
      case Some((c, end)) => Some((j, e1, c, end))
  }

  /** The lazy first body of an if-else block from `k`: it grows one character at a time until
      the rest of the block matches. */
  function LazyElse(s: string, k: nat, dotAll: bool): (r: Option<(nat, nat, nat, nat)>)
    requires k <= |s|
    ensures r.Some? ==> k <= r.value.0 && r.value.0 + 8 <= r.value.1 <= r.value.2
    ensures r.Some? ==> r.value.2 + 7 <= r.value.3 <= |s|
    decreases |s| - k
  {
    var tail := ElseTail(s, k, dotAll);
    if tail.Some? then tail
    else if k == |s| || (!dotAll && IsLineTerminator(s[k])) then None
    else LazyElse(s, k + 1, dotAll)
  }

  /** The opener `\{\{#if\s+([^}]+?)\}\}` at `p`: where its condition ends, two characters
      before the opener does. The condition runs to the first `}`, which must be doubled; at
      least one space and one more character come before it. */
  function BareOpener(s: string, p: nat): (r: Option<nat>)
    ensures r.Some? ==> StartsAt(s, p, "{{#if") && p + 9 <= r.value <= |s|
  {
    if !StartsAt(s, p, "{{#if") || p + 5 >= |s| || !IsSpace(s[p + 5]) then None
    else
      match FindFrom(s, p + 5, "}")
      case None => None
      case Some(f) => if f >= p + 7 && StartsAt(s, f, "}}") then Some(f + 2) else None
  }

  /** The parts of an equality opener: the key `s[key..keyEnd]`, the expected value
      `s[value..valueEnd]` and the index after the opener. */
  datatype EqParts = EqParts(key: nat, keyEnd: nat, value: nat, valueEnd: nat, end: nat)

  /** The opener `\{\{#if\s*\((eq\s+([^\s]+)\s+"([^"]+)"\s*)\)\}\}` at `p`. Every repetition
      in it is followed by a character it cannot take, so each one takes its longest run; the
      helpers below read it from left to right. */
  function EqOpener(s: string, p: nat): (r: Option<EqParts>)
    ensures r.Some? ==> StartsAt(s, p, "{{#if")
    ensures r.Some? ==> p + 8 < r.value.key <= r.value.keyEnd <= r.value.value <= r.value.valueEnd < r.value.end <= |s|
    ensures r.Some? ==> 3 <= r.value.end && StartsAt(s, r.value.end - 3, ")}}")
  {
    if !StartsAt(s, p, "{{#if") then None else EqParen(s, p + 5, Span(s, p + 5, IsSpace))
  }

  /** `\((eq\s+` from `a`, after the spaces that follow `#if`. */
  function EqParen(s: string, i: nat, a: nat): (r: Option<EqParts>)
    requires i <= a <= |s|
    ensures r.Some? ==> a + 3 < r.value.key <= r.value.keyEnd <= r.value.value <= r.value.valueEnd < r.value.end <= |s|
    ensures r.Some? ==> 3 <= r.value.end && StartsAt(s, r.value.end - 3, ")}}")
  {
    if !StartsAt(s, a, "(eq") then None else EqKey(s, a + 3, Span(s, a + 3, IsSpace))
  }

  /** `([^\s]+)\s+"` from `b`, after at least one space. */
  function EqKey(s: string, i: nat, b: nat): (r: Option<EqParts>)
    requires i <= b <= |s|
    ensures r.Some? ==> i < r.value.key <= r.value.keyEnd <= r.value.value <= r.value.valueEnd < r.value.end <= |s|
    ensures r.Some? ==> 3 <= r.value.end && StartsAt(s, r.value.end - 3, ")}}")
  {
    if b == i then None
    else
      var c := Span(s, b, IsNotSpace);
      var d := Span(s, c, IsSpace);
      if c == b || d == c || !StartsAt(s, d, "\"") then None else EqValue(s, b, c, d + 1, FindFrom(s, d + 1, "\""))
  }

  /** `([^"]+)"\s*\)\}\}` from `v`, where the next quote is at `close`. */
  function EqValue(s: string, b: nat, c: nat, v: nat, close: Option<nat>): (r: Option<EqParts>)
    requires b <= c < v <= |s|
    requires close.Some? ==> v <= close.value < |s|
    ensures r.Some? ==> r.value.key == b && r.value.keyEnd == c && r.value.value == v
    ensures r.Some? ==> v < r.value.valueEnd < r.value.end <= |s|
    ensures r.Some? ==> 3 <= r.value.end && StartsAt(s, r.value.end - 3, ")}}")
  {
    match close
    case None => None
    case Some(q) =>
      var g := Span(s, q + 1, IsSpace);
      if q == v || !StartsAt(s, g, ")}}") then None else Some(EqParts(b, c, v, q, g + 3))
  }

  /** The four rewrite rules of a pass, in the order they run. */
  datatype Rule = BareElse | BareOnly | EqElse | EqOnly

  /** The positions of a matched block: the first body `s[body..bodyEnd]`, the second body
      `s[alt..altEnd]` (empty for a block without `{{else}}`) and the index after the match. */
  datatype Block = Block(body: nat, bodyEnd: nat, alt: nat, altEnd: nat, end: nat)

  /** A block matched at `p` lies after it, in order, inside `s`. */
  predicate Within(s: string, p: nat, b: Block) {
    p < b.body <= b.bodyEnd <= b.alt <= b.altEnd < b.end <= |s|
  }

  /** The text a block's callback returns: the first body when the condition holds, the
      second otherwise. */
  function Chosen(s: string, b: Block, holds: bool): (r: string)
    requires b.body <= b.bodyEnd <= |s| && b.alt <= b.altEnd <= |s|
    ensures holds ==> r == s[b.body..b.bodyEnd]
    ensures !holds ==> r == s[b.alt..b.altEnd]
  {
    if holds then s[b.body..b.bodyEnd] else s[b.alt..b.altEnd]
  }

  /** Rule 1, `\{\{#if\s+([^}]+?)\}\}(.*?)\{\{else\s*\}\}(.*?)\{\{\/if\s*\}\}`: the end of the
      condition and the block. */
  function BareElseMatch(s: string, p: nat): (r: Option<(nat, Block)>)
    ensures r.Some? ==> StartsAt(s, p, "{{#if") && p + 7 <= r.value.0 && r.value.0 + 2 == r.value.1.body
    ensures r.Some? ==> Within(s, p, r.value.1)
  {
    match BareOpener(s, p)
    case None => None
    case Some(o) =>
      match LazyElse(s, o, false)
      case None => None
      case Some((j, e1, c, end)) => Some((o - 2, Block(o, j, e1, c, end)))
  }

  /** Rule 2, `\{\{#if\s+([^}]+?)\}\}(.*?)\{\{\/if\s*\}\}`: the end of the condition and the
      block, whose second body is empty. */
  function BareOnlyMatch(s: string, p: nat): (r: Option<(nat, Block)>)
    ensures r.Some? ==> StartsAt(s, p, "{{#if") && p + 7 <= r.value.0 && r.value.0 + 2 == r.value.1.body
    ensures r.Some? ==> Within(s, p, r.value.1) && r.value.1.alt == r.value.1.altEnd
  {
    match BareOpener(s, p)
    case None => None
    case Some(o) =>
      match LazyClose(s, o, false)
      case None => None
      case Some((c, end)) => Some((o - 2, Block(o, c, c, c, end)))
  }

  /** Rule 3, the equality opener followed by `([\s\S]*?)\{\{else\s*\}\}([\s\S]*?)\{\{\/if\s*\}\}`. */
  function EqElseMatch(s: string, p: nat): (r: Option<(EqParts, Block)>)
    ensures r.Some? ==> StartsAt(s, p, "{{#if") && r.value.0.end == r.value.1.body
    ensures r.Some? ==> r.value.0.key <= r.value.0.keyEnd <= r.value.0.value <= r.value.0.valueEnd < r.value.0.end
    ensures r.Some? ==> Within(s, p, r.value.1)
  {
    match EqOpener(s, p)
    case None => None
    case Some(q) =>
      match LazyElse(s, q.end, true)
      case None => None
      case Some((j, e1, c, end)) => Some((q, Block(q.end, j, e1, c, end)))
  }

  /** Rule 4, the equality opener followed by `([\s\S]*?)\{\{\/if\s*\}\}`. */
  function EqOnlyMatch(s: string, p: nat): (r: Option<(EqParts, Block)>)
    ensures r.Some? ==> StartsAt(s, p, "{{#if") && r.value.0.end == r.value.1.body
    ensures r.Some? ==> r.value.0.key <= r.value.0.keyEnd <= r.value.0.value <= r.value.0.valueEnd < r.value.0.end
    ensures r.Some? ==> Within(s, p, r.value.1) && r.value.1.alt == r.value.1.altEnd
  {
    match EqOpener(s, p)
    case None => None
    case Some(q) =>
      match LazyClose(s, q.end, true)
      case None => None
      case Some((c, end)) => Some((q, Block(q.end, c, c, c, end)))
  }

  /** The callback of rules 1 and 2: `props[condition.trim()]` decides. */
  function BareHit(props: Object<Value>, s: string, p: nat, m: Option<(nat, Block)>): (r: Option<Hit>)
    requires m.Some? ==> p + 5 <= m.value.0 <= |s| && Within(s, p, m.value.1)
    ensures r.Some? <==> m.Some?
    ensures r.Some? ==> r.value.end == m.value.1.end
  {
    match m
    case None => None
    case Some((f, b)) => Some(Hit(b.end, Chosen(s, b, TruthyAt(props, Trim(s[p + 5..f])))))
  }

  /** `props[propKey] === expectedVal`: the prop is that very string. */
  predicate EqHolds(props: Object<Value>, s: string, q: EqParts)
    requires q.key <= q.keyEnd <= |s| && q.value <= q.valueEnd <= |s|
  {
    Get(props, s[q.key..q.keyEnd]) == Some(Str(s[q.value..q.valueEnd]))
  }

  /** The callback of rules 3 and 4. */
  function EqHit(props: Object<Value>, s: string, p: nat, m: Option<(EqParts, Block)>): (r: Option<Hit>)
    requires m.Some? ==> m.value.0.key <= m.value.0.keyEnd <= m.value.0.value <= m.value.0.valueEnd <= |s|
    requires m.Some? ==> Within(s, p, m.value.1)
    ensures r.Some? <==> m.Some?
    ensures r.Some? ==> r.value.end == m.value.1.end
  {
    match m
    case None => None
    case Some((q, b)) => Some(Hit(b.end, Chosen(s, b, EqHolds(props, s, q))))
  }

  /** The bare callback on a given match. */
  lemma BareHitOf(props: Object<Value>, s: string, p: nat, m: Option<(nat, Block)>, f: nat, b: Block, holds: bool)
    requires m == Some((f, b)) && p + 5 <= f <= |s| && Within(s, p, b)
    requires holds == TruthyAt(props, Trim(s[p + 5..f]))
    ensures BareHit(props, s, p, m) == Some(Hit(b.end, if holds then s[b.body..b.bodyEnd] else s[b.alt..b.altEnd]))
  {
  }

  /** The equality callback on a given match. */
  lemma EqHitOf(props: Object<Value>, s: string, p: nat, m: Option<(EqParts, Block)>, q: EqParts, b: Block)
    requires m == Some((q, b)) && q.key <= q.keyEnd <= q.value <= q.valueEnd <= |s| && Within(s, p, b)
    ensures EqHit(props, s, p, m) == Some(Hit(b.end, if EqHolds(props, s, q) then s[b.body..b.bodyEnd] else s[b.alt..b.altEnd]))
  {
  }

  /** The match of `rule` at `p` and the text its callback returns. */
  function RuleAt(rule: Rule, props: Object<Value>, s: string, p: nat): (r: Option<Hit>)
    ensures r.Some? ==> StartsAt(s, p, "{{#if") && p < r.value.end <= |s|
  {
    match rule
    case BareElse => BareHit(props, s, p, BareElseMatch(s, p))
    case BareOnly => BareHit(props, s, p, BareOnlyMatch(s, p))
    case EqElse => EqHit(props, s, p, EqElseMatch(s, p))
    case EqOnly => EqHit(props, s, p, EqOnlyMatch(s, p))
  }

  function RuleMatcher(rule: Rule, props: Object<Value>): (m: Matcher)
    ensures Advances(m)
  {
    (t: string, q: nat) => RuleAt(rule, props, t, q)
  }

  /** `template = template.replace(rule, callback)`. */
  function Rewrite(s: string, rule: Rule, props: Object<Value>): string {
    ReplaceAll(s, RuleMatcher(rule, props))
  }

  /** One iteration of the pass loop. */
  function Pass(s: string, props: Object<Value>): string {
    Rewrite(Rewrite(Rewrite(Rewrite(s, BareElse, props), BareOnly, props), EqElse, props), EqOnly, props)
  }

  /** One pass as a step function. */
  function PassStep(props: Object<Value>): string -> string {
    (t: string) => Pass(t, props)
  }

  /** A pass loop with `passes` iterations left: it stops when the budget is spent or no
      opener is left. */
  function Loop(s: string, step: string -> string, passes: nat): string
    decreases passes
  {
    if passes == 0 || !HasDirective(s) then s else Loop(step(s), step, passes - 1)
  }

  /** `k` steps, whatever the template contains. */
  function Iterate(s: string, step: string -> string, k: nat): string
    decreases k
  {
    if k == 0 then s else Iterate(step(s), step, k - 1)
  }

  /** The directive stage with `passes` iterations left. */
  function Evaluate(s: string, props: Object<Value>, passes: nat): string {
    Loop(s, PassStep(props), passes)
  }

  /** Lines 69-93 of the emitted runtime. */
  method EvaluateDirectives(template: string, props: Object<Value>) returns (t: string)
    ensures t == Evaluate(template, props, MaxPasses)
  {
    t := template;
    var maxIterations: nat := MaxPasses;
    var iteration: nat := 0;
    LoopStart(template, PassStep(props), maxIterations - iteration, MaxPasses);
    while iteration < maxIterations && IndexOf(t, "{{#if") != -1
      invariant maxIterations == MaxPasses && iteration <= maxIterations
      invariant Loop(t, PassStep(props), maxIterations - iteration) == Loop(template, PassStep(props), MaxPasses)
      decreases maxIterations - iteration
    {
      assert HasDirective(t);
      ghost var before := t;
      iteration := iteration + 1;
      t := RunPass(t, props);
      LoopUnfold(before, t, props, maxIterations - iteration + 1);
    }
  }

  /** The loop before its first iteration. */
  lemma LoopStart(s: string, step: string -> string, m: nat, n: nat)
    requires m == n
    ensures Loop(s, step, m) == Loop(s, step, n)
  {
  }

  /** The body of the pass loop: the four rules in order. */
  method RunPass(template: string, props: Object<Value>) returns (t: string)
    ensures t == Pass(template, props)
  {
    t := Rewrite(template, BareElse, props);
    t := Rewrite(t, BareOnly, props);
    t := Rewrite(t, EqElse, props);
    t := Rewrite(t, EqOnly, props);
  }

  /** A loop with budget left over a template with an opener runs one pass and goes on. */
  lemma LoopUnfold(t: string, next: string, props: Object<Value>, n: nat)
    requires n > 0 && HasDirective(t) && next == Pass(t, props)
    ensures Loop(t, PassStep(props), n) == Loop(next, PassStep(props), n - 1)
  {
    assert PassStep(props)(t) == Pass(t, props);
  }

  /** The template contains an opener, so the loop goes on. */
  predicate HasDirective(s: string) {
    Contains(s, "{{#if")
  }

  /** Running `n` budgeted iterations performs exactly `k` steps: every step starts from a
      template with an opener, and fewer than `n` steps leave none. */
  ghost predicate RunsSteps(s: string, step: string -> string, n: nat, k: nat) {
    && k <= n
    && Loop(s, step, n) == Iterate(s, step, k)
    && (k < n ==> !HasDirective(Iterate(s, step, k)))
    && forall j :: 0 <= j < k ==> HasDirective(Iterate(s, step, j))
  }

  lemma {:induction false} LoopBounded(s: string, step: string -> string, n: nat)
    ensures exists k: nat :: RunsSteps(s, step, n, k)
    decreases n
  {
    if n == 0 || !HasDirective(s) {
      assert RunsSteps(s, step, n, 0);
    } else {
      var t := step(s);
      LoopBounded(t, step, n - 1);
      var k: nat :| RunsSteps(t, step, n - 1, k);
      IterateStep(s, step, k);
      assert RunsSteps(s, step, n, k + 1);
    }
  }

  lemma IterateStep(s: string, step: string -> string, k: nat)
    ensures forall j :: 0 < j <= k + 1 ==> Iterate(s, step, j) == Iterate(step(s), step, j - 1)
  {
  }

  /** The directive loop stops after at most ten passes, early only once no `{{#if` is left. */
  lemma EvaluateBounded(s: string, props: Object<Value>)
    ensures exists k: nat :: RunsSteps(s, PassStep(props), MaxPasses, k)
  {
    LoopBounded(s, PassStep(props), MaxPasses);
  }

  /** No rule matches where `{{#if` does not start. */
  lemma RewriteNoDirective(s: string, rule: Rule, props: Object<Value>)
    requires !Contains(s, "{{#if")
    ensures Rewrite(s, rule, props) == s
  {
    var m := RuleMatcher(rule, props);
    forall k | 0 <= k < |s|
      ensures m(s, k).None?
    {
      NotContainsAt(s, "{{#if", k);
    }
    ReplaceNoMatch(s, m);
  }

  /** A pass over a template without `{{#if` changes nothing. */
  lemma PassNoDirective(s: string, props: Object<Value>)
    requires !Contains(s, "{{#if")
    ensures Pass(s, props) == s
  {
    RewriteNoDirective(s, BareElse, props);
    RewriteNoDirective(s, BareOnly, props);
    RewriteNoDirective(s, EqElse, props);
    RewriteNoDirective(s, EqOnly, props);
  }

  /** A template without `{{#if` runs no pass at all. */
  lemma EvaluateNoDirective(s: string, props: Object<Value>)
    requires !Contains(s, "{{#if")
    ensures Evaluate(s, props, MaxPasses) == s
  {
  }

  /** A closing tag written without spaces. */
  lemma TagAt(s: string, k: nat, tag: string)
    requires StartsAt(s, k, tag) && StartsAt(s, k + |tag|, "}}")
    ensures TagEnd(s, k, tag) == Some(k + |tag| + 2)
  {
    assert s[k + |tag|] == "}}"[0] && s[k + |tag| + 1] == "}}"[1];
  }

  /** Where no closing tag starts, the lazy body grows by one character. */
  lemma LazyCloseStep(s: string, k: nat, dotAll: bool)
    requires k < |s| && !StartsAt(s, k, "{{/if") && (dotAll || !IsLineTerminator(s[k]))
    ensures LazyClose(s, k, dotAll) == LazyClose(s, k + 1, dotAll)
  {
    assert TagEnd(s, k, "{{/if") == None;
  }

  /** The body ends at the first `{{/if}}`: the lazy body pairs an opener with the nearest
      closing tag after it. */
  lemma {:induction false} LazyCloseAt(s: string, k: nat, c: nat, dotAll: bool)
    requires k <= c && StartsAt(s, c, "{{/if") && StartsAt(s, c + 5, "}}")
    requires forall i :: k <= i < c ==> !StartsAt(s, i, "{{/if")
    requires forall i :: k <= i < c ==> dotAll || !IsLineTerminator(s[i])
    ensures LazyClose(s, k, dotAll) == Some((c, c + 7))
    decreases c - k
  {
    if k == c {
      TagAt(s, c, "{{/if");
    } else {
      LazyCloseStep(s, k, dotAll);
      LazyCloseAt(s, k + 1, c, dotAll);
    }
  }

  /** Where no `{{else` starts, the lazy first body grows by one character. */
  lemma LazyElseStep(s: string, k: nat, dotAll: bool)
    requires k < |s| && !StartsAt(s, k, "{{else") && (dotAll || !IsLineTerminator(s[k]))
    ensures LazyElse(s, k, dotAll) == LazyElse(s, k + 1, dotAll)
  {
    assert TagEnd(s, k, "{{else") == None;
    assert ElseTail(s, k, dotAll) == None;
  }

  /** An `{{else}}` at `j` followed by a body that ends at the first `{{/if}}` at `c`. */
  lemma ElseTailAt(s: string, j: nat, c: nat, dotAll: bool)
    requires StartsAt(s, j, "{{else") && StartsAt(s, j + 6, "}}")
    requires j + 8 <= c && StartsAt(s, c, "{{/if") && StartsAt(s, c + 5, "}}")
    requires forall i :: j + 8 <= i < c ==> !StartsAt(s, i, "{{/if")
    requires forall i :: j + 8 <= i < c ==> dotAll || !IsLineTerminator(s[i])
    ensures LazyElse(s, j, dotAll) == Some((j, j + 8, c, c + 7))
  {
    TagAt(s, j, "{{else");
    LazyCloseAt(s, j + 8, c, dotAll);
    assert ElseTail(s, j, dotAll) == Some((j, j + 8, c, c + 7));
  }

  /** The first body ends at the first `{{else}}`, the second at the first `{{/if}}` after it. */
  lemma {:induction false} LazyElseAt(s: string, k: nat, j: nat, c: nat, dotAll: bool)
    requires k <= j && StartsAt(s, j, "{{else") && StartsAt(s, j + 6, "}}")
    requires forall i :: k <= i < j ==> !StartsAt(s, i, "{{else")
    requires forall i :: k <= i < j ==> dotAll || !IsLineTerminator(s[i])
    requires j + 8 <= c && StartsAt(s, c, "{{/if") && StartsAt(s, c + 5, "}}")
    requires forall i :: j + 8 <= i < c ==> !StartsAt(s, i, "{{/if")
    requires forall i :: j + 8 <= i < c ==> dotAll || !IsLineTerminator(s[i])
    ensures LazyElse(s, k, dotAll) == Some((j, j + 8, c, c + 7))
    decreases j - k
  {
    if k == j {
      ElseTailAt(s, j, c, dotAll);
    } else {
      LazyElseStep(s, k, dotAll);
      LazyElseAt(s, k + 1, j, c, dotAll);
    }
  }

  /** The bare opener's condition is everything up to the first `}`, trimmed. */
  lemma BareOpenerAt(s: string, p: nat, f: nat)
    requires p + 7 <= f && f + 2 <= |s|
    requires StartsAt(s, p, "{{#if") && IsSpace(s[p + 5])
    requires forall k :: p + 5 <= k < f ==> s[k] != '}'
    requires StartsAt(s, f, "}}")
    ensures BareOpener(s, p) == Some(f + 2)
  {
    assert StartsAt(s, f, "}") by {
      assert s[f + 0] == "}}"[0];
    }
    FindFirstChar(s, p + 5, "}", f);
  }

  /** Rule 1 matches `{{#if c}}A{{else}}B{{/if}}` when A and B have no line terminators, A no
      `{{else` and B no `{{/if`: the bodies are A and B and the match ends after the block. */
  lemma BareElseBlock(s: string, p: nat, f: nat, j: nat, c: nat)
    requires p + 7 <= f && f + 2 <= j && j + 8 <= c && c + 7 <= |s|
    requires StartsAt(s, p, "{{#if") && IsSpace(s[p + 5])
    requires forall k :: p + 5 <= k < f ==> s[k] != '}'
    requires StartsAt(s, f, "}}")
    requires forall i :: f + 2 <= i < j ==> !StartsAt(s, i, "{{else")
    requires forall i :: f + 2 <= i < j ==> !IsLineTerminator(s[i])
    requires StartsAt(s, j, "{{else") && StartsAt(s, j + 6, "}}")
    requires forall i :: j + 8 <= i < c ==> !StartsAt(s, i, "{{/if")
    requires forall i :: j + 8 <= i < c ==> !IsLineTerminator(s[i])
    requires StartsAt(s, c, "{{/if") && StartsAt(s, c + 5, "}}")
    ensures BareElseMatch(s, p) == Some((f, Block(f + 2, j, j + 8, c, c + 7)))
  {
    BareOpenerAt(s, p, f);
    LazyElseAt(s, f + 2, j, c, false);
    BareElseFromParts(s, p, f + 2, j, j + 8, c, c + 7);
  }

  lemma BareElseFromParts(s: string, p: nat, o: nat, j: nat, e1: nat, c: nat, end: nat)
    requires o <= |s|
    requires BareOpener(s, p) == Some(o) && LazyElse(s, o, false) == Some((j, e1, c, end))
    ensures BareElseMatch(s, p) == Some((o - 2, Block(o, j, e1, c, end)))
  {
  }

  /** Rule 2 matches `{{#if c}}A{{/if}}` when A has no line terminator and no `{{/if`; an
      opener nested inside A is part of A. */
  lemma BareOnlyBlock(s: string, p: nat, f: nat, c: nat)
    requires p + 7 <= f && f + 2 <= c && c + 7 <= |s|
    requires StartsAt(s, p, "{{#if") && IsSpace(s[p + 5])
    requires forall k :: p + 5 <= k < f ==> s[k] != '}'
    requires StartsAt(s, f, "}}")
    requires forall i :: f + 2 <= i < c ==> !StartsAt(s, i, "{{/if")
    requires forall i :: f + 2 <= i < c ==> !IsLineTerminator(s[i])
    requires StartsAt(s, c, "{{/if") && StartsAt(s, c + 5, "}}")
    ensures BareOpener(s, p) == Some(f + 2)
    ensures BareOnlyMatch(s, p) == Some((f, Block(f + 2, c, c, c, c + 7)))
  {
    BareOpenerAt(s, p, f);
    LazyCloseAt(s, f + 2, c, false);
    BareOnlyFromParts(s, p, f + 2, c, c + 7);
  }

  lemma BareOnlyFromParts(s: string, p: nat, o: nat, c: nat, end: nat)
    requires o <= |s|
    requires BareOpener(s, p) == Some(o) && LazyClose(s, o, false) == Some((c, end))
    ensures BareOnlyMatch(s, p) == Some((o - 2, Block(o, c, c, c, end)))
  {
  }

  /** `{{#if (eq k "v")}}`: the spaces around the parenthesis are optional, those between its
      parts are not. The key is the whole run of non-spaces, quotes included; the value runs to
      the next quote. */
  lemma EqOpenerAt(s: string, p: nat, a: nat, b: nat, c: nat, d: nat, q: nat)
    requires p + 5 <= a && a + 3 < b < c < d && d + 1 < q && q + 4 <= |s|
    requires StartsAt(s, p, "{{#if") && (forall k :: p + 5 <= k < a ==> IsSpace(s[k]))
    requires StartsAt(s, a, "(eq") && (forall k :: a + 3 <= k < b ==> IsSpace(s[k]))
    requires (forall k :: b <= k < c ==> !IsSpace(s[k])) && (forall k :: c <= k < d ==> IsSpace(s[k]))
    requires s[d] == '"' && (forall k :: d + 1 <= k < q ==> s[k] != '"')
    requires StartsAt(s, q, "\")}}")
    ensures EqOpener(s, p) == Some(EqParts(b, c, d + 1, q, q + 4))
  {
    assert s[a + 0] == "(eq"[0];
    SpanTo(s, p + 5, a, IsSpace);
    EqParenAt(s, p + 5, a, b, c, d, q);
  }

  lemma EqParenAt(s: string, i: nat, a: nat, b: nat, c: nat, d: nat, q: nat)
    requires i <= a && a + 3 < b < c < d && d + 1 < q && q + 4 <= |s|
    requires StartsAt(s, a, "(eq") && (forall k :: a + 3 <= k < b ==> IsSpace(s[k]))
    requires (forall k :: b <= k < c ==> !IsSpace(s[k])) && (forall k :: c <= k < d ==> IsSpace(s[k]))
    requires s[d] == '"' && (forall k :: d + 1 <= k < q ==> s[k] != '"')
    requires StartsAt(s, q, "\")}}")
    ensures EqParen(s, i, a) == Some(EqParts(b, c, d + 1, q, q + 4))
  {
    SpanTo(s, a + 3, b, IsSpace);
    EqKeyAt(s, a + 3, b, c, d, q);
  }

  lemma EqKeyAt(s: string, i: nat, b: nat, c: nat, d: nat, q: nat)
    requires i < b < c < d && d + 1 < q && q + 4 <= |s|
    requires (forall k :: b <= k < c ==> !IsSpace(s[k])) && (forall k :: c <= k < d ==> IsSpace(s[k]))
    requires s[d] == '"' && (forall k :: d + 1 <= k < q ==> s[k] != '"')
    requires StartsAt(s, q, "\")}}")
    ensures EqKey(s, i, b) == Some(EqParts(b, c, d + 1, q, q + 4))
  {
    EqValueAt(s, b, c, d + 1, q);
    SpanTo(s, b, c, IsNotSpace);
    SpanTo(s, c, d, IsSpace);
    assert StartsAt(s, d, "\"") by {
      assert s[d + 0] == "\""[0];
    }
  }

  lemma EqValueAt(s: string, b: nat, c: nat, v: nat, q: nat)
    requires b <= c < v < q && q + 4 <= |s|
    requires forall k :: v <= k < q ==> s[k] != '"'
    requires StartsAt(s, q, "\")}}")
    ensures EqValue(s, b, c, v, FindFrom(s, v, "\"")) == Some(EqParts(b, c, v, q, q + 4))
  {
    assert StartsAt(s, q, "\"") by {
      assert s[q + 0] == "\")}}"[0];
    }
    FindFirstChar(s, v, "\"", q);
    assert s[q + 1] == "\")}}"[1];
    SpanTo(s, q + 1, q + 1, IsSpace);
    assert StartsAt(s, q + 1, ")}}") by {
      forall i | 0 <= i < 3
        ensures s[q + 1 + i] == ")}}"[i]
      {
        assert s[q + (1 + i)] == "\")}}"[1 + i];
      }
    }
  }

  /** An equality opener with a space after `#if` and no `}` inside is also a bare opener, whose
      condition is the whole parenthesised expression. Rules 1 and 2 run before rules 3 and 4,
      so such a block on one line is decided by the prop named `(eq k "v")`. */
  lemma EqOpenerShadowed(s: string, p: nat, q: nat)
    requires p + 6 < q && q + 4 <= |s|
    requires StartsAt(s, p, "{{#if") && IsSpace(s[p + 5])
    requires forall k :: p + 5 <= k < q ==> s[k] != '}'
    requires StartsAt(s, q, "\")}}")
    ensures BareOpener(s, p) == Some(q + 4)
  {
    assert s[q + 1] == "\")}}"[1] && s[q + 2] == "\")}}"[2] && s[q + 3] == "\")}}"[3];
    forall k | p + 5 <= k < q + 2
      ensures s[k] != '}'
    {
      if k == q {
        assert s[q + 0] == "\")}}"[0];
      }
    }
    BareOpenerAt(s, p, q + 2);
  }

  /** Rule 3 matches an equality opener followed by `A{{else}}B{{/if}}`, A without `{{else`
      and B without `{{/if`, across lines. */
  lemma EqElseBlock(s: string, p: nat, q: EqParts, j: nat, c: nat)
    requires EqOpener(s, p) == Some(q) && q.end <= j && j + 8 <= c && c + 7 <= |s|
    requires forall i :: q.end <= i < j ==> !StartsAt(s, i, "{{else")
    requires StartsAt(s, j, "{{else") && StartsAt(s, j + 6, "}}")
    requires forall i :: j + 8 <= i < c ==> !StartsAt(s, i, "{{/if")
    requires StartsAt(s, c, "{{/if") && StartsAt(s, c + 5, "}}")
    ensures EqElseMatch(s, p) == Some((q, Block(q.end, j, j + 8, c, c + 7)))
  {
    LazyElseAt(s, q.end, j, c, true);
  }

  /** Rule 4 matches an equality opener followed by `A{{/if}}`, A without `{{/if`. */
  lemma EqOnlyBlock(s: string, p: nat, q: EqParts, c: nat)
    requires EqOpener(s, p) == Some(q) && q.end <= c && c + 7 <= |s|
    requires forall i :: q.end <= i < c ==> !StartsAt(s, i, "{{/if")
    requires StartsAt(s, c, "{{/if") && StartsAt(s, c + 5, "}}")
    ensures EqOnlyMatch(s, p) == Some((q, Block(q.end, c, c, c, c + 7)))
  {
    LazyCloseAt(s, q.end, c, true);
  }

  /** With no `{{else` tag ahead, an if-else body cannot end. */
  lemma {:induction false} LazyElseNone(s: string, k: nat, dotAll: bool)
    requires k <= |s|
    requires forall i :: k <= i < |s| ==> !StartsAt(s, i, "{{else")
    ensures LazyElse(s, k, dotAll).None?
    decreases |s| - k
  {
    if k < |s| {
      LazyElseNone(s, k + 1, dotAll);
    }
  }

  /** No rule matches at `k` when `s[k]` is not an opening brace. */
  lemma NoRuleWithoutBrace(s: string, k: nat, rule: Rule, props: Object<Value>)
    requires k < |s| && s[k] != '{'
    ensures RuleAt(rule, props, s, k).None?
  {
    if RuleAt(rule, props, s, k).Some? {
      StartsAtFirst(s, k, "{{#if");
    }
  }

  /** Text without an opening brace holds no opener. */
  lemma NoBraceNoDirective(s: string)
    requires '{' !in s
    ensures !HasDirective(s)
  {
    if HasDirective(s) {
      var k := IndexOf(s, "{{#if");
      StartsAtFirst(s, k, "{{#if");
    }
  }

  /** No rule matches in the stretches before `p` and from `e` on when they hold no opening
      brace. */
  lemma NoRuleOutside(s: string, p: nat, e: nat, rule: Rule, props: Object<Value>)
    requires p <= e <= |s|
    requires '{' !in s[..p] && '{' !in s[e..]
    ensures forall k :: 0 <= k < p ==> RuleMatcher(rule, props)(s, k).None?
    ensures forall k :: e <= k < |s| ==> RuleMatcher(rule, props)(s, k).None?
  {
    forall k | 0 <= k < p
      ensures RuleMatcher(rule, props)(s, k).None?
    {
      assert s[k] == s[..p][k];
      NoRuleWithoutBrace(s, k, rule, props);
    }
    forall k | e <= k < |s|
      ensures RuleMatcher(rule, props)(s, k).None?
    {
      assert s[k] == s[e..][k - e];
      NoRuleWithoutBrace(s, k, rule, props);
    }
  }

  /** A rule that matches once, at `p`, in text otherwise without braces replaces the block
      by its callback's text and keeps the rest. */
  lemma RewriteSplice(s: string, p: nat, rule: Rule, props: Object<Value>, h: Hit)
    requires RuleAt(rule, props, s, p) == Some(h)
    requires '{' !in s[..p] && '{' !in s[h.end..]
    ensures Rewrite(s, rule, props) == s[..p] + h.output + s[h.end..]
  {
    var m := RuleMatcher(rule, props);
    NoRuleOutside(s, p, h.end, rule, props);
    assert m(s, p) == Some(h);
    ReplaceSplice(s, p, h.end, m, h.output);
  }

  /** `s` holds no opener except possibly one at `p`. */
  predicate OnlyOpenerAt(s: string, p: nat) {
    forall k :: 0 <= k < |s| && k != p ==> !StartsAt(s, k, "{{#if")
  }

  /** A rule that does not match at the only place an opener can start changes nothing. */
  lemma RewriteNone(s: string, p: nat, rule: Rule, props: Object<Value>)
    requires RuleAt(rule, props, s, p).None? && OnlyOpenerAt(s, p)
    ensures Rewrite(s, rule, props) == s
  {
    var m := RuleMatcher(rule, props);
    forall k | 0 <= k < |s|
      ensures m(s, k).None?
    {
    }
    ReplaceNoMatch(s, m);
  }

  /** A block whose inside holds no opener, in text whose only braces outside it are its own, is
      the only place an opener starts. */
  lemma OnlyOpenerOfBlock(s: string, p: nat, e: nat)
    requires p < e <= |s| && '{' !in s[..p] && '{' !in s[e..]
    requires forall k :: p < k < e ==> !StartsAt(s, k, "{{#if")
    ensures OnlyOpenerAt(s, p)
  {
    forall k | 0 <= k < |s| && k != p
      ensures !StartsAt(s, k, "{{#if")
    {
      if k < p {
        assert s[k] == s[..p][k];
      } else if e <= k {
        assert s[k] == s[e..][k - e];
      }
      NoOpenerWithoutBrace(s, k);
    }
  }

  lemma NoOpenerWithoutBrace(s: string, k: nat)
    ensures k < |s| && s[k] != '{' ==> !StartsAt(s, k, "{{#if")
  {
    if StartsAt(s, k, "{{#if") {
      StartsAtFirst(s, k, "{{#if");
    }
  }

  /** Text without braces is left alone by every rule. */
  lemma RewriteNoBrace(s: string, rule: Rule, props: Object<Value>)
    requires '{' !in s
    ensures Rewrite(s, rule, props) == s
  {
    NoBraceNoDirective(s);
    RewriteNoDirective(s, rule, props);
  }

  /** Splicing text without braces into text without braces gives text without braces. */
  lemma SpliceNoBrace(s: string, p: nat, e: nat, out: string)
    requires p <= e <= |s|
    requires '{' !in s[..p] && '{' !in s[e..] && '{' !in out
    ensures '{' !in s[..p] + out + s[e..]
  {
  }

  /** One pass that leaves no opener is the whole directive stage. */
  lemma EvaluateOnePass(s: string, props: Object<Value>)
    requires HasDirective(s) && !HasDirective(Pass(s, props))
    ensures Evaluate(s, props, MaxPasses) == Pass(s, props)
  {
    assert PassStep(props)(s) == Pass(s, props);
  }

  /** A template whose only opening braces outside one block are the block's, whose block holds
      no nested opener and is matched by `rule` at `p` but by no rule before it, and whose chosen
      text has no braces: one pass replaces the block by that text. */
  lemma PassOneBlock(s: string, p: nat, rule: Rule, props: Object<Value>, h: Hit)
    requires RuleAt(rule, props, s, p) == Some(h)
    requires rule != BareElse ==> RuleAt(BareElse, props, s, p).None?
    requires rule == EqElse || rule == EqOnly ==> RuleAt(BareOnly, props, s, p).None?
    requires rule == EqOnly ==> RuleAt(EqElse, props, s, p).None?
    requires '{' !in s[..p] && '{' !in s[h.end..] && '{' !in h.output
    requires forall k :: p < k < h.end ==> !StartsAt(s, k, "{{#if")
    ensures Pass(s, props) == s[..p] + h.output + s[h.end..]
  {
    var t := s[..p] + h.output + s[h.end..];
    OnlyOpenerOfBlock(s, p, h.end);
    SpliceNoBrace(s, p, h.end, h.output);
    RewriteSplice(s, p, rule, props, h);
    match rule
    case BareElse =>
      RewriteNoBrace(t, BareOnly, props);
      RewriteNoBrace(t, EqElse, props);
      RewriteNoBrace(t, EqOnly, props);
    case BareOnly =>
      RewriteNone(s, p, BareElse, props);
      RewriteNoBrace(t, EqElse, props);
      RewriteNoBrace(t, EqOnly, props);
    case EqElse =>
      RewriteNone(s, p, BareElse, props);
      RewriteNone(s, p, BareOnly, props);
      RewriteNoBrace(t, EqOnly, props);
    case EqOnly =>
      RewriteNone(s, p, BareElse, props);
      RewriteNone(s, p, BareOnly, props);
      RewriteNone(s, p, EqElse, props);
  }

  /** Under the conditions of `PassOneBlock`, the directive stage ends after that one pass. */
  lemma EvaluateOneBlock(s: string, p: nat, rule: Rule, props: Object<Value>, h: Hit)
    requires RuleAt(rule, props, s, p) == Some(h)
    requires rule != BareElse ==> RuleAt(BareElse, props, s, p).None?
    requires rule == EqElse || rule == EqOnly ==> RuleAt(BareOnly, props, s, p).None?
    requires rule == EqOnly ==> RuleAt(EqElse, props, s, p).None?
    requires '{' !in s[..p] && '{' !in s[h.end..] && '{' !in h.output
    requires forall k :: p < k < h.end ==> !StartsAt(s, k, "{{#if")
    ensures Evaluate(s, props, MaxPasses) == s[..p] + h.output + s[h.end..]
  {
    PassOneBlock(s, p, rule, props, h);
    SpliceNoBrace(s, p, h.end, h.output);
    NoBraceNoDirective(s[..p] + h.output + s[h.end..]);
    ContainsAt(s, "{{#if", p);
    EvaluateOnePass(s, props);
  }

  /** Rule 1 end to end: a one-line `{{#if c}}A{{else}}B{{/if}}` without nested openers, in text
      without other braces and with A and B without braces, becomes A when the prop named by the
      trimmed condition is truthy and B otherwise. */
  lemma BareElseEvaluates(s: string, props: Object<Value>, p: nat, f: nat, j: nat, c: nat)
    requires p + 7 <= f && f + 2 <= j && j + 8 <= c && c + 7 <= |s|
    requires StartsAt(s, p, "{{#if") && IsSpace(s[p + 5])
    requires forall k :: p + 5 <= k < f ==> s[k] != '}'
    requires StartsAt(s, f, "}}")
    requires forall i :: f + 2 <= i < j ==> !StartsAt(s, i, "{{else")
    requires forall i :: f + 2 <= i < j ==> !IsLineTerminator(s[i])
    requires StartsAt(s, j, "{{else") && StartsAt(s, j + 6, "}}")
    requires forall i :: j + 8 <= i < c ==> !StartsAt(s, i, "{{/if")
    requires forall i :: j + 8 <= i < c ==> !IsLineTerminator(s[i])
    requires StartsAt(s, c, "{{/if") && StartsAt(s, c + 5, "}}")
    requires forall k :: p < k < c + 7 ==> !StartsAt(s, k, "{{#if")
    requires '{' !in s[..p] && '{' !in s[c + 7..] && '{' !in s[f + 2..j] && '{' !in s[j + 8..c]
    ensures Evaluate(s, props, MaxPasses) ==
            s[..p] + (if TruthyAt(props, Trim(s[p + 5..f])) then s[f + 2..j] else s[j + 8..c]) + s[c + 7..]
  {
    BareElseBlock(s, p, f, j, c);
    BareElseFromMatch(s, props, p, f, j, c);
  }

  lemma BareElseFromMatch(s: string, props: Object<Value>, p: nat, f: nat, j: nat, c: nat)
    requires p + 7 <= f && f + 2 <= j && j + 8 <= c && c + 7 <= |s|
    requires BareElseMatch(s, p) == Some((f, Block(f + 2, j, j + 8, c, c + 7)))
    requires forall k :: p < k < c + 7 ==> !StartsAt(s, k, "{{#if")
    requires '{' !in s[..p] && '{' !in s[c + 7..] && '{' !in s[f + 2..j] && '{' !in s[j + 8..c]
    ensures Evaluate(s, props, MaxPasses) ==
            s[..p] + (if TruthyAt(props, Trim(s[p + 5..f])) then s[f + 2..j] else s[j + 8..c]) + s[c + 7..]
  {
    var chosen := if TruthyAt(props, Trim(s[p + 5..f])) then s[f + 2..j] else s[j + 8..c];
    BareElseRule(s, props, p, f, j, c);
    EvaluateOneBlock(s, p, BareElse, props, Hit(c + 7, chosen));
  }

  /** Rule 1's callback on a block it matched. */
  lemma BareElseRule(s: string, props: Object<Value>, p: nat, f: nat, j: nat, c: nat)
    requires p + 7 <= f && f + 2 <= j && j + 8 <= c && c + 7 <= |s|
    requires BareElseMatch(s, p) == Some((f, Block(f + 2, j, j + 8, c, c + 7)))
    ensures RuleAt(BareElse, props, s, p) ==
            Some(Hit(c + 7, if TruthyAt(props, Trim(s[p + 5..f])) then s[f + 2..j] else s[j + 8..c]))
  {
    var m := BareElseMatch(s, p);
    assert RuleAt(BareElse, props, s, p) == BareHit(props, s, p, m);
    BareHitOf(props, s, p, m, f, Block(f + 2, j, j + 8, c, c + 7), TruthyAt(props, Trim(s[p + 5..f])));
  }

  /** Rule 2 end to end: a one-line `{{#if c}}A{{/if}}` with no `{{else` after its opener and no
      nested opener, in text without other braces and with A without braces, becomes A when the
      prop named by the trimmed condition is truthy and disappears otherwise. */
  lemma BareOnlyEvaluates(s: string, props: Object<Value>, p: nat, f: nat, c: nat)
    requires p + 7 <= f && f + 2 <= c && c + 7 <= |s|
    requires StartsAt(s, p, "{{#if") && IsSpace(s[p + 5])
    requires forall k :: p + 5 <= k < f ==> s[k] != '}'
    requires StartsAt(s, f, "}}")
    requires forall i :: f + 2 <= i < c ==> !StartsAt(s, i, "{{/if")
    requires forall i :: f + 2 <= i < c ==> !IsLineTerminator(s[i])
    requires StartsAt(s, c, "{{/if") && StartsAt(s, c + 5, "}}")
    requires forall i :: f + 2 <= i < c ==> !StartsAt(s, i, "{{else")
    requires forall k :: p < k < c + 7 ==> !StartsAt(s, k, "{{#if")
    requires '{' !in s[..p] && '{' !in s[c + 7..] && '{' !in s[f + 2..c]
    ensures Evaluate(s, props, MaxPasses) ==
            s[..p] + (if TruthyAt(props, Trim(s[p + 5..f])) then s[f + 2..c] else "") + s[c + 7..]
  {
    BareOnlyBlock(s, p, f, c);
    BareOnlyNoElse(s, p, f + 2, c);
    BareOnlyFromMatch(s, props, p, f, c);
  }

  /** The first three characters of an else tag. */
  lemma ElseTagChars(s: string, i: nat)
    ensures StartsAt(s, i, "{{else") ==> s[i] == '{' && s[i + 1] == '{' && s[i + 2] == 'e'
  {
    if StartsAt(s, i, "{{else") {
      assert s[i + 0] == "{{else"[0] && s[i + 1] == "{{else"[1] && s[i + 2] == "{{else"[2];
    }
  }

  /** A body without `{{else` closed by `{{/if}}`, followed by text without braces: no `{{else`
      follows the body's start. */
  lemma NoElseAfterClose(s: string, o: nat, c: nat)
    requires o <= c && c + 7 <= |s|
    requires forall i :: o <= i < c ==> !StartsAt(s, i, "{{else")
    requires StartsAt(s, c, "{{/if") && StartsAt(s, c + 5, "}}")
    requires '{' !in s[c + 7..]
    ensures forall i :: o <= i < |s| ==> !StartsAt(s, i, "{{else")
  {
    assert s[c + 2] == "{{/if"[2] && s[c + 3] == "{{/if"[3] && s[c + 4] == "{{/if"[4];
    assert s[c + 5] == "}}"[0] && s[c + 6] == "}}"[1];
    forall i | c <= i < |s|
      ensures !StartsAt(s, i, "{{else")
    {
      ElseTagChars(s, i);
      if c + 7 <= i {
        assert s[i] == s[c + 7..][i - c - 7];
      }
    }
  }

  /** Rule 1 does not match when no `{{else` follows the opener's body start. */
  lemma BareElseNoElse(s: string, p: nat, o: nat)
    requires BareOpener(s, p) == Some(o)
    requires forall i :: o <= i < |s| ==> !StartsAt(s, i, "{{else")
    ensures BareElseMatch(s, p).None?
  {
    LazyElseNone(s, o, false);
  }

  /** Rule 1 does not match a block closed by `{{/if}}` at `c` that holds no `{{else`, in text
      without braces after it. */
  lemma BareOnlyNoElse(s: string, p: nat, o: nat, c: nat)
    requires BareOpener(s, p) == Some(o) && o <= c && c + 7 <= |s|
    requires forall i :: o <= i < c ==> !StartsAt(s, i, "{{else")
    requires StartsAt(s, c, "{{/if") && StartsAt(s, c + 5, "}}")
    requires '{' !in s[c + 7..]
    ensures BareElseMatch(s, p).None?
  {
    NoElseAfterClose(s, o, c);
    BareElseNoElse(s, p, o);
  }

  /** Rule 3 does not match when no `{{else` follows the equality opener. */
  lemma EqElseNoElse(s: string, p: nat, q: EqParts)
    requires EqOpener(s, p) == Some(q)
    requires forall i :: q.end <= i < |s| ==> !StartsAt(s, i, "{{else")
    ensures EqElseMatch(s, p).None?
  {
    LazyElseNone(s, q.end, true);
  }

  /** An equality opener written without a space after `#if`, and the bare rules that it
      escapes. */
  lemma EqOpenerTight(s: string, props: Object<Value>, p: nat, b: nat, c: nat, d: nat, g: nat)
    requires p + 8 < b < c < d && d + 1 < g && g + 4 <= |s|
    requires StartsAt(s, p, "{{#if") && StartsAt(s, p + 5, "(eq")
    requires (forall k :: p + 8 <= k < b ==> IsSpace(s[k])) && (forall k :: b <= k < c ==> !IsSpace(s[k]))
    requires (forall k :: c <= k < d ==> IsSpace(s[k])) && s[d] == '"'
    requires (forall k :: d + 1 <= k < g ==> s[k] != '"') && StartsAt(s, g, "\")}}")
    ensures EqOpener(s, p) == Some(EqParts(b, c, d + 1, g, g + 4))
    ensures RuleAt(BareElse, props, s, p).None? && RuleAt(BareOnly, props, s, p).None?
  {
    EqOpenerAt(s, p, p + 5, b, c, d, g);
    assert s[p + 5 + 0] == "(eq"[0];
    BareRulesNeedSpace(s, p, props);
  }

  lemma BareOnlyFromMatch(s: string, props: Object<Value>, p: nat, f: nat, c: nat)
    requires p + 7 <= f && f + 2 <= c && c + 7 <= |s|
    requires BareOnlyMatch(s, p) == Some((f, Block(f + 2, c, c, c, c + 7))) && BareElseMatch(s, p).None?
    requires forall k :: p < k < c + 7 ==> !StartsAt(s, k, "{{#if")
    requires '{' !in s[..p] && '{' !in s[c + 7..] && '{' !in s[f + 2..c]
    ensures Evaluate(s, props, MaxPasses) ==
            s[..p] + (if TruthyAt(props, Trim(s[p + 5..f])) then s[f + 2..c] else "") + s[c + 7..]
  {
    var chosen := if TruthyAt(props, Trim(s[p + 5..f])) then s[f + 2..c] else "";
    BareOnlyRule(s, props, p, f, c);
    EvaluateOneBlock(s, p, BareOnly, props, Hit(c + 7, chosen));
  }

  /** Rule 2's callback on a block it matched, where rule 1 does not match. */
  lemma BareOnlyRule(s: string, props: Object<Value>, p: nat, f: nat, c: nat)
    requires p + 7 <= f && f + 2 <= c && c + 7 <= |s|
    requires BareOnlyMatch(s, p) == Some((f, Block(f + 2, c, c, c, c + 7))) && BareElseMatch(s, p).None?
    ensures RuleAt(BareElse, props, s, p).None?
    ensures RuleAt(BareOnly, props, s, p) == Some(Hit(c + 7, if TruthyAt(props, Trim(s[p + 5..f])) then s[f + 2..c] else ""))
  {
    var m := BareOnlyMatch(s, p);
    assert RuleAt(BareOnly, props, s, p) == BareHit(props, s, p, m);
    BareHitOf(props, s, p, m, f, Block(f + 2, c, c, c, c + 7), TruthyAt(props, Trim(s[p + 5..f])));
    assert s[c..c] == "";
  }

  /** No bare rule matches an opener followed directly by a non-space. */
  lemma BareRulesNeedSpace(s: string, p: nat, props: Object<Value>)
    requires p + 5 < |s| && !IsSpace(s[p + 5])
    ensures RuleAt(BareElse, props, s, p).None? && RuleAt(BareOnly, props, s, p).None?
  {
  }

  /** Rule 3 end to end: an equality opener written without a space after `#if` (see
      `EqOpenerTight`) followed by `A{{else}}B{{/if}}`, with no nested opener, in text without
      other braces and with A and B without braces, becomes A when the prop named by the key is
      the expected string and B otherwise; A and B may span lines. */
  lemma EqElseEvaluates(s: string, props: Object<Value>, p: nat, q: EqParts, j: nat, e: nat)
    requires EqOpener(s, p) == Some(q) && !IsSpace(s[p + 5])
    requires q.end <= j && j + 8 <= e && e + 7 <= |s|
    requires forall i :: q.end <= i < j ==> !StartsAt(s, i, "{{else")
    requires StartsAt(s, j, "{{else") && StartsAt(s, j + 6, "}}")
    requires forall i :: j + 8 <= i < e ==> !StartsAt(s, i, "{{/if")
    requires StartsAt(s, e, "{{/if") && StartsAt(s, e + 5, "}}")
    requires forall k :: p < k < e + 7 ==> !StartsAt(s, k, "{{#if")
    requires '{' !in s[..p] && '{' !in s[e + 7..] && '{' !in s[q.end..j] && '{' !in s[j + 8..e]
    ensures Evaluate(s, props, MaxPasses) ==
            s[..p] + (if EqHolds(props, s, q) then s[q.end..j] else s[j + 8..e]) + s[e + 7..]
  {
    EqElseBlock(s, p, q, j, e);
    BareRulesNeedSpace(s, p, props);
    EqElseFromMatch(s, props, p, q, j, e);
  }

  lemma EqElseFromMatch(s: string, props: Object<Value>, p: nat, q: EqParts, j: nat, e: nat)
    requires p + 5 < q.key <= q.keyEnd <= q.value <= q.valueEnd < q.end
    requires q.end <= j && j + 8 <= e && e + 7 <= |s|
    requires EqElseMatch(s, p) == Some((q, Block(q.end, j, j + 8, e, e + 7)))
    requires RuleAt(BareElse, props, s, p).None? && RuleAt(BareOnly, props, s, p).None?
    requires forall k :: p < k < e + 7 ==> !StartsAt(s, k, "{{#if")
    requires '{' !in s[..p] && '{' !in s[e + 7..] && '{' !in s[q.end..j] && '{' !in s[j + 8..e]
    ensures Evaluate(s, props, MaxPasses) ==
            s[..p] + (if EqHolds(props, s, q) then s[q.end..j] else s[j + 8..e]) + s[e + 7..]
  {
    var chosen := if EqHolds(props, s, q) then s[q.end..j] else s[j + 8..e];
    EqElseRule(s, props, p, q, j, e);
    EvaluateOneBlock(s, p, EqElse, props, Hit(e + 7, chosen));
  }

  /** Rule 3's callback on a block it matched. */
  lemma EqElseRule(s: string, props: Object<Value>, p: nat, q: EqParts, j: nat, e: nat)
    requires p + 5 < q.key <= q.keyEnd <= q.value <= q.valueEnd < q.end
    requires q.end <= j && j + 8 <= e && e + 7 <= |s|
    requires EqElseMatch(s, p) == Some((q, Block(q.end, j, j + 8, e, e + 7)))
    ensures RuleAt(EqElse, props, s, p) == Some(Hit(e + 7, if EqHolds(props, s, q) then s[q.end..j] else s[j + 8..e]))
  {
    var m := EqElseMatch(s, p);
    assert RuleAt(EqElse, props, s, p) == EqHit(props, s, p, m);
    EqHitOf(props, s, p, m, q, Block(q.end, j, j + 8, e, e + 7));
  }

  /** Rule 4 end to end: an equality opener written without a space after `#if` followed by
      `A{{/if}}`, with no `{{else` after the opener and no nested opener, in text without other
      braces and with A without braces, becomes A when the prop named by the key is the expected
      string and disappears otherwise. */
  lemma EqOnlyEvaluates(s: string, props: Object<Value>, p: nat, q: EqParts, e: nat)
    requires EqOpener(s, p) == Some(q) && !IsSpace(s[p + 5])
    requires q.end <= e && e + 7 <= |s|
    requires forall i :: q.end <= i < e ==> !StartsAt(s, i, "{{/if")
    requires StartsAt(s, e, "{{/if") && StartsAt(s, e + 5, "}}")
    requires forall i :: q.end <= i < e ==> !StartsAt(s, i, "{{else")
    requires forall k :: p < k < e + 7 ==> !StartsAt(s, k, "{{#if")
    requires '{' !in s[..p] && '{' !in s[e + 7..] && '{' !in s[q.end..e]
    ensures Evaluate(s, props, MaxPasses) ==
            s[..p] + (if EqHolds(props, s, q) then s[q.end..e] else "") + s[e + 7..]
  {
    EqOnlyBlock(s, p, q, e);
    BareRulesNeedSpace(s, p, props);
    NoElseAfterClose(s, q.end, e);
    EqElseNoElse(s, p, q);
    EqOnlyFromMatch(s, props, p, q, e);
  }

  lemma EqOnlyFromMatch(s: string, props: Object<Value>, p: nat, q: EqParts, e: nat)
    requires p + 5 < q.key <= q.keyEnd <= q.value <= q.valueEnd < q.end
    requires q.end <= e && e + 7 <= |s|
    requires EqOnlyMatch(s, p) == Some((q, Block(q.end, e, e, e, e + 7))) && EqElseMatch(s, p).None?
    requires RuleAt(BareElse, props, s, p).None? && RuleAt(BareOnly, props, s, p).None?
    requires forall k :: p < k < e + 7 ==> !StartsAt(s, k, "{{#if")
    requires '{' !in s[..p] && '{' !in s[e + 7..] && '{' !in s[q.end..e]
    ensures Evaluate(s, props, MaxPasses) ==
            s[..p] + (if EqHolds(props, s, q) then s[q.end..e] else "") + s[e + 7..]
  {
    var chosen := if EqHolds(props, s, q) then s[q.end..e] else "";
    EqOnlyRule(s, props, p, q, e);
    EvaluateOneBlock(s, p, EqOnly, props, Hit(e + 7, chosen));
  }

  /** Rule 4's callback on a block it matched, where rule 3 does not match. */
  lemma EqOnlyRule(s: string, props: Object<Value>, p: nat, q: EqParts, e: nat)
    requires p + 5 < q.key <= q.keyEnd <= q.value <= q.valueEnd < q.end
    requires q.end <= e && e + 7 <= |s|
    requires EqOnlyMatch(s, p) == Some((q, Block(q.end, e, e, e, e + 7))) && EqElseMatch(s, p).None?
    ensures RuleAt(EqElse, props, s, p).None?
    ensures RuleAt(EqOnly, props, s, p) == Some(Hit(e + 7, if EqHolds(props, s, q) then s[q.end..e] else ""))
  {
    var m := EqOnlyMatch(s, p);
    assert RuleAt(EqOnly, props, s, p) == EqHit(props, s, p, m);
    EqHitOf(props, s, p, m, q, Block(q.end, e, e, e, e + 7));
    assert s[e..e] == "";
  }

  /** A lazy `.` body with no closing tag before a line terminator cannot match. */
  lemma {:induction false} LazyCloseBlocked(s: string, k: nat, t: nat)
    requires k <= t < |s| && IsLineTerminator(s[t])
    requires forall i :: k <= i <= t ==> !StartsAt(s, i, "{{/if")
    ensures LazyClose(s, k, false).None?
    decreases t - k
  {
    assert TagEnd(s, k, "{{/if") == None;
    if k < t && !IsLineTerminator(s[k]) {
      LazyCloseBlocked(s, k + 1, t);
    }
  }

  /** A lazy `.` first body with no else tag before a line terminator cannot match. */
  lemma {:induction false} LazyElseBlocked(s: string, k: nat, t: nat)
    requires k <= t < |s| && IsLineTerminator(s[t])
    requires forall i :: k <= i <= t ==> !StartsAt(s, i, "{{else")
    ensures LazyElse(s, k, false).None?
    decreases t - k
  {
    assert TagEnd(s, k, "{{else") == None;
    assert ElseTail(s, k, false) == None;
    if k < t && !IsLineTerminator(s[k]) {
      LazyElseBlocked(s, k + 1, t);
    }
  }

  /** The body of a spaced equality opener that breaks the line before any brace escapes both
      bare rules: their opener is the whole equality opener, and their `.` bodies stop at the
      line terminator. */
  lemma SpacedEqNotBare(s: string, props: Object<Value>, p: nat, q: EqParts, t: nat)
    requires EqOpener(s, p) == Some(q) && IsSpace(s[p + 5])
    requires forall k :: p + 5 <= k < q.end - 2 ==> s[k] != '}'
    requires q.end <= t < |s| && IsLineTerminator(s[t])
    requires forall i :: q.end <= i <= t ==> s[i] != '{'
    ensures RuleAt(BareElse, props, s, p).None? && RuleAt(BareOnly, props, s, p).None?
  {
    assert s[q.end - 3 + 1] == ")}}"[1] && s[q.end - 3 + 2] == ")}}"[2];
    BareOpenerAt(s, p, q.end - 2);
    forall i | q.end <= i <= t
      ensures !StartsAt(s, i, "{{else") && !StartsAt(s, i, "{{/if")
    {
      assert s[i] != "{{else"[0] && s[i] != "{{/if"[0];
    }
    LazyElseBlocked(s, q.end, t);
    LazyCloseBlocked(s, q.end, t);
    assert BareElseMatch(s, p).None? && BareOnlyMatch(s, p).None?;
  }

  /** Rule 3 end to end for the usual spaced opener `{{#if (eq k "v")}}` whose first body
      breaks the line: the bare rules run first but cannot match, so the block becomes A when
      the prop named by the key is the expected string and B otherwise. */
  lemma EqElseEvaluatesSpaced(s: string, props: Object<Value>, p: nat, q: EqParts, t: nat, j: nat, e: nat)
    requires EqOpener(s, p) == Some(q) && IsSpace(s[p + 5])
    requires forall k :: p + 5 <= k < q.end - 2 ==> s[k] != '}'
    requires j + 8 <= e && e + 7 <= |s|
    requires q.end <= t < j && IsLineTerminator(s[t])
    requires forall i :: q.end <= i < j ==> !StartsAt(s, i, "{{else")
    requires StartsAt(s, j, "{{else") && StartsAt(s, j + 6, "}}")
    requires forall i :: j + 8 <= i < e ==> !StartsAt(s, i, "{{/if")
    requires StartsAt(s, e, "{{/if") && StartsAt(s, e + 5, "}}")
    requires forall k :: p < k < e + 7 ==> !StartsAt(s, k, "{{#if")
    requires '{' !in s[..p] && '{' !in s[e + 7..] && '{' !in s[q.end..j] && '{' !in s[j + 8..e]
    ensures Evaluate(s, props, MaxPasses) ==
            s[..p] + (if EqHolds(props, s, q) then s[q.end..j] else s[j + 8..e]) + s[e + 7..]
  {
    forall i | q.end <= i <= t
      ensures s[i] != '{'
    {
      assert s[i] == s[q.end..j][i - q.end];
    }
    SpacedEqNotBare(s, props, p, q, t);
    EqElseBlock(s, p, q, j, e);
    EqElseFromMatch(s, props, p, q, j, e);
  }

  /** Rule 4 end to end for the spaced opener whose body breaks the line: the block becomes A
      when the prop named by the key is the expected string and disappears otherwise. */
  lemma EqOnlyEvaluatesSpaced(s: string, props: Object<Value>, p: nat, q: EqParts, t: nat, e: nat)
    requires EqOpener(s, p) == Some(q) && IsSpace(s[p + 5])
    requires forall k :: p + 5 <= k < q.end - 2 ==> s[k] != '}'
    requires e + 7 <= |s|
    requires q.end <= t < e && IsLineTerminator(s[t])
    requires forall i :: q.end <= i < e ==> !StartsAt(s, i, "{{/if")
    requires StartsAt(s, e, "{{/if") && StartsAt(s, e + 5, "}}")
    requires forall i :: q.end <= i < e ==> !StartsAt(s, i, "{{else")
    requires forall k :: p < k < e + 7 ==> !StartsAt(s, k, "{{#if")
    requires '{' !in s[..p] && '{' !in s[e + 7..] && '{' !in s[q.end..e]
    ensures Evaluate(s, props, MaxPasses) ==
            s[..p] + (if EqHolds(props, s, q) then s[q.end..e] else "") + s[e + 7..]
  {
    forall i | q.end <= i <= t
      ensures s[i] != '{'
    {
      assert s[i] == s[q.end..e][i - q.end];
    }
    SpacedEqNotBare(s, props, p, q, t);
    EqOnlyBlock(s, p, q, e);
    NoElseAfterClose(s, q.end, e);
    EqElseNoElse(s, p, q);
    EqOnlyFromMatch(s, props, p, q, e);
  }
}
