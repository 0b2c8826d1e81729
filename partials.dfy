/** `processPartials`: every reference `{{> path params}}` is replaced by the partial file
    `path.html`, itself resolved with the merged parameters as its parent's, and with every
    `{{ key }}` of those parameters substituted. */
module Partials {
  import opened Strings
  import opened Objects
  import opened Tokens
  import opened Params

  /** A match of `\{\{>\s*([^\s}]+)\s*([\s\S]*?)\}\}`: the partial's path, the raw parameter
      string and the index after the closing braces. */
  datatype Reference = Reference(path: string, paramsString: string, end: nat)

  /** The class `[^\s}]` of partial paths. */
  predicate IsPathChar(c: char) { !IsSpace(c) && c != '}' }

  /** The reference starting exactly at `p`. The path is the longest run of path characters
      after the spaces, the parameter string runs from the spaces after it to the first `}}`;
      when there is no `}}` no other split of the expression matches either. */
  function ReferenceAt(s: string, p: nat): (r: Option<Reference>)
    ensures r.Some? ==> p + 6 <= r.value.end <= |s| && StartsAt(s, p, "{{>")
    ensures r.Some? ==> |r.value.path| > 0 && StartsAt(s, r.value.end - 2, "}}")
  {
    if !StartsAt(s, p, "{{>") then None
    else
      var a := Span(s, p + 3, IsSpace);
      var b := Span(s, a, IsPathChar);
      if b == a then None
      else
        var c := Span(s, b, IsSpace);
        match FindFrom(s, c, "}}")
        case None => None
        case Some(f) => Some(Reference(s[a..b], s[c..f], f + 2))
  }

  /** What a lookup of a partial file finds: its text, or a file that cannot be read. A name
      absent from the map does not exist. */
  datatype File = Readable(content: string) | Unreadable

  /** The partial directory: file names relative to it. */
  type FileSystem = map<string, File>

  /** The file a reference names: `partialPath + '.html'` under the partial directory. */
  function PartialFile(path: string): (name: string)
    ensures |name| == |path| + 5 && name[..|path|] == path && EndsWith(name, ".html")
  {
    var name := path + ".html";
    assert name[|name| - 5..] == ".html";
    name
  }

  /** `processPartials(content, parentParams)`. `fuel` bounds the depth of nested references:
      a reference met with no fuel left is kept as written, as when the source's unbounded
      recursion fails and its `catch` returns the match. */
  function Resolve(content: string, parent: Object<string>, fs: FileSystem, fuel: nat): string
    decreases fuel, 2
  {
    ReplaceAll(content, Expander(parent, fs, fuel))
  }

  /** The replace callback of `processPartials` as a matcher. */
  function Expander(parent: Object<string>, fs: FileSystem, fuel: nat): (m: Matcher)
    ensures Advances(m)
    decreases fuel, 1
  {
    (t: string, q: nat) => ExpandAt(t, q, parent, fs, fuel)
  }

  /** The reference at `p` and the text that replaces it: the match itself when the file does
      not exist or cannot be read, else the resolved and substituted partial. */
  function ExpandAt(s: string, p: nat, parent: Object<string>, fs: FileSystem, fuel: nat): (r: Option<Hit>)
    ensures r.Some? ==> p < r.value.end <= |s|
    ensures r.Some? <==> ReferenceAt(s, p).Some?
    decreases fuel, 0
  {
    match ReferenceAt(s, p)
    case None => None
    case Some(ref) =>
      var name := PartialFile(ref.path);
      if fuel == 0 || name !in fs || fs[name].Unreadable? then Some(Hit(ref.end, s[p..ref.end]))
      else
        var params := Merged(ref.paramsString, parent);
        Some(Hit(ref.end, Substituted(Resolve(fs[name].content, params, fs, fuel - 1), params)))
  }

  /** The substitution loop of lines 38-41, proved to compute `Substituted`. */
  method SubstituteParams(text: string, params: Object<string>) returns (out: string)
    ensures out == Substituted(text, params)
  {
    out := text;
    var keys := Keys(params);
    for i := 0 to |keys|
      invariant Substituted(out, params[i..]) == Substituted(text, params)
    {
      var key := keys[i];
      GetAt(params, i);
      assert params[i..][1..] == params[i + 1..];
      out := Substitute(out, key, Get(params, key).value);
    }
  }

  /** Text without `{{>` is returned unchanged. */
  lemma ResolveNoReference(content: string, parent: Object<string>, fs: FileSystem, fuel: nat)
    requires !Contains(content, "{{>")
    ensures Resolve(content, parent, fs, fuel) == content
  {
    var m := Expander(parent, fs, fuel);
    forall k | 0 <= k < |content|
      ensures m(content, k).None?
    {
      NotContainsAt(content, "{{>", k);
    }
    ReplaceNoMatch(content, m);
  }

  /** When no partial can be read, every reference is kept as written. */
  lemma ResolveMissing(content: string, parent: Object<string>, fs: FileSystem, fuel: nat)
    requires forall n :: n in fs ==> fs[n].Unreadable?
    ensures Resolve(content, parent, fs, fuel) == content
  {
    var m := Expander(parent, fs, fuel);
    forall k | 0 <= k < |content| && m(content, k).Some?
      ensures m(content, k).value.output == content[k..m(content, k).value.end]
    {
      assert m(content, k) == ExpandAt(content, k, parent, fs, fuel);
    }
    ReplaceVerbatim(content, 0, Expander(parent, fs, fuel));
  }

  /** With no fuel left nothing is expanded. */
  lemma ResolveNoFuel(content: string, parent: Object<string>, fs: FileSystem)
    ensures Resolve(content, parent, fs, 0) == content
  {
    ReplaceVerbatim(content, 0, Expander(parent, fs, 0));
  }

  /** A reference to an existing partial between two stretches of plain text is spliced in:
      the partial's content resolved with the merged parameters as parent, then substituted. */
  lemma ResolveSplice(s: string, p: nat, parent: Object<string>, fs: FileSystem, fuel: nat, ref: Reference)
    requires fuel > 0 && ReferenceAt(s, p) == Some(ref)
    requires '{' !in s[..p] && '{' !in s[ref.end..]
    requires PartialFile(ref.path) in fs && fs[PartialFile(ref.path)].Readable?
    ensures Resolve(s, parent, fs, fuel) ==
            s[..p] + Substituted(Resolve(fs[PartialFile(ref.path)].content, Merged(ref.paramsString, parent), fs, fuel - 1),
                                 Merged(ref.paramsString, parent)) + s[ref.end..]
  {
    var m := Expander(parent, fs, fuel);
    NoReferenceOutside(s, p, ref.end, parent, fs, fuel);
    var params := Merged(ref.paramsString, parent);
    var out := Substituted(Resolve(fs[PartialFile(ref.path)].content, params, fs, fuel - 1), params);
    assert m(s, p) == ExpandAt(s, p, parent, fs, fuel) == Some(Hit(ref.end, out));
    ReplaceSplice(s, p, ref.end, m, out);
  }

  /** A reference to a partial that does not exist or cannot be read is kept exactly as
      written. */
  lemma ResolveMissingOne(s: string, p: nat, parent: Object<string>, fs: FileSystem, fuel: nat, ref: Reference)
    requires ReferenceAt(s, p) == Some(ref)
    requires '{' !in s[..p] && '{' !in s[ref.end..]
    requires PartialFile(ref.path) !in fs || fs[PartialFile(ref.path)].Unreadable?
    ensures Resolve(s, parent, fs, fuel) == s
  {
    var m := Expander(parent, fs, fuel);
    NoReferenceOutside(s, p, ref.end, parent, fs, fuel);
    assert m(s, p) == ExpandAt(s, p, parent, fs, fuel) == Some(Hit(ref.end, s[p..ref.end]));
    ReplaceSplice(s, p, ref.end, m, s[p..ref.end]);
    assert s == s[..p] + s[p..ref.end] + s[ref.end..];
  }

  /** No reference starts in the stretches before `p` and from `e` on when they hold no
      opening brace. */
  lemma NoReferenceOutside(s: string, p: nat, e: nat, parent: Object<string>, fs: FileSystem, fuel: nat)
    requires p <= e <= |s|
    requires '{' !in s[..p] && '{' !in s[e..]
    ensures forall k :: 0 <= k < p ==> Expander(parent, fs, fuel)(s, k).None?
    ensures forall k :: e <= k < |s| ==> Expander(parent, fs, fuel)(s, k).None?
  {
    forall k | 0 <= k < p
      ensures Expander(parent, fs, fuel)(s, k).None?
    {
      assert s[k] == s[..p][k];
      NoReferenceWithoutBrace(s, k);
    }
    forall k | e <= k < |s|
      ensures Expander(parent, fs, fuel)(s, k).None?
    {
      assert s[k] == s[e..][k - e];
      NoReferenceWithoutBrace(s, k);
    }
  }

  lemma NoReferenceWithoutBrace(s: string, p: nat)
    ensures p < |s| && s[p] != '{' ==> ReferenceAt(s, p).None?
  {
    if ReferenceAt(s, p).Some? {
      StartsAtFirst(s, p, "{{>");
    }
  }

  /** A reference to a partial that itself includes nothing is replaced by the partial's text
      with the merged parameters substituted. */
  lemma ResolveLeaf(s: string, p: nat, parent: Object<string>, fs: FileSystem, fuel: nat, ref: Reference)
    requires fuel > 0 && ReferenceAt(s, p) == Some(ref)
    requires '{' !in s[..p] && '{' !in s[ref.end..]
    requires PartialFile(ref.path) in fs && fs[PartialFile(ref.path)].Readable?
    requires !Contains(fs[PartialFile(ref.path)].content, "{{>")
    ensures Resolve(s, parent, fs, fuel) ==
            s[..p] + Substituted(fs[PartialFile(ref.path)].content, Merged(ref.paramsString, parent)) + s[ref.end..]
  {
    ResolveSplice(s, p, parent, fs, fuel, ref);
    ResolveNoReference(fs[PartialFile(ref.path)].content, Merged(ref.paramsString, parent), fs, fuel - 1);
  }

  /** The parts of a reference as the expression splits them: spaces, a path, spaces, and a
      parameter string without closing braces up to the first `}}`. */
  lemma ReferenceParts(s: string, p: nat, a: nat, b: nat, c: nat, f: nat)
    requires StartsAt(s, p, "{{>") && StartsAt(s, f, "}}")
    requires p + 3 <= a < b <= c <= f
    requires forall k :: p + 3 <= k < a ==> IsSpace(s[k])
    requires forall k :: a <= k < b ==> IsPathChar(s[k])
    requires !IsPathChar(s[b])
    requires forall k :: b <= k < c ==> IsSpace(s[k])
    requires !IsSpace(s[c])
    requires forall k :: c <= k < f ==> s[k] != '}'
    ensures ReferenceAt(s, p) == Some(Reference(s[a..b], s[c..f], f + 2))
  {
    SpanExact(s, p + 3, a - p - 3, IsSpace);
    SpanExact(s, a, b - a, IsPathChar);
    SpanExact(s, b, c - b, IsSpace);
    FindFirstChar(s, c, "}}", f);
    ReferenceFromParts(s, p, a, b, c, f);
  }

  lemma ReferenceFromParts(s: string, p: nat, a: nat, b: nat, c: nat, f: nat)
    requires StartsAt(s, p, "{{>") && p + 3 <= a < b <= c <= |s|
    requires Span(s, p + 3, IsSpace) == a && Span(s, a, IsPathChar) == b && Span(s, b, IsSpace) == c
    requires FindFrom(s, c, "}}") == Some(f)
    ensures ReferenceAt(s, p) == Some(Reference(s[a..b], s[c..f], f + 2))
  {
  }
}
