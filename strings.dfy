/** Character classes of the ECMAScript regular expressions the engine uses, string helpers with
    the semantics of the JavaScript string methods it calls, and the scan that
    `String.prototype.replace` performs with a global regular expression. */
module Strings {

  datatype Option<+T> = None | Some(value: T)

  /** The characters `.` does not match (ECMAScript LineTerminator). */
  predicate IsLineTerminator(c: char) {
    c == '\n' || c == '\r' || c == '\U{2028}' || c == '\U{2029}'
  }

  /** The class `\s`, which is also what `trim()` removes. */
  predicate IsSpace(c: char) {
    || c == ' ' || c == '\t' || c == '\U{000B}' || c == '\U{000C}'
    || c == '\U{00A0}' || c == '\U{1680}' || ('\U{2000}' <= c <= '\U{200A}')
    || c == '\U{202F}' || c == '\U{205F}' || c == '\U{3000}' || c == '\U{FEFF}'
    || IsLineTerminator(c)
  }

  predicate IsNotSpace(c: char) { !IsSpace(c) }

  /** The class `[a-zA-Z0-9_-]` of parameter keys, alias sources and attribute names. */
  predicate IsIdentChar(c: char) {
    ('a' <= c <= 'z') || ('A' <= c <= 'Z') || ('0' <= c <= '9') || c == '_' || c == '-'
  }

  predicate IsIdentifier(s: string) {
    |s| > 0 && forall i :: 0 <= i < |s| ==> IsIdentChar(s[i])
  }

  /** The class `['"]`. */
  predicate IsQuote(c: char) { c == '"' || c == '\'' }

  /** `t` occurs in `s` at index `p`. */
  predicate StartsAt(s: string, p: nat, t: string) {
    p + |t| <= |s| && forall i :: 0 <= i < |t| ==> s[p + i] == t[i]
  }

  /** The end of the longest run of characters satisfying `f` that starts at `p`: the greedy
      `f*` of a regular expression. */
  function Span(s: string, p: nat, f: char -> bool): (q: nat)
    requires p <= |s|
    ensures p <= q <= |s|
    ensures q == |s| || !f(s[q])
    decreases |s| - p
  {
    if p < |s| && f(s[p]) then Span(s, p + 1, f) else p
  }

  /** Every character of the run satisfies `f`. (Kept out of `Span`'s own contract, where it
      would be instantiated for every index of `s` in every proof that mentions a span.) */
  lemma {:induction false} SpanAll(s: string, p: nat, f: char -> bool)
    requires p <= |s|
    ensures forall k :: p <= k < Span(s, p, f) ==> f(s[k])
    decreases |s| - p
  {
    if p < |s| && f(s[p]) {
      SpanAll(s, p + 1, f);
    }
  }

  /** A run of exactly `n` characters satisfying `f`, followed by one that does not. */
  lemma {:induction false} SpanExact(s: string, p: nat, n: nat, f: char -> bool)
    requires p + n <= |s|
    requires forall k :: p <= k < p + n ==> f(s[k])
    requires p + n == |s| || !f(s[p + n])
    ensures Span(s, p, f) == p + n
    decreases n
  {
    if n > 0 {
      SpanExact(s, p + 1, n - 1, f);
    }
  }

  /** The run from `p` ends at `q`. */
  lemma SpanTo(s: string, p: nat, q: nat, f: char -> bool)
    requires p <= q <= |s|
    requires forall k :: p <= k < q ==> f(s[k])
    requires q == |s| || !f(s[q])
    ensures Span(s, p, f) == q
  {
    SpanExact(s, p, q - p, f);
  }

  /** A run spelled out by `w`, all of whose characters satisfy `f`, followed by one that does
      not. */
  lemma SpanOver(s: string, p: nat, w: string, f: char -> bool)
    requires StartsAt(s, p, w)
    requires forall i :: 0 <= i < |w| ==> f(w[i])
    requires p + |w| == |s| || !f(s[p + |w|])
    ensures Span(s, p, f) == p + |w|
  {
    forall k | p <= k < p + |w|
      ensures f(s[k])
    {
      assert s[k] == w[k - p];
    }
    SpanExact(s, p, |w|, f);
  }

  /** The first index at or after `p` where `t` occurs. */
  function FindFrom(s: string, p: nat, t: string): (r: Option<nat>)
    requires p <= |s|
    ensures r.Some? ==> p <= r.value && StartsAt(s, r.value, t)
    ensures r.Some? ==> forall k :: p <= k < r.value ==> !StartsAt(s, k, t)
    ensures r.None? ==> forall k: nat :: p <= k ==> !StartsAt(s, k, t)
    decreases |s| - p
  {
    if StartsAt(s, p, t) then Some(p)
    else if p == |s| then None
    else FindFrom(s, p + 1, t)
  }

  /** An occurrence is the slice of that length. */
  lemma StartsAtSlice(s: string, p: nat, t: string)
    ensures StartsAt(s, p, t) <==> p + |t| <= |s| && s[p..p + |t|] == t
  {
    if p + |t| <= |s| && s[p..p + |t|] == t {
      forall i | 0 <= i < |t|
        ensures s[p + i] == t[i]
      {
        assert s[p + i] == s[p..p + |t|][i];
      }
    }
  }

  lemma StartsAtFirst(s: string, p: nat, t: string)
    requires |t| > 0 && StartsAt(s, p, t)
    ensures p < |s| && s[p] == t[0]
  {
    assert s[p + 0] == t[0];
  }

  /** The first occurrence of `t` from `p` on is at `q` when none starts before it. */
  lemma {:induction false} FindExact(s: string, p: nat, t: string, q: nat)
    requires p <= q && StartsAt(s, q, t)
    requires forall k :: p <= k < q ==> !StartsAt(s, k, t)
    ensures FindFrom(s, p, t) == Some(q)
    decreases q - p
  {
    if p < q {
      FindExact(s, p + 1, t, q);
    }
  }

  /** The first occurrence of `t` from `p` on is at `q` when the first character of `t` does not
      occur before it. */
  lemma FindFirstChar(s: string, p: nat, t: string, q: nat)
    requires |t| > 0 && p <= q && StartsAt(s, q, t)
    requires forall k :: p <= k < q ==> s[k] != t[0]
    ensures FindFrom(s, p, t) == Some(q)
  {
    forall k | p <= k < q
      ensures !StartsAt(s, k, t)
    {
      if StartsAt(s, k, t) {
        StartsAtFirst(s, k, t);
      }
    }
    FindExact(s, p, t, q);
  }

  /** `s.includes(t)`. */
  predicate Contains(s: string, t: string) {
    FindFrom(s, 0, t).Some?
  }

  /** `s.indexOf(t)`. */
  function IndexOf(s: string, t: string): (i: int)
    ensures i == -1 <==> !Contains(s, t)
    ensures i != -1 ==> 0 <= i && StartsAt(s, i, t) && forall k :: 0 <= k < i ==> !StartsAt(s, k, t)
  {
    match FindFrom(s, 0, t)
    case Some(i) => i
    case None => -1
  }

  lemma ContainsAt(s: string, t: string, p: nat)
    requires StartsAt(s, p, t)
    ensures Contains(s, t)
  {
  }

  lemma NotContainsAt(s: string, t: string, p: nat)
    requires !Contains(s, t)
    ensures !StartsAt(s, p, t)
  {
  }

  /** A one-character pattern occurs exactly where that character stands. */
  lemma StartsAtChar(s: string, p: nat, c: char)
    ensures StartsAt(s, p, [c]) <==> p < |s| && s[p] == c
  {
    assert [c][0] == c;
  }

  lemma NotContainsChar(s: string, c: char)
    requires c !in s
    ensures !Contains(s, [c])
  {
    if Contains(s, [c]) {
      var p := FindFrom(s, 0, [c]).value;
      StartsAtChar(s, p, c);
    }
  }

  /** `s.startsWith(t)`. */
  predicate StartsWith(s: string, t: string) {
    |t| <= |s| && s[..|t|] == t
  }

  /** `s.endsWith(t)`. */
  predicate EndsWith(s: string, t: string) {
    |t| <= |s| && s[|s| - |t|..] == t
  }

  /** A text ends with the last character of any non-empty suffix. */
  lemma EndsWithLast(s: string, t: string)
    ensures EndsWith(s, t) && |t| > 0 ==> s[|s| - 1] == t[|t| - 1]
  {
    if EndsWith(s, t) && |t| > 0 {
      assert s[|s| - |t|..][|t| - 1] == t[|t| - 1];
    }
  }

  /** A suffix of the end of a text is a suffix of the text. */
  lemma EndsWithAppend(a: string, b: string, t: string)
    ensures EndsWith(b, t) ==> EndsWith(a + b, t)
  {
    if EndsWith(b, t) {
      assert (a + b)[|a + b| - |t|..] == b[|b| - |t|..];
    }
  }

  /** `trim()`: no white space at either end, and only white space removed. */
  function Trim(s: string): (r: string)
    ensures |r| == 0 || (!IsSpace(r[0]) && !IsSpace(r[|r| - 1]))
    ensures exists i, j :: 0 <= i <= j <= |s| && r == s[i..j]
                           && (forall k :: 0 <= k < i ==> IsSpace(s[k]))
                           && (forall k :: j <= k < |s| ==> IsSpace(s[k]))
  {
    var i := Span(s, 0, IsSpace);
    SpanAll(s, 0, IsSpace);
    var j := SpanBack(s, i);
    assert s[i..j] == s[i..j];
    s[i..j]
  }

  /** The start of the longest run of white space that ends at `|s|`, not reaching below `lo`. */
  function SpanBack(s: string, lo: nat): (j: nat)
    requires lo <= |s|
    ensures lo <= j <= |s|
    ensures forall k :: j <= k < |s| ==> IsSpace(s[k])
    ensures j == lo || !IsSpace(s[j - 1])
    decreases |s|
  {
    if |s| > lo && IsSpace(s[|s| - 1]) then SpanBack(s[..|s| - 1], lo) else |s|
  }

  /** Trimming a string that already has no white space at either end leaves it alone. */
  lemma TrimNoSpace(s: string)
    requires |s| == 0 || (!IsSpace(s[0]) && !IsSpace(s[|s| - 1]))
    ensures Trim(s) == s
  {
    var i := Span(s, 0, IsSpace);
    assert i == 0;
    var j := SpanBack(s, i);
    assert j == |s|;
  }

  /** Trimming ignores leading white space. */
  lemma TrimLeadingSpace(w: string, s: string)
    requires forall k :: 0 <= k < |w| ==> IsSpace(w[k])
    requires |s| == 0 || (!IsSpace(s[0]) && !IsSpace(s[|s| - 1]))
    ensures Trim(w + s) == s
  {
    var t := w + s;
    assert forall k :: 0 <= k < |w| ==> t[k] == w[k];
    assert |s| > 0 ==> t[|w|] == s[0] && t[|t| - 1] == s[|s| - 1];
    SpanExact(t, 0, |w|, IsSpace);
    var i := Span(t, 0, IsSpace);
    var j := SpanBack(t, i);
    assert j == |t|;
    assert t[i..j] == s;
  }

  lemma IdentifierNoSpace(s: string)
    requires IsIdentifier(s)
    ensures forall k :: 0 <= k < |s| ==> !IsSpace(s[k]) && !IsLineTerminator(s[k])
  {
  }

  /** ASCII `toLowerCase()`. */
  function LowerChar(c: char): (d: char)
    ensures 'A' <= c <= 'Z' ==> d as int == c as int + 32
    ensures !('A' <= c <= 'Z') ==> d == c
  {
    if 'A' <= c <= 'Z' then (c as int + 32) as char else c
  }

  function Lower(s: string): (r: string)
    ensures |r| == |s|
    ensures forall i :: 0 <= i < |s| ==> r[i] == LowerChar(s[i])
  {
    seq(|s|, i requires 0 <= i < |s| => LowerChar(s[i]))
  }

  /** `s.split(c)` for a one-character separator: the pieces between separators, in order. */
  function Split(s: string, c: char): (r: seq<string>)
    ensures |r| >= 1
    ensures forall i :: 0 <= i < |r| ==> c !in r[i]
    ensures Join(r, c) == s
    decreases |s|
  {
    if |s| == 0 then [""]
    else
      var rest := Split(s[1..], c);
      if s[0] == c then
        assert Join([""] + rest, c) == [c] + Join(rest, c);
        assert s == [c] + s[1..];
        [""] + rest
      else
        var r := [[s[0]] + rest[0]] + rest[1..];
        JoinHead(rest, c);
        JoinHead(r, c);
        assert s == [s[0]] + s[1..];
        r
  }

  /** `pieces.join(c)`. */
  function Join(pieces: seq<string>, c: char): string
    requires |pieces| >= 1
    decreases |pieces|
  {
    if |pieces| == 1 then pieces[0] else pieces[0] + [c] + Join(pieces[1..], c)
  }

  lemma JoinHead(pieces: seq<string>, c: char)
    requires |pieces| >= 1
    ensures Join(pieces, c) == pieces[0] + (if |pieces| == 1 then "" else [c] + Join(pieces[1..], c))
  {
  }

  /** The first piece of a split is the prefix before the first separator. */
  lemma SplitFirst(s: string, c: char)
    ensures StartsWith(s, Split(s, c)[0])
    ensures |Split(s, c)[0]| < |s| ==> s[|Split(s, c)[0]|] == c
  {
    var r := Split(s, c);
    JoinHead(r, c);
  }

  /** Text without the separator is one piece. */
  lemma {:induction false} SplitNoSeparator(a: string, c: char)
    requires c !in a
    ensures Split(a, c) == [a]
    decreases |a|
  {
    if |a| > 0 {
      assert a[1..] + [] == a[1..];
      SplitNoSeparator(a[1..], c);
      assert [a[0]] + a[1..] == a;
    }
  }

  /** A piece without the separator, the separator, and the rest: the piece comes first. */
  lemma {:induction false} SplitSeparator(a: string, c: char, rest: string)
    requires c !in a
    ensures Split(a + [c] + rest, c) == [a] + Split(rest, c)
    decreases |a|
  {
    var s := a + [c] + rest;
    if |a| == 0 {
      assert s[0] == c && s[1..] == rest;
    } else {
      assert s[0] == a[0] && s[1..] == a[1..] + [c] + rest;
      SplitSeparator(a[1..], c, rest);
      assert [a[0]] + a[1..] == a;
    }
  }

  /** Splitting what pieces without the separator were joined into gives the pieces back. */
  lemma {:induction false} SplitJoin(pieces: seq<string>, c: char)
    requires |pieces| >= 1
    requires forall i :: 0 <= i < |pieces| ==> c !in pieces[i]
    ensures Split(Join(pieces, c), c) == pieces
    decreases |pieces|
  {
    if |pieces| == 1 {
      SplitNoSeparator(pieces[0], c);
    } else {
      SplitJoin(pieces[1..], c);
      SplitSeparator(pieces[0], c, Join(pieces[1..], c));
      assert [pieces[0]] + pieces[1..] == pieces;
    }
  }

  /** A joined text holds the characters of its pieces. */
  lemma {:induction false} JoinHolds(pieces: seq<string>, c: char, i: nat, x: char)
    requires |pieces| >= 1 && i < |pieces| && x in pieces[i]
    ensures x in Join(pieces, c)
    decreases |pieces|
  {
    if i > 0 {
      JoinHolds(pieces[1..], c, i - 1, x);
    }
  }

  /** A character that is not the separator and is in no piece is not in the joined text. */
  lemma {:induction false} JoinAbsent(pieces: seq<string>, c: char, x: char)
    requires |pieces| >= 1 && x != c
    requires forall i :: 0 <= i < |pieces| ==> x !in pieces[i]
    ensures x !in Join(pieces, c)
    decreases |pieces|
  {
    if |pieces| > 1 {
      JoinAbsent(pieces[1..], c, x);
    }
  }

  /** The pieces of a text hold only characters of the text. */
  lemma SplitAbsent(s: string, c: char, x: char)
    requires x !in s
    ensures forall i :: 0 <= i < |Split(s, c)| ==> x !in Split(s, c)[i]
  {
    forall i | 0 <= i < |Split(s, c)| && x in Split(s, c)[i]
      ensures false
    {
      JoinHolds(Split(s, c), c, i, x);
    }
  }

  /** The last piece follows the last separator. */
  lemma {:induction false} JoinLast(pieces: seq<string>, c: char)
    requires |pieces| >= 2
    ensures Join(pieces, c) == Join(pieces[..|pieces| - 1], c) + [c] + pieces[|pieces| - 1]
    decreases |pieces|
  {
    if |pieces| > 2 {
      JoinLast(pieces[1..], c);
      assert pieces[1..][..|pieces| - 2] == pieces[..|pieces| - 1][1..];
    }
  }

  /** A join ends with the last character of its last piece when that piece is not empty. */
  lemma JoinLastChar(pieces: seq<string>, c: char)
    requires |pieces| >= 2 && pieces[|pieces| - 1] != ""
    ensures var j := Join(pieces, c); var l := pieces[|pieces| - 1]; |j| >= |l| && j[|j| - 1] == l[|l| - 1]
  {
    JoinLast(pieces, c);
    var pre := Join(pieces[..|pieces| - 1], c) + [c];
    assert Join(pieces, c) == pre + pieces[|pieces| - 1];
  }

  /** `s.replace(pattern, replacement)` with a string pattern: only the first occurrence. */
  function ReplaceFirst(s: string, pattern: string, replacement: string): string {
    match FindFrom(s, 0, pattern)
    case None => s
    case Some(i) => s[..i] + replacement + s[i + |pattern|..]
  }

  /** One match found by a regular expression at a position: where it ends and the text that
      replaces it. */
  datatype Hit = Hit(end: nat, output: string)

  /** A regular expression with its replacement callback, as a function of the subject string
      and the position where a match is tried. */
  type Matcher = (string, nat) -> Option<Hit>

  /** Every match is non-empty and stays inside the subject. */
  ghost predicate Advances(m: Matcher) {
    forall s: string, p: nat {:trigger m(s, p)} :: m(s, p).Some? ==> p < m(s, p).value.end <= |s|
  }

  /** The scan of `s.replace(re, f)` for a global `re` from index `p` on: the leftmost match is
      replaced and the scan resumes after it; text where no match starts is copied. */
  function ReplaceFrom(s: string, p: nat, m: Matcher): string
    requires p <= |s|
    requires Advances(m)
    decreases |s| - p
  {
    if p == |s| then ""
    else match m(s, p)
      case Some(h) => h.output + ReplaceFrom(s, h.end, m)
      case None => [s[p]] + ReplaceFrom(s, p + 1, m)
  }

  function ReplaceAll(s: string, m: Matcher): string
    requires Advances(m)
  {
    ReplaceFrom(s, 0, m)
  }

  /** A stretch where no match starts is copied unchanged. */
  lemma {:induction false} ReplaceSkip(s: string, p: nat, q: nat, m: Matcher)
    requires p <= q <= |s|
    requires Advances(m)
    requires forall k :: p <= k < q ==> m(s, k).None?
    ensures ReplaceFrom(s, p, m) == s[p..q] + ReplaceFrom(s, q, m)
    decreases q - p
  {
    if p < q {
      assert m(s, p).None?;
      ReplaceSkip(s, p + 1, q, m);
      calc {
        ReplaceFrom(s, p, m);
        [s[p]] + ReplaceFrom(s, p + 1, m);
        [s[p]] + (s[p + 1..q] + ReplaceFrom(s, q, m));
        ([s[p]] + s[p + 1..q]) + ReplaceFrom(s, q, m);
        { assert s[p..q] == [s[p]] + s[p + 1..q]; }
        s[p..q] + ReplaceFrom(s, q, m);
      }
    }
  }

  /** A text in which the expression matches nowhere is returned unchanged. */
  lemma ReplaceNoMatch(s: string, m: Matcher)
    requires Advances(m)
    requires forall k :: 0 <= k < |s| ==> m(s, k).None?
    ensures ReplaceAll(s, m) == s
  {
    ReplaceSkip(s, 0, |s|, m);
  }

  /** When every match is replaced by the text it matched, nothing changes. */
  lemma {:induction false} ReplaceVerbatim(s: string, p: nat, m: Matcher)
    requires p <= |s|
    requires Advances(m)
    requires forall k :: p <= k < |s| && m(s, k).Some? ==> m(s, k).value.output == s[k..m(s, k).value.end]
    ensures ReplaceFrom(s, p, m) == s[p..]
    decreases |s| - p
  {
    if p < |s| {
      match m(s, p)
      case Some(h) =>
        ReplaceVerbatim(s, h.end, m);
        assert s[p..] == s[p..h.end] + s[h.end..];
      case None =>
        ReplaceVerbatim(s, p + 1, m);
        assert s[p..] == [s[p]] + s[p + 1..];
    }
  }

  /** A match that covers the whole text is replaced by its output alone. */
  lemma ReplaceWhole(s: string, m: Matcher, out: string)
    requires Advances(m)
    requires |s| > 0 && m(s, 0) == Some(Hit(|s|, out))
    ensures ReplaceAll(s, m) == out
  {
    assert ReplaceFrom(s, |s|, m) == "";
  }

  /** A single match at `p`, with no match starting before it or after it, is replaced in
      place. */
  lemma ReplaceSplice(s: string, p: nat, e: nat, m: Matcher, out: string)
    requires Advances(m) && p < e <= |s|
    requires forall k :: 0 <= k < p ==> m(s, k).None?
    requires m(s, p) == Some(Hit(e, out))
    requires forall k :: e <= k < |s| ==> m(s, k).None?
    ensures ReplaceAll(s, m) == s[..p] + out + s[e..]
  {
    ReplaceSkip(s, 0, p, m);
    ReplaceSkip(s, e, |s|, m);
    assert ReplaceFrom(s, |s|, m) == "";
    assert s[0..p] == s[..p];
    assert s[e..|s|] == s[e..];
  }

  /** A character absent from the text and from every replacement is absent from the result. */
  lemma {:induction false} ReplaceKeepsAbsent(s: string, p: nat, m: Matcher, c: char)
    requires p <= |s| && Advances(m)
    requires c !in s[p..]
    requires forall k :: p <= k < |s| && m(s, k).Some? ==> c !in m(s, k).value.output
    ensures c !in ReplaceFrom(s, p, m)
    decreases |s| - p
  {
    if p < |s| {
      match m(s, p)
      case Some(h) =>
        assert s[h.end..] == s[p..][h.end - p..];
        ReplaceKeepsAbsent(s, h.end, m, c);
      case None =>
        assert s[p + 1..] == s[p..][1..];
        ReplaceKeepsAbsent(s, p + 1, m, c);
    }
  }
}
