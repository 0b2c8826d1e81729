/** The URL side of the router plugin: path normalisation, `:name` patterns matched segment by
    segment and filled from params, the file a built page is written to, the lookup of a URL
    in the route table and the param sets a route is built with. `encodeURIComponent` and
    `decodeURIComponent` are function parameters. */
module Router {
  import opened Strings
  import opened Objects

  /** `s.split(c)[0]`: the text before the first `c`. */
  function Before(s: string, c: char): (r: string)
    ensures StartsWith(s, r) && c !in r
    ensures |r| < |s| ==> s[|r|] == c
  {
    SplitFirst(s, c);
    Split(s, c)[0]
  }

  /** `url.split('?')[0].split('#')[0]`: the longest prefix with neither `?` nor `#`. */
  function Cut(url: string): (r: string)
    ensures StartsWith(url, r) && '?' !in r && '#' !in r
    ensures |r| < |url| ==> url[|r|] == '?' || url[|r|] == '#'
  {
    var a := Before(url, '?');
    var r := Before(a, '#');
    assert r == a[..|r|] && a == url[..|a|];
    assert url[..|r|] == r;
    assert |r| < |a| ==> url[|r|] == a[|r|];
    r
  }

  /** `normalizeUrlPath(url)`: the path without query and fragment, `/` when that is empty,
      and with one trailing `/` removed from any other path. */
  function NormalizeUrlPath(url: string): (r: string)
    ensures r != "" && '?' !in r && '#' !in r
    ensures Cut(url) == "" ==> r == "/"
    ensures Cut(url) != "" ==> StartsWith(Cut(url), r)
    ensures |r| < |Cut(url)| ==> Cut(url) == r + "/" && r != ""
    ensures |Cut(url)| <= |r| + 1
    ensures Cut(url) != "/" && EndsWith(Cut(url), "/") ==> r == Cut(url)[..|Cut(url)| - 1]
    ensures Cut(url) != "" && (Cut(url) == "/" || !EndsWith(Cut(url), "/")) ==> r == Cut(url)
  {
    var path := Cut(url);
    if path == "" then "/"
    else if path != "/" && EndsWith(path, "/") then
      var r := path[..|path| - 1];
      assert path == r + "/";
      r
    else path
  }

  /** A path normalisation leaves alone: not empty, without query or fragment, and `/` or not
      ending in `/`. */
  predicate IsNormal(path: string) {
    path != "" && '?' !in path && '#' !in path && (path == "/" || !EndsWith(path, "/"))
  }

  /** Normalisation changes nothing in a normal path. */
  lemma NormalizeNormal(path: string)
    requires IsNormal(path)
    ensures NormalizeUrlPath(path) == path
  {
    var c := Cut(path);
    assert forall i :: 0 <= i < |path| ==> path[i] != '?' && path[i] != '#';
    assert c == path[..|path|];
  }

  /** What normalisation returns is normal unless it removed a slash and left another one. */
  lemma NormalizeResult(url: string)
    ensures var r := NormalizeUrlPath(url); r == "/" || !EndsWith(r, "/") ==> IsNormal(r)
  {
  }

  /** A path without query or fragment that ends in `/` after some other character loses
      that one slash. */
  lemma NormalizeDropsSlash(path: string)
    requires '?' !in path && '#' !in path && |path| >= 2 && path[|path| - 1] == '/'
    ensures NormalizeUrlPath(path) == path[..|path| - 1]
  {
    assert path[..|path|] == path;
    assert path[|path| - 1..] == "/";
  }

  /** Normalising twice is not normalising once: only one trailing slash goes each time. */
  lemma NormalizeTwice(url: string)
    requires url == "/a//"
    ensures NormalizeUrlPath(url) == "/a/"
    ensures NormalizeUrlPath(NormalizeUrlPath(url)) == "/a"
  {
    NormalizeDropsSlash(url);
    assert url[..3] == "/a/";
    NormalizeDropsSlash("/a/");
    assert "/a/"[..2] == "/a";
  }

  /** A pattern segment that must equal the URL segment: not empty, not a `:name`. */
  predicate IsLiteral(p: string) {
    p != "" && p[0] != ':'
  }

  /** A pattern segment that binds a name. */
  predicate IsParam(p: string) {
    p != "" && p[0] == ':'
  }

  /** The segment loop of `matchPattern` from segment `i` on, with the params bound so far:
      empty pattern segments are skipped, `:name` binds `name` to the decoded URL segment,
      and any other segment must equal the URL segment. */
  function MatchFrom(ps: seq<string>, us: seq<string>, i: nat, params: Object<string>, decode: string -> string): Option<Object<string>>
    requires |ps| == |us| && i <= |ps|
    decreases |ps| - i
  {
    if i == |ps| then Some(params)
    else if ps[i] == "" then MatchFrom(ps, us, i + 1, params, decode)
    else if ps[i][0] == ':' then MatchFrom(ps, us, i + 1, Put(params, ps[i][1..], decode(us[i])), decode)
    else if ps[i] != us[i] then None
    else MatchFrom(ps, us, i + 1, params, decode)
  }

  /** `matchPattern(pattern, urlPath)`: `null` (`None`) when the normalised paths have a
      different number of segments or a literal segment differs, the bound params otherwise. */
  function PatternMatch(pattern: string, url: string, decode: string -> string): Option<Object<string>> {
    var ps := Split(NormalizeUrlPath(pattern), '/');
    var us := Split(NormalizeUrlPath(url), '/');
    if |ps| != |us| then None else MatchFrom(ps, us, 0, [], decode)
  }

  /** `matchPattern`: split both normalised paths and run the segment loop. */
  method MatchPattern(pattern: string, urlPath: string, decode: string -> string) returns (r: Option<Object<string>>)
    ensures r == PatternMatch(pattern, urlPath, decode)
  {
    var pSegs := Split(NormalizeUrlPath(pattern), '/');
    var uSegs := Split(NormalizeUrlPath(urlPath), '/');
    if |pSegs| != |uSegs| {
      return None;
    }
    r := MatchSegments(pSegs, uSegs, decode);
  }

  /** The segment loop of `matchPattern`, with its early return on a differing literal. */
  method MatchSegments(pSegs: seq<string>, uSegs: seq<string>, decode: string -> string) returns (r: Option<Object<string>>)
    requires |pSegs| == |uSegs|
    ensures r == MatchFrom(pSegs, uSegs, 0, [], decode)
  {
    var params: Object<string> := [];
    for i := 0 to |pSegs|
      invariant MatchFrom(pSegs, uSegs, i, params, decode) == MatchFrom(pSegs, uSegs, 0, [], decode)
    {
      var p := pSegs[i];
      var u := uSegs[i];
      if p == "" {
        continue;
      }
      if p[0] == ':' {
        params := Put(params, p[1..], decode(u));
      } else if p != u {
        return None;
      }
    }
    return Some(params);
  }

  /** Segments from `i` on match when every literal pattern segment equals its URL segment. */
  predicate LiteralsAgree(ps: seq<string>, us: seq<string>, i: nat)
    requires |ps| == |us|
  {
    forall j :: i <= j < |ps| && IsLiteral(ps[j]) ==> ps[j] == us[j]
  }

  /** The loop succeeds exactly when the literal segments agree, whatever was bound before. */
  lemma {:induction false} MatchFromSome(ps: seq<string>, us: seq<string>, i: nat, params: Object<string>, decode: string -> string)
    requires |ps| == |us| && i <= |ps|
    ensures MatchFrom(ps, us, i, params, decode).Some? <==> LiteralsAgree(ps, us, i)
    decreases |ps| - i
  {
    if i < |ps| {
      if ps[i] != "" && ps[i][0] == ':' {
        MatchFromSome(ps, us, i + 1, Put(params, ps[i][1..], decode(us[i])), decode);
      } else {
        MatchFromSome(ps, us, i + 1, params, decode);
      }
    }
  }

  /** The value the URL gives `k`: the decoded URL segment under the last `:k` pattern segment
      from `i` on, if there is one. */
  function Bound(ps: seq<string>, us: seq<string>, i: nat, k: string, decode: string -> string): (r: Option<string>)
    requires |ps| == |us| && i <= |ps|
    decreases |ps| - i
  {
    if i == |ps| then None
    else match Bound(ps, us, i + 1, k, decode)
      case Some(v) => Some(v)
      case None => if ps[i] == [':'] + k then Some(decode(us[i])) else None
  }

  /** Every name gets its last binding; names the pattern does not bind keep what they had. */
  lemma {:induction false} MatchFromGet(ps: seq<string>, us: seq<string>, i: nat, params: Object<string>, decode: string -> string, k: string)
    requires |ps| == |us| && i <= |ps|
    requires MatchFrom(ps, us, i, params, decode).Some?
    ensures Get(MatchFrom(ps, us, i, params, decode).value, k) ==
            if Bound(ps, us, i, k, decode).Some? then Bound(ps, us, i, k, decode) else Get(params, k)
    decreases |ps| - i
  {
    if i < |ps| {
      if ps[i] != "" && ps[i][0] == ':' {
        var q := Put(params, ps[i][1..], decode(us[i]));
        MatchFromGet(ps, us, i + 1, q, decode, k);
        assert ps[i] == [':'] + ps[i][1..];
      } else {
        MatchFromGet(ps, us, i + 1, params, decode, k);
        assert ps[i] != [':'] + k;
      }
    }
  }

  /** The loop from the first segment with nothing bound yet. */
  lemma MatchFromStart(ps: seq<string>, us: seq<string>, decode: string -> string, k: string)
    requires |ps| == |us|
    ensures MatchFrom(ps, us, 0, [], decode).Some? <==> LiteralsAgree(ps, us, 0)
    ensures MatchFrom(ps, us, 0, [], decode).Some? ==> Get(MatchFrom(ps, us, 0, [], decode).value, k) == Bound(ps, us, 0, k, decode)
  {
    MatchFromSome(ps, us, 0, [], decode);
    if MatchFrom(ps, us, 0, [], decode).Some? {
      MatchFromGet(ps, us, 0, [], decode, k);
    }
  }

  /** `matchPattern` in full: `null` for a different segment count or a differing literal,
      and otherwise params giving each name its last binding and nothing else. */
  lemma PatternMatchMeaning(pattern: string, url: string, decode: string -> string, k: string)
    ensures var ps := Split(NormalizeUrlPath(pattern), '/');
            var us := Split(NormalizeUrlPath(url), '/');
            && (PatternMatch(pattern, url, decode).Some? <==> |ps| == |us| && LiteralsAgree(ps, us, 0))
            && (PatternMatch(pattern, url, decode).Some? ==>
                  Get(PatternMatch(pattern, url, decode).value, k) == Bound(ps, us, 0, k, decode))
  {
    var ps := Split(NormalizeUrlPath(pattern), '/');
    var us := Split(NormalizeUrlPath(url), '/');
    if |ps| == |us| {
      MatchFromStart(ps, us, decode, k);
    }
  }

  /** `fillPattern`'s loop from the `i`-th param on: each replaces the first `:key` with the
      encoded value. */
  function Filled(path: string, params: seq<(string, string)>, encode: string -> string): string
    decreases |params|
  {
    if |params| == 0 then path
    else Filled(ReplaceFirst(path, [':'] + params[0].0, encode(params[0].1)), params[1..], encode)
  }

  /** `params || {}`: absent params are none. */
  function OrEmpty(params: Option<Object<string>>): Object<string> {
    if params.Some? then params.value else []
  }

  /** `fillPattern(pattern, params)` as written: the normalised pattern, then for each key in
      `Object.keys` order the first occurrence of `':' + key` replaced by the encoded value. */
  method FillPattern(pattern: string, params: Option<Object<string>>, encode: string -> string) returns (path: string)
    ensures path == Filled(NormalizeUrlPath(pattern), OrEmpty(params), encode)
  {
    path := NormalizeUrlPath(pattern);
    var ps := OrEmpty(params);
    var keys := Keys(ps);
    for i := 0 to |keys|
      invariant Filled(path, ps[i..], encode) == Filled(NormalizeUrlPath(pattern), ps, encode)
    {
      var key := keys[i];
      GetAt(ps, i);
      assert ps[i..][1..] == ps[i + 1..];
      path := ReplaceFirst(path, [':'] + key, encode(Get(ps, key).value));
    }
  }

  /** A text in which `t`'s first character never occurs holds no `t`. */
  lemma FindNoHead(s: string, t: string)
    requires |t| > 0
    ensures t[0] !in s ==> FindFrom(s, 0, t) == None
  {
    if FindFrom(s, 0, t).Some? {
      StartsAtFirst(s, FindFrom(s, 0, t).value, t);
    }
  }

  /** A pattern without `:` is filled to itself, whatever the params. */
  lemma {:induction false} FilledNoColon(path: string, params: seq<(string, string)>, encode: string -> string)
    requires ':' !in path
    ensures Filled(path, params, encode) == path
    decreases |params|
  {
    if |params| > 0 {
      FindNoHead(path, [':'] + params[0].0);
      FilledNoColon(path, params[1..], encode);
    }
  }

  /** The first-occurrence replacement fills the start of a longer name: with `id` filled
      before `idx`, the pattern `/:idx/:id` becomes `/1x/:id` instead of `/2/1`. */
  lemma FilledPrefixCollision(pattern: string, params: seq<(string, string)>, encode: string -> string)
    requires pattern == "/:idx/:id" && params == [("id", "1"), ("idx", "2")]
    requires forall v :: encode(v) == v
    ensures Filled(pattern, params, encode) == "/1x/:id"
  {
    assert [':'] + params[0].0 == ":id" && [':'] + params[1].0 == ":idx";
    assert FindFrom(pattern, 0, ":id") == Some(1) by {
      assert pattern[0] != ":id"[0];
      FindExact(pattern, 0, ":id", 1);
    }
    var s1 := ReplaceFirst(pattern, ":id", "1");
    assert s1 == "/1x/:id";
    forall k | 0 <= k <= |s1|
      ensures !StartsAt(s1, k, ":idx")
    {
      StartsAtHead(s1, k, ":idx");
    }
    assert FindFrom(s1, 0, ":idx") == None;
    assert ReplaceFirst(s1, ":idx", encode("2")) == s1;
    assert params[1..][1..] == [];
    calc {
      Filled(pattern, params, encode);
      Filled(ReplaceFirst(pattern, ":id", encode("1")), params[1..], encode);
      { assert encode("1") == "1"; }
      Filled(s1, params[1..], encode);
      Filled(ReplaceFirst(s1, ":idx", encode("2")), params[1..][1..], encode);
      Filled(s1, [], encode);
    }
  }

  lemma StartsAtHead(s: string, k: nat, t: string)
    ensures StartsAt(s, k, t) && |t| > 0 ==> s[k] == t[0]
  {
    if StartsAt(s, k, t) && |t| > 0 {
      assert s[k + 0] == t[0];
    }
  }

  /** The segments of a pattern filled segment by segment: `:key` for a key of `params`
      becomes the encoded value, every other segment stays. */
  function FillSegs(segs: seq<string>, params: Object<string>, encode: string -> string): (r: seq<string>)
    ensures |r| == |segs|
    ensures forall i :: 0 <= i < |segs| ==>
              r[i] == if IsParam(segs[i]) && Has(params, segs[i][1..]) then encode(Get(params, segs[i][1..]).value) else segs[i]
  {
    seq(|segs|, i requires 0 <= i < |segs| =>
      if IsParam(segs[i]) && Has(params, segs[i][1..]) then encode(Get(params, segs[i][1..]).value) else segs[i])
  }

  /** The filling the router evidently means: every `:key` segment of the normalised pattern
      for a key of `params` replaced by the encoded value, and nothing else touched. */
  function FillPath(pattern: string, params: Option<Object<string>>, encode: string -> string): string {
    Join(FillSegs(Split(NormalizeUrlPath(pattern), '/'), OrEmpty(params), encode), '/')
  }

  /** What the encoder must give for a filled path to read back: no separator, query or
      fragment character, a non-empty text for a non-empty value, and the value once decoded. */
  ghost predicate Codec(encode: string -> string, decode: string -> string) {
    forall v :: '/' !in encode(v) && '?' !in encode(v) && '#' !in encode(v) &&
                (v != "" ==> encode(v) != "") && decode(encode(v)) == v
  }

  /** The segments of a filled path are the filled segments. */
  lemma FillPathSegments(pattern: string, params: Option<Object<string>>, encode: string -> string)
    requires forall v :: '/' !in encode(v)
    ensures Split(FillPath(pattern, params, encode), '/') ==
            FillSegs(Split(NormalizeUrlPath(pattern), '/'), OrEmpty(params), encode)
  {
    var fs := FillSegs(Split(NormalizeUrlPath(pattern), '/'), OrEmpty(params), encode);
    SplitJoin(fs, '/');
  }

  /** The name a `:name` segment binds. */
  lemma ParamName(p: string, k: string)
    ensures p == [':'] + k <==> IsParam(p) && p[1..] == k
  {
    if IsParam(p) && p[1..] == k {
      assert p == [p[0]] + p[1..];
    }
  }

  /** Reading a filled segment back gives the param of every `:key` that was filled. */
  lemma {:induction false} BoundFilled(ps: seq<string>, params: Object<string>, encode: string -> string,
                                       decode: string -> string, i: nat, k: string)
    requires i <= |ps| && Has(params, k) && Codec(encode, decode)
    ensures Bound(ps, FillSegs(ps, params, encode), i, k, decode) ==
            if [':'] + k in ps[i..] then Get(params, k) else None
    decreases |ps| - i
  {
    if i < |ps| {
      BoundFilled(ps, params, encode, decode, i + 1, k);
      ParamName(ps[i], k);
      assert ps[i..] == [ps[i]] + ps[i + 1..];
    }
  }

  /** A filled path keeps the pieces' freedom from query and fragment characters. */
  lemma FilledPieces(ps: seq<string>, params: Object<string>, encode: string -> string, decode: string -> string)
    requires Codec(encode, decode)
    requires forall i :: 0 <= i < |ps| ==> '?' !in ps[i] && '#' !in ps[i] && '/' !in ps[i]
    ensures forall i :: 0 <= i < |ps| ==>
              var f := FillSegs(ps, params, encode)[i]; '?' !in f && '#' !in f && '/' !in f
  {
  }

  /** Filling leaves every literal segment as it was. */
  lemma FillKeepsLiterals(ps: seq<string>, params: Object<string>, encode: string -> string)
    ensures LiteralsAgree(ps, FillSegs(ps, params, encode), 0)
  {
  }

  /** A filled path has no query or fragment character. */
  lemma FillPathPlain(pattern: string, params: Object<string>, encode: string -> string, decode: string -> string)
    requires Codec(encode, decode)
    ensures '?' !in FillPath(pattern, Some(params), encode) && '#' !in FillPath(pattern, Some(params), encode)
  {
    var n := NormalizeUrlPath(pattern);
    var ps := Split(n, '/');
    var fs := FillSegs(ps, params, encode);
    SplitAbsent(n, '/', '?');
    SplitAbsent(n, '/', '#');
    FilledPieces(ps, params, encode, decode);
    JoinAbsent(fs, '/', '?');
    JoinAbsent(fs, '/', '#');
  }

  /** The filled last segment is empty only when the pattern's is, and never ends in `/`. */
  lemma FilledLast(ps: seq<string>, params: Object<string>, encode: string -> string, decode: string -> string)
    requires |ps| > 0 && Codec(encode, decode) && '/' !in ps[|ps| - 1]
    requires forall i :: 0 <= i < |params| ==> params[i].1 != ""
    ensures var l := FillSegs(ps, params, encode)[|ps| - 1];
            (ps[|ps| - 1] != "" ==> l != "") && '/' !in l && !EndsWith(l, "/")
  {
    var last := |ps| - 1;
    var l := FillSegs(ps, params, encode)[last];
    if IsParam(ps[last]) && Has(params, ps[last][1..]) {
      NonEmptyValue(params, ps[last][1..]);
    }
    assert '/' !in l;
    EndsWithLast(l, "/");
  }

  /** A filled path is `/` or does not end in `/`. */
  lemma FillPathEnd(pattern: string, params: Object<string>, encode: string -> string, decode: string -> string)
    requires IsNormal(NormalizeUrlPath(pattern)) && Codec(encode, decode)
    requires forall i :: 0 <= i < |params| ==> params[i].1 != ""
    ensures var f := FillPath(pattern, Some(params), encode); f != "" && (f == "/" || !EndsWith(f, "/"))
  {
    FilledNormalEnd(NormalizeUrlPath(pattern), params, encode, decode);
  }

  /** Filling the segments of a normal path gives `/` or a text that does not end in `/`. */
  lemma FilledNormalEnd(n: string, params: Object<string>, encode: string -> string, decode: string -> string)
    requires IsNormal(n) && Codec(encode, decode)
    requires forall i :: 0 <= i < |params| ==> params[i].1 != ""
    ensures var f := Join(FillSegs(Split(n, '/'), params, encode), '/'); f != "" && (f == "/" || !EndsWith(f, "/"))
  {
    var ps := Split(n, '/');
    assert '/' !in ps[|ps| - 1];
    var fs := FillSegs(ps, params, encode);
    forall i | 0 <= i < |fs| && ps[i] == ""
      ensures fs[i] == ""
    {
      assert !IsParam(ps[i]);
    }
    FilledLast(ps, params, encode, decode);
    JoinNormalEnd(n, fs);
  }

  /** Pieces that stand for the segments of a normal path, empty where they are empty and
      ending in a non-empty piece without `/` where the path does, join to `/` or to a text
      that does not end in `/`. */
  lemma JoinNormalEnd(n: string, fs: seq<string>)
    requires IsNormal(n) && |fs| == |Split(n, '/')|
    requires forall i :: 0 <= i < |fs| && Split(n, '/')[i] == "" ==> fs[i] == ""
    requires Split(n, '/')[|fs| - 1] != "" ==> fs[|fs| - 1] != ""
    requires '/' !in fs[|fs| - 1]
    ensures Join(fs, '/') != "" && (Join(fs, '/') == "/" || !EndsWith(Join(fs, '/'), "/"))
  {
    var ps := Split(n, '/');
    var f := Join(fs, '/');
    var last := |ps| - 1;
    if |ps| == 1 {
      assert f == fs[0] && n == ps[0];
      EndsWithLast(f, "/");
    } else if ps[last] == "" {
      JoinLast(ps, '/');
      JoinLast(fs, '/');
      assert EndsWith(n, "/");
      OnlySlash(ps);
    } else {
      var l := fs[last];
      JoinLastChar(fs, '/');
      assert l[|l| - 1] in l;
      EndsWithLast(f, "/");
    }
  }

  /** A filled path is one normalisation leaves alone. */
  lemma FillPathNormal(pattern: string, params: Object<string>, encode: string -> string, decode: string -> string)
    requires IsNormal(NormalizeUrlPath(pattern)) && Codec(encode, decode)
    requires forall i :: 0 <= i < |params| ==> params[i].1 != ""
    ensures IsNormal(FillPath(pattern, Some(params), encode))
  {
    FillPathPlain(pattern, params, encode, decode);
    FillPathEnd(pattern, params, encode, decode);
  }

  /** The value stored under a key is one of the object's values. */
  lemma NonEmptyValue(params: Object<string>, k: string)
    requires Has(params, k) && forall i :: 0 <= i < |params| ==> params[i].1 != ""
    ensures Get(params, k).value != ""
    decreases |params|
  {
    if params[0].0 != k {
      NonEmptyValue(params[1..], k);
    }
  }

  lemma OnlySlash(ps: seq<string>)
    requires ps == Split("/", '/')
    ensures ps == ["", ""]
  {
    SplitSeparator("", '/', "");
    SplitNoSeparator("", '/');
    assert "" + ['/'] + "" == "/";
  }

  /** The evidently intended partner of building a path: the dev router matches the path
      filled from the params against the pattern and reads back every filled param. */
  lemma FillThenMatch(pattern: string, params: Object<string>, encode: string -> string,
                      decode: string -> string, k: string)
    requires IsNormal(NormalizeUrlPath(pattern)) && Codec(encode, decode)
    requires forall i :: 0 <= i < |params| ==> params[i].1 != ""
    ensures PatternMatch(pattern, FillPath(pattern, Some(params), encode), decode).Some?
    ensures Has(params, k) && [':'] + k in Split(NormalizeUrlPath(pattern), '/') ==>
              Get(PatternMatch(pattern, FillPath(pattern, Some(params), encode), decode).value, k) == Get(params, k)
  {
    var ps := Split(NormalizeUrlPath(pattern), '/');
    var fs := FillSegs(ps, params, encode);
    var f := FillPath(pattern, Some(params), encode);
    FillPathNormal(pattern, params, encode, decode);
    NormalizeNormal(f);
    FillPathSegments(pattern, Some(params), encode);
    assert Split(NormalizeUrlPath(f), '/') == fs;
    FillKeepsLiterals(ps, params, encode);
    PatternMatchMeaning(pattern, f, decode, k);
    if Has(params, k) {
      BoundFilled(ps, params, encode, decode, 0, k);
      assert ps[0..] == ps;
    }
  }


  /** `path.replace(/^\//, '')`: one leading `/` removed. */
  function StripLeadingSlash(path: string): (r: string)
    ensures |path| > 0 && path[0] == '/' ==> path == "/" + r
    ensures (|path| == 0 || path[0] != '/') ==> r == path
  {
    if |path| > 0 && path[0] == '/' then path[1..] else path
  }

  lemma SlashIndex(f: string)
    ensures EndsWith(f, "/") ==> EndsWith(f + "index.html", "/index.html")
  {
    if EndsWith(f, "/") {
      var g := f[..|f| - 1];
      assert f == g + "/";
      assert f + "index.html" == g + "/index.html";
      EndsWithAppend(g, "/index.html", "/index.html");
    }
  }

  /** `makeFileNameFromPath(path)`: the output file of a page. A directory (the empty name or
      one ending in `/`) gets `index.html`, a name not ending in `.html` gets `/index.html`, and
      an `.html` name is kept; the result always ends in `.html`. */
  function MakeFileNameFromPath(path: string): (r: string)
    ensures EndsWith(r, ".html")
    ensures StartsWith(r, StripLeadingSlash(path))
    ensures r == StripLeadingSlash(path) <==> StripLeadingSlash(path) != "" && EndsWith(StripLeadingSlash(path), ".html")
    ensures r != StripLeadingSlash(path) ==> r == "index.html" || EndsWith(r, "/index.html")
    ensures (StripLeadingSlash(path) == "" || EndsWith(StripLeadingSlash(path), "/"))
              ==> r == StripLeadingSlash(path) + "index.html"
    ensures (StripLeadingSlash(path) != "" && !EndsWith(StripLeadingSlash(path), "/")
             && !EndsWith(StripLeadingSlash(path), ".html"))
              ==> r == StripLeadingSlash(path) + "/index.html"
  {
    var f := StripLeadingSlash(path);
    EndsWithLast(f, "/");
    EndsWithLast(f, ".html");
    EndsWithAppend(f, "index.html", ".html");
    EndsWithAppend(f, "/index.html", ".html");
    EndsWithAppend(f, "/index.html", "/index.html");
    SlashIndex(f);
    if f == "" || EndsWith(f, "/") then f + "index.html"
    else if !EndsWith(f, ".html") then f + "/index.html"
    else f
  }

  /** Distinct normalised page paths that do not name an `.html` file get distinct files. */
  lemma FileNamesDistinct(p: string, q: string)
    requires IsNormal(p) && IsNormal(q) && p[0] == '/' && q[0] == '/'
    requires !EndsWith(p, ".html") && !EndsWith(q, ".html")
    requires MakeFileNameFromPath(p) == MakeFileNameFromPath(q)
    ensures p == q
  {
    var a := StripLeadingSlash(p);
    var b := StripLeadingSlash(q);
    assert a == "" || !EndsWith(a, "/");
    assert b == "" || !EndsWith(b, "/");
    EndsWithAppend("/", a, ".html");
    EndsWithAppend("/", b, ".html");
    var r := MakeFileNameFromPath(p);
    if a != "" && b != "" {
      assert r == a + "/index.html" && r == b + "/index.html";
      assert a == r[..|r| - 11] == b;
    }
  }

  /** An `.html` page path and its directory form share a file: `/a` and `/a/index.html` both
      become `a/index.html`. */
  lemma FileNameShared(p: string, q: string)
    requires p == "/a" && q == "/a/index.html"
    ensures MakeFileNameFromPath(p) == MakeFileNameFromPath(q) == "a/index.html"
  {
    assert StripLeadingSlash(q) == "a/index.html";
    assert StripLeadingSlash(q)[|StripLeadingSlash(q)| - 5..] == ".html";
    assert StripLeadingSlash(p) == "a";
  }

  /** Trying one route entry on the (already normalised) URL: its page and params when its
      pattern holds `:` and matches. */
  function Try(route: (string, string), url: string, decode: string -> string): Option<(string, Object<string>)> {
    if ':' in route.0 && PatternMatch(route.0, url, decode).Some? then Some((route.1, PatternMatch(route.0, url, decode).value))
    else None
  }

  /** The outcome of trying each entry, in entry order. */
  function Tries(routes: Object<string>, url: string, decode: string -> string): (r: seq<Option<(string, Object<string>)>>)
    ensures |r| == |routes|
  {
    seq(|routes|, j requires 0 <= j < |routes| => Try(routes[j], url, decode))
  }

  /** The first outcome from index `k` on that is present. */
  function FirstSome<T>(xs: seq<Option<T>>, k: nat): Option<T>
    requires k <= |xs|
    decreases |xs| - k
  {
    if k == |xs| then None else if xs[k].Some? then xs[k] else FirstSome(xs, k + 1)
  }

  /** The dynamic routes from entry `i` on: the first pattern holding `:` that matches the URL,
      with its page and params. */
  function FirstPattern(routes: Object<string>, url: string, i: nat, decode: string -> string): Option<(string, Object<string>)>
    requires i <= |routes|
  {
    FirstSome(Tries(routes, url, decode), i)
  }

  /** What `matchRoute(urlPath)` returns: a truthy exact entry for the normalised URL with no
      params, else the first dynamic route that matches. */
  function RouteFor(routes: Object<string>, urlPath: string, decode: string -> string): Option<(string, Object<string>)> {
    var n := NormalizeUrlPath(urlPath);
    if Get(routes, n).Some? && Get(routes, n).value != "" then Some((Get(routes, n).value, []))
    else FirstPattern(routes, n, 0, decode)
  }

  /** `matchRoute`, the loop over the route entries with its early return. */
  method MatchRoute(routes: Object<string>, urlPath: string, decode: string -> string)
    returns (r: Option<(string, Object<string>)>)
    ensures r == RouteFor(routes, urlPath, decode)
  {
    var normUrl := NormalizeUrlPath(urlPath);
    var exact := Get(routes, normUrl);
    if exact.Some? && exact.value != "" {
      return Some((exact.value, []));
    }
    for i := 0 to |routes|
      invariant FirstPattern(routes, normUrl, i, decode) == FirstPattern(routes, normUrl, 0, decode)
    {
      var (pattern, htmlPath) := routes[i];
      TriesHit(routes, normUrl, i, decode);
      if ':' !in pattern {
        continue;
      }
      var params := MatchPattern(pattern, normUrl, decode);
      if params.Some? {
        return Some((htmlPath, params.value));
      }
    }
    return None;
  }

  /** Entry `j` is a dynamic route that matches the URL. */
  predicate Hits(routes: Object<string>, url: string, j: nat, decode: string -> string)
    requires j < |routes|
  {
    ':' in routes[j].0 && PatternMatch(routes[j].0, url, decode).Some?
  }

  /** The first present outcome is the one at `i` when none comes before it. */
  lemma {:induction false} FirstSomeAt<T>(xs: seq<Option<T>>, i: nat, k: nat)
    requires k <= i < |xs| && xs[i].Some?
    requires forall j :: k <= j < i ==> xs[j].None?
    ensures FirstSome(xs, k) == xs[i]
    decreases i - k
  {
    if k < i {
      FirstSomeAt(xs, i, k + 1);
    }
  }

  /** Nothing is found exactly when every outcome is absent. */
  lemma {:induction false} FirstSomeNone<T>(xs: seq<Option<T>>, k: nat)
    requires k <= |xs|
    ensures FirstSome(xs, k).None? <==> forall j :: k <= j < |xs| ==> xs[j].None?
    decreases |xs| - k
  {
    if k < |xs| {
      FirstSomeNone(xs, k + 1);
      assert (forall j :: k <= j < |xs| ==> xs[j].None?) <==>
             xs[k].None? && forall j :: k + 1 <= j < |xs| ==> xs[j].None?;
    }
  }

  /** What is found is a present outcome with none before it. */
  lemma {:induction false} FirstSomeFound<T>(xs: seq<Option<T>>, k: nat)
    requires k <= |xs| && FirstSome(xs, k).Some?
    ensures exists i :: k <= i < |xs| && xs[i].Some? && (forall j :: k <= j < i ==> xs[j].None?) && FirstSome(xs, k) == xs[i]
    decreases |xs| - k
  {
    var i := k;
    if xs[k].None? {
      FirstSomeFound(xs, k + 1);
      i :| k + 1 <= i < |xs| && xs[i].Some? && (forall j :: k + 1 <= j < i ==> xs[j].None?) && FirstSome(xs, k + 1) == xs[i];
      forall j | k <= j < i
        ensures xs[j].None?
      {
      }
    }
  }

  /** Entry `j`'s outcome is present exactly when it hits, and is then its page and params. */
  lemma TriesHit(routes: Object<string>, url: string, j: nat, decode: string -> string)
    requires j < |routes|
    ensures Tries(routes, url, decode)[j].Some? <==> Hits(routes, url, j, decode)
    ensures Hits(routes, url, j, decode) ==>
              Tries(routes, url, decode)[j] == Some((routes[j].1, PatternMatch(routes[j].0, url, decode).value))
  {
  }

  /** The first matching dynamic route wins. */
  lemma FirstPatternAt(routes: Object<string>, url: string, i: nat, k: nat, decode: string -> string)
    requires k <= i < |routes| && Hits(routes, url, i, decode)
    requires forall j :: k <= j < i ==> !Hits(routes, url, j, decode)
    ensures FirstPattern(routes, url, k, decode) == Some((routes[i].1, PatternMatch(routes[i].0, url, decode).value))
  {
    var xs := Tries(routes, url, decode);
    forall j | k <= j < i
      ensures xs[j].None?
    {
      TriesHit(routes, url, j, decode);
    }
    TriesHit(routes, url, i, decode);
    FirstSomeAt(xs, i, k);
  }

  /** No dynamic route is found exactly when none matches. */
  lemma FirstPatternNone(routes: Object<string>, url: string, k: nat, decode: string -> string)
    requires k <= |routes|
    ensures FirstPattern(routes, url, k, decode).None? <==> forall j :: k <= j < |routes| ==> !Hits(routes, url, j, decode)
  {
    var xs := Tries(routes, url, decode);
    FirstSomeNone(xs, k);
    forall j | k <= j < |routes|
      ensures xs[j].None? <==> !Hits(routes, url, j, decode)
    {
      TriesHit(routes, url, j, decode);
    }
  }

  /** A dynamic route found is a matching entry with no matching entry before it. */
  lemma FirstPatternFound(routes: Object<string>, url: string, k: nat, decode: string -> string)
    requires k <= |routes| && FirstPattern(routes, url, k, decode).Some?
    ensures exists i :: k <= i < |routes| && Hits(routes, url, i, decode) &&
              (forall j :: k <= j < i ==> !Hits(routes, url, j, decode)) &&
              FirstPattern(routes, url, k, decode) == Some((routes[i].1, PatternMatch(routes[i].0, url, decode).value))
  {
    var xs := Tries(routes, url, decode);
    FirstSomeFound(xs, k);
    var i :| k <= i < |xs| && xs[i].Some? && (forall j :: k <= j < i ==> xs[j].None?) && FirstSome(xs, k) == xs[i];
    TriesHit(routes, url, i, decode);
    forall j | k <= j < i
      ensures !Hits(routes, url, j, decode)
    {
      TriesHit(routes, url, j, decode);
    }
  }

  /** `matchRoute` in full: the exact entry when it is truthy, else the first matching dynamic
      route in entry order, and `null` (`None`) exactly when neither exists. */
  lemma RouteMeaning(routes: Object<string>, urlPath: string, decode: string -> string)
    ensures var n := NormalizeUrlPath(urlPath);
            var exact := Get(routes, n).Some? && Get(routes, n).value != "";
            && (exact ==> RouteFor(routes, urlPath, decode) == Some((Get(routes, n).value, [])))
            && (RouteFor(routes, urlPath, decode).None? <==>
                  !exact && forall j :: 0 <= j < |routes| ==> !Hits(routes, n, j, decode))
            && (!exact && RouteFor(routes, urlPath, decode).Some? ==>
                  exists i :: 0 <= i < |routes| && Hits(routes, n, i, decode) &&
                    (forall j :: 0 <= j < i ==> !Hits(routes, n, j, decode)) &&
                    RouteFor(routes, urlPath, decode) == Some((routes[i].1, PatternMatch(routes[i].0, n, decode).value)))
  {
    var n := NormalizeUrlPath(urlPath);
    FirstPatternNone(routes, n, 0, decode);
    if FirstPattern(routes, n, 0, decode).Some? {
      FirstPatternFound(routes, n, 0, decode);
    }
  }

  /** The param sets `generateBundle` emits a pattern with: one empty set for a static pattern;
      for a dynamic one its `staticParams` list, or `None` (the pattern is skipped) when that
      list is missing or empty. */
  function ParamSets(pattern: string, staticParams: Object<seq<Object<string>>>): (r: Option<seq<Object<string>>>)
    ensures ':' !in pattern ==> r == Some([[]])
    ensures ':' in pattern ==> (r.Some? <==> Has(staticParams, pattern) && Get(staticParams, pattern).value != [])
    ensures ':' in pattern && r.Some? ==> r == Get(staticParams, pattern)
    ensures r.Some? ==> |r.value| > 0
  {
    if ':' !in pattern then Some([[]])
    else
      var sets := if Get(staticParams, pattern).Some? then Get(staticParams, pattern).value else [];
      if |sets| == 0 then None else Some(sets)
  }
}
