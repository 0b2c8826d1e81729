/** The instance the emitted runtime returns: the closure state `currentProps` and
    `rootElement`, with `update`, `render` and `toString`, over a minimal document of numbered
    nodes that have a parent and a list of children. Parsing markup into an element and
    serialising it are one abstract function that gives the first element's markup. */
module Lifecycle {
  import opened Strings
  import opened Objects
  import opened Runtime

  /** The operations attached to every root, `Object.keys(methods)`: `update`, `toString`,
      `render`. */
  function Operations(): (r: set<string>)
    ensures |r| == 3 && "update" in r && "toString" in r && "render" in r
  {
    {"update", "toString", "render"}
  }

  /** `s` without any occurrence of `x`, the rest in order. */
  function Without(s: seq<nat>, x: nat): (r: seq<nat>)
    ensures forall y :: y in r <==> y in s && y != x
    ensures |r| <= |s|
  {
    if |s| == 0 then [] else (if s[0] == x then [] else [s[0]]) + Without(s[1..], x)
  }

  /** `s` with every `x` replaced by `y`, in place. */
  function Swapped(s: seq<nat>, x: nat, y: nat): (r: seq<nat>)
    ensures |r| == |s|
    ensures forall i :: 0 <= i < |s| ==> r[i] == if s[i] == x then y else s[i]
  {
    if |s| == 0 then [] else [if s[0] == x then y else s[0]] + Swapped(s[1..], x, y)
  }

  /** After the swap, `x` is gone and `y` is there when `x` was. */
  lemma SwappedMembers(s: seq<nat>, x: nat, y: nat)
    requires x != y
    ensures x !in Swapped(s, x, y)
    ensures x in s ==> y in Swapped(s, x, y)
    ensures forall z :: z in Swapped(s, x, y) ==> z == y || z in s
  {
    var r := Swapped(s, x, y);
    if x in s {
      var i :| 0 <= i < |s| && s[i] == x;
      assert r[i] == y;
    }
    forall z | z in r
      ensures z == y || z in s
    {
      var i :| 0 <= i < |r| && r[i] == z;
      assert s[i] == x || s[i] == z;
    }
  }

  /** Parent links and child lists agree: a node with a parent is among its children, and
      every child has that parent. */
  ghost predicate Linked(parent: map<nat, nat>, children: map<nat, seq<nat>>) {
    && (forall n :: n in parent ==> parent[n] in children && n in children[parent[n]])
    && (forall p, c :: p in children && c in children[p] ==> c in parent && parent[c] == p)
  }

  /** The child lists after `n` leaves its parent. */
  function DetachedFrom(parent: map<nat, nat>, children: map<nat, seq<nat>>, n: nat): map<nat, seq<nat>>
    requires n in parent ==> parent[n] in children
  {
    if n in parent then children[parent[n] := Without(children[parent[n]], n)] else children
  }

  lemma LinkedDetach(parent: map<nat, nat>, children: map<nat, seq<nat>>, n: nat)
    requires Linked(parent, children)
    ensures Linked(parent - {n}, DetachedFrom(parent, children, n))
  {
    var ch := DetachedFrom(parent, children, n);
    if n in parent {
      var q := parent[n];
      forall p, c | p in ch && c in ch[p]
        ensures c in parent - {n} && parent[c] == p
      {
        if p != q {
          assert c in children[p];
        }
      }
    }
  }

  lemma LinkedAppend(parent: map<nat, nat>, children: map<nat, seq<nat>>, t: nat, n: nat, cs: seq<nat>)
    requires Linked(parent, children) && n !in parent
    requires forall c :: c in cs ==> c == n || (c in parent && parent[c] == t)
    requires n in cs && (t in children ==> forall c :: c in children[t] ==> c in cs)
    ensures Linked(parent[n := t], children[t := cs])
  {
  }

  lemma LinkedReplace(parent: map<nat, nat>, children: map<nat, seq<nat>>, p: nat, nw: nat, od: nat)
    requires Linked(parent, children) && nw !in parent && od in parent && parent[od] == p && nw != od
    ensures Linked((parent - {od})[nw := p], children[p := Swapped(children[p], od, nw)])
  {
    SwappedMembers(children[p], od, nw);
    var cs := Swapped(children[p], od, nw);
    forall m | m in parent && m != od
      ensures parent[m] == p ==> m in cs
    {
      if parent[m] == p {
        var i :| 0 <= i < |children[p]| && children[p][i] == m;
        assert cs[i] == m;
      }
    }
  }

  /** The document: `parent` is `parentElement`, `children` the child lists, `markup` what
      `outerHTML` serialises a node to, `ops` the names of the properties attached to a node;
      the nodes that exist are those below `next`. */
  datatype Doc = Doc(parent: map<nat, nat>, children: map<nat, seq<nat>>, markup: map<nat, string>,
                     ops: map<nat, set<string>>, next: nat)

  /** Parent links and child lists agree, and every node mentioned exists. */
  ghost predicate Good(d: Doc) {
    && Linked(d.parent, d.children)
    && (forall n :: n in d.parent ==> n < d.next)
    && (forall p :: p in d.children ==> p < d.next)
    && (forall n :: n in d.markup ==> n < d.next)
    && (forall n :: n in d.ops ==> n < d.next)
  }

  /** `n` can serve as a root: it exists, has been serialised and carries the operations. */
  ghost predicate RootOk(d: Doc, n: nat) {
    Good(d) && n < d.next && n in d.markup && Operations() <= OpsIn(d, n)
  }

  /** `p.children`, empty when `p` has none. */
  function ChildrenIn(d: Doc, p: nat): seq<nat> {
    if p in d.children then d.children[p] else []
  }

  /** The operations attached to `n`. */
  function OpsIn(d: Doc, n: nat): set<string> {
    if n in d.ops then d.ops[n] else {}
  }

  /** The document after `n` leaves its parent, as every insertion does first. */
  function Detached(d: Doc, n: nat): (r: Doc)
    requires Good(d)
    ensures Good(r)
    ensures r.parent == d.parent - {n} && r.markup == d.markup && r.ops == d.ops && r.next == d.next
    ensures forall q :: (n in d.parent ==> q != d.parent[n]) ==> ChildrenIn(r, q) == ChildrenIn(d, q)
    ensures n in d.parent ==> ChildrenIn(r, d.parent[n]) == Without(ChildrenIn(d, d.parent[n]), n)
  {
    LinkedDetach(d.parent, d.children, n);
    d.(parent := d.parent - {n}, children := DetachedFrom(d.parent, d.children, n))
  }

  /** `t.appendChild(n)`: `n` leaves its parent and becomes the last child of `t`. */
  function Appended(d: Doc, t: nat, n: nat): (r: Doc)
    requires Good(d) && t < d.next && n < d.next && t != n
    ensures Good(r)
    ensures r.parent == (d.parent - {n})[n := t] && r.markup == d.markup && r.ops == d.ops && r.next == d.next
    ensures ChildrenIn(r, t) == Without(ChildrenIn(d, t), n) + [n]
  {
    var e := Detached(d, n);
    var cs := Without(ChildrenIn(d, t), n) + [n];
    LinkedAppend(e.parent, e.children, t, n, cs);
    e.(parent := e.parent[n := t], children := e.children[t := cs])
  }

  /** The node `k` steps up the `parentElement` chain from `t`, when the chain is that long. */
  function AncestorAt(d: Doc, t: nat, k: nat): Option<nat>
    decreases k
  {
    if k == 0 then Some(t) else if t in d.parent then AncestorAt(d, d.parent[t], k - 1) else None
  }

  /** Whether `n` is `t` or one of its ancestors at most `fuel` steps up: the test that makes
      `t.appendChild(n)` throw, since a node cannot be put inside itself. */
  function Within(d: Doc, t: nat, n: nat, fuel: nat): (r: bool)
    ensures t == n ==> r
    ensures r && t != n ==> fuel > 0 && t in d.parent
    decreases fuel
  {
    t == n || (fuel > 0 && t in d.parent && Within(d, d.parent[t], n, fuel - 1))
  }

  /** `Within` holds exactly when `n` appears on the first `fuel` steps of the chain above `t`. */
  lemma {:induction false} WithinAncestor(d: Doc, t: nat, n: nat, fuel: nat)
    ensures Within(d, t, n, fuel) <==> exists k :: 0 <= k <= fuel && AncestorAt(d, t, k) == Some(n)
    decreases fuel
  {
    if t == n {
      assert AncestorAt(d, t, 0) == Some(n);
    } else if fuel == 0 || t !in d.parent {
      forall k | 0 <= k <= fuel
        ensures AncestorAt(d, t, k) != Some(n)
      {
      }
    } else {
      var u := d.parent[t];
      WithinAncestor(d, u, n, fuel - 1);
      if Within(d, t, n, fuel) {
        var k :| 0 <= k <= fuel - 1 && AncestorAt(d, u, k) == Some(n);
        assert AncestorAt(d, t, k + 1) == Some(n);
        assert exists k' :: 0 <= k' <= fuel && AncestorAt(d, t, k') == Some(n);
      }
      if exists k :: 0 <= k <= fuel && AncestorAt(d, t, k) == Some(n) {
        var k :| 0 <= k <= fuel && AncestorAt(d, t, k) == Some(n);
        assert k > 0 && AncestorAt(d, u, k - 1) == Some(n);
        assert exists i :: 0 <= i <= fuel - 1 && AncestorAt(d, u, i) == Some(n);
      }
    }
  }

  /** `p.replaceChild(nw, od)` for a child `od` of `p`: `nw` leaves its parent and takes the
      place of `od` among the children of `p`; `od` is left without a parent. */
  function Replaced(d: Doc, p: nat, nw: nat, od: nat): (r: Doc)
    requires Good(d) && od in d.parent && d.parent[od] == p && nw < d.next && nw != od
    requires nw in d.parent ==> d.parent[nw] != p
    ensures Good(r)
    ensures r.parent == (d.parent - {nw} - {od})[nw := p] && r.markup == d.markup && r.ops == d.ops && r.next == d.next
    ensures ChildrenIn(r, p) == Swapped(ChildrenIn(d, p), od, nw)
    ensures od in ChildrenIn(d, p) && nw in ChildrenIn(r, p) && od !in ChildrenIn(r, p)
    ensures nw in d.parent ==> ChildrenIn(r, d.parent[nw]) == Without(ChildrenIn(d, d.parent[nw]), nw)
    ensures forall q :: q != p && (nw !in d.parent || q != d.parent[nw]) ==> ChildrenIn(r, q) == ChildrenIn(d, q)
  {
    var e := Detached(d, nw);
    assert e.parent[od] == p && ChildrenIn(e, p) == ChildrenIn(d, p);
    SwappedIn(e, p, nw, od)
  }

  /** The second half of `replaceChild`, once `nw` has no parent: `nw` takes the place of `od`
      among the children of `p`, and no other child list changes. */
  function SwappedIn(e: Doc, p: nat, nw: nat, od: nat): (r: Doc)
    requires Good(e) && od in e.parent && e.parent[od] == p && nw < e.next && nw != od && nw !in e.parent
    ensures Good(r)
    ensures r.parent == (e.parent - {od})[nw := p] && r.markup == e.markup && r.ops == e.ops && r.next == e.next
    ensures ChildrenIn(r, p) == Swapped(ChildrenIn(e, p), od, nw)
    ensures od in ChildrenIn(e, p) && nw in ChildrenIn(r, p) && od !in ChildrenIn(r, p)
    ensures forall q :: q != p ==> ChildrenIn(r, q) == ChildrenIn(e, q)
  {
    LinkedReplace(e.parent, e.children, p, nw, od);
    SwappedMembers(e.children[p], od, nw);
    e.(parent := (e.parent - {od})[nw := p], children := e.children[p := Swapped(e.children[p], od, nw)])
  }

  /** `renderElement(html)`: a new container (`document.createElement('div')`) whose content is
      `html.trim()`, and, when the markup holds an element, its first element child. */
  function Rendered(d: Doc, html: string, parse: string -> Option<string>): (r: Doc)
    requires Good(d)
    ensures Good(r) && r.next == d.next + 2 && r.ops == d.ops
    ensures parse(Trim(html)).Some? ==> r.parent == d.parent[d.next + 1 := d.next] &&
                                        r.markup == d.markup[d.next + 1 := parse(Trim(html)).value] &&
                                        ChildrenIn(r, d.next) == [d.next + 1]
    ensures parse(Trim(html)).None? ==> r.parent == d.parent && r.markup == d.markup && ChildrenIn(r, d.next) == []
    ensures forall q :: q != d.next ==> ChildrenIn(r, q) == ChildrenIn(d, q)
  {
    match parse(Trim(html))
    case None => d.(children := d.children[d.next := []], next := d.next + 2)
    case Some(m) =>
      LinkedAppend(d.parent, d.children, d.next, d.next + 1, [d.next + 1]);
      d.(parent := d.parent[d.next + 1 := d.next], children := d.children[d.next := [d.next + 1]],
         markup := d.markup[d.next + 1 := m], next := d.next + 2)
  }

  /** The operations attached to `n`. */
  function WithOps(d: Doc, n: nat): (r: Doc)
    requires Good(d) && n < d.next
    ensures Good(r) && r.parent == d.parent && r.children == d.children && r.markup == d.markup && r.next == d.next
    ensures OpsIn(r, n) == OpsIn(d, n) + Operations()
  {
    d.(ops := d.ops[n := OpsIn(d, n) + Operations()])
  }

  /** The document after `update` has rebuilt the root that was `od` from `html`: a new
      container, and when the markup holds an element, that element as the new root with the
      operations attached, in the place of `od` when `od` has a parent. */
  function Rebuilt(d: Doc, od: nat, html: string, parse: string -> Option<string>): (r: Doc)
    requires Good(d) && od < d.next
    ensures Good(r) && r.next == d.next + 2
    ensures parse(Trim(html)).None? ==> r == Rendered(d, html, parse)
    ensures parse(Trim(html)).Some? ==> d.next + 1 in r.markup && r.markup[d.next + 1] == parse(Trim(html)).value
    ensures parse(Trim(html)).Some? ==> Operations() <= OpsIn(r, d.next + 1)
    ensures parse(Trim(html)).Some? && od in d.parent ==>
              r.parent == (d.parent[d.next + 1 := d.next] - {d.next + 1} - {od})[d.next + 1 := d.parent[od]] &&
              ChildrenIn(r, d.parent[od]) == Swapped(ChildrenIn(d, d.parent[od]), od, d.next + 1)
    ensures parse(Trim(html)).Some? && od !in d.parent ==> r.parent == d.parent[d.next + 1 := d.next]
  {
    var e := Rendered(d, html, parse);
    if parse(Trim(html)).None? then e
    else
      var n := d.next + 1;
      var f := WithOps(e, n);
      if od in d.parent then
        assert od in f.parent && f.parent[od] == d.parent[od];
        assert ChildrenIn(f, d.parent[od]) == ChildrenIn(d, d.parent[od]);
        Replaced(f, d.parent[od], n, od)
      else f
  }

  /** The steps of `Rebuilt` one by one, with what each asks of the document before it. */
  lemma RebuiltSteps(d: Doc, od: nat, html: string, parse: string -> Option<string>)
    requires Good(d) && od < d.next
    ensures parse(Trim(html)).None? ==> Rebuilt(d, od, html, parse) == Rendered(d, html, parse)
    ensures parse(Trim(html)).Some? ==>
              var f := WithOps(Rendered(d, html, parse), d.next + 1);
              && (od in f.parent <==> od in d.parent)
              && (od !in d.parent ==> Rebuilt(d, od, html, parse) == f)
              && (od in d.parent ==> f.parent[od] == d.parent[od] && d.next + 1 != od &&
                                     d.next + 1 in f.parent && f.parent[d.next + 1] != d.parent[od] &&
                                     Rebuilt(d, od, html, parse) == Replaced(f, d.parent[od], d.next + 1, od))
  {
  }

  /** The root `update` leaves in place can serve as a root. */
  lemma RebuiltRoot(d: Doc, od: nat, html: string, parse: string -> Option<string>)
    requires RootOk(d, od)
    ensures RootOk(Rebuilt(d, od, html, parse), if parse(Trim(html)).Some? then d.next + 1 else od)
  {
  }

  /** The document all instances share. */
  class Dom {
    var doc: Doc

    ghost predicate Valid()
      reads this
    {
      Good(doc)
    }

    constructor (d: Doc)
      requires Good(d)
      ensures Valid() && doc == d
    {
      doc := d;
    }

    method AppendChild(t: nat, n: nat)
      requires Valid() && t < doc.next && n < doc.next && t != n
      modifies this
      ensures Valid() && doc == Appended(old(doc), t, n)
    {
      doc := Appended(doc, t, n);
    }

    method ReplaceChild(p: nat, nw: nat, od: nat)
      requires Valid() && od in doc.parent && doc.parent[od] == p && nw < doc.next && nw != od
      requires nw in doc.parent ==> doc.parent[nw] != p
      modifies this
      ensures Valid() && doc == Replaced(old(doc), p, nw, od)
    {
      doc := Replaced(doc, p, nw, od);
    }

    /** `renderElement`: the new root, when the markup holds an element. */
    method RenderElement(html: string, parse: string -> Option<string>) returns (r: Option<nat>)
      requires Valid()
      modifies this
      ensures Valid() && doc == Rendered(old(doc), html, parse)
      ensures r == if parse(Trim(html)).Some? then Some(old(doc.next) + 1) else None
    {
      r := if parse(Trim(html)).Some? then Some(doc.next + 1) else None;
      doc := Rendered(doc, html, parse);
    }

    /** `Object.keys(methods).forEach(key => n[key] = methods[key])`. */
    method AttachOperations(n: nat)
      requires Valid() && n < doc.next
      modifies this
      ensures Valid() && doc == WithOps(old(doc), n)
    {
      var keys := ["update", "toString", "render"];
      var attached := OpsIn(doc, n);
      for i := 0 to |keys|
        invariant forall k :: k in attached <==> k in OpsIn(doc, n) || k in keys[..i]
      {
        assert keys[..i + 1] == keys[..i] + [keys[i]];
        attached := attached + {keys[i]};
      }
      assert keys[..3] == keys;
      assert attached == OpsIn(doc, n) + Operations();
      doc := doc.(ops := doc.ops[n := attached]);
    }

    /** The DOM work of `update`: render `html`, attach the operations to the new element and
        put it in the place of `od` when `od` has a parent. */
    method RebuildRoot(od: nat, html: string, parse: string -> Option<string>) returns (r: Option<nat>)
      requires Valid() && od < doc.next
      modifies this
      ensures doc == Rebuilt(old(doc), od, html, parse)
      ensures r == if parse(Trim(html)).Some? then Some(old(doc.next) + 1) else None
    {
      ghost var d := doc;
      RebuiltSteps(d, od, html, parse);
      r := RenderElement(html, parse);
      if r.Some? {
        var n := r.value;
        AttachOperations(n);
        if od in doc.parent {
          ReplaceChild(doc.parent[od], n, od);
        }
      }
    }
  }

  /** One instance of the emitted function: the template, the abstract parser, the current
      props and the current root. */
  class Component {
    const dom: Dom
    const source: string
    const parse: string -> Option<string>
    var props: Object<Value>
    var root: nat

    /** The root exists, carries the operations and has been serialised. */
    ghost predicate Valid()
      reads this, dom
    {
      RootOk(dom.doc, root)
    }

    /** `toString()`: `rootElement.outerHTML`. */
    function ToString(): (r: string)
      reads this, dom
      requires Valid()
      ensures r in dom.doc.markup.Values
    {
      dom.doc.markup[root]
    }

    constructor (dom: Dom, source: string, parse: string -> Option<string>, props: Object<Value>, root: nat)
      ensures this.dom == dom && this.source == source && this.parse == parse
      ensures this.props == props && this.root == root
    {
      this.dom, this.source, this.parse, this.props, this.root := dom, source, parse, props, root;
    }

    /** The emitted function called with `initialProps`: the root built from them, with the
        operations attached, or a failure (a `TypeError`) when the markup holds no element. */
    static method Mount(dom: Dom, source: string, parse: string -> Option<string>, initial: Object<Value>)
      returns (c: Component?)
      requires dom.Valid()
      modifies dom
      ensures dom.Valid()
      ensures c == null <==> parse(Trim(Html(source, initial))).None?
      ensures c == null ==> dom.doc == Rendered(old(dom.doc), Html(source, initial), parse)
      ensures c != null ==> fresh(c) && c.dom == dom && c.source == source && c.parse == parse && c.Valid()
      ensures c != null ==> c.props == initial && c.root == old(dom.doc.next) + 1
      ensures c != null ==> dom.doc == WithOps(Rendered(old(dom.doc), Html(source, initial), parse), c.root)
      ensures c != null ==> c.ToString() == parse(Trim(Html(source, initial))).value
    {
      var html := CreateHtml(source, initial);
      var e := dom.RenderElement(html, parse);
      match e
      case None =>
        c := null;
      case Some(n) =>
        dom.AttachOperations(n);
        c := new Component(dom, source, parse, initial, n);
    }

    /** `update(newProps)`: the props are merged, new keys winning; a new root is built from
        them and carries the operations; when the old root has a parent the new root takes its
        place there. The new root is stored and returned. Building fails (a `TypeError`) when the
        markup holds no element: the props are merged and the root stays. */
    method Update(newProps: Object<Value>) returns (r: Option<nat>)
      requires Valid()
      modifies this, dom
      ensures Valid()
      ensures props == Spread(old(props), newProps)
      ensures r.Some? <==> parse(Trim(Html(source, props))).Some?
      ensures dom.doc == Rebuilt(old(dom.doc), old(root), Html(source, props), parse)
      ensures r.None? ==> root == old(root)
      ensures r.Some? ==> r.value == root == old(dom.doc.next) + 1 && ToString() == parse(Trim(Html(source, props))).value
    {
      props := Spread(props, newProps);
      var html := CreateHtml(source, props);
      r := Rebuild(html);
    }

    /** The part of `update` after the merge: build a root from `html`, attach the operations,
        put it in the old root's place when that has a parent, and store it. */
    method Rebuild(html: string) returns (r: Option<nat>)
      requires Valid()
      modifies this, dom
      ensures Valid() && props == old(props)
      ensures dom.doc == Rebuilt(old(dom.doc), old(root), html, parse)
      ensures r.Some? <==> parse(Trim(html)).Some?
      ensures r.None? ==> root == old(root)
      ensures r.Some? ==> r.value == root == old(dom.doc.next) + 1 && ToString() == parse(Trim(html)).value
    {
      ghost var d := dom.doc;
      r := dom.RebuildRoot(root, html, parse);
      RebuiltRoot(d, root, html, parse);
      if r.Some? {
        root := r.value;
      }
    }

    /** `render(target)`: when the target is a node the root is appended to it; the root is
        returned, never rebuilt. Appending the root to itself or to a node inside it throws.
        Every node is below `next`, so `next` steps cover any chain of distinct ancestors. */
    method Render(target: Option<nat>) returns (r: Option<nat>)
      requires Valid() && (target.Some? ==> target.value < dom.doc.next)
      modifies dom
      ensures Valid()
      ensures r == if target.Some? && Within(old(dom.doc), target.value, root, old(dom.doc.next)) then None else Some(root)
      ensures dom.doc == if target.Some? && !Within(old(dom.doc), target.value, root, old(dom.doc.next))
                         then Appended(old(dom.doc), target.value, root) else old(dom.doc)
    {
      match target
      case None =>
        r := Some(root);
      case Some(t) =>
        if Within(dom.doc, t, root, dom.doc.next) {
          r := None;
        } else {
          dom.AppendChild(t, root);
          r := Some(root);
        }
    }
  }
}
