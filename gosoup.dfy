/**
 * The HTML selector utility (gosoup/gosoup.go) over an already parsed
 * document tree. A node is a value: its type, its tag name (`Data` in Go's
 * html package), its attributes in document order and its children in
 * document order.
 */
module GoSoup {
  import opened Text

  datatype NodeType = ErrorNode | TextNode | DocumentNode | ElementNode | CommentNode | DoctypeNode | RawNode

  datatype Attribute = Attribute(key: string, val: string)

  datatype Node = Node(kind: NodeType, data: string, attrs: seq<Attribute>, children: seq<Node>)

  /** `classNames` is looked for as a substring of a `class` attribute; `id` must equal an `id` attribute. */
  datatype HtmlSelector = HtmlSelector(classNames: string, id: string, tag: string, multiple: bool)

  /** One step of the attribute loop in isNodeMatchingSelector (the `switch attr.Key`). */
  predicate AttributeMatches(a: Attribute, selector: HtmlSelector) {
    (a.key == "id" && a.val == selector.id)
    || (a.key == "class" && Contains(a.val, selector.classNames))
  }

  /** The attribute loop of isNodeMatchingSelector: true as soon as one attribute matches. */
  function AnyAttributeMatches(attrs: seq<Attribute>, selector: HtmlSelector): (r: bool)
    ensures r <==> exists k :: 0 <= k < |attrs| && AttributeMatches(attrs[k], selector)
  {
    if attrs == [] then false
    else if AttributeMatches(attrs[0], selector) then true
    else
      var r := AnyAttributeMatches(attrs[1..], selector);
      assert forall k :: 1 <= k < |attrs| ==> attrs[k] == attrs[1..][k - 1];
      r
  }

  /**
   * isNodeMatchingSelector: an element node whose tag passes the
   * selector's tag filter and that has an `id` attribute equal to the
   * selector's id or a `class` attribute containing its class names.
   */
  function IsNodeMatchingSelector(node: Node, selector: HtmlSelector): (r: bool)
    ensures r <==>
      && node.kind == ElementNode
      && (selector.tag == "" || node.data == selector.tag)
      && exists k :: 0 <= k < |node.attrs| &&
           ((node.attrs[k].key == "id" && node.attrs[k].val == selector.id)
            || (node.attrs[k].key == "class" && IsSubstring(selector.classNames, node.attrs[k].val)))
  {
    node.kind == ElementNode
    && (selector.tag == "" || node.data == selector.tag)
    && AnyAttributeMatches(node.attrs, selector)
  }

  /** An empty ClassNames matches every element (passing the tag filter) that has a class attribute. */
  lemma EmptyClassNamesMatchAnyClass(node: Node, selector: HtmlSelector, k: nat)
    requires selector.classNames == ""
    requires node.kind == ElementNode && (selector.tag == "" || node.data == selector.tag)
    requires k < |node.attrs| && node.attrs[k].key == "class"
    ensures IsNodeMatchingSelector(node, selector)
  {
    assert OccursAt("", node.attrs[k].val, 0);
  }

  /** Position `k` holds the first attribute of `attrs` whose key is `key`. */
  predicate IsFirstWithKey(attrs: seq<Attribute>, key: string, k: int) {
    0 <= k < |attrs| && attrs[k].key == key && forall j :: 0 <= j < k ==> attrs[j].key != key
  }

  /** The value of the first attribute with key `key`, if any. */
  function FirstValue(attrs: seq<Attribute>, key: string): (r: string)
    ensures (forall k :: 0 <= k < |attrs| ==> attrs[k].key != key) ==> r == ""
    ensures forall k :: IsFirstWithKey(attrs, key, k) ==> r == attrs[k].val
  {
    if attrs == [] then ""
    else if attrs[0].key == key then
      assert forall k :: IsFirstWithKey(attrs, key, k) ==> k == 0;
      attrs[0].val
    else
      var r := FirstValue(attrs[1..], key);
      assert forall k :: IsFirstWithKey(attrs, key, k) ==> IsFirstWithKey(attrs[1..], key, k - 1);
      r
  }

  /** GetAttribute: the value of the node's first attribute named `attribute`, or "" if it has none. */
  function GetAttribute(node: Node, attribute: string): (r: string)
    ensures (forall k :: 0 <= k < |node.attrs| ==> node.attrs[k].key != attribute) ==> r == ""
    ensures forall k :: IsFirstWithKey(node.attrs, attribute, k) ==> r == node.attrs[k].val
  {
    FirstValue(node.attrs, attribute)
  }

  // ---------------------------------------------------------------------------
  // The search of GetNodeByClass, as functions on the tree.

  /** What the crawler appends when it is called on `node`: a matching node comes before anything below it. */
  function Collect(node: Node, selector: HtmlSelector): (r: seq<Node>)
    ensures IsNodeMatchingSelector(node, selector) ==> |r| >= 1 && r[0] == node
    decreases node
  {
    if IsNodeMatchingSelector(node, selector) then
      if selector.multiple then [node] + CollectList(node.children, selector) else [node]
    else CollectList(node.children, selector)
  }

  /** What the crawler appends when it is called on each of `nodes` in turn. */
  function CollectList(nodes: seq<Node>, selector: HtmlSelector): seq<Node>
    decreases nodes
  {
    if nodes == [] then [] else Collect(nodes[0], selector) + CollectList(nodes[1..], selector)
  }

  /** Every node of the tree, in document pre-order. */
  function PreOrder(node: Node): seq<Node>
    decreases node
  {
    [node] + PreOrderList(node.children)
  }

  function PreOrderList(nodes: seq<Node>): seq<Node>
    decreases nodes
  {
    if nodes == [] then [] else PreOrder(nodes[0]) + PreOrderList(nodes[1..])
  }

  /** The nodes of `nodes` that match, in order. */
  function Matching(nodes: seq<Node>, selector: HtmlSelector): seq<Node>
  {
    if nodes == [] then []
    else (if IsNodeMatchingSelector(nodes[0], selector) then [nodes[0]] else [])
         + Matching(nodes[1..], selector)
  }

  lemma {:induction false} MatchingConcat(a: seq<Node>, b: seq<Node>, selector: HtmlSelector)
    ensures Matching(a + b, selector) == Matching(a, selector) + Matching(b, selector)
  {
    if a == [] {
      assert a + b == b;
    } else {
      MatchingConcat(a[1..], b, selector);
      assert (a + b)[1..] == a[1..] + b;
    }
  }

  lemma {:induction false} CollectListAppend(nodes: seq<Node>, n: Node, selector: HtmlSelector)
    ensures CollectList(nodes + [n], selector) == CollectList(nodes, selector) + Collect(n, selector)
  {
    if nodes == [] {
      assert CollectList([n], selector) == Collect(n, selector) + CollectList([], selector);
    } else {
      CollectListAppend(nodes[1..], n, selector);
      assert (nodes + [n])[1..] == nodes[1..] + [n];
    }
  }

  /** With Multiple set, the search returns exactly the matching nodes in document pre-order. */
  lemma {:induction false} CollectAllIsMatchingPreOrder(node: Node, selector: HtmlSelector)
    requires selector.multiple
    ensures Collect(node, selector) == Matching(PreOrder(node), selector)
    decreases node
  {
    CollectListAllIsMatchingPreOrder(node.children, selector);
    MatchingConcat([node], PreOrderList(node.children), selector);
  }

  lemma {:induction false} CollectListAllIsMatchingPreOrder(nodes: seq<Node>, selector: HtmlSelector)
    requires selector.multiple
    ensures CollectList(nodes, selector) == Matching(PreOrderList(nodes), selector)
    decreases nodes
  {
    if nodes != [] {
      CollectAllIsMatchingPreOrder(nodes[0], selector);
      CollectListAllIsMatchingPreOrder(nodes[1..], selector);
      MatchingConcat(PreOrder(nodes[0]), PreOrderList(nodes[1..]), selector);
    }
  }

  /** Every node the search returns satisfies the selector, in either mode. */
  lemma {:induction false} CollectOnlyMatches(node: Node, selector: HtmlSelector)
    ensures forall k :: 0 <= k < |Collect(node, selector)| ==>
      IsNodeMatchingSelector(Collect(node, selector)[k], selector)
    decreases node
  {
    CollectListOnlyMatches(node.children, selector);
  }

  lemma {:induction false} CollectListOnlyMatches(nodes: seq<Node>, selector: HtmlSelector)
    ensures forall k :: 0 <= k < |CollectList(nodes, selector)| ==>
      IsNodeMatchingSelector(CollectList(nodes, selector)[k], selector)
    decreases nodes
  {
    if nodes != [] {
      CollectOnlyMatches(nodes[0], selector);
      CollectListOnlyMatches(nodes[1..], selector);
    }
  }

  /** Without Multiple, a matching node is returned alone: its children are not searched. */
  lemma FirstModeStopsAtMatch(node: Node, selector: HtmlSelector)
    requires !selector.multiple && IsNodeMatchingSelector(node, selector)
    ensures Collect(node, selector) == [node]
  {
  }

  // ---------------------------------------------------------------------------
  // The first-match result is an order-preserving subsequence of the all-match result.

  /** `a` can be obtained from `b` by deleting elements. */
  predicate IsSubsequence<T(==)>(a: seq<T>, b: seq<T>)
    decreases |b|
  {
    a == [] || (b != [] && ((a[0] == b[0] && IsSubsequence(a[1..], b[1..])) || IsSubsequence(a, b[1..])))
  }

  lemma {:induction false} SubsequenceOfSelf<T>(a: seq<T>)
    ensures IsSubsequence(a, a)
    decreases |a|
  {
    if a != [] {
      SubsequenceOfSelf(a[1..]);
    }
  }

  lemma {:induction false} SubsequenceConcat<T>(a1: seq<T>, b1: seq<T>, a2: seq<T>, b2: seq<T>)
    requires IsSubsequence(a1, b1) && IsSubsequence(a2, b2)
    ensures IsSubsequence(a1 + a2, b1 + b2)
    decreases |b1|
  {
    if b1 == [] {
      assert a1 == [];
      assert a1 + a2 == a2 && b1 + b2 == b2;
    } else if a1 != [] && a1[0] == b1[0] && IsSubsequence(a1[1..], b1[1..]) {
      SubsequenceConcat(a1[1..], b1[1..], a2, b2);
      assert (a1 + a2)[1..] == a1[1..] + a2;
      assert (b1 + b2)[1..] == b1[1..] + b2;
    } else if a1 == [] {
      SubsequenceConcat(a1, b1[1..], a2, b2);
      assert (b1 + b2)[1..] == b1[1..] + b2;
      assert a1 + a2 == a2;
      if a2 != [] {
        assert IsSubsequence(a2, b1[1..] + b2);
      }
    } else {
      SubsequenceConcat(a1, b1[1..], a2, b2);
      assert (b1 + b2)[1..] == b1[1..] + b2;
    }
  }

  lemma {:induction false} EmptyIsSubsequence<T>(b: seq<T>)
    ensures IsSubsequence([], b)
  {
  }

  /** Which nodes match does not depend on the Multiple flag. */
  lemma MatchIgnoresMultiple(node: Node, selector: HtmlSelector, multiple: bool)
    ensures IsNodeMatchingSelector(node, selector.(multiple := multiple)) == IsNodeMatchingSelector(node, selector)
  {
  }

  /** The Multiple=false result is an order-preserving subsequence of the Multiple=true result. */
  lemma {:induction false} FirstModeIsSubsequence(node: Node, selector: HtmlSelector)
    requires !selector.multiple
    ensures IsSubsequence(Collect(node, selector), Collect(node, selector.(multiple := true)))
    decreases node
  {
    var all := selector.(multiple := true);
    MatchIgnoresMultiple(node, selector, true);
    CollectListFirstModeIsSubsequence(node.children, selector);
    if IsNodeMatchingSelector(node, selector) {
      EmptyIsSubsequence(CollectList(node.children, all));
      SubsequenceConcat([node], [node], [], CollectList(node.children, all));
      assert [node] + [] == [node];
    }
  }

  lemma {:induction false} CollectListFirstModeIsSubsequence(nodes: seq<Node>, selector: HtmlSelector)
    requires !selector.multiple
    ensures IsSubsequence(CollectList(nodes, selector), CollectList(nodes, selector.(multiple := true)))
    decreases nodes
  {
    if nodes != [] {
      FirstModeIsSubsequence(nodes[0], selector);
      CollectListFirstModeIsSubsequence(nodes[1..], selector);
      SubsequenceConcat(Collect(nodes[0], selector), Collect(nodes[0], selector.(multiple := true)),
                        CollectList(nodes[1..], selector), CollectList(nodes[1..], selector.(multiple := true)));
    }
  }

  // ---------------------------------------------------------------------------
  // Positions: without Multiple, no returned node lies inside another returned node's subtree.

  /** A position in a tree: the child indices to follow from the root. */
  type Path = seq<nat>

  predicate ValidPath(node: Node, p: Path)
    decreases p
  {
    p == [] || (p[0] < |node.children| && ValidPath(node.children[p[0]], p[1..]))
  }

  /** The node at position `p`. */
  function At(node: Node, p: Path): Node
    requires ValidPath(node, p)
    decreases p
  {
    if p == [] then node else At(node.children[p[0]], p[1..])
  }

  /** `p` is `q` or an ancestor position of `q`. */
  predicate IsPrefix(p: Path, q: Path) {
    |p| <= |q| && q[..|p|] == p
  }

  function Prefixed(i: nat, ps: seq<Path>): (r: seq<Path>)
    ensures |r| == |ps|
    ensures forall k :: 0 <= k < |ps| ==> r[k] == [i] + ps[k]
  {
    seq(|ps|, k requires 0 <= k < |ps| => [i] + ps[k])
  }

  /** The positions, relative to `node`, of the nodes Collect returns. */
  function CollectPaths(node: Node, selector: HtmlSelector): seq<Path>
    decreases node
  {
    if IsNodeMatchingSelector(node, selector) then
      if selector.multiple then [[]] + CollectListPaths(node.children, selector, 0) else [[]]
    else CollectListPaths(node.children, selector, 0)
  }

  /** The positions of the nodes CollectList returns, for `nodes` standing at child index `offset` onwards. */
  function CollectListPaths(nodes: seq<Node>, selector: HtmlSelector, offset: nat): seq<Path>
    decreases nodes
  {
    if nodes == [] then []
    else Prefixed(offset, CollectPaths(nodes[0], selector)) + CollectListPaths(nodes[1..], selector, offset + 1)
  }

  /** CollectPaths gives, element by element, the position of what Collect returns. */
  lemma {:induction false} CollectPathsLocate(node: Node, selector: HtmlSelector)
    ensures |CollectPaths(node, selector)| == |Collect(node, selector)|
    ensures forall k :: 0 <= k < |Collect(node, selector)| ==>
      ValidPath(node, CollectPaths(node, selector)[k]) &&
      At(node, CollectPaths(node, selector)[k]) == Collect(node, selector)[k]
    decreases node, |node.children| + 1
  {
    CollectListPathsLocate(node, 0, selector);
    assert node.children[0..] == node.children;
  }

  /** Each position of `ps` is valid in `parent` and holds the node at the same index of `cs`. */
  ghost predicate Locates(parent: Node, ps: seq<Path>, cs: seq<Node>) {
    |ps| == |cs| && forall k :: 0 <= k < |cs| ==> ValidPath(parent, ps[k]) && At(parent, ps[k]) == cs[k]
  }

  lemma LocatesConcat(parent: Node, ps1: seq<Path>, cs1: seq<Node>, ps2: seq<Path>, cs2: seq<Node>)
    requires Locates(parent, ps1, cs1) && Locates(parent, ps2, cs2)
    ensures Locates(parent, ps1 + ps2, cs1 + cs2)
  {
    forall k | 0 <= k < |cs1 + cs2|
      ensures ValidPath(parent, (ps1 + ps2)[k]) && At(parent, (ps1 + ps2)[k]) == (cs1 + cs2)[k]
    {
      if k >= |cs1| {
        assert (ps1 + ps2)[k] == ps2[k - |ps1|] && (cs1 + cs2)[k] == cs2[k - |cs1|];
      }
    }
  }

  /** Positions inside child `i`, each prefixed by `i`, are positions in the parent. */
  lemma LocatesPrefixed(parent: Node, i: nat, qs: seq<Path>, cs: seq<Node>)
    requires i < |parent.children| && Locates(parent.children[i], qs, cs)
    ensures Locates(parent, Prefixed(i, qs), cs)
  {
    forall k | 0 <= k < |cs|
      ensures ValidPath(parent, Prefixed(i, qs)[k]) && At(parent, Prefixed(i, qs)[k]) == cs[k]
    {
      assert Prefixed(i, qs)[k] == [i] + qs[k];
      assert ([i] + qs[k])[1..] == qs[k];
    }
  }

  lemma {:induction false} CollectListPathsLocate(parent: Node, from: nat, selector: HtmlSelector)
    requires from <= |parent.children|
    ensures |CollectListPaths(parent.children[from..], selector, from)| == |CollectList(parent.children[from..], selector)|
    ensures forall k :: 0 <= k < |CollectList(parent.children[from..], selector)| ==>
      ValidPath(parent, CollectListPaths(parent.children[from..], selector, from)[k]) &&
      At(parent, CollectListPaths(parent.children[from..], selector, from)[k]) ==
        CollectList(parent.children[from..], selector)[k]
    decreases parent, |parent.children| - from
  {
    var nodes := parent.children[from..];
    if nodes != [] {
      var child := nodes[0];
      assert child == parent.children[from];
      assert nodes[1..] == parent.children[from + 1..];
      CollectPathsLocate(child, selector);
      CollectListPathsLocate(parent, from + 1, selector);
      assert Locates(child, CollectPaths(child, selector), Collect(child, selector));
      LocatesPrefixed(parent, from, CollectPaths(child, selector), Collect(child, selector));
      var tail := CollectListPaths(nodes[1..], selector, from + 1);
      assert Locates(parent, tail, CollectList(nodes[1..], selector));
      LocatesConcat(parent, Prefixed(from, CollectPaths(child, selector)), Collect(child, selector),
                    tail, CollectList(nodes[1..], selector));
      assert CollectListPaths(nodes, selector, from) == Prefixed(from, CollectPaths(child, selector)) + tail;
      assert CollectList(nodes, selector) == Collect(child, selector) + CollectList(nodes[1..], selector);
    }
  }

  lemma PrefixUnderSameParent(i: nat, p: Path, q: Path)
    ensures IsPrefix([i] + p, [i] + q) ==> IsPrefix(p, q)
  {
    if IsPrefix([i] + p, [i] + q) {
      assert q[..|p|] == ([i] + q)[1..|p| + 1] == ([i] + p)[1..];
    }
  }

  /** No position in `ps` is an ancestor of, or equal to, another. */
  ghost predicate PrefixFree(ps: seq<Path>) {
    forall i, j :: 0 <= i < |ps| && 0 <= j < |ps| && i != j ==> !IsPrefix(ps[i], ps[j])
  }

  /**
   * Without Multiple, the returned positions are pairwise unrelated: no
   * returned node descends from another returned node (or is it).
   */
  lemma {:induction false} FirstModeNoNesting(node: Node, selector: HtmlSelector)
    requires !selector.multiple
    ensures PrefixFree(CollectPaths(node, selector))
    decreases node
  {
    if !IsNodeMatchingSelector(node, selector) {
      CollectListNoNesting(node.children, selector, 0);
    }
  }

  lemma {:induction false} CollectListNoNesting(nodes: seq<Node>, selector: HtmlSelector, offset: nat)
    requires !selector.multiple
    ensures PrefixFree(CollectListPaths(nodes, selector, offset))
    ensures forall k :: 0 <= k < |CollectListPaths(nodes, selector, offset)| ==>
      |CollectListPaths(nodes, selector, offset)[k]| >= 1 &&
      offset <= CollectListPaths(nodes, selector, offset)[k][0] < offset + |nodes|
    decreases nodes
  {
    if nodes != [] {
      FirstModeNoNesting(nodes[0], selector);
      CollectListNoNesting(nodes[1..], selector, offset + 1);
      var inner := CollectPaths(nodes[0], selector);
      var head := Prefixed(offset, inner);
      var tail := CollectListPaths(nodes[1..], selector, offset + 1);
      var ps := head + tail;
      assert ps == CollectListPaths(nodes, selector, offset);
      forall k | 0 <= k < |ps|
        ensures |ps[k]| >= 1 && offset <= ps[k][0] < offset + |nodes|
      {
        if k >= |head| {
          assert ps[k] == tail[k - |head|];
        }
      }
      forall i, j | 0 <= i < |ps| && 0 <= j < |ps| && i != j
        ensures !IsPrefix(ps[i], ps[j])
      {
        if i < |head| && j < |head| {
          assert ps[i] == [offset] + inner[i] && ps[j] == [offset] + inner[j];
          PrefixUnderSameParent(offset, inner[i], inner[j]);
        } else if i >= |head| && j >= |head| {
          assert ps[i] == tail[i - |head|] && ps[j] == tail[j - |head|];
        } else if i < |head| {
          assert ps[i][0] == offset && ps[j] == tail[j - |head|] && ps[j][0] > offset;
          if |ps[i]| <= |ps[j]| {
            assert ps[j][..|ps[i]|][0] == ps[j][0];
          }
        } else {
          assert ps[j][0] == offset && ps[i] == tail[i - |head|] && ps[i][0] > offset;
          if |ps[i]| <= |ps[j]| {
            assert ps[j][..|ps[i]|][0] == ps[j][0];
          }
        }
      }
    }
  }

  // ---------------------------------------------------------------------------
  // Without Multiple, what is found: every match with no match above it, and
  // first of all the first match in document order.

  /** No node on the way from `node` down to position `p`, the node at `p` excluded, matches. */
  ghost predicate NoMatchAbove(node: Node, p: Path, selector: HtmlSelector)
    decreases p
  {
    p == [] || (!IsNodeMatchingSelector(node, selector) && p[0] < |node.children|
                && NoMatchAbove(node.children[p[0]], p[1..], selector))
  }

  /** A position found under the i-th of `nodes` is listed, under child index `offset + i`. */
  lemma {:induction false} CollectListPathsHas(nodes: seq<Node>, selector: HtmlSelector, offset: nat, i: nat, q: Path)
    requires i < |nodes| && q in CollectPaths(nodes[i], selector)
    ensures [offset + i] + q in CollectListPaths(nodes, selector, offset)
    decreases i
  {
    var head := Prefixed(offset, CollectPaths(nodes[0], selector));
    var tail := CollectListPaths(nodes[1..], selector, offset + 1);
    assert CollectListPaths(nodes, selector, offset) == head + tail;
    if i == 0 {
      var k :| 0 <= k < |CollectPaths(nodes[0], selector)| && CollectPaths(nodes[0], selector)[k] == q;
      assert head[k] == [offset] + q;
    } else {
      assert nodes[1..][i - 1] == nodes[i];
      CollectListPathsHas(nodes[1..], selector, offset + 1, i - 1, q);
    }
  }

  /** Every listed position lies under one of `nodes` and was found there. */
  lemma {:induction false} CollectListPathsFrom(nodes: seq<Node>, selector: HtmlSelector, offset: nat, p: Path)
    requires p in CollectListPaths(nodes, selector, offset)
    ensures |p| >= 1 && offset <= p[0] < offset + |nodes|
    ensures p[1..] in CollectPaths(nodes[p[0] - offset], selector)
    decreases nodes
  {
    var inner := CollectPaths(nodes[0], selector);
    var head := Prefixed(offset, inner);
    var tail := CollectListPaths(nodes[1..], selector, offset + 1);
    assert CollectListPaths(nodes, selector, offset) == head + tail;
    if p in head {
      var k :| 0 <= k < |head| && head[k] == p;
      assert p == [offset] + inner[k];
      assert p[1..] == inner[k];
    } else {
      CollectListPathsFrom(nodes[1..], selector, offset + 1, p);
      assert nodes[1..][p[0] - (offset + 1)] == nodes[p[0] - offset];
    }
  }

  /**
   * Completeness, in either mode: a matching node with no matching node above
   * it is found. Without Multiple this is what searching the siblings and
   * later subtrees after a match gives.
   */
  lemma {:induction false} TopmostMatchesAreFound(node: Node, selector: HtmlSelector, p: Path)
    requires ValidPath(node, p) && NoMatchAbove(node, p, selector)
    requires IsNodeMatchingSelector(At(node, p), selector)
    ensures p in CollectPaths(node, selector)
    decreases p
  {
    if p == [] {
      assert CollectPaths(node, selector)[0] == [];
    } else {
      TopmostMatchesAreFound(node.children[p[0]], selector, p[1..]);
      CollectListPathsHas(node.children, selector, 0, p[0], p[1..]);
      assert [0 + p[0]] + p[1..] == p;
    }
  }

  /** Soundness without Multiple: each returned position holds a match with no match above it. */
  lemma {:induction false} FirstModeFindsOnlyTopmost(node: Node, selector: HtmlSelector, p: Path)
    requires !selector.multiple && p in CollectPaths(node, selector)
    ensures ValidPath(node, p) && NoMatchAbove(node, p, selector)
    ensures IsNodeMatchingSelector(At(node, p), selector)
    decreases node
  {
    if !IsNodeMatchingSelector(node, selector) {
      CollectListPathsFrom(node.children, selector, 0, p);
      FirstModeFindsOnlyTopmost(node.children[p[0]], selector, p[1..]);
    }
  }

  /** Both modes find something on the same trees, and find the same node first. */
  lemma {:induction false} FirstModeSameFirst(node: Node, selector: HtmlSelector)
    requires !selector.multiple
    ensures Collect(node, selector) == [] <==> Collect(node, selector.(multiple := true)) == []
    ensures Collect(node, selector) != [] ==>
      Collect(node, selector)[0] == Collect(node, selector.(multiple := true))[0]
    decreases node
  {
    MatchIgnoresMultiple(node, selector, true);
    if !IsNodeMatchingSelector(node, selector) {
      CollectListSameFirst(node.children, selector);
    }
  }

  lemma {:induction false} CollectListSameFirst(nodes: seq<Node>, selector: HtmlSelector)
    requires !selector.multiple
    ensures CollectList(nodes, selector) == [] <==> CollectList(nodes, selector.(multiple := true)) == []
    ensures CollectList(nodes, selector) != [] ==>
      CollectList(nodes, selector)[0] == CollectList(nodes, selector.(multiple := true))[0]
    decreases nodes
  {
    if nodes != [] {
      FirstModeSameFirst(nodes[0], selector);
      CollectListSameFirst(nodes[1..], selector);
    }
  }

  lemma {:induction false} MatchingIgnoresMultiple(nodes: seq<Node>, selector: HtmlSelector, multiple: bool)
    ensures Matching(nodes, selector.(multiple := multiple)) == Matching(nodes, selector)
  {
    if nodes != [] {
      MatchIgnoresMultiple(nodes[0], selector, multiple);
      MatchingIgnoresMultiple(nodes[1..], selector, multiple);
    }
  }

  /**
   * Without Multiple, the search comes back empty exactly when no node of the
   * tree matches, and otherwise returns first the first match in document order.
   */
  lemma FirstModeFindsFirstInDocumentOrder(node: Node, selector: HtmlSelector)
    requires !selector.multiple
    ensures Collect(node, selector) == [] <==> Matching(PreOrder(node), selector) == []
    ensures Collect(node, selector) != [] ==> Collect(node, selector)[0] == Matching(PreOrder(node), selector)[0]
  {
    FirstModeSameFirst(node, selector);
    CollectAllIsMatchingPreOrder(node, selector.(multiple := true));
    MatchingIgnoresMultiple(PreOrder(node), selector, true);
  }

  /** Found and then passed over: after a first match, a matching sibling is still returned. */
  lemma TwoSiblingsBothFound()
    ensures var a := Node(ElementNode, "div", [Attribute("class", "film")], []);
      var b := Node(ElementNode, "div", [Attribute("class", "a film")], []);
      Collect(Node(ElementNode, "body", [], [a, b]), HtmlSelector("film", "", "div", false)) == [a, b]
  {
    var a := Node(ElementNode, "div", [Attribute("class", "film")], []);
    var b := Node(ElementNode, "div", [Attribute("class", "a film")], []);
    var sel := HtmlSelector("film", "", "div", false);
    assert OccursAt("film", "film", 0);
    assert OccursAt("film", "a film", 2);
    assert IsNodeMatchingSelector(a, sel) && IsNodeMatchingSelector(b, sel);
    assert "body" != "div";
    assert !IsNodeMatchingSelector(Node(ElementNode, "body", [], [a, b]), sel);
    assert [a, b][1..] == [b] && [b][1..] == [];
    assert CollectList([b], sel) == [b];
    assert CollectList([a, b], sel) == [a] + [b] == [a, b];
  }

  // ---------------------------------------------------------------------------
  // GetNodeByClass itself: a crawler appending to the result it has captured.

  /** The closure of GetNodeByClass together with the `returnNode` slice it captures. */
  class Crawler {
    const selector: HtmlSelector
    var returnNode: seq<Node>

    constructor (selector: HtmlSelector)
      ensures this.selector == selector && returnNode == []
    {
      this.selector := selector;
      returnNode := [];
    }

    /** `crawler(node)`: appends the matches of `node`'s subtree, not descending into a match unless Multiple. */
    method Crawl(node: Node)
      modifies this
      ensures returnNode == old(returnNode) + Collect(node, selector)
      decreases node
    {
      if IsNodeMatchingSelector(node, selector) {
        returnNode := returnNode + [node];
        if !selector.multiple {
          return;
        }
      }
      ghost var before := returnNode;
      var i := 0;
      while i < |node.children|
        invariant 0 <= i <= |node.children|
        invariant returnNode == before + CollectList(node.children[..i], selector)
      {
        CollectListAppend(node.children[..i], node.children[i], selector);
        assert node.children[..i + 1] == node.children[..i] + [node.children[i]];
        Crawl(node.children[i]);
        i := i + 1;
      }
      assert node.children[..i] == node.children;
    }
  }

  /** GetNodeByClass: the nodes the crawler collects from `parentNode`, in the order it visits them. */
  method GetNodeByClass(parentNode: Node, selector: HtmlSelector) returns (r: seq<Node>)
    ensures r == Collect(parentNode, selector)
  {
    var crawler := new Crawler(selector);
    crawler.Crawl(parentNode);
    r := crawler.returnNode;
  }
}
