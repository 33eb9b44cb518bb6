/**
  Constituency trees built from a sentence's bracketed parse: the node
  structure, the two builders (the current one in `src/util/tree.js` and
  the older one in `src/simple/util/tree.js`), the traversals, and the
  binding of leaves to tokens.

  Nodes are values here. The source's `parent()` back-reference is
  recorded as the flag `linked`: it is set on a node whose `parent()`
  returns the node that holds it in its children, and clear on a node whose
  `parent()` returns `null`.
 */
module Trees {
  import opened Js
  import opened Tokens
  import opened Tracking
  import opened Sentences
  import opened TreeScan

  datatype Node = Node(
    pos: string, word: string, children: seq<Node>,
    linked: bool, token: Option<Token>, language: Json)

  predicate IsLeaf(n: Node) {
    |n.children| == 0
  }

  /** `new Node(pos, word, children)` for a raw node: an absent word takes
      the default `''`, and neither a parent, a token nor a language is set. */
  function Plain(r: Raw): Node
    decreases r
  {
    Node(r.pos, r.word.GetOr(""),
      seq(|r.children|, i requires 0 <= i < |r.children| => Plain(r.children[i])),
      false, None, Undefined)
  }

  /** Reads a node back as a raw node: the empty word is the absent one. */
  function Unbuild(n: Node): Raw
    decreases n
  {
    Raw(n.pos, if n.word == "" then None else Some(n.word),
      seq(|n.children|, i requires 0 <= i < |n.children| => Unbuild(n.children[i])))
  }

  /** The node with every parent link dropped. */
  function Unlink(n: Node): (m: Node)
    ensures !m.linked
    decreases n
  {
    n.(linked := false,
       children := seq(|n.children|, i requires 0 <= i < |n.children| => Unlink(n.children[i])))
  }

  /** `_transformTree(node, doubleLink)` in the current builder: with
      `doubleLink`, only the root's own children get a parent, because the
      recursive calls pass no flag. */
  function Transform(r: Raw, doubleLink: bool): Node {
    var n := Plain(r);
    if doubleLink then
      n.(children := seq(|n.children|, i requires 0 <= i < |n.children| =>
        n.children[i].(linked := true)))
    else n
  }

  /** `transformTree(node)` in the older builder: the closure sees the same
      `doubleLink` at every depth, so every child gets a parent. */
  function TransformOld(r: Raw, doubleLink: bool): Node
    decreases r
  {
    Node(r.pos, r.word.GetOr(""),
      seq(|r.children|, i requires 0 <= i < |r.children| =>
        TransformOld(r.children[i], doubleLink).(linked := doubleLink)),
      false, None, Undefined)
  }

  /** Children carry the link flag `top`, and every node below them the
      flag `below`. */
  predicate LinkedExactly(n: Node, top: bool, below: bool)
    decreases n
  {
    forall i :: 0 <= i < |n.children| ==>
      n.children[i].linked == top && LinkedExactly(n.children[i], below, below)
  }

  /** A plain node has no links and reads back as its raw node, up to the
      absent word becoming `''`. */
  lemma {:induction false} PlainUnlinked(r: Raw)
    ensures !Plain(r).linked && LinkedExactly(Plain(r), false, false)
    ensures Unlink(Plain(r)) == Plain(r)
    decreases r
  {
    var n := Plain(r);
    forall i | 0 <= i < |r.children|
      ensures !n.children[i].linked && LinkedExactly(n.children[i], false, false)
      ensures Unlink(n.children[i]) == n.children[i]
    {
      PlainUnlinked(r.children[i]);
    }
    assert Unlink(n).children == n.children;
  }

  /** The current builder links exactly the root's children. */
  lemma {:induction false} TransformLinks(r: Raw, doubleLink: bool)
    ensures !Transform(r, doubleLink).linked
    ensures LinkedExactly(Transform(r, doubleLink), doubleLink, false)
    ensures Unlink(Transform(r, doubleLink)) == Plain(r)
  {
    var n := Plain(r);
    var t := Transform(r, doubleLink);
    PlainUnlinked(r);
    forall i | 0 <= i < |r.children|
      ensures LinkedExactly(n.children[i], false, false)
      ensures Unlink(t.children[i]) == n.children[i]
    {
      PlainUnlinked(r.children[i]);
      assert Unlink(t.children[i]) == Unlink(n.children[i]);
    }
    assert Unlink(t).children == n.children;
  }

  /** The older builder links every child, at every depth; apart from the
      links, it builds the same tree as the current one. */
  lemma {:induction false} TransformOldLinks(r: Raw, doubleLink: bool)
    ensures !TransformOld(r, doubleLink).linked
    ensures LinkedExactly(TransformOld(r, doubleLink), doubleLink, doubleLink)
    ensures Unlink(TransformOld(r, doubleLink)) == Plain(r)
    decreases r
  {
    var t := TransformOld(r, doubleLink);
    var n := Plain(r);
    forall i | 0 <= i < |r.children|
      ensures t.children[i].linked == doubleLink
      ensures LinkedExactly(t.children[i], doubleLink, doubleLink)
      ensures Unlink(t.children[i]) == n.children[i]
    {
      TransformOldLinks(r.children[i], doubleLink);
      assert Unlink(t.children[i]) == Unlink(TransformOld(r.children[i], doubleLink));
    }
    assert Unlink(t).children == n.children;
  }

  /** A printable raw node survives the trip through `Node`. */
  lemma {:induction false} UnbuildPlain(r: Raw)
    requires Printable(r)
    ensures Unbuild(Plain(r)) == r
    decreases r
  {
    var u := Unbuild(Plain(r));
    forall i | 0 <= i < |r.children|
      ensures u.children[i] == r.children[i]
    {
      UnbuildPlain(r.children[i]);
    }
  }

  // ---------------------------------------------------------------------------
  // fromString

  /** `Tree.fromString(str, doubleLink)`: building from an input with no
      complete node throws, as reading `pos` of `undefined` does. */
  function FromString(s: string, doubleLink: bool): (r: Result<Node>)
    ensures r.Err? <==> BuildTree(s).Err? || BuildTree(s).value.None?
    ensures r.Err? ==> r.error == TypeError
    ensures r.Ok? ==> Unlink(r.value) == Plain(BuildTree(s).value.value)
    ensures r.Ok? ==> LinkedExactly(r.value, doubleLink, false)
  {
    var t :- BuildTree(s);
    if t.None? then Err(TypeError)
    else
      TransformLinks(t.value, doubleLink);
      Ok(Transform(t.value, doubleLink))
  }

  /** The older `Tree.fromString`. */
  function FromStringOld(s: string, doubleLink: bool): (r: Result<Node>)
    ensures r.Err? <==> BuildTree(s).Err? || BuildTree(s).value.None?
    ensures r.Err? ==> r.error == TypeError
    ensures r.Ok? ==> Unlink(r.value) == Plain(BuildTree(s).value.value)
    ensures r.Ok? ==> LinkedExactly(r.value, doubleLink, doubleLink)
  {
    var t :- BuildTree(s);
    if t.None? then Err(TypeError)
    else
      TransformOldLinks(t.value, doubleLink);
      Ok(TransformOld(t.value, doubleLink))
  }

  /** Both builders read a printable tree back from its bracketed form. */
  lemma FromStringBracketed(t: Raw, doubleLink: bool)
    requires Printable(t)
    ensures FromString(Bracketed(t), doubleLink).Ok?
    ensures Unbuild(Unlink(FromString(Bracketed(t), doubleLink).value)) == t
    ensures FromStringOld(Bracketed(t), doubleLink).Ok?
    ensures Unlink(FromStringOld(Bracketed(t), doubleLink).value) ==
      Unlink(FromString(Bracketed(t), doubleLink).value)
  {
    BuildBracketed(t);
    UnbuildPlain(t);
  }

  // ---------------------------------------------------------------------------
  // Traversals

  function Size(n: Node): (k: nat)
    ensures k >= 1
    decreases n
  {
    1 + SizeAll(n.children)
  }

  function SizeAll(ns: seq<Node>): nat
    decreases ns
  {
    if |ns| == 0 then 0 else Size(ns[0]) + SizeAll(ns[1..])
  }

  /** Every node once, children before their parent, left to right. */
  function PostOrder(n: Node): seq<Node>
    decreases n
  {
    PostOrderAll(n.children) + [n]
  }

  function PostOrderAll(ns: seq<Node>): seq<Node>
    decreases ns
  {
    if |ns| == 0 then [] else PostOrder(ns[0]) + PostOrderAll(ns[1..])
  }

  lemma {:induction false} PostOrderSize(n: Node)
    ensures |PostOrder(n)| == Size(n)
    decreases n, 1
  {
    PostOrderAllSize(n.children);
  }

  lemma {:induction false} PostOrderAllSize(ns: seq<Node>)
    ensures |PostOrderAll(ns)| == SizeAll(ns)
    decreases ns, 0
  {
    if |ns| > 0 {
      PostOrderSize(ns[0]);
      PostOrderAllSize(ns[1..]);
    }
  }

  /** `visitDeepFirst(visitor, node)` in the current builder, as the
      sequence of nodes handed to the visitor: each child's own traversal,
      then the child again, and finally the node itself. */
  function VisitDeepFirst(n: Node): seq<Node>
    decreases n
  {
    VisitDeepFirstAll(n.children) + [n]
  }

  function VisitDeepFirstAll(ns: seq<Node>): seq<Node>
    decreases ns
  {
    if |ns| == 0 then [] else VisitDeepFirst(ns[0]) + [ns[0]] + VisitDeepFirstAll(ns[1..])
  }

  /** Each element twice in a row. */
  function Doubled(s: seq<Node>): (r: seq<Node>)
    ensures |r| == 2 * |s|
  {
    if |s| == 0 then [] else [s[0], s[0]] + Doubled(s[1..])
  }

  lemma {:induction false} DoubledAppend(a: seq<Node>, b: seq<Node>)
    ensures Doubled(a + b) == Doubled(a) + Doubled(b)
    decreases |a|
  {
    if |a| == 0 {
      assert a + b == b;
    } else {
      assert (a + b)[0] == a[0];
      assert (a + b)[1..] == a[1..] + b;
      DoubledAppend(a[1..], b);
    }
  }

  /** Every node but the root reaches the visitor twice, back to back: once
      at the end of its own traversal and once from its parent. */
  lemma {:induction false} VisitDeepFirstDoubles(n: Node)
    ensures VisitDeepFirst(n) + [n] == Doubled(PostOrder(n))
    decreases n, 1
  {
    VisitDeepFirstAllDoubles(n.children);
    DoubledAppend(PostOrderAll(n.children), [n]);
  }

  lemma {:induction false} VisitDeepFirstAllDoubles(ns: seq<Node>)
    ensures VisitDeepFirstAll(ns) == Doubled(PostOrderAll(ns))
    decreases ns, 0
  {
    if |ns| > 0 {
      VisitDeepFirstDoubles(ns[0]);
      VisitDeepFirstAllDoubles(ns[1..]);
      DoubledAppend(PostOrder(ns[0]), PostOrderAll(ns[1..]));
    }
  }

  /** The visitor is called `2 * size - 1` times. */
  lemma VisitDeepFirstLength(n: Node)
    ensures |VisitDeepFirst(n)| == 2 * Size(n) - 1
  {
    VisitDeepFirstDoubles(n);
    PostOrderSize(n);
  }

  /** The older `visitDeepFirst(visitor)`, called on the root. Its inner
      call passes the child where the visitor belongs, so the node parameter
      falls back to the root and the traversal starts over before any
      visitor call. `fuel` bounds the call depth; running out of it stands
      for the stack overflow. */
  function VisitDeepFirstOld(root: Node, fuel: nat): Option<seq<Node>>
    decreases fuel
  {
    if IsLeaf(root) then Some([root])
    else if fuel == 0 then None
    else VisitDeepFirstOld(root, fuel - 1)
  }

  /** On a root with children the older traversal never finishes, however
      deep the stack may grow. */
  lemma {:induction false} VisitDeepFirstOldDiverges(root: Node, fuel: nat)
    requires !IsLeaf(root)
    ensures VisitDeepFirstOld(root, fuel).None?
    decreases fuel
  {
    if fuel > 0 {
      VisitDeepFirstOldDiverges(root, fuel - 1);
    }
  }

  /** On a lone leaf the two traversals agree. */
  lemma VisitDeepFirstOldOnLeaf(root: Node, fuel: nat)
    requires IsLeaf(root)
    ensures VisitDeepFirstOld(root, fuel) == Some(VisitDeepFirst(root))
  {
    assert root.children == [];
    assert VisitDeepFirstAll(root.children) == [];
    assert VisitDeepFirst(root) == [root];
  }

  /** The node with the children reversed at every depth. */
  function Mirror(n: Node): Node
    decreases n
  {
    n.(children := MirrorAll(n.children))
  }

  /** The mirrors of `ns`, last first. */
  function MirrorAll(ns: seq<Node>): (r: seq<Node>)
    ensures |r| == |ns|
    decreases ns
  {
    seq(|ns|, i requires 0 <= i < |ns| => Mirror(ns[|ns| - 1 - i]))
  }

  lemma {:induction false} MirrorInvolution(n: Node)
    ensures Mirror(Mirror(n)) == n
    decreases n
  {
    var cs := n.children;
    var m := MirrorAll(cs);
    forall i | 0 <= i < |cs|
      ensures MirrorAll(m)[i] == cs[i]
    {
      MirrorInvolution(cs[i]);
    }
  }

  /** `visitDeepFirstRight(visitor, node)` in the current builder. It calls
      `reverse()` on each visited node's children, which reverses them in
      place; the result pairs the nodes handed to the visitor (each as it
      stands when handed over) with the node as the traversal leaves it. */
  function VisitDeepFirstRight(n: Node): (seq<Node>, Node)
    decreases n, 1
  {
    var (visits, children) := VisitRightAll(n.children);
    var after := n.(children := children);
    (visits + [after], after)
  }

  /** The `forEach` over the reversed children: the last child first. */
  function VisitRightAll(ns: seq<Node>): (seq<Node>, seq<Node>)
    decreases ns, 0
  {
    if |ns| == 0 then ([], [])
    else
      var (v, c) := VisitDeepFirstRight(ns[|ns| - 1]);
      var (vs, cs) := VisitRightAll(ns[..|ns| - 1]);
      (v + [c] + vs, [c] + cs)
  }

  /** The right-to-left traversal is the left-to-right traversal of the
      mirrored tree, and it leaves the tree mirrored. */
  lemma {:induction false} VisitRightIsMirrored(n: Node)
    ensures VisitDeepFirstRight(n) == (VisitDeepFirst(Mirror(n)), Mirror(n))
    decreases n, 1
  {
    VisitRightAllIsMirrored(n.children);
  }

  lemma {:induction false} VisitRightAllIsMirrored(ns: seq<Node>)
    ensures VisitRightAll(ns) == (VisitDeepFirstAll(MirrorAll(ns)), MirrorAll(ns))
    decreases ns, 0
  {
    if |ns| > 0 {
      var last := ns[|ns| - 1];
      var init := ns[..|ns| - 1];
      VisitRightIsMirrored(last);
      VisitRightAllIsMirrored(init);
      var m := MirrorAll(ns);
      assert m[0] == Mirror(last);
      assert m[1..] == MirrorAll(init) by {
        forall i | 0 <= i < |init|
          ensures m[1..][i] == MirrorAll(init)[i]
        {
          assert init[|init| - 1 - i] == ns[|ns| - 1 - (i + 1)];
        }
      }
      assert m == [Mirror(last)] + MirrorAll(init);
      assert VisitDeepFirstAll(m) ==
        VisitDeepFirst(Mirror(last)) + [Mirror(last)] + VisitDeepFirstAll(MirrorAll(init));
    }
  }

  /** Two right-to-left traversals put every node's children back in order. */
  lemma VisitRightTwiceRestores(n: Node)
    ensures VisitDeepFirstRight(VisitDeepFirstRight(n).1).1 == n
  {
    VisitRightIsMirrored(n);
    VisitRightIsMirrored(Mirror(n));
    MirrorInvolution(n);
  }

  /** `visitLeaves(visitor, node)`: a child with children is searched, a
      child without is visited, and the node itself is visited only when it
      has no children. */
  function VisitLeaves(n: Node): seq<Node>
    decreases n, 1
  {
    VisitLeavesAll(n.children) + (if IsLeaf(n) then [n] else [])
  }

  function VisitLeavesAll(ns: seq<Node>): seq<Node>
    decreases ns, 0
  {
    if |ns| == 0 then []
    else (if IsLeaf(ns[0]) then [ns[0]] else VisitLeaves(ns[0])) + VisitLeavesAll(ns[1..])
  }

  /** The leaves among `s`, in order. */
  function LeavesOf(s: seq<Node>): (r: seq<Node>)
    ensures forall i :: 0 <= i < |r| ==> IsLeaf(r[i])
  {
    if |s| == 0 then []
    else (if IsLeaf(s[0]) then [s[0]] else []) + LeavesOf(s[1..])
  }

  lemma {:induction false} LeavesOfAppend(a: seq<Node>, b: seq<Node>)
    ensures LeavesOf(a + b) == LeavesOf(a) + LeavesOf(b)
    decreases |a|
  {
    if |a| == 0 {
      assert a + b == b;
    } else {
      assert (a + b)[0] == a[0];
      assert (a + b)[1..] == a[1..] + b;
      LeavesOfAppend(a[1..], b);
    }
  }

  /** The leaf traversal hands over exactly the tree's leaves, left to
      right: the post-order with the inner nodes removed. */
  lemma {:induction false} VisitLeavesIsFrontier(n: Node)
    ensures VisitLeaves(n) == LeavesOf(PostOrder(n))
    decreases n, 1
  {
    VisitLeavesAllIsFrontier(n.children);
    LeavesOfAppend(PostOrderAll(n.children), [n]);
  }

  lemma {:induction false} VisitLeavesAllIsFrontier(ns: seq<Node>)
    ensures VisitLeavesAll(ns) == LeavesOf(PostOrderAll(ns))
    decreases ns, 0
  {
    if |ns| > 0 {
      VisitLeavesIsFrontier(ns[0]);
      VisitLeavesAllIsFrontier(ns[1..]);
      LeavesOfAppend(PostOrder(ns[0]), PostOrderAll(ns[1..]));
      if IsLeaf(ns[0]) {
        assert PostOrderAll(ns[0].children) == [];
      }
    }
  }

  lemma {:induction false} VisitLeavesAllCons(ns: seq<Node>)
    requires |ns| > 0
    ensures VisitLeavesAll(ns) == VisitLeaves(ns[0]) + VisitLeavesAll(ns[1..])
  {
    if IsLeaf(ns[0]) {
      assert VisitLeaves(ns[0]) == [] + [ns[0]];
    }
  }

  // ---------------------------------------------------------------------------
  // fromSentence

  /** The bracket-free shape of a node: tag, word and children, with links,
      tokens and languages cleared. */
  function Strip(n: Node): Node
    decreases n
  {
    Node(n.pos, n.word,
      seq(|n.children|, i requires 0 <= i < |n.children| => Strip(n.children[i])),
      false, None, Undefined)
  }

  /** No node holds a token. */
  predicate NoTokens(n: Node)
    decreases n
  {
    n.token.None? && forall i :: 0 <= i < |n.children| ==> NoTokens(n.children[i])
  }

  /** Every node holds the language `lang`. */
  predicate AllLanguage(n: Node, lang: Json)
    decreases n
  {
    n.language == lang && forall i :: 0 <= i < |n.children| ==> AllLanguage(n.children[i], lang)
  }

  /** A freshly built tree holds no token and no language, and its shape is
      the raw tree's. */
  lemma {:induction false} PlainFresh(r: Raw)
    ensures NoTokens(Plain(r)) && AllLanguage(Plain(r), Undefined)
    ensures Strip(Plain(r)) == Plain(r)
    decreases r
  {
    var n := Plain(r);
    forall i | 0 <= i < |r.children|
      ensures NoTokens(n.children[i]) && AllLanguage(n.children[i], Undefined)
      ensures Strip(n.children[i]) == n.children[i]
    {
      PlainFresh(r.children[i]);
    }
    assert Strip(n).children == n.children;
  }

  lemma {:induction false} TransformFresh(r: Raw, doubleLink: bool)
    ensures NoTokens(Transform(r, doubleLink)) && AllLanguage(Transform(r, doubleLink), Undefined)
    ensures Strip(Transform(r, doubleLink)) == Plain(r)
  {
    var n := Plain(r);
    var t := Transform(r, doubleLink);
    PlainFresh(r);
    forall i | 0 <= i < |r.children|
      ensures NoTokens(t.children[i]) && AllLanguage(t.children[i], Undefined)
      ensures Strip(t.children[i]) == n.children[i]
    {
      assert NoTokens(n.children[i]) && AllLanguage(n.children[i], Undefined);
      assert Strip(t.children[i]) == Strip(n.children[i]);
    }
    assert Strip(t).children == n.children;
  }

  lemma {:induction false} TransformOldFresh(r: Raw, doubleLink: bool)
    ensures NoTokens(TransformOld(r, doubleLink)) && AllLanguage(TransformOld(r, doubleLink), Undefined)
    ensures Strip(TransformOld(r, doubleLink)) == Plain(r)
    decreases r
  {
    var t := TransformOld(r, doubleLink);
    var n := Plain(r);
    forall i | 0 <= i < |r.children|
      ensures NoTokens(t.children[i]) && AllLanguage(t.children[i], Undefined)
      ensures Strip(t.children[i]) == n.children[i]
    {
      TransformOldFresh(r.children[i], doubleLink);
      assert Strip(t.children[i]) == Strip(TransformOld(r.children[i], doubleLink));
    }
    assert Strip(t).children == n.children;
  }

  /** `node.token(t)`: a truthy argument is stored. Tokens are objects, so
      every token is truthy and only `undefined` leaves the node alone. */
  function SetToken(n: Node, t: Option<Token>): (m: Node)
    ensures t.Some? ==> m.token == t
    ensures t.None? ==> m == n
    ensures m.(token := n.token) == n
  {
    if t.Some? then n.(token := t) else n
  }

  /** The leaf visitor of `fromSentence` over `visitLeaves`: the leaf reached
      `k`-th gets `sentence.token(k)`. The counter after the traversal comes
      second. */
  function BindTokens(n: Node, s: Sentence, k: nat): (Node, nat)
    decreases n, 1
  {
    if IsLeaf(n) then (SetToken(n, TokenAt(s, k)), k + 1)
    else
      var (cs, next) := BindTokensAll(n.children, s, k);
      (n.(children := cs), next)
  }

  function BindTokensAll(ns: seq<Node>, s: Sentence, k: nat): (seq<Node>, nat)
    decreases ns, 0
  {
    if |ns| == 0 then ([], k)
    else
      var (c, k1) := BindTokens(ns[0], s, k);
      var (cs, k2) := BindTokensAll(ns[1..], s, k1);
      ([c] + cs, k2)
  }

  /** The leaves `leaves`, the `i`-th given `sentence.token(k + i)`. */
  function Tokened(leaves: seq<Node>, s: Sentence, k: nat): (r: seq<Node>)
    ensures |r| == |leaves|
  {
    seq(|leaves|, i requires 0 <= i < |leaves| => SetToken(leaves[i], TokenAt(s, k + i)))
  }

  lemma TokenedAppend(a: seq<Node>, b: seq<Node>, s: Sentence, k: nat)
    ensures Tokened(a + b, s, k) == Tokened(a, s, k) + Tokened(b, s, k + |a|)
  {
    var l := Tokened(a + b, s, k);
    var r := Tokened(a, s, k) + Tokened(b, s, k + |a|);
    forall i | 0 <= i < |l|
      ensures l[i] == r[i]
    {
      if i >= |a| {
        assert (a + b)[i] == b[i - |a|];
      }
    }
  }

  /** Binding hands the tokens out to the leaves in traversal order, one
      each, and counts one per leaf. */
  lemma {:induction false} BindTokensLeaves(n: Node, s: Sentence, k: nat)
    ensures BindTokens(n, s, k).1 == k + |VisitLeaves(n)|
    ensures VisitLeaves(BindTokens(n, s, k).0) == Tokened(VisitLeaves(n), s, k)
    ensures |BindTokens(n, s, k).0.children| == |n.children|
    decreases n, 1
  {
    if IsLeaf(n) {
      assert VisitLeaves(n) == [n];
      var m := BindTokens(n, s, k).0;
      assert VisitLeaves(m) == [m];
    } else {
      BindTokensAllLeaves(n.children, s, k);
    }
  }

  lemma {:induction false} BindTokensAllLeaves(ns: seq<Node>, s: Sentence, k: nat)
    ensures BindTokensAll(ns, s, k).1 == k + |VisitLeavesAll(ns)|
    ensures VisitLeavesAll(BindTokensAll(ns, s, k).0) == Tokened(VisitLeavesAll(ns), s, k)
    ensures |BindTokensAll(ns, s, k).0| == |ns|
    decreases ns, 0
  {
    if |ns| > 0 {
      var (c, k1) := BindTokens(ns[0], s, k);
      var (cs, k2) := BindTokensAll(ns[1..], s, k1);
      BindTokensLeaves(ns[0], s, k);
      BindTokensAllLeaves(ns[1..], s, k1);
      VisitLeavesAllCons(ns);
      VisitLeavesAllCons([c] + cs);
      assert ([c] + cs)[1..] == cs;
      TokenedAppend(VisitLeaves(ns[0]), VisitLeavesAll(ns[1..]), s, k);
    }
  }

  /** Binding changes tokens only: shape and languages stay. */
  lemma {:induction false} BindTokensKeeps(n: Node, s: Sentence, k: nat, lang: Json)
    ensures Strip(BindTokens(n, s, k).0) == Strip(n)
    ensures AllLanguage(n, lang) ==> AllLanguage(BindTokens(n, s, k).0, lang)
    decreases n, 1
  {
    if !IsLeaf(n) {
      BindTokensAllKeeps(n.children, s, k, lang);
      var m := BindTokens(n, s, k).0;
      assert Strip(m).children == Strip(n).children;
    }
  }

  lemma {:induction false} BindTokensAllKeeps(ns: seq<Node>, s: Sentence, k: nat, lang: Json)
    ensures |BindTokensAll(ns, s, k).0| == |ns|
    ensures forall i :: 0 <= i < |ns| ==>
      Strip(BindTokensAll(ns, s, k).0[i]) == Strip(ns[i]) &&
      (AllLanguage(ns[i], lang) ==> AllLanguage(BindTokensAll(ns, s, k).0[i], lang))
    decreases ns, 0
  {
    if |ns| > 0 {
      var (c, k1) := BindTokens(ns[0], s, k);
      BindTokensKeeps(ns[0], s, k, lang);
      BindTokensAllKeeps(ns[1..], s, k1, lang);
      var ms := BindTokensAll(ns, s, k).0;
      assert forall i :: 1 <= i < |ns| ==> ms[i] == BindTokensAll(ns[1..], s, k1).0[i - 1];
      assert forall i :: 1 <= i < |ns| ==> ns[i] == ns[1..][i - 1];
    }
  }

  /** `tree.visitDeepFirst(node => node.setLanguageISO(lang))`: the visitor
      reaches every node, some twice, and sets the same value each time. */
  function SetLanguageAll(n: Node, lang: Json): Node
    decreases n, 1
  {
    n.(language := lang, children := SetLanguageEach(n.children, lang))
  }

  function SetLanguageEach(ns: seq<Node>, lang: Json): (r: seq<Node>)
    ensures |r| == |ns|
    decreases ns, 0
  {
    seq(|ns|, i requires 0 <= i < |ns| => SetLanguageAll(ns[i], lang))
  }

  /** Setting the language reaches every node and changes nothing else. */
  lemma {:induction false} SetLanguageAllSpec(n: Node, lang: Json)
    ensures AllLanguage(SetLanguageAll(n, lang), lang)
    ensures Strip(SetLanguageAll(n, lang)) == Strip(n)
    ensures NoTokens(n) ==> NoTokens(SetLanguageAll(n, lang))
    decreases n
  {
    var m := SetLanguageAll(n, lang);
    forall i | 0 <= i < |n.children|
      ensures AllLanguage(m.children[i], lang)
      ensures Strip(m.children[i]) == Strip(n.children[i])
      ensures NoTokens(n.children[i]) ==> NoTokens(m.children[i])
    {
      SetLanguageAllSpec(n.children[i], lang);
    }
    assert Strip(m).children == Strip(n).children;
  }

  /** The leaves of a tree without tokens hold none. */
  lemma {:induction false} NoTokensLeaves(n: Node)
    requires NoTokens(n)
    ensures forall i :: 0 <= i < |VisitLeaves(n)| ==> VisitLeaves(n)[i].token.None?
    decreases n, 1
  {
    NoTokensLeavesAll(n.children);
  }

  lemma {:induction false} NoTokensLeavesAll(ns: seq<Node>)
    requires forall i :: 0 <= i < |ns| ==> NoTokens(ns[i])
    ensures forall i :: 0 <= i < |VisitLeavesAll(ns)| ==> VisitLeavesAll(ns)[i].token.None?
    decreases ns, 0
  {
    if |ns| > 0 {
      NoTokensLeaves(ns[0]);
      NoTokensLeavesAll(ns[1..]);
      VisitLeavesAllCons(ns);
    }
  }

  const NoParse: string := "Unable to create Tree from Sentence, did you run ParserAnnotator first?"

  /** `Tree.fromSentence(sentence, doubleLink)` in the current builder. The
      sentence's `token(k)` is the one its typings declare. */
  function FromSentence(s: Sentence, doubleLink: bool): Result<Node> {
    if !Truthy(s.parse) then Err(Thrown(NoParse))
    else if !s.parse.Str? then Err(TypeError)
    else
      var root :- FromString(s.parse.s, doubleLink);
      var bound := BindTokens(root, s, 0).0;
      var lang := GetLanguageISO(s.base);
      Ok(if Truthy(lang) then SetLanguageAll(bound, lang) else bound)
  }

  /** The older `Tree.fromSentence`, which sets no language. */
  function FromSentenceOld(s: Sentence, doubleLink: bool): Result<Node> {
    if !Truthy(s.parse) then Err(Thrown(NoParse))
    else if !s.parse.Str? then Err(TypeError)
    else
      var root :- FromStringOld(s.parse.s, doubleLink);
      Ok(BindTokens(root, s, 0).0)
  }

  /** The leaf visitor of `fromSentence` as written: it calls
      `sentence.token(…)`, which `Sentence` does not define, so visiting the
      first leaf throws a `TypeError`. */
  function BindTokensAsWritten(root: Node): Result<Node> {
    if |VisitLeaves(root)| == 0 then Ok(root) else Err(TypeError)
  }

  /** `Tree.fromSentence` as written. */
  function FromSentenceAsWritten(s: Sentence, doubleLink: bool): Result<Node> {
    if !Truthy(s.parse) then Err(Thrown(NoParse))
    else if !s.parse.Str? then Err(TypeError)
    else
      var root :- FromString(s.parse.s, doubleLink);
      var bound :- BindTokensAsWritten(root);
      var lang := GetLanguageISO(s.base);
      Ok(if Truthy(lang) then SetLanguageAll(bound, lang) else bound)
  }

  /** The older `Tree.fromSentence` as written. */
  function FromSentenceOldAsWritten(s: Sentence, doubleLink: bool): Result<Node> {
    if !Truthy(s.parse) then Err(Thrown(NoParse))
    else if !s.parse.Str? then Err(TypeError)
    else
      var root :- FromStringOld(s.parse.s, doubleLink);
      BindTokensAsWritten(root)
  }

  /** Every tree has a leaf: a node without children is one, and otherwise
      the first child leads to one. */
  lemma {:induction false} VisitLeavesNonEmpty(n: Node)
    ensures |VisitLeaves(n)| >= 1
    decreases n
  {
    if !IsLeaf(n) {
      var c := n.children[0];
      assert c in n.children;
      if !IsLeaf(c) {
        VisitLeavesNonEmpty(c);
      }
      assert |VisitLeavesAll(n.children)| >= 1;
    }
  }

  /** As written, building from a sentence never succeeds: without a parse
      it throws the library's error, and with one the first leaf throws a
      `TypeError`, where the intended build succeeds on every well-formed
      parse string. */
  lemma FromSentenceAsWrittenThrows(s: Sentence, doubleLink: bool)
    ensures FromSentenceAsWritten(s, doubleLink) ==
      (if Truthy(s.parse) then Err(TypeError) else Err(Thrown(NoParse)))
    ensures FromSentenceOldAsWritten(s, doubleLink) ==
      (if Truthy(s.parse) then Err(TypeError) else Err(Thrown(NoParse)))
  {
    if Truthy(s.parse) && s.parse.Str? {
      var r := FromString(s.parse.s, doubleLink);
      if r.Ok? {
        VisitLeavesNonEmpty(r.value);
      }
      var o := FromStringOld(s.parse.s, doubleLink);
      if o.Ok? {
        VisitLeavesNonEmpty(o.value);
      }
    }
  }

  /** What a successful build from a sentence promises: the tree read from
      the parse, its `k`-th leaf holding `sentence.token(k)`, and every node
      the sentence's language when it has a truthy one. */
  lemma FromSentenceSpec(s: Sentence, doubleLink: bool)
    ensures FromSentence(s, doubleLink) == Err(Thrown(NoParse)) <==> !Truthy(s.parse)
    ensures Truthy(s.parse) ==>
      (FromSentence(s, doubleLink).Ok? <==> s.parse.Str? && FromString(s.parse.s, doubleLink).Ok?)
    ensures FromSentence(s, doubleLink).Ok? ==>
      var r := FromSentence(s, doubleLink).value;
      Strip(r) == Plain(BuildTree(s.parse.s).value.value) &&
      |VisitLeaves(r)| == |VisitLeaves(FromString(s.parse.s, doubleLink).value)| &&
      (forall i :: 0 <= i < |VisitLeaves(r)| ==> VisitLeaves(r)[i].token == TokenAt(s, i)) &&
      AllLanguage(r, if Truthy(GetLanguageISO(s.base)) then GetLanguageISO(s.base) else Undefined)
  {
    if FromSentence(s, doubleLink).Ok? {
      var t := BuildTree(s.parse.s).value.value;
      var root := Transform(t, doubleLink);
      assert FromString(s.parse.s, doubleLink) == Ok(root);
      TransformFresh(t, doubleLink);
      var lang := GetLanguageISO(s.base);
      var bound := BindTokens(root, s, 0).0;
      BindTokensLeaves(root, s, 0);
      BindTokensKeeps(root, s, 0, Undefined);
      NoTokensLeaves(root);
      if Truthy(lang) {
        var r := SetLanguageAll(bound, lang);
        LanguageCommutes(root, s, 0, lang);
        SetLanguageAllSpec(root, lang);
        BindTokensLeaves(SetLanguageAll(root, lang), s, 0);
        BindTokensKeeps(SetLanguageAll(root, lang), s, 0, lang);
        NoTokensLeaves(SetLanguageAll(root, lang));
        SetLanguageAllSpec(bound, lang);
        assert r == BindTokens(SetLanguageAll(root, lang), s, 0).0;
        LeavesCountStrip(root, SetLanguageAll(root, lang));
      }
    }
  }

  /** The older builder binds tokens alike and leaves every language unset. */
  lemma FromSentenceOldSpec(s: Sentence, doubleLink: bool)
    ensures FromSentenceOld(s, doubleLink) == Err(Thrown(NoParse)) <==> !Truthy(s.parse)
    ensures FromSentenceOld(s, doubleLink).Ok? ==>
      var r := FromSentenceOld(s, doubleLink).value;
      Strip(r) == Plain(BuildTree(s.parse.s).value.value) &&
      (forall i :: 0 <= i < |VisitLeaves(r)| ==> VisitLeaves(r)[i].token == TokenAt(s, i)) &&
      AllLanguage(r, Undefined)
  {
    if FromSentenceOld(s, doubleLink).Ok? {
      var t := BuildTree(s.parse.s).value.value;
      var root := TransformOld(t, doubleLink);
      TransformOldFresh(t, doubleLink);
      BindTokensLeaves(root, s, 0);
      BindTokensKeeps(root, s, 0, Undefined);
      NoTokensLeaves(root);
    }
  }

  /** Setting languages and binding tokens touch different fields, so their
      order does not matter. */
  lemma {:induction false} LanguageCommutes(n: Node, s: Sentence, k: nat, lang: Json)
    ensures SetLanguageAll(BindTokens(n, s, k).0, lang) == BindTokens(SetLanguageAll(n, lang), s, k).0
    ensures BindTokens(SetLanguageAll(n, lang), s, k).1 == BindTokens(n, s, k).1
    decreases n, 1
  {
    var l := SetLanguageAll(n, lang);
    if !IsLeaf(n) {
      LanguageCommutesAll(n.children, s, k, lang);
    } else {
      assert IsLeaf(l);
    }
  }

  lemma {:induction false} LanguageCommutesAll(ns: seq<Node>, s: Sentence, k: nat, lang: Json)
    ensures BindTokensAll(SetLanguageEach(ns, lang), s, k).0 ==
      SetLanguageEach(BindTokensAll(ns, s, k).0, lang)
    ensures BindTokensAll(SetLanguageEach(ns, lang), s, k).1 == BindTokensAll(ns, s, k).1
    decreases ns, 0
  {
    var ls := SetLanguageEach(ns, lang);
    if |ns| > 0 {
      var (c, k1) := BindTokens(ns[0], s, k);
      var (cs, k2) := BindTokensAll(ns[1..], s, k1);
      LanguageCommutes(ns[0], s, k, lang);
      LanguageCommutesAll(ns[1..], s, k1, lang);
      assert ls[1..] == SetLanguageEach(ns[1..], lang);
      assert SetLanguageEach([c] + cs, lang) == [SetLanguageAll(c, lang)] + SetLanguageEach(cs, lang);
    }
  }

  /** Trees of the same shape have the same number of leaves. */
  lemma {:induction false} LeavesCountStrip(a: Node, b: Node)
    requires Strip(a) == Strip(b)
    ensures |VisitLeaves(a)| == |VisitLeaves(b)|
    decreases a, 1
  {
    assert |a.children| == |Strip(a).children|;
    forall i | 0 <= i < |a.children|
      ensures Strip(a.children[i]) == Strip(b.children[i])
    {
      assert Strip(a).children[i] == Strip(b).children[i];
    }
    LeavesCountStripAll(a.children, b.children);
  }

  lemma {:induction false} LeavesCountStripAll(as_: seq<Node>, bs: seq<Node>)
    requires |as_| == |bs| && forall i :: 0 <= i < |as_| ==> Strip(as_[i]) == Strip(bs[i])
    ensures |VisitLeavesAll(as_)| == |VisitLeavesAll(bs)|
    decreases as_, 0
  {
    if |as_| > 0 {
      LeavesCountStrip(as_[0], bs[0]);
      LeavesCountStripAll(as_[1..], bs[1..]);
      VisitLeavesAllCons(as_);
      VisitLeavesAllCons(bs);
    }
  }
}
