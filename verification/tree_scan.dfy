/**
  The bracket scanner behind `Tree.fromString`: it turns a Penn-style
  bracketed parse such as `(ROOT (NP (DT the) (NN dog)))` into raw nodes,
  each holding a part-of-speech tag, an optional word and its children.

  The scanner keeps a stack of open frames. `(` opens a frame, `)` cleans
  the innermost frame and hands it to the enclosing one, and any other
  character is appended to the innermost frame's text. The result is the
  first child of whatever frame is innermost when the input ends.

  The source pushes a new node into its parent's children when it is
  opened, and fills in its tag and word when it is closed. The model
  attaches the node when it is closed. The two agree on every result,
  because a node that is still open is never among the children of the
  innermost frame. Closing the outermost (unnamed) frame makes the source
  throw a `TypeError`, either at once or at the latest when the result is
  read. The model throws it at once.
 */
module TreeScan {
  import opened Js

  /** A node as the scanner leaves it: `word` is absent when the cleaned
      text holds no space. */
  datatype Raw = Raw(pos: string, word: Option<string>, children: seq<Raw>)

  /** An open bracket: the text read so far and the children closed so far. */
  datatype Frame = Frame(text: string, children: seq<Raw>)

  // ---------------------------------------------------------------------------
  // Cleaning a closed frame

  /** The characters `String.prototype.trim` removes: white space and line
      terminators as ECMAScript defines them. */
  predicate IsSpace(c: char) {
    c == '\U{0009}' || c == '\U{000A}' || c == '\U{000B}' || c == '\U{000C}' ||
    c == '\U{000D}' || c == '\U{0020}' || c == '\U{00A0}' || c == '\U{1680}' ||
    ('\U{2000}' <= c <= '\U{200A}') || c == '\U{2028}' || c == '\U{2029}' ||
    c == '\U{202F}' || c == '\U{205F}' || c == '\U{3000}' || c == '\U{FEFF}'
  }

  function TrimStart(s: string): (r: string)
    ensures |r| <= |s| && r == s[|s| - |r|..]
    ensures |r| > 0 ==> !IsSpace(r[0])
    ensures forall k :: 0 <= k < |s| - |r| ==> IsSpace(s[k])
  {
    if |s| > 0 && IsSpace(s[0]) then TrimStart(s[1..]) else s
  }

  function TrimEnd(s: string): (r: string)
    ensures |r| <= |s| && r == s[..|r|]
    ensures |r| > 0 ==> !IsSpace(r[|r| - 1])
    ensures forall k :: |r| <= k < |s| ==> IsSpace(s[k])
  {
    if |s| > 0 && IsSpace(s[|s| - 1]) then TrimEnd(s[..|s| - 1]) else s
  }

  /** `str.trim()`: spaces dropped from both ends, and only those. */
  function Trim(s: string): (r: string)
    ensures |r| > 0 ==> !IsSpace(r[0]) && !IsSpace(r[|r| - 1])
    ensures |r| <= |TrimStart(s)| && r == TrimStart(s)[..|r|]
  {
    TrimEnd(TrimStart(s))
  }

  /** A string is its own trim exactly when no space sits at either end. */
  lemma TrimKeeps(s: string)
    ensures Trim(s) == s <==> |s| == 0 || (!IsSpace(s[0]) && !IsSpace(s[|s| - 1]))
  {
  }

  /** `str.indexOf(c)`: the first position of `c`, or -1. */
  function IndexOf(s: string, c: char): (r: int)
    ensures r == -1 <==> c !in s
    ensures r != -1 ==> 0 <= r < |s| && s[r] == c && c !in s[..r]
  {
    if |s| == 0 then -1
    else if s[0] == c then 0
    else
      var r := IndexOf(s[1..], c);
      if r == -1 then -1
      else
        assert s[..r + 1] == [s[0]] + s[1..][..r];
        r + 1
  }

  /** `_cleanNode`: trim the text; up to its first space is the tag and the
      rest is the word; with no space, the whole text is the tag. */
  function Clean(f: Frame): (r: Raw)
    ensures r.children == f.children
    ensures r.word.None? <==> ' ' !in Trim(f.text)
    ensures r.word.None? ==> r.pos == Trim(f.text)
    ensures r.word.Some? ==> ' ' !in r.pos && Trim(f.text) == r.pos + " " + r.word.value
  {
    var str := Trim(f.text);
    var d := IndexOf(str, ' ');
    if d > -1 then
      SplitAround(str, d);
      Raw(str[..d], Some(str[d + 1..]), f.children)
    else Raw(str, None, f.children)
  }

  lemma SplitAround(s: string, d: int)
    requires 0 <= d < |s|
    ensures s == s[..d] + [s[d]] + s[d + 1..]
  {
  }

  /** The first space of `a + " " + b` is the one after `a`, when `a` has
      none. */
  lemma {:induction false} FirstSpace(a: string, b: string)
    requires ' ' !in a
    ensures IndexOf(a + " " + b, ' ') == |a|
    ensures (a + " " + b)[..|a|] == a && (a + " " + b)[|a| + 1..] == b
    decreases |a|
  {
    var s := a + " " + b;
    if |a| > 0 {
      assert s[1..] == a[1..] + " " + b;
      FirstSpace(a[1..], b);
    }
  }

  // ---------------------------------------------------------------------------
  // Scanning

  /** The stack with `t` appended to the innermost frame's children. */
  function AddChild(st: seq<Frame>, t: Raw): (r: seq<Frame>)
    requires |st| >= 1
    ensures |r| == |st| && r[..|st| - 1] == st[..|st| - 1]
    ensures r[|st| - 1] == st[|st| - 1].(children := st[|st| - 1].children + [t])
  {
    var top := st[|st| - 1];
    st[..|st| - 1] + [top.(children := top.children + [t])]
  }

  /** One character of the loop. */
  function Step(st: seq<Frame>, c: char): (r: Result<seq<Frame>>)
    requires |st| >= 1
    ensures c == '(' ==> r == Ok(st + [Frame("", [])])
    ensures c == ')' ==> (r.Err? <==> |st| == 1)
    ensures c == ')' && |st| > 1 ==> r == Ok(AddChild(st[..|st| - 1], Clean(st[|st| - 1])))
    ensures c != '(' && c != ')' ==>
      r == Ok(st[..|st| - 1] + [st[|st| - 1].(text := st[|st| - 1].text + [c])])
  {
    if c == '(' then Ok(st + [Frame("", [])])
    else if c == ')' then
      if |st| == 1 then Err(TypeError)
      else Ok(AddChild(st[..|st| - 1], Clean(st[|st| - 1])))
    else
      var top := st[|st| - 1];
      Ok(st[..|st| - 1] + [top.(text := top.text + [c])])
  }

  function ScanFrom(st: seq<Frame>, s: string): (r: Result<seq<Frame>>)
    requires |st| >= 1
    ensures r.Ok? ==> |r.value| >= 1
    ensures r.Err? ==> r.error == TypeError
    decreases |s|
  {
    if |s| == 0 then Ok(st)
    else
      var next :- Step(st, s[0]);
      ScanFrom(next, s[1..])
  }

  /** `_buildTree(str)`: the first child of the innermost frame left open,
      if it has one. */
  function BuildTree(s: string): (r: Result<Option<Raw>>)
    ensures r.Err? ==> r.error == TypeError
  {
    var st :- ScanFrom([Frame("", [])], s);
    var top := st[|st| - 1];
    Ok(if |top.children| > 0 then Some(top.children[0]) else None)
  }

  /** Scanning a concatenation is scanning its halves in turn. */
  lemma {:induction false} ScanConcat(st: seq<Frame>, a: string, b: string)
    requires |st| >= 1
    ensures ScanFrom(st, a + b) ==
      match ScanFrom(st, a)
      case Ok(mid) => ScanFrom(mid, b)
      case Err(e) => Err(e)
    decreases |a|
  {
    if |a| > 0 {
      assert (a + b)[0] == a[0];
      assert (a + b)[1..] == a[1..] + b;
      var next := Step(st, a[0]);
      if next.Ok? {
        ScanConcat(next.value, a[1..], b);
      }
    } else {
      assert a + b == b;
    }
  }

  /** Text without brackets only grows the innermost frame's text. */
  lemma {:induction false} ScanText(st: seq<Frame>, w: string)
    requires |st| >= 1 && '(' !in w && ')' !in w
    ensures ScanFrom(st, w) ==
      Ok(st[..|st| - 1] + [st[|st| - 1].(text := st[|st| - 1].text + w)])
    decreases |w|
  {
    var top := st[|st| - 1];
    if |w| == 0 {
      assert top.(text := top.text + w) == top;
      assert st[..|st| - 1] + [top] == st;
    } else {
      var next := st[..|st| - 1] + [top.(text := top.text + [w[0]])];
      assert Step(st, w[0]) == Ok(next);
      assert w == [w[0]] + w[1..];
      ScanText(next, w[1..]);
      assert next[..|next| - 1] == st[..|st| - 1];
      assert top.text + [w[0]] + w[1..] == top.text + w;
    }
  }

  // ---------------------------------------------------------------------------
  // Rendering, and the round trip

  /** The bracketed text of a node's own tag and word. */
  function Label(t: Raw): string {
    if t.word.Some? then t.pos + " " + t.word.value else t.pos
  }

  /** The bracketed form of a node: tag, word, then the children. */
  function Bracketed(t: Raw): string {
    "(" + Label(t) + BracketedAll(t.children) + ")"
  }

  function BracketedAll(ts: seq<Raw>): string {
    if |ts| == 0 then "" else Bracketed(ts[0]) + BracketedAll(ts[1..])
  }

  predicate NoBrackets(s: string) {
    '(' !in s && ')' !in s
  }

  /** A node whose bracketed form reads back as itself: the tag is a
      non-empty run without spaces or brackets, and a word is non-empty,
      bracket-free and neither starts nor ends with a space. */
  predicate Printable(t: Raw) {
    |t.pos| > 0 && NoBrackets(t.pos) && (forall k :: 0 <= k < |t.pos| ==> !IsSpace(t.pos[k])) &&
    (t.word.Some? ==>
      |t.word.value| > 0 && NoBrackets(t.word.value) &&
      !IsSpace(t.word.value[0]) && !IsSpace(t.word.value[|t.word.value| - 1])) &&
    forall i :: 0 <= i < |t.children| ==> Printable(t.children[i])
  }

  /** Cleaning the label of a printable node gives back its tag and word. */
  lemma CleanLabel(t: Raw)
    requires Printable(t)
    ensures Clean(Frame(Label(t), t.children)) == t
  {
    var l := Label(t);
    assert l[0] == t.pos[0];
    TrimKeeps(l);
    assert ' ' !in t.pos by {
      assert forall k :: 0 <= k < |t.pos| ==> t.pos[k] != ' ';
    }
    if t.word.Some? {
      FirstSpace(t.pos, t.word.value);
    } else {
      assert l == t.pos;
    }
  }

  lemma ScanOpen(st: seq<Frame>)
    requires |st| >= 1
    ensures ScanFrom(st, "(") == Ok(st + [Frame("", [])])
  {
    assert Step(st, '(') == Ok(st + [Frame("", [])]);
    assert "("[1..] == "";
  }

  lemma ScanClose(st: seq<Frame>)
    requires |st| > 1
    ensures ScanFrom(st, ")") == Ok(AddChild(st[..|st| - 1], Clean(st[|st| - 1])))
  {
    assert ")"[1..] == "";
  }

  /** Opening a bracket and reading a label leaves one more frame, holding
      that label. */
  lemma {:induction false} ScanOpenLabel(st: seq<Frame>, l: string)
    requires |st| >= 1 && NoBrackets(l)
    ensures ScanFrom(st, "(" + l) == Ok(st + [Frame(l, [])])
  {
    var s1 := st + [Frame("", [])];
    ScanOpen(st);
    ScanText(s1, l);
    assert s1[..|s1| - 1] == st;
    assert Frame("", []).(text := "" + l) == Frame(l, []);
    ScanConcat(st, "(", l);
  }

  /** Scanning the bracketed form of a printable node attaches that node to
      the innermost frame. */
  lemma {:induction false} ScanBracketed(st: seq<Frame>, t: Raw)
    requires |st| >= 1 && Printable(t)
    ensures ScanFrom(st, Bracketed(t)) == Ok(AddChild(st, t))
    decreases t, 1
  {
    var x := "(" + Label(t) + BracketedAll(t.children);
    var s3 := st + [Frame(Label(t), t.children)];
    ScanUpToClose(st, t);
    ScanCloseNode(st, t);
    assert Bracketed(t) == x + ")";
    ScanConcat(st, x, ")");
  }

  /** Closing the frame of a printable node attaches the node. */
  lemma ScanCloseNode(st: seq<Frame>, t: Raw)
    requires |st| >= 1 && Printable(t)
    ensures ScanFrom(st + [Frame(Label(t), t.children)], ")") == Ok(AddChild(st, t))
  {
    var s3 := st + [Frame(Label(t), t.children)];
    assert s3[..|s3| - 1] == st;
    assert s3[|s3| - 1] == Frame(Label(t), t.children);
    CleanLabel(t);
    assert Clean(s3[|s3| - 1]) == t;
    ScanClose(s3);
  }

  /** Everything before the closing bracket leaves one more frame, holding
      the node's label and children. */
  lemma {:induction false} ScanUpToClose(st: seq<Frame>, t: Raw)
    requires |st| >= 1 && Printable(t)
    ensures ScanFrom(st, "(" + Label(t) + BracketedAll(t.children)) == Ok(st + [Frame(Label(t), t.children)])
    decreases t, 0
  {
    var l := Label(t);
    var s2 := st + [Frame(l, [])];
    ScanOpenLabel(st, l);
    ScanChildren(s2, t.children);
    assert s2[..|s2| - 1] == st;
    assert Frame(l, []).(children := [] + t.children) == Frame(l, t.children);
    ScanConcat(st, "(" + l, BracketedAll(t.children));
  }

  /** Scanning the bracketed forms of printable nodes attaches them, in
      order, to the innermost frame. */
  lemma {:induction false} ScanChildren(st: seq<Frame>, ts: seq<Raw>)
    requires |st| >= 1 && forall i :: 0 <= i < |ts| ==> Printable(ts[i])
    ensures ScanFrom(st, BracketedAll(ts)) ==
      Ok(st[..|st| - 1] + [st[|st| - 1].(children := st[|st| - 1].children + ts)])
    decreases ts, 0
  {
    var top := st[|st| - 1];
    if |ts| == 0 {
      assert top.(children := top.children + ts) == top;
      assert st[..|st| - 1] + [top] == st;
    } else {
      ScanBracketed(st, ts[0]);
      var next := AddChild(st, ts[0]);
      ScanChildren(next, ts[1..]);
      ScanConcat(st, Bracketed(ts[0]), BracketedAll(ts[1..]));
      assert top.children + [ts[0]] + ts[1..] == top.children + ts;
    }
  }

  /** The builder reads back any printable node from its bracketed form. */
  lemma BuildBracketed(t: Raw)
    requires Printable(t)
    ensures BuildTree(Bracketed(t)) == Ok(Some(t))
  {
    ScanBracketed([Frame("", [])], t);
  }

  /** Only the first tree of the input is kept: anything after it is
      scanned but dropped. */
  lemma BuildKeepsFirstTree(t: Raw, u: Raw)
    requires Printable(t) && Printable(u)
    ensures BuildTree(Bracketed(t) + Bracketed(u)) == Ok(Some(t))
  {
    var st := [Frame("", [])];
    ScanBracketed(st, t);
    ScanBracketed(AddChild(st, t), u);
    ScanConcat(st, Bracketed(t), Bracketed(u));
  }

  /** An outer bracket left open does not fail: the builder returns the
      first complete node inside it. */
  lemma BuildUnclosed(t: Raw)
    requires Printable(t)
    ensures BuildTree("(" + Bracketed(t)) == Ok(Some(t))
  {
    var st := [Frame("", [])];
    var s1 := st + [Frame("", [])];
    ScanOpen(st);
    ScanBracketed(s1, t);
    ScanConcat(st, "(", Bracketed(t));
  }

  /** A closing bracket with nothing open is an error. */
  lemma BuildUnbalanced(s: string)
    ensures BuildTree(")" + s).Err?
  {
    assert (")" + s)[0] == ')';
  }
}
