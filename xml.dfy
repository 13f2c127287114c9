/**
 * The generic XML tree the converter edits, and the few WordprocessingML
 * fragments it builds. The tree API (`getChild`, `visitSubtree`,
 * `pushChild`, `setAttr`, …) lives in an XML module that is not part of
 * this model; here a node is a value, traversals are pre-order walks, and
 * the OOXML builder helpers are given the shapes their names and call
 * sites describe.
 */
module Xml {
  import opened Wrappers
  import opened Strings

  datatype Node =
    | Element(tag: string, attrs: map<string, string>, children: seq<Node>)
    | Text(text: string)
    | Comment(comment: string)

  /** `XML.Node.build(tag)`. */
  function Build(tag: string): Node {
    Element(tag, map[], [])
  }

  predicate IsTag(n: Node, tag: string) {
    n.Element? && n.tag == tag
  }

  /** `getAttr(key)`: absent when the node has no such attribute. */
  function GetAttr(n: Node, key: string): Option<string> {
    if n.Element? && key in n.attrs then Some(n.attrs[key]) else None
  }

  /** `setAttr(key, value)`; setting `undefined` leaves the attribute absent. */
  function SetAttr(n: Node, key: string, value: Option<string>): (r: Node)
    ensures n.Element? ==> r.Element? && r.tag == n.tag && r.children == n.children
    ensures n.Element? ==> GetAttr(r, key) == value
    ensures forall k :: k != key ==> GetAttr(r, k) == GetAttr(n, k)
  {
    match n
    case Element(tag, attrs, cs) =>
      (match value
       case Some(v) => Element(tag, attrs[key := v], cs)
       case None => Element(tag, attrs - {key}, cs))
    case _ => n
  }

  /** `pushChild(c)` on an element. */
  function PushChild(n: Node, c: Node): Node {
    match n
    case Element(tag, attrs, cs) => Element(tag, attrs, cs + [c])
    case _ => n
  }

  /** `appendChildren(cs)` on an element. */
  function AppendChildren(n: Node, cs: seq<Node>): Node {
    match n
    case Element(tag, attrs, own) => Element(tag, attrs, own + cs)
    case _ => n
  }

  /** Appending twice is appending the concatenation. */
  lemma AppendChildrenTwice(n: Node, a: seq<Node>, b: seq<Node>)
    ensures AppendChildren(AppendChildren(n, a), b) == AppendChildren(n, a + b)
  {
    if n.Element? {
      assert n.children + a + b == n.children + (a + b);
    }
  }

  /** `removeChildren(tag)`: the element without its direct children with that tag. */
  function RemoveChildren(cs: seq<Node>, tag: string): (r: seq<Node>)
    ensures forall i :: 0 <= i < |r| ==> !IsTag(r[i], tag)
    ensures forall x :: x in r <==> x in cs && !IsTag(x, tag)
    ensures |r| <= |cs|
  {
    if |cs| == 0 then []
    else (if IsTag(cs[0], tag) then [] else [cs[0]]) + RemoveChildren(cs[1..], tag)
  }

  /** Removing children keeps the order of the others: it distributes over concatenation. */
  lemma {:induction false} RemoveChildrenAppend(a: seq<Node>, b: seq<Node>, tag: string)
    ensures RemoveChildren(a + b, tag) == RemoveChildren(a, tag) + RemoveChildren(b, tag)
  {
    if |a| > 0 {
      assert (a + b)[1..] == a[1..] + b;
      RemoveChildrenAppend(a[1..], b, tag);
    } else {
      assert a + b == b;
    }
  }

  /** No child before position `i` has the tag. */
  predicate NoneTaggedBefore(cs: seq<Node>, tag: string, i: nat)
    requires i <= |cs|
  {
    forall j :: 0 <= j < i ==> !IsTag(cs[j], tag)
  }

  /** `getChild(tag).pushChild(c)`: `c` is appended to the first direct child with that tag. */
  function PushIntoChild(cs: seq<Node>, tag: string, c: Node): (r: seq<Node>)
    ensures |r| == |cs|
    ensures forall i :: 0 <= i < |cs| && IsTag(cs[i], tag) && NoneTaggedBefore(cs, tag, i) ==>
              r[i] == PushChild(cs[i], c)
    ensures forall i :: 0 <= i < |cs| && !(IsTag(cs[i], tag) && NoneTaggedBefore(cs, tag, i)) ==> r[i] == cs[i]
  {
    if |cs| == 0 then []
    else if IsTag(cs[0], tag) then
      assert forall i :: 1 <= i < |cs| ==> !NoneTaggedBefore(cs, tag, i);
      [PushChild(cs[0], c)] + cs[1..]
    else
      var rest := PushIntoChild(cs[1..], tag, c);
      assert forall i :: 1 <= i < |cs| ==> (NoneTaggedBefore(cs, tag, i) <==> NoneTaggedBefore(cs[1..], tag, i - 1));
      [cs[0]] + rest
  }

  // ----- pre-order walks -----

  /** The number of nodes of a subtree (with one extra unit per child, for termination). */
  function Size(n: Node): nat
    decreases n
  {
    match n
    case Element(_, _, cs) => 1 + SizeSeq(cs)
    case _ => 1
  }

  function SizeSeq(cs: seq<Node>): nat
    decreases cs
  {
    if |cs| == 0 then 0 else Size(cs[0]) + 1 + SizeSeq(cs[1..])
  }

  /** Dropping children does not make a child list larger. */
  lemma {:induction false} RemoveChildrenSize(cs: seq<Node>, tag: string)
    ensures SizeSeq(RemoveChildren(cs, tag)) <= SizeSeq(cs)
  {
    if |cs| > 0 {
      RemoveChildrenSize(cs[1..], tag);
      if !IsTag(cs[0], tag) {
        assert RemoveChildren(cs, tag) == [cs[0]] + RemoveChildren(cs[1..], tag);
        assert ([cs[0]] + RemoveChildren(cs[1..], tag))[1..] == RemoveChildren(cs[1..], tag);
      } else {
        assert [] + RemoveChildren(cs[1..], tag) == RemoveChildren(cs[1..], tag);
        assert RemoveChildren(cs, tag) == RemoveChildren(cs[1..], tag);
      }
    }
  }


  /** The subtree of `n` in the order `visitSubtree` meets its nodes: `n` first, then each child's subtree. */
  function Flatten(n: Node): seq<Node>
    decreases n
  {
    match n
    case Element(_, _, cs) => [n] + FlattenSeq(cs)
    case _ => [n]
  }

  function FlattenSeq(cs: seq<Node>): seq<Node>
    decreases cs
  {
    if |cs| == 0 then [] else Flatten(cs[0]) + FlattenSeq(cs[1..])
  }

  lemma {:induction false} FlattenSeqAppend(a: seq<Node>, b: seq<Node>)
    ensures FlattenSeq(a + b) == FlattenSeq(a) + FlattenSeq(b)
  {
    if |a| == 0 {
      assert a + b == b;
    } else {
      assert (a + b)[1..] == a[1..] + b;
      FlattenSeqAppend(a[1..], b);
    }
  }

  /** The text content of a subtree: its text nodes, in document order (`getRawText`). */
  function RawText(n: Node): string
    decreases n
  {
    match n
    case Element(_, _, cs) => RawTextSeq(cs)
    case Text(t) => t
    case Comment(_) => ""
  }

  function RawTextSeq(cs: seq<Node>): string
    decreases cs
  {
    if |cs| == 0 then "" else RawText(cs[0]) + RawTextSeq(cs[1..])
  }

  /** The concatenated text of the text nodes of a flat node sequence. */
  function TextsOf(ns: seq<Node>): string {
    if |ns| == 0 then "" else (if ns[0].Text? then ns[0].text else "") + TextsOf(ns[1..])
  }

  lemma {:induction false} TextsOfAppend(a: seq<Node>, b: seq<Node>)
    ensures TextsOf(a + b) == TextsOf(a) + TextsOf(b)
  {
    if |a| == 0 {
      assert a + b == b;
    } else {
      assert (a + b)[1..] == a[1..] + b;
      TextsOfAppend(a[1..], b);
    }
  }

  /** The recursive text of a subtree is the text of its text nodes in pre-order. */
  lemma {:induction false} RawTextIsPreOrder(n: Node)
    ensures RawText(n) == TextsOf(Flatten(n))
    decreases n, 1
  {
    match n
    case Element(_, _, cs) =>
      RawTextSeqIsPreOrder(cs);
      TextsOfAppend([n], FlattenSeq(cs));
    case _ =>
  }

  lemma {:induction false} RawTextSeqIsPreOrder(cs: seq<Node>)
    ensures RawTextSeq(cs) == TextsOf(FlattenSeq(cs))
    decreases cs, 0
  {
    if |cs| > 0 {
      RawTextIsPreOrder(cs[0]);
      RawTextSeqIsPreOrder(cs[1..]);
      TextsOfAppend(Flatten(cs[0]), FlattenSeq(cs[1..]));
    }
  }

  /**
   * `getParagraphText`: the raw text of every `w:t` element of the subtree,
   * in pre-order (a `w:t` nested in another is met, and counted, twice).
   */
  function ParagraphText(n: Node): string
    decreases n
  {
    match n
    case Element(tag, _, cs) => (if tag == "w:t" then RawText(n) else "") + ParagraphTextSeq(cs)
    case _ => ""
  }

  function ParagraphTextSeq(cs: seq<Node>): string
    decreases cs
  {
    if |cs| == 0 then "" else ParagraphText(cs[0]) + ParagraphTextSeq(cs[1..])
  }

  /** The raw text of each `w:t` element of a flat node sequence, concatenated. */
  function RunTextsOf(ns: seq<Node>): string {
    if |ns| == 0 then "" else (if IsTag(ns[0], "w:t") then RawText(ns[0]) else "") + RunTextsOf(ns[1..])
  }

  lemma {:induction false} RunTextsOfAppend(a: seq<Node>, b: seq<Node>)
    ensures RunTextsOf(a + b) == RunTextsOf(a) + RunTextsOf(b)
  {
    if |a| == 0 {
      assert a + b == b;
    } else {
      assert (a + b)[0] == a[0] && (a + b)[1..] == a[1..] + b;
      RunTextsOfAppend(a[1..], b);
      var h := if IsTag(a[0], "w:t") then RawText(a[0]) else "";
      assert RunTextsOf(a + b) == h + RunTextsOf(a[1..] + b);
      assert RunTextsOf(a) == h + RunTextsOf(a[1..]);
    }
  }

  /** A paragraph's text is the text of its `w:t` elements in pre-order. */
  lemma {:induction false} ParagraphTextIsPreOrder(n: Node)
    ensures ParagraphText(n) == RunTextsOf(Flatten(n))
    decreases n, 1
  {
    match n
    case Element(_, _, cs) =>
      ParagraphTextSeqIsPreOrder(cs);
      RunTextsOfAppend([n], FlattenSeq(cs));
    case _ =>
  }

  lemma {:induction false} ParagraphTextSeqIsPreOrder(cs: seq<Node>)
    ensures ParagraphTextSeq(cs) == RunTextsOf(FlattenSeq(cs))
    decreases cs, 0
  {
    if |cs| > 0 {
      ParagraphTextIsPreOrder(cs[0]);
      ParagraphTextSeqIsPreOrder(cs[1..]);
      RunTextsOfAppend(Flatten(cs[0]), FlattenSeq(cs[1..]));
    }
  }

  /** `getRawText`: the walk appends each text node's value to `result`. */
  method GetRawText(n: Node) returns (result: string)
    ensures result == RawText(n)
    decreases n
  {
    match n {
      case Text(t) =>
        result := t;
      case Comment(_) =>
        result := "";
      case Element(_, _, cs) =>
        result := "";
        var i := 0;
        while i < |cs|
          invariant 0 <= i <= |cs|
          invariant result + RawTextSeq(cs[i..]) == RawTextSeq(cs)
        {
          var t := GetRawText(cs[i]);
          assert cs[i..][1..] == cs[i + 1..];
          result := result + t;
          i := i + 1;
        }
    }
  }

  /** `getParagraphText`: the walk appends the raw text of each `w:t` element to `result`. */
  method GetParagraphText(n: Node) returns (result: string)
    ensures result == ParagraphText(n)
    decreases n
  {
    result := "";
    if n.Element? {
      if n.tag == "w:t" {
        result := GetRawText(n);
      }
      var cs := n.children;
      var i := 0;
      while i < |cs|
        invariant 0 <= i <= |cs|
        invariant result + ParagraphTextSeq(cs[i..]) == ParagraphText(n)
      {
        var t := GetParagraphText(cs[i]);
        assert cs[i..][1..] == cs[i + 1..];
        result := result + t;
        i := i + 1;
      }
    }
  }

  // ----- WordprocessingML fragments -----

  /** `buildTextTag(text)`: a `w:t` holding the text, white space preserved. */
  function TextTag(text: string): Node {
    Element("w:t", map["xml:space" := "preserve"], [Text(text)])
  }

  /**
   * `buildRawTag(text, styles)` / `buildParagraphTextTag(text, styles)`: a run
   * `w:r`, with the run properties `w:rPr` when styles are given, holding one
   * `w:t`.
   */
  function RunTag(text: string, styles: seq<Node>): Node {
    Element("w:r", map[], (if |styles| == 0 then [] else [Element("w:rPr", map[], styles)]) + [TextTag(text)])
  }

  /** `buildSuperscriptTextStyle()`. */
  function Superscript(): Node {
    Element("w:vertAlign", map["w:val" := "superscript"], [])
  }

  /** `buildLineBreak()`. */
  function LineBreak(): Node {
    Build("w:br")
  }

  /** `buildParagraphWithStyle(styleId)`: a `w:p` whose `w:pPr` holds one `w:pStyle`. */
  function ParagraphWithStyle(styleId: Option<string>): Node {
    Element("w:p", map[], [Element("w:pPr", map[], [SetAttr(Build("w:pStyle"), "w:val", styleId)])])
  }

  /** `buildNumPr(ilvl, numId)`: list level and numbering id of a paragraph. */
  function NumPr(ilvl: string, numId: Option<string>): Node {
    Element("w:numPr", map[], [SetAttr(Build("w:ilvl"), "w:val", Some(ilvl)), SetAttr(Build("w:numId"), "w:val", numId)])
  }

  /** `paragraph.getChild("w:pPr").pushChild(c)`. */
  function AddProperty(p: Node, c: Node): Node {
    match p
    case Element(tag, attrs, cs) => Element(tag, attrs, PushIntoChild(cs, "w:pPr", c))
    case _ => p
  }

  /** A run built from a text, with or without a superscript, reads as that text. */
  lemma RunTagText(text: string, styles: seq<Node>)
    requires forall i :: 0 <= i < |styles| ==> ParagraphText(styles[i]) == ""
    ensures ParagraphText(RunTag(text, styles)) == text
  {
    var t := TextTag(text);
    assert RawTextSeq([Text(text)]) == text + RawTextSeq([]);
    assert ParagraphTextSeq([Text(text)]) == "";
    assert ParagraphText(t) == text;
    assert ParagraphTextSeq([t]) == ParagraphText(t) + ParagraphTextSeq([]);
    if |styles| > 0 {
      var rpr := Element("w:rPr", map[], styles);
      ParagraphTextSeqEmpty(styles);
      assert ParagraphText(rpr) == "";
      assert [rpr] + [t] == [rpr, t];
      assert [rpr, t][1..] == [t];
    } else {
      assert RunTag(text, styles).children == [t];
    }
  }

  lemma {:induction false} ParagraphTextSeqEmpty(cs: seq<Node>)
    requires forall i :: 0 <= i < |cs| ==> ParagraphText(cs[i]) == ""
    ensures ParagraphTextSeq(cs) == ""
  {
    if |cs| > 0 {
      ParagraphTextSeqEmpty(cs[1..]);
    }
  }

  lemma {:induction false} ParagraphTextSeqAppend(a: seq<Node>, b: seq<Node>)
    ensures ParagraphTextSeq(a + b) == ParagraphTextSeq(a) + ParagraphTextSeq(b)
  {
    if |a| == 0 {
      assert a + b == b;
    } else {
      assert (a + b)[1..] == a[1..] + b;
      ParagraphTextSeqAppend(a[1..], b);
    }
  }

  // ----- attribute rewrites over a whole subtree -----

  /** An edit of one element's attributes, given its tag. */
  type AttrEdit = (string, map<string, string>) -> map<string, string>

  /**
   * A `visitSubtree` walk whose callback only changes the attributes of the
   * node it visits: every element of the subtree gets `f(tag, attrs)`.
   */
  function Rewrite(n: Node, f: AttrEdit): Node
    decreases n
  {
    match n
    case Element(tag, attrs, cs) =>
      Element(tag, f(tag, attrs), seq(|cs|, i requires 0 <= i < |cs| => Rewrite(cs[i], f)))
    case _ => n
  }

  /** What a node carries besides its children. */
  function Shallow(n: Node): Node {
    match n
    case Element(tag, attrs, _) => Element(tag, attrs, [])
    case _ => n
  }

  /** The edit applied to a node's own attributes. */
  function RewriteShallow(n: Node, f: AttrEdit): Node {
    match n
    case Element(tag, attrs, _) => Element(tag, f(tag, attrs), [])
    case _ => n
  }

  /**
   * The walk visits every node once, in pre-order, and changes only that
   * node's attributes: node for node, the rewritten subtree is the edit of
   * each node of the original.
   */
  lemma {:induction false} RewritePreOrder(n: Node, f: AttrEdit)
    ensures |Flatten(Rewrite(n, f))| == |Flatten(n)|
    ensures forall i :: 0 <= i < |Flatten(n)| ==>
              Shallow(Flatten(Rewrite(n, f))[i]) == RewriteShallow(Flatten(n)[i], f)
    decreases n, 1
  {
    match n
    case Element(tag, attrs, cs) =>
      var cs' := seq(|cs|, i requires 0 <= i < |cs| => Rewrite(cs[i], f));
      RewriteSeqPreOrder(cs, cs', f);
      assert Flatten(Rewrite(n, f)) == [Rewrite(n, f)] + FlattenSeq(cs');
    case _ =>
  }

  lemma {:induction false} RewriteSeqPreOrder(cs: seq<Node>, cs': seq<Node>, f: AttrEdit)
    requires |cs'| == |cs| && forall i :: 0 <= i < |cs| ==> cs'[i] == Rewrite(cs[i], f)
    ensures |FlattenSeq(cs')| == |FlattenSeq(cs)|
    ensures forall i :: 0 <= i < |FlattenSeq(cs)| ==> Shallow(FlattenSeq(cs')[i]) == RewriteShallow(FlattenSeq(cs)[i], f)
    decreases cs, 0
  {
    if |cs| > 0 {
      RewritePreOrder(cs[0], f);
      RewriteSeqPreOrder(cs[1..], cs'[1..], f);
      var a, b := Flatten(cs[0]), FlattenSeq(cs[1..]);
      var a', b' := Flatten(cs'[0]), FlattenSeq(cs'[1..]);
      assert FlattenSeq(cs) == a + b && FlattenSeq(cs') == a' + b';
      forall i | 0 <= i < |a| + |b|
        ensures Shallow((a' + b')[i]) == RewriteShallow((a + b)[i], f)
      {
        if i >= |a| {
          assert (a' + b')[i] == b'[i - |a|] && (a + b)[i] == b[i - |a|];
        }
      }
    }
  }
}
