/**
 * Body generation: the Markdown tree is walked by a context that keeps a
 * stack of the WordprocessingML elements being filled and a stack of the
 * numberings of the enclosing lists, and every visited node appends its
 * paragraphs, runs, tables or list items to the element on top. Lists
 * register a new numbering (`w:num`) in the document's numbering part.
 *
 * Also the paragraphs built from the front matter: authors with the
 * positions of their organizations, organizations, literature links and
 * author details, and the order in which the template placeholders are
 * substituted.
 *
 * An element is filled while it is on top of the node stack and is
 * appended to the element below when it is popped. The original appends it
 * to its parent first and fills it through the shared reference; both give
 * the same tree, because nothing is appended to the parent while the child
 * is on top.
 */
module Generator {
  import opened Wrappers
  import opened Strings
  import opened Xml
  import opened JsonMeta
  import Md = Markdown
  import Templates

  // ----- numbering -----

  /** The numbering of a list: the `w:num` id and the paragraph style of its items. */
  datatype NumberingStyle = NumberingStyle(numId: string, styleId: string)

  /** Ordered lists restart abstract numbering 33 with style `ispNumList`. */
  const DecimalNumbering: NumberingStyle := NumberingStyle("33", "ispNumList")

  /** Bullet lists restart abstract numbering 43 with style `ispList1`. */
  const BulletNumbering: NumberingStyle := NumberingStyle("43", "ispList1")

  /** A `w:num`: its id, its abstract numbering, and the start value overridden at one level. */
  datatype Num = Num(numId: string, abstractNumId: string, overrideLevel: nat, startOverride: string)

  /** The ids "1" … "k-1". */
  ghost function Tried(k: nat): set<string>
  {
    if k <= 1 then {} else Tried(k - 1) + {NatToString(k - 1)}
  }

  lemma {:induction false} NotTried(k: nat, m: nat)
    requires m >= k
    ensures NatToString(m) !in Tried(k)
  {
    if k > 1 {
      NotTried(k - 1, m);
      if NatToString(k - 1) == NatToString(m) {
        NatToStringInjective(k - 1, m);
      }
    }
  }

  /** The first of "k", "k+1", … that is not an id of the numbering part. */
  function FirstUnusedFrom(nums: map<string, Num>, k: nat): (id: string)
    requires k >= 1 && Tried(k) <= nums.Keys
    ensures id !in nums
    decreases |nums.Keys - Tried(k)|
  {
    if NatToString(k) !in nums then NatToString(k)
    else
      NotTried(k, k);
      assert nums.Keys - Tried(k + 1) == (nums.Keys - Tried(k)) - {NatToString(k)};
      FirstUnusedFrom(nums, k + 1)
  }

  /**
   * `getUnusedNumId()`: the numbering module is not part of this model; the
   * smallest positive decimal id not in use is taken.
   */
  function UnusedNumId(nums: map<string, Num>): (id: string)
    ensures id !in nums
  {
    FirstUnusedFrom(nums, 1)
  }

  /** What `createNumbering` returns and leaves in the numbering part. */
  function NewNum(nums: map<string, Num>, abstractId: string, depth: nat, start: string): (r: (string, map<string, Num>))
    ensures r.0 !in nums && r.1.Keys == nums.Keys + {r.0}
    ensures r.1[r.0] == Num.Num(r.0, abstractId, depth, start)
    ensures forall id :: id in nums ==> r.1[id] == nums[id]
  {
    var id := UnusedNumId(nums);
    (id, nums[id := Num.Num(id, abstractId, depth, start)])
  }

  /** `String(node.start)`: a list without a start value (a bullet list) has `null`. */
  function StartText(start: Option<int>): string {
    match start
    case None => "null"
    case Some(k) => if k >= 0 then NatToString(k) else "-" + NatToString(-k)
  }

  /** The numbering part of the document (`numbering.resource.nums`). */
  class Numbering {
    var nums: map<string, Num>

    constructor (entries: map<string, Num>)
      ensures nums == entries
    {
      nums := entries;
    }

    /** `getUnusedNumId()`, by trying "1", "2", … in turn. */
    method GetUnusedNumId() returns (id: string)
      ensures id == UnusedNumId(nums)
    {
      var k := 1;
      while NatToString(k) in nums
        invariant k >= 1 && Tried(k) <= nums.Keys
        invariant FirstUnusedFrom(nums, k) == UnusedNumId(nums)
        decreases |nums.Keys - Tried(k)|
      {
        NotTried(k, k);
        assert nums.Keys - Tried(k + 1) == (nums.Keys - Tried(k)) - {NatToString(k)};
        k := k + 1;
      }
      id := NatToString(k);
    }
  }

  /**
   * `createNumbering`: a new `w:num` under an unused id, pointing at the
   * abstract numbering and restarting level `depth` at `start`.
   */
  method CreateNumbering(numbering: Numbering, abstractId: string, depth: nat, start: string) returns (numId: string)
    modifies numbering
    ensures (numId, numbering.nums) == NewNum(old(numbering.nums), abstractId, depth, start)
  {
    numId := numbering.GetUnusedNumId();
    numbering.nums := numbering.nums[numId := Num.Num(numId, abstractId, depth, start)];
  }

  // ----- the body -----

  /** `getStyleByName(name).getId()` of the document's styles. */
  type StyleIds = string -> string

  const MainTextStyle: string := "ispText_main"
  const ListingStyle: string := "ispListing"
  const ListingCharStyle: string := "ispListing \U{0417}\U{043d}\U{0430}\U{043a}"
  const TableStyle: string := "Table Grid"
  const HeadingStyles: seq<string> := ["ispSubHeader-1 level", "ispSubHeader-2 level", "ispSubHeader-3 level"]

  /** mdast headings have a depth of at least 1. */
  predicate WellFormed(n: Md.Node)
    decreases n
  {
    match n
    case Parent(kind, cs, _) =>
      (kind.Heading? ==> kind.depth >= 1) && forall i :: 0 <= i < |cs| ==> WellFormed(cs[i])
    case _ => true
  }

  /** The heading style: depths past the last heading style use the last. */
  function HeadingStyleName(depth: int): (name: string)
    requires depth >= 1
    ensures name == "ispSubHeader-" + NatToString(if depth > 3 then 3 else depth) + " level"
  {
    var level := if depth > |HeadingStyles| then |HeadingStyles| else depth;
    HeadingStyles[level - 1]
  }

  /** `w:pStyle` naming a paragraph style. */
  function PStyle(styleId: string): Node {
    SetAttr(Build("w:pStyle"), "w:val", Some(styleId))
  }

  /**
   * A paragraph of running text: inside a list, the list's item style and
   * its numbering at the list's nesting level; outside, `ispText_main`.
   */
  function ParagraphFor(stack: seq<NumberingStyle>, styles: StyleIds): Node {
    if |stack| > 0 then
      var top := stack[|stack| - 1];
      AddProperty(ParagraphWithStyle(Some(top.styleId)), NumPr(NatToString(|stack| - 1), Some(top.numId)))
    else ParagraphWithStyle(Some(styles(MainTextStyle)))
  }

  /** The children of a code block's run: the lines, separated by line breaks. */
  function CodeLines(lines: seq<string>): (r: seq<Node>)
    ensures |lines| == 0 ==> r == []
    ensures |lines| > 0 ==> |r| == 2 * |lines| - 1
    ensures forall i :: 0 <= i < |lines| ==> r[2 * i] == TextTag(lines[i])
    ensures forall i :: 0 <= i < |lines| - 1 ==> r[2 * i + 1] == LineBreak()
  {
    if |lines| == 0 then []
    else
      var init := CodeLines(lines[..|lines| - 1]);
      (if |init| > 0 then init + [LineBreak()] else init) + [TextTag(lines[|lines| - 1])]
  }

  /** Exactly the odd positions of a code run hold line breaks. */
  lemma CodeBreaksAtOddPositions(lines: seq<string>)
    ensures forall j :: 0 <= j < |CodeLines(lines)| ==> (CodeLines(lines)[j] == LineBreak() <==> j % 2 == 1)
  {
    var r := CodeLines(lines);
    forall j | 0 <= j < |r|
      ensures r[j] == LineBreak() <==> j % 2 == 1
    {
      var i := j / 2;
      if j % 2 == 0 {
        assert j == 2 * i && r[2 * i] == TextTag(lines[i]);
      } else {
        assert j == 2 * i + 1 && i < |lines| - 1;
        assert r[2 * i + 1] == LineBreak();
      }
    }
  }

  /** The run `w:r` of a code block. */
  function CodeRun(value: string): Node {
    Element("w:r", map[], CodeLines(Split(value, '\n')))
  }

  /** `w:tbl` with its table properties naming the table style. */
  function TableElement(styles: StyleIds): Node {
    Element("w:tbl", map[], [Element("w:tPr", map[], [SetAttr(Build("w:tblStyle"), "w:val", Some(styles(TableStyle)))])])
  }

  /** What a visit appends to the current element, and the numbering part after it. */
  datatype Output = Output(nodes: seq<Node>, nums: map<string, Num>)

  /**
   * The visit of one Markdown node, given the enclosing lists' numberings.
   * Nodes without a visitor, and the visitors that do nothing, add nothing.
   */
  function Block(n: Md.Node, stack: seq<NumberingStyle>, nums: map<string, Num>, styles: StyleIds): (r: Output)
    requires WellFormed(n)
    ensures nums.Keys <= r.nums.Keys
    ensures forall id :: id in nums ==> r.nums[id] == nums[id]
    decreases n, 1
  {
    match n
    case Parent(kind, cs, _) =>
      (match kind
       case Paragraph =>
         var inner := Children(n, |cs|, stack, nums, styles);
         Output([AppendChildren(ParagraphFor(stack, styles), inner.nodes)], inner.nums)
       case Heading(depth, _) =>
         var inner := Children(n, |cs|, stack, nums, styles);
         Output([AppendChildren(ParagraphWithStyle(Some(styles(HeadingStyleName(depth)))), inner.nodes)], inner.nums)
       case Table =>
         var inner := Children(n, |cs|, stack, nums, styles);
         Output([AppendChildren(TableElement(styles), inner.nodes)], inner.nums)
       case TableRow =>
         var inner := Children(n, |cs|, stack, nums, styles);
         Output([AppendChildren(Build("w:tr"), inner.nodes)], inner.nums)
       case TableCell =>
         var inner := Children(n, |cs|, stack, nums, styles);
         var paragraph := AppendChildren(ParagraphWithStyle(Some(styles(MainTextStyle))), inner.nodes);
         Output([Element("w:tc", map[], [paragraph])], inner.nums)
       case ListItem =>
         Children(n, |cs|, stack, nums, styles)
       case List(ordered, start) =>
         var style := if ordered then DecimalNumbering else BulletNumbering;
         var created := NewNum(nums, style.numId, |stack|, StartText(start));
         Children(n, |cs|, stack + [NumberingStyle(created.0, style.styleId)], created.1, styles)
       case _ => Output([], nums))
    case Text(value, _) =>
      Output([RunTag(value, [])], nums)
    case Code(value, _) =>
      Output([PushChild(ParagraphWithStyle(Some(styles(ListingStyle))), CodeRun(value))], nums)
    case InlineCode(value, _) =>
      Output([RunTag(value, [SetAttr(Build("w:rStyle"), "w:val", Some(styles(ListingCharStyle)))])], nums)
    case _ => Output([], nums)
  }

  /** The visits of the first `k` children of `n`, in order. */
  function Children(n: Md.Node, k: nat, stack: seq<NumberingStyle>, nums: map<string, Num>, styles: StyleIds): (r: Output)
    requires n.Parent? && WellFormed(n) && k <= |n.children|
    ensures nums.Keys <= r.nums.Keys
    ensures forall id :: id in nums ==> r.nums[id] == nums[id]
    decreases n, 0, k
  {
    if k == 0 then Output([], nums)
    else
      var before := Children(n, k - 1, stack, nums, styles);
      var last := Block(n.children[k - 1], stack, before.nums, styles);
      Output(before.nodes + last.nodes, last.nums)
  }

  // ----- what the body visitors promise -----

  /** The properties (`w:pPr` children) of a paragraph. */
  function Properties(p: Node): seq<Node> {
    if p.Element? && |p.children| > 0 && p.children[0].Element? then p.children[0].children else []
  }

  /**
   * A paragraph inside a list takes the innermost list's style and numbering
   * at level (number of enclosing lists - 1); outside a list it takes
   * `ispText_main` and has no numbering.
   */
  lemma ParagraphNumbering(n: Md.Node, stack: seq<NumberingStyle>, nums: map<string, Num>, styles: StyleIds)
    requires n.Parent? && n.kind.Paragraph? && WellFormed(n)
    ensures |Block(n, stack, nums, styles).nodes| == 1
    ensures IsTag(Block(n, stack, nums, styles).nodes[0], "w:p")
    ensures |stack| > 0 ==>
      Properties(Block(n, stack, nums, styles).nodes[0]) ==
        [PStyle(stack[|stack| - 1].styleId), NumPr(NatToString(|stack| - 1), Some(stack[|stack| - 1].numId))]
    ensures |stack| == 0 ==> Properties(Block(n, stack, nums, styles).nodes[0]) == [PStyle(styles(MainTextStyle))]
  {
    var p := ParagraphFor(stack, styles);
    if |stack| > 0 {
      assert p.children == [Element("w:pPr", map[], [PStyle(stack[|stack| - 1].styleId)] + [NumPr(NatToString(|stack| - 1), Some(stack[|stack| - 1].numId))])];
    }
  }

  /**
   * A code block of n lines is one listing paragraph holding one run with
   * the n lines, line breaks exactly between them.
   */
  lemma CodeBlockLines(n: Md.Node, stack: seq<NumberingStyle>, nums: map<string, Num>, styles: StyleIds)
    requires n.Code?
    ensures var out := Block(n, stack, nums, styles).nodes;
            var lines := Split(n.value, '\n');
            |out| == 1 && Properties(out[0]) == [PStyle(styles(ListingStyle))] &&
            |out[0].children| == 2 && IsTag(out[0].children[1], "w:r") &&
            |out[0].children[1].children| == 2 * |lines| - 1 &&
            out[0].children[1].children[0] == TextTag(lines[0]) &&
            (forall i :: 0 <= i < |lines| ==> out[0].children[1].children[2 * i] == TextTag(lines[i])) &&
            (forall j :: 0 <= j < |out[0].children[1].children| ==>
               (out[0].children[1].children[j] == LineBreak() <==> j % 2 == 1))
  {
    CodeBreaksAtOddPositions(Split(n.value, '\n'));
  }

  /** A heading paragraph uses the sub-header style of its depth, at most 3. */
  lemma HeadingParagraph(n: Md.Node, stack: seq<NumberingStyle>, nums: map<string, Num>, styles: StyleIds)
    requires n.Parent? && n.kind.Heading? && WellFormed(n)
    ensures var out := Block(n, stack, nums, styles).nodes;
            |out| == 1 && IsTag(out[0], "w:p") &&
            Properties(out[0]) == [PStyle(styles("ispSubHeader-" + NatToString(if n.kind.depth > 3 then 3 else n.kind.depth) + " level"))]
  {
  }

  /**
   * A list registers one new numbering under an id not used before, for its
   * abstract numbering, restarting at its own nesting level from its start value.
   */
  lemma ListRegistersNumbering(n: Md.Node, stack: seq<NumberingStyle>, nums: map<string, Num>, styles: StyleIds) returns (id: string)
    requires n.Parent? && n.kind.List? && WellFormed(n)
    ensures id !in nums && id in Block(n, stack, nums, styles).nums
    ensures Block(n, stack, nums, styles).nums[id] ==
            Num.Num(id, if n.kind.ordered then "33" else "43", |stack|, StartText(n.kind.start))
  {
    var style := if n.kind.ordered then DecimalNumbering else BulletNumbering;
    var created := NewNum(nums, style.numId, |stack|, StartText(n.kind.start));
    id := created.0;
  }

  /** A table cell is one `w:tc` wrapping one `ispText_main` paragraph that holds the cell's output. */
  lemma TableCellParagraph(n: Md.Node, stack: seq<NumberingStyle>, nums: map<string, Num>, styles: StyleIds)
    requires n.Parent? && n.kind.TableCell? && WellFormed(n)
    ensures var out := Block(n, stack, nums, styles).nodes;
            var inner := Children(n, |n.children|, stack, nums, styles).nodes;
            |out| == 1 && IsTag(out[0], "w:tc") && |out[0].children| == 1 &&
            IsTag(out[0].children[0], "w:p") && Properties(out[0].children[0]) == [PStyle(styles(MainTextStyle))] &&
            out[0].children[0].children[1..] == inner
  {
    var inner := Children(n, |n.children|, stack, nums, styles).nodes;
    var p := AppendChildren(ParagraphWithStyle(Some(styles(MainTextStyle))), inner);
    assert p.children[1..] == inner;
  }

  /** A table row is one `w:tr` holding the rows' cells as its children. */
  lemma TableRowCells(n: Md.Node, stack: seq<NumberingStyle>, nums: map<string, Num>, styles: StyleIds)
    requires n.Parent? && n.kind.TableRow? && WellFormed(n)
    ensures var out := Block(n, stack, nums, styles).nodes;
            |out| == 1 && IsTag(out[0], "w:tr") &&
            out[0].children == Children(n, |n.children|, stack, nums, styles).nodes
  {
    assert [] + Children(n, |n.children|, stack, nums, styles).nodes == Children(n, |n.children|, stack, nums, styles).nodes;
  }

  /** A table is one `w:tbl` whose properties name the `Table Grid` style, followed by its rows. */
  lemma TableStyled(n: Md.Node, stack: seq<NumberingStyle>, nums: map<string, Num>, styles: StyleIds)
    requires n.Parent? && n.kind.Table? && WellFormed(n)
    ensures var out := Block(n, stack, nums, styles).nodes;
            |out| == 1 && IsTag(out[0], "w:tbl") && |out[0].children| >= 1 &&
            out[0].children[0] == Element("w:tPr", map[], [SetAttr(Build("w:tblStyle"), "w:val", Some(styles(TableStyle)))]) &&
            out[0].children[1..] == Children(n, |n.children|, stack, nums, styles).nodes
  {
    var inner := Children(n, |n.children|, stack, nums, styles).nodes;
    assert AppendChildren(TableElement(styles), inner).children[1..] == inner;
  }

  /** A text becomes one run without properties that reads as the text. */
  lemma TextRun(n: Md.Node, stack: seq<NumberingStyle>, nums: map<string, Num>, styles: StyleIds)
    requires n.Text?
    ensures var out := Block(n, stack, nums, styles).nodes;
            |out| == 1 && IsTag(out[0], "w:r") && out[0].children == [TextTag(n.value)] &&
            ParagraphText(out[0]) == n.value
  {
    RunTagText(n.value, []);
  }

  /** Inline code becomes one run styled with the character style of listings, reading as the code. */
  lemma InlineCodeRun(n: Md.Node, stack: seq<NumberingStyle>, nums: map<string, Num>, styles: StyleIds)
    requires n.InlineCode?
    ensures var out := Block(n, stack, nums, styles).nodes;
            |out| == 1 && IsTag(out[0], "w:r") &&
            out[0].children[0] == Element("w:rPr", map[], [SetAttr(Build("w:rStyle"), "w:val", Some(styles(ListingCharStyle)))]) &&
            GetAttr(out[0].children[0].children[0], "w:val") == Some(styles("ispListing \U{0417}\U{043d}\U{0430}\U{043a}")) &&
            ParagraphText(out[0]) == n.value
  {
    var style := SetAttr(Build("w:rStyle"), "w:val", Some(styles(ListingCharStyle)));
    assert ParagraphTextSeq(style.children) == "";
    RunTagText(n.value, [style]);
  }

  // ----- the generation context -----

  /** An element being filled; a table cell's paragraph is wrapped in its `w:tc` when it is closed. */
  datatype Frame = Frame(node: Node, cell: bool)

  /** The element a frame leaves behind when it is popped. */
  function Close(f: Frame): Node {
    if f.cell then Element("w:tc", map[], [f.node]) else f.node
  }

  /** The stack with nodes appended to the element on top. */
  function Extend(stack: seq<Frame>, nodes: seq<Node>): (r: seq<Frame>)
    requires |stack| > 0
    ensures |r| == |stack| && r[..|r| - 1] == stack[..|stack| - 1]
  {
    var top := stack[|stack| - 1];
    stack[|stack| - 1 := Frame(AppendChildren(top.node, nodes), top.cell)]
  }

  lemma ExtendTwice(stack: seq<Frame>, a: seq<Node>, b: seq<Node>)
    requires |stack| > 0
    ensures Extend(Extend(stack, a), b) == Extend(stack, a + b)
  {
    AppendChildrenTwice(stack[|stack| - 1].node, a, b);
  }

  lemma ExtendNothing(stack: seq<Frame>)
    requires |stack| > 0
    ensures Extend(stack, []) == stack
  {
    var top := stack[|stack| - 1];
    if top.node.Element? {
      assert top.node.children + [] == top.node.children;
    }
  }

  /** `GenerationContext`: the node stack, the numbering stack and the document it writes to. */
  class GenerationContext {
    var nodeStack: seq<Frame>
    var numberingStack: seq<NumberingStyle>
    const numbering: Numbering
    const styles: StyleIds

    constructor (numbering: Numbering, styles: StyleIds)
      ensures this.numbering == numbering && this.styles == styles
      ensures nodeStack == [] && numberingStack == []
    {
      this.numbering := numbering;
      this.styles := styles;
      nodeStack := [];
      numberingStack := [];
    }

    /** `getCurrentNode()`. */
    function CurrentNode(): Node
      reads this
      requires |nodeStack| > 0
    {
      nodeStack[|nodeStack| - 1].node
    }

    /** `getCurrentNode().pushChild(c)`. */
    method PushChildToCurrent(c: Node)
      requires |nodeStack| > 0
      modifies this
      ensures nodeStack == Extend(old(nodeStack), [c])
      ensures numberingStack == old(numberingStack)
    {
      var top := nodeStack[|nodeStack| - 1];
      assert AppendChildren(top.node, [c]) == PushChild(top.node, c);
      nodeStack := nodeStack[|nodeStack| - 1 := Frame(PushChild(top.node, c), top.cell)];
    }

    /** `pushNode(node)`. */
    method PushNode(node: Node, cell: bool)
      modifies this
      ensures nodeStack == old(nodeStack) + [Frame(node, cell)]
      ensures numberingStack == old(numberingStack)
    {
      nodeStack := nodeStack + [Frame(node, cell)];
    }

    /** `popNode()`: the finished element is appended to the one below it. */
    method PopNode()
      requires |nodeStack| >= 2
      modifies this
      ensures nodeStack == Extend(old(nodeStack)[..|old(nodeStack)| - 1], [Close(old(nodeStack)[|old(nodeStack)| - 1])])
      ensures numberingStack == old(numberingStack)
    {
      var top := nodeStack[|nodeStack| - 1];
      nodeStack := nodeStack[..|nodeStack| - 1];
      PushChildToCurrent(Close(top));
    }

    /** `pushNumberingStyle(style)`. */
    method PushNumberingStyle(style: NumberingStyle)
      modifies this
      ensures numberingStack == old(numberingStack) + [style]
      ensures nodeStack == old(nodeStack)
    {
      numberingStack := numberingStack + [style];
    }

    /** `popNumberingStyle()`. */
    method PopNumberingStyle()
      requires |numberingStack| > 0
      modifies this
      ensures numberingStack == old(numberingStack)[..|old(numberingStack)| - 1]
      ensures nodeStack == old(nodeStack)
    {
      numberingStack := numberingStack[..|numberingStack| - 1];
    }

    /**
     * `visit(element)`: the visitor of the node's type appends its output to
     * the current element; both stacks are as before.
     */
    method Visit(n: Md.Node)
      requires WellFormed(n) && |nodeStack| > 0
      modifies this, numbering
      ensures numberingStack == old(numberingStack)
      ensures nodeStack == Extend(old(nodeStack), Block(n, old(numberingStack), old(numbering.nums), styles).nodes)
      ensures numbering.nums == Block(n, old(numberingStack), old(numbering.nums), styles).nums
      decreases n, 1
    {
      match n {
        case Parent(kind, cs, _) =>
          match kind {
            case Paragraph =>
              var paragraph := ParagraphFor(numberingStack, styles);
              Enclose(n, paragraph, false);
            case Heading(depth, _) =>
              var paragraph := ParagraphWithStyle(Some(styles(HeadingStyleName(depth))));
              Enclose(n, paragraph, false);
            case Table =>
              Enclose(n, TableElement(styles), false);
            case TableRow =>
              Enclose(n, Build("w:tr"), false);
            case TableCell =>
              Enclose(n, ParagraphWithStyle(Some(styles(MainTextStyle))), true);
            case ListItem =>
              VisitChildren(n);
            case List(ordered, start) =>
              var style := if ordered then DecimalNumbering else BulletNumbering;
              var numId := CreateNumbering(numbering, style.numId, |numberingStack|, StartText(start));
              PushNumberingStyle(NumberingStyle(numId, style.styleId));
              VisitChildren(n);
              PopNumberingStyle();
            case _ =>
              ExtendNothing(nodeStack);
          }
        case Text(value, _) =>
          PushChildToCurrent(RunTag(value, []));
        case Code(value, _) =>
          var run := BuildCodeRun(Split(value, '\n'));
          PushChildToCurrent(PushChild(ParagraphWithStyle(Some(styles(ListingStyle))), run));
        case InlineCode(value, _) =>
          PushChildToCurrent(RunTag(value, [SetAttr(Build("w:rStyle"), "w:val", Some(styles(ListingCharStyle)))]));
        case _ =>
          ExtendNothing(nodeStack);
      }
    }

    /** The shared shape of the visitors that open an element, visit the children into it and close it. */
    method Enclose(n: Md.Node, element: Node, cell: bool)
      requires n.Parent? && WellFormed(n) && |nodeStack| > 0
      modifies this, numbering
      ensures numberingStack == old(numberingStack)
      ensures var inner := Children(n, |n.children|, old(numberingStack), old(numbering.nums), styles);
              nodeStack == Extend(old(nodeStack), [Close(Frame(AppendChildren(element, inner.nodes), cell))]) &&
              numbering.nums == inner.nums
      decreases n, 0, 1
    {
      ghost var below := nodeStack;
      PushNode(element, cell);
      VisitChildren(n);
      assert nodeStack[..|nodeStack| - 1] == below;
      PopNode();
    }

    /** `visitChildren(element)`: the children, in order. */
    method VisitChildren(n: Md.Node)
      requires n.Parent? && WellFormed(n) && |nodeStack| > 0
      modifies this, numbering
      ensures numberingStack == old(numberingStack)
      ensures var inner := Children(n, |n.children|, old(numberingStack), old(numbering.nums), styles);
              nodeStack == Extend(old(nodeStack), inner.nodes) && numbering.nums == inner.nums
      decreases n, 0, 0
    {
      ExtendNothing(nodeStack);
      var i := 0;
      while i < |n.children|
        invariant 0 <= i <= |n.children|
        invariant numberingStack == old(numberingStack)
        invariant var inner := Children(n, i, old(numberingStack), old(numbering.nums), styles);
                  nodeStack == Extend(old(nodeStack), inner.nodes) && numbering.nums == inner.nums
      {
        ghost var before := Children(n, i, old(numberingStack), old(numbering.nums), styles);
        Visit(n.children[i]);
        ExtendTwice(old(nodeStack), before.nodes, Block(n.children[i], old(numberingStack), before.nums, styles).nodes);
        i := i + 1;
      }
    }
  }

  /** The loop of the code visitor: a line break before every line but the first. */
  method BuildCodeRun(lines: seq<string>) returns (raw: Node)
    ensures raw == Element("w:r", map[], CodeLines(lines))
  {
    raw := Build("w:r");
    for i := 0 to |lines|
      invariant raw == Element("w:r", map[], CodeLines(lines[..i]))
    {
      assert lines[..i + 1][..i] == lines[..i];
      if |raw.children| > 0 {
        raw := PushChild(raw, LineBreak());
      }
      raw := PushChild(raw, TextTag(lines[i]));
    }
    assert lines[..|lines|] == lines;
  }

  /**
   * `generateDocxBody`: the children of a fictive `w:body` after visiting
   * the root's children; they replace the `{{{body}}}` paragraph.
   */
  method GenerateBody(root: Md.Node, numbering: Numbering, styles: StyleIds) returns (body: seq<Node>)
    requires root.Parent? && WellFormed(root)
    modifies numbering
    ensures var out := Children(root, |root.children|, [], old(numbering.nums), styles);
            body == out.nodes && numbering.nums == out.nums
  {
    var context := new GenerationContext(numbering, styles);
    context.PushNode(Build("w:body"), false);
    context.VisitChildren(root);
    assert context.nodeStack == Extend([Frame(Build("w:body"), false)], Children(root, |root.children|, [], old(numbering.nums), styles).nodes);
    body := context.CurrentNode().children;
  }

  // ----- paragraphs from the front matter -----

  const AuthorStyle: string := "ispAuthor"
  const LiteratureStyle: string := "ispLitList"
  const LiteratureNumId: string := "80"

  /**
   * An element of a metadata array as the builders read it: `getString(path)`,
   * `isMap()`, and `getSection(path).asArray()` whose elements are read with
   * `getString`.
   */
  datatype Item = Item(text: Templates.Reader, isMap: bool, items: string -> Result<seq<Templates.Reader>, MetaError>)

  /** The front matter as the builders read it: `getString(path)` and `getSection(path).asArray()`. */
  datatype FrontMatter = FrontMatter(text: Templates.Reader, items: string -> Result<seq<Item>, MetaError>)

  function ItemOf(m: Meta): Item {
    Item(p => m.GetString(p), m.IsMap(), p => ElementsAt(m, p))
  }

  /** The readers of the elements of the array at a path. */
  function ElementsAt(m: Meta, p: string): Result<seq<Templates.Reader>, MetaError> {
    Templates.ElementReaders(m.GetSection(p).AsArray())
  }

  function ItemsOf(r: Result<seq<Meta>, MetaError>): (out: Result<seq<Item>, MetaError>)
    ensures r.Err? ==> out == Err(r.error)
    ensures r.Ok? ==> out.Ok? && |out.value| == |r.value|
    ensures r.Ok? ==> forall i :: 0 <= i < |r.value| ==> out.value[i] == ItemOf(r.value[i])
  {
    match r
    case Err(e) => Err(e)
    case Ok(ms) => Ok(seq(|ms|, i requires 0 <= i < |ms| => ItemOf(ms[i])))
  }

  /** The accessors of a metadata wrapper. */
  function Reads(meta: Meta): FrontMatter {
    FrontMatter(p => meta.GetString(p), p => ItemsOf(meta.GetSection(p).AsArray()))
  }

  /** A paragraph with the given properties and runs. */
  lemma StyledParagraphReads(props: seq<Node>, runs: seq<Node>)
    requires forall i :: 0 <= i < |props| ==> ParagraphText(props[i]) == ""
    ensures ParagraphText(Element("w:p", map[], [Element("w:pPr", map[], props)] + runs)) == ParagraphTextSeq(runs)
  {
    ParagraphTextSeqEmpty(props);
    ParagraphTextSeqAppend([Element("w:pPr", map[], props)], runs);
  }

  /** Two runs read as their texts, one after the other. */
  lemma TwoRunsRead(a: string, aStyles: seq<Node>, b: string)
    requires forall i :: 0 <= i < |aStyles| ==> ParagraphText(aStyles[i]) == ""
    ensures ParagraphTextSeq([RunTag(a, aStyles), RunTag(b, [])]) == a + b
  {
    RunTagText(a, aStyles);
    RunTagText(b, []);
    ParagraphTextSeqAppend([RunTag(a, aStyles)], [RunTag(b, [])]);
    assert [RunTag(a, aStyles)] + [RunTag(b, [])] == [RunTag(a, aStyles), RunTag(b, [])];
  }

  /** `getString(path)` of every element, in order; the first failure is thrown. */
  function StringsAt(items: seq<Templates.Reader>, path: string): (r: Result<seq<string>, Templates.Failure>)
    decreases |items|
    ensures r.Ok? ==> |r.value| == |items| && forall k :: 0 <= k < |items| ==> items[k](path) == Ok(r.value[k])
  {
    if |items| == 0 then Ok([])
    else
      var first :- Templates.FromMeta(items[0](path));
      var rest :- StringsAt(items[1..], path);
      assert forall k :: 1 <= k < |items| ==> items[k] == items[1..][k - 1];
      Ok([first] + rest)
  }

  /** The `getString` readers of array elements. */
  function Texts(items: seq<Item>): (r: seq<Templates.Reader>)
    ensures |r| == |items| && forall k :: 0 <= k < |items| ==> r[k] == items[k].text
  {
    seq(|items|, k requires 0 <= k < |items| => items[k].text)
  }

  /** `ids.indexOf(id) + 1`: the 1-based position of the first equal id, 0 when there is none. */
  function Position(ids: seq<string>, id: string): (p: nat)
    ensures p <= |ids|
    ensures p == 0 <==> id !in ids
    ensures p > 0 ==> ids[p - 1] == id && id !in ids[..p - 1]
  {
    if |ids| == 0 then 0
    else if ids[0] == id then 1
    else
      var p := Position(ids[1..], id);
      assert ids == [ids[0]] + ids[1..];
      if p == 0 then 0
      else
        assert ids[..p] == [ids[0]] + ids[1..][..p - 1];
        p + 1
  }

  /** The superscript of an author: the positions of their organizations, comma-joined. */
  function IndexLine(authorOrgs: seq<string>, orgIds: seq<string>): string {
    Join(seq(|authorOrgs|, i requires 0 <= i < |authorOrgs| => NatToString(Position(orgIds, authorOrgs[i]))), ",")
  }

  /** Split at its commas, the superscript gives back one position per organization of the author. */
  lemma IndexLineSplits(authorOrgs: seq<string>, orgIds: seq<string>)
    requires |authorOrgs| > 0
    ensures |Split(IndexLine(authorOrgs, orgIds), ',')| == |authorOrgs|
    ensures forall i :: 0 <= i < |authorOrgs| ==>
              Split(IndexLine(authorOrgs, orgIds), ',')[i] == NatToString(Position(orgIds, authorOrgs[i]))
  {
    var parts := seq(|authorOrgs|, i requires 0 <= i < |authorOrgs| => NatToString(Position(orgIds, authorOrgs[i])));
    forall i | 0 <= i < |parts|
      ensures ',' !in parts[i]
    {
      NatToStringDigits(Position(orgIds, authorOrgs[i]));
    }
    SplitJoin(parts, ',');
  }

  /** The fields of an author. */
  datatype Author = Author(name: string, orcid: string, email: string, organizations: seq<string>)

  /** An author's fields, in the order they are read. */
  function ReadAuthor(author: Item, language: string): Result<Author, Templates.Failure> {
    var name :- Templates.FromMeta(author.text("name_" + language));
    var orcid :- Templates.FromMeta(author.text("orcid"));
    var email :- Templates.FromMeta(author.text("email"));
    var orgs :- Templates.FromMeta(author.items("organizations"));
    var ids :- StringsAt(orgs, "");
    Ok(Author(name, orcid, email, ids))
  }

  /** `${name}, ORCID: ${orcid}, <${email}>`. */
  function AuthorLine(a: Author): string {
    a.name + ", ORCID: " + a.orcid + ", <" + a.email + ">"
  }

  /** An author paragraph: the superscript positions, then the author line. */
  function AuthorParagraph(styles: StyleIds, a: Author, orgIds: seq<string>): Node {
    Element("w:p", map[], [Element("w:pPr", map[], [PStyle(styles(AuthorStyle))]),
      RunTag(IndexLine(a.organizations, orgIds), [Superscript()]), RunTag(AuthorLine(a), [])])
  }

  /** The paragraph as the source builds it: styled, then the superscript run, then the author line. */
  lemma AuthorParagraphBuilt(styles: StyleIds, a: Author, orgIds: seq<string>)
    ensures PushChild(PushChild(ParagraphWithStyle(Some(styles(AuthorStyle))),
              RunTag(IndexLine(a.organizations, orgIds), [Superscript()])), RunTag(AuthorLine(a), [])) ==
            AuthorParagraph(styles, a, orgIds)
  {
  }

  /** An author paragraph reads as the superscript positions followed by the author line. */
  lemma AuthorParagraphReads(styles: StyleIds, a: Author, orgIds: seq<string>)
    ensures ParagraphText(AuthorParagraph(styles, a, orgIds)) == IndexLine(a.organizations, orgIds) + AuthorLine(a)
  {
    var runs := [RunTag(IndexLine(a.organizations, orgIds), [Superscript()]), RunTag(AuthorLine(a), [])];
    assert AuthorParagraph(styles, a, orgIds) == Element("w:p", map[], [Element("w:pPr", map[], [PStyle(styles(AuthorStyle))])] + runs);
    StyledParagraphReads([PStyle(styles(AuthorStyle))], runs);
    TwoRunsRead(IndexLine(a.organizations, orgIds), [Superscript()], AuthorLine(a));
  }

  /** The author paragraphs in order; the first author that cannot be read stops the list. */
  function AuthorParagraphs(styles: StyleIds, authors: seq<Item>, orgIds: seq<string>, language: string): (r: Result<seq<Node>, Templates.Failure>)
    decreases |authors|
  {
    if |authors| == 0 then Ok([])
    else
      var a :- ReadAuthor(authors[0], language);
      var rest :- AuthorParagraphs(styles, authors[1..], orgIds, language);
      Ok([AuthorParagraph(styles, a, orgIds)] + rest)
  }

  /** One paragraph per author, the k-th built from the k-th author, every one of whom could be read. */
  lemma {:induction false} AuthorParagraphsEach(styles: StyleIds, authors: seq<Item>, orgIds: seq<string>, language: string)
    requires AuthorParagraphs(styles, authors, orgIds, language).Ok?
    ensures |AuthorParagraphs(styles, authors, orgIds, language).value| == |authors|
    ensures forall k :: 0 <= k < |authors| ==>
              ReadAuthor(authors[k], language).Ok? &&
              AuthorParagraphs(styles, authors, orgIds, language).value[k] ==
                AuthorParagraph(styles, ReadAuthor(authors[k], language).value, orgIds)
    decreases |authors|
  {
    if |authors| > 0 {
      var r := AuthorParagraphs(styles, authors, orgIds, language).value;
      var rest := AuthorParagraphs(styles, authors[1..], orgIds, language);
      AuthorParagraphsEach(styles, authors[1..], orgIds, language);
      forall k | 1 <= k < |authors|
        ensures ReadAuthor(authors[k], language).Ok? && r[k] == AuthorParagraph(styles, ReadAuthor(authors[k], language).value, orgIds)
      {
        assert authors[k] == authors[1..][k - 1] && r[k] == rest.value[k - 1];
      }
    }
  }

  /** The ids of the organizations, in order. */
  function OrganizationIds(fm: FrontMatter): Result<seq<string>, Templates.Failure> {
    var orgs :- Templates.FromMeta(fm.items("organizations"));
    StringsAt(Texts(orgs), "id")
  }

  /** `getAuthors`. */
  function Authors(styles: StyleIds, fm: FrontMatter, language: string): Result<seq<Node>, Templates.Failure> {
    var authors :- Templates.FromMeta(fm.items("authors"));
    var orgIds :- OrganizationIds(fm);
    AuthorParagraphs(styles, authors, orgIds, language)
  }

  method GetAuthors(styles: StyleIds, fm: FrontMatter, language: string) returns (r: Result<seq<Node>, Templates.Failure>)
    ensures r == Authors(styles, fm, language)
  {
    var authors :- Templates.FromMeta(fm.items("authors"));
    var organizations :- OrganizationIds(fm);
    var result: seq<Node> := [];
    var k := 0;
    assert authors[0..] == authors;
    Templates.PrependNil(AuthorParagraphs(styles, authors, organizations, language));
    while k < |authors|
      invariant 0 <= k <= |authors|
      invariant AuthorParagraphs(styles, authors, organizations, language) ==
                Templates.Prepend(result, AuthorParagraphs(styles, authors[k..], organizations, language))
    {
      assert authors[k..][0] == authors[k] && authors[k..][1..] == authors[k + 1..];
      var author :- ReadAuthor(authors[k], language);
      var paragraph := AuthorParagraph(styles, author, organizations);
      assert AuthorParagraphs(styles, authors[k..], organizations, language) ==
             Templates.Prepend([paragraph], AuthorParagraphs(styles, authors[k + 1..], organizations, language));
      Templates.PrependAppend(result, [paragraph], AuthorParagraphs(styles, authors[k + 1..], organizations, language));
      result := result + [paragraph];
      k := k + 1;
    }
    assert result + [] == result;
    return Ok(result);
  }

  /** An organization paragraph: its 1-based number as a superscript, then its name. */
  function OrganizationParagraph(styles: StyleIds, index: nat, name: string): Node {
    Element("w:p", map[], [Element("w:pPr", map[], [PStyle(styles(AuthorStyle))]),
      RunTag(NatToString(index), [Superscript()]), RunTag(name, [])])
  }

  /** The paragraph as the source builds it: styled, then the number run, then the name. */
  lemma OrganizationParagraphBuilt(styles: StyleIds, index: nat, name: string)
    ensures PushChild(PushChild(ParagraphWithStyle(Some(styles(AuthorStyle))),
              RunTag(NatToString(index), [Superscript()])), RunTag(name, [])) ==
            OrganizationParagraph(styles, index, name)
  {
  }

  lemma OrganizationParagraphReads(styles: StyleIds, index: nat, name: string)
    ensures ParagraphText(OrganizationParagraph(styles, index, name)) == NatToString(index) + name
  {
    var runs := [RunTag(NatToString(index), [Superscript()]), RunTag(name, [])];
    assert OrganizationParagraph(styles, index, name) == Element("w:p", map[], [Element("w:pPr", map[], [PStyle(styles(AuthorStyle))])] + runs);
    StyledParagraphReads([PStyle(styles(AuthorStyle))], runs);
    TwoRunsRead(NatToString(index), [Superscript()], name);
  }

  /** The organization paragraphs numbered from `index`; the first name that cannot be read stops the list. */
  function OrganizationParagraphs(styles: StyleIds, orgs: seq<Item>, language: string, index: nat): Result<seq<Node>, Templates.Failure>
    decreases |orgs|
  {
    if |orgs| == 0 then Ok([])
    else
      var name :- Templates.FromMeta(orgs[0].text("name_" + language));
      var rest :- OrganizationParagraphs(styles, orgs[1..], language, index + 1);
      Ok([OrganizationParagraph(styles, index, name)] + rest)
  }

  /** One paragraph per organization, the k-th numbered `index + k` and naming the k-th organization. */
  lemma {:induction false} OrganizationParagraphsEach(styles: StyleIds, orgs: seq<Item>, language: string, index: nat)
    requires OrganizationParagraphs(styles, orgs, language, index).Ok?
    ensures |OrganizationParagraphs(styles, orgs, language, index).value| == |orgs|
    ensures forall k :: 0 <= k < |orgs| ==>
              orgs[k].text("name_" + language).Ok? &&
              OrganizationParagraphs(styles, orgs, language, index).value[k] ==
                OrganizationParagraph(styles, index + k, orgs[k].text("name_" + language).value)
    decreases |orgs|
  {
    if |orgs| > 0 {
      var r := OrganizationParagraphs(styles, orgs, language, index).value;
      var rest := OrganizationParagraphs(styles, orgs[1..], language, index + 1);
      OrganizationParagraphsEach(styles, orgs[1..], language, index + 1);
      forall k | 1 <= k < |orgs|
        ensures orgs[k].text("name_" + language).Ok? &&
                r[k] == OrganizationParagraph(styles, index + k, orgs[k].text("name_" + language).value)
      {
        assert orgs[k] == orgs[1..][k - 1] && r[k] == rest.value[k - 1] && index + k == index + 1 + (k - 1);
      }
    }
  }

  /** `getOrganizations`. */
  function Organizations(styles: StyleIds, fm: FrontMatter, language: string): Result<seq<Node>, Templates.Failure> {
    var orgs :- Templates.FromMeta(fm.items("organizations"));
    OrganizationParagraphs(styles, orgs, language, 1)
  }

  method GetOrganizations(styles: StyleIds, fm: FrontMatter, language: string) returns (r: Result<seq<Node>, Templates.Failure>)
    ensures r == Organizations(styles, fm, language)
  {
    var organizations :- Templates.FromMeta(fm.items("organizations"));
    var orgIndex := 1;
    var result: seq<Node> := [];
    var k := 0;
    assert organizations[0..] == organizations;
    Templates.PrependNil(OrganizationParagraphs(styles, organizations, language, 1));
    while k < |organizations|
      invariant 0 <= k <= |organizations| && orgIndex == k + 1
      invariant OrganizationParagraphs(styles, organizations, language, 1) ==
                Templates.Prepend(result, OrganizationParagraphs(styles, organizations[k..], language, orgIndex))
    {
      assert organizations[k..][0] == organizations[k] && organizations[k..][1..] == organizations[k + 1..];
      var name :- Templates.FromMeta(organizations[k].text("name_" + language));
      var paragraph := OrganizationParagraph(styles, orgIndex, name);
      assert OrganizationParagraphs(styles, organizations[k..], language, orgIndex) ==
             Templates.Prepend([paragraph], OrganizationParagraphs(styles, organizations[k + 1..], language, orgIndex + 1));
      Templates.PrependAppend(result, [paragraph], OrganizationParagraphs(styles, organizations[k + 1..], language, orgIndex + 1));
      result := result + [paragraph];
      orgIndex := orgIndex + 1;
      k := k + 1;
    }
    assert result + [] == result;
    return Ok(result);
  }

  /**
   * The number an author's superscript gives one of their organizations is
   * the number printed before that organization's paragraph, and that
   * organization has the author's id.
   */
  lemma AuthorIndexNamesOrganization(styles: StyleIds, fm: FrontMatter, language: string, id: string)
    requires OrganizationIds(fm).Ok? && Organizations(styles, fm, language).Ok?
    requires Position(OrganizationIds(fm).value, id) > 0
    ensures var p := Position(OrganizationIds(fm).value, id);
            var orgs := fm.items("organizations").value;
            p <= |orgs| && orgs[p - 1].text("id") == Ok(id) &&
            orgs[p - 1].text("name_" + language).Ok? && p <= |Organizations(styles, fm, language).value| &&
            Organizations(styles, fm, language).value[p - 1] ==
              OrganizationParagraph(styles, p, orgs[p - 1].text("name_" + language).value)
  {
    var orgs := fm.items("organizations").value;
    var p := Position(OrganizationIds(fm).value, id);
    OrganizationParagraphsEach(styles, orgs, language, 1);
    assert Texts(orgs)[p - 1] == orgs[p - 1].text;
  }

  /** One link's text: a map link's `description`, otherwise the link itself. */
  function LinkText(link: Item): Result<string, Templates.Failure> {
    Templates.FromMeta(if link.isMap then link.text("description") else link.text(""))
  }

  /** An item reads its strings and its kind from the wrapper it was made from. */
  lemma ItemReads(m: Meta, p: string)
    ensures ItemOf(m).isMap == m.IsMap() && ItemOf(m).text(p) == m.GetString(p)
  {
  }

  /** A string link (older front matter) reads as itself. */
  lemma StringLinkText(link: Meta)
    requires link.section.Some? && link.section.value.Str? && link.section.value.s != ""
    ensures LinkText(ItemOf(link)) == Ok(link.section.value.s)
  {
    assert !link.IsMap();
    assert link.GetString("") == Ok(link.section.value.s) by {
      assert link.Child("") == link.section;
    }
    ItemReads(link, "");
  }

  /** A map link reads its description. */
  lemma MapLinkText(link: Meta)
    requires link.section.Some? && link.section.value.Map?
    requires "description" in link.section.value.entries
    requires link.section.value.entries["description"].Str? && link.section.value.entries["description"].s != ""
    ensures LinkText(ItemOf(link)) == Ok(link.section.value.entries["description"].s)
  {
    assert link.IsMap();
    var d := link.section.value.entries["description"];
    SplitWithout("description", '.');
    var comps := Split("description", '.');
    assert comps == ["description"] && comps[1..] == [];
    assert !Falsy(link.section) && Step(link.section.value, "description") == Some(Some(d));
    assert Navigate(Some(d), comps[1..]) == Some(d);
    assert link.Child("description") == Some(d);
    assert link.GetString("description") == Ok(d.s);
    ItemReads(link, "description");
  }

  /** A literature paragraph: the literature style and level 0 of numbering 80. */
  function LinkParagraph(styles: StyleIds, text: string): Node {
    Element("w:p", map[], [Element("w:pPr", map[], [PStyle(styles(LiteratureStyle)), NumPr("0", Some(LiteratureNumId))]),
      RunTag(text, [])])
  }

  /** A property added to a freshly styled paragraph lands after its style. */
  lemma StyledPropertyAdded(styleId: string, c: Node)
    ensures AddProperty(ParagraphWithStyle(Some(styleId)), c) ==
            Element("w:p", map[], [Element("w:pPr", map[], [PStyle(styleId), c])])
  {
    var cs := ParagraphWithStyle(Some(styleId)).children;
    assert cs == [Element("w:pPr", map[], [PStyle(styleId)])];
    assert IsTag(cs[0], "w:pPr") && cs[1..] == [];
    assert PushIntoChild(cs, "w:pPr", c) == [PushChild(cs[0], c)];
    assert [PStyle(styleId)] + [c] == [PStyle(styleId), c];
  }

  /** The paragraph as the source builds it: styled, numbering added to its properties, then the text run. */
  lemma LinkParagraphBuilt(styles: StyleIds, text: string)
    ensures PushChild(AddProperty(ParagraphWithStyle(Some(styles(LiteratureStyle))), NumPr("0", Some(LiteratureNumId))),
              RunTag(text, [])) == LinkParagraph(styles, text)
  {
    StyledPropertyAdded(styles(LiteratureStyle), NumPr("0", Some(LiteratureNumId)));
  }

  /** A literature paragraph is at level 0 of numbering 80 and reads as the link text. */
  lemma LinkParagraphReads(styles: StyleIds, text: string)
    ensures Properties(LinkParagraph(styles, text)) == [PStyle(styles(LiteratureStyle)), NumPr("0", Some("80"))]
    ensures ParagraphText(LinkParagraph(styles, text)) == text
  {
    var props := [PStyle(styles(LiteratureStyle)), NumPr("0", Some("80"))];
    assert LinkParagraph(styles, text) == Element("w:p", map[], [Element("w:pPr", map[], props)] + [RunTag(text, [])]);
    assert ParagraphText(props[1]) == "" by {
      ParagraphTextSeqEmpty(props[1].children);
    }
    StyledParagraphReads(props, [RunTag(text, [])]);
    RunTagText(text, []);
  }

  /** The literature paragraphs in order; the first link that cannot be read stops the list. */
  function LinkParagraphs(styles: StyleIds, links: seq<Item>): Result<seq<Node>, Templates.Failure>
    decreases |links|
  {
    if |links| == 0 then Ok([])
    else
      var text :- LinkText(links[0]);
      var rest :- LinkParagraphs(styles, links[1..]);
      Ok([LinkParagraph(styles, text)] + rest)
  }

  /** One paragraph per link, in order, each holding that link's text. */
  lemma {:induction false} LinkParagraphsEach(styles: StyleIds, links: seq<Item>)
    requires LinkParagraphs(styles, links).Ok?
    ensures |LinkParagraphs(styles, links).value| == |links|
    ensures forall k :: 0 <= k < |links| ==>
              LinkText(links[k]).Ok? && LinkParagraphs(styles, links).value[k] == LinkParagraph(styles, LinkText(links[k]).value)
    decreases |links|
  {
    if |links| > 0 {
      var r := LinkParagraphs(styles, links).value;
      var rest := LinkParagraphs(styles, links[1..]);
      LinkParagraphsEach(styles, links[1..]);
      forall k | 1 <= k < |links|
        ensures LinkText(links[k]).Ok? && r[k] == LinkParagraph(styles, LinkText(links[k]).value)
      {
        assert links[k] == links[1..][k - 1] && r[k] == rest.value[k - 1];
      }
    }
  }

  /** `getLinksParagraphs`. */
  function Links(styles: StyleIds, fm: FrontMatter): Result<seq<Node>, Templates.Failure> {
    var links :- Templates.FromMeta(fm.items("links"));
    LinkParagraphs(styles, links)
  }

  method GetLinksParagraphs(styles: StyleIds, fm: FrontMatter) returns (r: Result<seq<Node>, Templates.Failure>)
    ensures r == Links(styles, fm)
  {
    var linksSection :- Templates.FromMeta(fm.items("links"));
    var result: seq<Node> := [];
    var k := 0;
    assert linksSection[0..] == linksSection;
    Templates.PrependNil(LinkParagraphs(styles, linksSection));
    while k < |linksSection|
      invariant 0 <= k <= |linksSection|
      invariant LinkParagraphs(styles, linksSection) == Templates.Prepend(result, LinkParagraphs(styles, linksSection[k..]))
    {
      assert linksSection[k..][0] == linksSection[k] && linksSection[k..][1..] == linksSection[k + 1..];
      var description :- LinkText(linksSection[k]);
      var paragraph := LinkParagraph(styles, description);
      assert LinkParagraphs(styles, linksSection[k..]) == Templates.Prepend([paragraph], LinkParagraphs(styles, linksSection[k + 1..]));
      Templates.PrependAppend(result, [paragraph], LinkParagraphs(styles, linksSection[k + 1..]));
      result := result + [paragraph];
      k := k + 1;
    }
    assert result + [] == result;
    return Ok(result);
  }

  /** `w:spacing` of a detail paragraph. */
  function DetailSpacing(): Node {
    SetAttr(SetAttr(Build("w:spacing"), "w:before", Some("30")), "w:after", Some("120"))
  }

  /** A detail paragraph: main text style, the detail spacing, one line. */
  function DetailParagraph(styles: StyleIds, line: string): Node {
    Element("w:p", map[], [Element("w:pPr", map[], [PStyle(styles(MainTextStyle)), DetailSpacing()]), RunTag(line, [])])
  }

  /** The paragraph as the source builds it: styled, spacing added to its properties, then the line. */
  lemma DetailParagraphBuilt(styles: StyleIds, line: string)
    ensures PushChild(AddProperty(ParagraphWithStyle(Some(styles(MainTextStyle))), DetailSpacing()), RunTag(line, [])) ==
            DetailParagraph(styles, line)
  {
    StyledPropertyAdded(styles(MainTextStyle), DetailSpacing());
  }

  /** A detail paragraph has the detail spacing and reads as its line. */
  lemma DetailParagraphReads(styles: StyleIds, line: string)
    ensures Properties(DetailParagraph(styles, line)) == [PStyle(styles(MainTextStyle)), DetailSpacing()]
    ensures ParagraphText(DetailParagraph(styles, line)) == line
  {
    var props := [PStyle(styles(MainTextStyle)), DetailSpacing()];
    assert DetailParagraph(styles, line) == Element("w:p", map[], [Element("w:pPr", map[], props)] + [RunTag(line, [])]);
    StyledParagraphReads(props, [RunTag(line, [])]);
    RunTagText(line, []);
  }

  /** The detail paragraphs of one author, one per language. */
  function AuthorDetails(styles: StyleIds, author: Item, langs: seq<string>): Result<seq<Node>, Templates.Failure>
    decreases |langs|
  {
    if |langs| == 0 then Ok([])
    else
      var line :- Templates.FromMeta(author.text("details_" + langs[0]));
      var rest :- AuthorDetails(styles, author, langs[1..]);
      Ok([DetailParagraph(styles, line)] + rest)
  }

  /** One detail paragraph per language. */
  lemma {:induction false} AuthorDetailsLength(styles: StyleIds, author: Item, langs: seq<string>)
    requires AuthorDetails(styles, author, langs).Ok?
    ensures |AuthorDetails(styles, author, langs).value| == |langs|
    decreases |langs|
  {
    if |langs| > 0 {
      AuthorDetailsLength(styles, author, langs[1..]);
    }
  }

  /** One detail paragraph per language, in order, each holding that language's line. */
  lemma {:induction false} AuthorDetailsEach(styles: StyleIds, author: Item, langs: seq<string>)
    requires AuthorDetails(styles, author, langs).Ok?
    ensures |AuthorDetails(styles, author, langs).value| == |langs|
    ensures forall l :: 0 <= l < |langs| ==>
              author.text("details_" + langs[l]).Ok? &&
              AuthorDetails(styles, author, langs).value[l] == DetailParagraph(styles, author.text("details_" + langs[l]).value)
    decreases |langs|
  {
    if |langs| > 0 {
      var r := AuthorDetails(styles, author, langs).value;
      var rest := AuthorDetails(styles, author, langs[1..]);
      AuthorDetailsEach(styles, author, langs[1..]);
      forall l | 1 <= l < |langs|
        ensures author.text("details_" + langs[l]).Ok? && r[l] == DetailParagraph(styles, author.text("details_" + langs[l]).value)
      {
        assert langs[l] == langs[1..][l - 1] && r[l] == rest.value[l - 1];
      }
    }
  }

  /** One author's lines, language by language. */
  function DetailBlock(styles: StyleIds): Item -> Result<seq<Node>, Templates.Failure> {
    (author: Item) => AuthorDetails(styles, author, Templates.Languages)
  }

  function DetailParagraphs(styles: StyleIds, authors: seq<Item>): Result<seq<Node>, Templates.Failure> {
    Templates.Gather(DetailBlock(styles), authors)
  }

  /** Author-major order: the paragraph of author `a` in language `l` is number `a * 2 + l`. */
  lemma DetailParagraphsOrder(styles: StyleIds, authors: seq<Item>)
    requires DetailParagraphs(styles, authors).Ok?
    ensures |DetailParagraphs(styles, authors).value| == |authors| * |Templates.Languages|
    ensures forall a, l :: 0 <= a < |authors| && 0 <= l < |Templates.Languages| ==>
              authors[a].text("details_" + Templates.Languages[l]).Ok? &&
              DetailParagraphs(styles, authors).value[a * |Templates.Languages| + l] ==
              DetailParagraph(styles, authors[a].text("details_" + Templates.Languages[l]).value)
  {
    var f := DetailBlock(styles);
    forall author: Item | f(author).Ok?
      ensures |f(author).value| == 2
    {
      AuthorDetailsLength(styles, author, Templates.Languages);
    }
    Templates.GatherLength(f, authors, 2);
    forall a, l | 0 <= a < |authors| && 0 <= l < |Templates.Languages|
      ensures authors[a].text("details_" + Templates.Languages[l]).Ok? &&
              DetailParagraphs(styles, authors).value[a * |Templates.Languages| + l] == DetailParagraph(styles, authors[a].text("details_" + Templates.Languages[l]).value)
    {
      Templates.GatherAt(f, authors, 2, a, l);
      AuthorDetailsEach(styles, authors[a], Templates.Languages);
    }
  }

  /** `getAuthorsDetail`. */
  function AuthorsDetail(styles: StyleIds, fm: FrontMatter): Result<seq<Node>, Templates.Failure> {
    var authors :- Templates.FromMeta(fm.items("authors"));
    DetailParagraphs(styles, authors)
  }

  /** The inner loop of `getAuthorsDetail`: one author's lines, language by language. */
  method AuthorDetailParagraphs(styles: StyleIds, author: Item) returns (r: Result<seq<Node>, Templates.Failure>)
    ensures r == AuthorDetails(styles, author, Templates.Languages)
  {
    var langs := Templates.Languages;
    var result: seq<Node> := [];
    var l := 0;
    assert langs[0..] == langs;
    Templates.PrependNil(AuthorDetails(styles, author, langs));
    while l < |langs|
      invariant 0 <= l <= |langs|
      invariant AuthorDetails(styles, author, langs) == Templates.Prepend(result, AuthorDetails(styles, author, langs[l..]))
    {
      var language := langs[l];
      assert langs[l..][0] == language && langs[l..][1..] == langs[l + 1..];
      var line :- Templates.FromMeta(author.text("details_" + language));
      var newParagraph := DetailParagraph(styles, line);
      assert AuthorDetails(styles, author, langs[l..]) == Templates.Prepend([newParagraph], AuthorDetails(styles, author, langs[l + 1..]));
      Templates.PrependAppend(result, [newParagraph], AuthorDetails(styles, author, langs[l + 1..]));
      result := result + [newParagraph];
      l := l + 1;
    }
    assert langs[l..] == [];
    assert result + [] == result;
    return Ok(result);
  }

  method GetAuthorsDetail(styles: StyleIds, fm: FrontMatter) returns (r: Result<seq<Node>, Templates.Failure>)
    ensures r == AuthorsDetail(styles, fm)
  {
    var authors :- Templates.FromMeta(fm.items("authors"));
    var result: seq<Node> := [];
    var a := 0;
    assert authors[0..] == authors;
    Templates.PrependNil(DetailParagraphs(styles, authors));
    while a < |authors|
      invariant 0 <= a <= |authors|
      invariant DetailParagraphs(styles, authors) == Templates.Prepend(result, DetailParagraphs(styles, authors[a..]))
    {
      assert authors[a..][0] == authors[a] && authors[a..][1..] == authors[a + 1..];
      var lines :- AuthorDetailParagraphs(styles, authors[a]);
      assert DetailParagraphs(styles, authors[a..]) == Templates.Prepend(lines, DetailParagraphs(styles, authors[a + 1..]));
      Templates.PrependAppend(result, lines, DetailParagraphs(styles, authors[a + 1..]));
      result := result + lines;
      a := a + 1;
    }
    assert result + [] == result;
    return Ok(result);
  }

  // ----- substituteTemplates -----

  /** A marker of the template document: `{{{<name>}}}`. */
  function Marker(name: string): string {
    "{{{" + name + "}}}"
  }

  /** The closure a paragraph substitution is given: which builder it calls. */
  datatype Builder =
    | AuthorsIn(language: string)
    | OrganizationsIn(language: string)
    | LinkList
    | AuthorDetailList

  /** What a paragraph replacement returns when it is called. */
  function Replacement(styles: StyleIds, fm: FrontMatter, b: Builder): Result<seq<Node>, Templates.Failure> {
    match b
    case AuthorsIn(language) => Authors(styles, fm, language)
    case OrganizationsIn(language) => Organizations(styles, fm, language)
    case LinkList => Links(styles, fm)
    case AuthorDetailList => AuthorsDetail(styles, fm)
  }

  /**
   * A substitution about to be performed. An inline value is read from the
   * front matter before the substitution is set up, so a failure to read it
   * is thrown at once; a paragraph replacement is a closure, called only
   * when the substitution is performed.
   */
  datatype Pending =
    | PendingInline(template: string, value: Result<string, Templates.Failure>)
    | PendingParagraphs(template: string, builder: Builder)

  /** A performed substitution. */
  datatype Substitution =
    | Inline(template: string, value: string)
    | Paragraphs(template: string, builder: Builder)

  /** The substitutions performed, in order, and the failure that ended the run early, if any. */
  datatype Plan = Plan(performed: seq<Substitution>, failure: Option<Templates.Failure>)

  /** Whether performing a pending substitution can go ahead. */
  predicate Ready(p: Pending) {
    p.PendingParagraphs? || p.value.Ok?
  }

  /** The substitution a ready pending one performs. */
  function Done(p: Pending): Substitution
    requires Ready(p)
  {
    match p
    case PendingInline(t, v) => Inline(t, v.value)
    case PendingParagraphs(t, r) => Paragraphs(t, r)
  }

  /** Earlier substitutions in front of a plan. */
  function After(done: seq<Substitution>, plan: Plan): Plan {
    Plan(done + plan.performed, plan.failure)
  }

  /** Performing the pending substitutions in order until an inline value fails. */
  function Run(ps: seq<Pending>): Plan
    decreases |ps|
  {
    if |ps| == 0 then Plan([], None)
    else if !Ready(ps[0]) then Plan([], Some(ps[0].value.error))
    else After([Done(ps[0])], Run(ps[1..]))
  }

  /**
   * The run performs a prefix of the pending substitutions, each as it was
   * scheduled; it stops exactly at the first inline value that failed, and
   * reports that value's failure.
   */
  lemma {:induction false} RunPerformsInOrder(ps: seq<Pending>)
    ensures |Run(ps).performed| <= |ps|
    ensures forall i :: 0 <= i < |Run(ps).performed| ==> Ready(ps[i]) && Run(ps).performed[i] == Done(ps[i])
    ensures Run(ps).failure.None? <==> |Run(ps).performed| == |ps|
    ensures Run(ps).failure.Some? ==>
              !Ready(ps[|Run(ps).performed|]) && Run(ps).failure.value == ps[|Run(ps).performed|].value.error
    decreases |ps|
  {
    if |ps| > 0 && Ready(ps[0]) {
      RunPerformsInOrder(ps[1..]);
      var rest := Run(ps[1..]);
      assert Run(ps).performed == [Done(ps[0])] + rest.performed;
      forall i | 1 <= i < |Run(ps).performed|
        ensures Ready(ps[i]) && Run(ps).performed[i] == Done(ps[i])
      {
        assert ps[i] == ps[1..][i - 1];
      }
      if rest.failure.Some? {
        assert ps[|Run(ps).performed|] == ps[1..][|rest.performed|];
      }
    }
  }

  lemma RunAppend(done: seq<Substitution>, p: Pending, rest: seq<Pending>)
    requires Ready(p)
    ensures After(done, Run([p] + rest)) == After(done + [Done(p)], Run(rest))
  {
    assert ([p] + rest)[0] == p && ([p] + rest)[1..] == rest;
    assert done + ([Done(p)] + Run(rest).performed) == done + [Done(p)] + Run(rest).performed;
  }

  lemma RunStops(done: seq<Substitution>, p: Pending, rest: seq<Pending>)
    requires !Ready(p)
    ensures After(done, Run([p] + rest)) == Plan(done, Some(p.value.error))
  {
    assert ([p] + rest)[0] == p;
  }

  /** `page_header_<lang>`, where `@use_citation` stands for `for_citation_<lang>`. */
  function PageHeader(fm: FrontMatter, language: string): Result<string, Templates.Failure> {
    var header :- Templates.FromMeta(fm.text("page_header_" + language));
    if header == Templates.UseCitation then Templates.FromMeta(fm.text("for_citation_" + language))
    else Ok(header)
  }

  /** The page header is the citation line exactly when it is written `@use_citation`; otherwise it is itself. */
  lemma PageHeaderUsesCitation(fm: FrontMatter, language: string)
    requires fm.text("page_header_" + language).Ok?
    ensures fm.text("page_header_" + language).value == "@use_citation" ==>
              PageHeader(fm, language) == Templates.FromMeta(fm.text("for_citation_" + language))
    ensures fm.text("page_header_" + language).value != "@use_citation" ==>
              PageHeader(fm, language) == Ok(fm.text("page_header_" + language).value)
  {
  }

  /** The inline templates of one language, in the order of their names. */
  function InlineSchedule(fm: FrontMatter, names: seq<string>, language: string): (r: seq<Pending>)
    ensures |r| == |names|
    ensures forall k :: 0 <= k < |names| ==>
              r[k] == PendingInline(Marker(names[k] + "_" + language), Templates.FromMeta(fm.text(names[k] + "_" + language)))
  {
    seq(|names|, k requires 0 <= k < |names| =>
      PendingInline(Marker(names[k] + "_" + language), Templates.FromMeta(fm.text(names[k] + "_" + language))))
  }

  lemma InlineScheduleStep(fm: FrontMatter, names: seq<string>, language: string, rest: seq<Pending>)
    requires |names| > 0
    ensures InlineSchedule(fm, names, language) + rest ==
            [PendingInline(Marker(names[0] + "_" + language), Templates.FromMeta(fm.text(names[0] + "_" + language)))] +
            (InlineSchedule(fm, names[1..], language) + rest)
  {
    var r := InlineSchedule(fm, names, language);
    assert r == [r[0]] + InlineSchedule(fm, names[1..], language);
  }

  /** After the inline templates of a language: its page header, its authors, its organizations. */
  function LanguageTail(fm: FrontMatter, language: string): seq<Pending> {
    [PendingInline(Marker("page_header_" + language), PageHeader(fm, language)),
     PendingParagraphs(Marker("authors_" + language), AuthorsIn(language)),
     PendingParagraphs(Marker("organizations_" + language), OrganizationsIn(language))]
  }

  function LanguagesSchedule(fm: FrontMatter, langs: seq<string>): seq<Pending>
    decreases |langs|
  {
    if |langs| == 0 then []
    else InlineSchedule(fm, Templates.TemplateNames, langs[0]) + LanguageTail(fm, langs[0])
         + LanguagesSchedule(fm, langs[1..])
  }

  /** After every language: the literature list, then the author details. */
  const FinalSchedule: seq<Pending> :=
    [PendingParagraphs(Marker("links"), LinkList), PendingParagraphs(Marker("authors_detail"), AuthorDetailList)]

  lemma LanguagesScheduleStep(fm: FrontMatter, langs: seq<string>, final: seq<Pending>)
    requires |langs| > 0
    ensures LanguagesSchedule(fm, langs) + final ==
            (InlineSchedule(fm, Templates.TemplateNames, langs[0]) + LanguageTail(fm, langs[0])) +
            (LanguagesSchedule(fm, langs[1..]) + final)
  {
    var own := InlineSchedule(fm, Templates.TemplateNames, langs[0]) + LanguageTail(fm, langs[0]);
    var later := LanguagesSchedule(fm, langs[1..]);
    assert LanguagesSchedule(fm, langs) == own + later;
    ConcatAssociates(own, later, final);
  }

  lemma ConcatAssociates(a: seq<Pending>, b: seq<Pending>, c: seq<Pending>)
    ensures a + b + c == a + (b + c)
  {
  }

  /** Once every language is done, the links and the author details are performed and nothing fails. */
  lemma FinalRun(performed: seq<Substitution>, fm: FrontMatter)
    ensures After(performed, Run(LanguagesSchedule(fm, []) + FinalSchedule)) ==
            Plan(performed + [Paragraphs(Marker("links"), LinkList),
                              Paragraphs(Marker("authors_detail"), AuthorDetailList)], None)
  {
    var final := FinalSchedule;
    assert LanguagesSchedule(fm, []) + final == [final[0]] + ([final[1]] + []);
    RunAppend(performed, final[0], [final[1]] + []);
    RunAppend(performed + [Done(final[0])], final[1], []);
    assert performed + [Done(final[0])] + [Done(final[1])] + [] ==
           performed + [Done(final[0]), Done(final[1])];
  }

  /** Everything `substituteTemplates` performs, in order. */
  function Schedule(fm: FrontMatter): seq<Pending> {
    LanguagesSchedule(fm, Templates.Languages) + FinalSchedule
  }

  /**
   * The schedule holds eight substitutions per language (five inline
   * templates, the page header, the authors, the organizations), language
   * by language, then the links and the author details.
   */
  lemma ScheduleShape(fm: FrontMatter)
    ensures |Schedule(fm)| == 18
    ensures forall j, k :: 0 <= j < 2 && 0 <= k < 5 ==>
              Schedule(fm)[8 * j + k] ==
                PendingInline(Marker(Templates.TemplateNames[k] + "_" + Templates.Languages[j]),
                              Templates.FromMeta(fm.text(Templates.TemplateNames[k] + "_" + Templates.Languages[j])))
    ensures forall j :: 0 <= j < 2 ==>
              Schedule(fm)[8 * j + 5] == PendingInline(Marker("page_header_" + Templates.Languages[j]), PageHeader(fm, Templates.Languages[j])) &&
              Schedule(fm)[8 * j + 6] == PendingParagraphs(Marker("authors_" + Templates.Languages[j]), AuthorsIn(Templates.Languages[j])) &&
              Schedule(fm)[8 * j + 7] == PendingParagraphs(Marker("organizations_" + Templates.Languages[j]), OrganizationsIn(Templates.Languages[j]))
    ensures Schedule(fm)[16] == PendingParagraphs(Marker("links"), LinkList)
    ensures Schedule(fm)[17] == PendingParagraphs(Marker("authors_detail"), AuthorDetailList)
  {
    var langs := Templates.Languages;
    var ru := InlineSchedule(fm, Templates.TemplateNames, "ru") + LanguageTail(fm, "ru");
    var en := InlineSchedule(fm, Templates.TemplateNames, "en") + LanguageTail(fm, "en");
    assert langs[1..][1..] == [];
    assert LanguagesSchedule(fm, langs[1..][1..]) == [];
    assert LanguagesSchedule(fm, langs[1..]) == en + [];
    assert LanguagesSchedule(fm, langs) == ru + (en + []);
    assert Schedule(fm) == ru + en + FinalSchedule;
  }

  /**
   * Performing `ps` after `performed`, then `rest`, is performing up to `out`
   * and then either stopping with `failure` or going on with `rest`.
   */
  predicate Continues(performed: seq<Substitution>, ps: seq<Pending>, rest: seq<Pending>,
                      out: seq<Substitution>, failure: Option<Templates.Failure>)
  {
    After(performed, Run(ps + rest)) == (if failure.Some? then Plan(out, failure) else After(out, Run(rest)))
  }

  /** The inner loop of `substituteTemplates`: the five inline templates of one language. */
  method SubstituteInline(fm: FrontMatter, language: string, ghost rest: seq<Pending>, performed: seq<Substitution>)
    returns (out: seq<Substitution>, failure: Option<Templates.Failure>)
    ensures Continues(performed, InlineSchedule(fm, Templates.TemplateNames, language), rest, out, failure)
  {
    var templates := Templates.TemplateNames;
    out := performed;
    var k := 0;
    assert templates[0..] == templates;
    while k < |templates|
      invariant 0 <= k <= |templates|
      invariant After(performed, Run(InlineSchedule(fm, templates, language) + rest)) ==
                After(out, Run(InlineSchedule(fm, templates[k..], language) + rest))
    {
      var templateLang := templates[k] + "_" + language;
      var p := PendingInline(Marker(templateLang), Templates.FromMeta(fm.text(templateLang)));
      var later := InlineSchedule(fm, templates[k + 1..], language) + rest;
      assert templates[k..][0] == templates[k] && templates[k..][1..] == templates[k + 1..];
      InlineScheduleStep(fm, templates[k..], language, rest);
      var replacement := fm.text(templateLang);
      if replacement.Err? {
        RunStops(out, p, later);
        return out, Some(Templates.MetaFailure(replacement.error));
      }
      RunAppend(out, p, later);
      out := out + [Inline(Marker(templateLang), replacement.value)];
      k := k + 1;
    }
    assert templates[k..] == [];
    assert InlineSchedule(fm, templates[k..], language) + rest == rest;
    return out, None;
  }

  /** One language of `substituteTemplates`: its inline templates, its page header, its authors and organizations. */
  method SubstituteLanguage(fm: FrontMatter, language: string, ghost rest: seq<Pending>,
                            performed: seq<Substitution>)
    returns (out: seq<Substitution>, failure: Option<Templates.Failure>)
    ensures Continues(performed, InlineSchedule(fm, Templates.TemplateNames, language) + LanguageTail(fm, language),
                      rest, out, failure)
  {
    var inline := InlineSchedule(fm, Templates.TemplateNames, language);
    var tail := LanguageTail(fm, language);
    assert inline + tail + rest == inline + (tail + rest);
    out, failure := SubstituteInline(fm, language, tail + rest, performed);
    if failure.Some? {
      return;
    }
    assert tail + rest == [tail[0]] + ([tail[1]] + ([tail[2]] + rest));
    var header := fm.text("page_header_" + language);
    if header.Err? {
      RunStops(out, tail[0], [tail[1]] + ([tail[2]] + rest));
      return out, Some(Templates.MetaFailure(header.error));
    }
    var headerText := header.value;
    if headerText == Templates.UseCitation {
      var citation := fm.text("for_citation_" + language);
      if citation.Err? {
        RunStops(out, tail[0], [tail[1]] + ([tail[2]] + rest));
        return out, Some(Templates.MetaFailure(citation.error));
      }
      headerText := citation.value;
    }
    RunAppend(out, tail[0], [tail[1]] + ([tail[2]] + rest));
    out := out + [Inline(Marker("page_header_" + language), headerText)];
    RunAppend(out, tail[1], [tail[2]] + rest);
    out := out + [Paragraphs(Marker("authors_" + language), AuthorsIn(language))];
    RunAppend(out, tail[2], rest);
    out := out + [Paragraphs(Marker("organizations_" + language), OrganizationsIn(language))];
  }

  /** `substituteTemplates`: language by language, then the links and the author details. */
  method SubstituteTemplates(fm: FrontMatter) returns (plan: Plan)
    ensures plan == Run(Schedule(fm))
  {
    var langs := Templates.Languages;
    var performed: seq<Substitution> := [];
    var final := FinalSchedule;
    var j := 0;
    assert langs[0..] == langs;
    assert After([], Run(Schedule(fm))) == Run(Schedule(fm));
    while j < |langs|
      invariant 0 <= j <= |langs|
      invariant Run(Schedule(fm)) == After(performed, Run(LanguagesSchedule(fm, langs[j..]) + final))
    {
      var language := langs[j];
      assert langs[j..][0] == language && langs[j..][1..] == langs[j + 1..];
      var rest := LanguagesSchedule(fm, langs[j + 1..]) + final;
      LanguagesScheduleStep(fm, langs[j..], final);
      var failure;
      performed, failure := SubstituteLanguage(fm, language, rest, performed);
      if failure.Some? {
        return Plan(performed, failure);
      }
      j := j + 1;
    }
    assert langs[j..] == [];
    FinalRun(performed, fm);
    performed := performed + [Paragraphs(Marker("links"), LinkList),
                              Paragraphs(Marker("authors_detail"), AuthorDetailList)];
    return Plan(performed, None);
  }
}
