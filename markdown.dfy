/**
 * The Markdown syntax tree (mdast) and the passes run on it after parsing
 * (src/markdown/markdown.ts):
 *   - `{#id}` labels at the end of a heading become the heading's id;
 *   - source positions are dropped;
 *   - every heading gets its section number prepended as a text node;
 *   - a `{key=value}` text right after an image becomes the image's attributes.
 * The source rewrites nodes in place while a visitor walks the tree in
 * pre-order; here each pass returns the rewritten tree.
 */
module Markdown {
  import opened Wrappers
  import opened Strings
  import opened JsonMeta
  import opened References
  import opened Attributes

  datatype Position = Position(startLine: nat, startColumn: nat, endLine: nat, endColumn: nat)

  datatype ParentKind =
    | Root
    | Paragraph
    | Heading(depth: int, id: Option<string>)
    | List(ordered: bool, start: Option<int>)
    | ListItem
    | Table
    | TableRow
    | TableCell
    | OtherParent(name: string)

  /** mdast nodes; only `Parent` has children. */
  datatype Node =
    | Parent(kind: ParentKind, children: seq<Node>, position: Option<Position>)
    | Text(value: string, position: Option<Position>)
    | Code(value: string, position: Option<Position>)
    | InlineCode(value: string, position: Option<Position>)
    | Image(url: string, attrs: Option<Attrs>, position: Option<Position>)
    | Yaml(value: string, position: Option<Position>)
    | OtherLeaf(name: string, value: string, position: Option<Position>)

  predicate IsHeading(n: Node) {
    n.Parent? && n.kind.Heading?
  }

  function Size(n: Node): nat
    decreases n
  {
    match n
    case Parent(_, cs, _) => 1 + SizeSeq(cs)
    case _ => 1
  }

  function SizeSeq(cs: seq<Node>): nat
    decreases cs
  {
    if |cs| == 0 then 0 else Size(cs[0]) + 1 + SizeSeq(cs[1..])
  }

  // ----- addHeaderReferences -----

  /** The end of the line starting at `i`: the next line terminator, or the end. */
  function LineEnd(s: string, i: nat): (e: nat)
    requires i <= |s|
    ensures i <= e <= |s|
    ensures forall j :: i <= j < e ==> !IsLineTerminator(s[j])
    ensures e < |s| ==> IsLineTerminator(s[e])
    decreases |s| - i
  {
    if i < |s| && !IsLineTerminator(s[i]) then LineEnd(s, i + 1) else i
  }

  /** The last `}` in `s[i..e]`. */
  function LastBrace(s: string, i: nat, e: nat): (r: Option<nat>)
    requires i <= e <= |s|
    ensures r.Some? ==> i <= r.value < e && s[r.value] == '}'
    ensures r.Some? ==> forall j :: r.value < j < e ==> s[j] != '}'
    ensures r.None? ==> forall j :: i <= j < e ==> s[j] != '}'
    decreases e - i
  {
    if e == i then None
    else if s[e - 1] == '}' then Some(e - 1)
    else LastBrace(s, i, e - 1)
  }

  /** `{#(.*)}` at `q`: the greedy `.*` reaches the last `}` on the line. */
  function MarkerClose(s: string, q: nat): Option<nat>
    requires q <= |s|
  {
    if q + 2 <= |s| && s[q] == '{' && s[q + 1] == '#' then LastBrace(s, q + 2, LineEnd(s, q + 2)) else None
  }

  /** The first `{#…}` at or after `from`. */
  function FirstMarker(s: string, from: nat): (r: Option<nat>)
    requires from <= |s|
    ensures r.Some? ==> from <= r.value <= |s| && MarkerClose(s, r.value).Some?
    ensures r.Some? ==> forall q :: from <= q < r.value ==> MarkerClose(s, q).None?
    ensures r.None? ==> forall q :: from <= q <= |s| ==> MarkerClose(s, q).None?
    decreases |s| - from
  {
    if MarkerClose(s, from).Some? then Some(from)
    else if from == |s| then None
    else FirstMarker(s, from + 1)
  }

  /** The start of the run of white space that ends at `q`. */
  function SpaceRunStart(s: string, q: nat): (p: nat)
    requires q <= |s|
    ensures p <= q
    ensures forall j :: p <= j < q ==> IsJsSpace(s[j])
    ensures p > 0 ==> !IsJsSpace(s[p - 1])
  {
    if q > 0 && IsJsSpace(s[q - 1]) then SpaceRunStart(s, q - 1) else q
  }

  /** Where `\s*{#(.*)}` matches: white space from `start`, `{#` at `open`, `}` at `close`. */
  datatype Marker = Marker(start: nat, open: nat, close: nat)

  /** The leftmost match of `\s*{#(.*)}`. */
  function FindMarker(s: string): (r: Option<Marker>)
    ensures r.Some? ==> r.value.start <= r.value.open && r.value.open + 2 <= r.value.close < |s|
  {
    match FirstMarker(s, 0)
    case None => None
    case Some(q) => Some(Marker(SpaceRunStart(s, q), q, MarkerClose(s, q).value))
  }

  /** The label captured by the marker. */
  function MarkerLabel(s: string, m: Marker): string
    requires m.open + 2 <= m.close <= |s|
  {
    s[m.open + 2..m.close]
  }

  /**
   * The heading callback: when the last child is a text with a marker, the
   * captured label becomes the id and the text loses the marker and the white
   * space before it, then is trimmed.
   */
  function HeaderReference(n: Node): (r: Node)
    ensures !IsHeading(n) ==> r == n
    ensures IsHeading(n) ==> IsHeading(r) && r.kind.depth == n.kind.depth && |r.children| == |n.children|
  {
    if IsHeading(n) && |n.children| > 0 && n.children[|n.children| - 1].Text? then
      var last := n.children[|n.children| - 1];
      match FindMarker(last.value)
      case None => n
      case Some(m) =>
        var text := Trim(last.value[..m.start] + last.value[m.close + 1..]);
        Parent(Heading(n.kind.depth, Some(MarkerLabel(last.value, m))),
               n.children[..|n.children| - 1] + [Text(text, last.position)], n.position)
    else n
  }

  /**
   * `addHeaderReferences`. The callback only rewrites a heading's own id and
   * its last text child, which the walk below it leaves alone, so applying
   * it after the children gives the same tree as the source's pre-order walk.
   */
  function AddHeaderReferences(n: Node): Node
    decreases n
  {
    match n
    case Parent(kind, cs, pos) =>
      HeaderReference(Parent(kind, seq(|cs|, i requires 0 <= i < |cs| => AddHeaderReferences(cs[i])), pos))
    case _ => n
  }

  /**
   * The marker splits the text into: the text before it, white space, `{#`,
   * the label (on one line), the last `}` of that line, and the rest. No
   * `{#` with a closing brace on its line comes earlier, and the white
   * space is the whole run before `{#`.
   */
  lemma MarkerDecomposes(s: string, m: Marker)
    requires FindMarker(s) == Some(m)
    ensures s == s[..m.start] + s[m.start..m.open] + "{#" + MarkerLabel(s, m) + "}" + s[m.close + 1..]
    ensures (forall j :: m.start <= j < m.open ==> IsJsSpace(s[j])) && (m.start == 0 || !IsJsSpace(s[m.start - 1]))
    ensures forall j :: m.open + 2 <= j < m.close ==> !IsLineTerminator(s[j])
    ensures forall j :: m.close < j < LineEnd(s, m.open + 2) ==> s[j] != '}'
    ensures forall q :: 0 <= q < m.open ==> MarkerClose(s, q).None?
  {
    MarkerMatched(s, m);
    CutAtMarker(s, m.start, m.open, m.close);
  }

  /** What the leftmost match found: the run of white space, `{#` and the last `}` of its line. */
  lemma MarkerMatched(s: string, m: Marker)
    requires FindMarker(s) == Some(m)
    ensures m.start == SpaceRunStart(s, m.open) && FirstMarker(s, 0) == Some(m.open)
    ensures m.open + 2 <= m.close < |s| && s[m.open] == '{' && s[m.open + 1] == '#' && s[m.close] == '}'
    ensures LastBrace(s, m.open + 2, LineEnd(s, m.open + 2)) == Some(m.close)
  {
  }

  /** A string cut at a `{#` and a later `}`. */
  lemma CutAtMarker(s: string, a: nat, b: nat, c: nat)
    requires a <= b && b + 2 <= c < |s| && s[b] == '{' && s[b + 1] == '#' && s[c] == '}'
    ensures s == s[..a] + s[a..b] + "{#" + s[b + 2..c] + "}" + s[c + 1..]
  {
    assert s[b..b + 2] == "{#" && s[c..c + 1] == "}";
    assert s == s[..a] + s[a..b] + s[b..b + 2] + s[b + 2..c] + s[c..c + 1] + s[c + 1..];
  }

  /** With a marker, the heading takes the label as its id and keeps the rest of the text, trimmed. */
  lemma HeaderReferenceExtracts(n: Node)
    requires IsHeading(n) && |n.children| > 0 && n.children[|n.children| - 1].Text?
    requires FindMarker(n.children[|n.children| - 1].value).Some?
    ensures var v := n.children[|n.children| - 1].value; var m := FindMarker(v).value;
      var r := HeaderReference(n);
      r.kind.id == Some(MarkerLabel(v, m)) &&
      r.children[..|r.children| - 1] == n.children[..|n.children| - 1] &&
      r.children[|r.children| - 1].value == Trim(v[..m.start] + v[m.close + 1..])
  {
  }

  /** A heading whose last child is not a text with a marker is left as it is. */
  lemma HeaderReferenceUnchanged(n: Node)
    requires IsHeading(n)
    requires |n.children| == 0 || !n.children[|n.children| - 1].Text? || FindMarker(n.children[|n.children| - 1].value).None?
    ensures HeaderReference(n) == n
  {
  }

  /** In `Intro {#sec:a}` the only `{#` is at 6, and its `}` is the last character. */
  lemma ExampleFirstMarker()
    ensures FirstMarker("Intro {#sec:a}", 0) == Some(6)
    ensures MarkerClose("Intro {#sec:a}", 6) == Some(13)
  {
    var s := "Intro {#sec:a}";
    assert LineEnd(s, 8) == 14;
    assert LastBrace(s, 8, 14) == Some(13);
    assert MarkerClose(s, 6) == Some(13);
    assert FirstMarker(s, 6) == Some(6);
    assert MarkerClose(s, 5).None? && MarkerClose(s, 4).None? && MarkerClose(s, 3).None?;
    assert MarkerClose(s, 2).None? && MarkerClose(s, 1).None? && MarkerClose(s, 0).None?;
  }

  /** The marker of `Intro {#sec:a}` starts with the space at 5 and captures `sec:a`. */
  lemma ExampleFindMarker()
    ensures FindMarker("Intro {#sec:a}") == Some(Marker(5, 6, 13))
    ensures MarkerLabel("Intro {#sec:a}", Marker(5, 6, 13)) == "sec:a"
  {
    var s := "Intro {#sec:a}";
    ExampleFirstMarker();
    assert SpaceRunStart(s, 5) == 5;
    assert SpaceRunStart(s, 6) == 5;
    assert s[8..13] == "sec:a";
  }

  /** `# Intro {#sec:a}` gets id `sec:a` and text `Intro`. */
  lemma HeaderReferenceExample()
    ensures HeaderReference(Parent(Heading(2, None), [Text("Intro {#sec:a}", None)], None)) ==
      Parent(Heading(2, Some("sec:a")), [Text("Intro", None)], None)
  {
    var s := "Intro {#sec:a}";
    ExampleFindMarker();
    ExampleTrimmed();
    var n := Parent(Heading(2, None), [Text(s, None)], None);
    HeaderReferenceExtracts(n);
  }

  /** Removing the marker from `Intro {#sec:a}` and trimming leaves `Intro`. */
  lemma ExampleTrimmed()
    ensures Trim("Intro {#sec:a}"[..5] + "Intro {#sec:a}"[14..]) == "Intro"
  {
    var s := "Intro {#sec:a}";
    assert s[..5] + s[14..] == "Intro";
    assert !IsJsSpace('I') && !IsJsSpace('o');
    TrimUnchanged("Intro");
  }

  // ----- removePositions -----

  predicate NoPositions(n: Node)
    decreases n
  {
    n.position.None? &&
    (n.Parent? ==> forall i :: 0 <= i < |n.children| ==> NoPositions(n.children[i]))
  }

  /** `removePositions`: every node loses its position. */
  function RemovePositions(n: Node): (r: Node)
    ensures NoPositions(r)
    decreases n
  {
    match n
    case Parent(kind, cs, _) =>
      Parent(kind, seq(|cs|, i requires 0 <= i < |cs| => RemovePositions(cs[i])), None)
    case Text(value, _) => Text(value, None)
    case Code(value, _) => Code(value, None)
    case InlineCode(value, _) => InlineCode(value, None)
    case Image(url, attrs, _) => Image(url, attrs, None)
    case Yaml(value, _) => Yaml(value, None)
    case OtherLeaf(name, value, _) => OtherLeaf(name, value, None)
  }

  /** Positions are the only thing removed: a tree without positions is left unchanged. */
  lemma {:induction false} RemovePositionsKeepsRest(n: Node)
    requires NoPositions(n)
    ensures RemovePositions(n) == n
    decreases n
  {
    match n
    case Parent(kind, cs, _) =>
      forall i | 0 <= i < |cs|
        ensures RemovePositions(cs[i]) == cs[i]
      {
        RemovePositionsKeepsRest(cs[i]);
      }
      assert seq(|cs|, i requires 0 <= i < |cs| => RemovePositions(cs[i])) == cs;
    case _ =>
  }

  /** Removing positions twice is removing them once. */
  lemma RemovePositionsIdempotent(n: Node)
    ensures RemovePositions(RemovePositions(n)) == RemovePositions(n)
  {
    RemovePositionsKeepsRest(RemovePositions(n));
  }

  // ----- addReferences -----

  /** `reference + " "`: an unnumbered heading gets the text "undefined ". */
  function LabelText(number: Option<string>): string {
    (if number.Some? then number.value else "undefined") + " "
  }

  datatype RefState = RefState(stack: seq<nat>, groups: Groups)

  /** What `addReferences` does to a subtree, given the numbering state before it. */
  function LabelNode(n: Node, st: RefState): (Node, RefState)
    decreases n
  {
    match n
    case Parent(kind, cs, pos) =>
      if kind.Heading? then
        var stack := NextStack(st.stack, kind.depth);
        var (cs', st') := LabelSeq(cs, RefState(stack, RecordSection(st.groups, stack, kind.id)));
        (Parent(kind, [Text(LabelText(SectionLabel(stack)), None)] + cs', pos), st')
      else
        var (cs', st') := LabelSeq(cs, st);
        (Parent(kind, cs', pos), st')
    case _ => (n, st)
  }

  function LabelSeq(cs: seq<Node>, st: RefState): (seq<Node>, RefState)
    decreases cs
  {
    if |cs| == 0 then ([], st)
    else
      var (head, st1) := LabelNode(cs[0], st);
      var (tail, st2) := LabelSeq(cs[1..], st1);
      ([head] + tail, st2)
  }

  /** `addReferences`: one numbering state for the whole document, headings visited in document order. */
  method AddReferences(tree: Node, meta: Meta) returns (r: Node)
    ensures r == LabelNode(tree, RefState([], map[])).0
  {
    var references := new DocumentReferences(meta);
    r := AddReferencesTo(references, tree);
  }

  method AddReferencesTo(references: DocumentReferences, n: Node) returns (r: Node)
    modifies references
    ensures (r, RefState(references.stack, references.groups)) ==
            LabelNode(n, RefState(old(references.stack), old(references.groups)))
    decreases n
  {
    match n {
      case Parent(kind, cs, pos) =>
        var number: Option<string> := None;
        if kind.Heading? {
          number := references.GetSection(kind.depth, kind.id);
        }
        ghost var start := RefState(references.stack, references.groups);
        var done: seq<Node> := [];
        var i := 0;
        assert cs[0..] == cs;
        while i < |cs|
          invariant 0 <= i <= |cs|
          invariant LabelSeq(cs, start).0 == done + LabelSeq(cs[i..], RefState(references.stack, references.groups)).0
          invariant LabelSeq(cs, start).1 == LabelSeq(cs[i..], RefState(references.stack, references.groups)).1
        {
          ghost var before := RefState(references.stack, references.groups);
          var child := AddReferencesTo(references, cs[i]);
          ghost var after := RefState(references.stack, references.groups);
          assert cs[i..][0] == cs[i] && cs[i..][1..] == cs[i + 1..];
          assert LabelSeq(cs[i..], before).0 == [child] + LabelSeq(cs[i + 1..], after).0;
          assert LabelSeq(cs[i..], before).1 == LabelSeq(cs[i + 1..], after).1;
          done := done + [child];
          i := i + 1;
        }
        assert cs[i..] == [] && done + [] == done;
        if kind.Heading? {
          r := Parent(kind, [Text(LabelText(number), None)] + done, pos);
        } else {
          r := Parent(kind, done, pos);
        }
      case _ =>
        r := n;
    }
  }

  /** Removes the first child of every heading. */
  function StripLabels(n: Node): Node
    decreases n
  {
    match n
    case Parent(kind, cs, pos) =>
      var rest := if kind.Heading? && |cs| > 0 then cs[1..] else cs;
      Parent(kind, StripSeq(rest), pos)
    case _ => n
  }

  function StripSeq(cs: seq<Node>): seq<Node>
    decreases cs
  {
    if |cs| == 0 then [] else [StripLabels(cs[0])] + StripSeq(cs[1..])
  }

  /** Exactly one text child is prepended to each heading and nothing else changes. */
  lemma {:induction false} LabelNodeStrips(n: Node, st: RefState)
    ensures StripLabels(LabelNode(n, st).0) == n
    decreases n
  {
    match n
    case Parent(kind, cs, pos) =>
      if kind.Heading? {
        var stack := NextStack(st.stack, kind.depth);
        LabelSeqStrips(cs, RefState(stack, RecordSection(st.groups, stack, kind.id)));
        var cs' := LabelSeq(cs, RefState(stack, RecordSection(st.groups, stack, kind.id))).0;
        assert ([Text(LabelText(SectionLabel(stack)), None)] + cs')[1..] == cs';
      } else {
        LabelSeqStrips(cs, st);
      }
    case _ =>
  }

  lemma {:induction false} LabelSeqStrips(cs: seq<Node>, st: RefState)
    ensures StripSeq(LabelSeq(cs, st).0) == cs
    decreases cs
  {
    if |cs| > 0 {
      var (head, st1) := LabelNode(cs[0], st);
      LabelNodeStrips(cs[0], st);
      LabelSeqStrips(cs[1..], st1);
      var out := LabelSeq(cs, st).0;
      assert out[0] == head && out[1..] == LabelSeq(cs[1..], st1).0;
      assert [cs[0]] + cs[1..] == cs;
    }
  }

  /** The depths of the headings of a tree, in document order. */
  function HeadingDepths(n: Node): seq<int>
    decreases n
  {
    match n
    case Parent(kind, cs, _) => (if kind.Heading? then [kind.depth] else []) + HeadingDepthsSeq(cs)
    case _ => []
  }

  function HeadingDepthsSeq(cs: seq<Node>): seq<int>
    decreases cs
  {
    if |cs| == 0 then [] else HeadingDepths(cs[0]) + HeadingDepthsSeq(cs[1..])
  }

  /** The text of the first child of every heading, in document order. */
  function HeadingLabels(n: Node): seq<string>
    decreases n
  {
    match n
    case Parent(kind, cs, _) =>
      (if kind.Heading? && |cs| > 0 && cs[0].Text? then [cs[0].value] else []) + HeadingLabelsSeq(cs)
    case _ => []
  }

  function HeadingLabelsSeq(cs: seq<Node>): seq<string>
    decreases cs
  {
    if |cs| == 0 then [] else HeadingLabels(cs[0]) + HeadingLabelsSeq(cs[1..])
  }

  /** The counters after a run of headings. */
  function FoldStack(stack: seq<nat>, depths: seq<int>): seq<nat>
    decreases |depths|
  {
    if |depths| == 0 then stack else FoldStack(NextStack(stack, depths[0]), depths[1..])
  }

  /** The label texts for a run of headings. */
  function LabelTexts(stack: seq<nat>, depths: seq<int>): (r: seq<string>)
    ensures |r| == |depths|
    decreases |depths|
  {
    if |depths| == 0 then []
    else [LabelText(SectionLabel(NextStack(stack, depths[0])))] + LabelTexts(NextStack(stack, depths[0]), depths[1..])
  }

  lemma {:induction false} FoldStackAppend(stack: seq<nat>, a: seq<int>, b: seq<int>)
    ensures FoldStack(stack, a + b) == FoldStack(FoldStack(stack, a), b)
    ensures LabelTexts(stack, a + b) == LabelTexts(stack, a) + LabelTexts(FoldStack(stack, a), b)
    decreases |a|
  {
    if |a| == 0 {
      assert a + b == b;
    } else {
      assert (a + b)[0] == a[0] && (a + b)[1..] == a[1..] + b;
      FoldStackAppend(NextStack(stack, a[0]), a[1..], b);
    }
  }

  /**
   * `addReferences` numbers the headings in document order: the prepended
   * texts are the section numbers of the heading depths, one after another.
   */
  lemma {:induction false} LabelNodeNumbers(n: Node, st: RefState)
    ensures LabelNode(n, st).1.stack == FoldStack(st.stack, HeadingDepths(n))
    ensures HeadingLabels(LabelNode(n, st).0) == LabelTexts(st.stack, HeadingDepths(n))
    decreases n
  {
    match n
    case Parent(kind, cs, pos) =>
      if kind.Heading? {
        var stack := NextStack(st.stack, kind.depth);
        var st0 := RefState(stack, RecordSection(st.groups, stack, kind.id));
        LabelSeqNumbers(cs, st0);
        var cs' := LabelSeq(cs, st0).0;
        var text := Text(LabelText(SectionLabel(stack)), None);
        assert ([text] + cs')[0] == text && ([text] + cs')[1..] == cs';
        assert HeadingLabelsSeq([text] + cs') == HeadingLabelsSeq(cs');
        FoldStackAppend(st.stack, [kind.depth], HeadingDepthsSeq(cs));
      } else {
        LabelSeqNumbers(cs, st);
        assert HeadingDepths(n) == HeadingDepthsSeq(cs);
      }
    case _ =>
  }

  lemma {:induction false} LabelSeqNumbers(cs: seq<Node>, st: RefState)
    ensures LabelSeq(cs, st).1.stack == FoldStack(st.stack, HeadingDepthsSeq(cs))
    ensures HeadingLabelsSeq(LabelSeq(cs, st).0) == LabelTexts(st.stack, HeadingDepthsSeq(cs))
    decreases cs
  {
    if |cs| > 0 {
      var (head, st1) := LabelNode(cs[0], st);
      LabelNodeNumbers(cs[0], st);
      LabelSeqNumbers(cs[1..], st1);
      var out := LabelSeq(cs, st).0;
      assert out[0] == head && out[1..] == LabelSeq(cs[1..], st1).0;
      FoldStackAppend(st.stack, HeadingDepths(cs[0]), HeadingDepthsSeq(cs[1..]));
    }
  }

  /** Label texts are the section labels of `References` followed by a space. */
  lemma {:induction false} LabelTextsAreLabels(stack: seq<nat>, depths: seq<int>, i: nat)
    requires i < |depths|
    ensures LabelTexts(stack, depths)[i] == LabelText(Labels(stack, depths)[i])
    decreases i
  {
    if i > 0 {
      var next, rest := NextStack(stack, depths[0]), depths[1..];
      LabelTextsAreLabels(next, rest, i - 1);
      assert LabelTexts(stack, depths)[i] == LabelTexts(next, rest)[i - 1];
      assert Stacks(stack, depths)[i] == Stacks(next, rest)[i - 1];
      assert Labels(stack, depths)[i] == SectionLabel(Stacks(next, rest)[i - 1]) == Labels(next, rest)[i - 1];
    }
  }

  /**
   * In a document without top-level headings, `addReferences` gives every
   * heading a different number.
   */
  lemma AddReferencesDistinct(tree: Node, i: nat, j: nat)
    requires forall k :: 0 <= k < |HeadingDepths(tree)| ==> HeadingDepths(tree)[k] >= 2
    requires i < j < |HeadingDepths(tree)|
    ensures var labels := HeadingLabels(LabelNode(tree, RefState([], map[])).0);
      |labels| == |HeadingDepths(tree)| && labels[i] != labels[j]
  {
    var depths := HeadingDepths(tree);
    LabelNodeNumbers(tree, RefState([], map[]));
    LabelTextsAreLabels([], depths, i);
    LabelTextsAreLabels([], depths, j);
    NumbersDistinct([], depths, i, j);
    var a := Labels([], depths)[i].value;
    var b := Labels([], depths)[j].value;
    if a + " " == b + " " {
      SuffixCancels(a, b, " ");
    }
  }

  lemma SuffixCancels(a: string, b: string, suffix: string)
    requires a + suffix == b + suffix
    ensures a == b
  {
    assert a == (a + suffix)[..|a|];
    assert b == (b + suffix)[..|b|];
  }

  // ----- parseImageAttrs -----

  /** The attribute parser the image pass applies to the text after an image. */
  type AttributeParser = string -> Option<Attrs>

  /**
   * The loop over one parent's children: a text right after an image that
   * parses as attributes is removed and its attributes replace the image's
   * data. The pair after a removed text starts at the next child.
   */
  function Absorb(cs: seq<Node>, parse: AttributeParser): seq<Node>
    decreases |cs|
  {
    if |cs| < 2 then cs
    else if cs[0].Image? && cs[1].Text? && parse(cs[1].value).Some? then
      [Image(cs[0].url, parse(cs[1].value), cs[0].position)] + Absorb(cs[2..], parse)
    else [cs[0]] + Absorb(cs[1..], parse)
  }

  lemma {:induction false} AbsorbSmaller(cs: seq<Node>, parse: AttributeParser)
    ensures forall i :: 0 <= i < |Absorb(cs, parse)| ==> Size(Absorb(cs, parse)[i]) <= SizeSeq(cs)
    decreases |cs|
  {
    if |cs| >= 2 {
      if cs[0].Image? && cs[1].Text? && parse(cs[1].value).Some? {
        AbsorbSmaller(cs[2..], parse);
        assert cs[1..][1..] == cs[2..];
      } else {
        AbsorbSmaller(cs[1..], parse);
      }
    }
  }

  /** `parseImageAttrs` on a subtree. */
  function ImageAttrs(n: Node): Node
    decreases Size(n)
  {
    match n
    case Parent(kind, cs, pos) =>
      var xs := Absorb(cs, AttributesOf);
      AbsorbSmaller(cs, AttributesOf);
      Parent(kind, seq(|xs|, i requires 0 <= i < |xs| => ImageAttrs(xs[i])), pos)
    case _ => n
  }

  /** `parseImageAttrs`: the splice loop on each parent, then its (new) children. */
  method ParseImageAttrs(n: Node) returns (r: Node)
    ensures r == ImageAttrs(n)
    decreases Size(n), 1
  {
    match n {
      case Parent(kind, cs, pos) =>
        var children := AbsorbAttributeTexts(cs);
        AbsorbSmaller(cs, AttributesOf);
        var out := ParseImageAttrsChildren(children, Size(n));
        r := Parent(kind, out, pos);
      case _ =>
        r := n;
    }
  }

  /** The recursive calls of `parseImageAttrs` on the children, in order; each child is smaller than `bound`. */
  method ParseImageAttrsChildren(children: seq<Node>, ghost bound: nat) returns (out: seq<Node>)
    requires forall k :: 0 <= k < |children| ==> Size(children[k]) < bound
    ensures out == seq(|children|, i requires 0 <= i < |children| => ImageAttrs(children[i]))
    decreases bound, 0
  {
    out := [];
    var j := 0;
    while j < |children|
      invariant 0 <= j <= |children|
      invariant |out| == j && forall k :: 0 <= k < j ==> out[k] == ImageAttrs(children[k])
    {
      var child := ParseImageAttrs(children[j]);
      out := out + [child];
      j := j + 1;
    }
  }

  /** The `for` loop of `parseImageAttrs` over one parent's children. */
  method AbsorbAttributeTexts(cs: seq<Node>) returns (children: seq<Node>)
    ensures children == Absorb(cs, AttributesOf)
  {
    children := cs;
    var i := 1;
    assert cs[0..] == cs;
    while i < |children|
      invariant 1 <= i <= |children| + 1
      invariant Absorb(cs, AttributesOf) == children[..i - 1] + Absorb(children[i - 1..], AttributesOf)
      decreases |children| + 1 - i
    {
      var previous := children[i - 1];
      var current := children[i];
      var attrs := None;
      if previous.Image? && current.Text? {
        attrs := ParseAttributes(current.value);
      }
      if attrs.Some? {
        AbsorbTake(children, i, AttributesOf);
        children := children[..i - 1] + [Image(previous.url, attrs, previous.position)] + children[i + 1..];
      } else {
        AbsorbKeep(children, i, AttributesOf);
      }
      i := i + 1;
    }
    AbsorbDone(cs, children, i, AttributesOf);
  }

  /** Past the last pair, nothing is left to absorb. */
  lemma AbsorbDone(cs: seq<Node>, children: seq<Node>, i: nat, parse: AttributeParser)
    requires 1 <= i && |children| <= i <= |children| + 1
    requires Absorb(cs, parse) == children[..i - 1] + Absorb(children[i - 1..], parse)
    ensures Absorb(cs, parse) == children
  {
    assert Absorb(children[i - 1..], parse) == children[i - 1..];
    assert children[..i - 1] + children[i - 1..] == children;
  }

  /** The pair at `i - 1`, `i` is not absorbed: the child at `i - 1` stays. */
  lemma AbsorbKeep(xs: seq<Node>, i: nat, parse: AttributeParser)
    requires 1 <= i < |xs|
    requires !(xs[i - 1].Image? && xs[i].Text? && parse(xs[i].value).Some?)
    ensures xs[..i - 1] + Absorb(xs[i - 1..], parse) == xs[..i] + Absorb(xs[i..], parse)
  {
    assert xs[i - 1..][1..] == xs[i..];
    assert xs[..i - 1] + [xs[i - 1]] == xs[..i];
  }

  /** The pair at `i - 1`, `i` is absorbed: the image takes the attributes, the text goes. */
  lemma AbsorbTake(xs: seq<Node>, i: nat, parse: AttributeParser)
    requires 1 <= i < |xs|
    requires xs[i - 1].Image? && xs[i].Text? && parse(xs[i].value).Some?
    ensures var ys := xs[..i - 1] + [Image(xs[i - 1].url, parse(xs[i].value), xs[i - 1].position)] + xs[i + 1..];
      xs[..i - 1] + Absorb(xs[i - 1..], parse) == ys[..i] + Absorb(ys[i..], parse)
  {
    var img := Image(xs[i - 1].url, parse(xs[i].value), xs[i - 1].position);
    var ys := xs[..i - 1] + [img] + xs[i + 1..];
    var rest := Absorb(xs[i + 1..], parse);
    AbsorbPair(xs[i - 1..], parse);
    assert xs[i - 1..][2..] == xs[i + 1..];
    assert Absorb(xs[i - 1..], parse) == [img] + rest;
    assert ys[i..] == xs[i + 1..];
    assert ys[..i] == xs[..i - 1] + [img];
    assert xs[..i - 1] + ([img] + rest) == (xs[..i - 1] + [img]) + rest;
  }

  /** An image followed by a text that parses as attributes becomes one image. */
  lemma AbsorbPair(cs: seq<Node>, parse: AttributeParser)
    requires |cs| >= 2 && cs[0].Image? && cs[1].Text? && parse(cs[1].value).Some?
    ensures Absorb(cs, parse) == [Image(cs[0].url, parse(cs[1].value), cs[0].position)] + Absorb(cs[2..], parse)
  {
  }

  /** The nodes other than texts, with image attributes set aside. */
  function Skeleton(cs: seq<Node>): seq<Node>
    decreases |cs|
  {
    if |cs| == 0 then []
    else if cs[0].Text? then Skeleton(cs[1..])
    else [if cs[0].Image? then Image(cs[0].url, None, cs[0].position) else cs[0]] + Skeleton(cs[1..])
  }

  /** Images given attributes. */
  function AttributedImages(cs: seq<Node>): nat
    decreases |cs|
  {
    if |cs| == 0 then 0 else (if cs[0].Image? && cs[0].attrs.Some? then 1 else 0) + AttributedImages(cs[1..])
  }

  /** Only texts are removed: every other child keeps its place in the order. */
  lemma {:induction false} AbsorbKeepsOthers(cs: seq<Node>, parse: AttributeParser)
    ensures Skeleton(Absorb(cs, parse)) == Skeleton(cs)
    decreases |cs|
  {
    if |cs| >= 2 {
      if cs[0].Image? && cs[1].Text? && parse(cs[1].value).Some? {
        AbsorbKeepsOthers(cs[2..], parse);
        var out := Absorb(cs, parse);
        assert out[1..] == Absorb(cs[2..], parse);
        assert cs[1..][1..] == cs[2..];
      } else {
        AbsorbKeepsOthers(cs[1..], parse);
        var out := Absorb(cs, parse);
        assert out[1..] == Absorb(cs[1..], parse);
      }
    }
  }

  /** When no image had attributes, one text was removed for each image that now has them. */
  lemma {:induction false} AbsorbCount(cs: seq<Node>, parse: AttributeParser)
    requires AttributedImages(cs) == 0
    ensures |Absorb(cs, parse)| + AttributedImages(Absorb(cs, parse)) == |cs|
    decreases |cs|
  {
    if |cs| >= 2 {
      assert AttributedImages(cs[1..]) == 0;
      if cs[0].Image? && cs[1].Text? && parse(cs[1].value).Some? {
        assert cs[1..][1..] == cs[2..];
        assert AttributedImages(cs[2..]) == 0;
        AbsorbCount(cs[2..], parse);
        var out := Absorb(cs, parse);
        assert out[1..] == Absorb(cs[2..], parse);
      } else {
        AbsorbCount(cs[1..], parse);
        var out := Absorb(cs, parse);
        assert out[1..] == Absorb(cs[1..], parse);
      }
    }
  }

  /** `![](u){a=1}` becomes one image with attribute `a` = "1". */
  lemma AbsorbExample(u: string)
    ensures Absorb([Image(u, None, None), Text("{a=1}", None)], AttributesOf) == [Image(u, Some(map["a" := Some("1")]), None)]
  {
    ExampleUnquoted();
    var cs := [Image(u, None, None), Text("{a=1}", None)];
    assert cs[2..] == [];
  }

  // ----- parseMarkdown -----

  /** The passes of `parseMarkdown` after the parser, in the source's order. */
  method PostProcess(tree: Node, meta: Meta) returns (r: Node)
    ensures r == ImageAttrs(LabelNode(RemovePositions(AddHeaderReferences(tree)), RefState([], map[])).0)
  {
    var withIds := AddHeaderReferences(tree);
    var bare := RemovePositions(withIds);
    var numbered := AddReferences(bare, meta);
    r := ParseImageAttrs(numbered);
  }
}
