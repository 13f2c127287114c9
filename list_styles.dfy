/**
 * List styling of the generated document (`applyListStyles`,
 * `addNewNumberings`). The generator brackets every list with the comments
 * `ListMode OrderedList` / `ListMode BulletList` … `ListMode None`; one
 * walk over the document keeps a stack of list contexts, gives each list a
 * fresh numbering id from 10000 upwards, and restyles the paragraphs
 * inside it. The new ids are then declared in the numbering part, each
 * restarting every level at 1.
 */
module ListStyles {
  import opened Wrappers
  import opened Strings
  import opened Xml

  datatype ListKind = OrderedList | BulletList

  /** A list rule: the paragraph style of its items and the numbering it refers to. */
  datatype ListRule = ListRule(styleName: Option<string>, numId: string)

  /** The rules for ordered, bullet and literature lists (`patchRules`). */
  datatype ListRules = ListRules(ordered: ListRule, bullet: ListRule, lit: ListRule)

  function RuleOf(rules: ListRules, kind: ListKind): ListRule {
    match kind
    case OrderedList => rules.ordered
    case BulletList => rules.bullet
  }

  /** The active list: its numbering id and its kind (`currentState`). */
  datatype ListContext = ListContext(numId: nat, kind: ListKind)

  /**
   * The variables the walk's callback updates: the saved contexts, the
   * current one (`undefined` is `None`), the last id handed out, and the
   * new numbering entries (id, numbering it instantiates) in insertion order.
   */
  datatype PassState = PassState(stack: seq<Option<ListContext>>, current: Option<ListContext>,
                                 lastId: nat, newStyles: seq<(string, string)>)

  const FirstListId: nat := 10000

  function Start(): PassState {
    PassState([], None, FirstListId, [])
  }

  /** A `ListMode OrderedList` / `ListMode BulletList` comment: save the context, open a new list. */
  function Enter(st: PassState, kind: ListKind, rules: ListRules): PassState {
    PassState(st.stack + [st.current], Some(ListContext(st.lastId, kind)), st.lastId + 1,
              st.newStyles + [(NatToString(st.lastId), RuleOf(rules, kind).numId)])
  }

  /** A `ListMode None` comment: the saved context comes back (none when nothing is saved). */
  function Leave(st: PassState): PassState {
    if |st.stack| == 0 then PassState([], None, st.lastId, st.newStyles)
    else PassState(st.stack[..|st.stack| - 1], st.stack[|st.stack| - 1], st.lastId, st.newStyles)
  }

  /** The three independent comment tests, in the source's order. */
  function OnComment(st: PassState, text: string, rules: ListRules): PassState {
    var st1 := if Contains(text, "ListMode OrderedList") then Enter(st, OrderedList, rules) else st;
    var st2 := if Contains(text, "ListMode BulletList") then Enter(st1, BulletList, rules) else st1;
    if Contains(text, "ListMode None") then Leave(st2) else st2
  }

  /** The `w:pStyle` a paragraph inside a list of this kind receives. */
  function ListStyleTag(rules: ListRules, kind: ListKind): Node {
    SetAttr(Build("w:pStyle"), "w:val", RuleOf(rules, kind).styleName)
  }

  /** The children the walk descends into after the callback (the pushed `w:pStyle` aside). */
  function KeptChildren(n: Node, st: PassState): seq<Node>
    requires n.Element?
  {
    if n.tag == "w:pPr" && st.current.Some? then RemoveChildren(n.children, "w:pStyle") else n.children
  }

  /** The children the callback appends: the list's `w:pStyle`, for paragraph properties inside a list. */
  function AddedChildren(n: Node, st: PassState, rules: ListRules): seq<Node>
    requires n.Element?
  {
    if n.tag == "w:pPr" && st.current.Some? then [ListStyleTag(rules, st.current.value.kind)] else []
  }

  /**
   * The callback's effect on a node's own attributes: a `w:numId` inside a
   * list refers to the list's numbering id.
   */
  function OwnAttrs(n: Node, st: PassState): map<string, string>
    requires n.Element?
  {
    if n.tag == "w:numId" && st.current.Some? then SetAttr(n, "w:val", Some(NatToString(st.current.value.numId))).attrs
    else n.attrs
  }

  /** The state after the callback on `n`: only comments change it. */
  function Callback(n: Node, st: PassState, rules: ListRules): PassState {
    if n.Comment? then OnComment(st, n.comment, rules) else st
  }

  /**
   * The walk (`visitSubtree`, pre-order): the callback on the node, then the
   * children. The `w:pStyle` the callback appends is visited last and, being
   * an element without children that is neither `w:pPr` nor `w:numId`,
   * changes nothing, so it is attached after the walk over the others.
   */
  function ListPass(n: Node, st: PassState, rules: ListRules): (Node, PassState)
    decreases Size(n), 1
  {
    match n
    case Element(tag, attrs, cs) =>
      var kept := KeptChildren(n, st);
      RemoveChildrenSize(cs, "w:pStyle");
      var (cs', st') := ListPassSeq(kept, st, rules);
      (Element(tag, OwnAttrs(n, st), cs' + AddedChildren(n, st, rules)), st')
    case _ => (n, Callback(n, st, rules))
  }

  function ListPassSeq(cs: seq<Node>, st: PassState, rules: ListRules): (seq<Node>, PassState)
    decreases SizeSeq(cs), 0
  {
    if |cs| == 0 then ([], st)
    else
      var (head, st1) := ListPass(cs[0], st, rules);
      var (tail, st2) := ListPassSeq(cs[1..], st1, rules);
      ([head] + tail, st2)
  }

  /** The appended `w:pStyle`, visited like any node, changes neither itself nor the state. */
  lemma PushedStyleUnaffected(st: PassState, rules: ListRules, kind: ListKind)
    ensures ListPass(ListStyleTag(rules, kind), st, rules) == (ListStyleTag(rules, kind), st)
  {
    var t := ListStyleTag(rules, kind);
    assert t.Element? && t.tag == "w:pStyle" && t.children == [];
    assert KeptChildren(t, st) == [] && AddedChildren(t, st, rules) == [];
    assert ListPassSeq([], st, rules) == ([], st);
    assert t == Element(t.tag, OwnAttrs(t, st), [] + []);
  }

  /** The walk's closure state, as a class: `applyListStyles`' local variables. */
  class ListStyler {
    var stack: seq<Option<ListContext>>
    var current: Option<ListContext>
    var lastId: nat
    var newStyles: seq<(string, string)>
    const rules: ListRules

    function State(): PassState
      reads this
    {
      PassState(stack, current, lastId, newStyles)
    }

    constructor (rules: ListRules)
      ensures State() == Start() && this.rules == rules
    {
      stack := [];
      current := None;
      lastId := FirstListId;
      newStyles := [];
      this.rules := rules;
    }

    /** Opens a list of the given kind: `stack.push(currentState)`, a fresh id, a new entry. */
    method EnterList(kind: ListKind)
      modifies this
      ensures State() == Enter(old(State()), kind, rules)
    {
      stack := stack + [current];
      current := Some(ListContext(lastId, kind));
      lastId := lastId + 1;
      newStyles := newStyles + [(NatToString(current.value.numId), RuleOf(rules, kind).numId)];
    }

    /** The callback on a comment: the three `ListMode` tests, in order. */
    method OnListComment(text: string)
      modifies this
      ensures State() == OnComment(old(State()), text, rules)
    {
      if Contains(text, "ListMode OrderedList") {
        EnterList(OrderedList);
      }
      if Contains(text, "ListMode BulletList") {
        EnterList(BulletList);
      }
      if Contains(text, "ListMode None") {
        if |stack| == 0 {
          current := None;
        } else {
          current := stack[|stack| - 1];
          stack := stack[..|stack| - 1];
        }
      }
    }

    /** The walk over one node and, after the callback, its children. */
    method Visit(n: Node) returns (r: Node)
      modifies this
      ensures (r, State()) == ListPass(n, old(State()), rules)
      decreases Size(n), 1
    {
      match n {
        case Comment(text) =>
          OnListComment(text);
          r := n;
        case Text(_) =>
          r := n;
        case Element(tag, attrs, cs) =>
          ghost var start := State();
          var kept := cs;
          var added: seq<Node> := [];
          var ownAttrs := attrs;
          if tag == "w:pPr" && current.Some? {
            kept := RemoveChildren(cs, "w:pStyle");
            added := [ListStyleTag(rules, current.value.kind)];
          }
          if tag == "w:numId" && current.Some? {
            ownAttrs := attrs["w:val" := NatToString(current.value.numId)];
          }
          assert kept == KeptChildren(n, start) && added == AddedChildren(n, start, rules);
          assert ownAttrs == OwnAttrs(n, start);
          RemoveChildrenSize(cs, "w:pStyle");
          var done := VisitChildren(kept);
          r := Element(tag, ownAttrs, done + added);
      }
    }

    /** The walk over the children, left to right, threading the state. */
    method VisitChildren(kept: seq<Node>) returns (done: seq<Node>)
      modifies this
      ensures (done, State()) == ListPassSeq(kept, old(State()), rules)
      decreases SizeSeq(kept), 0
    {
      ghost var start := State();
      done := [];
      var i := 0;
      assert kept[0..] == kept;
      while i < |kept|
        invariant 0 <= i <= |kept|
        invariant ListPassSeq(kept, start, rules).0 == done + ListPassSeq(kept[i..], State(), rules).0
        invariant ListPassSeq(kept, start, rules).1 == ListPassSeq(kept[i..], State(), rules).1
      {
        ghost var before := State();
        SizeSeqBound(kept, i);
        var child := Visit(kept[i]);
        ghost var after := State();
        assert kept[i..][0] == kept[i] && kept[i..][1..] == kept[i + 1..];
        assert ListPassSeq(kept[i..], before, rules).0 == [child] + ListPassSeq(kept[i + 1..], after, rules).0;
        assert ListPassSeq(kept[i..], before, rules).1 == ListPassSeq(kept[i + 1..], after, rules).1;
        done := done + [child];
        i := i + 1;
      }
      assert kept[i..] == [] && done + [] == done;
    }
  }

  /** Each child of a list is smaller than the list. */
  lemma {:induction false} SizeSeqBound(cs: seq<Node>, i: nat)
    requires i < |cs|
    ensures Size(cs[i]) < SizeSeq(cs)
  {
    if i > 0 {
      SizeSeqBound(cs[1..], i - 1);
    }
  }

  /** `applyListStyles`: the document with its lists restyled, and the new numbering entries. */
  method ApplyListStyles(doc: Node, rules: ListRules) returns (r: Node, newStyles: seq<(string, string)>)
    ensures r == ListPass(doc, Start(), rules).0
    ensures newStyles == ListPass(doc, Start(), rules).1.newStyles
  {
    var styler := new ListStyler(rules);
    r := styler.Visit(doc);
    newStyles := styler.newStyles;
  }

  // ----- properties of the walk -----

  /** Every id handed out is the next one from 10000 and is recorded, in order, with its numbering. */
  predicate Numbered(st: PassState) {
    st.lastId == FirstListId + |st.newStyles| &&
    forall i :: 0 <= i < |st.newStyles| ==> st.newStyles[i].0 == NatToString(FirstListId + i)
  }

  lemma NumberedStart()
    ensures Numbered(Start())
  {
  }

  lemma EnterKeepsNumbered(st: PassState, kind: ListKind, rules: ListRules)
    requires Numbered(st)
    ensures Numbered(Enter(st, kind, rules))
    ensures Enter(st, kind, rules).newStyles[|st.newStyles|] == (NatToString(st.lastId), RuleOf(rules, kind).numId)
  {
    var st' := Enter(st, kind, rules);
    assert forall i :: 0 <= i < |st.newStyles| ==> st'.newStyles[i] == st.newStyles[i];
  }

  lemma OnCommentKeepsNumbered(st: PassState, text: string, rules: ListRules)
    requires Numbered(st)
    ensures Numbered(OnComment(st, text, rules))
    ensures |OnComment(st, text, rules).newStyles| >= |st.newStyles|
    ensures OnComment(st, text, rules).newStyles[..|st.newStyles|] == st.newStyles
  {
    var st1 := if Contains(text, "ListMode OrderedList") then Enter(st, OrderedList, rules) else st;
    if Contains(text, "ListMode OrderedList") {
      EnterKeepsNumbered(st, OrderedList, rules);
    }
    var st2 := if Contains(text, "ListMode BulletList") then Enter(st1, BulletList, rules) else st1;
    if Contains(text, "ListMode BulletList") {
      EnterKeepsNumbered(st1, BulletList, rules);
    }
    assert st2.newStyles[..|st.newStyles|] == st.newStyles;
  }

  /** The walk only appends numbering entries, and keeps the ids consecutive from 10000. */
  lemma {:induction false} ListPassKeepsNumbered(n: Node, st: PassState, rules: ListRules)
    requires Numbered(st)
    ensures Numbered(ListPass(n, st, rules).1)
    ensures |ListPass(n, st, rules).1.newStyles| >= |st.newStyles|
    ensures ListPass(n, st, rules).1.newStyles[..|st.newStyles|] == st.newStyles
    decreases Size(n), 1
  {
    match n
    case Element(_, _, cs) =>
      RemoveChildrenSize(cs, "w:pStyle");
      ListPassSeqKeepsNumbered(KeptChildren(n, st), st, rules);
    case Comment(text) =>
      OnCommentKeepsNumbered(st, text, rules);
    case Text(_) =>
  }

  lemma {:induction false} ListPassSeqKeepsNumbered(cs: seq<Node>, st: PassState, rules: ListRules)
    requires Numbered(st)
    ensures Numbered(ListPassSeq(cs, st, rules).1)
    ensures |ListPassSeq(cs, st, rules).1.newStyles| >= |st.newStyles|
    ensures ListPassSeq(cs, st, rules).1.newStyles[..|st.newStyles|] == st.newStyles
    decreases SizeSeq(cs), 0
  {
    if |cs| > 0 {
      var st1 := ListPass(cs[0], st, rules).1;
      ListPassKeepsNumbered(cs[0], st, rules);
      ListPassSeqKeepsNumbered(cs[1..], st1, rules);
      var st2 := ListPassSeq(cs[1..], st1, rules).1;
      assert st2.newStyles[..|st.newStyles|] == st2.newStyles[..|st1.newStyles|][..|st.newStyles|];
    }
  }

  /** The numbering ids the walk creates are pairwise different. */
  lemma NewNumberingIdsDistinct(doc: Node, rules: ListRules, i: nat, j: nat)
    requires i < j < |ListPass(doc, Start(), rules).1.newStyles|
    ensures ListPass(doc, Start(), rules).1.newStyles[i].0 != ListPass(doc, Start(), rules).1.newStyles[j].0
  {
    ListPassKeepsNumbered(doc, Start(), rules);
    var ns := ListPass(doc, Start(), rules).1.newStyles;
    if ns[i].0 == ns[j].0 {
      NatToStringInjective(FirstListId + i, FirstListId + j);
    }
  }

  /** A list that is opened and closed again leaves the enclosing context as it was. */
  lemma EnterLeave(st: PassState, kind: ListKind, rules: ListRules)
    ensures Leave(Enter(st, kind, rules)).stack == st.stack
    ensures Leave(Enter(st, kind, rules)).current == st.current
    ensures Leave(Enter(st, kind, rules)).lastId == st.lastId + 1
  {
    assert (st.stack + [st.current])[..|st.stack|] == st.stack;
  }

  /** An opening comment makes the new list current with the next id; its numbering is recorded. */
  lemma OpeningComment(st: PassState, kind: ListKind, rules: ListRules)
    ensures var text := if kind == OrderedList then "ListMode OrderedList" else "ListMode BulletList";
      var st' := OnComment(st, text, rules);
      st'.current == Some(ListContext(st.lastId, kind)) && st'.stack == st.stack + [st.current] &&
      st'.newStyles == st.newStyles + [(NatToString(st.lastId), RuleOf(rules, kind).numId)]
  {
    var text := if kind == OrderedList then "ListMode OrderedList" else "ListMode BulletList";
    ContainsSelf(text);
    if kind == OrderedList {
      OrderedLacksOthers();
      NotContains(text, "ListMode BulletList", 9);
      NotContains(text, "ListMode None", 9);
    } else {
      BulletLacksOthers();
      NotContains(text, "ListMode OrderedList", 9);
      NotContains(text, "ListMode None", 9);
    }
  }

  /** `B` and `N` do not occur in the ordered list's opening comment. */
  lemma OrderedLacksOthers()
    ensures "ListMode BulletList"[9] !in "ListMode OrderedList"
    ensures "ListMode None"[9] !in "ListMode OrderedList"
  {
  }

  /** `O` and `N` do not occur in the bullet list's opening comment. */
  lemma BulletLacksOthers()
    ensures "ListMode OrderedList"[9] !in "ListMode BulletList"
    ensures "ListMode None"[9] !in "ListMode BulletList"
  {
  }

  /** A closing comment restores the saved context. */
  lemma ClosingComment(st: PassState, rules: ListRules)
    ensures OnComment(st, "ListMode None", rules) == Leave(st)
  {
    ContainsSelf("ListMode None");
    NotContains("ListMode None", "ListMode OrderedList", 9);
    NotContains("ListMode None", "ListMode BulletList", 9);
  }

  /** A text lacking one of the pattern's characters does not contain the pattern. */
  lemma NotContains(text: string, pat: string, k: nat)
    requires k < |pat| && pat[k] !in text
    ensures !Contains(text, pat)
  {
    if IndexOf(text, pat).Some? {
      OccurrenceHasChars(text, pat, IndexOf(text, pat).value, k);
    }
  }

  lemma OccurrenceHasChars(text: string, pat: string, j: nat, k: nat)
    requires OccursAt(text, pat, j) && k < |pat|
    ensures pat[k] in text
  {
    assert text[j..j + |pat|][k] == text[j + k];
  }

  /** A paragraph's properties inside a list: the old `w:pStyle` entries go and the list's style is the last child. */
  lemma ParagraphPropertiesRestyled(n: Node, st: PassState, rules: ListRules)
    requires IsTag(n, "w:pPr") && st.current.Some?
    ensures var r := ListPass(n, st, rules).0;
      r.Element? && |r.children| >= 1 &&
      r.children[|r.children| - 1] == ListStyleTag(rules, st.current.value.kind) &&
      GetAttr(r.children[|r.children| - 1], "w:val") == RuleOf(rules, st.current.value.kind).styleName &&
      forall i :: 0 <= i < |r.children| - 1 ==> !IsTag(r.children[i], "w:pStyle")
    ensures var r := ListPass(n, st, rules).0;
      r.Element? && |r.children| >= 1 &&
      r.children[..|r.children| - 1] == ListPassSeq(RemoveChildren(n.children, "w:pStyle"), st, rules).0
  {
    var kept := RemoveChildren(n.children, "w:pStyle");
    RemoveChildrenSize(n.children, "w:pStyle");
    ListPassSeqKeepsTags(kept, st, rules);
    var cs' := ListPassSeq(kept, st, rules).0;
    assert (cs' + [ListStyleTag(rules, st.current.value.kind)])[..|cs'|] == cs';
  }

  /** No comment in the subtree holds any of the three `ListMode` markers. */
  predicate NoListComments(n: Node) {
    forall x :: x in Flatten(n) && x.Comment? ==>
      !Contains(x.comment, "ListMode OrderedList") && !Contains(x.comment, "ListMode BulletList") &&
      !Contains(x.comment, "ListMode None")
  }

  /** Outside any list, a subtree without list comments comes back unchanged and leaves the state alone. */
  lemma {:induction false} ListPassOutsideList(n: Node, st: PassState, rules: ListRules)
    requires st.current.None? && NoListComments(n)
    ensures ListPass(n, st, rules) == (n, st)
    decreases Size(n), 1
  {
    match n
    case Element(tag, attrs, cs) =>
      assert forall x :: x in FlattenSeq(cs) ==> x in Flatten(n);
      ListPassSeqOutsideList(cs, st, rules);
      assert cs + [] == cs;
    case _ =>
  }

  lemma {:induction false} ListPassSeqOutsideList(cs: seq<Node>, st: PassState, rules: ListRules)
    requires st.current.None?
    requires forall x :: x in FlattenSeq(cs) && x.Comment? ==>
      !Contains(x.comment, "ListMode OrderedList") && !Contains(x.comment, "ListMode BulletList") &&
      !Contains(x.comment, "ListMode None")
    ensures ListPassSeq(cs, st, rules) == (cs, st)
    decreases SizeSeq(cs), 0
  {
    if |cs| > 0 {
      assert FlattenSeq(cs) == Flatten(cs[0]) + FlattenSeq(cs[1..]);
      ListPassOutsideList(cs[0], st, rules);
      ListPassSeqOutsideList(cs[1..], st, rules);
      assert [cs[0]] + cs[1..] == cs;
    }
  }

  /** A numbering reference inside a list points at the list's id. */
  lemma NumIdRetargeted(n: Node, st: PassState, rules: ListRules)
    requires IsTag(n, "w:numId") && st.current.Some?
    ensures GetAttr(ListPass(n, st, rules).0, "w:val") == Some(NatToString(st.current.value.numId))
  {
  }

  /** The walk keeps every node's kind and tag. */
  lemma {:induction false} ListPassKeepsTag(n: Node, st: PassState, rules: ListRules)
    ensures ListPass(n, st, rules).0.Element? == n.Element?
    ensures n.Element? ==> ListPass(n, st, rules).0.tag == n.tag
    decreases Size(n), 1
  {
  }

  lemma {:induction false} ListPassSeqKeepsTags(cs: seq<Node>, st: PassState, rules: ListRules)
    ensures |ListPassSeq(cs, st, rules).0| == |cs|
    ensures forall i :: 0 <= i < |cs| ==> (IsTag(ListPassSeq(cs, st, rules).0[i], "w:pStyle") <==> IsTag(cs[i], "w:pStyle"))
    decreases SizeSeq(cs), 0
  {
    if |cs| > 0 {
      var st1 := ListPass(cs[0], st, rules).1;
      ListPassKeepsTag(cs[0], st, rules);
      ListPassSeqKeepsTags(cs[1..], st1, rules);
      var r := ListPassSeq(cs, st, rules).0;
      forall i | 0 <= i < |cs|
        ensures IsTag(r[i], "w:pStyle") <==> IsTag(cs[i], "w:pStyle")
      {
        if i > 0 {
          assert r[i] == ListPassSeq(cs[1..], st1, rules).0[i - 1];
          assert cs[i] == cs[1..][i - 1];
        }
      }
    }
  }

  // ----- addNewNumberings -----

  /** One level override: level `i` restarts at 1. */
  function LevelRestart(i: nat): Node {
    Element("w:lvlOverride", map["w:ilvl" := NatToString(i)], [Element("w:startOverride", map["w:val" := "1"], [])])
  }

  /** The nine overrides of a new numbering, built by the `for (i = 0; i < 9; i++)` loop. */
  method LevelRestarts() returns (overrides: seq<Node>)
    ensures |overrides| == 9
    ensures forall i :: 0 <= i < 9 ==> overrides[i] == LevelRestart(i)
  {
    overrides := [];
    var i := 0;
    while i < 9
      invariant 0 <= i <= 9 && |overrides| == i
      invariant forall k :: 0 <= k < i ==> overrides[k] == LevelRestart(k)
    {
      overrides := overrides + [LevelRestart(i)];
      i := i + 1;
    }
  }

  /** `<w:num w:numId="newNum"><w:abstractNumId w:val="oldNum"/> …overrides… </w:num>`. */
  function NumEntry(newNum: string, oldNum: string, overrides: seq<Node>): Node {
    Element("w:num", map["w:numId" := newNum], [Element("w:abstractNumId", map["w:val" := oldNum], [])] + overrides)
  }

  /** A `w:num` declaring `newNum` as an instance of `oldNum`, every level restarting at 1. */
  predicate IsNumEntry(n: Node, newNum: string, oldNum: string) {
    n.Element? && n.tag == "w:num" && GetAttr(n, "w:numId") == Some(newNum) &&
    |n.children| == 10 && n.children[0] == Element("w:abstractNumId", map["w:val" := oldNum], []) &&
    forall i :: 0 <= i < 9 ==> n.children[i + 1] == LevelRestart(i)
  }

  /** `addNewNumberings`: one `w:num` per entry, in order, appended to the numbering part's children. */
  method AddNewNumberings(numbering: seq<Node>, newListStyles: seq<(string, string)>) returns (r: seq<Node>)
    ensures |r| == |numbering| + |newListStyles| && r[..|numbering|] == numbering
    ensures forall k :: 0 <= k < |newListStyles| ==> IsNumEntry(r[|numbering| + k], newListStyles[k].0, newListStyles[k].1)
  {
    r := numbering;
    var k := 0;
    while k < |newListStyles|
      invariant 0 <= k <= |newListStyles|
      invariant |r| == |numbering| + k && r[..|numbering|] == numbering
      invariant forall j :: 0 <= j < k ==> IsNumEntry(r[|numbering| + j], newListStyles[j].0, newListStyles[j].1)
    {
      var overrides := LevelRestarts();
      var entry := NumEntry(newListStyles[k].0, newListStyles[k].1, overrides);
      assert IsNumEntry(entry, newListStyles[k].0, newListStyles[k].1);
      r := r + [entry];
      k := k + 1;
    }
  }
}
