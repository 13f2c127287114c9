/**
 * Section numbering, cross-reference numbering and citations
 * (src/markdown/document-references.ts). A heading of depth `d` is numbered
 * at level `d - 1`, so top-level headings get no number and restart the
 * numbering below them. References are grouped by the prefix before the first
 * `:`; an unseen reference gets the next number in its group.
 */
module References {
  import opened Wrappers
  import opened Strings
  import opened JsonMeta

  /** Headings at this depth or above are not numbered. */
  const DepthThreshold: nat := 1

  type Group = map<string, string>
  type Groups = map<string, Group>

  /** The numbering level a heading of the given depth sits at. */
  function Level(depth: int): nat {
    if depth - DepthThreshold > 0 then depth - DepthThreshold else 0
  }

  function Ones(n: nat): (r: seq<nat>)
    ensures |r| == n && forall i :: 0 <= i < n ==> r[i] == 1
  {
    if n == 0 then [] else Ones(n - 1) + [1]
  }

  /**
   * The counter stack after a heading: cut to the heading's level, then
   * either bump the last counter (when the stack reached that level) or pad
   * with ones.
   */
  function NextStack(stack: seq<nat>, depth: int): seq<nat> {
    var d := Level(depth);
    if |stack| >= d then
      if d == 0 then [] else stack[..d - 1] + [stack[d - 1] + 1]
    else stack + Ones(d - |stack|)
  }

  /** `stack.join(".")`. */
  function Dotted(stack: seq<nat>): string {
    Join(seq(|stack|, i requires 0 <= i < |stack| => NatToString(stack[i])), ".")
  }

  /** The number shown for a heading: none at level 0, a trailing dot at level 1. */
  function SectionLabel(stack: seq<nat>): Option<string> {
    if |stack| == 0 then None
    else if |stack| == 1 then Some(Dotted(stack) + ".")
    else Some(Dotted(stack))
  }

  /** The group of a prefix, empty while it has not been created. */
  function GroupOf(groups: Groups, prefix: string): Group {
    if prefix in groups then groups[prefix] else map[]
  }

  /** The prefix a reference or heading id is grouped under. */
  function Prefix(key: string): string {
    BeforeFirst(key, ':')
  }

  /** Groups after a heading: a non-empty id is stored with the number without its trailing dot. */
  function RecordSection(groups: Groups, stack: seq<nat>, id: Option<string>): Groups {
    if |stack| > 0 && id.Some? && |id.value| > 0 then
      groups[Prefix(id.value) := GroupOf(groups, Prefix(id.value))[id.value := Dotted(stack)]]
    else groups
  }

  /** The number of a reference and the groups after looking it up. */
  function ReferenceStep(groups: Groups, reference: string): (string, Groups) {
    var prefix := Prefix(reference);
    var group := GroupOf(groups, prefix);
    if reference in group then (group[reference], groups[prefix := group])
    else
      var index := NatToString(|group| + 1);
      (index, groups[prefix := group[reference := index]])
  }

  /** The citation text for a reference, scanning `links` from index `i`. */
  function CiteFrom(links: seq<Meta>, i: nat, reference: string): Result<string, MetaError>
    requires i <= |links|
    decreases |links| - i
  {
    if i == |links| then Ok("[?]")
    else if links[i].IsMap() then
      match links[i].GetString("id")
      case Err(e) => Err(e)
      case Ok(id) =>
        if id == reference then Ok("[" + NatToString(i + 1) + "]")
        else CiteFrom(links, i + 1, reference)
    else CiteFrom(links, i + 1, reference)
  }

  /** `getCite` as a value: `links` must be an array; the first map whose `id` matches wins. */
  function Cite(meta: Meta, reference: string): Result<string, MetaError> {
    match meta.GetSection("links").AsArray()
    case Err(e) => Err(e)
    case Ok(links) => CiteFrom(links, 0, reference)
  }

  class DocumentReferences {
    var stack: seq<nat>
    var groups: Groups
    const meta: Meta

    constructor(meta: Meta)
      ensures stack == [] && groups == map[] && this.meta == meta
    {
      stack := [];
      groups := map[];
      this.meta := meta;
    }

    /** `getPrefixMap`: the group of a prefix, created empty if missing. */
    method GetPrefixMap(prefix: string) returns (group: Group)
      modifies this
      ensures group == GroupOf(old(groups), prefix)
      ensures groups == old(groups)[prefix := group] && stack == old(stack)
    {
      if prefix in groups {
        group := groups[prefix];
      } else {
        group := map[];
      }
      groups := groups[prefix := group];
    }

    /** `getSection`: advances the counters and returns the heading's number. */
    method GetSection(depth: int, id: Option<string>) returns (r: Option<string>)
      modifies this
      ensures stack == NextStack(old(stack), depth)
      ensures r == SectionLabel(stack)
      ensures groups == RecordSection(old(groups), stack, id)
    {
      var d := Level(depth);
      while |stack| > d
        invariant |stack| <= |old(stack)| && stack == old(stack)[..|stack|]
        invariant |stack| < |old(stack)| ==> |stack| >= d
        invariant groups == old(groups)
        decreases |stack|
      {
        stack := stack[..|stack| - 1];
      }
      if |stack| == d {
        if d > 0 {
          stack := stack[..d - 1] + [stack[d - 1] + 1];
        }
      } else {
        while |stack| < d
          invariant |old(stack)| <= |stack| <= d
          invariant stack == old(stack) + Ones(|stack| - |old(stack)|)
          invariant groups == old(groups)
          decreases d - |stack|
        {
          stack := stack + [1];
        }
      }
      if |stack| == 0 {
        return None;
      }
      var result := Dotted(stack);
      if id.Some? && |id.value| > 0 {
        var prefix := Prefix(id.value);
        var group := GetPrefixMap(prefix);
        groups := groups[prefix := group[id.value := result]];
        assert groups == old(groups)[prefix := group[id.value := result]];
      }
      if |stack| == 1 {
        result := result + ".";
      }
      return Some(result);
    }

    /** `getReference`: the stored number, or the next one in the group. */
    method GetReference(reference: string) returns (r: string)
      modifies this
      ensures (r, groups) == ReferenceStep(old(groups), reference)
      ensures stack == old(stack)
    {
      var prefix := Prefix(reference);
      var group := GetPrefixMap(prefix);
      if reference in group {
        r := group[reference];
      } else {
        r := NatToString(|group| + 1);
        groups := groups[prefix := group[reference := r]];
        assert groups == old(groups)[prefix := group[reference := r]];
      }
    }

    /** `getCite`: the one-based position of the link with the given id, or "[?]". */
    method GetCite(reference: string) returns (r: Result<string, MetaError>)
      ensures r == Cite(meta, reference)
    {
      var linksOrError := meta.GetSection("links").AsArray();
      if linksOrError.Err? {
        return Err(linksOrError.error);
      }
      var links := linksOrError.value;
      var i := 0;
      while i < |links|
        invariant 0 <= i <= |links|
        invariant CiteFrom(links, i, reference) == CiteFrom(links, 0, reference)
      {
        var link := links[i];
        if link.IsMap() {
          var id := link.GetString("id");
          if id.Err? {
            return Err(id.error);
          }
          if id.value == reference {
            return Ok("[" + NatToString(i + 1) + "]");
          }
        }
        i := i + 1;
      }
      return Ok("[?]");
    }
  }

  // ----- Section numbers -----

  /** Headings of depth 1 (and below) get no number and clear the counters. */
  lemma TopLevelUnnumbered(stack: seq<nat>, depth: int)
    requires depth <= DepthThreshold
    ensures NextStack(stack, depth) == [] && SectionLabel(NextStack(stack, depth)) == None
  {
  }

  /** A heading's number has one counter per level below the top. */
  lemma NumberLength(stack: seq<nat>, depth: int)
    ensures |NextStack(stack, depth)| == Level(depth)
    ensures forall i :: 0 <= i < |NextStack(stack, depth)| ==> NextStack(stack, depth)[i] >= 1 || (i < |stack| && NextStack(stack, depth)[i] == stack[i])
  {
  }

  /** The counter stacks produced by a run of headings. */
  function Stacks(stack: seq<nat>, depths: seq<int>): (r: seq<seq<nat>>)
    ensures |r| == |depths|
    decreases |depths|
  {
    if |depths| == 0 then []
    else [NextStack(stack, depths[0])] + Stacks(NextStack(stack, depths[0]), depths[1..])
  }

  /** The numbers shown for a run of headings. */
  function Labels(stack: seq<nat>, depths: seq<int>): (r: seq<Option<string>>)
    ensures |r| == |depths|
  {
    var stacks := Stacks(stack, depths);
    seq(|stacks|, i requires 0 <= i < |stacks| => SectionLabel(stacks[i]))
  }

  /** A single counter is printed as its number. */
  lemma DottedOne(x: nat)
    ensures Dotted([x]) == NatToString(x)
  {
  }

  /** One more counter adds a dot and its number. */
  lemma DottedSnoc(stack: seq<nat>, x: nat)
    requires |stack| >= 1
    ensures Dotted(stack + [x]) == Dotted(stack) + "." + NatToString(x)
  {
    var parts := seq(|stack|, i requires 0 <= i < |stack| => NatToString(stack[i]));
    var parts' := seq(|stack| + 1, i requires 0 <= i < |stack| + 1 => NatToString((stack + [x])[i]));
    assert parts' == parts + [NatToString(x)];
    JoinSnoc(parts, NatToString(x), ".");
  }

  lemma {:induction false} JoinSnoc(parts: seq<string>, last: string, sep: string)
    requires |parts| >= 1
    ensures Join(parts + [last], sep) == Join(parts, sep) + sep + last
    decreases |parts|
  {
    if |parts| > 1 {
      assert (parts + [last])[1..] == parts[1..] + [last];
      JoinSnoc(parts[1..], last, sep);
    }
  }

  /** Headings of depths 1, 2, 3, 3, 4, 2, 3, 1 in a fresh document. */
  lemma NumberingExampleStacks()
    ensures NextStack([], 1) == [] && NextStack([], 2) == [1] && NextStack([1], 3) == [1, 1]
    ensures NextStack([1, 1], 3) == [1, 2] && NextStack([1, 2], 4) == [1, 2, 1]
    ensures NextStack([1, 2, 1], 2) == [2] && NextStack([2], 3) == [2, 1] && NextStack([2, 1], 1) == []
  {
    StackDeepens([], 2);
    StackDeepens([1], 3);
    StackDeepens([1, 2], 4);
    StackDeepens([2], 3);
    StackCounts([1, 1], 3);
    StackCounts([1, 2, 1], 2);
    assert [1, 1][..1] == [1] && [1, 2, 1][..0] == [];
  }

  /** One level deeper: a counter at 1 is pushed. */
  lemma StackDeepens(stack: seq<nat>, depth: int)
    requires Level(depth) == |stack| + 1
    ensures NextStack(stack, depth) == stack + [1]
  {
    assert Ones(1) == [1];
  }

  /** At or above the current level: the stack is cut to the level and its last counter advances. */
  lemma StackCounts(stack: seq<nat>, depth: int)
    requires 0 < Level(depth) <= |stack|
    ensures NextStack(stack, depth) == stack[..Level(depth) - 1] + [stack[Level(depth) - 1] + 1]
  {
  }

  /** The numbers shown for those counters. */
  lemma NumberingExampleLabels()
    ensures SectionLabel([]) == None && SectionLabel([1]) == Some("1.") && SectionLabel([1, 1]) == Some("1.1")
    ensures SectionLabel([1, 2]) == Some("1.2") && SectionLabel([1, 2, 1]) == Some("1.2.1")
    ensures SectionLabel([2]) == Some("2.") && SectionLabel([2, 1]) == Some("2.1")
  {
    assert NatToString(1) == "1" && NatToString(2) == "2";
    DottedOne(1);
    DottedOne(2);
    DottedSnoc([1], 1);
    assert [1] + [1] == [1, 1];
    DottedSnoc([1], 2);
    assert [1] + [2] == [1, 2];
    DottedSnoc([2], 1);
    assert [2] + [1] == [2, 1];
    DottedSnoc([1, 2], 1);
    assert [1, 2] + [1] == [1, 2, 1];
    assert Dotted([1]) + "." == "1.";
    assert Dotted([2]) + "." == "2.";
    assert Dotted([1, 1]) == "1.1";
    assert Dotted([1, 1]) == "1.1";
    assert Dotted([1, 2]) == "1.2";
    assert Dotted([2, 1]) == "2.1";
    assert Dotted([1, 2, 1]) == "1.2.1";
  }

  /** Strict lexicographic order on counter stacks; a proper prefix comes first. */
  predicate LexLess(a: seq<nat>, b: seq<nat>)
    decreases |a|
  {
    |b| > 0 && (|a| == 0 || a[0] < b[0] || (a[0] == b[0] && LexLess(a[1..], b[1..])))
  }

  lemma {:induction false} LexLessIrreflexive(a: seq<nat>)
    ensures !LexLess(a, a)
    decreases |a|
  {
    if |a| > 0 {
      LexLessIrreflexive(a[1..]);
    }
  }

  lemma {:induction false} LexLessTransitive(a: seq<nat>, b: seq<nat>, c: seq<nat>)
    requires LexLess(a, b) && LexLess(b, c)
    ensures LexLess(a, c)
    decreases |a|
  {
    if |a| > 0 && a[0] == b[0] && b[0] == c[0] {
      LexLessTransitive(a[1..], b[1..], c[1..]);
    }
  }

  /** Two stacks that agree up to `k` and then differ upwards are ordered. */
  lemma {:induction false} LexLessAt(a: seq<nat>, b: seq<nat>, k: nat)
    requires k <= |a| && k < |b| && a[..k] == b[..k]
    requires k == |a| || a[k] < b[k]
    ensures LexLess(a, b)
    decreases k
  {
    if k > 0 {
      assert a[0] == b[0] by { assert a[..k][0] == b[..k][0]; }
      assert a[1..][..k - 1] == a[..k][1..];
      assert b[1..][..k - 1] == b[..k][1..];
      LexLessAt(a[1..], b[1..], k - 1);
    }
  }

  /** Every numbered heading gets a number that sorts after the previous counters. */
  lemma NextStackIncreases(stack: seq<nat>, depth: int)
    requires Level(depth) >= 1
    ensures LexLess(stack, NextStack(stack, depth))
  {
    var d := Level(depth);
    var next := NextStack(stack, depth);
    if |stack| >= d {
      assert next[..d - 1] == stack[..d - 1];
      LexLessAt(stack, next, d - 1);
    } else {
      assert next[..|stack|] == stack;
      assert stack[..|stack|] == stack;
      LexLessAt(stack, next, |stack|);
    }
  }

  /** Below the top level, every heading's counters sort after the starting counters. */
  lemma {:induction false} StacksAfterStart(stack: seq<nat>, depths: seq<int>)
    requires forall i :: 0 <= i < |depths| ==> Level(depths[i]) >= 1
    ensures forall j :: 0 <= j < |depths| ==> LexLess(stack, Stacks(stack, depths)[j])
    decreases |depths|
  {
    if |depths| > 0 {
      var next := NextStack(stack, depths[0]);
      NextStackIncreases(stack, depths[0]);
      StacksAfterStart(next, depths[1..]);
      forall j | 0 <= j < |depths|
        ensures LexLess(stack, Stacks(stack, depths)[j])
      {
        if j > 0 {
          assert Stacks(stack, depths)[j] == Stacks(next, depths[1..])[j - 1];
          LexLessTransitive(stack, next, Stacks(stack, depths)[j]);
        }
      }
    }
  }

  /**
   * Within a run of headings none of which is top-level, the counter stacks
   * strictly increase, so no two of these headings share a number.
   */
  lemma {:induction false} StacksIncrease(stack: seq<nat>, depths: seq<int>)
    requires forall i :: 0 <= i < |depths| ==> Level(depths[i]) >= 1
    ensures forall i, j :: 0 <= i < j < |depths| ==> LexLess(Stacks(stack, depths)[i], Stacks(stack, depths)[j])
    decreases |depths|
  {
    if |depths| > 0 {
      var next := NextStack(stack, depths[0]);
      var rest := Stacks(next, depths[1..]);
      StacksIncrease(next, depths[1..]);
      StacksAfterStart(next, depths[1..]);
      assert forall j :: 1 <= j < |depths| ==> Stacks(stack, depths)[j] == rest[j - 1];
    }
  }

  /** The pieces of a dotted number are the printed counters. */
  lemma DottedPieces(stack: seq<nat>)
    requires |stack| >= 1
    ensures Split(Dotted(stack), '.') == seq(|stack|, i requires 0 <= i < |stack| => NatToString(stack[i]))
  {
    var parts := seq(|stack|, i requires 0 <= i < |stack| => NatToString(stack[i]));
    forall i | 0 <= i < |parts|
      ensures '.' !in parts[i]
    {
      NatToStringDigits(stack[i]);
      assert forall j :: 0 <= j < |parts[i]| ==> IsDigit(parts[i][j]);
    }
    SplitJoin(parts, '.');
  }

  /** A number shown for a heading determines the heading's counters. */
  lemma LabelDeterminesStack(a: seq<nat>, b: seq<nat>)
    requires |a| >= 1 && |b| >= 1 && SectionLabel(a) == SectionLabel(b)
    ensures a == b
  {
    DottedPieces(a);
    DottedPieces(b);
    var pa := seq(|a|, i requires 0 <= i < |a| => NatToString(a[i]));
    var pb := seq(|b|, i requires 0 <= i < |b| => NatToString(b[i]));
    var l := SectionLabel(a).value;
    LabelLastChar(a);
    LabelLastChar(b);
    if |a| == 1 && |b| == 1 {
      assert Dotted(a) == l[..|l| - 1] == Dotted(b);
      assert pa[0] == pb[0];
      NatToStringInjective(a[0], b[0]);
    } else if |a| >= 2 && |b| >= 2 {
      assert pa == pb;
      forall i | 0 <= i < |a|
        ensures a[i] == b[i]
      {
        assert pa[i] == pb[i];
        NatToStringInjective(a[i], b[i]);
      }
    }
    // Otherwise one label ends in the dot of a level-1 number, the other in a digit.
  }

  function Last(s: string): char
    requires |s| >= 1
  {
    s[|s| - 1]
  }

  /** A level-1 number ends in a dot, a deeper one in a digit. */
  lemma LabelLastChar(a: seq<nat>)
    requires |a| >= 1
    ensures |SectionLabel(a).value| >= 1
    ensures |a| == 1 ==> Last(SectionLabel(a).value) == '.'
    ensures |a| >= 2 ==> IsDigit(Last(SectionLabel(a).value))
  {
    var pa := seq(|a|, i requires 0 <= i < |a| => NatToString(a[i]));
    LastOfJoin(pa, ".");
    assert IsDigit(pa[|pa| - 1][|pa[|pa| - 1]| - 1]);
  }

  /** Different counter stacks are shown as different numbers. */
  lemma LabelInjective(a: seq<nat>, b: seq<nat>)
    requires |a| >= 1 && |b| >= 1 && a != b
    ensures SectionLabel(a) != SectionLabel(b)
  {
    if SectionLabel(a) == SectionLabel(b) {
      LabelDeterminesStack(a, b);
    }
  }

  /** A join ends with the end of its last piece. */
  lemma {:induction false} LastOfJoin(parts: seq<string>, sep: string)
    requires |parts| >= 1 && |parts[|parts| - 1]| >= 1
    ensures |Join(parts, sep)| >= 1
    ensures Join(parts, sep)[|Join(parts, sep)| - 1] == parts[|parts| - 1][|parts[|parts| - 1]| - 1]
    decreases |parts|
  {
    if |parts| > 1 {
      LastOfJoin(parts[1..], sep);
    }
  }

  /**
   * Within a run of headings none of which is top-level, every heading is
   * numbered and no two of them are given the same number.
   */
  lemma NumbersDistinct(stack: seq<nat>, depths: seq<int>, i: nat, j: nat)
    requires forall k :: 0 <= k < |depths| ==> Level(depths[k]) >= 1
    requires i < j < |depths|
    ensures Labels(stack, depths)[i].Some? && Labels(stack, depths)[j].Some?
    ensures Labels(stack, depths)[i] != Labels(stack, depths)[j]
  {
    var stacks := Stacks(stack, depths);
    StacksIncrease(stack, depths);
    StacksAfterStart(stack, depths);
    assert LexLess(stacks[i], stacks[j]);
    assert |stacks[i]| >= 1 by { NumberLengthAt(stack, depths, i); }
    assert |stacks[j]| >= 1 by { NumberLengthAt(stack, depths, j); }
    LexLessIrreflexive(stacks[i]);
    LabelInjective(stacks[i], stacks[j]);
  }

  lemma {:induction false} NumberLengthAt(stack: seq<nat>, depths: seq<int>, k: nat)
    requires k < |depths|
    ensures |Stacks(stack, depths)[k]| == Level(depths[k])
    decreases k
  {
    if k > 0 {
      NumberLengthAt(NextStack(stack, depths[0]), depths[1..], k - 1);
    }
  }

  /** The id of a numbered heading is stored with its number, without the trailing dot. */
  lemma SectionIdStored(groups: Groups, stack: seq<nat>, id: string)
    requires |stack| >= 1 && |id| > 0
    ensures var g := RecordSection(groups, stack, Some(id));
      Prefix(id) in g && g[Prefix(id)][id] + (if |stack| == 1 then "." else "") == SectionLabel(stack).value
    ensures forall p :: p in groups && p != Prefix(id) ==> RecordSection(groups, stack, Some(id))[p] == groups[p]
  {
  }

  // ----- Reference numbers -----

  /** Looking a reference up twice gives the same number and changes nothing the second time. */
  lemma ReferenceIdempotent(groups: Groups, reference: string)
    ensures var (n, g) := ReferenceStep(groups, reference);
      ReferenceStep(g, reference) == (n, g)
  {
    var (n, g) := ReferenceStep(groups, reference);
    var prefix := Prefix(reference);
    assert GroupOf(g, prefix) == g[prefix];
    assert g[prefix := g[prefix]] == g;
  }

  /**
   * A group whose entries are numbered 1..n without repetition, as the
   * groups of references (not of headings) are.
   */
  predicate Numbered(group: Group) {
    (forall k :: k in group ==> exists j :: 1 <= j <= |group| && group[k] == NatToString(j)) &&
    (forall k1, k2 :: k1 in group && k2 in group && k1 != k2 ==> group[k1] != group[k2])
  }

  /**
   * Reference numbering keeps a group numbered 1..n: a new reference gets
   * `n + 1`, different references never share a number.
   */
  lemma ReferenceKeepsNumbered(groups: Groups, reference: string)
    requires Numbered(GroupOf(groups, Prefix(reference)))
    ensures var (n, g) := ReferenceStep(groups, reference);
      Numbered(g[Prefix(reference)]) && g[Prefix(reference)][reference] == n
    ensures reference !in GroupOf(groups, Prefix(reference)) ==>
      ReferenceStep(groups, reference).0 == NatToString(|GroupOf(groups, Prefix(reference))| + 1)
  {
    var group := GroupOf(groups, Prefix(reference));
    if reference !in group {
      NewReferenceNumbered(group, reference);
    }
  }

  /** A new reference takes the next number; the group stays numbered 1..n. */
  lemma NewReferenceNumbered(group: Group, reference: string)
    requires Numbered(group) && reference !in group
    ensures Numbered(group[reference := NatToString(|group| + 1)])
  {
    var n := NatToString(|group| + 1);
    var next := group[reference := n];
    assert |next| == |group| + 1;
    forall k | k in next
      ensures exists j :: 1 <= j <= |next| && next[k] == NatToString(j)
    {
      if k == reference {
        assert next[k] == NatToString(|group| + 1);
      } else {
        var j :| 1 <= j <= |group| && group[k] == NatToString(j);
        assert next[k] == NatToString(j);
      }
    }
    forall k1, k2 | k1 in next && k2 in next && k1 != k2
      ensures next[k1] != next[k2]
    {
      if k1 == reference || k2 == reference {
        var other := if k1 == reference then k2 else k1;
        var j :| 1 <= j <= |group| && group[other] == NatToString(j);
        if group[other] == n {
          NatToStringInjective(j, |group| + 1);
        }
      }
    }
  }

  lemma ExamplePrefixes()
    ensures Prefix("fig:b") == "fig" && Prefix("fig:a") == "fig"
  {
    assert "fig:b" == "fig" + [':'] + "b" && "fig:a" == "fig" + [':'] + "a";
    BeforeFirstAt("fig", "b", ':');
    BeforeFirstAt("fig", "a", ':');
  }

  /** Two fresh references in a new group are numbered 1 and 2 in order of first use. */
  lemma ReferenceExample()
    ensures var (a, g1) := ReferenceStep(map[], "fig:b");
      var (b, g2) := ReferenceStep(g1, "fig:a");
      var (c, _) := ReferenceStep(g2, "fig:b");
      a == "1" && b == "2" && c == "1"
  {
    ExamplePrefixes();
    var g1 := ReferenceStep(map[], "fig:b").1;
    assert g1["fig"] == map["fig:b" := "1"];
    assert |g1["fig"]| == 1;
    assert NatToString(2) == "2";
  }

  // ----- Citations -----

  /** The first link that is a map with the wanted id gives its one-based position. */
  lemma {:induction false} CiteFirstMatch(links: seq<Meta>, reference: string, from: nat, i: nat)
    requires from <= i < |links|
    requires links[i].IsMap() && links[i].GetString("id") == Ok(reference)
    requires forall j :: from <= j < i && links[j].IsMap() ==>
               links[j].GetString("id").Ok? && links[j].GetString("id").value != reference
    ensures CiteFrom(links, from, reference) == Ok("[" + NatToString(i + 1) + "]")
    decreases i - from
  {
    if from < i {
      CiteFirstMatch(links, reference, from + 1, i);
    }
  }

  /** When no link matches and every map link has a string id, the citation is "[?]". */
  lemma {:induction false} CiteMissing(links: seq<Meta>, reference: string, from: nat)
    requires from <= |links|
    requires forall j :: from <= j < |links| && links[j].IsMap() ==>
               links[j].GetString("id").Ok? && links[j].GetString("id").value != reference
    ensures CiteFrom(links, from, reference) == Ok("[?]")
    decreases |links| - from
  {
    if from < |links| {
      CiteMissing(links, reference, from + 1);
    }
  }

  /** A map link without a usable id before any match makes the citation fail with its error. */
  lemma {:induction false} CiteBadLink(links: seq<Meta>, reference: string, from: nat, i: nat)
    requires from <= i < |links|
    requires links[i].IsMap() && links[i].GetString("id").Err?
    requires forall j :: from <= j < i && links[j].IsMap() ==>
               links[j].GetString("id").Ok? && links[j].GetString("id").value != reference
    ensures CiteFrom(links, from, reference) == Err(links[i].GetString("id").error)
    decreases i - from
  {
    if from < i {
      CiteBadLink(links, reference, from + 1, i);
    }
  }

  /** Without a `links` array in the metadata every citation fails. */
  lemma CiteNeedsLinks(meta: Meta, reference: string)
    requires !meta.GetSection("links").IsArray()
    ensures Cite(meta, reference).Err?
  {
  }
}
