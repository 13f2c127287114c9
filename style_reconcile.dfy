/**
 * Merging the house template's styles into the document Pandoc generated
 * (the style half of `fixDocxStyles`). In that function `source` is the
 * template `isp-reference.docx` and `target` is Pandoc's output. The styles
 * the template's own document body uses, closed under base, linked and next
 * style, are renamed to `template-<i>`; those definitions are copied into
 * the generated document's style table, where any style with the same name
 * is removed and its uses are redirected to the copy; a fixed table
 * redirects Pandoc's heading and body styles to the house styles, and the
 * generated document loses `Heading4`–`Heading9`.
 *
 * A `Styles` wrapper is a map keyed by style id that remembers insertion
 * order; here it is a sequence of `Style` records with pairwise distinct
 * ids. JavaScript `Set`s of ids are sequences without repetition, in
 * insertion order, and `undefined` is `None`.
 */
module StyleReconcile {
  import opened Wrappers
  import opened Strings
  import opened Xml
  import opened ListStyles

  /** A `w:style` definition: its id, its name and the `w:val` of its `w:basedOn`, `w:link`, `w:next`. */
  datatype Style = Style(id: string, name: string, basedOn: Option<string>, link: Option<string>, next: Option<string>)

  /** The invariant of a `Styles` map: no two entries share an id. */
  predicate UniqueIds(t: seq<Style>) {
    forall i, j :: 0 <= i < j < |t| ==> t[i].id != t[j].id
  }

  /** A JavaScript `Set` in insertion order: no element twice. */
  predicate NoDup<T(==,!new)>(xs: seq<T>) {
    forall i, j :: 0 <= i < j < |xs| ==> xs[i] != xs[j]
  }

  /** `Map.get`. */
  function Get<K, V>(m: map<K, V>, k: K): (r: Option<V>)
    ensures r.Some? <==> k in m
    ensures r.Some? ==> r.value == m[k]
  {
    if k in m then Some(m[k]) else None
  }

  /** `styles.styles.get(id)`: the definition with that id, if any. */
  function Lookup(t: seq<Style>, id: Option<string>): (r: Option<Style>)
    ensures r.Some? ==> r.value in t && Some(r.value.id) == id
    ensures r.None? ==> forall s :: s in t ==> Some(s.id) != id
  {
    if |t| == 0 then None
    else if Some(t[0].id) == id then Some(t[0])
    else Lookup(t[1..], id)
  }

  /** The ids a style refers to (`getBaseStyle`, `getLinkedStyle`, `getNextStyle`), absent ones skipped. */
  function Refs(s: Style): (r: seq<string>)
    ensures forall x :: x in r <==> Some(x) == s.basedOn || Some(x) == s.link || Some(x) == s.next
  {
    (if s.basedOn.Some? then [s.basedOn.value] else [])
    + (if s.link.Some? then [s.link.value] else [])
    + (if s.next.Some? then [s.next.value] else [])
  }

  /** Every id some style of the table refers to. */
  function RefIds(t: seq<Style>): (r: set<Option<string>>)
    ensures forall i, x :: 0 <= i < |t| && x in Refs(t[i]) ==> Some(x) in r
  {
    if |t| == 0 then {}
    else (set x | x in Refs(t[0]) :: Some(x)) + RefIds(t[1..])
  }

  // ----- sets in insertion order -----

  /** `Set.add`: a new element goes last, a known one changes nothing. */
  function AddToSet<T(==,!new)>(xs: seq<T>, x: T): (r: seq<T>)
    ensures NoDup(xs) ==> NoDup(r)
    ensures forall y :: y in r <==> y in xs || y == x
    ensures |r| >= |xs| && r[..|xs|] == xs
  {
    if x in xs then xs else xs + [x]
  }

  /** Adding the elements of `ys` one after another. */
  function AddAll<T(==,!new)>(xs: seq<T>, ys: seq<T>): seq<T> {
    if |ys| == 0 then xs else AddToSet(AddAll(xs, ys[..|ys| - 1]), ys[|ys| - 1])
  }

  /** The set keeps what it had, in front, gains exactly the added elements, and repeats nothing. */
  lemma {:induction false} AddAllSpec<T(!new)>(xs: seq<T>, ys: seq<T>)
    requires NoDup(xs)
    ensures NoDup(AddAll(xs, ys))
    ensures forall y :: y in AddAll(xs, ys) <==> y in xs || y in ys
    ensures |AddAll(xs, ys)| >= |xs| && AddAll(xs, ys)[..|xs|] == xs
  {
    if |ys| > 0 {
      var front := ys[..|ys| - 1];
      AddAllSpec(xs, front);
      var r := AddAll(xs, front);
      assert AddAll(xs, ys) == AddToSet(r, ys[|ys| - 1]);
      assert forall y :: y in ys <==> y in front || y == ys[|ys| - 1];
      assert AddAll(xs, ys)[..|r|][..|xs|] == AddAll(xs, ys)[..|xs|];
    }
  }

  /** A sequence without repetition is no longer than the set it is drawn from. */
  lemma {:induction false} NoDupBound<T(!new)>(xs: seq<T>, u: set<T>)
    requires NoDup(xs)
    requires forall x :: x in xs ==> x in u
    ensures |xs| <= |u|
  {
    if |xs| > 0 {
      var last := xs[|xs| - 1];
      var front := xs[..|xs| - 1];
      assert forall x :: x in front ==> x in xs && x != last;
      NoDupBound(front, u - {last});
    }
  }

  // ----- style use references (getDocStyleUseReferences, getUsedStyles) -----

  predicate IsStyleUse(n: Node) {
    n.Element? && (n.tag == "w:pStyle" || n.tag == "w:rStyle")
  }

  /** The `w:pStyle` and `w:rStyle` nodes among `ns`, in order. */
  function StyleUses(ns: seq<Node>): (r: seq<Node>)
    ensures forall x :: x in r <==> x in ns && IsStyleUse(x)
  {
    if |ns| == 0 then []
    else (if IsStyleUse(ns[0]) then [ns[0]] else []) + StyleUses(ns[1..])
  }

  /** `getDocStyleUseReferences`: the style uses of the document in pre-order. */
  function DocStyleUseReferences(doc: Node): seq<Node> {
    StyleUses(Flatten(doc))
  }

  /** The `w:val` of each style use, in document order. */
  function UseValues(doc: Node): seq<Option<string>> {
    var u := DocStyleUseReferences(doc);
    seq(|u|, i requires 0 <= i < |u| => GetAttr(u[i], "w:val"))
  }

  /** `getUsedStyles`: each style the document names, once, in order of first use. */
  method GetUsedStyles(doc: Node) returns (used: seq<Option<string>>)
    ensures used == AddAll([], UseValues(doc))
    ensures NoDup(used)
    ensures forall x :: x in used <==> x in UseValues(doc)
  {
    var vals := UseValues(doc);
    used := [];
    for i := 0 to |vals|
      invariant used == AddAll([], vals[..i])
    {
      assert vals[..i + 1][..i] == vals[..i];
      used := AddToSet(used, vals[i]);
    }
    assert vals[..|vals|] == vals;
    AddAllSpec([], vals);
  }

  // ----- closure under base, linked and next style (populateStyles, getUsedStylesDeep) -----

  /** The message `populateStyles` throws; an `undefined` id prints as `undefined`. */
  function NotFoundMessage(id: Option<string>): (msg: string)
    ensures StartsWith(msg, "Style id ") && EndsWith(msg, " not found")
  {
    "Style id " + (match id case Some(s) => s case None => "undefined") + " not found"
  }

  /** Every member is defined and every id it refers to is a member. */
  predicate Closed(met: seq<Option<string>>, t: seq<Style>) {
    forall x :: x in met ==>
      Lookup(t, x).Some? && forall y :: y in Refs(Lookup(t, x).value) ==> Some(y) in met
  }

  /** Referred ids as members of a set of possibly `undefined` ids. */
  function Present(refs: seq<string>): (r: seq<Option<string>>)
    ensures |r| == |refs| && forall k :: 0 <= k < |refs| ==> r[k] == Some(refs[k])
  {
    if |refs| == 0 then [] else [Some(refs[0])] + Present(refs[1..])
  }

  /** The first `i` members are defined and their references are members. */
  predicate ClosedUpTo(cur: seq<Option<string>>, i: nat, t: seq<Style>)
    requires i <= |cur|
  {
    forall j :: 0 <= j < i ==>
      Lookup(t, cur[j]).Some? && forall y :: y in Refs(Lookup(t, cur[j]).value) ==> Some(y) in cur
  }

  lemma ClosedUpToStep(cur: seq<Option<string>>, next: seq<Option<string>>, i: nat, t: seq<Style>)
    requires i < |cur| <= |next| && next[..|cur|] == cur
    requires ClosedUpTo(cur, i, t)
    requires Lookup(t, cur[i]).Some? && forall y :: y in Refs(Lookup(t, cur[i]).value) ==> Some(y) in next
    ensures ClosedUpTo(next, i + 1, t)
  {
    forall j | 0 <= j <= i
      ensures Lookup(t, next[j]).Some? && forall y :: y in Refs(Lookup(t, next[j]).value) ==> Some(y) in next
    {
      assert next[..|cur|][j] == next[j];
      if j < i {
        forall y | y in Refs(Lookup(t, cur[j]).value)
          ensures Some(y) in next
        {
          var k :| 0 <= k < |cur| && cur[k] == Some(y);
          assert next[..|cur|][k] == next[k];
        }
      }
    }
  }

  lemma ClosedUpToAll(cur: seq<Option<string>>, t: seq<Style>)
    requires ClosedUpTo(cur, |cur|, t)
    ensures Closed(cur, t)
  {
    forall x | x in cur
      ensures Lookup(t, x).Some? && forall y :: y in Refs(Lookup(t, x).value) ==> Some(y) in cur
    {
      var j :| 0 <= j < |cur| && cur[j] == x;
    }
  }

  /** One step of `populateStyles`: the ids `s` refers to are added (`alreadyMet.add`). */
  lemma StepKeeps(cur: seq<Option<string>>, next: seq<Option<string>>, refs: seq<string>,
                  met: seq<Option<string>>, u: set<Option<string>>, t: seq<Style>, s: Style)
    requires s in t && refs == Refs(s)
    requires next == AddAll(cur, Present(refs))
    requires NoDup(cur) && |cur| >= |met| && cur[..|met|] == met
    requires forall x :: x in cur ==> x in u
    requires RefIds(t) <= u
    ensures NoDup(next) && |next| >= |cur| && next[..|cur|] == cur
    ensures |next| >= |met| && next[..|met|] == met
    ensures forall x :: x in next ==> x in u
    ensures forall y :: y in refs ==> Some(y) in next
  {
    var ys := Present(refs);
    AddAllSpec(cur, ys);
    assert next[..|cur|][..|met|] == next[..|met|];
    forall y | y in refs
      ensures Some(y) in next
    {
      var k :| 0 <= k < |refs| && refs[k] == y;
      assert ys[k] == Some(y);
    }
    forall x | x in ys
      ensures x in u
    {
      var k :| 0 <= k < |ys| && ys[k] == x;
      assert refs[k] in Refs(s);
    }
  }

  /** `b` is one of the ids the definition of `a` refers to. */
  predicate RefersTo(t: seq<Style>, a: Option<string>, b: Option<string>) {
    Lookup(t, a).Some? && b.Some? && b.value in Refs(Lookup(t, a).value)
  }

  /**
   * `w` starts with `met`, and every later element is referred to by an
   * earlier one: each element of `w` is reachable from `met`.
   */
  predicate Derived(w: seq<Option<string>>, met: seq<Option<string>>, t: seq<Style>) {
    |w| >= |met| && w[..|met|] == met &&
    forall i :: |met| <= i < |w| ==> exists j :: 0 <= j < i && RefersTo(t, w[j], w[i])
  }

  /** `x` is a start id, or is reached from one through base, linked and next styles. */
  ghost predicate Reachable(x: Option<string>, met: seq<Option<string>>, t: seq<Style>) {
    exists w :: Derived(w, met, t) && x in w
  }

  /** One step of `populateStyles` keeps the set derived from its start. */
  lemma DerivedStep(cur: seq<Option<string>>, next: seq<Option<string>>, i: nat,
                    met: seq<Option<string>>, t: seq<Style>)
    requires Derived(cur, met, t) && i < |cur|
    requires |next| >= |cur| && next[..|cur|] == cur
    requires forall k :: |cur| <= k < |next| ==> RefersTo(t, cur[i], next[k])
    ensures Derived(next, met, t)
  {
    assert next[..|cur|][..|met|] == next[..|met|];
    assert next[..|met|] == met;
    forall k | |met| <= k < |next|
      ensures exists j :: 0 <= j < k && RefersTo(t, next[j], next[k])
    {
      if k < |cur| {
        assert next[..|cur|][k] == next[k];
        var j :| 0 <= j < k && RefersTo(t, cur[j], cur[k]);
        assert next[..|cur|][j] == next[j];
        assert RefersTo(t, next[j], next[k]);
      } else {
        assert next[..|cur|][i] == next[i];
        assert RefersTo(t, next[i], next[k]);
      }
    }
  }

  /** A derivation from a set that is itself derived from `s` is derived from `s`. */
  lemma DerivedTrans(a: seq<Option<string>>, b: seq<Option<string>>, s: seq<Option<string>>, t: seq<Style>)
    requires Derived(a, s, t) && Derived(b, a, t)
    ensures Derived(b, s, t)
  {
    assert b[..|a|][..|s|] == b[..|s|];
    forall k | |s| <= k < |b|
      ensures exists j :: 0 <= j < k && RefersTo(t, b[j], b[k])
    {
      if k < |a| {
        assert b[..|a|][k] == b[k];
        var j :| 0 <= j < k && RefersTo(t, a[j], a[k]);
        assert b[..|a|][j] == b[j];
        assert RefersTo(t, b[j], b[k]);
      } else {
        var j :| 0 <= j < k && RefersTo(t, b[j], b[k]);
      }
    }
  }

  /** What is reachable from a set derived from `s` is reachable from `s`. */
  lemma ReachableTrans(x: Option<string>, a: seq<Option<string>>, s: seq<Option<string>>, t: seq<Style>)
    requires Derived(a, s, t) && Reachable(x, a, t)
    ensures Reachable(x, s, t)
  {
    var w :| Derived(w, a, t) && x in w;
    DerivedTrans(a, w, s, t);
  }

  /** The first `n` elements of a derivation from `met` lie in every closed set holding `met`. */
  lemma {:induction false} DerivedPrefixIn(w: seq<Option<string>>, met: seq<Option<string>>, t: seq<Style>,
                                          c: seq<Option<string>>, n: nat)
    requires Derived(w, met, t) && n <= |w|
    requires Closed(c, t) && forall x :: x in met ==> x in c
    ensures forall k :: 0 <= k < n ==> w[k] in c
  {
    if n > 0 {
      DerivedPrefixIn(w, met, t, c, n - 1);
      var k := n - 1;
      if k < |met| {
        assert w[..|met|][k] == met[k];
      } else {
        var j :| 0 <= j < k && RefersTo(t, w[j], w[k]);
        assert w[j] in c;
        assert w[k].value in Refs(Lookup(t, w[j]).value);
      }
    }
  }

  /** A closed set holding `met` holds everything reachable from `met`. */
  lemma ReachableIn(c: seq<Option<string>>, met: seq<Option<string>>, t: seq<Style>)
    requires Closed(c, t) && forall x :: x in met ==> x in c
    ensures forall x :: Reachable(x, met, t) ==> x in c
  {
    forall x | Reachable(x, met, t)
      ensures x in c
    {
      var w :| Derived(w, met, t) && x in w;
      DerivedPrefixIn(w, met, t, c, |w|);
    }
  }

  /** A reachable id is a start id or one that some definition refers to. */
  lemma ReachableBound(x: Option<string>, met: seq<Option<string>>, t: seq<Style>)
    requires Reachable(x, met, t)
    ensures x in met || x in RefIds(t)
  {
    var w :| Derived(w, met, t) && x in w;
    var k :| 0 <= k < |w| && w[k] == x;
    if k < |met| {
      assert w[..|met|][k] == met[k];
    } else {
      var j :| 0 <= j < k && RefersTo(t, w[j], w[k]);
      RefersToBound(t, w[j], x);
    }
  }

  /** An id some definition refers to is among the referred ids. */
  lemma RefersToBound(t: seq<Style>, a: Option<string>, b: Option<string>)
    requires RefersTo(t, a, b)
    ensures b in RefIds(t)
  {
    var s := Lookup(t, a).value;
    var m :| 0 <= m < |t| && t[m] == s;
    assert b.value in Refs(t[m]);
  }

  /** What `Set.add` puts after the old elements comes from the added ones. */
  lemma AddedFrom<T(!new)>(xs: seq<T>, ys: seq<T>)
    requires NoDup(xs)
    ensures forall k :: |xs| <= k < |AddAll(xs, ys)| ==> AddAll(xs, ys)[k] in ys
  {
    AddAllSpec(xs, ys);
  }

  /** The ids one step adds are those the handled member refers to. */
  lemma AddedRefer(cur: seq<Option<string>>, next: seq<Option<string>>, refs: seq<string>, i: nat, t: seq<Style>)
    requires i < |cur| && Lookup(t, cur[i]).Some? && refs == Refs(Lookup(t, cur[i]).value)
    requires NoDup(cur) && next == AddAll(cur, Present(refs))
    ensures forall k :: |cur| <= k < |next| ==> RefersTo(t, cur[i], next[k])
  {
    var ys := Present(refs);
    AddedFrom(cur, ys);
    forall k | |cur| <= k < |next|
      ensures RefersTo(t, cur[i], next[k])
    {
      var m :| 0 <= m < |ys| && ys[m] == next[k];
      assert next[k] == Some(refs[m]);
    }
  }

  /**
   * `populateStyles`: the `for … of` over the set also visits the ids added
   * while it runs, so the set grows to its closure; an id without a
   * definition throws.
   */
  method PopulateStyles(met: seq<Option<string>>, t: seq<Style>) returns (r: Result<seq<Option<string>>, string>)
    requires NoDup(met)
    ensures r.Ok? ==> NoDup(r.value) && |r.value| >= |met| && r.value[..|met|] == met
    ensures r.Ok? ==> Closed(r.value, t)
    ensures r.Ok? ==> Derived(r.value, met, t)
    ensures r.Ok? ==> forall x :: x in r.value <==> Reachable(x, met, t)
    ensures r.Ok? ==> forall x :: x in r.value ==> x in met || x in RefIds(t)
    ensures r.Ok? <==> forall x :: Reachable(x, met, t) ==> Lookup(t, x).Some?
    ensures r.Err? ==> exists x :: Reachable(x, met, t) && Lookup(t, x).None? && r.error == NotFoundMessage(x)
    ensures r.Err? ==> exists x :: (x in met || x in RefIds(t)) && Lookup(t, x).None? && r.error == NotFoundMessage(x)
  {
    var u := (set x | x in met) + RefIds(t);
    var cur := met;
    var i := 0;
    NoDupBound(cur, u);
    assert cur[..|met|] == met;
    while i < |cur|
      invariant i <= |cur| <= |u|
      invariant NoDup(cur) && |cur| >= |met| && cur[..|met|] == met
      invariant forall x :: x in cur ==> x in u
      invariant ClosedUpTo(cur, i, t)
      invariant Derived(cur, met, t)
      decreases |u| - i
    {
      var style := Lookup(t, cur[i]);
      if style.None? {
        var x := cur[i];
        assert Derived(cur, met, t) && x in cur;
        ReachableBound(x, met, t);
        return Err(NotFoundMessage(x));
      }
      var s := style.value;
      var refs := Refs(s);
      var next := AddAll(cur, Present(refs));
      StepKeeps(cur, next, refs, met, u, t, s);
      AddedRefer(cur, next, refs, i, t);
      DerivedStep(cur, next, i, met, t);
      ClosedUpToStep(cur, next, i, t);
      cur := next;
      i := i + 1;
      NoDupBound(cur, u);
    }
    ClosedUpToAll(cur, t);
    ReachableIn(cur, met, t);
    assert forall x :: x in cur ==> Reachable(x, met, t) by {
      forall x | x in cur
        ensures Reachable(x, met, t)
      {
        assert Derived(cur, met, t) && x in cur;
      }
    }
    r := Ok(cur);
  }

  /** The set `getUsedStylesDeep` starts from: the used styles, then the required ones. */
  function UsedWithRequired(doc: Node, required: seq<Option<string>>): seq<Option<string>> {
    AddAll(AddAll([], UseValues(doc)), required)
  }

  /**
   * `getUsedStylesDeep`: the document's styles and the required ones, then
   * `populateStyles` until the size no longer changes.
   */
  method GetUsedStylesDeep(doc: Node, t: seq<Style>, required: seq<Option<string>>) returns (r: Result<seq<string>, string>)
    ensures r.Ok? ==> NoDup(r.value)
    ensures r.Ok? ==> forall x :: x in UseValues(doc) ==> x.Some? && x.value in r.value
    ensures r.Ok? ==> forall x :: x in required ==> x.Some? && x.value in r.value
    ensures r.Ok? ==> forall id :: id in r.value ==>
                        Lookup(t, Some(id)).Some? && forall y :: y in Refs(Lookup(t, Some(id)).value) ==> y in r.value
    ensures r.Ok? ==> forall id :: id in r.value <==> Reachable(Some(id), UsedWithRequired(doc, required), t)
    ensures r.Ok? <==> forall x :: Reachable(x, UsedWithRequired(doc, required), t) ==> Lookup(t, x).Some?
    ensures r.Err? ==> exists x :: Reachable(x, UsedWithRequired(doc, required), t) && Lookup(t, x).None? &&
                                   r.error == NotFoundMessage(x)
  {
    var used := GetUsedStyles(doc);
    var base := used;
    for k := 0 to |required|
      invariant used == AddAll(base, required[..k])
    {
      assert required[..k + 1][..k] == required[..k];
      used := AddToSet(used, required[k]);
    }
    assert required[..|required|] == required;
    AddAllSpec(base, required);
    var u := (set x | x in used) + RefIds(t);
    ghost var start := used;
    assert used[..|start|] == start;
    while true
      invariant NoDup(used) && forall x :: x in start ==> x in used
      invariant forall x :: x in used ==> x in u
      invariant Derived(used, start, t)
      decreases |u| - |used|
    {
      NoDupBound(used, u);
      var size := |used|;
      var p := PopulateStyles(used, t);
      if p.Err? {
        ghost var x :| Reachable(x, used, t) && Lookup(t, x).None? && p.error == NotFoundMessage(x);
        ReachableTrans(x, used, start, t);
        return Err(p.error);
      }
      assert forall x :: x in used ==> x in p.value;
      DerivedTrans(used, p.value, start, t);
      used := p.value;
      NoDupBound(used, u);
      if |used| == size {
        assert Closed(used, t);
        break;
      }
    }
    ReachableIn(used, start, t);
    forall x | x in used
      ensures Reachable(x, start, t)
    {
      assert Derived(used, start, t) && x in used;
    }
    r := Ok(Unwrap(used, t));
  }

  /** The ids of a closed set, all of which are defined and so not `undefined`. */
  function Unwrap(xs: seq<Option<string>>, t: seq<Style>): (r: seq<string>)
    requires Closed(xs, t)
    ensures |r| == |xs| && forall i :: 0 <= i < |xs| ==> xs[i] == Some(r[i])
    ensures NoDup(xs) ==> NoDup(r)
    ensures forall x :: x in xs ==> x.Some? && x.value in r
    ensures forall id :: id in r ==> Some(id) in xs
  {
    seq(|xs|, i requires 0 <= i < |xs| => (assert xs[i] in xs; Lookup(t, xs[i]).value.id))
  }

  // ----- renaming the used styles (addCollisionPatch, getMappingTable, patchStyleDefinitions) -----

  /** The id the i-th used style is renamed to. */
  function Alias(i: nat): string {
    "template-" + NatToString(i)
  }

  /** Different positions get different aliases. */
  lemma AliasInjective(i: nat, j: nat)
    requires Alias(i) == Alias(j)
    ensures i == j
  {
    var p := "template-";
    assert NatToString(i) == Alias(i)[|p|..] == Alias(j)[|p|..] == NatToString(j);
    NatToStringInjective(i, j);
  }

  /** `addCollisionPatch`: the id gets the alias numbered by the table's current size. */
  method AddCollisionPatch(table: map<string, string>, styleId: string) returns (newTable: map<string, string>, newId: string)
    ensures newId == Alias(|table|) && StartsWith(newId, "template-")
    ensures newTable == table[styleId := newId]
  {
    newId := "template-" + NatToString(|table|);
    newTable := table[styleId := newId];
  }

  /** `getMappingTable`: the i-th used style, in set order, is renamed to `template-<i>`. */
  method GetMappingTable(used: seq<string>) returns (table: map<string, string>)
    requires NoDup(used)
    ensures table.Keys == set x | x in used
    ensures |table| == |used|
    ensures forall i :: 0 <= i < |used| ==> table[used[i]] == Alias(i)
    ensures forall i, j :: 0 <= i < |used| && 0 <= j < |used| && i != j ==> table[used[i]] != table[used[j]]
  {
    table := map[];
    for k := 0 to |used|
      invariant table.Keys == set x | x in used[..k]
      invariant |table| == k
      invariant forall i :: 0 <= i < k ==> used[i] in table && table[used[i]] == Alias(i)
    {
      ghost var t0 := table;
      var alias;
      table, alias := AddCollisionPatch(table, used[k]);
      MappingStep(used, k, k + 1, t0, table);
    }
    assert used[..|used|] == used;
    AliasesDistinct(used, table);
  }

  /** One more used style renamed keeps the table's keys, size and aliases in step with the prefix. */
  lemma MappingStep(used: seq<string>, k: nat, j: nat, t0: map<string, string>, table: map<string, string>)
    requires NoDup(used) && k < |used| && j == k + 1
    requires t0.Keys == set x | x in used[..k]
    requires |t0| == k
    requires forall i :: 0 <= i < k ==> used[i] in t0 && t0[used[i]] == Alias(i)
    requires table == t0[used[k] := Alias(k)]
    ensures table.Keys == set x | x in used[..j]
    ensures |table| == j
    ensures forall i :: 0 <= i < j ==> used[i] in table && table[used[i]] == Alias(i)
  {
    assert used[k] !in used[..k];
    MappingKeys(used, k, j, t0, table);
    forall i | 0 <= i < j
      ensures used[i] in table && table[used[i]] == Alias(i)
    {
      if i < k {
        assert used[i] != used[k];
      }
    }
  }

  lemma MappingKeys(used: seq<string>, k: nat, j: nat, t0: map<string, string>, table: map<string, string>)
    requires k < |used| && j == k + 1 && used[k] !in used[..k]
    requires t0.Keys == set x | x in used[..k]
    requires |t0| == k
    requires table == t0[used[k] := Alias(k)]
    ensures table.Keys == set x | x in used[..j]
    ensures |table| == j
  {
    assert used[..j] == used[..k] + [used[k]];
  }

  lemma AliasesDistinct(used: seq<string>, table: map<string, string>)
    requires forall i :: 0 <= i < |used| ==> used[i] in table && table[used[i]] == Alias(i)
    ensures forall i, j :: 0 <= i < |used| && 0 <= j < |used| && i != j ==> table[used[i]] != table[used[j]]
  {
    forall i, j | 0 <= i < |used| && 0 <= j < |used| && i != j
      ensures table[used[i]] != table[used[j]]
    {
      if Alias(i) == Alias(j) {
        AliasInjective(i, j);
      }
    }
  }

  /** A definition whose id the map knows, renamed. */
  function Rename(s: Style, m: map<string, string>): Style {
    if s.id in m then s.(id := m[s.id]) else s
  }

  /** Each definition renamed where the map says so, in place. */
  function RenameAll(t: seq<Style>, m: map<string, string>): seq<Style>
  {
    if |t| == 0 then [] else RenameAll(t[..|t| - 1], m) + [Rename(t[|t| - 1], m)]
  }

  /** The definitions the map does not rename, in order. */
  function Unrenamed(t: seq<Style>, m: map<string, string>): seq<Style> {
    if |t| == 0 then [] else Unrenamed(t[..|t| - 1], m) + (if t[|t| - 1].id in m then [] else [t[|t| - 1]])
  }

  /** The definitions the map renames, renamed, in order. */
  function Renamed(t: seq<Style>, m: map<string, string>): seq<Style> {
    if |t| == 0 then [] else Renamed(t[..|t| - 1], m) + (if t[|t| - 1].id in m then [Rename(t[|t| - 1], m)] else [])
  }

  /**
   * `patchStyleDefinitions`: each renamed definition is removed and added
   * back under its new id, so it moves behind the definitions that keep
   * their id.
   */
  function PatchedDefinitions(t: seq<Style>, m: map<string, string>): seq<Style> {
    Unrenamed(t, m) + Renamed(t, m)
  }

  method PatchStyleDefinitions(t: seq<Style>, m: map<string, string>) returns (r: seq<Style>)
    ensures r == PatchedDefinitions(t, m)
  {
    var kept, moved := [], [];
    for i := 0 to |t|
      invariant kept == Unrenamed(t[..i], m) && moved == Renamed(t[..i], m)
    {
      assert t[..i + 1][..i] == t[..i];
      if t[i].id in m {
        moved := moved + [t[i].(id := m[t[i].id])];
      } else {
        kept := kept + [t[i]];
      }
    }
    assert t[..|t|] == t;
    r := kept + moved;
  }

  /** The patched table holds every definition, renamed where the map says so, and nothing else. */
  lemma {:induction false} PatchedDefinitionsPermutes(t: seq<Style>, m: map<string, string>)
    ensures multiset(PatchedDefinitions(t, m)) == multiset(RenameAll(t, m))
  {
    if |t| > 0 {
      var front, last := t[..|t| - 1], t[|t| - 1];
      PatchedDefinitionsPermutes(front, m);
      SplitLast(t, m);
      MultisetOfParts(Unrenamed(front, m), Renamed(front, m), Rename(last, m), last.id in m);
    }
  }

  lemma SplitLast(t: seq<Style>, m: map<string, string>)
    requires |t| > 0
    ensures var front, x := t[..|t| - 1], Rename(t[|t| - 1], m);
            RenameAll(t, m) == RenameAll(front, m) + [x] &&
            PatchedDefinitions(t, m) ==
              if t[|t| - 1].id in m then Unrenamed(front, m) + (Renamed(front, m) + [x])
              else (Unrenamed(front, m) + [x]) + Renamed(front, m)
  {
  }

  lemma MultisetOfParts(u: seq<Style>, v: seq<Style>, x: Style, moved: bool)
    ensures multiset(if moved then u + (v + [x]) else (u + [x]) + v) == multiset(u + v) + multiset{x}
  {
  }

  // ----- redirecting uses (patchStyleUseReferences) -----

  /**
   * One reference: a present, non-empty id the map knows is replaced by
   * what the map gives, `undefined` included.
   */
  function PatchRef(ref: Option<string>, m: map<string, Option<string>>): (r: Option<string>)
    ensures ref.Some? && ref.value != "" && ref.value in m ==> r == m[ref.value]
    ensures !(ref.Some? && ref.value != "" && ref.value in m) ==> r == ref
  {
    if ref.Some? && ref.value != "" && ref.value in m then m[ref.value] else ref
  }

  /** The `w:val` of a style use, patched. */
  function PatchVal(attrs: map<string, string>, m: map<string, Option<string>>): map<string, string> {
    var v := PatchRef(if "w:val" in attrs then Some(attrs["w:val"]) else None, m);
    match v
    case Some(x) => attrs["w:val" := x]
    case None => attrs - {"w:val"}
  }

  /** The part of `patchStyleUseReferences` that touches the document. */
  function UsePatcher(m: map<string, Option<string>>): AttrEdit {
    (tag: string, attrs: map<string, string>) =>
      if tag == "w:pStyle" || tag == "w:rStyle" then PatchVal(attrs, m) else attrs
  }

  function PatchDocUses(doc: Node, m: map<string, Option<string>>): Node {
    Rewrite(doc, UsePatcher(m))
  }

  /** The cross references of one definition, patched. */
  function PatchCrossRefs(s: Style, m: map<string, Option<string>>): Style {
    s.(basedOn := PatchRef(s.basedOn, m), link := PatchRef(s.link, m), next := PatchRef(s.next, m))
  }

  /**
   * `patchStyleUseReferences`: the uses in the document and the
   * `w:basedOn`, `w:link`, `w:next` of every definition are redirected.
   */
  method PatchStyleUseReferences(doc: Node, t: seq<Style>, m: map<string, Option<string>>) returns (doc': Node, t': seq<Style>)
    ensures doc' == PatchDocUses(doc, m)
    ensures |t'| == |t|
    ensures forall i :: 0 <= i < |t| ==> t'[i] == PatchCrossRefs(t[i], m)
  {
    doc' := PatchDocUses(doc, m);
    t' := [];
    for i := 0 to |t|
      invariant |t'| == i && forall j :: 0 <= j < i ==> t'[j] == PatchCrossRefs(t[j], m)
    {
      t' := t' + [PatchCrossRefs(t[i], m)];
    }
  }

  /**
   * Node for node, in pre-order: a `w:pStyle`/`w:rStyle` whose `w:val` the
   * map knows gets the mapped value, and every other node is unchanged.
   */
  lemma PatchDocUsesPreOrder(doc: Node, m: map<string, Option<string>>)
    ensures |Flatten(PatchDocUses(doc, m))| == |Flatten(doc)|
    ensures forall i :: 0 <= i < |Flatten(doc)| ==>
              var n := Flatten(doc)[i];
              var n' := Shallow(Flatten(PatchDocUses(doc, m))[i]);
              if IsStyleUse(n) then
                n' == Element(n.tag, PatchVal(n.attrs, m), []) &&
                GetAttr(n', "w:val") == PatchRef(GetAttr(n, "w:val"), m)
              else n' == Shallow(n)
  {
    RewritePreOrder(doc, UsePatcher(m));
  }

  /** Patching a definition keeps its id and name, so the table stays a valid `Styles` map. */
  lemma PatchCrossRefsKeepsIds(t: seq<Style>, t': seq<Style>, m: map<string, Option<string>>)
    requires |t'| == |t| && forall i :: 0 <= i < |t| ==> t'[i] == PatchCrossRefs(t[i], m)
    requires UniqueIds(t)
    ensures UniqueIds(t')
    ensures forall i :: 0 <= i < |t| ==> t'[i].id == t[i].id && t'[i].name == t[i].name
  {
  }

  // ----- extracting, indexing, removing and adding definitions -----

  /** `extractTemplateStyles`: the definitions whose id starts with `template-`, in order. */
  function TemplateStyles(t: seq<Style>): (r: seq<Style>)
    ensures forall s :: s in r <==> s in t && StartsWith(s.id, "template-")
  {
    if |t| == 0 then []
    else TemplateStyles(t[..|t| - 1]) + (if StartsWith(t[|t| - 1].id, "template-") then [t[|t| - 1]] else [])
  }

  method ExtractTemplateStyles(t: seq<Style>) returns (r: seq<Style>)
    ensures r == TemplateStyles(t)
    ensures forall s :: s in r ==> StartsWith(s.id, "template-")
  {
    r := [];
    for i := 0 to |t|
      invariant r == TemplateStyles(t[..i])
    {
      assert t[..i + 1][..i] == t[..i];
      if StartsWith(t[i].id, "template-") {
        r := r + [t[i]];
      }
    }
    assert t[..|t|] == t;
  }

  /** `getStyleIdsByName`: name to id, a later definition with the same name overwriting an earlier one. */
  function IdsByName(t: seq<Style>): (r: map<string, string>)
    ensures r.Keys == set s | s in t :: s.name
  {
    if |t| == 0 then map[]
    else IdsByName(t[..|t| - 1])[t[|t| - 1].name := t[|t| - 1].id]
  }

  method GetStyleIdsByName(t: seq<Style>) returns (r: map<string, string>)
    ensures r == IdsByName(t)
  {
    r := map[];
    for i := 0 to |t|
      invariant r == IdsByName(t[..i])
    {
      assert t[..i + 1][..i] == t[..i];
      r := r[t[i].name := t[i].id];
    }
    assert t[..|t|] == t;
  }

  /** The last definition with a name gives the id the name maps to. */
  lemma {:induction false} IdsByNameLast(t: seq<Style>, i: nat)
    requires i < |t|
    requires forall j :: i < j < |t| ==> t[j].name != t[i].name
    ensures IdsByName(t)[t[i].name] == t[i].id
  {
    if i < |t| - 1 {
      IdsByNameLast(t[..|t| - 1], i);
    }
  }

  /** Every name maps to the id of some definition with that name. */
  lemma {:induction false} IdsByNameSource(t: seq<Style>, name: string) returns (i: nat)
    requires name in IdsByName(t)
    ensures i < |t| && t[i].name == name && t[i].id == IdsByName(t)[name]
  {
    if t[|t| - 1].name == name {
      i := |t| - 1;
    } else {
      i := IdsByNameSource(t[..|t| - 1], name);
    }
  }

  /** In a table with distinct ids, different names map to different ids. */
  lemma IdsByNameInjective(t: seq<Style>, a: string, b: string)
    requires UniqueIds(t)
    requires a in IdsByName(t) && b in IdsByName(t) && a != b
    ensures IdsByName(t)[a] != IdsByName(t)[b]
  {
    var i := IdsByNameSource(t, a);
    var j := IdsByNameSource(t, b);
  }

  /** `removeCollidedStyles`: the definitions whose id is not in the set, in order. */
  function RemoveCollided(t: seq<Style>, collisions: set<string>): (r: seq<Style>)
    ensures forall s :: s in r <==> s in t && s.id !in collisions
    ensures UniqueIds(t) ==> UniqueIds(r)
  {
    if |t| == 0 then []
    else
      var front := RemoveCollided(t[..|t| - 1], collisions);
      var last := t[|t| - 1];
      assert UniqueIds(t) ==> UniqueIds(t[..|t| - 1]) && forall s :: s in t[..|t| - 1] ==> s.id != last.id;
      front + (if last.id in collisions then [] else [last])
  }

  method RemoveCollidedStyles(t: seq<Style>, collisions: set<string>) returns (r: seq<Style>)
    ensures r == RemoveCollided(t, collisions)
  {
    r := [];
    for i := 0 to |t|
      invariant r == RemoveCollided(t[..i], collisions)
    {
      assert t[..i + 1][..i] == t[..i];
      if t[i].id !in collisions {
        r := r + [t[i]];
      }
    }
    assert t[..|t| ] == t;
  }

  /** `addStyle`: a definition with a known id replaces it in place, a new one goes last. */
  function AddStyle(t: seq<Style>, s: Style): (r: seq<Style>)
    ensures s in r
    ensures forall x :: x in r ==> x == s || x in t
    ensures forall x :: x in t && x.id != s.id ==> x in r
    ensures UniqueIds(t) ==> UniqueIds(r)
  {
    if |t| == 0 then [s]
    else if t[0].id == s.id then
      assert UniqueIds(t) ==> forall x :: x in t[1..] ==> x.id != s.id;
      [s] + t[1..]
    else [t[0]] + AddStyle(t[1..], s)
  }

  /** After adding `defs[..k]`, only old or added definitions are present. */
  predicate OnlyOldOrAdded(r: seq<Style>, t: seq<Style>, defs: seq<Style>, k: nat)
    requires k <= |defs|
  {
    forall x :: x in r ==> x in t || x in defs[..k]
  }

  /** After adding `defs[..k]`, the last added definition for each id is present. */
  predicate LastAddedPresent(r: seq<Style>, defs: seq<Style>, k: nat)
    requires k <= |defs|
  {
    forall i :: 0 <= i < k && (forall j :: i < j < k ==> defs[j].id != defs[i].id) ==> defs[i] in r
  }

  /** After adding `defs[..k]`, every old definition whose id was never added stays. */
  predicate OldKept(r: seq<Style>, t: seq<Style>, defs: seq<Style>, k: nat)
    requires k <= |defs|
  {
    forall x :: x in t && (forall d :: d in defs[..k] ==> d.id != x.id) ==> x in r
  }

  lemma OnlyOldOrAddedStep(r: seq<Style>, t: seq<Style>, defs: seq<Style>, k: nat)
    requires k < |defs| && OnlyOldOrAdded(r, t, defs, k)
    ensures OnlyOldOrAdded(AddStyle(r, defs[k]), t, defs, k + 1)
  {
    assert defs[..k + 1] == defs[..k] + [defs[k]];
  }

  lemma LastAddedPresentStep(r: seq<Style>, defs: seq<Style>, k: nat)
    requires k < |defs| && LastAddedPresent(r, defs, k)
    ensures LastAddedPresent(AddStyle(r, defs[k]), defs, k + 1)
  {
    var r' := AddStyle(r, defs[k]);
    forall i | 0 <= i < k + 1 && (forall j :: i < j < k + 1 ==> defs[j].id != defs[i].id)
      ensures defs[i] in r'
    {
      if i < k {
        assert defs[k].id != defs[i].id;
        assert forall j :: i < j < k ==> defs[j].id != defs[i].id;
      }
    }
  }

  lemma OldKeptStep(r: seq<Style>, t: seq<Style>, defs: seq<Style>, k: nat)
    requires k < |defs| && OldKept(r, t, defs, k)
    ensures OldKept(AddStyle(r, defs[k]), t, defs, k + 1)
  {
    var r' := AddStyle(r, defs[k]);
    assert defs[..k + 1] == defs[..k] + [defs[k]];
    forall x | x in t && (forall d :: d in defs[..k + 1] ==> d.id != x.id)
      ensures x in r'
    {
      assert defs[k] in defs[..k + 1];
      assert forall d :: d in defs[..k] ==> d in defs[..k + 1];
    }
  }

  /** `addStyle` for each definition in turn. */
  method AddStyles(t: seq<Style>, defs: seq<Style>) returns (r: seq<Style>)
    ensures forall x :: x in r ==> x in t || x in defs
    ensures forall i :: 0 <= i < |defs| && (forall j :: i < j < |defs| ==> defs[j].id != defs[i].id) ==> defs[i] in r
    ensures forall x :: x in t && (forall d :: d in defs ==> d.id != x.id) ==> x in r
    ensures UniqueIds(t) ==> UniqueIds(r)
  {
    r := t;
    assert defs[..0] == [];
    for k := 0 to |defs|
      invariant OnlyOldOrAdded(r, t, defs, k)
      invariant LastAddedPresent(r, defs, k)
      invariant OldKept(r, t, defs, k)
      invariant UniqueIds(t) ==> UniqueIds(r)
    {
      OnlyOldOrAddedStep(r, t, defs, k);
      LastAddedPresentStep(r, defs, k);
      OldKeptStep(r, t, defs, k);
      r := AddStyle(r, defs[k]);
    }
    assert defs[..|defs|] == defs;
  }

  // ----- name collisions between the copied definitions and the generated document's -----

  /** Pandoc's style ids redirected to house styles whatever the generated document defines (`stylePatch`). */
  function StylePatch(byName: map<string, string>): map<string, Option<string>> {
    map[
      "Heading1" := Get(byName, "ispSubHeader-1 level"),
      "Heading2" := Get(byName, "ispSubHeader-2 level"),
      "Heading3" := Get(byName, "ispSubHeader-3 level"),
      "Author" := Get(byName, "ispAuthor"),
      "AbstractTitle" := Get(byName, "ispAnotation"),
      "Abstract" := Get(byName, "ispAnotation"),
      "BlockText" := Get(byName, "ispText_main"),
      "BodyText" := Get(byName, "ispText_main"),
      "FirstParagraph" := Get(byName, "ispText_main"),
      "Normal" := Get(byName, "Normal"),
      "SourceCode" := Get(byName, "ispListing"),
      "VerbatimChar" := Get(byName, "ispListing Знак"),
      "ImageCaption" := Get(byName, "ispPicture_sign")
    ]
  }

  /** The generated document's deeper headings, removed in any case (`stylesToRemove`). */
  const HeadingsRemoved: set<string> := {"Heading4", "Heading5", "Heading6", "Heading7", "Heading8", "Heading9"}

  /** Different names have different ids. */
  predicate Injective(byName: map<string, string>) {
    forall a, b :: a in byName && b in byName && a != b ==> byName[a] != byName[b]
  }

  /** The generated document's ids of the names in `names` it also defines. */
  function Collided(names: seq<string>, target: map<string, string>): set<string> {
    set n | n in names && n in target :: target[n]
  }

  /**
   * The loop over the copied definitions by name: a generated-document
   * style with the same name is redirected to the copy unless the explicit table
   * already says where it goes, and is removed in any case.
   */
  method ResolveCollisions(names: seq<string>, extracted: map<string, string>, target: map<string, string>,
                           patch0: map<string, Option<string>>, remove0: set<string>)
    returns (patch: map<string, Option<string>>, remove: set<string>)
    requires NoDup(names) && forall n :: n in names <==> n in extracted
    requires Injective(target)
    ensures remove == remove0 + Collided(names, target)
    ensures patch.Keys == patch0.Keys + Collided(names, target)
    ensures forall k :: k in patch0 ==> patch[k] == patch0[k]
    ensures forall n :: n in extracted && n in target && target[n] !in patch0 ==> patch[target[n]] == Some(extracted[n])
  {
    patch, remove := patch0, remove0;
    for i := 0 to |names|
      invariant remove == remove0 + Collided(names[..i], target)
      invariant patch.Keys == patch0.Keys + Collided(names[..i], target)
      invariant forall k :: k in patch0 ==> patch[k] == patch0[k]
      invariant forall n :: n in names[..i] && n in target && target[n] !in patch0 ==> patch[target[n]] == Some(extracted[n])
    {
      var n := names[i];
      ghost var before, removed := patch, remove;
      if n in target {
        var id := target[n];
        if id !in patch {
          patch := patch[id := Some(extracted[n])];
        }
        remove := remove + {id};
      }
      RemoveStep(names, target, remove0, removed, i, remove);
      RedirectKeys(names, extracted, target, patch0, before, i, patch);
      RedirectKeepsTable(names, extracted, target, patch0, before, i, patch);
      RedirectValues(names, extracted, target, patch0, before, i, patch);
    }
    assert names[..|names|] == names;
  }

  /** One name of the loop: a colliding id of the generated document not yet redirected goes to the copy. */
  predicate Redirects(p: map<string, Option<string>>, patch: map<string, Option<string>>, n: string,
                      extracted: map<string, string>, target: map<string, string>)
    requires n in extracted
  {
    (n in target && target[n] !in patch ==> p == patch[target[n] := Some(extracted[n])]) &&
    (!(n in target && target[n] !in patch) ==> p == patch)
  }

  /** One step of the loop adds the name's generated-document id, when it collides, to the ids removed. */
  lemma RemoveStep(names: seq<string>, target: map<string, string>, remove0: set<string>, remove: set<string>,
                   i: nat, r: set<string>)
    requires i < |names| && remove == remove0 + Collided(names[..i], target)
    requires names[i] in target ==> r == remove + {target[names[i]]}
    requires names[i] !in target ==> r == remove
    ensures r == remove0 + Collided(names[..i + 1], target)
  {
    CollidedStep(names, target, i);
  }

  /** One step of the loop adds the name's generated-document id, when it collides, to the keys. */
  lemma RedirectKeys(names: seq<string>, extracted: map<string, string>, target: map<string, string>,
                     patch0: map<string, Option<string>>, patch: map<string, Option<string>>, i: nat,
                     p: map<string, Option<string>>)
    requires forall n :: n in names <==> n in extracted
    requires i < |names| && Redirects(p, patch, names[i], extracted, target)
    requires patch.Keys == patch0.Keys + Collided(names[..i], target)
    ensures p.Keys == patch0.Keys + Collided(names[..i + 1], target)
  {
    CollidedStep(names, target, i);
  }

  /** One step of the loop leaves the explicit table's entries alone. */
  lemma RedirectKeepsTable(names: seq<string>, extracted: map<string, string>, target: map<string, string>,
                           patch0: map<string, Option<string>>, patch: map<string, Option<string>>, i: nat,
                           p: map<string, Option<string>>)
    requires forall n :: n in names <==> n in extracted
    requires i < |names| && Redirects(p, patch, names[i], extracted, target)
    requires patch0.Keys <= patch.Keys
    requires forall k :: k in patch0 ==> patch[k] == patch0[k]
    ensures forall k :: k in patch0 ==> p[k] == patch0[k]
  {
  }

  /** One step of the loop redirects the name's id and keeps the earlier names' redirections. */
  lemma RedirectValues(names: seq<string>, extracted: map<string, string>, target: map<string, string>,
                       patch0: map<string, Option<string>>, patch: map<string, Option<string>>, i: nat,
                       p: map<string, Option<string>>)
    requires NoDup(names) && (forall n :: n in names <==> n in extracted) && Injective(target)
    requires i < |names| && Redirects(p, patch, names[i], extracted, target)
    requires patch.Keys == patch0.Keys + Collided(names[..i], target)
    requires forall n :: n in names[..i] && n in target && target[n] !in patch0 ==> patch[target[n]] == Some(extracted[n])
    ensures forall n :: n in names[..i + 1] && n in target && target[n] !in patch0 ==> p[target[n]] == Some(extracted[n])
  {
    var n := names[i];
    assert n !in names[..i];
    forall m | m in names[..i + 1] && m in target && target[m] !in patch0
      ensures p[target[m]] == Some(extracted[m])
    {
      assert m in names[..i] || m == n;
      if m != n {
        assert m in names[..i];
        assert target[m] in Collided(names[..i], target);
      } else {
        assert target[n] !in Collided(names[..i], target);
      }
    }
  }

  /** The list rules of the house styles (`patchRules`). */
  function PatchRules(byName: map<string, string>): (r: ListRules)
    ensures r.ordered.numId == "33" && r.bullet.numId == "43" && r.lit.numId == "80"
    ensures r.ordered.styleName == Get(byName, "ispNumList")
    ensures r.bullet.styleName == Get(byName, "ispList1")
    ensures r.lit.styleName == Get(byName, "ispLitList")
  {
    ListRules(ListRule(Get(byName, "ispNumList"), "33"),
              ListRule(Get(byName, "ispList1"), "43"),
              ListRule(Get(byName, "ispLitList"), "80"))
  }

  // ----- the whole merge -----

  /** The template's house styles copied whether or not its body uses them, by name. */
  const RequiredNames: seq<string> := [
    "ispSubHeader-1 level", "ispSubHeader-2 level", "ispSubHeader-3 level", "ispAuthor",
    "ispAnotation", "ispText_main", "ispList", "ispListing", "ispListing Знак",
    "ispLitList", "ispPicture_sign", "ispNumList", "Normal"
  ]

  function Names(t: seq<Style>): (r: seq<string>)
    ensures forall n :: n in r <==> exists s :: s in t && s.name == n
  {
    if |t| == 0 then [] else (assert t[0] in t; [t[0].name]) + Names(t[1..])
  }

  /** A mapping table as a patch, every value present. */
  function Present2(m: map<string, string>): (r: map<string, Option<string>>)
    ensures r.Keys == m.Keys && forall k :: k in m ==> r[k] == Some(m[k])
  {
    map k | k in m :: Some(m[k])
  }

  /** The generated document's uses of a name-colliding style go to the copy, and the colliding definition is gone. */
  lemma CollidedStep(names: seq<string>, target: map<string, string>, i: nat)
    requires i < |names|
    ensures names[i] in target ==> Collided(names[..i + 1], target) == Collided(names[..i], target) + {target[names[i]]}
    ensures names[i] !in target ==> Collided(names[..i + 1], target) == Collided(names[..i], target)
  {
    assert forall x :: x in names[..i + 1] <==> x in names[..i] || x == names[i];
  }

  /**
   * The template's side of the merge: the styles its body uses renamed to
   * `template-<i>` in the definitions and in the template's body, and
   * those definitions copied out.
   */
  method RenameUsedStyles(sourceDoc: Node, source: seq<Style>) returns (r: Result<(Node, seq<Style>), string>)
    ensures r.Ok? ==> forall s :: s in r.value.1 ==> StartsWith(s.id, "template-")
    ensures r.Err? ==> exists x :: Lookup(source, x).None? && r.error == NotFoundMessage(x)
  {
    var sourceByName := GetStyleIdsByName(source);
    var required := seq(|RequiredNames|, i requires 0 <= i < |RequiredNames| => Get(sourceByName, RequiredNames[i]));
    var used :- GetUsedStylesDeep(sourceDoc, source, required);
    var mapping := GetMappingTable(used);
    var source1 := PatchStyleDefinitions(source, mapping);
    var sourceDoc1, source2 := PatchStyleUseReferences(sourceDoc, source1, Present2(mapping));
    var extracted := ExtractTemplateStyles(source2);
    r := Ok((sourceDoc1, extracted));
  }

  datatype Merged = Merged(sourceDoc: Node, targetStyles: seq<Style>, targetDoc: Node, rules: ListRules)

  /** A `template-` id is never one of the removed headings. */
  lemma NoHeadingIsTemplate(id: string)
    requires StartsWith(id, "template-")
    ensures id !in HeadingsRemoved
  {
    assert id[..|"template-"|] == "template-";
  }

  /**
   * The generated document's side: colliding definitions removed, the
   * template's copies added, uses redirected, list rules built.
   */
  method MergeInto(extracted: seq<Style>, targetDoc: Node, target: seq<Style>) returns (m: (seq<Style>, Node, ListRules))
    requires UniqueIds(target)
    requires forall s :: s in extracted ==> StartsWith(s.id, "template-")
    ensures forall s :: s in m.0 ==> s.id !in HeadingsRemoved
    ensures m.2 == PatchRules(IdsByName(extracted))
  {
    var targetByName := GetStyleIdsByName(target);
    var extractedByName := GetStyleIdsByName(extracted);
    var names := AddAll([], Names(extracted));
    AddAllSpec([], Names(extracted));
    forall a, b | a in targetByName && b in targetByName && a != b
      ensures targetByName[a] != targetByName[b]
    {
      IdsByNameInjective(target, a, b);
    }
    var patch, remove := ResolveCollisions(names, extractedByName, targetByName, StylePatch(extractedByName), HeadingsRemoved);
    var target1 := RemoveCollidedStyles(target, remove);
    var target2 := AddStyles(target1, extracted);
    forall s | s in target2
      ensures s.id !in HeadingsRemoved
    {
      if s in extracted {
        NoHeadingIsTemplate(s.id);
      }
    }
    var targetDoc1, target3 := PatchStyleUseReferences(targetDoc, target2, patch);
    forall s | s in target3
      ensures s.id !in HeadingsRemoved
    {
      var i :| 0 <= i < |target3| && target3[i] == s;
      assert target2[i] in target2;
    }
    m := (target3, targetDoc1, PatchRules(extractedByName));
  }

  /** The style reconciliation of `fixDocxStyles`. */
  method MergeStyles(sourceDoc: Node, source: seq<Style>, targetDoc: Node, target: seq<Style>)
    returns (r: Result<Merged, string>)
    requires UniqueIds(target)
    ensures r.Ok? ==> forall s :: s in r.value.targetStyles ==> s.id !in HeadingsRemoved
    ensures r.Ok? ==> r.value.rules.ordered.numId == "33" && r.value.rules.bullet.numId == "43" && r.value.rules.lit.numId == "80"
    ensures r.Err? ==> exists x :: Lookup(source, x).None? && r.error == NotFoundMessage(x)
  {
    var renamed :- RenameUsedStyles(sourceDoc, source);
    var m := MergeInto(renamed.1, targetDoc, target);
    r := Ok(Merged(renamed.0, m.0, m.1, m.2));
  }
}
