/**
 * The rewrite of pandoc's JSON document before it is turned into a .docx
 * (`getPatchedMetaElement`, `fixCompactLists`). Every list is bracketed
 * by two raw OpenXML comments, `ListMode <type>` and `ListMode None`,
 * which the list styling pass later reads; a compact list item (one whose
 * first block is `Plain`) is made an ordinary paragraph; a `Div` carrying
 * a caption class becomes a caption paragraph. An array element that is
 * rewritten into an array (a bracketed list) is spliced into its parent.
 *
 * JSON values are a datatype; an object keeps its properties in order.
 * The caption paragraphs are serialised by an XML module that is not part
 * of this model, so their OpenXML text is a parameter.
 */
module PandocPatch {
  import opened Wrappers
  import opened Strings

  datatype Json =
    | JNull
    | JBool(b: bool)
    | JNum(n: int)
    | JStr(s: string)
    | JArr(items: seq<Json>)
    | JObj(fields: seq<Prop>)

  /** One property of an object. */
  datatype Prop = Prop(key: string, value: Json)

  /** The OpenXML of the two caption paragraphs, given the `Div`'s content (`getImageCaption`, `getListingCaption`). */
  datatype Captions = Captions(image: Json -> string, listing: Json -> string)

  // ----- sizes, for termination -----

  function Size(j: Json): (n: nat)
    ensures n >= 1
    decreases j
  {
    match j
    case JArr(items) => 1 + SizeSeq(items)
    case JObj(fields) => 1 + SizeFields(fields)
    case _ => 1
  }

  function SizeSeq(items: seq<Json>): nat
    decreases items
  {
    if |items| == 0 then 0 else Size(items[0]) + SizeSeq(items[1..])
  }

  function SizeFields(fields: seq<Prop>): nat
    decreases fields
  {
    if |fields| == 0 then 0 else Size(fields[0].value) + SizeFields(fields[1..])
  }

  lemma {:induction false} SizeSeqAppend(a: seq<Json>, b: seq<Json>)
    ensures SizeSeq(a + b) == SizeSeq(a) + SizeSeq(b)
  {
    if |a| == 0 {
      assert a + b == b;
    } else {
      assert (a + b)[1..] == a[1..] + b;
      SizeSeqAppend(a[1..], b);
    }
  }

  lemma {:induction false} SizeSeqElement(items: seq<Json>, i: nat)
    requires i < |items|
    ensures Size(items[i]) <= SizeSeq(items)
  {
    if i > 0 {
      SizeSeqElement(items[1..], i - 1);
    }
  }

  lemma {:induction false} SizeSeqUpdate(items: seq<Json>, i: nat, x: Json)
    requires i < |items| && Size(x) == Size(items[i])
    ensures SizeSeq(items[i := x]) == SizeSeq(items)
  {
    if i > 0 {
      SizeSeqUpdate(items[1..], i - 1, x);
      assert items[i := x][1..] == items[1..][i - 1 := x];
    }
  }

  // ----- property access -----

  /** `o[key]`: the value of the first property with that key. */
  function Field(j: Json, key: string): Option<Json> {
    if j.JObj? then FieldOf(j.fields, key) else None
  }

  function FieldOf(fields: seq<Prop>, key: string): (r: Option<Json>)
    ensures r.Some? ==> Size(r.value) <= SizeFields(fields)
  {
    if |fields| == 0 then None
    else if fields[0].key == key then Some(fields[0].value)
    else FieldOf(fields[1..], key)
  }

  /** `o[key] = v` on a property the object has; other objects are left alone. */
  function SetFieldOf(fields: seq<Prop>, key: string, v: Json): (r: seq<Prop>)
    ensures |r| == |fields|
    ensures FieldOf(fields, key).Some? ==> FieldOf(r, key) == Some(v)
    ensures forall k :: k != key ==> FieldOf(r, k) == FieldOf(fields, k)
    ensures FieldOf(fields, key).Some? && Size(FieldOf(fields, key).value) == Size(v) ==> SizeFields(r) == SizeFields(fields)
  {
    if |fields| == 0 then []
    else if fields[0].key == key then [Prop(key, v)] + fields[1..]
    else [fields[0]] + SetFieldOf(fields[1..], key, v)
  }

  /** `a[i]` of an array. */
  function Index(j: Json, i: nat): Option<Json> {
    if j.JArr? && i < |j.items| then Some(j.items[i]) else None
  }

  /** `classes.includes(name)`: an element of an array, a substring of a string. */
  predicate Includes(classes: Json, name: string) {
    match classes
    case JArr(items) => JStr(name) in items
    case JStr(s) => Contains(s, name)
    case _ => false
  }

  function TypeOf(j: Json): Option<Json> {
    Field(j, "t")
  }

  predicate IsList(j: Json) {
    j.JObj? && (TypeOf(j) == Some(JStr("BulletList")) || TypeOf(j) == Some(JStr("OrderedList")))
  }

  // ----- the pieces the rewrite emits -----

  /** `getOpenxmlInjection`: a raw OpenXML block. */
  function Injection(xml: string): Json {
    JObj([Prop("t", JStr("RawBlock")), Prop("c", JArr([JStr("openxml"), JStr(xml)]))])
  }

  /** The comment that opens a list of the given pandoc type. */
  function OpenSentinel(listType: string): Json {
    Injection("<!-- ListMode " + listType + " -->")
  }

  function CloseSentinel(): Json {
    Injection("<!-- ListMode None -->")
  }

  /** The `${list.t}` of a list object. */
  function ListTypeName(list: Json): string {
    match TypeOf(list)
    case Some(JStr(s)) => s
    case _ => "undefined"
  }

  /**
   * A compact item made loose: when the item's first block is an object
   * of type `Plain`, its type becomes `Para`.
   */
  function Promote(item: Json): (r: Json)
    ensures Size(r) == Size(item)
    ensures r.JArr? == item.JArr?
  {
    if item.JArr? && |item.items| > 0 && item.items[0].JObj? && TypeOf(item.items[0]) == Some(JStr("Plain")) then
      var first := item.items[0];
      var first' := JObj(SetFieldOf(first.fields, "t", JStr("Para")));
      assert item.items == [first] + item.items[1..];
      SizeSeqAppend([first], item.items[1..]);
      SizeSeqAppend([first'], item.items[1..]);
      JArr([first'] + item.items[1..])
    else item
  }

  /** The items of an ordered list, `c[1]`, each made loose. */
  function PromoteOrderedItems(list: Json): (r: Json)
    ensures Size(r) == Size(list)
    ensures TypeOf(r) == TypeOf(list) && r.JObj? == list.JObj?
  {
    if list.JObj? && TypeOf(list) == Some(JStr("OrderedList")) then
      match FieldOf(list.fields, "c")
      case Some(JArr(c)) =>
        if |c| >= 2 && c[1].JArr? then
          var c' := c[1 := JArr(PromoteAll(c[1].items))];
          SizeSeqUpdate(c, 1, c'[1]);
          JObj(SetFieldOf(list.fields, "c", JArr(c')))
        else list
      case _ => list
    else list
  }

  function PromoteAll(items: seq<Json>): (r: seq<Json>)
    ensures |r| == |items| && forall i :: 0 <= i < |items| ==> r[i] == Promote(items[i])
    ensures SizeSeq(r) == SizeSeq(items)
  {
    if |items| == 0 then [] else [Promote(items[0])] + PromoteAll(items[1..])
  }

  // ----- the rewrite -----

  /**
   * `getPatchedMetaElement` on one value. With `corrected` false this is the
   * function as written, lists at every depth going through
   * `fixCompactLists` as written; with `corrected` true every list goes
   * through the corrected `FixCompactLists` instead.
   */
  function Patch(j: Json, cap: Captions, corrected: bool): (r: Json)
    ensures r.JArr? <==> j.JArr? || IsList(j)
    ensures IsList(j) ==> |r.items| == 3 && r.items[0] == OpenSentinel(ListTypeName(j)) && r.items[2] == CloseSentinel()
    ensures !j.JArr? && !j.JObj? ==> r == j
    decreases Size(j), 3
  {
    match j
    case JArr(items) => JArr(PatchSeq(items, cap, corrected))
    case JObj(fields) =>
      var caption := DivCaption(j, cap);
      if caption.Some? then caption.value
      else if IsList(j) then
        (if corrected then FixCompactLists(j, cap) else FixCompactListsAsWritten(j, cap))
      else JObj(PatchFields(fields, cap, corrected))
    case _ => j
  }

  /**
   * The array loop: a value rewritten into an array, that was not one, is
   * spliced in. Only a list becomes an array, as three elements, so the new
   * array has between one and three elements per old one.
   */
  function PatchSeq(items: seq<Json>, cap: Captions, corrected: bool): (r: seq<Json>)
    ensures |items| <= |r| <= 3 * |items|
    decreases SizeSeq(items), 4
  {
    if |items| == 0 then []
    else
      SizeSeqElement(items, 0);
      Spliced(items[0], Patch(items[0], cap, corrected)) + PatchSeq(items[1..], cap, corrected)
  }

  /** What one element contributes to the new array. */
  function Spliced(e: Json, patched: Json): seq<Json> {
    if patched.JArr? && !e.JArr? then patched.items else [patched]
  }

  /** The property loop: every property but `__proto__` is rewritten in place. */
  function PatchFields(fields: seq<Prop>, cap: Captions, corrected: bool): (r: seq<Prop>)
    ensures |r| == |fields| && forall i :: 0 <= i < |fields| ==> r[i].key == fields[i].key
    decreases SizeFields(fields), 4
  {
    if |fields| == 0 then []
    else
      var f := fields[0];
      [if f.key == "__proto__" then f else Prop(f.key, Patch(f.value, cap, corrected))] + PatchFields(fields[1..], cap, corrected)
  }

  /** A `Div` whose class list names a caption becomes that caption; otherwise `None`. */
  function DivCaption(j: Json, cap: Captions): (r: Option<Json>)
    ensures r.Some? ==> TypeOf(j) == Some(JStr("Div")) && r.value.JObj? && TypeOf(r.value) == Some(JStr("RawBlock"))
  {
    if TypeOf(j) != Some(JStr("Div")) then None
    else
      match Field(j, "c")
      case Some(value) =>
        (match (Index(value, 0), Index(value, 1))
         case (Some(attr), Some(content)) =>
           (match Index(attr, 1)
            case Some(classes) =>
              if Includes(classes, "img-caption") then Some(Injection(cap.image(content)))
              else if Includes(classes, "table-caption") || Includes(classes, "listing-caption") then
                Some(Injection(cap.listing(content)))
              else None
            case None => None)
         case _ => None)
      case None => None
  }

  /** The list bracketed by its two sentinels, each element of its `c` made loose and rewritten. */
  function Bracketed(list: Json, cap: Captions, corrected: bool): (r: Json)
    requires list.JObj?
    ensures r.JArr? && |r.items| == 3
    ensures r.items[0] == OpenSentinel(ListTypeName(list)) && r.items[2] == CloseSentinel()
    ensures r.items[1] == FixedList(list, cap, corrected)
    decreases Size(list), 1
  {
    JArr([OpenSentinel(ListTypeName(list)), FixedList(list, cap, corrected), CloseSentinel()])
  }

  /**
   * `fixCompactLists` as written: each element of `c` is made loose and
   * rewritten by `getPatchedMetaElement` as written, and the list is
   * bracketed by its two sentinels.
   */
  function FixCompactListsAsWritten(list: Json, cap: Captions): (r: Json)
    requires list.JObj?
    ensures r.JArr? && |r.items| == 3
    ensures r.items[0] == OpenSentinel(ListTypeName(list)) && r.items[2] == CloseSentinel()
    ensures r.items[1] == FixedList(list, cap, false)
    decreases Size(list), 2
  {
    Bracketed(list, cap, false)
  }

  /** The list with each element of its `c` made loose and rewritten. */
  function FixedList(list: Json, cap: Captions, corrected: bool): (r: Json)
    requires list.JObj?
    ensures r.JObj? && TypeOf(r) == TypeOf(list)
    ensures FieldOf(list.fields, "c").Some? && FieldOf(list.fields, "c").value.JArr? ==>
              FieldOf(r.fields, "c") == Some(JArr(FixItems(FieldOf(list.fields, "c").value.items, cap, corrected)))
    decreases Size(list), 0
  {
    match FieldOf(list.fields, "c")
    case Some(JArr(c)) => JObj(SetFieldOf(list.fields, "c", JArr(FixItems(c, cap, corrected))))
    case _ => list
  }

  function FixItems(items: seq<Json>, cap: Captions, corrected: bool): (r: seq<Json>)
    ensures |r| == |items|
    decreases SizeSeq(items), 4
  {
    if |items| == 0 then []
    else
      SizeSeqElement(items, 0);
      [Patch(Promote(items[0]), cap, corrected)] + FixItems(items[1..], cap, corrected)
  }

  /**
   * `fixCompactLists` with the items of an ordered list, which pandoc keeps
   * in `c[1]` behind the list attributes `c[0]`, made loose as well; lists
   * nested in the items get the same treatment.
   */
  function FixCompactLists(list: Json, cap: Captions): (r: Json)
    requires list.JObj?
    ensures r.JArr? && |r.items| == 3
    ensures r.items[0] == OpenSentinel(ListTypeName(list)) && r.items[2] == CloseSentinel()
    ensures r.items[1].JObj? && TypeOf(r.items[1]) == TypeOf(list)
    ensures r == Bracketed(PromoteOrderedItems(list), cap, true)
    decreases Size(list), 2
  {
    Bracketed(PromoteOrderedItems(list), cap, true)
  }

  /** The array branch of `getPatchedMetaElement`, as the loop that fills `newArray`. */
  method PatchArray(items: seq<Json>, cap: Captions) returns (r: seq<Json>)
    ensures r == PatchSeq(items, cap, false)
  {
    r := [];
    for i := 0 to |items|
      invariant r == PatchSeq(items[..i], cap, false)
    {
      var patched := Patch(items[i], cap, false);
      PatchSeqAppend(items[..i], [items[i]], cap, false);
      PatchSeqSingle(items[i], cap, false);
      assert items[..i + 1] == items[..i] + [items[i]];
      assert PatchSeq(items[..i + 1], cap, false) == r + Spliced(items[i], patched);
      if patched.JArr? && !items[i].JArr? {
        r := r + patched.items;
      } else {
        r := r + [patched];
      }
    }
    assert items[..|items|] == items;
  }

  // ----- what the rewrite guarantees -----

  lemma {:induction false} PatchSeqAppend(a: seq<Json>, b: seq<Json>, cap: Captions, corrected: bool)
    ensures PatchSeq(a + b, cap, corrected) == PatchSeq(a, cap, corrected) + PatchSeq(b, cap, corrected)
  {
    if |a| == 0 {
      assert a + b == b;
    } else {
      assert (a + b)[0] == a[0] && (a + b)[1..] == a[1..] + b;
      PatchSeqAppend(a[1..], b, cap, corrected);
    }
  }

  /**
   * As written, a list inside an array is replaced there by its opening
   * sentinel, the list rewritten by `fixCompactLists` as written, and its
   * closing sentinel.
   */
  lemma ListSplicedIntoArray(xs: seq<Json>, e: Json, ys: seq<Json>, cap: Captions)
    requires IsList(e)
    ensures PatchSeq(xs + [e] + ys, cap, false) ==
              PatchSeq(xs, cap, false) + FixCompactListsAsWritten(e, cap).items + PatchSeq(ys, cap, false)
    ensures FixCompactListsAsWritten(e, cap).items ==
              [OpenSentinel(ListTypeName(e)), FixedList(e, cap, false), CloseSentinel()]
  {
    PatchSeqAppend(xs + [e], ys, cap, false);
    PatchSeqAppend(xs, [e], cap, false);
    PatchList(e, cap);
    PatchSeqSingle(e, cap, false);
  }

  lemma PatchSeqSingle(e: Json, cap: Captions, corrected: bool)
    ensures PatchSeq([e], cap, corrected) == Spliced(e, Patch(e, cap, corrected))
  {
    assert PatchSeq([e], cap, corrected) == Spliced(e, Patch(e, cap, corrected)) + PatchSeq([], cap, corrected);
  }

  /** A list is rewritten by `fixCompactLists`: as written, or corrected. */
  lemma PatchList(e: Json, cap: Captions)
    requires IsList(e)
    ensures Patch(e, cap, false) == FixCompactListsAsWritten(e, cap)
    ensures Patch(e, cap, true) == FixCompactLists(e, cap)
  {
    assert DivCaption(e, cap).None?;
  }

  /**
   * A `Div` whose class list (`c[0][1]`) includes `img-caption` becomes the
   * image caption of its content `c[1]`; one that includes `table-caption`
   * or `listing-caption` becomes a listing caption; any other `Div` keeps
   * its properties, each rewritten.
   */
  lemma CaptionDivReplaced(j: Json, cap: Captions, corrected: bool, value: Json, attr: Json, content: Json, classes: Json)
    requires TypeOf(j) == Some(JStr("Div")) && Field(j, "c") == Some(value)
    requires Index(value, 0) == Some(attr) && Index(value, 1) == Some(content) && Index(attr, 1) == Some(classes)
    ensures Includes(classes, "img-caption") ==> Patch(j, cap, corrected) == Injection(cap.image(content))
    ensures !Includes(classes, "img-caption") && (Includes(classes, "table-caption") || Includes(classes, "listing-caption")) ==>
              Patch(j, cap, corrected) == Injection(cap.listing(content))
    ensures !Includes(classes, "img-caption") && !Includes(classes, "table-caption") && !Includes(classes, "listing-caption") ==>
              Patch(j, cap, corrected) == JObj(PatchFields(j.fields, cap, corrected))
  {
    assert !IsList(j);
    if Includes(classes, "img-caption") {
      assert DivCaption(j, cap) == Some(Injection(cap.image(content)));
    } else if Includes(classes, "table-caption") || Includes(classes, "listing-caption") {
      assert DivCaption(j, cap) == Some(Injection(cap.listing(content)));
    } else {
      assert DivCaption(j, cap) == None;
    }
  }

  /** An array inside an array stays one element: the splice goes one level deep only. */
  lemma ArrayNotSpliced(xs: seq<Json>, e: Json, ys: seq<Json>, cap: Captions, corrected: bool)
    requires e.JArr?
    ensures PatchSeq(xs + [e] + ys, cap, corrected) ==
              PatchSeq(xs, cap, corrected) + [Patch(e, cap, corrected)] + PatchSeq(ys, cap, corrected)
    ensures Patch(e, cap, corrected).JArr?
  {
    PatchSeqAppend(xs + [e], ys, cap, corrected);
    PatchSeqAppend(xs, [e], cap, corrected);
    PatchSeqSingle(e, cap, corrected);
  }

  /** Arrays of arrays are rewritten element by element. */
  lemma {:induction false} PatchSeqOfArrays(items: seq<Json>, cap: Captions, corrected: bool)
    requires forall i :: 0 <= i < |items| ==> items[i].JArr?
    ensures |PatchSeq(items, cap, corrected)| == |items|
    ensures forall i :: 0 <= i < |items| ==> PatchSeq(items, cap, corrected)[i] == Patch(items[i], cap, corrected)
  {
    if |items| > 0 {
      PatchSeqOfArrays(items[1..], cap, corrected);
      var rest := PatchSeq(items[1..], cap, corrected);
      assert PatchSeq(items, cap, corrected) == [Patch(items[0], cap, corrected)] + rest;
      forall i | 0 < i < |items|
        ensures PatchSeq(items, cap, corrected)[i] == Patch(items[i], cap, corrected)
      {
        assert items[1..][i - 1] == items[i];
      }
    }
  }

  /** A property other than `__proto__` holds the rewrite of its old value. */
  lemma {:induction false} FieldOfPatchFields(fields: seq<Prop>, key: string, cap: Captions, corrected: bool)
    requires key != "__proto__"
    ensures FieldOf(PatchFields(fields, cap, corrected), key) ==
              match FieldOf(fields, key)
              case Some(v) => Some(Patch(v, cap, corrected))
              case None => None
  {
    if |fields| > 0 {
      FieldOfPatchFields(fields[1..], key, cap, corrected);
    }
  }

  /** The first block of an item is an object of the given type. */
  predicate LeadsWith(item: Json, blockType: string) {
    item.JArr? && |item.items| > 0 && item.items[0].JObj? && TypeOf(item.items[0]) == Some(JStr(blockType))
  }

  /** The rewrite keeps the type of an item's first block when that is not a Div or a list. */
  lemma PatchKeepsLeading(item: Json, blockType: string, cap: Captions, corrected: bool)
    requires LeadsWith(item, blockType)
    requires blockType != "Div" && blockType != "BulletList" && blockType != "OrderedList"
    ensures LeadsWith(Patch(item, cap, corrected), blockType)
  {
    var first := item.items[0];
    assert item.items == [first] + item.items[1..];
    PatchSeqAppend([first], item.items[1..], cap, corrected);
    assert PatchSeq([first], cap, corrected) == Spliced(first, Patch(first, cap, corrected)) + PatchSeq([], cap, corrected);
    FieldOfPatchFields(first.fields, "t", cap, corrected);
    assert Patch(first, cap, corrected) == JObj(PatchFields(first.fields, cap, corrected));
  }

  /** A compact item, made loose and rewritten, starts with a `Para`. */
  lemma PatchPromoted(item: Json, cap: Captions, corrected: bool)
    requires LeadsWith(item, "Plain")
    ensures LeadsWith(Patch(Promote(item), cap, corrected), "Para")
  {
    PatchKeepsLeading(Promote(item), "Para", cap, corrected);
  }

  lemma {:induction false} FixItemsAt(items: seq<Json>, cap: Captions, corrected: bool, i: nat)
    requires i < |items|
    ensures FixItems(items, cap, corrected)[i] == Patch(Promote(items[i]), cap, corrected)
  {
    if i > 0 {
      FixItemsAt(items[1..], cap, corrected, i - 1);
    }
  }

  /** The items of a list in pandoc's layout: `c` of a bullet list, `c[1]` of an ordered list. */
  function ItemsOf(list: Json): Option<seq<Json>> {
    match Field(list, "c")
    case Some(JArr(c)) =>
      if TypeOf(list) == Some(JStr("OrderedList")) then
        (if |c| >= 2 && c[1].JArr? then Some(c[1].items) else None)
      else Some(c)
    case _ => None
  }

  predicate AllArrays(items: seq<Json>) {
    forall i :: 0 <= i < |items| ==> items[i].JArr?
  }

  /**
   * With the correction, every compact item of a bullet or ordered list is
   * loose afterwards: its first block, `Plain` before, is a `Para`.
   */
  lemma CompactItemsMadeLoose(list: Json, cap: Captions, i: nat)
    requires IsList(list)
    requires ItemsOf(list).Some? && AllArrays(ItemsOf(list).value)
    requires i < |ItemsOf(list).value| && LeadsWith(ItemsOf(list).value[i], "Plain")
    ensures Patch(list, cap, true) == FixCompactLists(list, cap)
    ensures ItemsOf(FixCompactLists(list, cap).items[1]).Some?
    ensures |ItemsOf(FixCompactLists(list, cap).items[1]).value| == |ItemsOf(list).value|
    ensures LeadsWith(ItemsOf(FixCompactLists(list, cap).items[1]).value[i], "Para")
  {
    PatchList(list, cap);
    if TypeOf(list) == Some(JStr("OrderedList")) {
      OrderedItemsMadeLoose(list, cap, i);
    } else {
      BulletItemsMadeLoose(list, cap, i);
    }
  }

  lemma BulletItemsMadeLoose(list: Json, cap: Captions, i: nat)
    requires list.JObj? && TypeOf(list) == Some(JStr("BulletList"))
    requires ItemsOf(list).Some?
    requires i < |ItemsOf(list).value| && LeadsWith(ItemsOf(list).value[i], "Plain")
    ensures ItemsOf(FixCompactLists(list, cap).items[1]).Some?
    ensures |ItemsOf(FixCompactLists(list, cap).items[1]).value| == |ItemsOf(list).value|
    ensures LeadsWith(ItemsOf(FixCompactLists(list, cap).items[1]).value[i], "Para")
  {
    var c := FieldOf(list.fields, "c").value.items;
    assert PromoteOrderedItems(list) == list;
    var out := FixCompactLists(list, cap).items[1];
    assert out == FixedList(list, cap, true);
    assert ItemsOf(out) == Some(FixItems(c, cap, true));
    FixItemsAt(c, cap, true, i);
    PatchPromoted(c[i], cap, true);
  }

  lemma OrderedItemsMadeLoose(list: Json, cap: Captions, i: nat)
    requires list.JObj? && TypeOf(list) == Some(JStr("OrderedList"))
    requires ItemsOf(list).Some? && AllArrays(ItemsOf(list).value)
    requires i < |ItemsOf(list).value| && LeadsWith(ItemsOf(list).value[i], "Plain")
    ensures ItemsOf(FixCompactLists(list, cap).items[1]).Some?
    ensures |ItemsOf(FixCompactLists(list, cap).items[1]).value| == |ItemsOf(list).value|
    ensures LeadsWith(ItemsOf(FixCompactLists(list, cap).items[1]).value[i], "Para")
  {
    var items := ItemsOf(list).value;
    var promoted := PromoteAll(items);
    OrderedItemsRewritten(list, cap);
    assert AllArrays(promoted);
    PatchSeqOfArrays(promoted, cap, true);
    PatchPromoted(items[i], cap, true);
  }

  /** With the correction, the items of an ordered list come out made loose, then rewritten. */
  lemma OrderedItemsRewritten(list: Json, cap: Captions)
    requires list.JObj? && TypeOf(list) == Some(JStr("OrderedList"))
    requires ItemsOf(list).Some? && AllArrays(ItemsOf(list).value)
    ensures ItemsOf(FixCompactLists(list, cap).items[1]) == Some(PatchSeq(PromoteAll(ItemsOf(list).value), cap, true))
  {
    var items := ItemsOf(list).value;
    var c := FieldOf(list.fields, "c").value.items;
    var promoted := PromoteAll(items);
    var c' := c[1 := JArr(promoted)];
    PromotedOrderedField(list);
    var out := FixCompactLists(list, cap).items[1];
    assert out == FixedList(PromoteOrderedItems(list), cap, true);
    FixItemsAt(c', cap, true, 1);
    PromoteArrayOfArrays(items);
  }

  /** Making an ordered list loose replaces its `c[1]` by the promoted items. */
  lemma PromotedOrderedField(list: Json)
    requires list.JObj? && TypeOf(list) == Some(JStr("OrderedList"))
    requires ItemsOf(list).Some?
    ensures var c := FieldOf(list.fields, "c").value.items;
      PromoteOrderedItems(list).JObj? &&
      FieldOf(PromoteOrderedItems(list).fields, "c") == Some(JArr(c[1 := JArr(PromoteAll(ItemsOf(list).value))]))
  {
  }

  /** An array of items is not itself an item to make loose: its first element is an array. */
  lemma PromoteArrayOfArrays(items: seq<Json>)
    requires AllArrays(items)
    ensures Promote(JArr(PromoteAll(items))) == JArr(PromoteAll(items))
  {
    if |items| > 0 {
      assert PromoteAll(items)[0] == Promote(items[0]) && items[0].JArr?;
    }
  }

  /**
   * As written, the items of an ordered list stay compact: `fixCompactLists`
   * looks at the first element of each member of `c`, which for an ordered
   * list are the list attributes (whose first element is the start number)
   * and the item array (whose first element is an item, not a block).
   */
  lemma OrderedListStaysCompactAsWritten(list: Json, cap: Captions, i: nat)
    requires list.JObj? && TypeOf(list) == Some(JStr("OrderedList"))
    requires ItemsOf(list).Some? && AllArrays(ItemsOf(list).value)
    requires i < |ItemsOf(list).value| && LeadsWith(ItemsOf(list).value[i], "Plain")
    requires Index(FieldOf(list.fields, "c").value, 0).Some? && Index(FieldOf(list.fields, "c").value, 0).value.JArr?
    requires Index(Index(FieldOf(list.fields, "c").value, 0).value, 0).Some? && Index(Index(FieldOf(list.fields, "c").value, 0).value, 0).value.JNum?
    ensures Patch(list, cap, false) == FixCompactListsAsWritten(list, cap)
    ensures ItemsOf(FixCompactListsAsWritten(list, cap).items[1]).Some?
    ensures |ItemsOf(FixCompactListsAsWritten(list, cap).items[1]).value| == |ItemsOf(list).value|
    ensures LeadsWith(ItemsOf(FixCompactListsAsWritten(list, cap).items[1]).value[i], "Plain")
  {
    PatchList(list, cap);
    var items := ItemsOf(list).value;
    AsWrittenOrderedItems(list, cap);
    PatchSeqOfArrays(items, cap, false);
    PatchKeepsLeading(items[i], "Plain", cap, false);
  }

  /**
   * As written, the item array of an ordered list (whose attributes start
   * with the start number) is rewritten but not made loose.
   */
  lemma AsWrittenOrderedItems(list: Json, cap: Captions)
    requires list.JObj? && TypeOf(list) == Some(JStr("OrderedList"))
    requires ItemsOf(list).Some? && AllArrays(ItemsOf(list).value)
    requires Index(FieldOf(list.fields, "c").value, 0).Some? && Index(FieldOf(list.fields, "c").value, 0).value.JArr?
    requires Index(Index(FieldOf(list.fields, "c").value, 0).value, 0).Some? && Index(Index(FieldOf(list.fields, "c").value, 0).value, 0).value.JNum?
    ensures ItemsOf(FixCompactListsAsWritten(list, cap).items[1]) == Some(PatchSeq(ItemsOf(list).value, cap, false))
  {
    var items := ItemsOf(list).value;
    var c := FieldOf(list.fields, "c").value.items;
    var out := FixCompactListsAsWritten(list, cap).items[1];
    var fixed := FixItems(c, cap, false);
    assert FieldOf(out.fields, "c") == Some(JArr(fixed));
    FixItemsAt(c, cap, false, 1);
    assert c[1] == JArr(items);
    assert Promote(c[1]) == c[1];
  }
}
