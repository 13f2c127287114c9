/**
 * Template substitution in the house template document: paragraph
 * placeholders (`{{{body}}}`, `{{{authors_ru}}}`, `{{{links}}}`, …) that
 * must be a paragraph's whole text and are replaced by a list of
 * paragraphs, and inline markers replaced inside running text or, with the
 * value `@none`, deleted together with their paragraphs. Also the
 * relationship-id patch applied to the template document.
 *
 * A body is modelled by its list of children. The template functions read
 * the document metadata through Pandoc's `DocumentMeta`, which is not part
 * of this model: they are modelled over the abstract `Source`, and `Reads`
 * fills it with the `JsonMeta` accessors as a stand-in.
 */
module Templates {
  import opened Wrappers
  import opened Strings
  import opened Xml
  import opened JsonMeta
  import opened ListStyles

  /** The languages every template exists in (`languages`). */
  const Languages: seq<string> := ["ru", "en"]

  /** The inline value that deletes the paragraphs holding the marker. */
  const NoneValue: string := "@none"

  /** The page-header value that stands for the citation line. */
  const UseCitation: string := "@use_citation"

  datatype Failure =
    | PatternMissing(pattern: string)
    | PatternNotExclusive(pattern: string)
    | MetaFailure(meta: MetaError)

  /** The text of the thrown error. */
  function FailureMessage(f: Failure): (r: string)
    ensures f.PatternMissing? || f.PatternNotExclusive? ==> Contains(r, f.pattern)
  {
    match f
    case PatternMissing(p) =>
      var r := "The template document should have pattern " + p;
      assert r[|r| - |p|..] == p;
      ContainsAt(r, p, |r| - |p|);
      r
    case PatternNotExclusive(p) =>
      var r := "The " + p + " pattern should be the only text of the paragraph";
      assert r[4..4 + |p|] == p;
      ContainsAt(r, p, 4);
      r
    case MetaFailure(e) => Message(e)
  }

  /** `getString(path)` of one metadata section. */
  type Reader = string -> Result<string, MetaError>

  /**
   * The metadata as the substitutions read it: `getString(path)` and
   * `getSection(path).asArray()`, both by dotted path from the root; the
   * elements of an array are read with `getString` again.
   */
  datatype Source = Source(text: Reader, items: string -> Result<seq<Reader>, MetaError>)

  /** The readers of the elements of an array section. */
  function ElementReaders(r: Result<seq<Meta>, MetaError>): (out: Result<seq<Reader>, MetaError>)
    ensures r.Err? ==> out == Err(r.error)
    ensures r.Ok? ==> out.Ok? && |out.value| == |r.value|
    ensures r.Ok? ==> forall i, p :: 0 <= i < |r.value| ==> out.value[i](p) == r.value[i].GetString(p)
  {
    match r
    case Err(e) => Err(e)
    case Ok(ms) => Ok(seq(|ms|, i requires 0 <= i < |ms| => (p => ms[i].GetString(p))))
  }

  /** The accessors of a front-matter wrapper. */
  function Reads(meta: Meta): (src: Source)
    ensures forall p :: src.text(p) == meta.GetString(p)
    ensures forall p :: src.items(p) == ElementReaders(meta.GetSection(p).AsArray())
  {
    Source(p => meta.GetString(p), p => ElementReaders(meta.GetSection(p).AsArray()))
  }

  /** The path of a template value: `ispras_templates.<name>`. */
  function TemplateKey(name: string): string {
    "ispras_templates." + name
  }

  function FromMeta<T>(r: Result<T, MetaError>): Result<T, Failure> {
    match r
    case Ok(v) => Ok(v)
    case Err(e) => Err(MetaFailure(e))
  }

  function Prepend<T>(xs: seq<T>, r: Result<seq<T>, Failure>): Result<seq<T>, Failure> {
    match r
    case Ok(ys) => Ok(xs + ys)
    case Err(e) => Err(e)
  }

  lemma PrependNil<T>(r: Result<seq<T>, Failure>)
    ensures Prepend([], r) == r
  {
    if r.Ok? {
      assert [] + r.value == r.value;
    }
  }

  lemma PrependAppend<T>(xs: seq<T>, ys: seq<T>, r: Result<seq<T>, Failure>)
    ensures Prepend(xs, Prepend(ys, r)) == Prepend(xs + ys, r)
  {
    if r.Ok? {
      assert xs + (ys + r.value) == (xs + ys) + r.value;
    }
  }

  /** Runs `f` on each item in order and concatenates the paragraphs; the first failure is the outcome. */
  function Gather<T, U>(f: T -> Result<seq<U>, Failure>, xs: seq<T>): Result<seq<U>, Failure>
    decreases |xs|
  {
    if |xs| == 0 then Ok([])
    else
      var ps :- f(xs[0]);
      var rest :- Gather(f, xs[1..]);
      Ok(ps + rest)
  }

  /** When `f` always yields `k` items, the whole list has `k` per input. */
  lemma {:induction false} GatherLength<T, U>(f: T -> Result<seq<U>, Failure>, xs: seq<T>, k: nat)
    requires Gather(f, xs).Ok?
    requires forall x :: f(x).Ok? ==> |f(x).value| == k
    ensures |Gather(f, xs).value| == |xs| * k
    decreases |xs|
  {
    if |xs| > 0 {
      GatherLength(f, xs[1..], k);
      assert |xs| * k == k + (|xs| - 1) * k;
    }
  }

  /** Item `l` produced for input `a` is found at `a * k + l`. */
  lemma {:induction false} GatherAt<T, U>(f: T -> Result<seq<U>, Failure>, xs: seq<T>, k: nat, a: nat, l: nat)
    requires Gather(f, xs).Ok? && a < |xs| && l < k
    requires forall x :: f(x).Ok? ==> |f(x).value| == k
    ensures f(xs[a]).Ok? && a * k + l < |Gather(f, xs).value|
    ensures Gather(f, xs).value[a * k + l] == f(xs[a]).value[l]
    decreases a
  {
    var ps := f(xs[0]).value;
    var rest := Gather(f, xs[1..]).value;
    assert Gather(f, xs).value == ps + rest;
    if a > 0 {
      GatherAt(f, xs[1..], k, a - 1, l);
      assert xs[1..][a - 1] == xs[a];
      assert a * k + l == k + ((a - 1) * k + l);
    }
  }

  // ----- placeholder search -----

  predicate HasPattern(n: Node, pattern: string) {
    Contains(ParagraphText(n), pattern)
  }

  /** The first child at or after `from` whose text contains the pattern. */
  function FirstWithPattern(cs: seq<Node>, pattern: string, from: nat): (r: Option<nat>)
    decreases |cs| - from
    ensures r.Some? ==> from <= r.value < |cs| && HasPattern(cs[r.value], pattern)
    ensures r.Some? ==> forall k {:trigger HasPattern(cs[k], pattern)} :: from <= k < r.value ==> !HasPattern(cs[k], pattern)
    ensures r.None? ==> forall k {:trigger HasPattern(cs[k], pattern)} :: from <= k < |cs| ==> !HasPattern(cs[k], pattern)
  {
    if from >= |cs| then None
    else if HasPattern(cs[from], pattern) then Some(from)
    else FirstWithPattern(cs, pattern, from + 1)
  }

  /** The first match is the one child that matches with no match before it. */
  lemma FirstWithPatternIsFirst(cs: seq<Node>, pattern: string)
    ensures forall i {:trigger HasPattern(cs[i], pattern)} :: 0 <= i < |cs| && HasPattern(cs[i], pattern) && (forall k {:trigger HasPattern(cs[k], pattern)} :: 0 <= k < i ==> !HasPattern(cs[k], pattern)) ==>
              FirstWithPattern(cs, pattern, 0) == Some(i)
  {
    var f := FirstWithPattern(cs, pattern, 0);
    forall i | 0 <= i < |cs| && HasPattern(cs[i], pattern) && (forall k {:trigger HasPattern(cs[k], pattern)} :: 0 <= k < i ==> !HasPattern(cs[k], pattern))
      ensures f == Some(i)
    {
    }
  }

  /** Where `visitChildren` starts for a start index that may have become -1. */
  function SearchStart(start: int): nat {
    if start < 0 then 0 else start
  }

  /** `findParagraphWithPattern`: the children from `startIndex` on, until one's text contains the pattern. */
  method FindParagraphWithPattern(cs: seq<Node>, pattern: string, startIndex: int) returns (found: Option<nat>)
    ensures found == FirstWithPattern(cs, pattern, SearchStart(startIndex))
  {
    var i := SearchStart(startIndex);
    while i < |cs|
      invariant SearchStart(startIndex) <= i
      invariant FirstWithPattern(cs, pattern, SearchStart(startIndex)) == FirstWithPattern(cs, pattern, i)
      decreases |cs| - i
    {
      var text := GetParagraphText(cs[i]);
      if Contains(text, pattern) {
        return Some(i);
      }
      i := i + 1;
    }
    return None;
  }

  /**
   * `findParagraphWithPatternStrict`: the first paragraph containing the
   * pattern, which must hold nothing else.
   */
  function StrictIndex(cs: seq<Node>, pattern: string): (r: Result<nat, Failure>)
    ensures r.Ok? ==> r.value < |cs| && ParagraphText(cs[r.value]) == pattern
    ensures r.Ok? ==> forall k {:trigger HasPattern(cs[k], pattern)} :: 0 <= k < r.value ==> !HasPattern(cs[k], pattern)
    ensures r == Err(PatternMissing(pattern)) <==> forall k {:trigger HasPattern(cs[k], pattern)} :: 0 <= k < |cs| ==> !HasPattern(cs[k], pattern)
    ensures r == Err(PatternNotExclusive(pattern)) <==>
              exists i {:trigger HasPattern(cs[i], pattern)} :: 0 <= i < |cs| && HasPattern(cs[i], pattern) && ParagraphText(cs[i]) != pattern &&
                          forall k {:trigger HasPattern(cs[k], pattern)} :: 0 <= k < i ==> !HasPattern(cs[k], pattern)
    ensures r.Err? ==> r == Err(PatternMissing(pattern)) || r == Err(PatternNotExclusive(pattern))
  {
    FirstWithPatternIsFirst(cs, pattern);
    match FirstWithPattern(cs, pattern, 0)
    case None => Err(PatternMissing(pattern))
    case Some(i) => if ParagraphText(cs[i]) != pattern then Err(PatternNotExclusive(pattern)) else Ok(i)
  }

  method FindParagraphWithPatternStrict(cs: seq<Node>, pattern: string) returns (r: Result<nat, Failure>)
    ensures r == StrictIndex(cs, pattern)
  {
    var found := FindParagraphWithPattern(cs, pattern, 0);
    if found.None? {
      return Err(PatternMissing(pattern));
    }
    var text := GetParagraphText(cs[found.value]);
    if text != pattern {
      return Err(PatternNotExclusive(pattern));
    }
    return Ok(found.value);
  }

  /** `removeChild([i])` then `insertChildren(xs, [i])`. */
  function Splice(cs: seq<Node>, i: nat, xs: seq<Node>): (r: seq<Node>)
    requires i < |cs|
    ensures |r| == |cs| - 1 + |xs|
    ensures r[..i] == cs[..i] && r[i..i + |xs|] == xs && r[i + |xs|..] == cs[i + 1..]
  {
    var r := cs[..i] + xs + cs[i + 1..];
    assert r[..i] == cs[..i] && r[i..i + |xs|] == xs && r[i + |xs|..] == cs[i + 1..];
    r
  }

  lemma SpliceAt(cs: seq<Node>, i: nat, xs: seq<Node>, k: nat)
    requires i < |cs| && k < |xs|
    ensures Splice(cs, i, xs)[i + k] == xs[k]
  {
    assert Splice(cs, i, xs)[i..i + |xs|][k] == xs[k];
  }

  /** A paragraph text that merely contains a placeholder among other text is refused. */
  lemma PlaceholderMustBeExclusive()
    ensures var p := TextParagraph("prefix {{{links}}} suffix");
      StrictIndex([p], "{{{links}}}") == Err(PatternNotExclusive("{{{links}}}"))
  {
    var text := "prefix {{{links}}} suffix";
    var p := TextParagraph(text);
    TextParagraphText(text);
    assert text[7..7 + |"{{{links}}}"|] == "{{{links}}}";
    ContainsAt(text, "{{{links}}}", 7);
    assert FirstWithPattern([p], "{{{links}}}", 0) == Some(0);
  }

  /** A paragraph with a single run holding the text. */
  function TextParagraph(text: string): Node {
    Element("w:p", map[], [RunTag(text, [])])
  }

  lemma TextParagraphText(text: string)
    ensures ParagraphText(TextParagraph(text)) == text
  {
    RunTagText(text, []);
    assert ParagraphTextSeq([RunTag(text, [])]) == ParagraphText(RunTag(text, [])) + ParagraphTextSeq([]);
  }

  // ----- {{{body}}} -----

  const BodyPattern: string := "{{{body}}}"

  /** `templateReplaceBodyContents`: the body's children take the place of the `{{{body}}}` paragraph. */
  function BodyContents(templateBody: seq<Node>, body: seq<Node>): (r: Result<seq<Node>, Failure>)
    ensures r.Ok? <==> StrictIndex(templateBody, BodyPattern).Ok?
    ensures r.Err? ==> r.error == StrictIndex(templateBody, BodyPattern).error
    ensures r.Ok? ==> var i := StrictIndex(templateBody, BodyPattern).value;
      ParagraphText(templateBody[i]) == BodyPattern && |r.value| == |templateBody| - 1 + |body| &&
      r.value[..i] == templateBody[..i] && r.value[i..i + |body|] == body &&
      r.value[i + |body|..] == templateBody[i + 1..]
  {
    var i :- StrictIndex(templateBody, BodyPattern);
    Ok(Splice(templateBody, i, body))
  }

  method TemplateReplaceBodyContents(templateBody: seq<Node>, body: seq<Node>) returns (r: Result<seq<Node>, Failure>)
    ensures r == BodyContents(templateBody, body)
  {
    var i :- FindParagraphWithPatternStrict(templateBody, BodyPattern);
    return Ok(Splice(templateBody, i, body));
  }

  // ----- {{{authors_<lang>}}} and {{{organizations_<lang>}}} -----

  /** `clearParagraphContents`: the paragraph without its runs. */
  function ClearParagraph(p: Node): Node {
    match p
    case Element(tag, attrs, cs) => Element(tag, attrs, RemoveChildren(cs, "w:r"))
    case _ => p
  }

  /** A copy of the placeholder paragraph, cleared, with a superscript index run and a text run. */
  function IndexedParagraph(template: Node, index: nat, line: string): Node {
    PushChild(PushChild(ClearParagraph(template), RunTag(NatToString(index), [Superscript()])), RunTag(line, []))
  }

  /** `${name}, ORCID: ${orcid}, <${email}>`, the three fields read in this order. */
  function AuthorLine(author: Reader, lang: string): Result<string, Failure> {
    var name :- FromMeta(author("name_" + lang));
    var orcid :- FromMeta(author("orcid"));
    var email :- FromMeta(author("email"));
    Ok(name + ", ORCID: " + orcid + ", <" + email + ">")
  }

  function AuthorParagraphs(template: Node, authors: seq<Reader>, lang: string, index: nat): Result<seq<Node>, Failure>
    decreases |authors|
  {
    if |authors| == 0 then Ok([])
    else
      var line :- AuthorLine(authors[0], lang);
      var rest :- AuthorParagraphs(template, authors[1..], lang, index + 1);
      Ok([IndexedParagraph(template, index, line)] + rest)
  }

  /** The first author's paragraph comes first, or the first author's failure is the outcome. */
  lemma AuthorParagraphsStep(template: Node, authors: seq<Reader>, lang: string, index: nat)
    requires |authors| > 0
    ensures var line := AuthorLine(authors[0], lang);
      AuthorParagraphs(template, authors, lang, index) ==
      if line.Err? then Err(line.error)
      else Prepend([IndexedParagraph(template, index, line.value)], AuthorParagraphs(template, authors[1..], lang, index + 1))
  {
  }

  /** One paragraph per author, numbered from `index`, in order. */
  lemma {:induction false} AuthorParagraphsShape(template: Node, authors: seq<Reader>, lang: string, index: nat)
    requires AuthorParagraphs(template, authors, lang, index).Ok?
    ensures |AuthorParagraphs(template, authors, lang, index).value| == |authors|
    ensures forall k :: 0 <= k < |authors| ==>
              AuthorLine(authors[k], lang).Ok? &&
              AuthorParagraphs(template, authors, lang, index).value[k] ==
              IndexedParagraph(template, index + k, AuthorLine(authors[k], lang).value)
    decreases |authors|
  {
    if |authors| > 0 {
      AuthorParagraphsStep(template, authors, lang, index);
      AuthorParagraphsShape(template, authors[1..], lang, index + 1);
      var ps := AuthorParagraphs(template, authors, lang, index).value;
      var rest := AuthorParagraphs(template, authors[1..], lang, index + 1).value;
      assert ps == [IndexedParagraph(template, index, AuthorLine(authors[0], lang).value)] + rest;
      forall k | 1 <= k < |authors|
        ensures AuthorLine(authors[k], lang).Ok? && ps[k] == IndexedParagraph(template, index + k, AuthorLine(authors[k], lang).value)
      {
        assert authors[k] == authors[1..][k - 1] && ps[k] == rest[k - 1] && index + k == index + 1 + (k - 1);
      }
    }
  }

  /** The text of an author or organization paragraph: what is left of the template, the index, the line. */
  lemma IndexedParagraphText(template: Node, index: nat, line: string)
    requires template.Element? && template.tag != "w:t"
    ensures ParagraphText(IndexedParagraph(template, index, line)) ==
            ParagraphText(ClearParagraph(template)) + NatToString(index) + line
  {
    var cleared := RemoveChildren(template.children, "w:r");
    var sup := RunTag(NatToString(index), [Superscript()]);
    var run := RunTag(line, []);
    var p := IndexedParagraph(template, index, line);
    var c := ClearParagraph(template);
    assert c == Element(template.tag, template.attrs, cleared);
    assert p == Element(template.tag, template.attrs, cleared + [sup] + [run]);
    assert ParagraphText(c) == ParagraphTextSeq(cleared);
    assert ParagraphText(p) == ParagraphTextSeq(cleared + [sup] + [run]);
    IndexedRunsText(cleared, index, line);
  }

  /** The text of some children followed by the index run and the line run. */
  lemma IndexedRunsText(cleared: seq<Node>, index: nat, line: string)
    ensures ParagraphTextSeq(cleared + [RunTag(NatToString(index), [Superscript()])] + [RunTag(line, [])]) ==
            ParagraphTextSeq(cleared) + NatToString(index) + line
  {
    var sup := RunTag(NatToString(index), [Superscript()]);
    var run := RunTag(line, []);
    assert ParagraphText(Superscript()) == "";
    RunTagText(NatToString(index), [Superscript()]);
    RunTagText(line, []);
    ParagraphTextSeqAppend(cleared + [sup], [run]);
    ParagraphTextSeqAppend(cleared, [sup]);
    assert ParagraphTextSeq([sup]) == ParagraphText(sup) + ParagraphTextSeq([]);
    assert ParagraphTextSeq([run]) == ParagraphText(run) + ParagraphTextSeq([]);
  }

  function AuthorsPattern(lang: string): string {
    "{{{authors_" + lang + "}}}"
  }

  function OrganizationsPattern(lang: string): string {
    "{{{organizations_" + lang + "}}}"
  }

  /** One language of the author loop: the placeholder becomes one paragraph per author. */
  function AuthorsFor(body: seq<Node>, authors: seq<Reader>, lang: string): Result<seq<Node>, Failure> {
    var i :- StrictIndex(body, AuthorsPattern(lang));
    var ps :- AuthorParagraphs(body[i], authors, lang, 1);
    Ok(Splice(body, i, ps))
  }

  /** Every organization is read as a string, and the values are dropped. */
  function CheckStrings(items: seq<Reader>): Result<bool, Failure>
    decreases |items|
  {
    if |items| == 0 then Ok(true)
    else
      var s :- FromMeta(items[0](""));
      CheckStrings(items[1..])
  }

  /**
   * One language of the organization loop. The loop builds a paragraph per
   * organization but never adds it to `newParagraphs`, so the placeholder is
   * only removed.
   */
  function OrganizationsFor(body: seq<Node>, src: Source, lang: string): Result<seq<Node>, Failure> {
    var i :- StrictIndex(body, OrganizationsPattern(lang));
    var organizations :- FromMeta(src.items("ispras_templates.organizations_" + lang));
    var checked :- CheckStrings(organizations);
    Ok(Splice(body, i, []))
  }

  function AuthorsForAll(body: seq<Node>, authors: seq<Reader>, langs: seq<string>): Result<seq<Node>, Failure>
    decreases |langs|
  {
    if |langs| == 0 then Ok(body)
    else
      var b :- AuthorsFor(body, authors, langs[0]);
      AuthorsForAll(b, authors, langs[1..])
  }

  function OrganizationsForAll(body: seq<Node>, src: Source, langs: seq<string>): Result<seq<Node>, Failure>
    decreases |langs|
  {
    if |langs| == 0 then Ok(body)
    else
      var b :- OrganizationsFor(body, src, langs[0]);
      OrganizationsForAll(b, src, langs[1..])
  }

  /** `templateAuthorList`: the author placeholders of both languages, then the organization ones. */
  function AuthorList(body: seq<Node>, src: Source): Result<seq<Node>, Failure> {
    var authors :- FromMeta(src.items("ispras_templates.authors"));
    var b :- AuthorsForAll(body, authors, Languages);
    OrganizationsForAll(b, src, Languages)
  }

  lemma AuthorsForValue(body: seq<Node>, authors: seq<Reader>, lang: string)
    requires AuthorsFor(body, authors, lang).Ok?
    ensures StrictIndex(body, AuthorsPattern(lang)).Ok?
    ensures var i := StrictIndex(body, AuthorsPattern(lang)).value;
      AuthorParagraphs(body[i], authors, lang, 1).Ok? &&
      AuthorsFor(body, authors, lang).value == Splice(body, i, AuthorParagraphs(body[i], authors, lang, 1).value)
  {
  }

  /** With one language, the authors of that placeholder replace it and everything else stays in order. */
  lemma AuthorsReplacePlaceholder(body: seq<Node>, authors: seq<Reader>, lang: string)
    requires AuthorsFor(body, authors, lang).Ok?
    ensures StrictIndex(body, AuthorsPattern(lang)).Ok?
    ensures var i := StrictIndex(body, AuthorsPattern(lang)).value;
      var r := AuthorsFor(body, authors, lang).value;
      |r| == |body| - 1 + |authors| && r[..i] == body[..i] && r[i + |authors|..] == body[i + 1..] &&
      forall k :: 0 <= k < |authors| ==>
        AuthorLine(authors[k], lang).Ok? && r[i + k] == IndexedParagraph(body[i], k + 1, AuthorLine(authors[k], lang).value)
  {
    AuthorsForValue(body, authors, lang);
    var i := StrictIndex(body, AuthorsPattern(lang)).value;
    var ps := AuthorParagraphs(body[i], authors, lang, 1).value;
    AuthorParagraphsShape(body[i], authors, lang, 1);
    var r := Splice(body, i, ps);
    forall k | 0 <= k < |authors|
      ensures AuthorLine(authors[k], lang).Ok? && r[i + k] == IndexedParagraph(body[i], k + 1, AuthorLine(authors[k], lang).value)
    {
      SpliceAt(body, i, ps, k);
    }
  }

  /** The organization placeholder paragraph is removed and nothing is put in its place. */
  lemma OrganizationsPlaceholderRemoved(body: seq<Node>, src: Source, lang: string)
    requires OrganizationsFor(body, src, lang).Ok?
    ensures var i := StrictIndex(body, OrganizationsPattern(lang)).value;
      OrganizationsFor(body, src, lang).value == body[..i] + body[i + 1..]
  {
    var i := StrictIndex(body, OrganizationsPattern(lang)).value;
    var r := OrganizationsFor(body, src, lang).value;
    assert r == r[..i] + r[i..];
  }

  /** The author loop of one language: a paragraph per author, numbered from 1. */
  method AuthorParagraphsFor(template: Node, authors: seq<Reader>, lang: string) returns (r: Result<seq<Node>, Failure>)
    ensures r == AuthorParagraphs(template, authors, lang, 1)
  {
    var newParagraphs: seq<Node> := [];
    var authorIndex := 1;
    var k := 0;
    assert authors[0..] == authors;
    PrependNil(AuthorParagraphs(template, authors, lang, 1));
    while k < |authors|
      invariant 0 <= k <= |authors| && authorIndex == k + 1
      invariant AuthorParagraphs(template, authors, lang, 1) ==
                Prepend(newParagraphs, AuthorParagraphs(template, authors[k..], lang, authorIndex))
    {
      assert authors[k..][0] == authors[k] && authors[k..][1..] == authors[k + 1..];
      var line := AuthorLine(authors[k], lang);
      if line.Err? {
        return Err(line.error);
      }
      var paragraph := IndexedParagraph(template, authorIndex, line.value);
      AuthorParagraphsStep(template, authors[k..], lang, authorIndex);
      PrependAppend(newParagraphs, [paragraph], AuthorParagraphs(template, authors[k + 1..], lang, authorIndex + 1));
      newParagraphs := newParagraphs + [paragraph];
      authorIndex := authorIndex + 1;
      k := k + 1;
    }
    assert newParagraphs + [] == newParagraphs;
    return Ok(newParagraphs);
  }

  /** The organization loop of one language: every organization is read, nothing is added. */
  method CheckOrganizations(organizations: seq<Reader>) returns (r: Result<bool, Failure>)
    ensures r == CheckStrings(organizations)
  {
    var k := 0;
    assert organizations[0..] == organizations;
    while k < |organizations|
      invariant 0 <= k <= |organizations|
      invariant CheckStrings(organizations) == CheckStrings(organizations[k..])
    {
      assert organizations[k..][0] == organizations[k] && organizations[k..][1..] == organizations[k + 1..];
      var name := FromMeta(organizations[k](""));
      if name.Err? {
        return Err(name.error);
      }
      k := k + 1;
    }
    return Ok(true);
  }

  /** `templateAuthorList`. */
  method TemplateAuthorList(templateBody: seq<Node>, src: Source) returns (r: Result<seq<Node>, Failure>)
    ensures r == AuthorList(templateBody, src)
  {
    var authors :- FromMeta(src.items("ispras_templates.authors"));
    var body :- ReplaceAuthorPlaceholders(templateBody, authors);
    r := RemoveOrganizationPlaceholders(body, src);
  }

  /** The first loop of `templateAuthorList`: the author placeholders, language by language. */
  method ReplaceAuthorPlaceholders(templateBody: seq<Node>, authors: seq<Reader>) returns (r: Result<seq<Node>, Failure>)
    ensures r == AuthorsForAll(templateBody, authors, Languages)
  {
    var body := templateBody;
    var j := 0;
    assert Languages[0..] == Languages;
    while j < |Languages|
      invariant 0 <= j <= |Languages|
      invariant AuthorsForAll(templateBody, authors, Languages) == AuthorsForAll(body, authors, Languages[j..])
    {
      assert Languages[j..][0] == Languages[j] && Languages[j..][1..] == Languages[j + 1..];
      var i :- FindParagraphWithPatternStrict(body, AuthorsPattern(Languages[j]));
      var newParagraphs :- AuthorParagraphsFor(body[i], authors, Languages[j]);
      body := Splice(body, i, newParagraphs);
      j := j + 1;
    }
    return Ok(body);
  }

  /** The second loop of `templateAuthorList`: the organization placeholders, language by language. */
  method RemoveOrganizationPlaceholders(afterAuthors: seq<Node>, src: Source) returns (r: Result<seq<Node>, Failure>)
    ensures r == OrganizationsForAll(afterAuthors, src, Languages)
  {
    var body := afterAuthors;
    var j := 0;
    assert Languages[0..] == Languages;
    while j < |Languages|
      invariant 0 <= j <= |Languages|
      invariant OrganizationsForAll(afterAuthors, src, Languages) == OrganizationsForAll(body, src, Languages[j..])
    {
      assert Languages[j..][0] == Languages[j] && Languages[j..][1..] == Languages[j + 1..];
      var i :- FindParagraphWithPatternStrict(body, OrganizationsPattern(Languages[j]));
      var organizations :- FromMeta(src.items("ispras_templates.organizations_" + Languages[j]));
      var checked :- CheckOrganizations(organizations);
      body := Splice(body, i, []);
      j := j + 1;
    }
    return Ok(body);
  }

  // ----- {{{links}}} -----

  const LinksPattern: string := "{{{links}}}"

  /** A literature-list paragraph: the list style, level 0 of the list's numbering, the link text. */
  function LinkParagraph(rule: ListRule, text: string): Node {
    PushChild(AddProperty(ParagraphWithStyle(rule.styleName), NumPr("0", Some(rule.numId))), RunTag(text, []))
  }

  function LinkParagraphs(links: seq<Reader>, rule: ListRule): Result<seq<Node>, Failure>
    decreases |links|
  {
    if |links| == 0 then Ok([])
    else
      var text :- FromMeta(links[0](""));
      var rest :- LinkParagraphs(links[1..], rule);
      Ok([LinkParagraph(rule, text)] + rest)
  }

  /** One paragraph per link, in order, each holding that link's text. */
  lemma {:induction false} LinkParagraphsEach(links: seq<Reader>, rule: ListRule)
    requires LinkParagraphs(links, rule).Ok?
    ensures |LinkParagraphs(links, rule).value| == |links|
    ensures forall k :: 0 <= k < |links| ==>
              links[k]("").Ok? && LinkParagraphs(links, rule).value[k] == LinkParagraph(rule, links[k]("").value)
    decreases |links|
  {
    if |links| > 0 {
      var r := LinkParagraphs(links, rule).value;
      var rest := LinkParagraphs(links[1..], rule);
      LinkParagraphsEach(links[1..], rule);
      forall k | 1 <= k < |links|
        ensures links[k]("").Ok? && r[k] == LinkParagraph(rule, links[k]("").value)
      {
        assert links[k] == links[1..][k - 1] && r[k] == rest.value[k - 1];
      }
    }
  }

  /** `templateReplaceLinks`: one literature-list paragraph per link in place of `{{{links}}}`. */
  function ReplaceLinks(body: seq<Node>, src: Source, rules: ListRules): Result<seq<Node>, Failure> {
    var i :- StrictIndex(body, LinksPattern);
    var links :- FromMeta(src.items("ispras_templates.links"));
    var ps :- LinkParagraphs(links, rules.lit);
    Ok(Splice(body, i, ps))
  }

  method TemplateReplaceLinks(templateBody: seq<Node>, src: Source, rules: ListRules) returns (r: Result<seq<Node>, Failure>)
    ensures r == ReplaceLinks(templateBody, src, rules)
  {
    var litListRule := rules.lit;
    var i :- FindParagraphWithPatternStrict(templateBody, LinksPattern);
    var links :- FromMeta(src.items("ispras_templates.links"));
    var newParagraphs: seq<Node> := [];
    var k := 0;
    assert links[0..] == links;
    PrependNil(LinkParagraphs(links, litListRule));
    while k < |links|
      invariant 0 <= k <= |links|
      invariant LinkParagraphs(links, litListRule) == Prepend(newParagraphs, LinkParagraphs(links[k..], litListRule))
    {
      assert links[k..][0] == links[k] && links[k..][1..] == links[k + 1..];
      var text :- FromMeta(links[k](""));
      var paragraph := LinkParagraph(litListRule, text);
      assert LinkParagraphs(links[k..], litListRule) == Prepend([paragraph], LinkParagraphs(links[k + 1..], litListRule));
      PrependAppend(newParagraphs, [paragraph], LinkParagraphs(links[k + 1..], litListRule));
      newParagraphs := newParagraphs + [paragraph];
      k := k + 1;
    }
    assert newParagraphs + [] == newParagraphs;
    return Ok(Splice(templateBody, i, newParagraphs));
  }

  // ----- {{{authors_detail}}} -----

  const AuthorsDetailPattern: string := "{{{authors_detail}}}"

  /** A copy of the placeholder paragraph, cleared, holding one detail line. */
  function DetailParagraph(template: Node, line: string): Node {
    PushChild(ClearParagraph(template), RunTag(line, []))
  }

  /** The detail paragraphs of one author, one per language. */
  function AuthorDetails(template: Node, author: Reader, langs: seq<string>): Result<seq<Node>, Failure>
    decreases |langs|
  {
    if |langs| == 0 then Ok([])
    else
      var line :- FromMeta(author("details_" + langs[0]));
      var rest :- AuthorDetails(template, author, langs[1..]);
      Ok([DetailParagraph(template, line)] + rest)
  }

  /** One detail paragraph per language. */
  lemma {:induction false} AuthorDetailsLength(template: Node, author: Reader, langs: seq<string>)
    requires AuthorDetails(template, author, langs).Ok?
    ensures |AuthorDetails(template, author, langs).value| == |langs|
    decreases |langs|
  {
    if |langs| > 0 {
      AuthorDetailsLength(template, author, langs[1..]);
    }
  }

  /** One detail paragraph per language, in order, each holding that language's line. */
  lemma {:induction false} AuthorDetailsEach(template: Node, author: Reader, langs: seq<string>)
    requires AuthorDetails(template, author, langs).Ok?
    ensures |AuthorDetails(template, author, langs).value| == |langs|
    ensures forall l :: 0 <= l < |langs| ==>
              author("details_" + langs[l]).Ok? &&
              AuthorDetails(template, author, langs).value[l] == DetailParagraph(template, author("details_" + langs[l]).value)
    decreases |langs|
  {
    if |langs| > 0 {
      var r := AuthorDetails(template, author, langs).value;
      var rest := AuthorDetails(template, author, langs[1..]);
      AuthorDetailsEach(template, author, langs[1..]);
      forall l | 1 <= l < |langs|
        ensures author("details_" + langs[l]).Ok? && r[l] == DetailParagraph(template, author("details_" + langs[l]).value)
      {
        assert langs[l] == langs[1..][l - 1] && r[l] == rest.value[l - 1];
      }
    }
  }

  /** One author's lines, language by language. */
  function DetailBlock(template: Node): Reader -> Result<seq<Node>, Failure> {
    (author: Reader) => AuthorDetails(template, author, Languages)
  }

  function DetailParagraphs(template: Node, authors: seq<Reader>): Result<seq<Node>, Failure> {
    Gather(DetailBlock(template), authors)
  }

  /** Author-major order: the paragraph of author `a` in language `l` is number `a * 2 + l`. */
  lemma DetailParagraphsOrder(template: Node, authors: seq<Reader>)
    requires DetailParagraphs(template, authors).Ok?
    ensures |DetailParagraphs(template, authors).value| == |authors| * |Languages|
    ensures forall a, l :: 0 <= a < |authors| && 0 <= l < |Languages| ==>
              authors[a]("details_" + Languages[l]).Ok? &&
              DetailParagraphs(template, authors).value[a * |Languages| + l] ==
              DetailParagraph(template, authors[a]("details_" + Languages[l]).value)
  {
    var f := DetailBlock(template);
    forall author: Reader | f(author).Ok?
      ensures |f(author).value| == 2
    {
      AuthorDetailsLength(template, author, Languages);
    }
    GatherLength(f, authors, 2);
    forall a, l | 0 <= a < |authors| && 0 <= l < |Languages|
      ensures authors[a]("details_" + Languages[l]).Ok? &&
              DetailParagraphs(template, authors).value[a * |Languages| + l] == DetailParagraph(template, authors[a]("details_" + Languages[l]).value)
    {
      GatherAt(f, authors, 2, a, l);
      AuthorDetailsEach(template, authors[a], Languages);
    }
  }


  /** `templateReplaceAuthorsDetail`. */
  function AuthorsDetail(body: seq<Node>, src: Source): Result<seq<Node>, Failure> {
    var i :- StrictIndex(body, AuthorsDetailPattern);
    var authors :- FromMeta(src.items("ispras_templates.authors"));
    var ps :- DetailParagraphs(body[i], authors);
    Ok(Splice(body, i, ps))
  }

  /** The inner loop of `templateReplaceAuthorsDetail`: one author's lines, language by language. */
  method AuthorDetailParagraphs(template: Node, author: Reader) returns (r: Result<seq<Node>, Failure>)
    ensures r == AuthorDetails(template, author, Languages)
  {
    var newParagraphs: seq<Node> := [];
    var l := 0;
    assert Languages[0..] == Languages;
    PrependNil(AuthorDetails(template, author, Languages));
    while l < |Languages|
      invariant 0 <= l <= |Languages|
      invariant AuthorDetails(template, author, Languages) ==
                Prepend(newParagraphs, AuthorDetails(template, author, Languages[l..]))
    {
      assert Languages[l..][0] == Languages[l] && Languages[l..][1..] == Languages[l + 1..];
      var line :- FromMeta(author("details_" + Languages[l]));
      var paragraph := DetailParagraph(template, line);
      assert AuthorDetails(template, author, Languages[l..]) ==
             Prepend([paragraph], AuthorDetails(template, author, Languages[l + 1..]));
      PrependAppend(newParagraphs, [paragraph], AuthorDetails(template, author, Languages[l + 1..]));
      newParagraphs := newParagraphs + [paragraph];
      l := l + 1;
    }
    assert Languages[l..] == [];
    assert newParagraphs + [] == newParagraphs;
    return Ok(newParagraphs);
  }

  method TemplateReplaceAuthorsDetail(templateBody: seq<Node>, src: Source) returns (r: Result<seq<Node>, Failure>)
    ensures r == AuthorsDetail(templateBody, src)
  {
    var i :- FindParagraphWithPatternStrict(templateBody, AuthorsDetailPattern);
    var authors :- FromMeta(src.items("ispras_templates.authors"));
    var template := templateBody[i];
    var newParagraphs: seq<Node> := [];
    var a := 0;
    assert authors[0..] == authors;
    PrependNil(DetailParagraphs(template, authors));
    while a < |authors|
      invariant 0 <= a <= |authors|
      invariant DetailParagraphs(template, authors) == Prepend(newParagraphs, DetailParagraphs(template, authors[a..]))
    {
      assert authors[a..][0] == authors[a] && authors[a..][1..] == authors[a + 1..];
      var lines :- AuthorDetailParagraphs(template, authors[a]);
      assert DetailParagraphs(template, authors[a..]) == Prepend(lines, DetailParagraphs(template, authors[a + 1..]));
      PrependAppend(newParagraphs, lines, DetailParagraphs(template, authors[a + 1..]));
      newParagraphs := newParagraphs + lines;
      a := a + 1;
    }
    assert newParagraphs + [] == newParagraphs;
    return Ok(Splice(templateBody, i, newParagraphs));
  }

  // ----- inline markers -----

  /** The children without those whose text contains the marker. */
  function FilterNoPattern(cs: seq<Node>, pattern: string): (r: seq<Node>)
    ensures forall i {:trigger HasPattern(r[i], pattern)} :: 0 <= i < |r| ==> !HasPattern(r[i], pattern)
    ensures |r| <= |cs|
  {
    if |cs| == 0 then []
    else (if HasPattern(cs[0], pattern) then [] else [cs[0]]) + FilterNoPattern(cs[1..], pattern)
  }

  lemma {:induction false} FilterAppend(a: seq<Node>, b: seq<Node>, pattern: string)
    ensures FilterNoPattern(a + b, pattern) == FilterNoPattern(a, pattern) + FilterNoPattern(b, pattern)
  {
    if |a| == 0 {
      assert a + b == b;
    } else {
      assert (a + b)[1..] == a[1..] + b;
      FilterAppend(a[1..], b, pattern);
    }
  }

  /** Children without the marker are all kept, in order. */
  lemma {:induction false} FilterKeepsUnmarked(cs: seq<Node>, pattern: string)
    requires forall i {:trigger HasPattern(cs[i], pattern)} :: 0 <= i < |cs| ==> !HasPattern(cs[i], pattern)
    ensures FilterNoPattern(cs, pattern) == cs
  {
    if |cs| > 0 {
      FilterKeepsUnmarked(cs[1..], pattern);
    }
  }

  /** Deleting one marked child does not change which children survive. */
  lemma FilterSkipsMarked(cs: seq<Node>, i: nat, pattern: string)
    requires i < |cs| && HasPattern(cs[i], pattern)
    ensures FilterNoPattern(cs[..i] + cs[i + 1..], pattern) == FilterNoPattern(cs, pattern)
  {
    var t := cs[i + 1..];
    assert cs == cs[..i] + ([cs[i]] + t);
    FilterAppend(cs[..i], [cs[i]] + t, pattern);
    FilterAppend(cs[..i], t, pattern);
    FilterMarkedHead(cs[i], t, pattern);
  }

  lemma FilterMarkedHead(x: Node, t: seq<Node>, pattern: string)
    requires HasPattern(x, pattern)
    ensures FilterNoPattern([x] + t, pattern) == FilterNoPattern(t, pattern)
  {
    assert ([x] + t)[0] == x && ([x] + t)[1..] == t;
  }

  /**
   * The `@none` loop of `replaceInlineTemplate`: find a paragraph holding the
   * marker, remove it, step back one and search again.
   */
  method RemoveParagraphsWithPattern(cs: seq<Node>, template: string) returns (children: seq<Node>)
    ensures children == FilterNoPattern(cs, template)
  {
    children := cs;
    var i: Option<nat> := FindParagraphWithPattern(children, template, 0);
    while i.Some?
      invariant FilterNoPattern(children, template) == FilterNoPattern(cs, template)
      invariant i.Some? ==> i.value < |children| && HasPattern(children[i.value], template) &&
                            forall k {:trigger HasPattern(children[k], template)} :: 0 <= k < i.value ==> !HasPattern(children[k], template)
      invariant i.None? ==> forall k {:trigger HasPattern(children[k], template)} :: 0 <= k < |children| ==> !HasPattern(children[k], template)
      decreases |children|
    {
      var at := i.value;
      FilterSkipsMarked(children, at, template);
      children := children[..at] + children[at + 1..];
      var back := at as int - 1;
      i := FindParagraphWithPattern(children, template, back);
    }
    FilterKeepsUnmarked(children, template);
  }

  /** `replaceStringTemplate`: in every text node, the first occurrence of the marker is replaced. */
  function ReplaceText(n: Node, template: string, value: string): Node
    decreases n
  {
    match n
    case Element(tag, attrs, cs) => Element(tag, attrs, seq(|cs|, i requires 0 <= i < |cs| => ReplaceText(cs[i], template, value)))
    case Text(t) => Text(ReplaceFirst(t, template, value))
    case Comment(_) => n
  }

  /** `replaceInlineTemplate` on a node's children. */
  function ReplaceInline(cs: seq<Node>, template: string, value: string): seq<Node> {
    if value == NoneValue then FilterNoPattern(cs, template)
    else seq(|cs|, i requires 0 <= i < |cs| => ReplaceText(cs[i], template, value))
  }

  /** `replaceInlineTemplate` on a node. */
  function ReplaceInlineNode(n: Node, template: string, value: string): Node {
    match n
    case Element(tag, attrs, cs) => Element(tag, attrs, ReplaceInline(cs, template, value))
    case _ => if value == NoneValue then n else ReplaceText(n, template, value)
  }

  method ReplaceInlineTemplate(cs: seq<Node>, template: string, value: string) returns (r: seq<Node>)
    ensures r == ReplaceInline(cs, template, value)
  {
    if value == NoneValue {
      r := RemoveParagraphsWithPattern(cs, template);
    } else {
      r := seq(|cs|, i requires 0 <= i < |cs| => ReplaceText(cs[i], template, value));
    }
  }

  /** No text node of the subtree holds the marker. */
  predicate Unmarked(n: Node, template: string)
    decreases n
  {
    match n
    case Element(_, _, cs) => forall i :: 0 <= i < |cs| ==> Unmarked(cs[i], template)
    case Text(t) => !Contains(t, template)
    case Comment(_) => true
  }

  /** A subtree without the marker is left as it is. */
  lemma {:induction false} ReplaceTextUnmarked(n: Node, template: string, value: string)
    requires Unmarked(n, template)
    ensures ReplaceText(n, template, value) == n
    decreases n
  {
    match n
    case Element(tag, attrs, cs) =>
      forall i | 0 <= i < |cs|
        ensures ReplaceText(cs[i], template, value) == cs[i]
      {
        ReplaceTextUnmarked(cs[i], template, value);
      }
      assert seq(|cs|, i requires 0 <= i < |cs| => ReplaceText(cs[i], template, value)) == cs;
    case Text(t) =>
    case Comment(_) =>
  }

  /** In a text node holding the marker, a value without `$` replaces its first occurrence literally. */
  lemma ReplaceTextMarked(t: string, template: string, value: string, i: nat)
    requires IndexOf(t, template) == Some(i) && '$' !in value
    ensures ReplaceText(Text(t), template, value) == Text(t[..i] + value + t[i + |template|..])
  {
    ReplaceFirstPlain(t, template, value, i);
  }

  // ----- page headers -----

  function PageHeaderPattern(lang: string): string {
    "{{{page_header_" + lang + "}}}"
  }

  function ResolveCitation(src: Source, header: string, citationKey: string): Result<string, Failure> {
    if header == UseCitation then FromMeta(src.text(citationKey)) else Ok(header)
  }

  /** Every header part with both page-header markers replaced. */
  function HeaderParts(headers: seq<Node>, ru: string, en: string): (r: seq<Node>)
    ensures |r| == |headers|
    ensures forall i :: 0 <= i < |headers| ==>
              r[i] == ReplaceInlineNode(ReplaceInlineNode(headers[i], PageHeaderPattern("ru"), ru), PageHeaderPattern("en"), en)
  {
    seq(|headers|, i requires 0 <= i < |headers| =>
      ReplaceInlineNode(ReplaceInlineNode(headers[i], PageHeaderPattern("ru"), ru), PageHeaderPattern("en"), en))
  }

  /** `replacePageHeaders`: both header values, `@use_citation` resolved, substituted into every header part. */
  function PageHeaders(headers: seq<Node>, src: Source): Result<seq<Node>, Failure> {
    var ru0 :- FromMeta(src.text(TemplateKey("page_header_ru")));
    var en0 :- FromMeta(src.text(TemplateKey("page_header_en")));
    var ru :- ResolveCitation(src, ru0, TemplateKey("for_citation_ru"));
    var en :- ResolveCitation(src, en0, TemplateKey("for_citation_en"));
    Ok(HeaderParts(headers, ru, en))
  }

  /** The loop of `replacePageHeaders` over the header parts. */
  method ReplaceHeaderParts(headers: seq<Node>, ru: string, en: string) returns (out: seq<Node>)
    ensures out == HeaderParts(headers, ru, en)
  {
    out := [];
    var k := 0;
    while k < |headers|
      invariant 0 <= k <= |headers| && |out| == k
      invariant forall j :: 0 <= j < k ==> out[j] == HeaderParts(headers, ru, en)[j]
    {
      var header := ReplaceInlineNode(headers[k], PageHeaderPattern("ru"), ru);
      header := ReplaceInlineNode(header, PageHeaderPattern("en"), en);
      out := out + [header];
      k := k + 1;
    }
  }

  method ReplacePageHeaders(headers: seq<Node>, src: Source) returns (r: Result<seq<Node>, Failure>)
    ensures r == PageHeaders(headers, src)
  {
    var headerRu :- FromMeta(src.text(TemplateKey("page_header_ru")));
    var headerEn :- FromMeta(src.text(TemplateKey("page_header_en")));
    ghost var ru0, en0 := headerRu, headerEn;
    if headerRu == UseCitation {
      headerRu :- FromMeta(src.text(TemplateKey("for_citation_ru")));
    }
    if headerEn == UseCitation {
      headerEn :- FromMeta(src.text(TemplateKey("for_citation_en")));
    }
    assert ResolveCitation(src, ru0, TemplateKey("for_citation_ru")) == Ok(headerRu);
    assert ResolveCitation(src, en0, TemplateKey("for_citation_en")) == Ok(headerEn);
    var out := ReplaceHeaderParts(headers, headerRu, headerEn);
    return Ok(out);
  }

  /** A page header set to `@use_citation` shows the citation line of that language. */
  lemma PageHeaderUsesCitation(headers: seq<Node>, src: Source)
    requires PageHeaders(headers, src).Ok?
    requires src.text(TemplateKey("page_header_ru")) == Ok(UseCitation)
    ensures src.text(TemplateKey("for_citation_ru")).Ok?
    ensures var ru := src.text(TemplateKey("for_citation_ru")).value;
      var en := ResolveCitation(src, src.text(TemplateKey("page_header_en")).value, TemplateKey("for_citation_en")).value;
      PageHeaders(headers, src).value == HeaderParts(headers, ru, en)
  {
  }

  // ----- replaceTemplates -----

  const TemplateNames: seq<string> := ["header", "abstract", "keywords", "for_citation", "acknowledgements"]

  /** `template + "_" + language` for every language. */
  function LangRow(template: string, langs: seq<string>): (r: seq<string>)
    ensures |r| == |langs| && forall l :: 0 <= l < |langs| ==> r[l] == template + "_" + langs[l]
  {
    seq(|langs|, l requires 0 <= l < |langs| => template + "_" + langs[l])
  }

  /** The rows of every template, template-major. */
  function LangNames(templates: seq<string>, langs: seq<string>): (r: seq<string>)
    ensures |r| == |templates| * |langs|
  {
    if |templates| == 0 then [] else LangRow(templates[0], langs) + LangNames(templates[1..], langs)
  }

  /** The inline templates, each read from the metadata and substituted in turn. */
  function InlineAll(body: seq<Node>, src: Source, names: seq<string>): Result<seq<Node>, Failure>
    decreases |names|
  {
    if |names| == 0 then Ok(body)
    else
      var value :- FromMeta(src.text(TemplateKey(names[0])));
      InlineAll(ReplaceInline(body, "{{{" + names[0] + "}}}", value), src, names[1..])
  }

  /** Substituting two lists of templates is substituting the first, then the second. */
  lemma {:induction false} InlineAllAppend(body: seq<Node>, src: Source, xs: seq<string>, ys: seq<string>)
    ensures InlineAll(body, src, xs + ys) ==
            (match InlineAll(body, src, xs) case Ok(b) => InlineAll(b, src, ys) case Err(e) => Err(e))
    decreases |xs|
  {
    if |xs| == 0 {
      assert xs + ys == ys;
    } else {
      assert (xs + ys)[0] == xs[0] && (xs + ys)[1..] == xs[1..] + ys;
      var value := FromMeta(src.text(TemplateKey(xs[0])));
      if value.Ok? {
        InlineAllAppend(ReplaceInline(body, "{{{" + xs[0] + "}}}", value.value), src, xs[1..], ys);
      }
    }
  }

  /** `replaceTemplates` on the template's body. */
  function Substituted(templateBody: seq<Node>, body: seq<Node>, src: Source): Result<seq<Node>, Failure> {
    var b1 :- BodyContents(templateBody, body);
    var b2 :- AuthorList(b1, src);
    var b3 :- InlineAll(b2, src, LangNames(TemplateNames, Languages));
    AuthorsDetail(b3, src)
  }

  /** The inner loop of `replaceTemplates`: one template in every language. */
  method ReplaceTemplateLangs(body: seq<Node>, src: Source, template: string) returns (r: Result<seq<Node>, Failure>)
    ensures r == InlineAll(body, src, LangRow(template, Languages))
  {
    var b := body;
    ghost var row := LangRow(template, Languages);
    var l := 0;
    assert row[0..] == row;
    while l < |Languages|
      invariant 0 <= l <= |Languages|
      invariant InlineAll(body, src, row) == InlineAll(b, src, row[l..])
    {
      var templateLang := template + "_" + Languages[l];
      assert row[l..][0] == templateLang && row[l..][1..] == row[l + 1..];
      var value :- FromMeta(src.text(TemplateKey(templateLang)));
      b := ReplaceInlineTemplate(b, "{{{" + templateLang + "}}}", value);
      l := l + 1;
    }
    assert row[l..] == [];
    return Ok(b);
  }

  method ReplaceTemplates(templateBody: seq<Node>, body: seq<Node>, src: Source) returns (r: Result<seq<Node>, Failure>)
    ensures r == Substituted(templateBody, body, src)
  {
    var b :- TemplateReplaceBodyContents(templateBody, body);
    b :- TemplateAuthorList(b, src);
    ghost var start := b;
    var t := 0;
    assert TemplateNames[0..] == TemplateNames;
    while t < |TemplateNames|
      invariant 0 <= t <= |TemplateNames|
      invariant InlineAll(start, src, LangNames(TemplateNames, Languages)) ==
                InlineAll(b, src, LangNames(TemplateNames[t..], Languages))
    {
      assert TemplateNames[t..][0] == TemplateNames[t] && TemplateNames[t..][1..] == TemplateNames[t + 1..];
      InlineAllAppend(b, src, LangRow(TemplateNames[t], Languages), LangNames(TemplateNames[t + 1..], Languages));
      b :- ReplaceTemplateLangs(b, src, TemplateNames[t]);
      t := t + 1;
    }
    r := TemplateReplaceAuthorsDetail(b, src);
  }

  // ----- relationship ids -----

  /** One attribute of `patchRelIds`: a non-empty id the map knows is renamed. */
  function PatchRelAttr(attrs: map<string, string>, key: string, relMap: map<string, string>): map<string, string> {
    if key in attrs && attrs[key] != "" && attrs[key] in relMap then attrs[key := relMap[attrs[key]]] else attrs
  }

  /** The node's own attributes after the patch: `r:id`, then `r:embed`. */
  function PatchOwn(attrs: map<string, string>, relMap: map<string, string>): map<string, string> {
    PatchRelAttr(PatchRelAttr(attrs, "r:id", relMap), "r:embed", relMap)
  }

  /** The callback `patchRelIds` gives `visitSubtree`. */
  function RelPatcher(relMap: map<string, string>): AttrEdit {
    (tag: string, attrs: map<string, string>) => PatchOwn(attrs, relMap)
  }

  /** `patchRelIds`: every node of the document has its relationship references renamed. */
  function PatchRelIds(n: Node, relMap: map<string, string>): Node {
    Rewrite(n, RelPatcher(relMap))
  }

  /**
   * Node for node, in pre-order, the patched document is the original with
   * each element's `r:id` and `r:embed` renamed and nothing else changed.
   */
  lemma PatchRelIdsPreOrder(n: Node, relMap: map<string, string>)
    ensures |Flatten(PatchRelIds(n, relMap))| == |Flatten(n)|
    ensures forall i :: 0 <= i < |Flatten(n)| ==>
              var m := Flatten(n)[i];
              Shallow(Flatten(PatchRelIds(n, relMap))[i]) ==
                (if m.Element? then Element(m.tag, PatchOwn(m.attrs, relMap), []) else m)
  {
    RewritePreOrder(n, RelPatcher(relMap));
  }
}
